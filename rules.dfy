/** The game as a state machine over the mutable `disk`: each command of
    index.js as a function from the state before to the state after and the
    lines it prints. The `World` class executes the same steps in place. */
module Rules {
  import opened Wrappers
  import opened Text
  import opened Messages
  import opened Disk
  import opened Dialogue
  import opened Complete
  import Commands

  /** The parts of `disk` that commands change. */
  datatype State = State(roomId: string, rooms: seq<Room>, inventory: seq<Item>,
                         characters: seq<Character>, conversation: Option<Topics>,
                         conversant: Option<nat>)

  /** A state after a command, and the lines `println` showed on the way. */
  datatype Step = Step(state: State, lines: seq<string>)

  /** `println(line)` shows nothing for an empty line. */
  function Line(s: string): seq<string> {
    if s == "" then [] else [s]
  }

  predicate AllWellFormed(cs: seq<Character>) {
    forall i :: 0 <= i < |cs| ==> WellFormedTopics(cs[i].topics)
  }

  /** The invariant of every reachable state: the current room exists, a
      conversation is live exactly when there is a conversant, and the live
      conversation is that character's topics. */
  predicate Consistent(s: State) {
    FindRoom(s.rooms, s.roomId).Some?
    && AllWellFormed(s.characters)
    && (s.conversant.Some? <==> s.conversation.Some?)
    && (s.conversant.Some? ==>
          s.conversant.value < |s.characters|
          && IsDialogue(s.characters[s.conversant.value].topics)
          && s.conversation == Some(s.characters[s.conversant.value].topics))
  }

  /** What `loadDisk` needs of a disk: its start room exists and every topic
      of a list conversation has a keyword. */
  predicate DiskWellFormed(d: Disk) {
    FindRoom(d.rooms, d.roomId).Some? && AllWellFormed(d.characters)
  }

  predicate SameRoomIds(a: seq<Room>, b: seq<Room>) {
    |a| == |b| && forall j :: 0 <= j < |a| ==> a[j].id == b[j].id
  }

  /** Room lookup depends on the room ids only. */
  lemma SameRoomIdsFind(a: seq<Room>, b: seq<Room>, id: string)
    requires SameRoomIds(a, b)
    ensures FindRoom(a, id) == FindRoom(b, id)
  {
    var fa, fb := FindRoom(a, id), FindRoom(b, id);
    if fa.Some? && fb.Some? {
      assert !(fa.value < fb.value) && !(fb.value < fa.value);
    }
  }

  /** Replacing a room by one with the same id keeps the state consistent. */
  lemma UpdateRoomConsistent(s: State, i: nat, room: Room)
    requires Consistent(s) && i < |s.rooms| && room.id == s.rooms[i].id
    ensures Consistent(s.(rooms := s.rooms[i := room]))
    ensures FindRoom(s.rooms[i := room], s.roomId) == FindRoom(s.rooms, s.roomId)
  {
    SameRoomIdsFind(s.rooms, s.rooms[i := room], s.roomId);
  }

  /** `init`: every room unvisited, every chat log empty, no conversation. */
  function Init(d: Disk): (s: State)
    requires DiskWellFormed(d)
    ensures Consistent(s)
    ensures s.roomId == d.roomId && s.inventory == d.inventory
    ensures |s.rooms| == |d.rooms| && forall j :: 0 <= j < |d.rooms| ==> s.rooms[j] == d.rooms[j].(visits := 0)
    ensures |s.characters| == |d.characters|
    ensures forall i :: 0 <= i < |d.characters| ==> s.characters[i] == d.characters[i].(chatLog := [])
    ensures s.conversation.None? && s.conversant.None?
  {
    var rooms := seq(|d.rooms|, j requires 0 <= j < |d.rooms| => d.rooms[j].(visits := 0));
    var chars := seq(|d.characters|, i requires 0 <= i < |d.characters| => d.characters[i].(chatLog := []));
    SameRoomIdsFind(d.rooms, rooms, d.roomId);
    State(d.roomId, rooms, d.inventory, chars, None, None)
  }

  /** `getRoom(disk.roomId)`. */
  function HereIndex(s: State): (i: nat)
    requires Consistent(s)
    ensures i < |s.rooms| && s.rooms[i].id == s.roomId
  {
    FindRoom(s.rooms, s.roomId).value
  }

  function Here(s: State): Room
    requires Consistent(s)
  {
    s.rooms[HereIndex(s)]
  }

  /** `getCharactersInRoom(disk.roomId)`. */
  function InRoom(s: State): seq<nat> {
    CharactersInRoom(s.characters, s.roomId)
  }

  // Navigation

  /** The lines `enterRoom` prints: the image, the name, and the
      description on the first visit only. */
  function EntryLines(room: Room): seq<string> {
    Line(room.img)
    + (if room.name.Some? then Line(GetName(room.name.value)) else [])
    + (if room.visits == 0 then Line(room.desc) else [])
  }

  /** `enterRoom(id)`. */
  function EnterRoom(s: State, id: string): (r: Step)
    requires Consistent(s)
    ensures Consistent(r.state)
    ensures FindRoom(s.rooms, id).None? ==> r == Step(s, [NoSuchRoom])
    ensures FindRoom(s.rooms, id).Some? ==>
      var i := FindRoom(s.rooms, id).value;
      r.state.roomId == id && r.state.conversation.None? && r.state.conversant.None?
      && r.state.inventory == s.inventory && r.state.characters == s.characters
      && |r.state.rooms| == |s.rooms|
      && r.state.rooms[i] == s.rooms[i].(visits := s.rooms[i].visits + 1)
      && (forall j :: 0 <= j < |s.rooms| && j != i ==> r.state.rooms[j] == s.rooms[j])
      && r.lines == EntryLines(s.rooms[i])
  {
    match FindRoom(s.rooms, id)
    case None => Step(s, [NoSuchRoom])
    case Some(i) =>
      var room := s.rooms[i];
      var rooms := s.rooms[i := room.(visits := room.visits + 1)];
      SameRoomIdsFind(s.rooms, rooms, id);
      Step(s.(rooms := rooms, roomId := id, conversation := None, conversant := None), EntryLines(room))
  }

  /** Entering the same room twice shows its description the first time
      only (when it starts unvisited), and counts two visits. */
  lemma SecondEntryOmitsDescription(s: State, id: string)
    requires Consistent(s)
    requires FindRoom(s.rooms, id).Some? && s.rooms[FindRoom(s.rooms, id).value].visits == 0
    ensures var room := s.rooms[FindRoom(s.rooms, id).value];
      var first := EnterRoom(s, id);
      var second := EnterRoom(first.state, id);
      first.lines == EntryLines(room.(visits := 1)) + Line(room.desc)
      && second.lines == EntryLines(room.(visits := 1))
      && second.state.rooms[FindRoom(s.rooms, id).value].visits == 2
  {
    var i := FindRoom(s.rooms, id).value;
    var first := EnterRoom(s, id);
    SameRoomIdsFind(s.rooms, first.state.rooms, id);
  }

  /** Where `goDir(dir)` leads from a room. */
  datatype GoOutcome = NoExits | NoSuchExit | Blocked(text: string) | Leads(id: string)

  function GoOutcomeOf(room: Room, dir: string): GoOutcome {
    match room.exits
    case None => NoExits
    case Some(es) =>
      match GetExit(StripTrailingUt(dir), es)
      case None => NoSuchExit
      case Some(e) => if es[e].block != "" then Blocked(es[e].block) else Leads(es[e].id)
  }

  /** `goDir(dir)`: a refusal prints one message and changes nothing; an
      open exit enters its room. */
  function GoDir(s: State, dir: string): (r: Step)
    requires Consistent(s)
    ensures Consistent(r.state)
    ensures !GoOutcomeOf(Here(s), dir).Leads? ==> r.state == s && |r.lines| == 1
    ensures GoOutcomeOf(Here(s), dir).Leads? ==> r == EnterRoom(s, GoOutcomeOf(Here(s), dir).id)
  {
    match GoOutcomeOf(Here(s), dir)
    case NoExits => Step(s, [NowhereToGo])
    case NoSuchExit => Step(s, [CannotGoThatWay])
    case Blocked(text) => Step(s, [text])
    case Leads(id) => EnterRoom(s, id)
  }

  /** The three refusals of `goDir` and their messages. */
  lemma GoDirRefusals(s: State, dir: string)
    requires Consistent(s)
    ensures Here(s).exits.None? ==> GoDir(s, dir) == Step(s, [NowhereToGo])
    ensures Here(s).exits.Some? && GetExit(StripTrailingUt(dir), Here(s).exits.value).None? ==>
      GoDir(s, dir) == Step(s, [CannotGoThatWay])
    ensures Here(s).exits.Some? && GetExit(StripTrailingUt(dir), Here(s).exits.value).Some? ==>
      var e := Here(s).exits.value[GetExit(StripTrailingUt(dir), Here(s).exits.value).value];
      (e.block != "" ==> GoDir(s, dir) == Step(s, [e.block]))
      && (e.block == "" ==> GoDir(s, dir) == EnterRoom(s, e.id))
  {
  }

  /** "gå norrut" goes where "gå norr" goes. */
  lemma GoDirIgnoresUt(s: State, dir: string)
    requires Consistent(s) && !EndsWith(dir, "ut")
    ensures GoDir(s, dir + "ut") == GoDir(s, dir)
  {
    var d := dir + "ut";
    assert d[|d| - 2..] == "ut";
    assert StripTrailingUt(d) == dir;
  }

  /** The text after the bullet for one exit of the listing. */
  function ExitLabel(e: Exit, target: Room): string {
    var dir := Upper(GetName(e.dir));
    if target.visits > 0 then dir + " - " + NameText(target.name) else dir
  }

  /** The label line of an exit whose room exists. */
  function ReachableBullet(rooms: seq<Room>, e: Exit): string
    requires FindRoom(rooms, e.id).Some?
  {
    Bullet(ExitLabel(e, rooms[FindRoom(rooms, e.id).value]))
  }

  /** The bullet `go` prints for an exit: none when its room is missing. */
  function ExitBullet(rooms: seq<Room>, e: Exit): seq<string> {
    if FindRoom(rooms, e.id).Some? then [ReachableBullet(rooms, e)] else []
  }

  /** The bullets of the exit listing, in exit order. */
  function ExitBullets(rooms: seq<Room>, es: seq<Exit>): (r: seq<string>)
    ensures |r| <= |es|
    ensures (forall k :: 0 <= k < |es| ==> FindRoom(rooms, es[k].id).Some?) ==> |r| == |es|
    ensures forall k :: 0 <= k < |r| ==> r[k] != ""
  {
    if es == [] then []
    else ExitBullets(rooms, es[..|es| - 1]) + ExitBullet(rooms, es[|es| - 1])
  }

  /** The listing of one more exit is the listing so far and its bullet. */
  lemma ExitBulletsSnoc(rooms: seq<Room>, es: seq<Exit>, k: nat)
    requires k < |es|
    ensures ExitBullets(rooms, es[..k + 1]) == ExitBullets(rooms, es[..k]) + ExitBullet(rooms, es[k])
  {
    var ks := es[..k + 1];
    assert ks[..|ks| - 1] == es[..k];
  }

  /** The exits whose target room exists, in exit order. */
  function ReachableExits(rooms: seq<Room>, es: seq<Exit>): (r: seq<Exit>)
    ensures forall e :: e in r <==> e in es && FindRoom(rooms, e.id).Some?
    ensures |r| <= |es|
  {
    if es == [] then []
    else
      var last := es[|es| - 1];
      assert es == es[..|es| - 1] + [last];
      ReachableExits(rooms, es[..|es| - 1]) + (if FindRoom(rooms, last.id).Some? then [last] else [])
  }

  /** The listing is the labels of the reachable exits, one each, in exit
      order: an exit to a missing room is skipped. */
  lemma {:induction false} ExitBulletsLabels(rooms: seq<Room>, es: seq<Exit>)
    ensures var ks := ReachableExits(rooms, es);
      ExitBullets(rooms, es) == seq(|ks|, i requires 0 <= i < |ks| => ReachableBullet(rooms, ks[i]))
    decreases |es|
  {
    if es != [] {
      var n := |es| - 1;
      ExitBulletsLabels(rooms, es[..n]);
    }
  }

  /** A room's name shows in the listing exactly when it has been visited. */
  lemma ExitLabelRevealsVisited(e: Exit, target: Room)
    ensures target.visits == 0 ==> ExitLabel(e, target) == Upper(GetName(e.dir))
    ensures target.visits > 0 ==>
      StartsWith(ExitLabel(e, target), Upper(GetName(e.dir)) + " - ")
      && EndsWith(ExitLabel(e, target), NameText(target.name))
  {
    var dir := Upper(GetName(e.dir));
    if target.visits > 0 {
      var l := ExitLabel(e, target);
      assert l == (dir + " - ") + NameText(target.name);
      assert l[..|dir + " - "|] == dir + " - ";
      assert l[|l| - |NameText(target.name)|..] == NameText(target.name);
    }
  }

  /** `go` with no argument: the exits of the current room. */
  function ExitLines(s: State): seq<string>
    requires Consistent(s)
  {
    match Here(s).exits
    case None => [NowhereToGo]
    case Some(es) => [WhereToGo] + ExitBullets(s.rooms, es)
  }

  // Items

  function NameBullets(ns: seq<Name>): (r: seq<string>)
    ensures |r| == |ns| && forall i :: 0 <= i < |ns| ==> r[i] == Bullet(GetName(ns[i]))
  {
    seq(|ns|, i requires 0 <= i < |ns| => Bullet(GetName(ns[i])))
  }

  /** Listing one more name adds its bullet at the end. */
  lemma NameBulletsSnoc(ns: seq<Name>, k: nat)
    requires k < |ns|
    ensures NameBullets(ns[..k + 1]) == NameBullets(ns[..k]) + [Bullet(GetName(ns[k]))]
  {
  }

  /** `inv`. */
  function InvLines(s: State): seq<string> {
    if |s.inventory| == 0 then [EmptyBackpack]
    else [BackpackHolds] + NameBullets(ItemNames(s.inventory))
  }

  /** `look`. */
  function LookLines(s: State): seq<string>
    requires Consistent(s)
  {
    Line(Here(s).desc)
  }

  predicate IsTakeable(it: Item) {
    it.isTakeable
  }

  /** An item with a use handler. */
  predicate IsUsable(it: Item) {
    !it.onUse.NoUse?
  }

  /** The takeable items, in order. */
  function Takeable(items: seq<Item>): seq<Item> {
    if items == [] then []
    else
      var rest := Takeable(items[1..]);
      if IsTakeable(items[0]) then [items[0]] + rest else rest
  }

  lemma {:induction false} TakeableMembers(items: seq<Item>)
    ensures forall it :: it in Takeable(items) <==> it in items && IsTakeable(it)
    ensures |Takeable(items)| <= |items|
  {
    if items != [] {
      TakeableMembers(items[1..]);
      assert forall it :: it in items <==> it == items[0] || it in items[1..];
    }
  }

  /** The items with a use handler, in order. */
  function Usable(items: seq<Item>): seq<Item> {
    if items == [] then []
    else
      var rest := Usable(items[1..]);
      if IsUsable(items[0]) then [items[0]] + rest else rest
  }

  lemma {:induction false} UsableMembers(items: seq<Item>)
    ensures forall it :: it in Usable(items) <==> it in items && IsUsable(it)
    ensures |Usable(items)| <= |items|
  {
    if items != [] {
      UsableMembers(items[1..]);
      assert forall it :: it in items <==> it == items[0] || it in items[1..];
    }
  }

  /** `take` with no argument: the takeable items of the room. */
  function TakeableLines(s: State): seq<string>
    requires Consistent(s)
  {
    var items := Takeable(Here(s).items);
    if |items| == 0 then [NothingToTake] else [CanTake] + NameBullets(ItemNames(items))
  }

  /** `use` with no argument: the items of the room, then of the inventory,
      that have a use handler. */
  function UsableLines(s: State): seq<string>
    requires Consistent(s)
  {
    var items := Usable(Here(s).items + s.inventory);
    if |items| == 0 then [NothingToUse] else [CanUse] + NameBullets(ItemNames(items))
  }

  /** `items`. */
  function ItemLines(s: State): seq<string>
    requires Consistent(s)
  {
    var items := Here(s).items;
    if |items| == 0 then [NothingInRoom] else [YouSee] + NameBullets(ItemNames(items))
  }

  /** The names of the characters with the given indices, in order. */
  function CharacterNamesOf(s: State, cs: seq<nat>): (r: seq<Name>)
    requires forall k :: 0 <= k < |cs| ==> cs[k] < |s.characters|
    ensures |r| == |cs| && forall k :: 0 <= k < |cs| ==> r[k] == s.characters[cs[k]].name
  {
    CharacterNames(seq(|cs|, k requires 0 <= k < |cs| => s.characters[cs[k]]))
  }

  /** `chars`. */
  function CharacterLines(s: State): seq<string> {
    var cs := InRoom(s);
    if |cs| == 0 then [NoOneHere] else [YouSee] + NameBullets(CharacterNamesOf(s, cs))
  }

  /** `getItemInInventory(name) || getItemInRoom(name, disk.roomId)`. */
  function FoundItem(s: State, name: string): (r: Option<Item>)
    requires Consistent(s)
    ensures r.Some? ==> ObjectHasName(r.value.name, name)
                        && (r.value in s.inventory || r.value in Here(s).items)
    ensures r.None? ==> forall it :: it in s.inventory + Here(s).items ==> !ObjectHasName(it.name, name)
    ensures (exists it :: it in s.inventory && ObjectHasName(it.name, name)) ==> r.Some? && r.value in s.inventory
  {
    match GetItem(s.inventory, name)
    case Some(k) => Some(s.inventory[k])
    case None =>
      match GetItem(Here(s).items, name)
      case Some(k) => Some(Here(s).items[k])
      case None => None
  }

  /** `lookAt` with the name it looks at. */
  function LookAtLines(s: State, name: string): seq<string>
    requires Consistent(s)
  {
    match FoundItem(s, name)
    case Some(item) => [if item.desc != "" then item.desc else NothingSpecial]
    case None =>
      match GetCharacter(name, s.characters, InRoom(s))
      case Some(c) =>
        [if s.characters[c].desc != "" then s.characters[c].desc else NothingSpecialAbout(name)]
      case None => [NothingToLookAt(name)]
  }

  /** `takeItem(name)`. */
  function TakeItem(s: State, name: string): (r: Step)
    requires Consistent(s)
    ensures Consistent(r.state)
  {
    var i := HereIndex(s);
    var room := s.rooms[i];
    match GetItem(room.items, name)
    case Some(k) =>
      var item := room.items[k];
      if item.isTakeable then
        var after := room.(items := room.items[..k] + room.items[k + 1..]);
        UpdateRoomConsistent(s, i, after);
        Step(s.(inventory := s.inventory + [item], rooms := s.rooms[i := after]),
             if item.onTake then [] else [Took(GetName(item.name))])
      else
        Step(s, [if item.block != "" then item.block else StuckFast])
    case None =>
      Step(s, [if GetItem(s.inventory, name).Some? then AlreadyHave else SeeNoSuch])
  }

  /** Taking moves the first room item with the name, when it is takeable,
      to the end of the inventory and out of the room, keeping the order of
      the rest and everything else; otherwise nothing changes. */
  lemma TakeItemMoves(s: State, name: string)
    requires Consistent(s)
    ensures var room := Here(s);
      var r := TakeItem(s, name);
      var k := GetItem(room.items, name);
      (k.Some? && room.items[k.value].isTakeable ==>
         var item := room.items[k.value];
         r.state.inventory == s.inventory + [item]
         && r.state.roomId == s.roomId && Consistent(r.state) && HereIndex(r.state) == HereIndex(s)
         && Here(r.state).items == room.items[..k.value] + room.items[k.value + 1..]
         && |r.state.rooms| == |s.rooms|
         && r.state.rooms[HereIndex(s)] == room.(items := room.items[..k.value] + room.items[k.value + 1..])
         && multiset(Here(r.state).items) + multiset{item} == multiset(room.items)
         && multiset(r.state.inventory) + multiset(Here(r.state).items)
            == multiset(s.inventory) + multiset(room.items)
         && (forall j :: 0 <= j < |s.rooms| && j != HereIndex(s) ==> r.state.rooms[j] == s.rooms[j])
         && r.state.characters == s.characters && r.state.conversation == s.conversation
         && r.state.conversant == s.conversant)
      && (!(k.Some? && room.items[k.value].isTakeable) ==> r.state == s && |r.lines| == 1)
  {
    var room := Here(s);
    var i := HereIndex(s);
    var k := GetItem(room.items, name);
    if k.Some? && room.items[k.value].isTakeable {
      var n := k.value;
      var after := room.(items := room.items[..n] + room.items[n + 1..]);
      UpdateRoomConsistent(s, i, after);
      RemoveAtMultiset(room.items, n);
    }
  }

  /** Splicing out one element removes exactly that element. */
  lemma RemoveAtMultiset<T>(xs: seq<T>, k: nat)
    requires k < |xs|
    ensures multiset(xs[..k] + xs[k + 1..]) + multiset{xs[k]} == multiset(xs)
  {
    assert xs == xs[..k] + [xs[k]] + xs[k + 1..];
  }

  /** The `yxa` handler (game-disks/test-disk.js): delete the block of the
      exit `dir` of room `rid`, printing `cleared`, or print `idle` when it
      has none. A missing room, exit list or exit throws in the source; here
      it does nothing. */
  function ClearBlock(s: State, rid: string, dir: string, cleared: string, idle: string): (r: Step)
    requires Consistent(s)
    ensures Consistent(r.state)
  {
    match FindRoom(s.rooms, rid)
    case None => Step(s, [])
    case Some(i) =>
      match s.rooms[i].exits
      case None => Step(s, [])
      case Some(es) =>
        match GetExit(dir, es)
        case None => Step(s, [])
        case Some(e) =>
          if es[e].block != "" then
            var after := s.rooms[i].(exits := Some(es[e := es[e].(block := "")]));
            UpdateRoomConsistent(s, i, after);
            Step(s.(rooms := s.rooms[i := after]), Line(cleared))
          else Step(s, Line(idle))
  }

  /** Exit lookup depends on the directions only. */
  lemma SameDirsGetExit(a: seq<Exit>, b: seq<Exit>, dir: string)
    requires |a| == |b| && forall j :: 0 <= j < |a| ==> a[j].dir == b[j].dir
    ensures GetExit(dir, a) == GetExit(dir, b)
  {
    var fa, fb := GetExit(dir, a), GetExit(dir, b);
    if fa.Some? && fb.Some? {
      assert !(fa.value < fb.value) && !(fb.value < fa.value);
    }
  }

  /** Clearing a block twice leaves the world as clearing it once, and
      afterwards the exit is open. */
  lemma ClearBlockIdempotent(s: State, rid: string, dir: string, cleared: string, idle: string)
    requires Consistent(s)
    ensures var once := ClearBlock(s, rid, dir, cleared, idle).state;
      ClearBlock(once, rid, dir, cleared, idle).state == once
    ensures var once := ClearBlock(s, rid, dir, cleared, idle).state;
      FindRoom(once.rooms, rid).Some? && once.rooms[FindRoom(once.rooms, rid).value].exits.Some? ==>
      var es := once.rooms[FindRoom(once.rooms, rid).value].exits.value;
      GetExit(dir, es).Some? ==> es[GetExit(dir, es).value].block == ""
  {
    var once := ClearBlock(s, rid, dir, cleared, idle).state;
    var f := FindRoom(s.rooms, rid);
    if f.Some? && s.rooms[f.value].exits.Some? {
      var i := f.value;
      var es := s.rooms[i].exits.value;
      var e := GetExit(dir, es);
      if e.Some? && es[e.value].block != "" {
        var es2 := es[e.value := es[e.value].(block := "")];
        SameRoomIdsFind(s.rooms, once.rooms, rid);
        SameDirsGetExit(es, es2, dir);
      }
    }
  }

  /** `useItem(name)`. */
  function UseItem(s: State, name: string): (r: Step)
    requires Consistent(s)
    ensures Consistent(r.state)
  {
    match FoundItem(s, name)
    case None => Step(s, [HaveNo(name)])
    case Some(item) =>
      match item.onUse
      case NoUse => Step(s, [CannotUse])
      case GoDirUse(dir) => GoDir(s, dir)
      case ClearBlockUse(rid, dir, cleared, idle) => ClearBlock(s, rid, dir, cleared, idle)
      case HookUse => Step(s, [])
  }

  /** Using an item never moves anything between the rooms and the
      backpack and never touches the characters; an item that is not found,
      or that has no use, leaves the state as it was. */
  lemma UseItemKeepsBelongings(s: State, name: string)
    requires Consistent(s)
    ensures var r := UseItem(s, name);
      r.state.inventory == s.inventory && r.state.characters == s.characters
      && (FoundItem(s, name).None? || FoundItem(s, name).value.onUse.NoUse? ==> r.state == s)
  {
    match FoundItem(s, name)
    case None =>
    case Some(item) =>
      match item.onUse
      case NoUse =>
      case GoDirUse(dir) =>
        if GoOutcomeOf(Here(s), dir).Leads? {
          assert GoDir(s, dir) == EnterRoom(s, GoOutcomeOf(Here(s), dir).id);
        }
      case ClearBlockUse(rid, dir, cleared, idle) =>
      case HookUse =>
  }

  // Conversation

  /** `listTopics` for character `c`: it becomes the conversant and its
      topics the conversation, unless nothing can be listed, in which case
      the conversation ends. */
  function List(s: State, c: nat, lead: seq<string>): (r: Step)
    requires FindRoom(s.rooms, s.roomId).Some? && AllWellFormed(s.characters)
    requires c < |s.characters| && IsDialogue(s.characters[c].topics)
    ensures Consistent(r.state)
    ensures r.state.roomId == s.roomId && r.state.rooms == s.rooms
    ensures r.state.inventory == s.inventory && r.state.characters == s.characters
  {
    var ch := s.characters[c];
    match ListTopics(ch.topics, ch.chatLog)
    case Menu(lines) => Step(s.(conversation := Some(ch.topics), conversant := Some(c)), lead + lines)
    case Ended => Step(s.(conversation := None, conversant := None), lead)
  }

  /** The lines printed before `listTopics` come first; the listing does not
      depend on them. */
  lemma ListAfterLead(s: State, c: nat, lead: seq<string>)
    requires FindRoom(s.rooms, s.roomId).Some? && AllWellFormed(s.characters)
    requires c < |s.characters| && IsDialogue(s.characters[c].topics)
    ensures List(s, c, lead) == Step(List(s, c, []).state, lead + List(s, c, []).lines)
  {
  }

  /** `talkToOrAboutX('med', x)`. */
  function TalkTo(s: State, x: string): (r: Step)
    requires Consistent(s)
    ensures Consistent(r.state)
    ensures r.state.roomId == s.roomId && r.state.rooms == s.rooms && r.state.inventory == s.inventory
    ensures r.state.characters == s.characters
  {
    if GetCharacter(x, s.characters, AllCharacters(s.characters)).None? then
      Step(s, [NoOneByThatName])
    else
      match GetCharacter(x, s.characters, InRoom(s))
      case None => Step(s, [NoOneByThatName])
      case Some(c) => Greet(s, c)
  }

  /** The part of `talkToOrAboutX('med', x)` after character `c` is found. */
  function Greet(s: State, c: nat): (r: Step)
    requires Consistent(s) && c < |s.characters|
    ensures Consistent(r.state)
    ensures r.state.roomId == s.roomId && r.state.rooms == s.rooms && r.state.inventory == s.inventory
    ensures r.state.characters == s.characters
  {
    var ch := s.characters[c];
    if ch.topics.NoTopics? || ch.topics == FixedText("") then
      Step(s, [NothingToSay(GetName(ch.name))])
    else if ch.topics.FixedText? then
      Step(s, [ch.topics.text])
    else
      Open(s, c)
  }

  /** Greeting a character whose topics are a dialogue: its talk line, then
      the menu, or a refusal when the dialogue is empty. */
  function Open(s: State, c: nat): (r: Step)
    requires Consistent(s) && c < |s.characters| && IsDialogue(s.characters[c].topics)
    ensures Consistent(r.state)
    ensures r.state.roomId == s.roomId && r.state.rooms == s.rooms && r.state.inventory == s.inventory
    ensures r.state.characters == s.characters
  {
    var ch := s.characters[c];
    if (ch.topics.TopicList? && |ch.topics.topics| == 0)
       || (ch.topics.ResponseMap? && |ch.topics.responses| == 0) then
      Step(s, Line(ch.onTalk) + [NothingToSay(GetName(ch.name))])
    else
      List(s, c, Line(ch.onTalk))
  }

  /** `talkToOrAboutX('om', x)`. */
  function TalkAbout(s: State, x: string): (r: Step)
    requires Consistent(s)
    ensures Consistent(r.state)
    ensures r.state.roomId == s.roomId && r.state.rooms == s.rooms && r.state.inventory == s.inventory
  {
    match s.conversant
    case None => Step(s, [NotInConversation])
    case Some(c) =>
      if s.characters[c].roomId != s.roomId then
        Step(s.(conversant := None, conversation := None), [NoLongerAvailable])
      else Reply(s, c, x)
  }

  /** The part of `talkToOrAboutX('om', x)` once the conversant `c` is known
      to be in the room. */
  function Reply(s: State, c: nat, x: string): (r: Step)
    requires Consistent(s) && s.conversant == Some(c)
    ensures Consistent(r.state)
    ensures r.state.roomId == s.roomId && r.state.rooms == s.rooms && r.state.inventory == s.inventory
  {
    var ch := s.characters[c];
    var conversation := ch.topics;
    match Select(conversation, ch.chatLog, Lower(x))
    case Quit => Step(s.(conversant := None, conversation := None), [EndsConversation])
    case Respond => List(s, c, [])
    case Discuss(i) =>
      var t := conversation.topics[i];
      var chars := s.characters[c := ch.(chatLog := ch.chatLog + [Keyword(t)])];
      assert forall j :: 0 <= j < |chars| ==> chars[j].topics == s.characters[j].topics;
      List(s.(characters := chars), c, Line(t.line))
    case NoTopic => List(s, c, [TalksAbout(x), KeywordHint])
  }

  /** `talkToOrAboutX(preposition, x)`: only "med" and "om" are accepted. */
  function TalkToOrAboutX(s: State, preposition: string, x: string): (r: Step)
    requires Consistent(s)
    ensures Consistent(r.state)
    ensures preposition != "med" && preposition != "om" ==> r == Step(s, [PrepositionHint])
    ensures r.state.roomId == s.roomId && r.state.rooms == s.rooms && r.state.inventory == s.inventory
  {
    if preposition != "med" && preposition != "om" then Step(s, [PrepositionHint])
    else if preposition == "med" then TalkTo(s, x)
    else TalkAbout(s, x)
  }

  /** A reply changes at most the conversant's chat log, by appending the
      keyword of the topic it selects. */
  lemma TalkAboutLogs(s: State, x: string)
    requires Consistent(s)
    ensures var after := TalkAbout(s, x).state.characters;
      after == s.characters
      || (s.conversant.Some? && s.conversant.value < |s.characters|
          && var c := s.conversant.value;
          var ch := s.characters[c];
          var sel := Select(ch.topics, ch.chatLog, Lower(x));
          sel.Discuss? && after == s.characters[c := ch.(chatLog := ch.chatLog + [Keyword(ch.topics.topics[sel.index])])])
  {
    if s.conversant.Some? {
      var c := s.conversant.value;
      var ch := s.characters[c];
      if ch.roomId == s.roomId {
        var sel := Select(ch.topics, ch.chatLog, Lower(x));
        if sel.Discuss? {
          var t := ch.topics.topics[sel.index];
          var chars := s.characters[c := ch.(chatLog := ch.chatLog + [Keyword(t)])];
          assert forall j :: 0 <= j < |chars| ==> chars[j].topics == s.characters[j].topics;
          assert TalkAbout(s, x) == List(s.(characters := chars), c, Line(t.line));
        } else if sel.Respond? {
          assert TalkAbout(s, x) == List(s, c, []);
        } else if sel.NoTopic? {
          assert TalkAbout(s, x) == List(s, c, [TalksAbout(x), KeywordHint]);
        }
      }
    }
  }

  /** Talking only ever appends to chat logs, by at most one entry, and to
      the conversant's log only; nothing else about a character changes. */
  lemma ChatLogsOnlyGrow(s: State, preposition: string, x: string)
    requires Consistent(s)
    ensures var after := TalkToOrAboutX(s, preposition, x).state.characters;
      |after| == |s.characters|
      && forall i :: 0 <= i < |after| ==>
           after[i] == s.characters[i].(chatLog := after[i].chatLog)
           && s.characters[i].chatLog <= after[i].chatLog
           && |after[i].chatLog| <= |s.characters[i].chatLog| + 1
           && (after[i].chatLog != s.characters[i].chatLog ==> s.conversant == Some(i))
  {
    if preposition == "om" {
      TalkAboutLogs(s, x);
    }
  }

  /** The ways a reply ends or refuses: without a conversant, with a
      conversant who has left, and with "inget". */
  lemma TalkAboutOutcomes(s: State, x: string)
    requires Consistent(s)
    ensures s.conversant.None? ==> TalkToOrAboutX(s, "om", x) == Step(s, [NotInConversation])
    ensures s.conversant.Some? && s.characters[s.conversant.value].roomId != s.roomId ==>
      TalkToOrAboutX(s, "om", x) == Step(s.(conversant := None, conversation := None), [NoLongerAvailable])
    ensures s.conversant.Some? && s.characters[s.conversant.value].roomId == s.roomId && Lower(x) == "inget" ==>
      TalkToOrAboutX(s, "om", x) == Step(s.(conversant := None, conversation := None), [EndsConversation])
  {
  }

  /** A character found among those in the room is found among all. */
  lemma NamedInRoomIsNamed(s: State, x: string, c: nat)
    requires GetCharacter(x, s.characters, InRoom(s)) == Some(c)
    ensures GetCharacter(x, s.characters, AllCharacters(s.characters)).Some?
  {
    var all := AllCharacters(s.characters);
    assert ObjectHasName(s.characters[c].name, x);
    assert c < |all| && all[c] == c;
    assert ObjectHasName(s.characters[all[c]].name, x);
  }

  /** Greeting a character whose topics are a list with an available topic
      opens a conversation with it, printing its talk line and the menu of
      available topics. */
  lemma GreetOpensConversation(s: State, c: nat)
    requires Consistent(s) && c < |s.characters|
    requires s.characters[c].topics.TopicList?
    requires exists t :: t in s.characters[c].topics.topics && TopicIsAvailable(s.characters[c].chatLog, t)
    ensures var ch := s.characters[c];
      Greet(s, c) == Step(s.(conversant := Some(c), conversation := Some(ch.topics)),
                          Line(ch.onTalk) + [ChoosePrompt]
                          + TopicBullets(AvailableTopics(ch.chatLog, ch.topics.topics)) + [Bullet(NothingOption)])
  {
    var ch := s.characters[c];
    var av := AvailableTopics(ch.chatLog, ch.topics.topics);
    var t :| t in ch.topics.topics && TopicIsAvailable(ch.chatLog, t);
    AvailableTopicsMembers(ch.chatLog, ch.topics.topics);
    assert t in av;
    var menu := [ChoosePrompt] + TopicBullets(av) + [Bullet(NothingOption)];
    assert ListTopics(ch.topics, ch.chatLog) == Menu(menu);
    assert Greet(s, c) == Open(s, c) == List(s, c, Line(ch.onTalk));
    assert Line(ch.onTalk) + menu
        == Line(ch.onTalk) + [ChoosePrompt] + TopicBullets(av) + [Bullet(NothingOption)];
  }

  /** Talking to a character of the room by one of its names is greeting it. */
  lemma TalkToOpensConversation(s: State, x: string, c: nat)
    requires Consistent(s)
    requires GetCharacter(x, s.characters, InRoom(s)) == Some(c)
    requires s.characters[c].topics.TopicList?
    requires exists t :: t in s.characters[c].topics.topics && TopicIsAvailable(s.characters[c].chatLog, t)
    ensures var r := TalkToOrAboutX(s, "med", x);
      var ch := s.characters[c];
      r.state == s.(conversant := Some(c), conversation := Some(ch.topics))
      && r.lines == Line(ch.onTalk) + [ChoosePrompt]
                    + TopicBullets(AvailableTopics(ch.chatLog, ch.topics.topics)) + [Bullet(NothingOption)]
  {
    NamedInRoomIsNamed(s, x, c);
    assert TalkTo(s, x) == Greet(s, c);
    GreetOpensConversation(s, c);
  }

  /** Choosing an available topic prints its line and logs its keyword, and
      the conversation goes on with the topics still available. */
  lemma DiscussingLogsKeyword(s: State, x: string)
    requires Consistent(s) && s.conversant.Some?
    requires s.characters[s.conversant.value].roomId == s.roomId
    requires Select(s.characters[s.conversant.value].topics, s.characters[s.conversant.value].chatLog, Lower(x)).Discuss?
    ensures var c := s.conversant.value;
      var ch := s.characters[c];
      var t := ch.topics.topics[Select(ch.topics, ch.chatLog, Lower(x)).index];
      var r := TalkToOrAboutX(s, "om", x);
      r.state.characters[c].chatLog == ch.chatLog + [Keyword(t)]
      && Line(t.line) <= r.lines
      && (r.state.conversant.None? <==>
            forall u :: u in ch.topics.topics ==> !TopicIsAvailable(ch.chatLog + [Keyword(t)], u))
  {
    var c := s.conversant.value;
    var ch := s.characters[c];
    var t := ch.topics.topics[Select(ch.topics, ch.chatLog, Lower(x)).index];
    var log := ch.chatLog + [Keyword(t)];
    var r := TalkToOrAboutX(s, "om", x);
    ListingShowsAvailable(ch.topics.topics, log);
  }

  /** `talk` with no argument. With exactly one character in the room it
      calls `talkToOrAboutX('to', …)`, which only prints the hint. */
  function Talk(s: State): (r: Step)
    requires Consistent(s)
    ensures Consistent(r.state)
  {
    var cs := InRoom(s);
    if |cs| == 1 then TalkToOrAboutX(s, "to", GetName(s.characters[cs[0]].name))
    else Step(s, [TalkHint] + CharacterLines(s))
  }

  // Dispatch

  /** The `säg` handler of the last table: `reduce` puts a space before
      every word. */
  function SpacedWords(args: seq<string>): string {
    if args == [] then "" else " " + args[0] + SpacedWords(args[1..])
  }

  /** `exec(handler, argument)` and the other outcomes of `applyInput`.
      `pick` stands for the `Math.random` draw of `pickOne`. */
  function Execute(s: State, a: Commands.Action, pick: nat): (r: Step)
    requires Consistent(s)
    requires a.RunN? ==> |a.args| >= 2
    ensures Consistent(r.state)
  {
    match a
    case Run0(c) => Run0(s, c, pick)
    case Run1(c, arg) => Run1(s, c, arg)
    case RunN(c, args) => RunN(s, c, args)
    case TakeFirst(item) => TakeItem(s, item)
    case UseFirst(item) => UseItem(s, item)
    case GoShorthand(dir) => GoDir(s, dir)
    case TalkAboutShorthand(word) => TalkToOrAboutX(s, "about", word)
    case TopicHint => Step(s, [KeywordHint])
    case NotUnderstood => Step(s, [Messages.NotUnderstood])
  }

  /** A handler of the first table, called without an argument. */
  function Run0(s: State, c: Commands.Cmd0, pick: nat): (r: Step)
    requires Consistent(s)
    ensures Consistent(r.state)
  {
    match c
    case Inventory => Step(s, InvLines(s))
    case Look => Step(s, LookLines(s))
    case ListExits => Step(s, ExitLines(s))
    case GoShortcut(dir) => GoDir(s, dir)
    case Talk => Talk(s)
    case ListTakeable => Step(s, TakeableLines(s))
    case ListItems => Step(s, ItemLines(s))
    case ListUsable => Step(s, UsableLines(s))
    case ListCharacters => Step(s, CharacterLines(s))
    case Help => Step(s, [HelpText])
    case Say => Step(s, [SayAlternatives[pick % |SayAlternatives|]])
    case Save => Step(s, [Saved])
    case Load => Step(s, [])
  }

  /** A handler of the second table, called with the one argument. */
  function Run1(s: State, c: Commands.Cmd1, arg: string): (r: Step)
    requires Consistent(s)
    ensures Consistent(r.state)
  {
    match c
    case LookThusly => Step(s, [LooksThusly(arg)])
    case GoDir => GoDir(s, arg)
    case TakeItem => TakeItem(s, arg)
    case UseItem => UseItem(s, arg)
    case SayString => Step(s, [Says(arg)])
    case SaveAs => Step(s, [Saved])
    case LoadFrom => Step(s, [])
    case LookAtOne => Step(s, LookAtLines(s, arg))
    case TalkToOne => TalkToOrAboutX(s, "to", arg)
  }

  /** A handler of the last table, called with the argument words. */
  function RunN(s: State, c: Commands.CmdN, args: seq<string>): (r: Step)
    requires Consistent(s) && |args| >= 2
    ensures Consistent(r.state)
  {
    match c
    case LookAt => Step(s, LookAtLines(s, args[1]))
    case SayWords => Step(s, [Says(SpacedWords(args))])
    case TalkWith => TalkToOrAboutX(s, args[0], args[1])
    case LookAtAll => Step(s, LookAtLines(s, args[0]))
    case GoWords => GoDir(s, args[1])
  }

  /** The three places where the interpreter passes the English words "to"
      and "about" end in the preposition hint and change nothing: `talk`
      with one character in the room, the one-argument shortcut `t` and a
      bare topic keyword typed during a conversation. */
  lemma EnglishPrepositionsOnlyHint(s: State, arg: string, word: string, pick: nat)
    requires Consistent(s)
    ensures |InRoom(s)| == 1 ==> Talk(s) == Step(s, [PrepositionHint])
    ensures Run1(s, Commands.TalkToOne, arg) == Step(s, [PrepositionHint])
    ensures Execute(s, Commands.TalkAboutShorthand(word), pick) == Step(s, [PrepositionHint])
  {
  }

  /** The listing commands of the first table, `help`, `säg`, `spara` and
      `ladda` leave the state as it was; only the direction shortcuts and
      `prata` can change it. */
  lemma ListingCommandsKeepState(s: State, c: Commands.Cmd0, pick: nat)
    requires Consistent(s) && !c.GoShortcut? && !c.Talk?
    ensures Run0(s, c, pick).state == s
  {
  }

  /** The words `applyInput` dispatches on. */
  function InputWords(input: string): seq<string> {
    Commands.ArticleFilter(Split(Lower(input), ' '))
  }

  /** `applyInput` on the raw field value: echo the trimmed input, then run
      what the words resolve to. */
  function Apply(s: State, raw: string, pick: nat): (r: Step)
    requires Consistent(s)
    ensures Consistent(r.state)
    ensures |r.lines| > 0 && r.lines[0] == "> " + Trim(raw)
  {
    var input := Trim(raw);
    var args := InputWords(input);
    Commands.ManyArgumentHandlersGetTwo(args, Here(s).exits, s.conversation);
    var e := Execute(s, Commands.Resolve(args, Here(s).exits, s.conversation), pick);
    Step(e.state, ["> " + input] + e.lines)
  }

  /** The characters of the current room, as values. */
  function CharactersHere(s: State): seq<Character> {
    var cs := InRoom(s);
    seq(|cs|, k requires 0 <= k < |cs| => s.characters[cs[k]])
  }

  /** The words of the input field as `autocomplete` splits them. */
  function CompletionWords(value: string): (r: seq<string>)
    ensures |r| > 0
  {
    SplitOnSpaceRuns(Trim(Lower(value)))
  }

  /** `autocomplete`: the new value of the input field, or `None` to leave it. */
  function Autocomplete(s: State, value: string): Option<string>
    requires Consistent(s)
  {
    var words := CompletionWords(value);
    var options := CompletionOptions(words, Here(s), s.inventory, CharactersHere(s), s.conversation);
    Completion(words, Matches(options, words[|words| - 1]))
  }
}
