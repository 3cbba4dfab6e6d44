/** The engine's global state as an object: the fields of `disk` that
    commands update in place, the lines shown so far, and the input history
    (`inputs`, `inputsPos`). Each method performs one function of index.js
    step by step and is proved to reach the state and print the lines that
    the corresponding `Rules` function gives. */
module Engine {
  import opened Wrappers
  import opened Text
  import opened Messages
  import opened Disk
  import opened Dialogue
  import opened Complete
  import Commands
  import opened Rules

  /** Concatenation regroups freely. */
  lemma AppendAssoc<T>(a: seq<T>, b: seq<T>, c: seq<T>)
    ensures (a + b) + c == a + (b + c)
  {
  }

  class World {
    var roomId: string
    var rooms: seq<Room>
    var inventory: seq<Item>
    var characters: seq<Character>
    var conversation: Option<Topics>
    var conversant: Option<nat>
    /** Every line `println` has shown, oldest first. */
    var output: seq<string>
    var inputs: seq<string>
    var inputsPos: int

    /** The game state these fields hold. */
    function Snapshot(): State
      reads this`roomId, this`rooms, this`inventory, this`characters, this`conversation, this`conversant
    {
      State(roomId, rooms, inventory, characters, conversation, conversant)
    }

    predicate Valid()
      reads this`roomId, this`rooms, this`inventory, this`characters, this`conversation, this`conversant
      reads this`inputs, this`inputsPos
    {
      Consistent(Snapshot()) && 0 <= inputsPos <= |inputs|
    }

    /** The method reached the state of `r` and printed its lines. */
    twostate predicate Did(r: Step)
      reads this
    {
      Snapshot() == r.state && output == old(output) + r.lines
    }

    /** `init`, together with the initial `inputs` and `inputsPos`. */
    constructor Init(d: Disk)
      requires DiskWellFormed(d)
      ensures Valid() && Snapshot() == Rules.Init(d)
      ensures output == [] && inputs == [""] && inputsPos == 0
    {
      var rs := d.rooms;
      var i := 0;
      while i < |rs|
        invariant 0 <= i <= |rs| && |rs| == |d.rooms|
        invariant forall j :: 0 <= j < i ==> rs[j] == d.rooms[j].(visits := 0)
        invariant forall j :: i <= j < |rs| ==> rs[j] == d.rooms[j]
      {
        rs := rs[i := rs[i].(visits := 0)];
        i := i + 1;
      }
      var cs := d.characters;
      i := 0;
      while i < |cs|
        invariant 0 <= i <= |cs| && |cs| == |d.characters|
        invariant forall j :: 0 <= j < i ==> cs[j] == d.characters[j].(chatLog := [])
        invariant forall j :: i <= j < |cs| ==> cs[j] == d.characters[j]
      {
        cs := cs[i := cs[i].(chatLog := [])];
        i := i + 1;
      }
      roomId := d.roomId;
      rooms := rs;
      inventory := d.inventory;
      characters := cs;
      conversation := None;
      conversant := None;
      output := [];
      inputs := [""];
      inputsPos := 0;
      new;
      assert rooms == Rules.Init(d).rooms;
      assert characters == Rules.Init(d).characters;
    }

    /** The `enterRoom(disk.roomId)` of `loadDisk`. */
    method Start()
      requires Valid()
      modifies this`roomId, this`rooms, this`inventory, this`characters
      modifies this`conversation, this`conversant, this`output
      ensures Valid() && Did(Rules.EnterRoom(old(Snapshot()), old(roomId)))
    {
      EnterRoom(roomId);
    }

    /** `println`: a non-empty line is appended to the output. */
    method Println(line: string)
      modifies this`output
      ensures output == old(output) + Line(line)
    {
      if line != "" {
        output := output + [line];
      }
    }

    /** `lines.forEach(println)` over lines that are never empty. */
    method PrintLines(lines: seq<string>)
      requires forall k :: 0 <= k < |lines| ==> lines[k] != ""
      modifies this`output
      ensures output == old(output) + lines
    {
      for k := 0 to |lines|
        invariant output == old(output) + lines[..k]
      {
        Println(lines[k]);
        assert lines[..k + 1] == lines[..k] + [lines[k]];
      }
      assert lines[..|lines|] == lines;
    }

    /** The `forEach` of the listers: one bullet per name. */
    method PrintNameBullets(ns: seq<Name>)
      modifies this`output
      ensures output == old(output) + NameBullets(ns)
    {
      for k := 0 to |ns|
        invariant output == old(output) + NameBullets(ns[..k])
      {
        Println(Bullet(GetName(ns[k])));
        NameBulletsSnoc(ns, k);
      }
      assert ns[..|ns|] == ns;
    }

    method EndConversation()
      modifies this`conversant, this`conversation
      ensures conversant.None? && conversation.None?
    {
      conversant := None;
      conversation := None;
    }

    // Navigation

    /** `enterRoom(id)`. */
    method EnterRoom(id: string)
      requires Valid()
      modifies this`roomId, this`rooms, this`inventory, this`characters
      modifies this`conversation, this`conversant, this`output
      ensures Valid() && Did(Rules.EnterRoom(old(Snapshot()), id))
    {
      ghost var want := Rules.EnterRoom(Snapshot(), id);
      var found := FindRoom(rooms, id);
      if found.None? {
        Println(NoSuchRoom);
        return;
      }
      var i := found.value;
      var room := rooms[i];
      Println(room.img);
      if room.name.Some? {
        Println(GetName(room.name.value));
      }
      if room.visits == 0 {
        Println(room.desc);
      }
      rooms := rooms[i := room.(visits := room.visits + 1)];
      roomId := id;
      conversation := None;
      conversant := None;
      assert Snapshot() == want.state;
    }

    /** `goDir(dir)`. */
    method GoDir(dir: string)
      requires Valid()
      modifies this`roomId, this`rooms, this`inventory, this`characters
      modifies this`conversation, this`conversant, this`output
      ensures Valid() && Did(Rules.GoDir(old(Snapshot()), dir))
    {
      var here := rooms[FindRoom(rooms, roomId).value];
      if here.exits.None? {
        Println(NowhereToGo);
        return;
      }
      var exits := here.exits.value;
      var next := GetExit(StripTrailingUt(dir), exits);
      if next.None? {
        Println(CannotGoThatWay);
        return;
      }
      var exit := exits[next.value];
      if exit.block != "" {
        Println(exit.block);
        return;
      }
      EnterRoom(exit.id);
    }

    /** `go`: list the exits of the current room. */
    method Go()
      requires Valid()
      modifies this`output
      ensures output == old(output) + ExitLines(Snapshot())
    {
      var here := rooms[FindRoom(rooms, roomId).value];
      if here.exits.None? {
        Println(NowhereToGo);
        return;
      }
      var exits := here.exits.value;
      assert ExitLines(Snapshot()) == [WhereToGo] + ExitBullets(rooms, exits);
      ghost var before := output;
      Println(WhereToGo);
      PrintExitBullets(rooms, exits);
      AppendAssoc(before, [WhereToGo], ExitBullets(rooms, exits));
    }

    /** The `forEach` of `go` over the exits. */
    method PrintExitBullets(known: seq<Room>, es: seq<Exit>)
      modifies this`output
      ensures output == old(output) + ExitBullets(known, es)
    {
      ghost var start := output;
      for k := 0 to |es|
        invariant output == start + ExitBullets(known, es[..k])
      {
        PrintExitBullet(known, es[k]);
        ExitBulletsSnoc(known, es, k);
        AppendAssoc(start, ExitBullets(known, es[..k]), ExitBullet(known, es[k]));
      }
      assert es[..|es|] == es;
    }

    /** The body of that `forEach`: the bullet of one exit, none when its
        room is missing. */
    method PrintExitBullet(known: seq<Room>, exit: Exit)
      modifies this`output
      ensures output == old(output) + ExitBullet(known, exit)
    {
      var target := FindRoom(known, exit.id);
      if target.Some? {
        var rm := known[target.value];
        var dir := Upper(GetName(exit.dir));
        var directionName := if rm.visits > 0 then dir + " - " + NameText(rm.name) else dir;
        assert directionName == ExitLabel(exit, rm);
        Println(Bullet(directionName));
      }
    }

    // Items

    /** `takeItem(name)`: `push` onto the inventory, `splice` out of the room. */
    method TakeItem(name: string)
      requires Valid()
      modifies this`roomId, this`rooms, this`inventory, this`characters
      modifies this`conversation, this`conversant, this`output
      ensures Valid() && Did(Rules.TakeItem(old(Snapshot()), name))
    {
      ghost var want := Rules.TakeItem(Snapshot(), name);
      var i := FindRoom(rooms, roomId).value;
      var room := rooms[i];
      var itemIndex := GetItem(room.items, name);
      if itemIndex.Some? {
        var k := itemIndex.value;
        var item := room.items[k];
        if item.isTakeable {
          inventory := inventory + [item];
          rooms := rooms[i := room.(items := room.items[..k] + room.items[k + 1..])];
          assert Snapshot() == want.state;
          if !item.onTake {
            Println(Took(GetName(item.name)));
          }
        } else {
          Println(if item.block != "" then item.block else StuckFast);
        }
      } else {
        var held := GetItem(inventory, name);
        if held.Some? {
          Println(AlreadyHave);
        } else {
          Println(SeeNoSuch);
        }
      }
    }

    /** The `yxa` handler: `delete exit.block`. */
    method ClearBlock(rid: string, dir: string, cleared: string, idle: string)
      requires Valid()
      modifies this`roomId, this`rooms, this`inventory, this`characters
      modifies this`conversation, this`conversant, this`output
      ensures Valid() && Did(Rules.ClearBlock(old(Snapshot()), rid, dir, cleared, idle))
    {
      ghost var want := Rules.ClearBlock(Snapshot(), rid, dir, cleared, idle);
      var found := FindRoom(rooms, rid);
      if found.None? {
        return;
      }
      var i := found.value;
      var room := rooms[i];
      if room.exits.None? {
        return;
      }
      var exits := room.exits.value;
      var e := GetExit(dir, exits);
      if e.None? {
        return;
      }
      var exit := exits[e.value];
      if exit.block != "" {
        rooms := rooms[i := room.(exits := Some(exits[e.value := exit.(block := "")]))];
        assert Snapshot() == want.state;
        Println(cleared);
      } else {
        Println(idle);
      }
    }

    /** `useItem(name)`. */
    method UseItem(name: string)
      requires Valid()
      modifies this`roomId, this`rooms, this`inventory, this`characters
      modifies this`conversation, this`conversant, this`output
      ensures Valid() && Did(Rules.UseItem(old(Snapshot()), name))
    {
      var item: Option<Item>;
      var held := GetItem(inventory, name);
      if held.Some? {
        item := Some(inventory[held.value]);
      } else {
        var here := rooms[FindRoom(rooms, roomId).value];
        var lying := GetItem(here.items, name);
        item := if lying.Some? then Some(here.items[lying.value]) else None;
      }
      if item.None? {
        Println(HaveNo(name));
        return;
      }
      match item.value.onUse {
        case NoUse => Println(CannotUse);
        case GoDirUse(dir) => GoDir(dir);
        case ClearBlockUse(rid, dir, cleared, idle) => ClearBlock(rid, dir, cleared, idle);
        case HookUse =>
      }
    }

    /** `inv`. */
    method Inv()
      requires Valid()
      modifies this`output
      ensures output == old(output) + InvLines(Snapshot())
    {
      if |inventory| == 0 {
        Println(EmptyBackpack);
        return;
      }
      ghost var before := output;
      Println(BackpackHolds);
      PrintNameBullets(ItemNames(inventory));
      AppendAssoc(before, [BackpackHolds], NameBullets(ItemNames(inventory)));
    }

    /** `look`. */
    method Look()
      requires Valid()
      modifies this`output
      ensures output == old(output) + LookLines(Snapshot())
    {
      var here := rooms[FindRoom(rooms, roomId).value];
      Println(here.desc);
    }

    /** `take` with no argument. */
    method Take()
      requires Valid()
      modifies this`output
      ensures output == old(output) + TakeableLines(Snapshot())
    {
      var here := rooms[FindRoom(rooms, roomId).value];
      var items := Takeable(here.items);
      if |items| == 0 {
        Println(NothingToTake);
        return;
      }
      assert TakeableLines(Snapshot()) == [CanTake] + NameBullets(ItemNames(items));
      ghost var before := output;
      Println(CanTake);
      PrintNameBullets(ItemNames(items));
      AppendAssoc(before, [CanTake], NameBullets(ItemNames(items)));
    }

    /** `use` with no argument. */
    method Use()
      requires Valid()
      modifies this`output
      ensures output == old(output) + UsableLines(Snapshot())
    {
      var here := rooms[FindRoom(rooms, roomId).value];
      var items := Usable(here.items + inventory);
      if |items| == 0 {
        Println(NothingToUse);
        return;
      }
      assert UsableLines(Snapshot()) == [CanUse] + NameBullets(ItemNames(items));
      ghost var before := output;
      Println(CanUse);
      PrintNameBullets(ItemNames(items));
      AppendAssoc(before, [CanUse], NameBullets(ItemNames(items)));
    }

    /** `items`. */
    method Items()
      requires Valid()
      modifies this`output
      ensures output == old(output) + ItemLines(Snapshot())
    {
      var here := rooms[FindRoom(rooms, roomId).value];
      if |here.items| == 0 {
        Println(NothingInRoom);
        return;
      }
      assert ItemLines(Snapshot()) == [YouSee] + NameBullets(ItemNames(here.items));
      ghost var before := output;
      Println(YouSee);
      PrintNameBullets(ItemNames(here.items));
      AppendAssoc(before, [YouSee], NameBullets(ItemNames(here.items)));
    }

    /** `chars`. */
    method Chars()
      modifies this`output
      ensures output == old(output) + CharacterLines(Snapshot())
    {
      var cs := CharactersInRoom(characters, roomId);
      if |cs| == 0 {
        Println(NoOneHere);
        return;
      }
      var names := CharacterNamesOf(Snapshot(), cs);
      assert CharacterLines(Snapshot()) == [YouSee] + NameBullets(names);
      ghost var before := output;
      Println(YouSee);
      PrintNameBullets(names);
      AppendAssoc(before, [YouSee], NameBullets(names));
    }

    /** `lookAt` on the name it looks at. */
    method LookAt(name: string)
      requires Valid()
      modifies this`output
      ensures output == old(output) + LookAtLines(Snapshot(), name)
    {
      var item := FoundItem(Snapshot(), name);
      if item.Some? {
        Println(if item.value.desc != "" then item.value.desc else NothingSpecial);
      } else {
        var character := GetCharacter(name, characters, CharactersInRoom(characters, roomId));
        if character.Some? {
          var desc := characters[character.value].desc;
          Println(if desc != "" then desc else NothingSpecialAbout(name));
        } else {
          Println(NothingToLookAt(name));
        }
      }
    }

    // Conversation

    /** `listTopics` for character `c`, called once `c` is the conversant. */
    method ListTopicsOf(c: nat)
      requires FindRoom(rooms, roomId).Some? && AllWellFormed(characters) && 0 <= inputsPos <= |inputs|
      requires c < |characters| && IsDialogue(characters[c].topics)
      modifies this`roomId, this`rooms, this`inventory, this`characters
      modifies this`conversation, this`conversant, this`output
      ensures Valid() && Did(Rules.List(old(Snapshot()), c, []))
    {
      var ch := characters[c];
      conversation := Some(ch.topics);
      conversant := Some(c);
      match ListTopics(ch.topics, ch.chatLog) {
        case Menu(lines) => PrintLines(lines);
        case Ended => EndConversation();
      }
    }

    /** `talkToOrAboutX('med', x)`. */
    method TalkTo(x: string)
      requires Valid()
      modifies this`roomId, this`rooms, this`inventory, this`characters
      modifies this`conversation, this`conversant, this`output
      ensures Valid() && Did(Rules.TalkTo(old(Snapshot()), x))
    {
      if GetCharacter(x, characters, AllCharacters(characters)).None? {
        Println(NoOneByThatName);
        return;
      }
      var found := GetCharacter(x, characters, CharactersInRoom(characters, roomId));
      if found.None? {
        Println(NoOneByThatName);
        return;
      }
      Greet(found.value);
    }

    /** `talkToOrAboutX('med', x)` once character `c` is found. */
    method Greet(c: nat)
      requires Valid() && c < |characters|
      modifies this`roomId, this`rooms, this`inventory, this`characters
      modifies this`conversation, this`conversant, this`output
      ensures Valid() && Did(Rules.Greet(old(Snapshot()), c))
    {
      var ch := characters[c];
      if ch.topics.NoTopics? || ch.topics == FixedText("") {
        Println(NothingToSay(GetName(ch.name)));
        return;
      }
      if ch.topics.FixedText? {
        Println(ch.topics.text);
        return;
      }
      Open(c);
    }

    /** The rest of `talkToOrAboutX('med', x)` for a character with a dialogue. */
    method Open(c: nat)
      requires Valid() && c < |characters| && IsDialogue(characters[c].topics)
      modifies this`roomId, this`rooms, this`inventory, this`characters
      modifies this`conversation, this`conversant, this`output
      ensures Valid() && Did(Rules.Open(old(Snapshot()), c))
    {
      ghost var s0 := Snapshot();
      ghost var before := output;
      var ch := characters[c];
      Println(ch.onTalk);
      if (ch.topics.TopicList? && |ch.topics.topics| == 0)
         || (ch.topics.ResponseMap? && |ch.topics.responses| == 0) {
        Println(NothingToSay(GetName(ch.name)));
        AppendAssoc(before, Line(ch.onTalk), [NothingToSay(GetName(ch.name))]);
        return;
      }
      ListAfterLead(s0, c, Line(ch.onTalk));
      ListTopicsOf(c);
      AppendAssoc(before, Line(ch.onTalk), List(s0, c, []).lines);
    }

    /** `talkToOrAboutX('om', x)`. */
    method TalkAbout(x: string)
      requires Valid()
      modifies this`roomId, this`rooms, this`inventory, this`characters
      modifies this`conversation, this`conversant, this`output
      ensures Valid() && Did(Rules.TalkAbout(old(Snapshot()), x))
    {
      if conversant.None? {
        Println(NotInConversation);
        return;
      }
      var c := conversant.value;
      if characters[c].roomId != roomId {
        Println(NoLongerAvailable);
        conversant := None;
        conversation := None;
        return;
      }
      Reply(c, x);
    }

    /** `talkToOrAboutX('om', x)` once the conversant `c` is known to be here. */
    method Reply(c: nat, x: string)
      requires Valid() && conversant == Some(c)
      modifies this`roomId, this`rooms, this`inventory, this`characters
      modifies this`conversation, this`conversant, this`output
      ensures Valid() && Did(Rules.Reply(old(Snapshot()), c, x))
    {
      ghost var s0 := Snapshot();
      ghost var before := output;
      ghost var want := Rules.Reply(s0, c, x);
      var ch := characters[c];
      match Select(ch.topics, ch.chatLog, Lower(x)) {
        case Quit =>
          assert want == Step(s0.(conversant := None, conversation := None), [EndsConversation]);
          EndConversation();
          Println(EndsConversation);
        case Respond =>
          assert want == List(s0, c, []);
          ListTopicsOf(c);
        case Discuss(i) =>
          Discuss(c, i);
        case NoTopic =>
          assert want == List(s0, c, [TalksAbout(x), KeywordHint]);
          Println(TalksAbout(x));
          Println(KeywordHint);
          AppendAssoc(before, [TalksAbout(x)], [KeywordHint]);
          assert [TalksAbout(x)] + [KeywordHint] == [TalksAbout(x), KeywordHint];
          ListAfterLead(s0, c, [TalksAbout(x), KeywordHint]);
          ListTopicsOf(c);
          AppendAssoc(before, [TalksAbout(x), KeywordHint], List(s0, c, []).lines);
      }
    }

    /** The chosen topic of a reply: print its line, log its keyword in the
        conversant's chat log, and list the topics again. */
    method Discuss(c: nat, i: nat)
      requires Valid() && conversant == Some(c)
      requires characters[c].topics.TopicList? && i < |characters[c].topics.topics|
      modifies this`roomId, this`rooms, this`inventory, this`characters
      modifies this`conversation, this`conversant, this`output
      ensures Valid()
      ensures var ch := old(characters)[c];
        var t := ch.topics.topics[i];
        Did(List(old(Snapshot()).(characters := old(characters)[c := ch.(chatLog := ch.chatLog + [Keyword(t)])]),
                 c, Line(t.line)))
    {
      ghost var s0 := Snapshot();
      ghost var before := output;
      var ch := characters[c];
      var t := ch.topics.topics[i];
      var chars := characters[c := ch.(chatLog := ch.chatLog + [Keyword(t)])];
      Println(t.line);
      characters := chars;
      assert forall j :: 0 <= j < |characters| ==> characters[j].topics == s0.characters[j].topics;
      ghost var s1 := Snapshot();
      assert s1 == s0.(characters := chars);
      ListAfterLead(s1, c, Line(t.line));
      ListTopicsOf(c);
      AppendAssoc(before, Line(t.line), List(s1, c, []).lines);
    }

    /** `talkToOrAboutX(preposition, x)`. */
    method TalkToOrAboutX(preposition: string, x: string)
      requires Valid()
      modifies this`roomId, this`rooms, this`inventory, this`characters
      modifies this`conversation, this`conversant, this`output
      ensures Valid() && Did(Rules.TalkToOrAboutX(old(Snapshot()), preposition, x))
    {
      if preposition != "med" && preposition != "om" {
        Println(PrepositionHint);
        return;
      }
      if preposition == "med" {
        TalkTo(x);
      } else {
        TalkAbout(x);
      }
    }

    /** `talk` with no argument. */
    method Talk()
      requires Valid()
      modifies this`roomId, this`rooms, this`inventory, this`characters
      modifies this`conversation, this`conversant, this`output
      ensures Valid() && Did(Rules.Talk(old(Snapshot())))
    {
      var cs := CharactersInRoom(characters, roomId);
      if |cs| == 1 {
        TalkToOrAboutX("to", GetName(characters[cs[0]].name));
      } else {
        ghost var before := output;
        Println(TalkHint);
        Chars();
        AppendAssoc(before, [TalkHint], CharacterLines(Snapshot()));
      }
    }

    // Dispatch

    /** `exec` and the other branches of `applyInput` once the words are
        resolved; `pick` is the random draw of `say`. */
    method Execute(a: Commands.Action, pick: nat)
      requires Valid() && (a.RunN? ==> |a.args| >= 2)
      modifies this`roomId, this`rooms, this`inventory, this`characters
      modifies this`conversation, this`conversant, this`output
      ensures Valid() && Did(Rules.Execute(old(Snapshot()), a, pick))
    {
      match a {
        case Run0(c) => Run0(c, pick);
        case Run1(c, arg) => Run1(c, arg);
        case RunN(c, args) => RunN(c, args);
        case TakeFirst(item) => TakeItem(item);
        case UseFirst(item) => UseItem(item);
        case GoShorthand(dir) => GoDir(dir);
        case TalkAboutShorthand(word) => TalkToOrAboutX("about", word);
        case TopicHint => Println(KeywordHint);
        case NotUnderstood => Println(Messages.NotUnderstood);
      }
    }

    /** A handler of the first table. */
    method Run0(c: Commands.Cmd0, pick: nat)
      requires Valid()
      modifies this`roomId, this`rooms, this`inventory, this`characters
      modifies this`conversation, this`conversant, this`output
      ensures Valid() && Did(Rules.Run0(old(Snapshot()), c, pick))
    {
      match c {
        case Inventory => Inv();
        case Look => Look();
        case ListExits => Go();
        case GoShortcut(dir) => GoDir(dir);
        case Talk => Talk();
        case ListTakeable => Take();
        case ListItems => Items();
        case ListUsable => Use();
        case ListCharacters => Chars();
        case Help => Println(HelpText);
        case Say => Println(SayAlternatives[pick % |SayAlternatives|]);
        case Save => Println(Saved);
        case Load =>
      }
    }

    /** A handler of the second table. */
    method Run1(c: Commands.Cmd1, arg: string)
      requires Valid()
      modifies this`roomId, this`rooms, this`inventory, this`characters
      modifies this`conversation, this`conversant, this`output
      ensures Valid() && Did(Rules.Run1(old(Snapshot()), c, arg))
    {
      match c {
        case LookThusly => Println(LooksThusly(arg));
        case GoDir => GoDir(arg);
        case TakeItem => TakeItem(arg);
        case UseItem => UseItem(arg);
        case SayString => Println(Says(arg));
        case SaveAs => Println(Saved);
        case LoadFrom =>
        case LookAtOne => LookAt(arg);
        case TalkToOne => TalkToOrAboutX("to", arg);
      }
    }

    /** A handler of the last table. */
    method RunN(c: Commands.CmdN, args: seq<string>)
      requires Valid() && |args| >= 2
      modifies this`roomId, this`rooms, this`inventory, this`characters
      modifies this`conversation, this`conversant, this`output
      ensures Valid() && Did(Rules.RunN(old(Snapshot()), c, args))
    {
      match c {
        case LookAt => LookAt(args[1]);
        case SayWords => Println(Says(SpacedWords(args)));
        case TalkWith => TalkToOrAboutX(args[0], args[1]);
        case LookAtAll => LookAt(args[0]);
        case GoWords => GoDir(args[1]);
      }
    }

    /** `applyInput` on the value of the input field. */
    method ApplyInput(raw: string, pick: nat)
      requires Valid()
      modifies this
      ensures Valid()
      ensures Snapshot() == Rules.Apply(old(Snapshot()), raw, pick).state
      ensures output == old(output) + Rules.Apply(old(Snapshot()), raw, pick).lines
      ensures inputs == old(inputs) + [Trim(raw)] && inputsPos == |inputs|
    {
      ghost var s0 := Snapshot();
      ghost var before := output;
      var input := Trim(raw);
      inputs := inputs + [input];
      inputsPos := |inputs|;
      Println("> " + input);
      var args := Commands.ArticleFilter(Split(Lower(input), ' '));
      var here := rooms[FindRoom(rooms, roomId).value];
      Commands.ManyArgumentHandlersGetTwo(args, here.exits, conversation);
      var a := Commands.Resolve(args, here.exits, conversation);
      Execute(a, pick);
      AppendAssoc(before, ["> " + input], Rules.Execute(s0, a, pick).lines);
    }

    // Input field

    /** `autocomplete` on the value of the input field: the new value, or
        `None` when the field is left as it is. */
    method Autocomplete(value: string) returns (r: Option<string>)
      requires Valid()
      ensures r == Rules.Autocomplete(Snapshot(), value)
    {
      var words := Rules.CompletionWords(value);
      var sansStub := words[..|words| - 1];
      var options := CompletionOptions(words, Here(Snapshot()), inventory, CharactersHere(Snapshot()), conversation);
      var matches := Matches(options, words[|words| - 1]);
      if |matches| == 0 {
        return None;
      }
      if |matches| > 1 {
        var common := LongestCommonStartingSubstring(matches);
        return Some(Join(sansStub + [common], " "));
      }
      return Some(Join(sansStub + [matches[0]], " "));
    }

    /** `navigateHistory(dir)`: move through the history, clamped to
        0..|inputs|, and return the text the field then shows. */
    method NavigateHistory(dir: string) returns (text: string)
      requires Valid()
      modifies this`inputsPos
      ensures Valid()
      ensures dir == "prev" ==> inputsPos == if old(inputsPos) > 0 then old(inputsPos) - 1 else 0
      ensures dir == "next" ==> inputsPos == if old(inputsPos) < |inputs| then old(inputsPos) + 1 else |inputs|
      ensures dir != "prev" && dir != "next" ==> inputsPos == old(inputsPos)
      ensures text == if inputsPos < |inputs| then inputs[inputsPos] else ""
    {
      if dir == "prev" {
        inputsPos := inputsPos - 1;
        if inputsPos < 0 {
          inputsPos := 0;
        }
      } else if dir == "next" {
        inputsPos := inputsPos + 1;
        if inputsPos > |inputs| {
          inputsPos := |inputs|;
        }
      }
      text := if inputsPos < |inputs| then inputs[inputsPos] else "";
    }
  }
}
