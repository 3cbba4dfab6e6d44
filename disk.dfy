/** The world description (a "disk"): rooms, exits, items, characters and
    topics, with the structural queries and the name resolver of index.js. */
module Disk {
  import opened Wrappers
  import opened Text

  /** A `name` or `dir` field: one string, or a list of synonyms whose first
      entry is the displayed one. */
  datatype Name = Single(s: string) | Synonyms(names: seq<string>)

  /** An exit; `block` is "" when the exit has no block. */
  datatype Exit = Exit(dir: Name, id: string, block: string)

  /** What an item's `onUse` does: nothing is defined, walk a direction
      (`dörr`), clear an exit's block (`yxa`), or an author hook the model
      treats as doing nothing. */
  datatype UseHandler =
    | NoUse
    | GoDirUse(dir: string)
    | ClearBlockUse(room: string, exitDir: string, cleared: string, idle: string)
    | HookUse

  /** An item; `desc` and `block` are "" when absent, `onTake` says whether a
      take hook is defined. */
  datatype Item = Item(name: Name, desc: string, isTakeable: bool, block: string,
                       onUse: UseHandler, onTake: bool)

  /** A room; `exits` is `None` when the room declares no exit list. */
  datatype Room = Room(id: string, name: Option<Name>, img: string, desc: string,
                       visits: nat, items: seq<Item>, exits: Option<seq<Exit>>)

  /** A topic of a list conversation; `option`, `keyword` and `line` are ""
      when absent, `prereqs` is [] when absent. */
  datatype Topic = Topic(option: string, keyword: string, line: string,
                         prereqs: seq<string>, removeOnRead: bool)

  /** An entry of a keyed conversation (`topics` given as an object). Every
      entry is taken to carry its `option`: one without would be listed as
      "undefined". */
  datatype Response = Response(key: string, option: string)

  /** A character's `topics`: absent, a fixed text, a list or a keyed map. */
  datatype Topics =
    | NoTopics
    | FixedText(text: string)
    | TopicList(topics: seq<Topic>)
    | ResponseMap(responses: seq<Response>)

  /** A character; `onTalk` is the line its talk hook prints ("" for none). */
  datatype Character = Character(name: Name, roomId: string, desc: string, onTalk: string,
                                 topics: Topics, chatLog: seq<string>)

  /** The disk as an author writes it. */
  datatype Disk = Disk(roomId: string, rooms: seq<Room>, inventory: seq<Item>,
                       characters: seq<Character>)

  /** The synonyms of a name, in order. */
  function NameList(n: Name): seq<string> {
    match n
    case Single(s) => [s]
    case Synonyms(ns) => ns
  }

  /** `getName`: the first synonym ("undefined" for an empty list, as a
      template literal renders it). */
  function GetName(n: Name): (r: string)
    ensures |NameList(n)| > 0 ==> r == NameList(n)[0]
  {
    match n
    case Single(s) => s
    case Synonyms(ns) => if |ns| > 0 then ns[0] else "undefined"
  }

  /** A room name as `${rm.name}` renders it: a list is joined with ",". */
  function NameText(n: Option<Name>): string {
    match n
    case None => "undefined"
    case Some(Single(s)) => s
    case Some(Synonyms(ns)) => Join(ns, ",")
  }

  /** The case-insensitive substring test of `objectHasName`. */
  predicate NameContains(n: string, q: string) {
    Contains(Lower(n), Lower(q))
  }

  /** `objectHasName`. For a synonym list the source returns the first
      matching synonym, whose truthiness decides, so an empty matching
      synonym counts as no match. */
  predicate ObjectHasName(n: Name, q: string) {
    match n
    case Single(s) => NameContains(s, q)
    case Synonyms(ns) =>
      match FirstContaining(ns, q)
      case Some(i) => ns[i] != ""
      case None => false
  }

  /** The `find` over synonyms in `objectHasName`: the first synonym that
      contains the query. */
  function FirstContaining(ns: seq<string>, q: string): (r: Option<nat>)
    ensures r.Some? ==> r.value < |ns| && NameContains(ns[r.value], q)
    ensures r.Some? ==> forall j :: 0 <= j < r.value ==> !NameContains(ns[j], q)
    ensures r.None? ==> forall j :: 0 <= j < |ns| ==> !NameContains(ns[j], q)
  {
    if |ns| == 0 then None
    else if NameContains(ns[0], q) then Some(0)
    else match FirstContaining(ns[1..], q)
      case None => None
      case Some(k) => Some(k + 1)
  }

  /** For a non-empty query, `objectHasName` holds exactly when the lowered
      query is a substring of some lowered synonym. */
  lemma ObjectHasNameIff(n: Name, q: string)
    requires q != ""
    ensures ObjectHasName(n, q) <==> exists m :: m in NameList(n) && NameContains(m, q)
  {
    if n.Synonyms? {
      var ns := n.names;
      var f := FirstContaining(ns, q);
      if f.Some? {
        var i := f.value;
        assert NameContains(ns[i], q);
        ContainsIffOccurs(Lower(ns[i]), Lower(q));
        var k :| OccursAt(Lower(ns[i]), Lower(q), k);
        assert ns[i] != "";
      } else {
        forall m | m in ns ensures !NameContains(m, q) {
          var j :| 0 <= j < |ns| && ns[j] == m;
        }
      }
    }
  }

  /** Every non-empty substring of a lowered synonym resolves to the object. */
  lemma SubstringResolves(n: Name, m: string, i: nat, j: nat)
    requires m in NameList(n) && i < j <= |Lower(m)|
    ensures ObjectHasName(n, Lower(m)[i..j])
  {
    var q := Lower(m)[i..j];
    assert Lower(q) == q by {
      forall k | 0 <= k < |q| ensures LowerChar(q[k]) == q[k] {
        assert q[k] == LowerChar(m[i + k]);
      }
    }
    assert OccursAt(Lower(m), Lower(q), i);
    ContainsIffOccurs(Lower(m), Lower(q));
    ObjectHasNameIff(n, q);
  }

  /** `getRoom`: the first room with the given id. */
  function FindRoom(rooms: seq<Room>, id: string): (r: Option<nat>)
    ensures r.Some? ==> r.value < |rooms| && rooms[r.value].id == id
    ensures r.Some? ==> forall j :: 0 <= j < r.value ==> rooms[j].id != id
    ensures r.None? ==> forall j :: 0 <= j < |rooms| ==> rooms[j].id != id
  {
    if |rooms| == 0 then None
    else if rooms[0].id == id then Some(0)
    else match FindRoom(rooms[1..], id)
      case None => None
      case Some(k) => Some(k + 1)
  }

  /** The direction test of `getExit`: exact equality with the single
      direction, or membership in the synonym list. */
  predicate ExitHasDir(e: Exit, dir: string) {
    dir in NameList(e.dir)
  }

  /** `getExit`: the first exit with the given direction. */
  function GetExit(dir: string, exits: seq<Exit>): (r: Option<nat>)
    ensures r.Some? ==> r.value < |exits| && dir in NameList(exits[r.value].dir)
    ensures r.Some? ==> forall j :: 0 <= j < r.value ==> dir !in NameList(exits[j].dir)
    ensures r.None? ==> forall j :: 0 <= j < |exits| ==> dir !in NameList(exits[j].dir)
  {
    if |exits| == 0 then None
    else if ExitHasDir(exits[0], dir) then Some(0)
    else match GetExit(dir, exits[1..])
      case None => None
      case Some(k) => Some(k + 1)
  }

  /** `getCharactersInRoom`, as indices into the character list, in order. */
  function CharactersInRoom(chars: seq<Character>, roomId: string): (r: seq<nat>)
    ensures forall k :: 0 <= k < |r| ==> r[k] < |chars| && chars[r[k]].roomId == roomId
  {
    if chars == [] then []
    else
      var rest := CharactersInRoom(chars[..|chars| - 1], roomId);
      if chars[|chars| - 1].roomId == roomId then rest + [|chars| - 1] else rest
  }

  /** `getCharactersInRoom` lists every character of the room, in index
      order. */
  lemma {:induction false} CharactersInRoomComplete(chars: seq<Character>, roomId: string)
    ensures var r := CharactersInRoom(chars, roomId);
      (forall i :: 0 <= i < |chars| && chars[i].roomId == roomId ==> i in r)
      && (forall k, l :: 0 <= k < l < |r| ==> r[k] < r[l])
  {
    if chars != [] {
      var init := chars[..|chars| - 1];
      CharactersInRoomComplete(init, roomId);
      forall i | 0 <= i < |init| ensures init[i] == chars[i] { }
    }
  }

  /** Every character index, in order: the default list of `getCharacter`. */
  function AllCharacters(chars: seq<Character>): (r: seq<nat>)
    ensures |r| == |chars| && forall k :: 0 <= k < |r| ==> r[k] == k
  {
    seq(|chars|, k requires 0 <= k < |chars| => k)
  }

  /** `getCharacter`: the first character of `among` (in its order) that
      has the name. */
  function GetCharacter(q: string, chars: seq<Character>, among: seq<nat>): (r: Option<nat>)
    requires forall k :: 0 <= k < |among| ==> among[k] < |chars|
    ensures r.Some? ==> exists k :: 0 <= k < |among| && among[k] == r.value
                          && ObjectHasName(chars[r.value].name, q)
                          && forall j :: 0 <= j < k ==> !ObjectHasName(chars[among[j]].name, q)
    ensures r.None? ==> forall k :: 0 <= k < |among| ==> !ObjectHasName(chars[among[k]].name, q)
  {
    match FirstNamed(q, chars, among)
    case Some(k) => Some(among[k])
    case None => None
  }

  /** The position in `among` of the first character with the name. */
  function FirstNamed(q: string, chars: seq<Character>, among: seq<nat>): (r: Option<nat>)
    requires forall k :: 0 <= k < |among| ==> among[k] < |chars|
    ensures r.Some? ==> r.value < |among| && ObjectHasName(chars[among[r.value]].name, q)
    ensures r.Some? ==> forall j :: 0 <= j < r.value ==> !ObjectHasName(chars[among[j]].name, q)
    ensures r.None? ==> forall j :: 0 <= j < |among| ==> !ObjectHasName(chars[among[j]].name, q)
  {
    if |among| == 0 then None
    else if ObjectHasName(chars[among[0]].name, q) then Some(0)
    else match FirstNamed(q, chars, among[1..])
      case None => None
      case Some(k) => Some(k + 1)
  }

  /** `getItemInInventory` and `getItemInRoom`: the first item with the name. */
  function GetItem(items: seq<Item>, q: string): (r: Option<nat>)
    ensures r.Some? ==> r.value < |items| && ObjectHasName(items[r.value].name, q)
    ensures r.Some? ==> forall j :: 0 <= j < r.value ==> !ObjectHasName(items[j].name, q)
    ensures r.None? ==> forall j :: 0 <= j < |items| ==> !ObjectHasName(items[j].name, q)
  {
    if |items| == 0 then None
    else if ObjectHasName(items[0].name, q) then Some(0)
    else match GetItem(items[1..], q)
      case None => None
      case Some(k) => Some(k + 1)
  }
}
