/** The pure half of `autocomplete`: the candidate words for each position,
    the prefix filter, and the longest common prefix of the sorted
    extremes (`longestCommonStartingSubstring`). */
module Complete {
  import opened Wrappers
  import opened Text
  import opened Disk
  import opened Dialogue
  import opened Commands

  /** JavaScript's default string order (by character, a prefix first). */
  predicate LexLe(a: string, b: string)
    decreases |a|
  {
    a == [] || (b != [] && (a[0] < b[0] || (a[0] == b[0] && LexLe(a[1..], b[1..]))))
  }

  lemma {:induction false} LexLeTotal(a: string, b: string)
    ensures LexLe(a, b) || LexLe(b, a)
    decreases |a|
  {
    if a != [] && b != [] && a[0] == b[0] {
      LexLeTotal(a[1..], b[1..]);
    }
  }

  lemma {:induction false} LexLeTransitive(a: string, b: string, c: string)
    requires LexLe(a, b) && LexLe(b, c)
    ensures LexLe(a, c)
    decreases |a|
  {
    if a != [] && a[0] == b[0] && b[0] == c[0] {
      LexLeTransitive(a[1..], b[1..], c[1..]);
    }
  }

  lemma {:induction false} LexLeReflexive(a: string)
    ensures LexLe(a, a)
    decreases |a|
  {
    if a != [] {
      LexLeReflexive(a[1..]);
    }
  }

  /** The first element of the sorted copy: the least string. */
  function LexMin(s: seq<string>): (m: string)
    requires |s| > 0
    ensures m in s && forall x :: x in s ==> LexLe(m, x)
  {
    LexLeReflexive(s[0]);
    if |s| == 1 then s[0]
    else
      var m := LexMin(s[1..]);
      LexLeTotal(s[0], m);
      assert forall x :: x in s ==> x == s[0] || x in s[1..];
      if LexLe(s[0], m) then
        assert forall x :: x in s[1..] ==> LexLe(s[0], x) by {
          forall x | x in s[1..] ensures LexLe(s[0], x) { LexLeTransitive(s[0], m, x); }
        }
        s[0]
      else
        m
  }

  /** The last element of the sorted copy: the greatest string. */
  function LexMax(s: seq<string>): (m: string)
    requires |s| > 0
    ensures m in s && forall x :: x in s ==> LexLe(x, m)
  {
    LexLeReflexive(s[0]);
    if |s| == 1 then s[0]
    else
      var m := LexMax(s[1..]);
      LexLeTotal(s[0], m);
      LexLeReflexive(s[0]);
      assert forall x :: x in s ==> x == s[0] || x in s[1..];
      if LexLe(m, s[0]) then
        assert forall x :: x in s[1..] ==> LexLe(x, s[0]) by {
          forall x | x in s[1..] ensures LexLe(x, s[0]) { LexLeTransitive(x, m, s[0]); }
        }
        s[0]
      else
        m
  }

  /** The longest common prefix of two strings. */
  function CommonPrefix(a: string, b: string): (p: string)
    ensures StartsWith(a, p) && StartsWith(b, p)
    ensures |p| == |a| || |p| == |b| || a[|p|] != b[|p|]
    decreases |a|
  {
    if a != [] && b != [] && a[0] == b[0] then [a[0]] + CommonPrefix(a[1..], b[1..]) else []
  }

  /** Every common prefix of two strings is a prefix of `CommonPrefix`. */
  lemma {:induction false} CommonPrefixIsLongest(a: string, b: string, q: string)
    requires StartsWith(a, q) && StartsWith(b, q)
    ensures StartsWith(CommonPrefix(a, b), q)
    decreases |a|
  {
    if q != [] {
      assert a[0] == q[0] && b[0] == q[0];
      assert a[1..][..|q| - 1] == q[1..] && b[1..][..|q| - 1] == q[1..];
      CommonPrefixIsLongest(a[1..], b[1..], q[1..]);
    }
  }

  /** A string lying between two others in the order starts with their
      common prefix: why the two extremes of a sorted list suffice. */
  lemma {:induction false} CommonPrefixBetween(a: string, x: string, b: string)
    requires LexLe(a, x) && LexLe(x, b)
    ensures StartsWith(x, CommonPrefix(a, b))
    decreases |a|
  {
    if a != [] && b != [] && a[0] == b[0] {
      CommonPrefixBetween(a[1..], x[1..], b[1..]);
    }
  }

  /** The common prefix of the least and the greatest string of a non-empty
      list is a prefix of every element, and every common prefix of all
      elements is a prefix of it. */
  lemma ExtremesGiveLongestCommonPrefix(ms: seq<string>)
    requires |ms| > 0
    ensures var p := CommonPrefix(LexMin(ms), LexMax(ms));
      (forall m :: m in ms ==> StartsWith(m, p))
      && forall q :: (forall m :: m in ms ==> StartsWith(m, q)) ==> StartsWith(p, q)
  {
    var lo, hi := LexMin(ms), LexMax(ms);
    forall m | m in ms ensures StartsWith(m, CommonPrefix(lo, hi)) {
      CommonPrefixBetween(lo, m, hi);
    }
    forall q | forall m :: m in ms ==> StartsWith(m, q)
      ensures StartsWith(CommonPrefix(lo, hi), q)
    {
      CommonPrefixIsLongest(lo, hi, q);
    }
  }

  /** The `while` loop of `longestCommonStartingSubstring`. `charAt` past the
      end of `a2` gives "", which differs from every character of `a1`, so
      the loop also stops there. */
  method CommonPrefixLength(a1: string, a2: string) returns (i: nat)
    ensures i <= |a1| && i <= |a2| && a1[..i] == CommonPrefix(a1, a2)
  {
    var L := |a1|;
    i := 0;
    assert a1[0..] == a1 && a2[0..] == a2;
    while i < L && i < |a2| && a1[i] == a2[i]
      invariant i <= L && i <= |a2|
      invariant CommonPrefix(a1, a2) == a1[..i] + CommonPrefix(a1[i..], a2[i..])
    {
      CommonPrefixExtends(a1, a2, i);
      i := i + 1;
    }
    assert CommonPrefix(a1[i..], a2[i..]) == [];
  }

  /** One more matching character moves from the remaining common prefix to
      the part already matched. */
  lemma CommonPrefixExtends(a: string, b: string, i: nat)
    requires i < |a| && i < |b| && a[i] == b[i]
    ensures a[..i] + CommonPrefix(a[i..], b[i..]) == a[..i + 1] + CommonPrefix(a[i + 1..], b[i + 1..])
  {
    assert a[i..][1..] == a[i + 1..] && b[i..][1..] == b[i + 1..];
    assert a[..i + 1] == a[..i] + [a[i]];
  }

  /** `longestCommonStartingSubstring`: the sorted copy is represented by
      its two ends, the least and the greatest match. */
  method LongestCommonStartingSubstring(ms: seq<string>) returns (p: string)
    requires |ms| > 0
    ensures p == CommonPrefix(LexMin(ms), LexMax(ms))
    ensures forall m :: m in ms ==> StartsWith(m, p)
    ensures forall q :: (forall m :: m in ms ==> StartsWith(m, q)) ==> StartsWith(p, q)
  {
    var a1 := LexMin(ms);
    var a2 := LexMax(ms);
    var i := CommonPrefixLength(a1, a2);
    p := a1[..i];
    ExtremesGiveLongestCommonPrefix(ms);
  }

  /** `.flat()` of a list of names. */
  function FlatNames(ns: seq<Name>): seq<string> {
    if ns == [] then [] else NameList(ns[0]) + FlatNames(ns[1..])
  }

  function LowerAll(ss: seq<string>): (r: seq<string>)
    ensures |r| == |ss| && forall i :: 0 <= i < |ss| ==> r[i] == Lower(ss[i])
  {
    seq(|ss|, i requires 0 <= i < |ss| => Lower(ss[i]))
  }

  function ItemNames(items: seq<Item>): (r: seq<Name>)
    ensures |r| == |items| && forall i :: 0 <= i < |items| ==> r[i] == items[i].name
  {
    seq(|items|, i requires 0 <= i < |items| => items[i].name)
  }

  function CharacterNames(chars: seq<Character>): (r: seq<Name>)
    ensures |r| == |chars| && forall i :: 0 <= i < |chars| ==> r[i] == chars[i].name
  {
    seq(|chars|, i requires 0 <= i < |chars| => chars[i].name)
  }

  function ExitDirs(exits: Option<seq<Exit>>): seq<Name> {
    match exits
    case None => []
    case Some(es) => seq(|es|, i requires 0 <= i < |es| => es[i].dir)
  }

  function TopicKeywords(ts: seq<Topic>): (r: seq<string>)
    requires forall i :: 0 <= i < |ts| ==> HasKeyword(ts[i])
    ensures |r| == |ts| && forall i :: 0 <= i < |ts| ==> r[i] == Keyword(ts[i])
  {
    seq(|ts|, i requires 0 <= i < |ts| => Keyword(ts[i]))
  }

  function ResponseKeys(rs: seq<Response>): (r: seq<string>)
    ensures |r| == |rs| && forall i :: 0 <= i < |rs| ==> r[i] == rs[i].key
  {
    seq(|rs|, i requires 0 <= i < |rs| => rs[i].key)
  }

  /** The candidates `autocomplete` offers for the last of `words`, given the
      current room, the inventory, the characters in the room and the live
      conversation. The position table uses the English words "talk",
      "take", "use", "go", "look", "to" and "at". */
  function CompletionOptions(words: seq<string>, room: Room, inventory: seq<Item>,
                             inRoom: seq<Character>, conversation: Option<Topics>): seq<string>
    requires conversation.Some? ==> IsDialogue(conversation.value) && WellFormedTopics(conversation.value)
  {
    var itemNames := ItemNames(room.items + inventory);
    if |words| == 1 then
      if conversation.None? then CommandWords
      else if conversation.value.TopicList? then
        CommandWords + TopicKeywords(conversation.value.topics) + ["inget"]
      else
        ResponseKeys(conversation.value.responses) + ["inget"]
    else if |words| == 2 then
      if words[0] == "talk" then ["med", "om"]
      else if words[0] == "take" || words[0] == "use" then FlatNames(itemNames)
      else if words[0] == "go" then FlatNames(ExitDirs(room.exits))
      else if words[0] == "look" then ["på"]
      else []
    else if |words| == 3 then
      var characterNames := CharacterNames(inRoom);
      if words[1] == "to" then LowerAll(FlatNames(characterNames))
      else if words[1] == "at" then LowerAll(FlatNames(characterNames + itemNames))
      else []
    else []
  }

  /** The candidates starting with the stub (the unescaped `^stub` pattern
      read as a plain prefix test). */
  function Matches(options: seq<string>, stub: string): seq<string> {
    if options == [] then []
    else
      var rest := Matches(options[1..], stub);
      if StartsWith(options[0], stub) then [options[0]] + rest else rest
  }

  lemma {:induction false} MatchesMembers(options: seq<string>, stub: string)
    ensures forall m :: m in Matches(options, stub) <==> m in options && StartsWith(m, stub)
  {
    if options != [] {
      MatchesMembers(options[1..], stub);
      assert forall o :: o in options <==> o == options[0] || o in options[1..];
    }
  }

  /** The new input value, or `None` when the input is left as it is. */
  function Completion(words: seq<string>, matches: seq<string>): Option<string>
    requires |words| > 0
  {
    var sansStub := words[..|words| - 1];
    if |matches| == 0 then None
    else if |matches| == 1 then Some(Join(sansStub + [matches[0]], " "))
    else Some(Join(sansStub + [CommonPrefix(LexMin(matches), LexMax(matches))], " "))
  }

  /** The three outcomes: no match leaves the input, one match replaces the
      stub by it, several replace the stub by their longest common prefix,
      which never drops any of the stub. */
  lemma CompletionOutcomes(words: seq<string>, options: seq<string>)
    requires |words| > 0
    ensures var stub := words[|words| - 1];
      var ms := Matches(options, stub);
      var sansStub := words[..|words| - 1];
      (|ms| == 0 <==> Completion(words, ms).None?)
      && (|ms| == 1 ==> Completion(words, ms) == Some(Join(sansStub + [ms[0]], " ")))
      && (|ms| > 1 ==>
            var p := CommonPrefix(LexMin(ms), LexMax(ms));
            Completion(words, ms) == Some(Join(sansStub + [p], " "))
            && StartsWith(p, stub)
            && (forall m :: m in ms ==> StartsWith(m, p))
            && forall q :: (forall m :: m in ms ==> StartsWith(m, q)) ==> StartsWith(p, q))
  {
    var stub := words[|words| - 1];
    var ms := Matches(options, stub);
    MatchesMembers(options, stub);
    if |ms| > 1 {
      ExtremesGiveLongestCommonPrefix(ms);
    }
  }
}
