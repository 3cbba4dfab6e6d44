/** The command tables of index.js (`commands`, one table per argument
    count, in declaration order) and the ordered fallback chain with which
    `applyInput` picks a handler. */
module Commands {
  import opened Wrappers
  import opened Disk
  import opened Dialogue

  /** Handlers of the no-argument table. */
  datatype Cmd0 =
    | Inventory | Look | ListExits | GoShortcut(dir: string) | Talk | ListTakeable
    | ListItems | ListUsable | ListCharacters | Help | Say | Save | Load

  /** Handlers of the one-argument table. */
  datatype Cmd1 = LookThusly | GoDir | TakeItem | UseItem | SayString | SaveAs | LoadFrom | LookAtOne | TalkToOne

  /** Handlers of the table used for two or more arguments. */
  datatype CmdN = LookAt | SayWords | TalkWith | LookAtAll | GoWords

  const Commands0: seq<(string, Cmd0)> := [
    ("ryggsäck", Inventory), ("r", Inventory), ("titta", Look), ("t", Look), ("gå", ListExits),
    ("n", GoShortcut("norr")), ("s", GoShortcut("söder")), ("ö", GoShortcut("öst")),
    ("v", GoShortcut("väst")), ("nö", GoShortcut("nordost")), ("sö", GoShortcut("sydost")),
    ("sv", GoShortcut("sydväst")), ("nv", GoShortcut("nordväst ")), ("prata", Talk), ("p", Talk),
    ("ta", ListTakeable), ("saker", ListItems), ("använd", ListUsable), ("personer", ListCharacters),
    ("hjälp", Help), ("säg", Say), ("spara", Save), ("ladda", Load)]

  const Commands1: seq<(string, Cmd1)> := [
    ("titta", LookThusly), ("gå", GoDir), ("ta", TakeItem), ("använd", UseItem), ("säg", SayString),
    ("spara", SaveAs), ("ladda", LoadFrom), ("x", LookAtOne), ("t", TalkToOne)]

  const CommandsN: seq<(string, CmdN)> := [
    ("titta", LookAt), ("säg", SayWords), ("prata", TalkWith), ("x", LookAtAll), ("gå", GoWords)]

  /** `table[command]`: the handler stored under the word, if any. */
  function Lookup<C>(table: seq<(string, C)>, key: Option<string>): (r: Option<C>)
    ensures r.Some? ==> key.Some? && exists i :: 0 <= i < |table| && table[i] == (key.value, r.value)
    ensures r.None? ==> key.None? || forall i :: 0 <= i < |table| ==> table[i].0 != key.value
  {
    if key.None? then None
    else if |table| == 0 then None
    else if table[0].0 == key.value then Some(table[0].1)
    else Lookup(table[1..], key)
  }

  /** `Object.keys` of a table. */
  function Keys<C>(table: seq<(string, C)>): (r: seq<string>)
    ensures |r| == |table| && forall i :: 0 <= i < |table| ==> r[i] == table[i].0
  {
    seq(|table|, i requires 0 <= i < |table| => table[i].0)
  }

  predicate IsArticle(w: string) {
    w == "a" || w == "an" || w == "the"
  }

  /** The article filter of `applyInput`, skipped when the first word is "say". */
  function ArticleFilter(words: seq<string>): seq<string> {
    if |words| > 0 && words[0] == "say" then words else DropArticles(words)
  }

  /** A "say" input keeps its articles; any other loses exactly them. */
  lemma ArticleFilterMembers(words: seq<string>)
    ensures |words| > 0 && words[0] == "say" ==> ArticleFilter(words) == words
    ensures !(|words| > 0 && words[0] == "say") ==>
      forall w :: w in ArticleFilter(words) <==> w in words && !IsArticle(w)
  {
    DropArticlesMembers(words);
  }

  /** The words that are not articles, in order. */
  function DropArticles(words: seq<string>): seq<string> {
    if words == [] then []
    else
      var rest := DropArticles(words[1..]);
      if IsArticle(words[0]) then rest else [words[0]] + rest
  }

  lemma {:induction false} DropArticlesMembers(words: seq<string>)
    ensures forall w :: w in DropArticles(words) <==> w in words && !IsArticle(w)
    ensures |DropArticles(words)| <= |words|
  {
    if words != [] {
      DropArticlesMembers(words[1..]);
      assert forall w :: w in words <==> w == words[0] || w in words[1..];
    }
  }

  /** What `applyInput` ends up doing with the words of an input. */
  datatype Action =
    | Run0(c0: Cmd0)
    | Run1(c1: Cmd1, arg: string)
    | RunN(cn: CmdN, args: seq<string>)
    | TakeFirst(item: string)
    | UseFirst(item: string)
    | GoShorthand(dir: string)
    | TalkAboutShorthand(word: string)
    | TopicHint
    | NotUnderstood

  /** `exec` with no handler: the keyword hint during a conversation,
      otherwise the not-understood message. */
  function Fallback(conversation: Option<Topics>): (a: Action)
    ensures a == TopicHint <==> conversation.Some?
    ensures a == NotUnderstood <==> conversation.None?
  {
    if conversation.Some? then TopicHint else NotUnderstood
  }

  /** The fallback chain of `applyInput` on the filtered words `args`, the
      current room's exits and the live conversation. */
  function Resolve(args: seq<string>, exits: Option<seq<Exit>>, conversation: Option<Topics>): Action {
    var command := if |args| > 0 then Some(args[0]) else None;
    var rest := if |args| > 0 then args[1..] else [];
    if |rest| == 1 then
      match Lookup(Commands1, command)
      case Some(c) => Run1(c, rest[0])
      case None => Fallback(conversation)
    else if command == Some("take") && |rest| > 0 then TakeFirst(rest[0])
    else if command == Some("use") && |rest| > 0 then UseFirst(rest[0])
    else if |rest| >= 3 then
      match Lookup(CommandsN, command)
      case Some(c) => RunN(c, rest)
      case None => Fallback(conversation)
    else if command.Some? && exits.Some? && GetExit(command.value, exits.value).Some? then
      GoShorthand(command.value)
    else if command.Some? && conversation.Some? && ConversationIncludesTopic(conversation.value, command.value) then
      TalkAboutShorthand(command.value)
    else if |rest| == 0 then
      match Lookup(Commands0, command)
      case Some(c) => Run0(c)
      case None => Fallback(conversation)
    else
      match Lookup(CommandsN, command)
      case Some(c) => RunN(c, rest)
      case None => Fallback(conversation)
  }

  /** Step 1: exactly one argument goes to the one-argument table, before any
      other rule, and nowhere else. */
  lemma OneArgumentUsesTableOne(args: seq<string>, exits: Option<seq<Exit>>, conversation: Option<Topics>)
    requires |args| == 2
    ensures var a := Resolve(args, exits, conversation);
      (a.Run1? && a.arg == args[1] && Lookup(Commands1, Some(args[0])) == Some(a.c1))
      || (a == Fallback(conversation) && Lookup(Commands1, Some(args[0])).None?)
  {
  }

  /** Step 2: "take"/"use" with two or more arguments act on the first one
      only; with one argument they find no handler, since the one-argument
      table has only the Swedish words. */
  lemma TakeAndUseUseFirstArgument(args: seq<string>, exits: Option<seq<Exit>>, conversation: Option<Topics>)
    requires |args| >= 2 && (args[0] == "take" || args[0] == "use")
    ensures |args| == 2 ==> Resolve(args, exits, conversation) == Fallback(conversation)
    ensures |args| >= 3 && args[0] == "take" ==> Resolve(args, exits, conversation) == TakeFirst(args[1])
    ensures |args| >= 3 && args[0] == "use" ==> Resolve(args, exits, conversation) == UseFirst(args[1])
  {
  }

  /** Step 3: three or more arguments go to the last table with all of them. */
  lemma ManyArgumentsUseLastTable(args: seq<string>, exits: Option<seq<Exit>>, conversation: Option<Topics>)
    requires |args| >= 4 && args[0] != "take" && args[0] != "use"
    ensures var a := Resolve(args, exits, conversation);
      (a.RunN? && a.args == args[1..]) || a == Fallback(conversation)
  {
  }

  /** Step 4: a bare word naming an exit of the room is a move, even when it
      is also a command word or a topic keyword. */
  lemma BareExitIsMove(word: string, exits: seq<Exit>, conversation: Option<Topics>)
    requires GetExit(word, exits).Some?
    ensures Resolve([word], Some(exits), conversation) == GoShorthand(word)
  {
  }

  /** Step 5: a bare word that the live conversation includes, and that no
      exit has, is treated as talking about it. */
  lemma BareKeywordIsTalkAbout(word: string, exits: Option<seq<Exit>>, conversation: Topics)
    requires exits.None? || GetExit(word, exits.value).None?
    requires ConversationIncludesTopic(conversation, word)
    ensures Resolve([word], exits, Some(conversation)) == TalkAboutShorthand(word)
  {
  }

  /** Step 6: any other bare word is looked up in the no-argument table. */
  lemma BareWordUsesTableZero(word: string, exits: Option<seq<Exit>>, conversation: Option<Topics>)
    requires exits.None? || GetExit(word, exits.value).None?
    requires conversation.None? || !ConversationIncludesTopic(conversation.value, word)
    ensures Resolve([word], exits, conversation)
            == match Lookup(Commands0, Some(word)) case Some(c) => Run0(c) case None => Fallback(conversation)
  {
  }

  /** The shorthands are reached by a bare word and also by a word with two
      arguments, since only one and three or more arguments are routed
      earlier; the shorthand then ignores the arguments. */
  lemma ShorthandArities(args: seq<string>, exits: Option<seq<Exit>>, conversation: Option<Topics>)
    ensures Resolve(args, exits, conversation).GoShorthand? ==>
      (|args| == 1 || |args| == 3) && exits.Some? && GetExit(args[0], exits.value).Some?
      && Resolve(args, exits, conversation).dir == args[0]
    ensures Resolve(args, exits, conversation).TalkAboutShorthand? ==>
      (|args| == 1 || |args| == 3) && conversation.Some?
      && ConversationIncludesTopic(conversation.value, args[0])
  {
  }

  /** A handler of the last table always receives at least two arguments:
      the words after the command. */
  lemma ManyArgumentHandlersGetTwo(args: seq<string>, exits: Option<seq<Exit>>, conversation: Option<Topics>)
    ensures Resolve(args, exits, conversation).RunN? ==>
      |args| >= 3 && Resolve(args, exits, conversation).args == args[1..]
  {
  }

  /** The words offered for completing a command (see `CommandWordsFromTables`
      for how `autocomplete` builds them from the tables). */
  const CommandWords: seq<string> := [
    "ryggsäck", "titta", "gå", "nö", "sö", "sv", "nv", "prata", "ta", "saker",
    "använd", "personer", "hjälp", "säg", "spara", "ladda"]

  /** The completion words are every key of the three tables longer than
      one character, each once, in order of first occurrence. */
  lemma CommandWordsFromTables()
    ensures CommandWords == Dedup(LongWords(Keys(Commands0) + Keys(Commands1) + Keys(CommandsN)))
  {
    var k0, k1, kn := Keys(Commands0), Keys(Commands1), Keys(CommandsN);
    LongKeysOfFirstTable();
    KeysOfOtherTables();
    LongWordsAppend(k0 + k1, kn);
    LongWordsAppend(k0, k1);
    DedupKeepsCommandWords();
  }

  /** The long keys of the other two tables add nothing new. */
  lemma DedupKeepsCommandWords()
    ensures Dedup(CommandWords + LongWords(SecondKeys) + LongWords(LastKeys)) == CommandWords
  {
    var b1, b2 := LongWords(SecondKeys), LongWords(LastKeys);
    assert CommandWords + b1 + b2 == CommandWords + (b1 + b2);
    LaterLongKeysSeen();
    DedupSeen(CommandWords, b1 + b2);
    CommandWordsDistinct();
    DedupDistinct(CommandWords);
  }

  lemma LaterLongKeysSeen()
    ensures forall x :: x in LongWords(SecondKeys) + LongWords(LastKeys) ==> x in CommandWords
  {
    LongSecondKeys();
    LongLastKeys();
    assert forall x ::
      x in ["titta", "gå", "ta", "använd", "säg", "spara", "ladda"] + ["titta", "säg", "prata", "gå"] ==> x in CommandWords;
  }

  lemma CommandWordsDistinct()
    ensures forall i, j :: 0 <= i < j < |CommandWords| ==> CommandWords[i] != CommandWords[j]
  {
  }

  /** The keys of the first table in four groups, so that the proof below
      computes `LongWords` a few keys at a time. */
  const FirstKeys1: seq<string> := ["ryggsäck", "r", "titta", "t", "gå", "n"]
  const FirstKeys2: seq<string> := ["s", "ö", "v", "nö", "sö", "sv"]
  const FirstKeys3: seq<string> := ["nv", "prata", "p", "ta", "saker", "använd"]
  const FirstKeys4: seq<string> := ["personer", "hjälp", "säg", "spara", "ladda"]

  lemma KeysOfFirstTable()
    ensures Keys(Commands0) == FirstKeys1 + FirstKeys2 + FirstKeys3 + FirstKeys4
  {
  }

  lemma LongKeysOfFirstTable()
    ensures LongWords(Keys(Commands0)) == CommandWords
  {
    KeysOfFirstTable();
    LongWordsAppend(FirstKeys1 + FirstKeys2 + FirstKeys3, FirstKeys4);
    LongWordsAppend(FirstKeys1 + FirstKeys2, FirstKeys3);
    LongWordsAppend(FirstKeys1, FirstKeys2);
    LongFirstKeys1();
    LongFirstKeys2();
    LongFirstKeys3();
    LongFirstKeys4();
  }

  lemma LongFirstKeys1() ensures LongWords(FirstKeys1) == ["ryggsäck", "titta", "gå"] { }
  lemma LongFirstKeys2() ensures LongWords(FirstKeys2) == ["nö", "sö", "sv"] { }
  lemma LongFirstKeys3() ensures LongWords(FirstKeys3) == ["nv", "prata", "ta", "saker", "använd"] { }
  lemma LongFirstKeys4() ensures LongWords(FirstKeys4) == FirstKeys4 { }

  const SecondKeys: seq<string> := ["titta", "gå", "ta", "använd", "säg", "spara", "ladda", "x", "t"]
  const LastKeys: seq<string> := ["titta", "säg", "prata", "x", "gå"]

  lemma KeysOfOtherTables()
    ensures Keys(Commands1) == SecondKeys && Keys(CommandsN) == LastKeys
  {
  }

  lemma LongSecondKeys() ensures LongWords(SecondKeys) == ["titta", "gå", "ta", "använd", "säg", "spara", "ladda"] { }
  lemma LongLastKeys() ensures LongWords(LastKeys) == ["titta", "säg", "prata", "gå"] { }

  lemma {:induction false} LongWordsAppend(a: seq<string>, b: seq<string>)
    ensures LongWords(a + b) == LongWords(a) + LongWords(b)
  {
    if a == [] {
      assert a + b == b;
    } else {
      assert (a + b)[0] == a[0] && (a + b)[1..] == a[1..] + b;
      LongWordsAppend(a[1..], b);
    }
  }

  /** Appending words already present leaves `Dedup` unchanged. */
  lemma {:induction false} DedupSeen(a: seq<string>, b: seq<string>)
    requires forall x :: x in b ==> x in a
    ensures Dedup(a + b) == Dedup(a)
  {
    if b == [] {
      assert a + b == a;
    } else {
      var c := a + b[..|b| - 1];
      assert (a + b)[..|a + b| - 1] == c;
      DedupSeen(a, b[..|b| - 1]);
      DedupMembers(c);
      assert b[|b| - 1] in c;
    }
  }

  /** `Dedup` keeps a list whose elements are distinct. */
  lemma {:induction false} DedupDistinct(s: seq<string>)
    requires forall i, j :: 0 <= i < j < |s| ==> s[i] != s[j]
    ensures Dedup(s) == s
  {
    if s != [] {
      var init := s[..|s| - 1];
      DedupDistinct(init);
      assert s[|s| - 1] !in init;
      assert init + [s[|s| - 1]] == s;
    }
  }

  /** The words longer than one character, in order. */
  function LongWords(ks: seq<string>): seq<string> {
    if ks == [] then []
    else
      var rest := LongWords(ks[1..]);
      if |ks[0]| > 1 then [ks[0]] + rest else rest
  }

  lemma {:induction false} LongWordsMembers(ks: seq<string>)
    ensures forall k :: k in LongWords(ks) <==> k in ks && |k| > 1
  {
    if ks != [] {
      LongWordsMembers(ks[1..]);
      assert forall k :: k in ks <==> k == ks[0] || k in ks[1..];
    }
  }

  /** `[...new Set(s)]`: the distinct elements in order of first occurrence. */
  function Dedup(s: seq<string>): seq<string> {
    if s == [] then []
    else
      var d := Dedup(s[..|s| - 1]);
      if s[|s| - 1] in d then d else d + [s[|s| - 1]]
  }

  /** `Dedup` keeps every element and repeats none. */
  lemma {:induction false} DedupMembers(s: seq<string>)
    ensures forall x :: x in Dedup(s) <==> x in s
    ensures forall i, j :: 0 <= i < j < |Dedup(s)| ==> Dedup(s)[i] != Dedup(s)[j]
  {
    if s != [] {
      var init := s[..|s| - 1];
      DedupMembers(init);
      assert forall x :: x in s <==> x in init || x == s[|s| - 1];
    }
  }
}
