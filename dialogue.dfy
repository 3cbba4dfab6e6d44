/** The pure half of the conversation engine: keyword derivation
    (`getKeywordFromTopic`), `topicIsAvailable`, the menu `listTopics`
    prints, `conversationIncludesTopic`, and the choice a reply makes. */
module Dialogue {
  import opened Wrappers
  import opened Text
  import opened Messages
  import opened Disk

  /** A word `getKeywordFromTopic` accepts: longer than one character and
      equal to its own upper case. */
  predicate IsCapsWord(w: string) {
    |w| > 1 && Upper(w) == w
  }

  /** The words of an option label: punctuation removed, white-space runs
      collapsed, split on spaces. */
  function OptionWords(option: string): seq<string> {
    Split(RemoveExtraSpaces(RemovePunctuation(option)), ' ')
  }

  /** `getKeywordFromTopic` returns rather than throws: an explicit keyword,
      or a capitalised word in the option. */
  predicate HasKeyword(t: Topic) {
    t.keyword != "" || FirstCapsWord(OptionWords(t.option)).Some?
  }

  /** The `find` of `getKeywordFromTopic`: the first capitalised word. */
  function FirstCapsWord(ws: seq<string>): (r: Option<nat>)
    ensures r.Some? ==> r.value < |ws|
  {
    if |ws| == 0 then None
    else if IsCapsWord(ws[0]) then Some(0)
    else match FirstCapsWord(ws[1..])
      case None => None
      case Some(k) => Some(k + 1)
  }

  /** `find` returns the first capitalised word, or nothing when there is
      none. */
  lemma {:induction false} FirstCapsWordIsFirst(ws: seq<string>)
    ensures var r := FirstCapsWord(ws);
      (r.Some? ==> IsCapsWord(ws[r.value]) && forall j :: 0 <= j < r.value ==> !IsCapsWord(ws[j]))
      && (r.None? ==> forall j :: 0 <= j < |ws| ==> !IsCapsWord(ws[j]))
  {
    if |ws| > 0 && !IsCapsWord(ws[0]) {
      FirstCapsWordIsFirst(ws[1..]);
    }
  }

  /** `getKeywordFromTopic`. */
  function Keyword(t: Topic): string
    requires HasKeyword(t)
  {
    if t.keyword != "" then t.keyword
    else
      var ws := OptionWords(t.option);
      Lower(ws[FirstCapsWord(ws).value])
  }

  /** The derived keyword is the lower case of the first capitalised word of
      the cleaned-up option, so it is lower case, longer than one character,
      free of spaces and punctuation, and upper-cases back to that word. */
  lemma KeywordDerivation(t: Topic)
    requires HasKeyword(t)
    ensures t.keyword != "" ==> Keyword(t) == t.keyword
    ensures t.keyword == "" ==>
      var ws := OptionWords(t.option);
      exists i :: 0 <= i < |ws| && IsCapsWord(ws[i]) && Keyword(t) == Lower(ws[i])
                  && Upper(Keyword(t)) == ws[i]
                  && forall j :: 0 <= j < i ==> !IsCapsWord(ws[j])
    ensures t.keyword == "" ==>
      |Keyword(t)| > 1 && Lower(Keyword(t)) == Keyword(t) && ' ' !in Keyword(t)
      && forall c :: c in Keyword(t) ==> !IsPunctuation(c)
  {
    if t.keyword == "" {
      var clean := RemoveExtraSpaces(RemovePunctuation(t.option));
      var ws := OptionWords(t.option);
      var i := FirstCapsWord(ws).value;
      var w := ws[i];
      FirstCapsWordIsFirst(ws);
      SplitPiecesLackSeparator(clean, ' ');
      UpperLowerOfCapitals(w);
      LowerIdempotent(w);
      CleanedOptionHasNoPunctuation(t.option);
      WordCharsOccur(clean, ' ', i);
      LoweredWordIsClean(w);
    }
  }

  /** The cleaned-up option holds no punctuation mark. */
  lemma CleanedOptionHasNoPunctuation(option: string)
    ensures forall c :: c in RemoveExtraSpaces(RemovePunctuation(option)) ==> !IsPunctuation(c)
  {
    var p := RemovePunctuation(option);
    RemovePunctuationMembers(option);
    RemoveExtraSpacesKeeps(p);
    forall c | c in RemoveExtraSpaces(p) ensures !IsPunctuation(c) {
      if !IsSpace(c) {
        assert c in p;
      }
    }
  }

  /** Lower-casing a word without spaces and punctuation keeps it so. */
  lemma LoweredWordIsClean(w: string)
    requires ' ' !in w && forall c :: c in w ==> !IsPunctuation(c)
    ensures ' ' !in Lower(w) && forall c :: c in Lower(w) ==> !IsPunctuation(c)
  {
    forall c | c in Lower(w) ensures c != ' ' && !IsPunctuation(c) {
      var p :| 0 <= p < |w| && Lower(w)[p] == c;
      assert w[p] in w;
    }
  }

  /** Every character of a split piece occurs in the string split. */
  lemma {:induction false} WordCharsOccur(s: string, sep: char, i: nat)
    requires i < |Split(s, sep)|
    ensures forall c :: c in Split(s, sep)[i] ==> c in s
  {
    if s == [] {
    } else if s[0] == sep {
      if i > 0 {
        WordCharsOccur(s[1..], sep, i - 1);
      }
    } else {
      var rest := Split(s[1..], sep);
      if i == 0 {
        WordCharsOccur(s[1..], sep, 0);
      } else {
        WordCharsOccur(s[1..], sep, i);
      }
    }
  }

  /** Keywords are derivable for every topic of a list conversation. */
  predicate WellFormedTopics(d: Topics) {
    d.TopicList? ==> forall i :: 0 <= i < |d.topics| ==> HasKeyword(d.topics[i])
  }

  /** A value that can become `disk.conversation`: a list or a keyed map. */
  predicate IsDialogue(d: Topics) {
    d.TopicList? || d.ResponseMap?
  }

  /** `topicIsAvailable`: every prerequisite has been discussed, and a
      read-once topic has not. */
  predicate TopicIsAvailable(chatLog: seq<string>, t: Topic)
    requires t.removeOnRead ==> HasKeyword(t)
  {
    (forall p :: p in t.prereqs ==> p in chatLog)
    && (!t.removeOnRead || Keyword(t) !in chatLog)
  }

  /** A topic whose prerequisite is missing from the chat log is unavailable. */
  lemma PrerequisiteGates(chatLog: seq<string>, t: Topic, k: string)
    requires t.removeOnRead ==> HasKeyword(t)
    requires k in t.prereqs && k !in chatLog
    ensures !TopicIsAvailable(chatLog, t)
  {
  }

  /** Once its keyword is logged, a read-once topic is unavailable. */
  lemma ReadOnceExcluded(chatLog: seq<string>, t: Topic)
    requires HasKeyword(t) && t.removeOnRead
    ensures !TopicIsAvailable(chatLog + [Keyword(t)], t)
  {
  }

  /** A topic that is not read-once stays available as the chat log grows. */
  lemma AvailabilityPersists(chatLog: seq<string>, more: seq<string>, t: Topic)
    requires !t.removeOnRead
    requires TopicIsAvailable(chatLog, t)
    ensures TopicIsAvailable(chatLog + more, t)
  {
  }

  /** `topics.filter(topic => topicIsAvailable(character, topic))`. */
  function AvailableTopics(chatLog: seq<string>, ts: seq<Topic>): (r: seq<Topic>)
    requires forall i :: 0 <= i < |ts| ==> HasKeyword(ts[i])
    ensures forall i :: 0 <= i < |r| ==> HasKeyword(r[i])
    ensures |r| <= |ts|
  {
    if ts == [] then []
    else
      var rest := AvailableTopics(chatLog, ts[1..]);
      if TopicIsAvailable(chatLog, ts[0]) then [ts[0]] + rest else rest
  }

  /** The available topics are exactly the listed topics `topicIsAvailable`
      keeps. */
  lemma {:induction false} AvailableTopicsMembers(chatLog: seq<string>, ts: seq<Topic>)
    requires forall i :: 0 <= i < |ts| ==> HasKeyword(ts[i])
    ensures forall t :: t in AvailableTopics(chatLog, ts) <==> t in ts && TopicIsAvailable(chatLog, t)
  {
    if ts != [] {
      AvailableTopicsMembers(chatLog, ts[1..]);
      assert forall t :: t in ts <==> t == ts[0] || t in ts[1..];
    }
  }

  /** The menu entry of a topic: its option, or else its keyword upper-cased. */
  function TopicLabel(t: Topic): string {
    if t.option != "" then t.option else Upper(t.keyword)
  }

  function TopicBullets(ts: seq<Topic>): (r: seq<string>)
    ensures |r| == |ts| && forall i :: 0 <= i < |ts| ==> r[i] == Bullet(TopicLabel(ts[i]))
  {
    seq(|ts|, i requires 0 <= i < |ts| => Bullet(TopicLabel(ts[i])))
  }

  function ResponseBullets(rs: seq<Response>): (r: seq<string>)
    ensures |r| == |rs| && forall i :: 0 <= i < |rs| ==> r[i] == Bullet(rs[i].option)
  {
    seq(|rs|, i requires 0 <= i < |rs| => Bullet(rs[i].option))
  }

  /** What `listTopics` does: print a menu, or end the conversation. */
  datatype Listing = Menu(lines: seq<string>) | Ended

  /** `listTopics` on the conversation `d` of a character with `chatLog`. */
  function ListTopics(d: Topics, chatLog: seq<string>): (l: Listing)
    requires IsDialogue(d) && WellFormedTopics(d)
    ensures l.Menu? ==> |l.lines| > 0 && forall k :: 0 <= k < |l.lines| ==> l.lines[k] != ""
  {
    match d
    case TopicList(ts) =>
      var available := AvailableTopics(chatLog, ts);
      if |available| > 0 then Menu([ChoosePrompt] + TopicBullets(available) + [Bullet(NothingOption)])
      else Ended
    case ResponseMap(rs) =>
      if |rs| > 0 then Menu([ReplyPrompt] + ResponseBullets(rs)) else Ended
  }

  /** A list conversation's menu shows exactly the available topics in their
      order between the prompt and the closing "INGET"; with none available
      the conversation ends instead. */
  lemma ListingShowsAvailable(ts: seq<Topic>, chatLog: seq<string>)
    requires WellFormedTopics(TopicList(ts))
    ensures var l := ListTopics(TopicList(ts), chatLog);
      (l.Ended? <==> forall t :: t in ts ==> !TopicIsAvailable(chatLog, t))
      && (l.Menu? ==>
            var av := AvailableTopics(chatLog, ts);
            |l.lines| == |av| + 2 && l.lines[0] == ChoosePrompt
            && l.lines[|l.lines| - 1] == Bullet(NothingOption)
            && forall i :: 0 <= i < |av| ==> l.lines[i + 1] == Bullet(TopicLabel(av[i])))
  {
    var av := AvailableTopics(chatLog, ts);
    AvailableTopicsMembers(chatLog, ts);
    if |av| > 0 {
      assert av[0] in av;
    }
  }

  /** `Object.keys(topics)` lookup of a keyed conversation. */
  predicate HasResponse(rs: seq<Response>, key: string) {
    exists i :: 0 <= i < |rs| && rs[i].key == key
  }

  /** The topic of a list conversation whose keyword is the reply. */
  function FindTopic(ts: seq<Topic>, kw: string): (r: Option<nat>)
    ensures r.Some? ==> r.value < |ts| && HasKeyword(ts[r.value]) && Keyword(ts[r.value]) == kw
    ensures r.Some? ==> forall j :: 0 <= j < r.value && HasKeyword(ts[j]) ==> Keyword(ts[j]) != kw
    ensures r.None? ==> forall i :: 0 <= i < |ts| && HasKeyword(ts[i]) ==> Keyword(ts[i]) != kw
  {
    if |ts| == 0 then None
    else if HasKeyword(ts[0]) && Keyword(ts[0]) == kw then Some(0)
    else match FindTopic(ts[1..], kw)
      case None => None
      case Some(k) => Some(k + 1)
  }

  /** `conversationIncludesTopic`, on the conversation it actually reads. */
  predicate ConversationIncludesTopic(conversation: Topics, kw: string) {
    kw == "inget"
    || (conversation.TopicList? && FindTopic(conversation.topics, kw).Some?)
    || (conversation.ResponseMap? && HasResponse(conversation.responses, kw))
  }

  /** What a reply `response` (already lower-cased) selects in a live
      conversation. */
  datatype Selection = Quit | Respond | Discuss(index: nat) | NoTopic

  function Select(conversation: Topics, chatLog: seq<string>, response: string): (s: Selection)
    requires WellFormedTopics(conversation)
  {
    if response == "inget" then Quit
    else if conversation.ResponseMap? && HasResponse(conversation.responses, response) then Respond
    else if conversation.TopicList? && |conversation.topics| > 0 then
      match FindTopic(conversation.topics, response)
      case Some(i) =>
        if TopicIsAvailable(chatLog, conversation.topics[i]) then Discuss(i) else NoTopic
      case None => NoTopic
    else NoTopic
  }

  /** The chat log after a reply: the topic's keyword is appended only when a
      topic is found and available. */
  function ChatLogAfter(conversation: Topics, chatLog: seq<string>, response: string): seq<string>
    requires WellFormedTopics(conversation)
  {
    match Select(conversation, chatLog, response)
    case Discuss(i) => chatLog + [Keyword(conversation.topics[i])]
    case _ => chatLog
  }

  /** A reply extends the chat log by at most the reply itself, and only when
      it names an available topic of a list conversation. */
  lemma ChatLogOnlyGrows(conversation: Topics, chatLog: seq<string>, response: string)
    requires WellFormedTopics(conversation)
    ensures var after := ChatLogAfter(conversation, chatLog, response);
      (after == chatLog
       || (after == chatLog + [response]
           && conversation.TopicList? && response != "inget"
           && exists t :: t in conversation.topics && HasKeyword(t) && Keyword(t) == response
                          && TopicIsAvailable(chatLog, t)))
  {
    match Select(conversation, chatLog, response)
    case Discuss(i) =>
      assert conversation.topics[i] in conversation.topics;
    case _ =>
  }

  /** A read-once topic, once discussed, drops out of the next listing. */
  lemma DiscussedReadOnceDropsOut(ts: seq<Topic>, chatLog: seq<string>, response: string)
    requires WellFormedTopics(TopicList(ts))
    requires Select(TopicList(ts), chatLog, response).Discuss?
    ensures var t := ts[Select(TopicList(ts), chatLog, response).index];
      t.removeOnRead ==> t !in AvailableTopics(ChatLogAfter(TopicList(ts), chatLog, response), ts)
  {
    var t := ts[Select(TopicList(ts), chatLog, response).index];
    if t.removeOnRead {
      ReadOnceExcluded(chatLog, t);
      AvailableTopicsMembers(ChatLogAfter(TopicList(ts), chatLog, response), ts);
    }
  }
}
