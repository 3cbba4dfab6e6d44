/** The bundled test disk (game-disks/test-disk.js) as data, and what the
    engine does with it: the door north is overgrown until the axe is used,
    after which the forest can be entered, and Lisa can be asked about two
    topics whose keywords come from their capitalised words. */
module TestDisk {
  import opened Wrappers
  import opened Text
  import opened Messages
  import opened Disk
  import opened Dialogue
  import opened Rules
  import Engine

  const HallDesc := "Du står i hallen, framför dig ser du en lång korridor, bakom dig en låst dörr. Skriv SAKER för att se vad som mer finns i rummet."
  const ForestDesc := "Det är en skog här. Rummet du kommer från är söderut."
  const DoorBlock := "Dörren som leder norrut är övervuxen av klängväxter och går inte att öppna."
  const AxeCuts := "Du skär genom klängväxterna, dörren är nu fri att öppnas."
  const AxeIdle := "Det finns inget att använda yxan till här."

  const Door := Item(Single("dörr"), "Den leder till norr.", false, "", GoDirUse("norr"), false)
  const Vines := Item(Synonyms(["klängväxter", "klängväxt"]),
                      "De växer över dörren så den går inte att öppna.", false, "", NoUse, false)
  const Axe := Item(Single("yxa"),
                    "Du kan förmodligen använda den för att ta bort klängväxterna som växer över dörren.",
                    true, "", ClearBlockUse("start", "norr", AxeCuts, AxeIdle), false)

  const Hall := Room("start", Some(Single("Hallen")), "", HallDesc, 0, [Door, Vines, Axe],
                     Some([Exit(Single("norr"), "forrest", DoorBlock)]))
  const Forest := Room("forrest", Some(Single("En skog")), "", ForestDesc, 0, [],
                       Some([Exit(Single("söder"), "start", "")]))

  const AboutHouse := Topic(HouseOption, "",
                            "Absolut! Det här är ett väldigt litet hus med bara en hall. Akta dig så du inte blir fast",
                            [], false)
  const WhatDoing := Topic(WhatOption + "?", "", "Jag har fastnat i en tidsloop", [], false)
  const Lisa := Character(Synonyms(["Lisa"]), "start", "Hon ser lite lurig ut",
                          "\"Hej\" säger hon, \"Hur kan jag hjälpa dig?\"",
                          TopicList([AboutHouse, WhatDoing]), [])

  /** `testDisk`; it declares no inventory, which `init` makes empty. */
  const Game := Disk("start", [Hall, Forest], [], [Lisa])

  /** "Berätta om HUSET" is keyed "huset", "VAD gör du här?" is keyed "vad". */
  lemma TopicKeywords()
    ensures HasKeyword(AboutHouse) && Keyword(AboutHouse) == "huset"
    ensures HasKeyword(WhatDoing) && Keyword(WhatDoing) == "vad"
  {
    HouseWords();
    WhatWords();
    CapitalWords();
    assert FirstCapsWord(["Berätta", "om", "HUSET"]) == Some(2);
  }

  // The option labels, cleaned and split one step at a time.

  const HouseOption := "Berätta om HUSET"
  const WhatOption := "VAD gör du här"

  lemma HouseWords()
    ensures OptionWords(AboutHouse.option) == ["Berätta", "om", "HUSET"]
  {
    HouseOptionClean();
    HouseOptionSingleSpaced();
    HouseOptionSplit();
  }

  lemma HouseOptionClean()
    ensures RemovePunctuation(HouseOption) == HouseOption
  {
    RemovePunctuationOfClean(HouseOption);
  }

  lemma HouseOptionSingleSpaced()
    ensures RemoveExtraSpaces(HouseOption) == HouseOption
  {
    assert SingleSpaced(HouseOption) by {
      forall i | 0 <= i < |HouseOption| - 1
        ensures !(IsSpace(HouseOption[i]) && IsSpace(HouseOption[i + 1]))
      {
        if i != 7 && i != 10 {
          assert HouseOption[i] != ' ';
        }
      }
    }
    RemoveExtraSpacesOfSingleSpaced(HouseOption);
  }

  lemma HouseOptionSplit()
    ensures Split(HouseOption, ' ') == ["Berätta", "om", "HUSET"]
  {
    HouseOptionPieces();
    HouseTailSplit();
    SplitAtFirst("Berätta", ' ', "om" + [' '] + "HUSET");
  }

  lemma HouseOptionPieces()
    ensures HouseOption == "Berätta" + [' '] + ("om" + [' '] + "HUSET")
  {
  }

  lemma HouseTailSplit()
    ensures Split("om" + [' '] + "HUSET", ' ') == ["om", "HUSET"]
  {
    SplitAtFirst("om", ' ', "HUSET");
    SplitWhole("HUSET", ' ');
  }

  lemma WhatWords()
    ensures |OptionWords(WhatDoing.option)| > 0 && OptionWords(WhatDoing.option)[0] == "VAD"
  {
    WhatOptionClean();
    WhatOptionSingleSpaced();
    WhatOptionSplit();
  }

  lemma WhatOptionClean()
    ensures RemovePunctuation(WhatDoing.option) == WhatOption
  {
    WhatOptionWordsClean();
    RemovePunctuationAppend(WhatOption, "?");
    assert RemovePunctuation("?") == [];
  }

  lemma WhatOptionWordsClean()
    ensures RemovePunctuation(WhatOption) == WhatOption
  {
    RemovePunctuationOfClean(WhatOption);
  }

  lemma WhatOptionSingleSpaced()
    ensures RemoveExtraSpaces(WhatOption) == WhatOption
  {
    RemoveExtraSpacesOfSingleSpaced(WhatOption);
  }

  lemma WhatOptionSplit()
    ensures |Split(WhatOption, ' ')| > 0 && Split(WhatOption, ' ')[0] == "VAD"
  {
    assert WhatOption == "VAD" + [' '] + "gör du här";
    SplitAtFirst("VAD", ' ', "gör du här");
  }

  lemma CapitalWords()
    ensures !IsCapsWord("Berätta") && !IsCapsWord("om") && IsCapsWord("HUSET") && IsCapsWord("VAD")
    ensures Lower("HUSET") == "huset" && Lower("VAD") == "vad"
  {
    assert Upper("Berätta")[1] == 'E' && Upper("om")[0] == 'O';
  }

  /** Every exit and every character names a room of the disk. */
  predicate RoomsResolve(d: Disk) {
    (forall r, e :: r in d.rooms && r.exits.Some? && e in r.exits.value ==> FindRoom(d.rooms, e.id).Some?)
    && (forall c :: c in d.characters ==> FindRoom(d.rooms, c.roomId).Some?)
  }

  /** The disk loads: its start room exists, Lisa's topics have keywords, and
      its exits and Lisa stand in rooms of the disk. */
  lemma GameWellFormed()
    ensures DiskWellFormed(Game) && RoomsResolve(Game)
  {
    LisaWellFormed();
    ExitsResolve();
  }

  lemma LisaWellFormed()
    ensures WellFormedTopics(Lisa.topics) && AllWellFormed(Game.characters)
  {
    TopicKeywords();
    assert WellFormedTopics(Lisa.topics);
  }

  lemma ExitsResolve()
    ensures RoomsResolve(Game)
  {
    assert FindRoom(Game.rooms, "forrest") == Some(1);
  }

  /** The state `init` makes of the disk. */
  const Begin := State("start", [Hall, Forest], [], [Lisa], None, None)

  /** `init` leaves the player in the hall with nothing in the backpack, no
      room visited, Lisa's chat log empty and no conversation. */
  lemma InitialState()
    ensures DiskWellFormed(Game) && Init(Game) == Begin
    ensures Consistent(Begin) && Here(Begin) == Hall
    ensures Begin.inventory == [] && Begin.characters[0].chatLog == []
    ensures forall r :: r in Begin.rooms ==> r.visits == 0
  {
    GameWellFormed();
    var s := Init(Game);
    assert s.rooms == [Hall, Forest];
    assert s.characters == [Lisa];
  }

  /** The state after `init` with the hall entered `v` times: `loadDisk`
      enters it once before the first command. */
  function Entered(v: nat): State {
    Begin.(rooms := [Hall.(visits := v), Forest])
  }

  /** `loadDisk` enters the hall: its name and, on this first visit, its
      description are shown, and the hall counts one visit. */
  lemma HallIsEntered()
    ensures Consistent(Begin) && Begin == Entered(0)
    ensures EnterRoom(Begin, "start") == Step(Entered(1), ["Hallen", HallDesc])
  {
    InitialState();
    assert FindRoom(Begin.rooms, "start") == Some(0);
    assert EntryLines(Hall) == ["Hallen", HallDesc];
    assert Begin.rooms[0 := Hall.(visits := 1)] == Entered(1).rooms;
  }

  lemma EnteredConsistent(v: nat)
    ensures Consistent(Entered(v)) && Here(Entered(v)) == Hall.(visits := v)
  {
    InitialState();
    UpdateRoomConsistent(Begin, 0, Hall.(visits := v));
    assert Begin.rooms[0 := Hall.(visits := v)] == Entered(v).rooms;
  }

  /** The hall once the axe has cut the vines: its exit north is open. */
  const OpenHall := Hall.(exits := Some([Exit(Single("norr"), "forrest", "")]))

  function Cleared(v: nat): State {
    Entered(v).(rooms := [OpenHall.(visits := v), Forest])
  }

  /** North is overgrown however often the hall was entered: walking there,
      or using the door, which walks there, prints the block and changes
      nothing. */
  lemma DoorIsOvergrown(v: nat)
    ensures Consistent(Entered(v))
    ensures GoDir(Entered(v), "norr") == Step(Entered(v), [DoorBlock])
    ensures UseItem(Entered(v), "dörr") == Step(Entered(v), [DoorBlock])
  {
    EnteredConsistent(v);
    DoorIsFound(v);
  }

  lemma DoorIsFound(v: nat)
    ensures Consistent(Entered(v)) && FoundItem(Entered(v), "dörr") == Some(Door)
  {
    EnteredConsistent(v);
    assert ObjectHasName(Door.name, "dörr") by {
      assert StartsWith(Lower("dörr"), Lower("dörr"));
    }
  }

  /** The axe cuts the vines: using it opens the exit north and says so;
      using it again finds nothing to cut and changes nothing. */
  lemma AxeClearsTheDoor(v: nat)
    ensures Consistent(Entered(v)) && Consistent(Cleared(v))
    ensures UseItem(Entered(v), "yxa") == Step(Cleared(v), [AxeCuts])
    ensures UseItem(Cleared(v), "yxa") == Step(Cleared(v), [AxeIdle])
  {
    AxeIsFound(v);
    AxeCutsOnce(v);
  }

  lemma AxeCutsOnce(v: nat)
    ensures Consistent(Entered(v)) && Consistent(Cleared(v))
    ensures ClearBlock(Entered(v), "start", "norr", AxeCuts, AxeIdle) == Step(Cleared(v), [AxeCuts])
    ensures ClearBlock(Cleared(v), "start", "norr", AxeCuts, AxeIdle) == Step(Cleared(v), [AxeIdle])
  {
    EnteredConsistent(v);
    var es := Hall.exits.value;
    assert GetExit("norr", es) == Some(0);
    assert es[0 := es[0].(block := "")] == OpenHall.exits.value;
    UpdateRoomConsistent(Entered(v), 0, OpenHall.(visits := v));
    assert Entered(v).rooms[0 := OpenHall.(visits := v)] == Cleared(v).rooms;
    assert FindRoom(Cleared(v).rooms, "start") == Some(0);
  }

  lemma OnlyTheAxeIsNamedAxe()
    ensures !ObjectHasName(Door.name, "yxa") && !ObjectHasName(Vines.name, "yxa")
    ensures ObjectHasName(Axe.name, "yxa")
  {
    LacksY("dörr");
    VinesAreNotAxe();
    assert StartsWith(Lower("yxa"), Lower("yxa"));
  }

  lemma VinesAreNotAxe()
    ensures !ObjectHasName(Vines.name, "yxa")
  {
    LacksY("klängväxter");
    LacksY("klängväxt");
    var ns := ["klängväxter", "klängväxt"];
    assert ns[1..] == ["klängväxt"] && ns[1..][1..] == [];
    assert FirstContaining(ns, "yxa").None?;
  }

  /** No name of the hall but the axe's holds a "y". */
  lemma LacksY(n: string)
    requires n == "dörr" || n == "klängväxter" || n == "klängväxt"
    ensures !NameContains(n, "yxa")
  {
    assert Lower("yxa")[0] == 'y';
    assert 'y' !in Lower(n) by {
      forall k | 0 <= k < |n| ensures Lower(n)[k] != 'y' { }
    }
    MissingFirstCharNotContained(Lower(n), Lower("yxa"));
  }

  lemma AxeIsFound(v: nat)
    ensures Consistent(Entered(v)) && FoundItem(Entered(v), "yxa") == Some(Axe)
    ensures Consistent(Cleared(v)) && FoundItem(Cleared(v), "yxa") == Some(Axe)
  {
    AxeCutsOnce(v);
    AxeIsThird();
  }

  lemma AxeIsThird()
    ensures GetItem(Hall.items, "yxa") == Some(2)
  {
    OnlyTheAxeIsNamedAxe();
    var items := Hall.items;
    assert items[1..] == [Vines, Axe] && items[1..][1..] == [Axe];
    assert GetItem([Axe], "yxa") == Some(0);
  }

  /** The player in the forest, entered once, with the hall's exit open. */
  function InForest(v: nat): State {
    Cleared(v).(roomId := "forrest", rooms := [OpenHall.(visits := v), Forest.(visits := 1)])
  }

  /** With the vines cut, "norrut" leads north into the forest: one visit is
      counted, and its name and (first visit) description are shown. */
  lemma NorthLeadsToForest(v: nat)
    ensures Consistent(Cleared(v)) && Consistent(InForest(v))
    ensures GoDir(Cleared(v), "norrut") == Step(InForest(v), ["En skog", ForestDesc])
  {
    AxeCutsOnce(v);
    assert "norr" + "ut" == "norrut";
    GoDirIgnoresUt(Cleared(v), "norr");
    NorthIsOpen(v);
    ForestIsEntered(v);
  }

  lemma NorthIsOpen(v: nat)
    ensures Consistent(Cleared(v)) && GoDir(Cleared(v), "norr") == EnterRoom(Cleared(v), "forrest")
  {
    AxeCutsOnce(v);
    assert Here(Cleared(v)) == OpenHall.(visits := v);
    assert GoOutcomeOf(OpenHall.(visits := v), "norr") == Leads("forrest");
  }

  lemma ForestIsEntered(v: nat)
    ensures Consistent(Cleared(v))
    ensures EnterRoom(Cleared(v), "forrest") == Step(InForest(v), ["En skog", ForestDesc])
  {
    AxeCutsOnce(v);
    assert FindRoom(Cleared(v).rooms, "forrest") == Some(1);
    assert EntryLines(Forest) == ["En skog", ForestDesc];
    assert Cleared(v).rooms[1 := Forest.(visits := 1)] == InForest(v).rooms;
  }

  /** The player holding the axe, taken from the hall. */
  const HoldingAxe := Begin.(inventory := [Axe], rooms := [Hall.(items := [Door, Vines]), Forest])

  /** Only the axe can be taken. The door and the vines, the latter named
      by a part of a synonym, stay where they are, fast. */
  lemma OnlyTheAxeIsTakeable()
    ensures Takeable(Hall.items) == [Axe]
    ensures Consistent(Begin) && Consistent(HoldingAxe)
    ensures TakeItem(Begin, "dörr") == Step(Begin, [StuckFast])
    ensures TakeItem(Begin, "kläng") == Step(Begin, [StuckFast])
    ensures TakeItem(Begin, "yxa") == Step(HoldingAxe, [Took("yxa")])
  {
    var items := Hall.items;
    assert items[1..] == [Vines, Axe] && items[1..][1..] == [Axe];
    assert Takeable([Axe]) == [Axe];
    DoorIsTakenFirst();
    VinesAnswerToPart();
    AxeIsTaken();
  }

  lemma DoorIsTakenFirst()
    ensures Consistent(Begin) && GetItem(Here(Begin).items, "dörr") == Some(0)
  {
    InitialState();
    assert StartsWith(Lower("dörr"), Lower("dörr"));
  }

  /** "kläng" names the vines, the first item whose name holds it. */
  lemma VinesAnswerToPart()
    ensures Consistent(Begin) && GetItem(Here(Begin).items, "kläng") == Some(1)
  {
    InitialState();
    assert Lower("kläng")[0] == 'k';
    assert 'k' !in Lower("dörr") by {
      forall k | 0 <= k < 4 ensures Lower("dörr")[k] != 'k' { }
    }
    MissingFirstCharNotContained(Lower("dörr"), Lower("kläng"));
    assert StartsWith(Lower("klängväxter"), Lower("kläng"));
    assert FirstContaining(["klängväxter", "klängväxt"], "kläng") == Some(0);
    var items := Hall.items;
    assert items[1..] == [Vines, Axe];
    assert GetItem(items[1..], "kläng") == Some(0);
  }

  lemma AxeIsTaken()
    ensures Consistent(Begin) && GetItem(Here(Begin).items, "yxa") == Some(2)
    ensures TakeItem(Begin, "yxa") == Step(HoldingAxe, [Took("yxa")])
  {
    InitialState();
    AxeIsThird();
    var items := Hall.items;
    assert items[..2] + items[3..] == [Door, Vines];
    assert Begin.rooms[0 := Hall.(items := [Door, Vines])] == HoldingAxe.rooms;
    assert Begin.inventory + [Axe] == [Axe];
  }

  /** Lisa's menu: both topics, then the way out. */
  const LisaMenu := [ChoosePrompt, Bullet(HouseOption), Bullet(WhatOption + "?"), Bullet(NothingOption)]
  const Talking := Begin.(conversation := Some(Lisa.topics), conversant := Some(0))
  const AskedAboutHouse := Talking.(characters := [Lisa.(chatLog := ["huset"])])

  /** Talking to Lisa opens a conversation with her: her greeting, then the
      menu of both topics. */
  lemma GreetingLisa()
    ensures Consistent(Begin)
    ensures TalkToOrAboutX(Begin, "med", "lisa") == Step(Talking, [Lisa.onTalk] + LisaMenu)
  {
    InitialState();
    assert TalkToOrAboutX(Begin, "med", "lisa") == Greet(Begin, 0) by {
      LisaIsHere();
      NamedInRoomIsNamed(Begin, "lisa", 0);
    }
    LisaGreeted();
  }

  lemma LisaGreeted()
    ensures Consistent(Begin) && |Begin.characters| == 1
    ensures Greet(Begin, 0) == Step(Talking, [Lisa.onTalk] + LisaMenu)
  {
    InitialState();
    LisaMenuShown([]);
    assert Line(Lisa.onTalk) == [Lisa.onTalk];
  }

  lemma LisaIsHere()
    ensures GetCharacter("lisa", Begin.characters, InRoom(Begin)) == Some(0)
  {
    assert CharactersInRoom([Lisa], "start") == CharactersInRoom([], "start") + [0];
    assert StartsWith(Lower("Lisa"), Lower("lisa"));
    assert FirstContaining(["Lisa"], "lisa") == Some(0);
  }

  /** Neither topic has a prerequisite or goes away once read, so the menu
      lists both whatever has been discussed. */
  lemma LisaListsBoth(chatLog: seq<string>)
    ensures WellFormedTopics(Lisa.topics) && IsDialogue(Lisa.topics)
    ensures TopicIsAvailable(chatLog, AboutHouse) && TopicIsAvailable(chatLog, WhatDoing)
    ensures AvailableTopics(chatLog, Lisa.topics.topics) == [AboutHouse, WhatDoing]
    ensures TopicBullets([AboutHouse, WhatDoing]) == [Bullet(HouseOption), Bullet(WhatOption + "?")]
  {
    LisaWellFormed();
    var ts := Lisa.topics.topics;
    assert ts[1..] == [WhatDoing] && ts[1..][1..] == [];
  }

  /** The menu `listTopics` shows for Lisa, whatever has been discussed. */
  lemma LisaMenuShown(chatLog: seq<string>)
    ensures WellFormedTopics(Lisa.topics) && IsDialogue(Lisa.topics)
    ensures ListTopics(Lisa.topics, chatLog) == Menu(LisaMenu)
  {
    LisaListsBoth(chatLog);
    assert [ChoosePrompt] + [Bullet(HouseOption), Bullet(WhatOption + "?")] + [Bullet(NothingOption)] == LisaMenu;
  }

  /** Asking about the house while talking to Lisa prints her answer, logs
      "huset" in her chat log, and shows the menu again. */
  lemma AskingAboutTheHouse()
    ensures Consistent(Talking) && Consistent(AskedAboutHouse)
    ensures TalkToOrAboutX(Talking, "om", "huset") == Step(AskedAboutHouse, [AboutHouse.line] + LisaMenu)
  {
    InitialState();
    HouseReply();
    HouseAnswered();
  }

  lemma HouseReply()
    ensures Consistent(Talking) && Consistent(AskedAboutHouse)
    ensures Reply(Talking, 0, "huset") == List(AskedAboutHouse, 0, Line(AboutHouse.line))
  {
    ConversationStates();
    HouseIsChosen();
    TopicKeywords();
    var ch := Talking.characters[0];
    assert ch == Lisa;
    var t := ch.topics.topics[0];
    assert t == AboutHouse;
    assert Keyword(t) == "huset";
    assert ch.chatLog + [Keyword(t)] == ["huset"];
    var chars := Talking.characters[0 := ch.(chatLog := ch.chatLog + [Keyword(t)])];
    assert |chars| == 1 && chars[0] == Lisa.(chatLog := ["huset"]);
    assert chars == AskedAboutHouse.characters;
    assert Talking.(characters := chars) == AskedAboutHouse;
  }

  lemma ConversationStates()
    ensures Consistent(Talking) && Consistent(AskedAboutHouse)
  {
    InitialState();
    LisaWellFormed();
    assert AskedAboutHouse.characters[0].topics == Lisa.topics;
  }

  lemma HouseIsChosen()
    ensures WellFormedTopics(Lisa.topics) && Select(Lisa.topics, [], Lower("huset")) == Discuss(0)
  {
    LisaListsBoth([]);
    TopicKeywords();
    assert Lower("huset") == "huset";
    assert FindTopic(Lisa.topics.topics, "huset") == Some(0);
  }

  lemma HouseAnswered()
    ensures Consistent(AskedAboutHouse)
    ensures List(AskedAboutHouse, 0, Line(AboutHouse.line)) == Step(AskedAboutHouse, [AboutHouse.line] + LisaMenu)
  {
    InitialState();
    LisaMenuShown(["huset"]);
  }

  /** The game played in place: load the disk, which enters the hall, use
      the axe, walk north. The exit is cleared in the world's own room list,
      and the output holds what each step printed. */
  method PlayThrough() returns (w: Engine.World)
    ensures w.Valid() && w.Snapshot() == InForest(1)
    ensures w.output == ["Hallen", HallDesc, AxeCuts, "En skog", ForestDesc]
  {
    InitialState();
    w := new Engine.World.Init(Game);
    HallIsEntered();
    w.Start();
    AxeClearsTheDoor(1);
    w.UseItem("yxa");
    NorthLeadsToForest(1);
    w.GoDir("norrut");
    OutputOfThree("Hallen", HallDesc, AxeCuts, "En skog", ForestDesc);
  }

  /** The output of three steps that print two, one and two lines. */
  lemma OutputOfThree(a: string, b: string, c: string, d: string, e: string)
    ensures [] + [a, b] + [c] + [d, e] == [a, b, c, d, e]
  {
  }
}
