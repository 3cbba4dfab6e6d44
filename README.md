# text-engine in Dafny

A model of the interpreter of ellell/text-engine, a browser text-adventure
engine, and of its bundled Swedish test disk. The interpreter keeps one
mutable world, the *disk*:
- rooms with visit counts, items and possibly blocked exits;
- the backpack (inventory);
- characters with topics and a chat log;
- the live conversation and the conversant.

The player types commands. Each command prints lines and may change the
world.

The model has two layers.

- **`Rules`** is the game as a state machine. A `State` holds the parts of
  the disk that commands change. Each command of `index.js` is a function
  from a state to a `Step`, which is the state after the command plus the
  lines `println` showed. `Consistent` is the invariant of every reachable
  state:
  - the current room exists;
  - every list topic has a keyword;
  - a conversation is live exactly when there is a conversant;
  - the live conversation is that character's topics.

  Every command preserves it.
- **`Engine.World`** is a class whose fields are the disk, the printed output
  and the input history. Its methods do what the source does, in place:
  - they bump `visits`;
  - they append to and splice the item lists;
  - they push to the chat log;
  - they set and clear the conversation.

  Each method is proved against its `Rules` function. `Did(r)` says the
  fields now hold `r.state` and the output grew by exactly `r.lines`.

The pure parts, in their own modules:
- `Text`: case mapping, `trim`, `split`, `removePunctuation`, `removeExtraSpaces`, the trailing "ut" of directions.
- `Disk`: the world's data types, `getName`, `objectHasName`, and the first-match lookups of rooms, exits, items and characters.
- `Dialogue`: `getKeywordFromTopic`, `topicIsAvailable`, the `listTopics` menu, `conversationIncludesTopic`, and what a reply selects.
- `Commands`: the three command tables and the ordered fallback chain of `applyInput`.
- `Complete`: the candidates, the prefix filter and the longest common prefix of `autocomplete`.
- `Markup`: the `addStyleTags` rewrite.
- `Messages`: the fixed Swedish texts.

`TestDisk` writes `game-disks/test-disk.js` out as data. It then plays
the fixture's scenarios through the rules:
- the overgrown door;
- the axe that clears it;
- the walk into the forest;
- the takeable axe;
- the conversation with Lisa.

It also plays the same game in place on a `World`.

Some quirks of the source are kept as written.
- Four tests use English words among the Swedish commands:
  - `applyInput` compares the first word with "say", "take" and "use";
  - the autocomplete position tables use "talk", "take", "use", "go", "look", "to" and "at".

  So "säg" loses its articles. "ta X Y" is not routed to the first-word rule.
- `talk`, the `t` shortcut and a bare topic keyword call `talkToOrAboutX`
  with "to" or "about". The guard admits only "med" and "om", so these paths
  print the preposition hint (`Rules.EnglishPrepositionsOnlyHint`).
- `conversationIncludesTopic` reads `disk.conversation`, not its argument.
  The model passes it the live conversation.
- A topic's keyword is pushed to the chat log each time the topic is chosen,
  so a keyword can be logged twice.
- The `nv` shortcut walks "nordväst " with a trailing space.
- `getKeywordFromTopic` throws when an option has no capitalised word. The
  model requires a keyword for every topic of a list conversation
  (`HasKeyword`, part of `Consistent`).

- Any input of one argument goes to the one-argument table. When that table
  has no handler for the word, the fallback message is printed.
- `enterRoom` on an unknown room id prints "Det finns ingenting här." and
  changes nothing.
- `autocomplete` trims the input first, so "go " is one word and only the
  command words are offered. After "talk" it offers "med"/"om", and after
  "look" it offers "på".
- A character's `onTalk` hook runs before the conversant is set. The model's
  hook only prints its line, so the order changes nothing here.
- `addStyleTags` replaces the marker while it occurs. For an empty marker,
  or a marker that the inserted tag itself contains, that loop never ends.
  `Markup.TagSafe` excludes them: it asks for a non-empty marker without
  angle brackets that is not part of "/" and the tag name. The three calls in `println` pass
  markers that no tag contains (`Markup.NoMarkerInTagNames`).

## Model

| member | source | states |
|---|---|---|
| Text.LowerChar | index.js:856 | the lower-cased character is never an upper-case letter |
| Text.UpperChar | index.js:895 | the upper-cased character is never a lower-case letter |
| Text.Lower | index.js:856 | `toLowerCase` keeps the length |
| Text.Upper | index.js:895 | `toUpperCase` keeps the length |
| Text.LowerIdempotent | index.js:856 | lower-casing twice is lower-casing once |
| Text.UpperLowerOfCapitals | index.js:895-896 | a word equal to its upper case comes back from its lower case by upper-casing |
| Text.TrimStart | index.js:529 | the result is a suffix of the input, starts with no white space, and only white space was dropped |
| Text.TrimEnd | index.js:529 | the result is a prefix of the input, ends with no white space, and only white space was dropped |
| Text.Trim | index.js:529 | the trimmed input neither starts nor ends with white space |
| Text.ContainsIffOccurs | index.js:856 | `includes` holds exactly when the pattern occurs at some index |
| Text.MissingFirstCharNotContained | index.js:856 | a pattern whose first character is absent from the text is not contained in it |
| Text.Split | index.js:615 | `split(' ')` always yields at least one piece |
| Text.SplitPiecesLackSeparator | index.js:615 | no piece of a split holds the separator |
| Text.SplitWhole | index.js:892 | a string without the separator splits into itself alone |
| Text.SplitAtFirst | index.js:892 | splitting at the first separator gives the part before it, then the split of the rest |
| Text.JoinSplit | index.js:776 | joining the pieces of a split with the separator returns the original string |
| Text.SplitOnSpaceRuns | index.js:717 | `split(/\s+/)` yields at least one piece and no piece holds white space |
| Text.RemovePunctuationMembers | index.js:814 | a character survives `removePunctuation` exactly when it was in the input and is not one of the 21 marks of the pattern |
| Text.RemovePunctuationOfClean | index.js:814 | a string without those marks is left unchanged |
| Text.RemovePunctuationAppend | index.js:814 | removing the marks distributes over concatenation |
| Text.RemoveExtraSpacesCollapses | index.js:818 | `removeExtraSpaces` leaves no two white-space characters in a row, is empty only for an empty input, and keeps whether the text starts with white space |
| Text.RemoveExtraSpacesKeeps | index.js:818 | every character of the result that is not white space comes from the input |
| Text.RemoveExtraSpacesOfSingleSpaced | index.js:818 | a text without two white-space characters in a row is left unchanged |
| Text.StripTrailingUt | index.js:215 | one trailing "ut" is removed exactly when present, and nothing else changes |
| Disk.GetName | index.js:806 | a name list shows its first synonym |
| Disk.FirstContaining | index.js:859 | the `find` over synonyms returns the first synonym containing the query, or none when no synonym does |
| Disk.ObjectHasNameIff | index.js:855-861 | for a non-empty query, `objectHasName` holds exactly when the lower-cased query is a substring of some lower-cased synonym |
| Disk.SubstringResolves | index.js:855-861 | every non-empty substring of a lower-cased synonym resolves to the object |
| Disk.FindRoom | index.js:810 | `getRoom` returns the first room with the id, or none when no room has it |
| Disk.GetExit | index.js:197-201 | `getExit` returns the first exit whose synonyms include the direction exactly, or none |
| Disk.CharactersInRoom | index.js:865 | every index returned is a character in the room |
| Disk.CharactersInRoomComplete | index.js:865 | every character in the room is returned, in increasing order |
| Disk.AllCharacters | index.js:869 | the default character list is every character, in order |
| Disk.GetCharacter | index.js:869 | `getCharacter` returns the first candidate whose name matches, or none when no candidate matches |
| Disk.FirstNamed | index.js:869 | the position of the first matching candidate, or none when there is none |
| Disk.GetItem | index.js:873-881 | the item lookups return the first item whose name matches, or none |
| Dialogue.FirstCapsWord | index.js:895 | the found word is a word of the option |
| Dialogue.FirstCapsWordIsFirst | index.js:895 | the found word is capitalised, longer than one character, and no earlier word is; none means no word is |
| Dialogue.KeywordDerivation | index.js:885-899 | an explicit keyword wins; otherwise the keyword is the lower-cased first capitalised word of the cleaned option, longer than one character, already lower case, without spaces and punctuation |
| Dialogue.CleanedOptionHasNoPunctuation | index.js:890 | the cleaned option holds no punctuation mark |
| Dialogue.LoweredWordIsClean | index.js:896 | lower-casing a clean word keeps it free of spaces and marks |
| Dialogue.WordCharsOccur | index.js:892 | every character of a split piece occurs in the split text |
| Dialogue.PrerequisiteGates | index.js:918-925 | a topic with a prerequisite missing from the chat log is unavailable |
| Dialogue.ReadOnceExcluded | index.js:922 | a read-once topic is unavailable once its keyword is logged |
| Dialogue.AvailabilityPersists | index.js:918-925 | a topic that is not read-once stays available however the chat log grows |
| Dialogue.AvailableTopics | index.js:278 | the filter keeps at most the given topics, all with keywords |
| Dialogue.AvailableTopicsMembers | index.js:278 | a topic is kept exactly when it is one of the topics and available |
| Dialogue.TopicBullets | index.js:282 | one bullet per topic, with its option or its upper-cased keyword |
| Dialogue.ResponseBullets | index.js:289 | one bullet per keyed response, with its option |
| Dialogue.ListTopics | index.js:273-293 | a shown menu has lines and none of them is empty |
| Dialogue.ListingShowsAvailable | index.js:277-286 | a list conversation ends exactly when no topic is available; otherwise the menu is the prompt, a bullet per available topic in order, then INGET |
| Dialogue.FindTopic | index.js:910 | the found topic is the first whose keyword is the reply; none means no topic has it |
| Dialogue.ChatLogOnlyGrows | index.js:344-361 | a reply leaves the chat log as it was or appends the reply itself, and only when the reply is the keyword of an available topic of a list conversation |
| Dialogue.DiscussedReadOnceDropsOut | index.js:347-357 | a read-once topic just discussed is no longer available |
| Commands.Lookup | index.js:626 | `table[command]` is the handler stored under the word, or none when no entry has the word |
| Commands.Keys | index.js:728 | `Object.keys` lists the table's words in order |
| Commands.ArticleFilterMembers | index.js:618-620 | an input starting with "say" keeps every word; any other keeps exactly the words that are not "a", "an" or "the" |
| Commands.DropArticlesMembers | index.js:619 | the article filter drops exactly the articles |
| Commands.Fallback | index.js:605-613 | with no handler: the keyword hint exactly when a conversation is live, otherwise the not-understood message |
| Commands.OneArgumentUsesTableOne | index.js:625-626 | one argument runs the one-argument handler of the word, or falls back when there is none |
| Commands.TakeAndUseUseFirstArgument | index.js:627-634 | "take"/"use" with two or more arguments act on the first argument only; with one argument they fall back |
| Commands.ManyArgumentsUseLastTable | index.js:635-636 | three or more arguments go to the last table with all the arguments, or fall back |
| Commands.BareExitIsMove | index.js:637-639 | a bare word naming an exit of the room walks that way |
| Commands.BareKeywordIsTalkAbout | index.js:640-641 | a bare word that is no exit but a topic of the live conversation talks about it |
| Commands.BareWordUsesTableZero | index.js:642-643 | any other bare word runs its no-argument handler, or falls back |
| Commands.ShorthandArities | index.js:637-641 | the shorthands apply only to one word or three words, and only when the room has the exit or the conversation has the topic |
| Commands.ManyArgumentHandlersGetTwo | index.js:581-592 | a last-table handler always receives at least two arguments |
| Commands.CommandWordsFromTables | index.js:727-731 | the first-word candidates are the distinct table words longer than one character, in table order |
| Commands.CommandWordsDistinct | index.js:731 | the first-word candidates hold no duplicates |
| Complete.LexLeTotal | index.js:765 | the sort order is total |
| Complete.LexLeTransitive | index.js:765 | the sort order is transitive |
| Complete.LexLeReflexive | index.js:765 | the sort order is reflexive |
| Complete.LexMin | index.js:766 | the first element after sorting is a match and precedes every match |
| Complete.LexMax | index.js:767 | the last element after sorting is a match and follows every match |
| Complete.CommonPrefix | index.js:768-773 | the common prefix starts both strings and cannot be extended |
| Complete.CommonPrefixIsLongest | index.js:768-773 | every common prefix of the two strings starts the computed one |
| Complete.CommonPrefixBetween | index.js:764-774 | a string between two in sort order starts with their common prefix |
| Complete.ExtremesGiveLongestCommonPrefix | index.js:764-774 | the common prefix of the sorted extremes is a prefix of every match and the longest such |
| Complete.CommonPrefixLength | index.js:768-773 | the `while` loop stops at the length of the common prefix |
| Complete.LongestCommonStartingSubstring | index.js:764-774 | the result is the longest prefix shared by all matches |
| Complete.LowerAll | index.js:753 | every candidate lower-cased, in order |
| Complete.ItemNames | index.js:719 | the names of the items, in order |
| Complete.CharacterNames | index.js:748 | the names of the characters in the room, in order |
| Complete.TopicKeywords | index.js:734 | the keyword of every topic, in order |
| Complete.ResponseKeys | index.js:735 | the keys of a keyed conversation, in order |
| Complete.MatchesMembers | index.js:756-757 | a candidate matches exactly when it starts with the stub |
| Complete.CompletionOutcomes | index.js:759-779 | no match leaves the input; one match replaces the stub; several replace it with their longest common prefix, which still starts with the stub |
| Markup.IndexOf | index.js:653 | the first index where the marker occurs, or none when it occurs nowhere |
| Markup.ContainsIffIndexOf | index.js:651 | `includes` holds exactly when `replace` finds the marker |
| Markup.ReplaceFirst | index.js:653 | `replace` with a string substitutes the first occurrence only |
| Markup.TagShape | index.js:652 | the tag is `<name>` on odd steps and `</name>` on even ones |
| Markup.ReplaceFirstCleansPrefix | index.js:651-655 | after one replacement no marker starts before the end of the inserted tag |
| Markup.StyleTagsFrom | index.js:651-655 | the loop leaves no marker, and a text without one is unchanged |
| Markup.StyleTagsFromPast | index.js:651-655 | a prefix without a marker, ending at a tag's `>` or empty, is kept as it is |
| Markup.StyleTagsFromFirstMarker | index.js:651-655 | the first marker becomes the tag of the current parity and the rest is rewritten from the other parity, so markers become `<t>` and `</t>` in turn |
| Markup.StyleTagsPair | index.js:649-658 | two markers around a stretch give `<t>`, the stretch, then `</t>` |
| Markup.AddStyleTags | index.js:649-658 | the `while` loop computes the rewrite and no marker is left |
| Markup.Styled | index.js:699-703 | after the three rewrites of `println` no `*` is left |
| Rules.SameRoomIdsFind | index.js:810 | rooms with the same ids are found at the same place |
| Rules.UpdateRoomConsistent | index.js:404 | changing a room in place, keeping its id, keeps the invariant and the current room |
| Rules.Init | index.js:16-39 | `init` keeps the start room and the inventory, zeroes every room's visits, empties every chat log, and starts with no conversation |
| Rules.HereIndex | index.js:810 | the current room is found at that index |
| Rules.EnterRoom | index.js:822-851 | an unknown id prints one message and changes nothing; otherwise only that room's visits go up by one, the room becomes current, the conversation ends and the entry lines are printed |
| Rules.SecondEntryOmitsDescription | index.js:836-840 | the first entry prints the description and the second does not; visits reach two |
| Rules.GoDir | index.js:205-228 | a refusal prints one line and changes nothing; an open exit enters its room |
| Rules.GoDirRefusals | index.js:205-228 | no exits, no exit with the direction after one trailing "ut" is stripped, and a blocked exit each print their own message |
| Rules.GoDirIgnoresUt | index.js:214-215 | "norrut" goes where "norr" goes |
| Rules.ExitBullets | index.js:178-192 | one bullet per exit whose room exists, none of them empty |
| Rules.ReachableExits | index.js:178-183 | an exit is listed exactly when its room exists, in exit order |
| Rules.ExitBulletsLabels | index.js:178-191 | the i-th bullet is the bullet of the i-th exit whose room exists, showing the upper-cased direction and, after a visit, the room's name |
| Rules.ExitLabelRevealsVisited | index.js:185-189 | an unvisited room shows only the upper-cased direction; a visited one shows the direction, a dash and the room's name |
| Rules.NameBullets | index.js:111-113 | one bullet per name, showing its first synonym |
| Rules.TakeableMembers | index.js:382 | `take` lists exactly the takeable items of the room |
| Rules.UsableMembers | index.js:428-430 | `use` lists exactly the items of room and backpack that have a use handler |
| Rules.CharacterNamesOf | index.js:499-500 | the names of the given characters, in order |
| Rules.FoundItem | index.js:446 | the backpack is searched before the room; a found item has the name; none means no item in either has it |
| Rules.TakeItem | index.js:395-422 | taking keeps the invariant |
| Rules.TakeItemMoves | index.js:395-422 | a takeable room item goes to the end of the backpack and leaves the room, with the other items in order; the current room is the old one without that item, the number of rooms, the characters, the conversation and the conversant stay; otherwise nothing changes |
| Rules.RemoveAtMultiset | index.js:404 | `splice(k, 1)` removes exactly one copy of the item |
| Rules.ClearBlock | game-disks/test-disk.js:24-37 | the axe handler keeps the invariant |
| Rules.SameDirsGetExit | index.js:197-201 | exit lookup depends only on the directions |
| Rules.ClearBlockIdempotent | game-disks/test-disk.js:24-37 | using the axe twice leaves the world as using it once, and afterwards the exit has no block |
| Rules.UseItem | index.js:445-471 | using keeps the invariant |
| Rules.UseItemKeepsBelongings | index.js:445-471 | using never changes the backpack or the characters; an unknown item or one without a use changes nothing |
| Rules.List | index.js:273-293 | listing topics changes only the conversation and the conversant |
| Rules.ListAfterLead | index.js:273-293 | lines printed before the listing come before the menu |
| Rules.TalkTo | index.js:295-332 | talking to someone changes only the conversation and the conversant |
| Rules.Greet | index.js:306-332 | greeting a character changes only the conversation and the conversant |
| Rules.Open | index.js:320-332 | opening a character's topics changes only the conversation and the conversant |
| Rules.TalkAbout | index.js:333-376 | a reply keeps the room, the rooms and the backpack |
| Rules.Reply | index.js:339-370 | a reply to a present conversant keeps the room, the rooms and the backpack |
| Rules.TalkToOrAboutX | index.js:258-377 | a preposition other than "med"/"om" prints the hint and changes nothing; no mode changes room or backpack |
| Rules.TalkAboutLogs | index.js:344-357 | the characters change only by the conversant's chat log growing by the keyword of the discussed topic |
| Rules.ChatLogsOnlyGrow | index.js:258-377 | every chat log is extended by at most one keyword, only the conversant's, and nothing else of a character changes |
| Rules.TalkAboutOutcomes | index.js:333-343 | with no conversant: the not-in-conversation message; with a conversant who left: ends with the unavailable message; "inget": ends the conversation |
| Rules.NamedInRoomIsNamed | index.js:296-304 | a character found in the room is found among all characters too |
| Rules.GreetOpensConversation | index.js:306-332 | a character with an available topic becomes the conversant and gets the greeting, the prompt, the available topics and INGET |
| Rules.TalkToOpensConversation | index.js:295-332 | "med" and a name in the room opens that character's conversation with that menu |
| Rules.DiscussingLogsKeyword | index.js:347-370 | discussing a topic logs its keyword, prints its line, and ends the conversation exactly when no topic is left available |
| Rules.Talk | index.js:242-254 | `talk` keeps the invariant |
| Rules.EnglishPrepositionsOnlyHint | index.js:246-264 | `talk` with one character present, the `t` shortcut and a bare topic keyword print the preposition hint and change nothing |
| Rules.ListingCommandsKeepState | index.js:537-565 | the listing, help, say, save and load commands change nothing |
| Rules.Execute | index.js:605-644 | every resolved command keeps the invariant |
| Rules.Run0 | index.js:539-565 | every handler of the first table keeps the invariant |
| Rules.Run1 | index.js:567-579 | every handler of the second table keeps the invariant |
| Rules.RunN | index.js:581-592 | every handler of the last table keeps the invariant |
| Rules.Apply | index.js:596-645 | an input keeps the invariant and first echoes the trimmed input |
| Rules.CompletionWords | index.js:717 | the input always yields a last word to complete |
| Engine.World.Init | index.js:16-39 | the fields hold `init` of the disk, no output, and the history `['']` at position 0 |
| Engine.World.Start | index.js:935-940 | `loadDisk` enters the start room |
| Engine.World.Println | index.js:672-676 | a non-empty line is appended to the output; an empty one is not |
| Engine.World.PrintLines | index.js:672-712 | non-empty lines are appended in order |
| Engine.World.PrintNameBullets | index.js:111-113 | one bullet per name is appended |
| Engine.World.EndConversation | index.js:928-931 | both the conversant and the conversation are unset |
| Engine.World.EnterRoom | index.js:822-851 | in place: the fields reach `Rules.EnterRoom` and exactly its lines are printed |
| Engine.World.GoDir | index.js:205-228 | in place: `Rules.GoDir` |
| Engine.World.Go | index.js:168-193 | prints exactly the exit listing |
| Engine.World.PrintExitBullets | index.js:178-192 | the `forEach` appends exactly `Rules.ExitBullets`: the bullets of the exits whose room exists, in order, as `Rules.ExitBulletsLabels` spells out |
| Engine.World.PrintExitBullet | index.js:179-191 | one exit's bullet, with the room name only after a visit |
| Engine.World.TakeItem | index.js:395-422 | in place with `push` and `splice`: `Rules.TakeItem` |
| Engine.World.ClearBlock | game-disks/test-disk.js:24-37 | in place, deleting the exit's block: `Rules.ClearBlock` |
| Engine.World.UseItem | index.js:445-471 | in place: `Rules.UseItem` |
| Engine.World.Inv | index.js:104-114 | prints exactly the backpack listing |
| Engine.World.Look | index.js:117-125 | prints the room's description |
| Engine.World.Take | index.js:380-391 | prints exactly the takeable items |
| Engine.World.Use | index.js:425-441 | prints exactly the usable items |
| Engine.World.Items | index.js:474-486 | prints exactly the room's items |
| Engine.World.Chars | index.js:489-501 | prints exactly the characters in the room |
| Engine.World.LookAt | index.js:133-165 | prints exactly what `lookAt` shows for the name |
| Engine.World.ListTopicsOf | index.js:273-293 | in place: `Rules.List` |
| Engine.World.TalkTo | index.js:295-332 | in place: `Rules.TalkTo` |
| Engine.World.Greet | index.js:306-332 | in place: `Rules.Greet` |
| Engine.World.Open | index.js:320-332 | in place: `Rules.Open` |
| Engine.World.TalkAbout | index.js:333-376 | in place: `Rules.TalkAbout` |
| Engine.World.Reply | index.js:339-370 | in place: `Rules.Reply` |
| Engine.World.Discuss | index.js:349-357 | in place with `chatLog.push`: prints the topic's line, logs its keyword, then lists the topics |
| Engine.World.TalkToOrAboutX | index.js:258-377 | in place: `Rules.TalkToOrAboutX` |
| Engine.World.Talk | index.js:242-254 | in place: `Rules.Talk` |
| Engine.World.Execute | index.js:605-644 | in place: `Rules.Execute` |
| Engine.World.Run0 | index.js:539-565 | in place: `Rules.Run0` |
| Engine.World.Run1 | index.js:567-579 | in place: `Rules.Run1` |
| Engine.World.RunN | index.js:581-592 | in place: `Rules.RunN` |
| Engine.World.ApplyInput | index.js:596-645 | the history gains the trimmed input, the position moves past it, and the fields and output reach `Rules.Apply` |
| Engine.World.Autocomplete | index.js:715-780 | returns `Rules.Autocomplete` and changes nothing |
| Engine.World.NavigateHistory | index.js:784-798 | "prev" steps back but not below 0, "next" steps on but not past the end, anything else stays; the text is the entry there, or "" |
| TestDisk.TopicKeywords | game-disks/test-disk.js:66-76 | "Berätta om HUSET" is keyed "huset" and "VAD gör du här?" is keyed "vad" |
| TestDisk.GameWellFormed | game-disks/test-disk.js:3-79 | the disk loads, and every exit target and Lisa's room name existing rooms |
| TestDisk.InitialState | game-disks/test-disk.js:3-79 | after `init`: in the hall, empty backpack, Lisa's chat log empty, both rooms unvisited |
| TestDisk.HallIsEntered | index.js:935-940 | loading the test disk enters the hall: "Hallen" and its description are printed and the hall counts one visit |
| TestDisk.DoorIsOvergrown | game-disks/test-disk.js:14 | however often the hall was entered, walking north and using the door each print the block and change nothing |
| TestDisk.AxeClearsTheDoor | game-disks/test-disk.js:24-37 | however often the hall was entered, the axe deletes the block and says so; used again it only prints |
| TestDisk.NorthLeadsToForest | game-disks/test-disk.js:48-57 | with the block gone, "norrut" enters the forest, prints its name and description, and its visits become 1; the hall's visits stay |
| TestDisk.OnlyTheAxeIsTakeable | game-disks/test-disk.js:10-38 | only the axe is listed as takeable; "dörr" and "kläng" are stuck fast; taking "yxa" moves the axe to the backpack |
| TestDisk.VinesAnswerToPart | game-disks/test-disk.js:17 | "kläng" finds the vines |
| TestDisk.GreetingLisa | game-disks/test-disk.js:60-77 | talking with Lisa opens her conversation with her greeting and both topics |
| TestDisk.LisaListsBoth | game-disks/test-disk.js:66-76 | whatever has been discussed, both topics stay available |
| TestDisk.AskingAboutTheHouse | game-disks/test-disk.js:67-71 | asking about the house prints Lisa's answer, logs "huset" and lists the topics again |
| TestDisk.PlayThrough | game-disks/test-disk.js:3-79 | on a `World`: load the disk, which enters the hall, use the axe, walk north; the player is in the forest, both rooms are visited once, and the output is the hall's name and description, the axe's line, then the forest's name and description |

## Left out

- The page: the `input` element, `setup` and its key listeners, `setInput`
  and its `setTimeout`, and the HTML, class names, `<br>` and scrolling of
  `println`. `println` is modelled as appending the line to `output`. The
  style rewrite `println` applies is modelled separately as
  `Markup.Styled`.
- `save` and `load`. They depend on `JSON`, `localStorage` and `eval` of
  function source. The model answers "spara" with the saved message and
  "ladda" with nothing, and changes no state for either.
- The `eval` of string `onUse` handlers, the renamed `use` property and its
  `console.warn`.
- The random pick of `pickOne`. `Run0` and `Execute` take the draw as a
  parameter `pick`.
- Author hooks are no-ops: `onEnter`, `onLook`, `onTake`, `onSelected`, and
  `topics` given as a function. There are three exceptions:
  - the test disk's door handler (walk north) and axe handler (clear the
    block) are modelled as `UseHandler` cases;
  - a character's `onTalk` is modelled as the one line it prints.

  A `topics` function and the keyed `onSelected` are not modelled.
- Rules.ClearBlock: the axe handler throws in the source when the room or
  its exit north is missing; the model does nothing in that case. The test
  disk always has both.
- Regular expressions are modelled by their meaning:
  - the punctuation class and the `\s{2,}` collapse are written out;
  - `/ut$/` is one trailing "ut";
  - the unescaped `^${stub}` pattern is a plain prefix test, so a stub with
    pattern characters is not modelled.
- `toLowerCase` and `toUpperCase` map only the ASCII and Latin-1 letters
  that have a one-character partner there. Mappings such as ß to "SS", or
  µ and ÿ to letters outside Latin-1, are not modelled.
- White space for `trim` and `\s` is the ECMAScript set.
- A room without `items` is modelled as an empty list.
- Property lookups a JavaScript object would also answer are not modelled,
  such as `conversation["length"]` or `commands[1]["constructor"]`.
- The `module.exports` glue.
- Dialogue.ResponseBullets: a keyed response without an `option` is listed
  as "• undefined" in the source. The model's `Response` always carries its
  option, and an empty one is listed as "• ".
- Complete.LexLe: orders strings by Unicode scalar value, while JavaScript's
  `sort` compares UTF-16 code units. The two orders differ only between a
  character above U+FFFF and one in U+E000–U+FFFF, which the model does not
  distinguish.
- Disk.GetName: an empty synonym list gives "undefined", so `go` would show
  "UNDEFINED". In the source, `toUpperCase` on that `undefined` throws
  (index.js:184). Disks always give at least one synonym.
