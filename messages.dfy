/** The fixed player-facing lines the interpreter prints (index.js). */
module Messages {
  import opened Text

  /** A list entry: the `bullet` constant followed by a space. */
  function Bullet(s: string): string {
    "• " + s
  }

  // Navigation (go, goDir, enterRoom)
  const NowhereToGo := "Det finns ingenstans att gå."
  const WhereToGo := "Vart vill du gå? Du kan gå åt:"
  const CannotGoThatWay := "Du kan inte gå ditåt."
  const NoSuchRoom := "Det finns ingenting här."

  // Conversation (talk, talkToOrAboutX)
  const TalkHint := "You can talk TO someone or ABOUT some topic."
  const PrepositionHint := "Du kan prata MED någon eller OM något."
  const NoOneByThatName := "Det finns ingen här med det namnet."
  const NotInConversation := "Du måste vara i en konversation för att prata OM någonting."
  const EndsConversation := "Du avslutar konversationen."
  const KeywordHint := "Skriv ORDET med stora bokstäver för att välja ett ämne."
  const NoLongerAvailable := "Det går inte längre att prata med den personen."
  const ChoosePrompt := "Vad vill du prata om?"
  const ReplyPrompt := "Välj ett svar:"
  const NothingOption := "INGET"

  function NothingToSay(name: string): string {
    "Du har inget att säga till " + name + " just nu."
  }

  function TalksAbout(x: string): string {
    "Du pratar om " + RemovePunctuation(x) + "."
  }

  // Items (take, takeItem, use, useItem, items, inv)
  const NothingToTake := "Det finns inget att ta."
  const CanTake := "Du kan ta följande saker:"
  const StuckFast := "Den sitter fast."
  const AlreadyHave := "Du har redan en sådan."
  const SeeNoSuch := "Du ser ingen sådan."
  const NothingToUse := "Det finns inget att använda."
  const CanUse := "Följande saker går att använda:"
  const CannotUse := "Det går inte att använda den."
  const NothingInRoom := "Det finns inget här."
  const YouSee := "Du ser:"
  const NoOneHere := "Det är ingen här."
  const EmptyBackpack := "Det är tomt i ryggsäcken."
  const BackpackHolds := "Detta har du i ryggsäcken:"

  function Took(name: string): string {
    "Du tar " + name + " och lägger den i ryggsäcken."
  }

  function HaveNo(name: string): string {
    "Du har ingen " + name + "."
  }

  // Looking (lookThusly, lookAt)
  const NothingSpecial := "Du ser inget speciellt med den."

  function LooksThusly(s: string): string {
    "Du tittar " + s + "."
  }

  function NothingSpecialAbout(name: string): string {
    "Du ser inget speciellt med " + name + "."
  }

  function NothingToLookAt(name: string): string {
    "Det finns ingen " + name + " att titta på."
  }

  // Saying (say, sayString) and the dispatcher
  const SayAlternatives: seq<string> := ["Va?", "Det menar du inte."]
  const NotUnderstood := "Jag förstår inte vad du försöker säga."
  const Saved := "Spelet sparat."

  function Says(s: string): string {
    "Du säger " + RemovePunctuation(s) + "."
  }

  /** The `instructions` of `help`, one source line per piece. */
  const HelpText :=
    "Dessa kommandon kan du använda:\n"
    + "    TITTA:   'titta på nyckeln'\n"
    + "    TA:   'ta boken'\n"
    + "    GÅ:     'gå norr | gå\U{A0}norrut | gå åt norr'\n"
    + "    ANVÄND:    'använd dörren'\n"
    + "    PRATA:   'prata med mary'\n"
    + "    SAKER:  lista saker som finns i rummet\n"
    + "    RYGGSÄCK:    lista saker som finns i ryggsäcken\n"
    + "    SPARA:   spara spelet\n"
    + "    LADDA:   ladda senast spelade spel\n"
    + "    HJÄLP:   visar denna meny\n"
    + "  "
}
