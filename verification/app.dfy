/**
 The application state and its page transitions: whether the program is
 still running, which page is shown, the menu, the typing engine and the
 echo of the characters accepted on the typing page.
 */
module App {
  import opened Wrappers
  import TypingPage
  import MenuPage

  /** The pages the application can show. */
  datatype Pages = Menu | Typing | Stats | Historical

  /** Why a transition aborts instead of producing a new state: an
      unimplemented branch, an index past the menu's options, or a keystroke
      fed to an engine whose cursor is already at the end of its phrase. */
  datatype Fault = Unimplemented | OptionOutOfRange | PhraseExhausted

  /** The whole application state. */
  datatype App = App(
    running: bool,
    currentPage: Pages,
    menu: MenuPage.Menu,
    typing: TypingPage.Typing,
    inputLetter: seq<char>)

  /** The starting state: running, on the menu, a new menu, and an engine
      over `phrase`, whose source is outside this model. */
  function Default(phrase: seq<char>): (a: App)
    ensures a.running && a.currentPage == Menu
    ensures a.menu == MenuPage.New() && a.inputLetter == []
    ensures TypingPage.Fresh(a.typing, phrase)
    ensures TypingPage.TextCurrent(a.typing)
  {
    TypingPage.NewIsValidAndCurrent(phrase);
    App(true, Menu, MenuPage.New(), TypingPage.New(phrase), [])
  }

  /** Constructing an application is the same as taking the default one. */
  function New(phrase: seq<char>): (a: App)
    ensures a == Default(phrase)
  {
    Default(phrase)
  }

  /** A tick of the terminal: nothing in the state changes. */
  function Tick(a: App): (r: App)
    ensures r == a
  {
    a
  }

  /** Stops the application; page, menu, engine and echo are untouched. */
  function Quit(a: App): (r: App)
    ensures !r.running
    ensures r.currentPage == a.currentPage && r.menu == a.menu
    ensures r.typing == a.typing && r.inputLetter == a.inputLetter
  {
    a.(running := false)
  }

  /** Quitting a second time changes nothing more. */
  lemma QuitIdempotent(a: App)
    ensures Quit(Quit(a)) == Quit(a)
  {
  }

  /** Shows the typing page with a new engine over `phrase`; whether the
      application runs, the menu and the echo are untouched. */
  function SetupTyping(a: App, phrase: seq<char>): (r: App)
    ensures r.currentPage == Typing
    ensures TypingPage.Fresh(r.typing, phrase) && TypingPage.TextCurrent(r.typing)
    ensures r.running == a.running && r.menu == a.menu && r.inputLetter == a.inputLetter
  {
    TypingPage.NewIsValidAndCurrent(phrase);
    a.(currentPage := Typing, typing := TypingPage.New(phrase))
  }

  /** A new prompt is installed exactly as the typing page is first set up. */
  function NewPrompt(a: App, phrase: seq<char>): (r: App)
    ensures r == SetupTyping(a, phrase)
  {
    SetupTyping(a, phrase)
  }

  /** Acts on the highlighted menu option. Only Type is implemented, and it
      sets up the typing page; no highlight, or the Quit option, reaches an
      unimplemented branch; a highlight past the options is an index fault. */
  function SelectMenuOption(a: App, phrase: seq<char>): (r: Result<App, Fault>)
    ensures r.Success? <==>
      a.menu.selected.Some? && a.menu.selected.value < |a.menu.options|
      && a.menu.options[a.menu.selected.value] == MenuPage.Type
    ensures r.Success? ==> r.value == SetupTyping(a, phrase)
    ensures r == Failure(OptionOutOfRange) <==>
      a.menu.selected.Some? && a.menu.selected.value >= |a.menu.options|
    ensures r.Failure? && r.error != OptionOutOfRange ==> r.error == Unimplemented
  {
    match a.menu.selected
    case None => Failure(Unimplemented)
    case Some(x) =>
      if x >= |a.menu.options| then Failure(OptionOutOfRange)
      else
        match a.menu.options[x]
        case Type => Success(SetupTyping(a, phrase))
        case Quit => Failure(Unimplemented)
  }

  /** On a new application, Enter on the initial highlight starts typing. */
  lemma InitialSelectionStartsTyping(phrase: seq<char>, next: seq<char>)
    ensures SelectMenuOption(Default(phrase), next) == Success(SetupTyping(Default(phrase), next))
  {
  }
}
