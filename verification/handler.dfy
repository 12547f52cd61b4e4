/**
 Key handling: dispatches a key to the handler of the current page. The menu
 handler moves the highlight, quits or acts on the selection; the typing
 handler feeds accepted characters to the engine, refreshes the display text
 and installs a new prompt when the engine reports completion.
 */
module Handler {
  import opened Wrappers
  import TypingPage
  import MenuPage
  import App

  /** The key codes the handlers distinguish; every other key is `Other`. */
  datatype KeyCode = Esc | Enter | Left | Down | Up | Home | End | Char(c: char) | Other

  /** The word-boundary marker the engine receives for the space key; it is
      not an ASCII letter. */
  const Boundary: char := '\U{2022}'

  /** Rust's `char::is_alphabetic`, restricted to ASCII, the only range the
      alphabet is drawn from. The fact taken about `is_alphabetic` is that on
      the codes 65 to 122 it holds exactly for the letters A-Z and a-z, and
      fails on the six characters `[`, `\`, `]`, `^`, `_` and the backquote
      between them. */
  predicate IsAsciiAlphabetic(c: char) {
    ('A' <= c <= 'Z') || ('a' <= c <= 'z')
  }

  /** The characters with codes in [lo, hi) that are alphabetic, in order. */
  function AlphabeticIn(lo: nat, hi: nat): (r: seq<char>)
    requires lo <= hi <= 128
    ensures |r| <= hi - lo
    ensures forall i :: 0 <= i < |r| ==> lo <= r[i] as nat < hi && IsAsciiAlphabetic(r[i])
    ensures forall i, j :: 0 <= i < j < |r| ==> r[i] < r[j]
    decreases hi - lo
  {
    if lo == hi then []
    else (if IsAsciiAlphabetic(lo as char) then [lo as char] else []) + AlphabeticIn(lo + 1, hi)
  }

  /** The accepted alphabet: the alphabetic characters from 'A' to 'z' inclusive. */
  function Alphabet(): seq<char> {
    AlphabeticIn('A' as nat, 'z' as nat + 1)
  }

  /** Membership in a filtered range is exactly "in range and alphabetic". */
  lemma {:induction false} AlphabeticInMembers(lo: nat, hi: nat, c: char)
    requires lo <= hi <= 128
    ensures c in AlphabeticIn(lo, hi) <==> lo <= c as nat < hi && IsAsciiAlphabetic(c)
    decreases hi - lo
  {
    if lo < hi {
      AlphabeticInMembers(lo + 1, hi, c);
    }
  }

  /** The accepted alphabet is exactly the ASCII letters: the six punctuation
      characters between 'Z' and 'a', the space and the boundary marker are
      not in it. */
  lemma AlphabetIsAsciiLetters(c: char)
    ensures c in Alphabet() <==> ('A' <= c <= 'Z') || ('a' <= c <= 'z')
    ensures '[' !in Alphabet() && '\\' !in Alphabet() && ']' !in Alphabet()
    ensures '^' !in Alphabet() && '_' !in Alphabet() && '`' !in Alphabet()
    ensures ' ' !in Alphabet() && Boundary !in Alphabet()
  {
    AlphabeticInMembers('A' as nat, 'z' as nat + 1, c);
    AlphabeticInMembers('A' as nat, 'z' as nat + 1, '[');
    AlphabeticInMembers('A' as nat, 'z' as nat + 1, '\\');
    AlphabeticInMembers('A' as nat, 'z' as nat + 1, ']');
    AlphabeticInMembers('A' as nat, 'z' as nat + 1, '^');
    AlphabeticInMembers('A' as nat, 'z' as nat + 1, '_');
    AlphabeticInMembers('A' as nat, 'z' as nat + 1, '`');
    AlphabeticInMembers('A' as nat, 'z' as nat + 1, ' ');
    AlphabeticInMembers('A' as nat, 'z' as nat + 1, Boundary);
  }

  /** The keys the typing page feeds to the engine: space and the alphabet. */
  predicate Accepted(key: KeyCode) {
    key.Char? && (key.c == ' ' || key.c in Alphabet())
  }

  /** The character the engine receives for an accepted key. */
  function Fed(key: KeyCode): (c: char)
    requires Accepted(key)
    ensures key.c == ' ' ==> c == Boundary
    ensures key.c != ' ' ==> c == key.c
  {
    if key.c == ' ' then Boundary else key.c
  }

  /** Feeds `c` to the engine and echoes `echo`; the engine must not have
      reached the end of its phrase. Yields the state and the completion signal. */
  function Press(a: App.App, c: char, echo: char): (r: Result<(App.App, bool), App.Fault>)
    requires TypingPage.Shaped(a.typing)
    ensures r.Failure? <==> a.typing.position >= |a.typing.phrase|
    ensures r.Failure? ==> r.error == App.PhraseExhausted
    ensures r.Success? ==>
      var s := TypingPage.Input(a.typing, c);
      r.value == (a.(typing := s.after, inputLetter := a.inputLetter + [echo]), s.complete)
  {
    if a.typing.position < |a.typing.phrase| then
      var s := TypingPage.Input(a.typing, c);
      Success((a.(typing := s.after, inputLetter := a.inputLetter + [echo]), s.complete))
    else Failure(App.PhraseExhausted)
  }

  /** The typing page: Esc quits, space feeds the boundary marker and echoes
      a space, an alphabet letter is fed and echoed, anything else is ignored.
      The display text is then recomputed, and a completed prompt is replaced
      by a new engine over `phrase`. */
  function HandleTyping(key: KeyCode, a: App.App, phrase: seq<char>): (r: Result<App.App, App.Fault>)
    requires TypingPage.Shaped(a.typing)
    ensures r.Failure? <==> Accepted(key) && a.typing.position >= |a.typing.phrase|
    ensures r.Failure? ==> r.error == App.PhraseExhausted
    ensures r.Success? ==> TypingPage.Shaped(r.value.typing) && TypingPage.TextCurrent(r.value.typing)
    ensures key == Esc ==> r == Success(App.Quit(a).(typing := TypingPage.ConstructText(a.typing)))
    ensures key != Esc && !Accepted(key) ==> r == Success(a.(typing := TypingPage.ConstructText(a.typing)))
  {
    var pressed :=
      match key
      case Esc => Success((App.Quit(a), false))
      case Char(ch) =>
        if ch == ' ' then Press(a, Boundary, ' ')
        else if ch in Alphabet() then Press(a, ch, ch)
        else Success((a, false))
      case _ => Success((a, false));
    match pressed
    case Failure(e) => Failure(e)
    case Success(step) =>
      var c := step.0.(typing := TypingPage.ConstructText(step.0.typing));
      Success(if step.1 then App.NewPrompt(c, phrase) else c)
  }

  /** The menu page: Esc quits, Enter acts on the highlighted option, the
      navigation keys move the highlight, anything else is ignored. */
  function HandleMenu(key: KeyCode, a: App.App, phrase: seq<char>,
                      nav: (MenuPage.NavMove, Option<nat>) -> Option<nat>): (r: Result<App.App, App.Fault>)
    ensures key == Esc ==> r == Success(App.Quit(a))
    ensures key == Enter ==> r == App.SelectMenuOption(a, phrase)
    ensures key in {Left, Char('h')} ==> r == Success(a.(menu := a.menu.(selected := None)))
    ensures key in {Home, Char('g')} ==> r == Success(a.(menu := a.menu.(selected := Some(0))))
    ensures key in {Down, Char('j')} ==>
      r == Success(a.(menu := a.menu.(selected := nav(MenuPage.SelectNext, a.menu.selected))))
    ensures key in {Up, Char('k')} ==>
      r == Success(a.(menu := a.menu.(selected := nav(MenuPage.SelectPrevious, a.menu.selected))))
    ensures key in {End, Char('G')} ==>
      r == Success(a.(menu := a.menu.(selected := nav(MenuPage.SelectLast, a.menu.selected))))
    ensures key !in {Esc, Enter, Left, Down, Up, Home, End, Char('h'), Char('j'), Char('k'), Char('g'), Char('G')} ==>
      r == Success(a)
  {
    match key
    case Esc => Success(App.Quit(a))
    case Enter => App.SelectMenuOption(a, phrase)
    case Left => Success(a.(menu := MenuPage.Navigate(a.menu, MenuPage.SelectNone, nav)))
    case Down => Success(a.(menu := MenuPage.Navigate(a.menu, MenuPage.SelectNext, nav)))
    case Up => Success(a.(menu := MenuPage.Navigate(a.menu, MenuPage.SelectPrevious, nav)))
    case Home => Success(a.(menu := MenuPage.Navigate(a.menu, MenuPage.SelectFirst, nav)))
    case End => Success(a.(menu := MenuPage.Navigate(a.menu, MenuPage.SelectLast, nav)))
    case Char(ch) =>
      if ch == 'h' then Success(a.(menu := MenuPage.Navigate(a.menu, MenuPage.SelectNone, nav)))
      else if ch == 'j' then Success(a.(menu := MenuPage.Navigate(a.menu, MenuPage.SelectNext, nav)))
      else if ch == 'k' then Success(a.(menu := MenuPage.Navigate(a.menu, MenuPage.SelectPrevious, nav)))
      else if ch == 'g' then Success(a.(menu := MenuPage.Navigate(a.menu, MenuPage.SelectFirst, nav)))
      else if ch == 'G' then Success(a.(menu := MenuPage.Navigate(a.menu, MenuPage.SelectLast, nav)))
      else Success(a)
    case Other => Success(a)
  }

  /** Dispatches a key to the current page's handler; the statistics and
      history pages are not implemented. `phrase` is the prompt a new engine
      would be built over. */
  function HandleKeyEvents(key: KeyCode, a: App.App, phrase: seq<char>,
                           nav: (MenuPage.NavMove, Option<nat>) -> Option<nat>): (r: Result<App.App, App.Fault>)
    requires TypingPage.Shaped(a.typing)
    ensures a.currentPage == App.Menu ==> r == HandleMenu(key, a, phrase, nav)
    ensures a.currentPage == App.Typing ==> r == HandleTyping(key, a, phrase)
    ensures a.currentPage == App.Stats || a.currentPage == App.Historical ==> r == Failure(App.Unimplemented)
  {
    match a.currentPage
    case Menu => HandleMenu(key, a, phrase, nav)
    case Typing => HandleTyping(key, a, phrase)
    case Stats => Failure(App.Unimplemented)
    case Historical => Failure(App.Unimplemented)
  }

  /** The state kept between keys: a valid engine whose text is current and
      whose cursor is still inside its phrase, the menu's two options, and a
      page that has a handler. */
  predicate Ready(a: App.App) {
    && TypingPage.Valid(a.typing)
    && a.typing.position < |a.typing.phrase|
    && TypingPage.TextCurrent(a.typing)
    && a.menu.options == MenuPage.New().options
    && (a.currentPage == App.Menu || a.currentPage == App.Typing)
  }

  /** A new application over a non-empty phrase is ready. */
  lemma DefaultIsReady(phrase: seq<char>)
    requires |phrase| > 0
    ensures Ready(App.Default(phrase))
  {
  }

  /** An accepted key on the typing page: the engine receives the key's
      character and the echo grows by the key; on completion a new engine
      replaces the finished one, otherwise the engine is the one after the
      keystroke with its text recomputed. */
  lemma AcceptedKeyOnTyping(key: KeyCode, a: App.App, phrase: seq<char>)
    requires TypingPage.Shaped(a.typing) && a.typing.position < |a.typing.phrase|
    requires Accepted(key)
    ensures var s := TypingPage.Input(a.typing, Fed(key));
      var r := HandleTyping(key, a, phrase);
      && r.Success?
      && r.value.inputLetter == a.inputLetter + [key.c]
      && r.value.running == a.running && r.value.menu == a.menu
      && (s.complete ==> r.value.currentPage == App.Typing && r.value.typing == TypingPage.New(phrase))
      && (!s.complete ==> r.value.currentPage == a.currentPage && r.value.typing == TypingPage.ConstructText(s.after))
  {
  }

  /** A key on the menu page from a ready state keeps the state ready. */
  lemma MenuKeyPreservesReady(key: KeyCode, a: App.App, phrase: seq<char>,
                              nav: (MenuPage.NavMove, Option<nat>) -> Option<nat>)
    requires Ready(a) && a.currentPage == App.Menu && |phrase| > 0
    ensures HandleMenu(key, a, phrase, nav) != Failure(App.PhraseExhausted)
    ensures HandleMenu(key, a, phrase, nav).Success? ==> Ready(HandleMenu(key, a, phrase, nav).value)
  {
  }

  /** A key on the typing page from a ready state never feeds an exhausted
      engine and keeps the state ready. */
  lemma TypingKeyPreservesReady(key: KeyCode, a: App.App, phrase: seq<char>)
    requires Ready(a) && a.currentPage == App.Typing && |phrase| > 0
    ensures HandleTyping(key, a, phrase).Success?
    ensures Ready(HandleTyping(key, a, phrase).value)
  {
    if Accepted(key) {
      var s := TypingPage.Input(a.typing, Fed(key));
      TypingPage.InputPreservesValid(a.typing, Fed(key));
      AcceptedKeyOnTyping(key, a, phrase);
      if s.complete {
        TypingPage.NewIsValidAndCurrent(phrase);
      } else {
        assert TypingPage.Valid(TypingPage.ConstructText(s.after));
      }
    }
  }

  /** Handling any key from a ready state, with a non-empty next phrase,
      never feeds an exhausted engine and leaves the state ready. */
  lemma HandleKeyPreservesReady(key: KeyCode, a: App.App, phrase: seq<char>,
                                nav: (MenuPage.NavMove, Option<nat>) -> Option<nat>)
    requires Ready(a) && |phrase| > 0
    ensures HandleKeyEvents(key, a, phrase, nav) != Failure(App.PhraseExhausted)
    ensures HandleKeyEvents(key, a, phrase, nav).Success? ==> Ready(HandleKeyEvents(key, a, phrase, nav).value)
  {
    if a.currentPage == App.Menu {
      MenuKeyPreservesReady(key, a, phrase, nav);
    } else {
      TypingKeyPreservesReady(key, a, phrase);
    }
  }

  /** One key press together with the phrase a new prompt would use. */
  datatype Event = Event(key: KeyCode, nextPhrase: seq<char>)

  /** Handles the events in order, stopping at the first fault. */
  function HandleAll(a: App.App, events: seq<Event>,
                     nav: (MenuPage.NavMove, Option<nat>) -> Option<nat>): (r: Result<App.App, App.Fault>)
    requires Ready(a)
    requires forall k :: 0 <= k < |events| ==> |events[k].nextPhrase| > 0
    ensures r != Failure(App.PhraseExhausted)
    ensures r.Success? ==> Ready(r.value)
    decreases |events|
  {
    if events == [] then Success(a)
    else
      HandleKeyPreservesReady(events[0].key, a, events[0].nextPhrase, nav);
      match HandleKeyEvents(events[0].key, a, events[0].nextPhrase, nav)
      case Failure(e) => Failure(e)
      case Success(b) => HandleAll(b, events[1..], nav)
  }
}
