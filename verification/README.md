# type-fast: typing engine and page controller

A Dafny model of the core of type-fast, a terminal typing trainer written in
Rust. The model covers:

- the **typing engine** (`src/app/pages/typing.rs`, module `TypingPage`): a
  cursor into a fixed phrase, an append-only keystroke log, one record per
  phrase position (`Unpressed`, `Correct` or `Incorrect`, with the expected
  character and its index), and the styled display text projected from those
  records;
- the **application state** (`src/app.rs`, module `App`): running flag,
  current page, menu, engine, and the echo of accepted characters, with the
  default state, quit, tick, menu selection, typing setup and new prompt;
- the **key dispatch** (`src/handler.rs`, module `Handler`) over an abstract
  key type, including the letter filter of the typing page, the space key's
  boundary marker, the text refresh after every key, and the new prompt on
  completion;
- the **menu** (`src/app/pages/menu.rs`, module `MenuPage`) only as far as
  the dispatch needs it: the options `Type`, `Quit` and an optional highlight.

Everything is an immutable datatype with pure transition functions.
Styling is abstracted to a colour (`Gray`, `Red`, `Green`) plus an
underline flag per character.

Panics in the source are handled differently in the two layers:

- In the engine, the unguarded indexes `phrase[position]` and
  `spans[position]` become preconditions of `TypingPage.CharacterMatching`,
  `TypingPage.Input`, `TypingPage.Render` and `TypingPage.ConstructText`.
  `TypingPage.Feed` returns `None` for a run that would index past the phrase.
- In the controller, `App.SelectMenuOption`, `Handler.Press`,
  `Handler.HandleTyping` and `Handler.HandleKeyEvents` return `Failure` of a
  `Fault` where the source reaches `todo!()`, indexes past the menu options,
  or feeds an engine whose cursor is at the end of its phrase.

Reconciled differences between the source files:

- `src/app.rs` builds the engine with `Typing::new()` and no argument, but
  `src/app/pages/typing.rs` takes the phrase. The model passes the phrase
  as a parameter of `App.Default`, `App.SetupTyping` and the handlers. This
  snapshot of the code does not say where the phrase comes from, since
  `Typing::new()` is called without one.
- `src/handler.rs` pushes to `app.input_letter`, which is not a field of the
  `App` struct in `src/app.rs`. The model adds the field `inputLetter`.
- The page variants follow `src/app/pages/mod.rs`: `Menu`, `Typing`,
  `Stats`, `Historical`. The `Pause` page named by the renderer is not part
  of this model.
- The menu options follow `src/app/pages/menu.rs`: `Type` and `Quit`. The
  match in `src/app.rs` also names `Options` and `Credits`; those arms are
  `todo!()` like `Quit`, so leaving them out changes no outcome.
- The space key's character literal in `src/handler.rs` is a mis-encoded
  bullet. The model uses `Handler.Boundary`, the bullet U+2022, which is not
  an ASCII letter.

Behaviour of the code worth noting:

- A correct key on an `Incorrect` record leaves it `Incorrect`
  (`src/app/pages/typing.rs:98`).
  `TypingPage.IncorrectIsSticky` and `TypingPage.MistypeThenCorrect` prove this.
- Esc on the typing page quits the application (`src/handler.rs:53-55`).
- Choosing `Quit` in the menu reaches `todo!()` (`src/app.rs:53`).

## Model

| member | source | states |
|---|---|---|
| TypingPage.New | src/app/pages/typing.rs:45-76 | a new engine has cursor 0, an empty log, and one `Unpressed` record per phrase character holding that character and its index; its text is gray throughout, underlined at position 0 only |
| TypingPage.NewIsValidAndCurrent | src/app/pages/typing.rs:56-75 | a new engine satisfies the engine invariant, and its initial text is exactly what `ConstructText` produces for it (for every phrase, including the empty one) |
| TypingPage.CharacterMatching | src/app/pages/typing.rs:94-112 | a matching key advances the cursor by one and makes the record `Correct` unless it is `Incorrect`, which it stays; a mismatch leaves the cursor and stores `Incorrect` with the expected character; no other record changes |
| TypingPage.Input | src/app/pages/typing.rs:80-92 | the key is appended to the log whether or not it matches; the cursor moves by one exactly on a match; the result is true exactly when the cursor has reached the phrase length; needs the cursor inside the phrase because the phrase is indexed unguarded; the records are those `CharacterMatching` leaves |
| TypingPage.InputPreservesValid | src/app/pages/typing.rs:94-112 | one keystroke keeps: cursor at most the phrase length, one record per character with matching index and value, records before the cursor pressed, records after it unpressed, the record at it never `Correct`, log at least as long as the cursor; on completion every record is pressed |
| TypingPage.InputKeepsIncorrect | src/app/pages/typing.rs:97-103 | an `Incorrect` record is still `Incorrect` after any keystroke |
| TypingPage.Spans | src/app/pages/typing.rs:118-128 | one segment per record, in order, with the record's character, gray for `Unpressed`, red for `Incorrect`, green for `Correct`, none underlined, the colours given by `TypingPage.ColorOf` |
| TypingPage.Render | src/app/pages/typing.rs:114-136 | the projection has one segment per record with its character and state colour, and exactly the segment at the cursor is underlined, and only while the cursor is inside the phrase |
| TypingPage.ConstructText | src/app/pages/typing.rs:114-139 | recomputing the text changes nothing but the text and leaves it equal to the projection of the records and cursor |
| TypingPage.ConstructTextIdempotent | src/app/pages/typing.rs:114-139 | constructing the text twice in a row gives the same engine as constructing it once |
| TypingPage.Feed | src/app/pages/typing.rs:80-92 | a run of keystrokes that stays inside the phrase logs exactly the keys typed, keeps the phrase, never moves the cursor back, and can report completion only on its last key, exactly when the cursor reaches the end |
| TypingPage.FeedShortRunSucceeds | src/app/pages/typing.rs:80-95 | a run no longer than the rest of the phrase always succeeds, since no keystroke of it meets a cursor at the end |
| TypingPage.FeedAtEndFails | src/app/pages/typing.rs:81-95 | once the cursor is at the end of the phrase, any further keystroke fails, where the source indexes `phrase[position]` past the end |
| TypingPage.TypeRestExactly | src/app/pages/typing.rs:87-105 | from an engine whose typed prefix is all `Correct`, typing the rest of the phrase exactly ends with the cursor at the end, every record `Correct`, and completion reported on the last key only |
| TypingPage.TypePhraseExactly | src/app/pages/typing.rs:80-105 | typing a phrase exactly on a new engine leaves the log equal to the phrase, every record `Correct`, and returns false on every key but the last |
| TypingPage.IncorrectIsSticky | src/app/pages/typing.rs:98 | once a record is `Incorrect`, no later run of keystrokes makes it anything else |
| TypingPage.FeedPreservesValid | src/app/pages/typing.rs:80-112 | a run of keystrokes from a valid engine keeps the engine invariant, so the log is never shorter than the cursor |
| TypingPage.IncorrectCountUpdate | src/app/pages/typing.rs:99-110 | replacing one record changes the number of `Incorrect` records only by the old and new record's contributions |
| TypingPage.InputKeepsAccounted | src/app/pages/typing.rs:83-110 | after one keystroke the log is still at least the cursor plus the number of `Incorrect` records |
| TypingPage.FeedKeepsAccounted | src/app/pages/typing.rs:83-110 | the same accounting holds after any run of keystrokes |
| TypingPage.CompletedRunCost | src/app/pages/typing.rs:83-110 | a completed attempt on a new engine typed at least the phrase length plus one key per record left `Incorrect` |
| TypingPage.MistypeThenCorrect | src/app/pages/typing.rs:97-110 | on "test", 'x' leaves the cursor at 0 and marks record 0 `Incorrect` with 't'; then 't' moves the cursor to 1 and record 0 stays `Incorrect` |
| TypingPage.ScenarioWithOneMistake | src/app/pages/typing.rs:80-110 | on "ab", typing x, a, b reports completion only on the third key, leaves record 0 `Incorrect` and record 1 `Correct`, and logs three keys |
| MenuPage.New | src/app/pages/menu.rs:28-37 | a new menu offers `Type` then `Quit` with the first option highlighted |
| MenuPage.Navigate | src/app/pages/menu.rs:39-56 | clearing the highlight gives none, selecting the first gives index 0, the other moves are the list widget's; the options never change |
| App.Default | src/app.rs:20-28 | the default application runs, shows the menu with a new menu and an empty echo, and holds a new engine whose text is current |
| App.New | src/app.rs:33-35 | constructing an application gives the default one |
| App.Tick | src/app.rs:38 | a tick changes no state |
| App.Quit | src/app.rs:41-43 | quitting clears the running flag and changes nothing else |
| App.QuitIdempotent | src/app.rs:41-43 | quitting twice is the same as quitting once |
| App.SetupTyping | src/app.rs:60-63 | the typing page is shown with a new engine: cursor 0, empty log, all records `Unpressed`, text current; running flag, menu and echo are untouched |
| App.NewPrompt | src/app.rs:65-67 | a new prompt has exactly the effect of setting up typing |
| App.SelectMenuOption | src/app.rs:45-58 | it succeeds exactly when the highlight is on `Type`, and then sets up typing; a highlight past the options is an index fault; no highlight or `Quit` reaches an unimplemented branch |
| App.InitialSelectionStartsTyping | src/app.rs:45-50 | on a new application, acting on the initial highlight sets up typing |
| Handler.AlphabeticIn | src/handler.rs:39-48 | the alphabetic characters with codes in [lo, hi), in order, at most one per code |
| Handler.AlphabeticInMembers | src/handler.rs:39-48 | a character is in the filtered code range exactly when its code is in the range and it is alphabetic |
| Handler.AlphabetIsAsciiLetters | src/handler.rs:39-48 | the accepted alphabet is exactly A-Z and a-z; the six punctuation characters between 'Z' and 'a', the space and the boundary marker are excluded |
| Handler.Fed | src/handler.rs:57-70 | the space key feeds the boundary marker to the engine and a letter feeds itself |
| Handler.Press | src/handler.rs:57-70 | feeding a key fails exactly when the engine's cursor is at the end of its phrase; otherwise the engine takes the keystroke and the echo grows by one character |
| Handler.HandleTyping | src/handler.rs:37-80 | on the typing page it fails exactly for an accepted key on an exhausted engine; after every key the text matches the engine; Esc quits; any other key that is not a letter or space changes nothing but the refreshed text; the keys fed to the engine are those `Handler.Accepted` admits: space and the alphabet |
| Handler.AcceptedKeyOnTyping | src/handler.rs:57-79 | an accepted key appends its character to the echo and feeds the engine; on completion a new engine replaces it and the page stays Typing, otherwise the engine is the one after the keystroke with its text refreshed |
| Handler.HandleMenu | src/handler.rs:19-35 | on the menu Esc quits, Enter acts on the selection, h/Left clear the highlight, g/Home select the first, j/Down, k/Up, G/End ask the list widget, and every other key changes nothing |
| Handler.HandleKeyEvents | src/handler.rs:6-17 | a key goes to the menu handler on the menu page and to the typing handler on the typing page; the statistics and history pages are unimplemented |
| Handler.DefaultIsReady | src/app.rs:20-28 | the default application over a non-empty phrase is in the state kept between keys |
| Handler.MenuKeyPreservesReady | src/handler.rs:19-35 | any menu key from the state kept between keys keeps it |
| Handler.TypingKeyPreservesReady | src/handler.rs:37-80 | any key on the typing page from the state kept between keys succeeds and keeps it, with the cursor inside the phrase |
| Handler.HandleKeyPreservesReady | src/handler.rs:6-17 | from the state kept between keys, with a non-empty next phrase, no key feeds an engine past the end of its phrase, and a successful key keeps the state |
| Handler.HandleAll | src/handler.rs:6-17 | a sequence of keys from the state kept between keys, with non-empty next phrases, never feeds an exhausted engine and ends in that state when it succeeds |

## Left out

- Rendering (`src/ui.rs`): layout, widgets, big text, the logger panel and popup geometry.
- The event loop, terminal setup and logger set-up (`src/main.rs`): asynchronous I/O.
  `Handler.HandleAll` stands for a series of key events. It does not stop when the running flag is cleared.
- Command-line parsing (`src/cli.rs`) and the configuration placeholder (`src/config.rs`): library wrappers with no logic.
- The pause page (`src/app/pages/pause.rs`): no handler reaches it.
- MenuPage.Navigate: the next, previous and last movements are ratatui's `ListState` behaviour, which is outside the repository. The model takes them as the parameter `nav`.
- Phrase generation, statistics (words per minute, accuracy), timing, restart and skip: none of these appear in the modelled code. Statistics are floating point.
- The phrase of every new engine is a parameter. The ready-state lemmas need it to be non-empty.
- Logging calls and the concrete terminal types for key events, spans, text and styles.
- Handler.HandleTyping: requires an engine with one record per phrase character and the cursor within the phrase. Every engine built by `TypingPage.New` has this shape and every keystroke keeps it. The same holds for Handler.HandleKeyEvents.
- Integer widths: the cursor is a `usize` in the source. It is bounded by the phrase length, so the model uses `nat`.
