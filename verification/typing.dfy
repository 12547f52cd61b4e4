/**
 The typing engine: a per-character matching state machine over a fixed
 phrase. It keeps a cursor into the phrase, an append-only log of every key
 the user pressed, one correctness record per phrase position, and a styled
 projection of those records for display.
 */
module TypingPage {
  import opened Wrappers

  /** Correctness of one phrase position. */
  datatype LetterState = Unpressed | Incorrect | Correct

  /** The record kept for one phrase position: its state, the character it
      holds and its index in the phrase. */
  datatype TypingLetter = TypingLetter(state: LetterState, value: char, position: nat)

  /** Display colours; the terminal styling library is abstracted to these three. */
  datatype Color = Gray | Red | Green

  /** One styled display segment: a single character, its colour, and whether
      it carries the cursor underline. */
  datatype Span = Span(content: char, color: Color, underlined: bool)

  /** The engine: cursor, keystroke log, target phrase, records and the
      materialised display text. */
  datatype Typing = Typing(
    position: nat,
    typing: seq<char>,
    phrase: seq<char>,
    state: seq<TypingLetter>,
    text: seq<Span>)

  /** The style each correctness state is rendered with. */
  function ColorOf(s: LetterState): Color {
    match s
    case Unpressed => Gray
    case Incorrect => Red
    case Correct => Green
  }

  /** The minimum the engine's operations need to index safely: one record per
      phrase character and a cursor inside the phrase or just past it. */
  predicate Shaped(t: Typing) {
    |t.state| == |t.phrase| && t.position <= |t.phrase|
  }

  /** The invariant every engine reachable from `New` keeps. */
  predicate Valid(t: Typing) {
    && Shaped(t)
    && |t.typing| >= t.position
    && (forall i :: 0 <= i < |t.state| ==> t.state[i].position == i && t.state[i].value == t.phrase[i])
    && (forall i :: 0 <= i < t.position ==> t.state[i].state != Unpressed)
    && (forall i :: t.position < i < |t.state| ==> t.state[i].state == Unpressed)
    && (t.position < |t.state| ==> t.state[t.position].state != Correct)
  }

  /** A fresh engine over `phrase`: nothing typed, every record unpressed. */
  predicate Fresh(t: Typing, phrase: seq<char>) {
    && t.position == 0
    && t.typing == []
    && t.phrase == phrase
    && |t.state| == |phrase|
    && forall i :: 0 <= i < |phrase| ==> t.state[i] == TypingLetter(Unpressed, phrase[i], i)
  }

  /** Builds an engine for `phrase`, with the initial display text: every
      character gray and the first one underlined. */
  function New(phrase: seq<char>): (t: Typing)
    ensures Fresh(t, phrase)
    ensures |t.text| == |phrase|
    ensures forall i :: 0 <= i < |phrase| ==> t.text[i] == Span(phrase[i], Gray, i == 0)
  {
    var state := seq(|phrase|, i requires 0 <= i < |phrase| => TypingLetter(Unpressed, phrase[i], i));
    var spans := seq(|state|, i requires 0 <= i < |state| => Span(state[i].value, Gray, i == 0));
    Typing(0, [], phrase, state, spans)
  }

  /** Compares `c` with the expected character at the cursor. A match marks the
      record Correct unless it is already Incorrect, and advances the cursor; a
      mismatch marks the record Incorrect, keeping the expected character, and
      leaves the cursor where it is. */
  function CharacterMatching(t: Typing, c: char): (r: Typing)
    requires Shaped(t) && t.position < |t.phrase|
    ensures Shaped(r)
    ensures r.phrase == t.phrase && r.typing == t.typing && r.text == t.text
    ensures forall i :: 0 <= i < |t.state| && i != t.position ==> r.state[i] == t.state[i]
    ensures c == t.phrase[t.position] ==>
      && r.position == t.position + 1
      && r.state[t.position] ==
        (if t.state[t.position].state == Incorrect then t.state[t.position]
         else TypingLetter(Correct, t.phrase[t.position], t.position))
    ensures c != t.phrase[t.position] ==>
      && r.position == t.position
      && r.state[t.position] == TypingLetter(Incorrect, t.phrase[t.position], t.position)
  {
    var expected := t.phrase[t.position];
    if c == expected then
      var state :=
        if t.state[t.position].state != Incorrect
        then t.state[t.position := TypingLetter(Correct, c, t.position)]
        else t.state;
      t.(state := state, position := t.position + 1)
    else
      t.(state := t.state[t.position := TypingLetter(Incorrect, expected, t.position)])
  }

  /** What one keystroke yields: the engine after it and the completion signal. */
  datatype Step = Step(after: Typing, complete: bool)

  /** Records keystroke `c`: it is logged whatever it is, then matched at the
      cursor; completion is signalled once the cursor has reached the end. The
      cursor must still be inside the phrase, since the expected character is
      read without a bounds check. */
  function Input(t: Typing, c: char): (r: Step)
    requires Shaped(t) && t.position < |t.phrase|
    ensures Shaped(r.after)
    ensures r.after.typing == t.typing + [c]
    ensures r.after.phrase == t.phrase && r.after.text == t.text
    ensures r.after.position == if c == t.phrase[t.position] then t.position + 1 else t.position
    ensures forall i :: 0 <= i < |t.state| && i != t.position ==> r.after.state[i] == t.state[i]
    ensures r.complete <==> r.after.position == |t.phrase|
    ensures r.after.state == CharacterMatching(t, c).state
  {
    var logged := t.(typing := t.typing + [c]);
    var matched := CharacterMatching(logged, c);
    Step(matched, matched.position >= |matched.phrase|)
  }

  /** The segments without the cursor highlight: one per record, coloured by
      its state. */
  function Spans(state: seq<TypingLetter>): (r: seq<Span>)
    ensures |r| == |state|
    ensures forall i :: 0 <= i < |state| ==>
      r[i] == Span(state[i].value, ColorOf(state[i].state), false)
  {
    if state == [] then []
    else [Span(state[0].value, ColorOf(state[0].state), false)] + Spans(state[1..])
  }

  /** The display projection of the records: the record colours, plus the
      underline on the cursor's segment while the cursor is inside the phrase. */
  function Render(t: Typing): (r: seq<Span>)
    requires t.position < |t.phrase| ==> t.position < |t.state|
    ensures |r| == |t.state|
    ensures forall i :: 0 <= i < |t.state| ==>
      && r[i].content == t.state[i].value
      && r[i].color == ColorOf(t.state[i].state)
      && (r[i].underlined <==> i == t.position && t.position < |t.phrase|)
  {
    var spans := Spans(t.state);
    if t.position < |t.phrase| then spans[t.position := spans[t.position].(underlined := true)]
    else spans
  }

  /** The display text is the projection of the current records and cursor. */
  predicate TextCurrent(t: Typing)
    requires t.position < |t.phrase| ==> t.position < |t.state|
  {
    t.text == Render(t)
  }

  /** Recomputes the display text from the records and the cursor; nothing
      else in the engine changes. */
  function ConstructText(t: Typing): (r: Typing)
    requires t.position < |t.phrase| ==> t.position < |t.state|
    ensures r.position == t.position && r.typing == t.typing
    ensures r.phrase == t.phrase && r.state == t.state
    ensures TextCurrent(r)
  {
    t.(text := Render(t))
  }

  /** Recomputing the text twice gives what recomputing once gives. */
  lemma ConstructTextIdempotent(t: Typing)
    requires t.position < |t.phrase| ==> t.position < |t.state|
    ensures ConstructText(ConstructText(t)) == ConstructText(t)
  {
  }

  /** A new engine satisfies the invariant, and its initial text is exactly
      what `ConstructText` would produce for it. */
  lemma NewIsValidAndCurrent(phrase: seq<char>)
    ensures Valid(New(phrase))
    ensures TextCurrent(New(phrase))
    ensures ConstructText(New(phrase)) == New(phrase)
  {
  }

  /** One keystroke keeps the engine invariant. On completion every record
      has been pressed. */
  lemma InputPreservesValid(t: Typing, c: char)
    requires Valid(t) && t.position < |t.phrase|
    ensures Valid(Input(t, c).after)
    ensures Input(t, c).complete ==>
      forall i :: 0 <= i < |t.phrase| ==> Input(t, c).after.state[i].state != Unpressed
  {
  }

  /** Only the record at the cursor can change, and an Incorrect record
      stays Incorrect. */
  lemma InputKeepsIncorrect(t: Typing, c: char, i: nat)
    requires Shaped(t) && t.position < |t.phrase|
    requires i < |t.state| && t.state[i].state == Incorrect
    ensures Input(t, c).after.state[i].state == Incorrect
  {
  }

  /** The engine after a sequence of keystrokes together with the completion
      signal returned by each of them. */
  datatype Run = Run(engine: Typing, signals: seq<bool>)

  /** Feeds `cs` one keystroke at a time; `None` when a keystroke arrives after
      the cursor has already reached the end of the phrase, where the source
      would index past the phrase. */
  function Feed(t: Typing, cs: seq<char>): (r: Option<Run>)
    requires Shaped(t)
    ensures r.Some? ==> Shaped(r.value.engine)
    ensures r.Some? ==> r.value.engine.phrase == t.phrase
    ensures r.Some? ==> r.value.engine.typing == t.typing + cs
    ensures r.Some? ==> |r.value.signals| == |cs|
    ensures r.Some? ==> forall k :: 0 <= k < |cs| - 1 ==> !r.value.signals[k]
    ensures r.Some? && |cs| > 0 ==>
      (r.value.signals[|cs| - 1] <==> r.value.engine.position == |t.phrase|)
    ensures r.Some? ==> r.value.engine.position >= t.position
    decreases |cs|
  {
    if cs == [] then Some(Run(t, []))
    else if t.position < |t.phrase| then
      var s := Input(t, cs[0]);
      match Feed(s.after, cs[1..])
      case None => None
      case Some(rest) =>
        assert (t.typing + [cs[0]]) + cs[1..] == t.typing + cs;
        Some(Run(rest.engine, [s.complete] + rest.signals))
    else None
  }

  /** A run no longer than what is left of the phrase always succeeds: the
      cursor cannot pass the end before the last keystroke. */
  lemma {:induction false} FeedShortRunSucceeds(t: Typing, cs: seq<char>)
    requires Shaped(t) && t.position + |cs| <= |t.phrase|
    ensures Feed(t, cs).Some?
    decreases |cs|
  {
    if cs != [] {
      FeedShortRunSucceeds(Input(t, cs[0]).after, cs[1..]);
    }
  }

  /** Any keystroke after the cursor has reached the end of the phrase makes
      the run fail, where the source would index past the phrase. */
  lemma FeedAtEndFails(t: Typing, cs: seq<char>)
    requires Shaped(t) && t.position == |t.phrase| && cs != []
    ensures Feed(t, cs).None?
  {
  }

  /** Everything before the cursor typed correctly and nothing at or after it. */
  predicate Clean(t: Typing) {
    && Shaped(t)
    && forall i :: 0 <= i < |t.state| ==> t.state[i].state == (if i < t.position then Correct else Unpressed)
  }

  /** The completion signals of an exact run of `n` keystrokes: false on every
      keystroke but the last. */
  function OnlyLast(n: nat): (r: seq<bool>)
    ensures |r| == n
    ensures forall k :: 0 <= k < n ==> (r[k] <==> k == n - 1)
  {
    seq(n, k => k == n - 1)
  }

  /** One unfolding of `Feed` on a non-empty run inside the phrase. */
  lemma FeedStep(t: Typing, cs: seq<char>)
    requires Shaped(t) && t.position < |t.phrase| && cs != []
    ensures var s := Input(t, cs[0]);
      Feed(t, cs) ==
        match Feed(s.after, cs[1..])
        case None => None
        case Some(rest) => Some(Run(rest.engine, [s.complete] + rest.signals))
  {
  }

  /** A correct keystroke on a clean engine leaves it clean and valid. */
  lemma CorrectKeyKeepsClean(t: Typing)
    requires Valid(t) && Clean(t) && t.position < |t.phrase|
    ensures var u := Input(t, t.phrase[t.position]).after;
      Valid(u) && Clean(u) && u.position == t.position + 1
  {
  }

  /** Typing the rest of the phrase exactly from a clean engine completes it,
      leaves every record Correct, and signals completion only at the end. */
  lemma {:induction false} TypeRestExactly(t: Typing)
    requires Valid(t) && Clean(t)
    ensures Feed(t, t.phrase[t.position..]).Some?
    ensures var r := Feed(t, t.phrase[t.position..]).value;
      && r.engine.position == |t.phrase|
      && Clean(r.engine)
      && r.signals == OnlyLast(|t.phrase| - t.position)
    decreases |t.phrase| - t.position
  {
    var rest := t.phrase[t.position..];
    if t.position == |t.phrase| {
      assert rest == [];
      assert OnlyLast(0) == [];
    } else {
      var s := Input(t, rest[0]);
      CorrectKeyKeepsClean(t);
      var u := s.after;
      assert rest[1..] == u.phrase[u.position..];
      TypeRestExactly(u);
      FeedStep(t, rest);
      var tail := Feed(u, rest[1..]).value;
      var n := |t.phrase| - t.position;
      assert s.complete <==> n == 1;
      var signals := [s.complete] + tail.signals;
      assert tail.signals == OnlyLast(n - 1);
      assert forall k :: 0 <= k < n ==> (signals[k] <==> k == n - 1);
      assert signals == OnlyLast(n);
    }
  }

  /** Typing the whole phrase exactly on an engine with nothing typed yet. */
  lemma TypeWholePhrase(t: Typing)
    requires Valid(t) && Clean(t) && t.position == 0 && t.typing == []
    ensures Feed(t, t.phrase).Some?
    ensures var r := Feed(t, t.phrase).value;
      && r.engine.position == |t.phrase|
      && r.engine.typing == t.phrase
      && (forall i :: 0 <= i < |t.phrase| ==> r.engine.state[i].state == Correct)
      && r.signals == OnlyLast(|t.phrase|)
  {
    assert t.phrase[t.position..] == t.phrase;
    TypeRestExactly(t);
    assert [] + t.phrase == t.phrase;
  }

  /** Typing a phrase exactly on a new engine: the cursor ends at the phrase
      length, every record is Correct, the log is the phrase, and only the
      final keystroke reports completion. */
  lemma TypePhraseExactly(phrase: seq<char>)
    ensures Feed(New(phrase), phrase).Some?
    ensures var r := Feed(New(phrase), phrase).value;
      && r.engine.position == |phrase|
      && r.engine.typing == phrase
      && (forall i :: 0 <= i < |phrase| ==> r.engine.state[i].state == Correct)
      && r.signals == OnlyLast(|phrase|)
  {
    NewIsClean(phrase);
    TypeWholePhrase(New(phrase));
  }

  /** A new engine is valid and clean. */
  lemma NewIsClean(phrase: seq<char>)
    ensures Valid(New(phrase)) && Clean(New(phrase))
  {
  }

  /** Once a record is Incorrect, no later sequence of keystrokes changes
      that, even when the position is later typed correctly. */
  lemma {:induction false} IncorrectIsSticky(t: Typing, cs: seq<char>, i: nat)
    requires Shaped(t) && i < |t.state| && t.state[i].state == Incorrect
    requires Feed(t, cs).Some?
    ensures Feed(t, cs).value.engine.state[i].state == Incorrect
    decreases |cs|
  {
    if cs != [] {
      var s := Input(t, cs[0]);
      InputKeepsIncorrect(t, cs[0], i);
      IncorrectIsSticky(s.after, cs[1..], i);
    }
  }

  /** From any valid engine, a run of keystrokes keeps the invariant; in
      particular the log is never shorter than the cursor. */
  lemma {:induction false} FeedPreservesValid(t: Typing, cs: seq<char>)
    requires Valid(t) && Feed(t, cs).Some?
    ensures Valid(Feed(t, cs).value.engine)
    ensures |Feed(t, cs).value.engine.typing| >= Feed(t, cs).value.engine.position
    decreases |cs|
  {
    if cs != [] {
      InputPreservesValid(t, cs[0]);
      FeedPreservesValid(Input(t, cs[0]).after, cs[1..]);
    }
  }

  /** The number of records marked Incorrect. */
  function IncorrectCount(state: seq<TypingLetter>): (n: nat)
    ensures n <= |state|
  {
    if state == [] then 0
    else (if state[0].state == Incorrect then 1 else 0) + IncorrectCount(state[1..])
  }

  /** Replacing one record changes the count by that record's contribution only. */
  lemma {:induction false} IncorrectCountUpdate(state: seq<TypingLetter>, i: nat, x: TypingLetter)
    requires i < |state|
    ensures IncorrectCount(state[i := x]) + (if state[i].state == Incorrect then 1 else 0)
         == IncorrectCount(state) + (if x.state == Incorrect then 1 else 0)
    decreases |state|
  {
    if i > 0 {
      IncorrectCountUpdate(state[1..], i - 1, x);
      assert state[i := x][1..] == state[1..][i - 1 := x];
    } else {
      assert state[i := x][1..] == state[1..];
    }
  }

  /** Every Incorrect record was paid for by a keystroke that did not move
      the cursor: the log is at least as long as the cursor plus the number
      of Incorrect records. */
  predicate Accounted(t: Typing) {
    |t.typing| >= t.position + IncorrectCount(t.state)
  }

  /** One keystroke keeps the accounting. */
  lemma InputKeepsAccounted(t: Typing, c: char)
    requires Shaped(t) && t.position < |t.phrase| && Accounted(t)
    ensures Accounted(Input(t, c).after)
  {
    var u := Input(t, c).after;
    assert u.state == t.state[t.position := u.state[t.position]];
    IncorrectCountUpdate(t.state, t.position, u.state[t.position]);
  }

  /** A run of keystrokes keeps the accounting. */
  lemma {:induction false} FeedKeepsAccounted(t: Typing, cs: seq<char>)
    requires Shaped(t) && Accounted(t) && Feed(t, cs).Some?
    ensures Accounted(Feed(t, cs).value.engine)
    decreases |cs|
  {
    if cs != [] {
      InputKeepsAccounted(t, cs[0]);
      FeedKeepsAccounted(Input(t, cs[0]).after, cs[1..]);
    }
  }

  /** A completed attempt on a new engine logs at least one keystroke per
      phrase character plus one per record left Incorrect, so it logs exactly
      the phrase length only when no mistake was made. */
  lemma CompletedRunCost(phrase: seq<char>, cs: seq<char>)
    requires Feed(New(phrase), cs).Some?
    requires Feed(New(phrase), cs).value.engine.position == |phrase|
    ensures |cs| >= |phrase| + IncorrectCount(Feed(New(phrase), cs).value.engine.state)
  {
    var t := New(phrase);
    assert IncorrectCount(t.state) == 0 by {
      IncorrectNoneCount(t.state);
    }
    FeedKeepsAccounted(t, cs);
  }

  /** A sequence of records with none Incorrect counts zero. */
  lemma {:induction false} IncorrectNoneCount(state: seq<TypingLetter>)
    requires forall i :: 0 <= i < |state| ==> state[i].state != Incorrect
    ensures IncorrectCount(state) == 0
    decreases |state|
  {
    if state != [] {
      IncorrectNoneCount(state[1..]);
    }
  }

  /** A mistyped first key on "test" marks position 0 Incorrect without moving
      the cursor; the correct key then moves the cursor but the record stays
      Incorrect. */
  lemma MistypeThenCorrect()
    ensures var s1 := Input(New("test"), 'x').after;
      && s1.position == 0 && s1.state[0] == TypingLetter(Incorrect, 't', 0)
      && var s2 := Input(s1, 't').after;
      && s2.position == 1 && s2.state[0].state == Incorrect
      && s2.typing == "xt"
  {
  }

  /** Phrase "ab" typed as x, a, b: completion only on the third key, the
      first record stays Incorrect, and three keys are logged against two
      phrase characters. */
  lemma ScenarioWithOneMistake()
    ensures Feed(New("ab"), "xab").Some?
    ensures var r := Feed(New("ab"), "xab").value;
      && r.signals == [false, false, true]
      && r.engine.position == 2
      && r.engine.state[0].state == Incorrect
      && r.engine.state[1].state == Correct
      && |r.engine.typing| == 3
  {
  }
}
