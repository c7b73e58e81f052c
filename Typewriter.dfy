/** The hero-title typewriter: a self-rescheduling timer callback `type()` over
    the closure state (phrase index, character index, deleting flag). Each tick
    shows a prefix of the current phrase and schedules the next tick after a
    delay. Timers are abstract: a tick is an event, `delay` is the number the
    callback passes to `setTimeout`. */
module Typewriter {
  import opened JsString

  /** The default `speed` of `typewriterEffect`, the one the page start-up uses. */
  const DefaultSpeed: int := 100
  /** Pause after a phrase is fully typed. */
  const TypedPause: real := 1500.0
  /** Pause after a phrase is fully deleted. */
  const DeletedPause: real := 500.0

  /** The closure variables of `typewriterEffect`. */
  datatype TypeState = TypeState(phraseIndex: int, charIndex: int, isDeleting: bool)

  /** What one call of `type()` produces: the new closure state, the text it
      writes into the element and the delay of the next tick. */
  datatype Tick = Tick(next: TypeState, display: string, delay: real)

  /** The closure state before the first tick. */
  const Start: TypeState := TypeState(0, 0, false)

  predicate InRange(phrases: seq<string>, s: TypeState)
  {
    0 <= s.phraseIndex < |phrases|
  }

  /** The reachable states: the character index stays within one past the
      phrase while typing, and within `[1, len + 1]` while deleting. */
  predicate Bounded(phrases: seq<string>, s: TypeState)
  {
    InRange(phrases, s) &&
    var len := |phrases[s.phraseIndex]|;
    if s.isDeleting then 1 <= s.charIndex <= len + 1 else 0 <= s.charIndex <= len
  }

  function Min(a: int, b: int): (r: int) { if a <= b then a else b }

  /** The closure state after one call of `type()`. */
  function Next(phrases: seq<string>, s: TypeState): (r: TypeState)
    requires InRange(phrases, s)
    ensures InRange(phrases, r)
  {
    var charIndex := if s.isDeleting then s.charIndex - 1 else s.charIndex + 1;
    if !s.isDeleting && charIndex == |phrases[s.phraseIndex]| + 1 then
      TypeState(s.phraseIndex, charIndex, true)
    else if s.isDeleting && charIndex == 0 then
      TypeState((s.phraseIndex + 1) % |phrases|, charIndex, false)
    else
      TypeState(s.phraseIndex, charIndex, s.isDeleting)
  }

  /** The text one call of `type()` writes into the element. */
  function Shown(phrases: seq<string>, s: TypeState): (r: string)
    requires InRange(phrases, s)
    ensures r <= phrases[s.phraseIndex]
  {
    var phrase := phrases[s.phraseIndex];
    if s.isDeleting then Substring(phrase, 0, s.charIndex - 1) else Substring(phrase, 0, s.charIndex + 1)
  }

  /** The delay one call of `type()` passes to `setTimeout`. */
  function Delay(phrases: seq<string>, speed: int, s: TypeState): (r: real)
    requires InRange(phrases, s)
    ensures r == TypedPause || r == DeletedPause || r == speed as real || r == speed as real / 2.0
  {
    var charIndex := if s.isDeleting then s.charIndex - 1 else s.charIndex + 1;
    if !s.isDeleting && charIndex == |phrases[s.phraseIndex]| + 1 then TypedPause
    else if s.isDeleting && charIndex == 0 then DeletedPause
    else if s.isDeleting then speed as real / 2.0
    else speed as real
  }

  /** One call of `type()`. */
  function Step(phrases: seq<string>, speed: int, s: TypeState): (t: Tick)
    requires InRange(phrases, s)
    ensures InRange(phrases, t.next) && t.display <= phrases[s.phraseIndex]
  {
    Tick(Next(phrases, s), Shown(phrases, s), Delay(phrases, speed, s))
  }

  /** A tick keeps the state bounded and shows the prefix of the phrase it
      worked on whose length is the new character index, capped at the
      phrase length. */
  lemma StepBounded(phrases: seq<string>, s: TypeState)
    requires Bounded(phrases, s)
    ensures Bounded(phrases, Next(phrases, s))
    ensures var next, phrase := Next(phrases, s), phrases[s.phraseIndex];
            0 <= next.charIndex && Shown(phrases, s) == phrase[..Min(next.charIndex, |phrase|)]
  {
  }

  /** The mode switches and their delays: typing turns to deleting exactly
      when the index reaches `len + 1` (pause 1500), deleting turns to typing
      exactly when it reaches 0 (next phrase, pause 500); otherwise the index
      moves by one and the delay is `speed`, or `speed / 2` while deleting. */
  lemma StepTransitions(phrases: seq<string>, speed: int, s: TypeState)
    requires InRange(phrases, s)
    ensures var t, len := Step(phrases, speed, s), |phrases[s.phraseIndex]|;
            && t.next.charIndex == (if s.isDeleting then s.charIndex - 1 else s.charIndex + 1)
            && (t.next.isDeleting != s.isDeleting <==>
                 (!s.isDeleting && s.charIndex == len) || (s.isDeleting && s.charIndex == 1))
            && (!s.isDeleting && s.charIndex == len ==>
                 t.next.phraseIndex == s.phraseIndex && t.delay == TypedPause)
            && (s.isDeleting && s.charIndex == 1 ==>
                 t.next.phraseIndex == (s.phraseIndex + 1) % |phrases| && t.delay == DeletedPause)
            && (t.next.isDeleting == s.isDeleting ==>
                 t.next.phraseIndex == s.phraseIndex &&
                 t.delay == if s.isDeleting then speed as real / 2.0 else speed as real)
  {
  }

  /** The state after `k` ticks. */
  function Iterate(phrases: seq<string>, s: TypeState, k: nat): (r: TypeState)
    requires InRange(phrases, s)
    ensures InRange(phrases, r)
  {
    if k == 0 then s else Next(phrases, Iterate(phrases, s, k - 1))
  }

  /** Running `a` ticks and then `b` more is running `a + b` ticks. */
  lemma {:induction false} IterateAppend(phrases: seq<string>, s: TypeState, a: nat, b: nat)
    requires InRange(phrases, s)
    ensures Iterate(phrases, s, a + b) == Iterate(phrases, Iterate(phrases, s, a), b)
  {
    if b > 0 {
      IterateAppend(phrases, s, a, b - 1);
    }
  }

  /** Every reachable state is bounded. */
  lemma {:induction false} IterateBounded(phrases: seq<string>, s: TypeState, k: nat)
    requires Bounded(phrases, s)
    ensures Bounded(phrases, Iterate(phrases, s, k))
  {
    if k > 0 {
      IterateBounded(phrases, s, k - 1);
      StepBounded(phrases, Iterate(phrases, s, k - 1));
    }
  }

  /** Within one phrase cycle, starting from an empty display: `k` ticks in,
      the state is typing at `k` up to the phrase length, then deleting and
      counting down from `len + 1`. */
  lemma {:induction false} CycleState(phrases: seq<string>, i: int, k: nat)
    requires 0 <= i < |phrases|
    requires k <= 2 * |phrases[i]| + 1
    ensures var len := |phrases[i]|;
            Iterate(phrases, TypeState(i, 0, false), k) ==
              if k <= len then TypeState(i, k, false) else TypeState(i, 2 * len + 2 - k, true)
  {
    if k > 0 {
      CycleState(phrases, i, k - 1);
    }
  }

  /** One full cycle over phrase `i` takes `2 * len + 2` ticks and ends at the
      start of the next phrase (wrapping to the first). */
  lemma PhraseCycle(phrases: seq<string>, i: int)
    requires 0 <= i < |phrases|
    ensures Iterate(phrases, TypeState(i, 0, false), 2 * |phrases[i]| + 2)
            == TypeState((i + 1) % |phrases|, 0, false)
  {
    CycleState(phrases, i, 2 * |phrases[i]| + 1);
  }

  /** What tick `j` of a cycle shows: prefixes of length 1, 2, ..., len,
      then the full phrase once more as typing ends and once more as
      deleting begins, then the prefixes of length len - 1 down to 0. */
  lemma CycleShown(phrases: seq<string>, i: int, j: nat)
    requires 0 <= i < |phrases|
    requires j < 2 * |phrases[i]| + 2
    ensures var phrase, len := phrases[i], |phrases[i]|;
            Shown(phrases, Iterate(phrases, TypeState(i, 0, false), j)) ==
              phrase[..if j <= len then Min(j + 1, len) else 2 * len + 1 - j]
  {
    CycleState(phrases, i, j);
    var s := Iterate(phrases, TypeState(i, 0, false), j);
    SubstringPrefix(phrases[i], s.charIndex - 1);
    SubstringPrefix(phrases[i], s.charIndex + 1);
  }

  /** The element and the closure of one `typewriterEffect` call. */
  class Typewriter {
    const phrases: seq<string>
    const speed: int
    var phraseIndex: int
    var charIndex: int
    var isDeleting: bool
    /** The element's `textContent`. */
    var text: string
    /** The delay of the pending `setTimeout(type, ...)`. */
    var delay: real

    function Current(): TypeState
      reads this
    {
      TypeState(phraseIndex, charIndex, isDeleting)
    }

    predicate Valid()
      reads this
    {
      |phrases| > 0 && Bounded(phrases, Current())
    }

    /** `typewriterEffect(element, phrases, speed)`: sets up the closure and
        runs the first tick at once. */
    constructor (phrases: seq<string>, speed: int)
      requires |phrases| > 0
      ensures Valid()
      ensures this.phrases == phrases && this.speed == speed
      ensures var t := Step(phrases, speed, Start);
              Current() == t.next && text == t.display && delay == t.delay
    {
      this.phrases := phrases;
      this.speed := speed;
      phraseIndex, charIndex, isDeleting := 0, 0, false;
      text := "";
      delay := 0.0;
      new;
      Type();
    }

    /** The page start-up: the phrases are the comma-separated pieces of the
        element's attribute and the speed is the default. */
    static method FromAttribute(attribute: string) returns (t: Typewriter)
      ensures fresh(t) && t.Valid()
      ensures t.phrases == Split(attribute, ',') && t.speed == DefaultSpeed
      ensures var k := Step(t.phrases, DefaultSpeed, Start);
              t.Current() == k.next && t.text == k.display && t.delay == k.delay
    {
      t := new Typewriter(Split(attribute, ','), DefaultSpeed);
    }

    /** One timer tick, `type()`. */
    method Type()
      requires Valid()
      modifies this
      ensures Valid()
      ensures var t := Step(phrases, speed, old(Current()));
              Current() == t.next && text == t.display && delay == t.delay
    {
      StepBounded(phrases, Current());
      var currentPhrase := phrases[phraseIndex];
      var displayText := "";
      if isDeleting {
        displayText := Substring(currentPhrase, 0, charIndex - 1);
        charIndex := charIndex - 1;
      } else {
        displayText := Substring(currentPhrase, 0, charIndex + 1);
        charIndex := charIndex + 1;
      }
      text := displayText;
      var typeSpeed := speed as real;
      if isDeleting {
        typeSpeed := typeSpeed / 2.0;
      }
      if !isDeleting && charIndex == |currentPhrase| + 1 {
        typeSpeed := TypedPause;
        isDeleting := true;
      } else if isDeleting && charIndex == 0 {
        isDeleting := false;
        phraseIndex := (phraseIndex + 1) % |phrases|;
        typeSpeed := DeletedPause;
      }
      delay := typeSpeed;
    }
  }
}
