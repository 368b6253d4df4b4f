/** The typewriter effect of the CyclingText component: the current word of a fixed
    list is typed one character per tick, held until a delayed switch fires, deleted
    one character per tick, and then the next word of the list (wrapping) is typed.

    Timers are events. A tick fires the effect's pending `setTimeout(handleTyping,
    typingSpeed)`; React re-runs the effect (and so sets a new tick timer) only when
    one of its dependencies changed value. A hold event fires one of the delayed
    `setTimeout(() => setIsDeleting(true), period)` callbacks, which are never
    cancelled. */
module CyclingText {

  /** The initial value of the typingSpeed state (milliseconds before the first tick). */
  const InitialSpeed: nat := 150
  /** The delay set by a tick taken while typing. */
  const TypingSpeed: nat := 100
  /** The delay set by a tick taken while deleting. */
  const DeletingSpeed: nat := 50

  // ---------------------------------------------------------------------------
  // JavaScript string helpers

  /** An index clamped into [0, len], as String.prototype.substring treats its arguments. */
  function Clamp(k: int, len: nat): (r: nat)
    ensures r <= len
    ensures 0 <= k <= len ==> r == k
  {
    if k < 0 then 0 else if k > len then len else k
  }

  /** String.prototype.substring(start, end): both indices clamped, swapped when start > end. */
  function Substring(s: string, start: int, end: int): (r: string)
    ensures 0 <= start <= end <= |s| ==> r == s[start..end]
    ensures start <= 0 ==> r == s[..Clamp(end, |s|)]
  {
    var a, b := Clamp(start, |s|), Clamp(end, |s|);
    if a <= b then s[a..b] else s[b..a]
  }

  // ---------------------------------------------------------------------------
  // The reserved-width word

  /** The reducer `(a, b) => (a.length > b.length ? a : b)`: on equal lengths the later word wins. */
  function Longer(a: string, b: string): string
  {
    if |a| > |b| then a else b
  }

  /** `words.reduce(Longer, "")`, folded from the left. */
  function LongestWord(words: seq<string>): (r: string)
    ensures forall i :: 0 <= i < |words| ==> |words[i]| <= |r|
    ensures |words| == 0 ==> r == ""
    ensures |words| > 0 ==> r in words
    decreases |words|
  {
    if |words| == 0 then "" else Longer(LongestWord(words[..|words| - 1]), words[|words| - 1])
  }

  /** Ties go to the later word: the result is the last word of maximal length. */
  lemma {:induction false} LongestWordIsLastLongest(words: seq<string>, j: nat)
    requires j < |words|
    requires forall i :: 0 <= i < j ==> |words[i]| <= |words[j]|
    requires forall i :: j < i < |words| ==> |words[i]| < |words[j]|
    ensures LongestWord(words) == words[j]
    decreases |words|
  {
    var init := words[..|words| - 1];
    if j == |words| - 1 {
      var l := LongestWord(init);
      if l != "" {
        var i :| 0 <= i < |init| && init[i] == l;
        assert words[i] == l;
      }
    } else {
      assert forall i :: 0 <= i < j ==> init[i] == words[i];
      assert forall i :: j < i < |init| ==> init[i] == words[i];
      LongestWordIsLastLongest(init, j);
    }
  }

  // ---------------------------------------------------------------------------
  // The cycler's state and its two events

  /** The state of one mounted CyclingText. */
  datatype Cycler = Cycler(
    text: string,        // the text displayed
    isDeleting: bool,
    loopNum: nat,        // how many words have been deleted completely
    typingSpeed: nat,    // the delay of the next tick
    pendingHolds: nat,   // delayed switches to deleting scheduled and not yet fired
    tickArmed: bool)     // the effect has set a tick timer that has not fired yet

  /** The state on mount: nothing typed, the effect has run once and set its tick timer. */
  function Init(): (r: Cycler)
    ensures r.text == "" && !r.isDeleting && r.loopNum == 0 && r.typingSpeed == InitialSpeed
    ensures r.pendingHolds == 0 && r.tickArmed
  {
    Cycler("", false, 0, InitialSpeed, 0, true)
  }

  /** `words[loopNum % words.length]`; in bounds because the list is non-empty. */
  function CurrentWord(words: seq<string>, s: Cycler): (r: string)
    requires |words| > 0
    ensures r in words
  {
    words[s.loopNum % |words|]
  }

  /** What any state reachable from Init shows: a prefix of the current word. */
  predicate ShowsPrefix(words: seq<string>, s: Cycler)
    requires |words| > 0
  {
    s.text <= CurrentWord(words, s)
  }

  /** `handleTyping` run by the tick timer. Every setter reads the state of the render the
      effect belongs to; the effect is re-armed when a dependency changed value. */
  function TickStep(words: seq<string>, s: Cycler): (r: Cycler)
    requires |words| > 0
    ensures r.text <= CurrentWord(words, r)
  {
    var fullText := CurrentWord(words, s);
    var text := if s.isDeleting then Substring(fullText, 0, |s.text| - 1)
                else Substring(fullText, 0, |s.text| + 1);
    var speed := if s.isDeleting then DeletingSpeed else TypingSpeed;
    var hold := !s.isDeleting && s.text == fullText;
    var wrap := !hold && s.isDeleting && s.text == "";
    var isDeleting := if wrap then false else s.isDeleting;
    var loopNum := if wrap then s.loopNum + 1 else s.loopNum;
    Cycler(text, isDeleting, loopNum, speed,
           if hold then s.pendingHolds + 1 else s.pendingHolds,
           text != s.text || isDeleting != s.isDeleting || loopNum != s.loopNum || speed != s.typingSpeed)
  }

  /** One delayed `setIsDeleting(true)` fires; when it changes the flag the effect re-runs. */
  function HoldStep(s: Cycler): (r: Cycler)
    requires s.pendingHolds > 0
    ensures r.isDeleting && r.pendingHolds == s.pendingHolds - 1
    ensures r.text == s.text && r.loopNum == s.loopNum && r.typingSpeed == s.typingSpeed
    ensures r.tickArmed == (s.tickArmed || !s.isDeleting)
  {
    Cycler(s.text, true, s.loopNum, s.typingSpeed, s.pendingHolds - 1, s.tickArmed || !s.isDeleting)
  }

  /** A typing tick appends the next character of the word and a deleting tick removes the
      last character; the two ticks that leave the length alone are the one that schedules
      the hold (word complete) and the one that moves to the next word (nothing left). */
  lemma TickText(words: seq<string>, s: Cycler)
    requires |words| > 0 && ShowsPrefix(words, s)
    ensures var w, r := CurrentWord(words, s), TickStep(words, s);
      && (!s.isDeleting && s.text != w ==> r.text == s.text + [w[|s.text|]])
      && (!s.isDeleting && s.text == w ==> r.text == s.text)
      && (s.isDeleting && s.text != "" ==> r.text == s.text[..|s.text| - 1])
      && (s.isDeleting && s.text == "" ==> r.text == "")
  {
  }

  /** The speed of the next tick follows the mode of the tick just taken; the hold is
      scheduled exactly on a typing tick that sees the whole word; the word index advances
      by one (and typing resumes) exactly on a deleting tick that sees nothing left. */
  lemma TickControl(words: seq<string>, s: Cycler)
    requires |words| > 0
    ensures var w, r := CurrentWord(words, s), TickStep(words, s);
      && r.typingSpeed == (if s.isDeleting then DeletingSpeed else TypingSpeed)
      && (r.pendingHolds == s.pendingHolds + 1 <==> !s.isDeleting && s.text == w)
      && (r.pendingHolds == s.pendingHolds || r.pendingHolds == s.pendingHolds + 1)
      && (r.loopNum == s.loopNum + 1 <==> s.isDeleting && s.text == "")
      && (r.loopNum == s.loopNum || r.loopNum == s.loopNum + 1)
      && (r.isDeleting != s.isDeleting <==> s.isDeleting && s.text == "")
  {
  }

  /** Every tick keeps the displayed text a prefix of the current word. */
  lemma TickKeepsPrefix(words: seq<string>, s: Cycler)
    requires |words| > 0 && ShowsPrefix(words, s)
    ensures ShowsPrefix(words, TickStep(words, s))
    ensures |TickStep(words, s).text| <= |CurrentWord(words, TickStep(words, s))|
  {
  }

  /** The hold event keeps the displayed text a prefix of the current word. */
  lemma HoldKeepsPrefix(words: seq<string>, s: Cycler)
    requires |words| > 0 && ShowsPrefix(words, s) && s.pendingHolds > 0
    ensures ShowsPrefix(words, HoldStep(s))
  {
  }

  // ---------------------------------------------------------------------------
  // Runs of the cycler

  /** Every word of the list has at least one character. */
  predicate AllNonEmpty(words: seq<string>)
  {
    forall i :: 0 <= i < |words| ==> words[i] != ""
  }

  /** The next event: the tick timer when one is set, otherwise a pending hold. Whenever
      exactly one of the two is pending, which WellFormed guarantees, the event is that
      timer's: the choice is never arbitrary. */
  function Advance(words: seq<string>, s: Cycler): (r: Cycler)
    requires |words| > 0
    ensures s.tickArmed == (s.pendingHolds == 0) ==>
      if s.tickArmed then r == TickStep(words, s) else r == HoldStep(s)
  {
    if s.tickArmed then TickStep(words, s)
    else if s.pendingHolds > 0 then HoldStep(s)
    else s
  }

  /** The state after k events. */
  function AdvanceN(words: seq<string>, s: Cycler, k: nat): Cycler
    requires |words| > 0
    decreases k
  {
    if k == 0 then s else AdvanceN(words, Advance(words, s), k - 1)
  }

  /** The texts displayed by the states s, Advance(s), ..., after k events. */
  function Trace(words: seq<string>, s: Cycler, k: nat): (r: seq<string>)
    requires |words| > 0
    ensures |r| == k + 1 && r[0] == s.text
    decreases k
  {
    [s.text] + if k == 0 then [] else Trace(words, Advance(words, s), k - 1)
  }

  /** The invariant of a cycler over non-empty words: the text is a prefix of the current
      word, and exactly one timer is waiting — the tick timer, or a single hold that was
      scheduled on the whole word (with the typing delay in place, so that the scheduling
      tick changed nothing and left the tick timer unset). */
  predicate WellFormed(words: seq<string>, s: Cycler)
    requires |words| > 0
  {
    && ShowsPrefix(words, s)
    && s.pendingHolds <= 1
    && (s.pendingHolds == 1 <==> !s.tickArmed)
    && (s.pendingHolds == 1 ==> !s.isDeleting && s.text == CurrentWord(words, s))
    && (!s.isDeleting && s.text == CurrentWord(words, s) ==> s.typingSpeed == TypingSpeed)
  }

  lemma InitWellFormed(words: seq<string>)
    requires |words| > 0 && AllNonEmpty(words)
    ensures WellFormed(words, Init())
  {
  }

  /** Each event preserves the invariant, so the cycler never double-schedules a hold and
      never stops: at every moment exactly one of the two timers is waiting. */
  lemma AdvanceWellFormed(words: seq<string>, s: Cycler)
    requires |words| > 0 && AllNonEmpty(words) && WellFormed(words, s)
    ensures WellFormed(words, Advance(words, s))
    ensures s.tickArmed != (s.pendingHolds > 0)
  {
  }

  lemma {:induction false} AdvanceNWellFormed(words: seq<string>, s: Cycler, k: nat)
    requires |words| > 0 && AllNonEmpty(words) && WellFormed(words, s)
    ensures WellFormed(words, AdvanceN(words, s, k))
    decreases k
  {
    if k > 0 {
      AdvanceWellFormed(words, s);
      AdvanceNWellFormed(words, Advance(words, s), k - 1);
    }
  }

  lemma {:induction false} AdvanceNAdd(words: seq<string>, s: Cycler, a: nat, b: nat)
    requires |words| > 0
    ensures AdvanceN(words, s, a + b) == AdvanceN(words, AdvanceN(words, s, a), b)
    decreases a
  {
    if a > 0 {
      AdvanceNAdd(words, Advance(words, s), a - 1, b);
    }
  }

  /** Typing ticks complete the word, one character each. */
  lemma {:induction false} TypeRest(words: seq<string>, s: Cycler)
    requires |words| > 0
    requires !s.isDeleting && s.pendingHolds == 0 && s.tickArmed
    requires s.text < CurrentWord(words, s)
    ensures AdvanceN(words, s, |CurrentWord(words, s)| - |s.text|)
         == Cycler(CurrentWord(words, s), false, s.loopNum, TypingSpeed, 0, true)
    decreases |CurrentWord(words, s)| - |s.text|
  {
    var w := CurrentWord(words, s);
    TickText(words, s);
    var r := TickStep(words, s);
    assert r.text == w[..|s.text| + 1];
    assert r == Cycler(w[..|s.text| + 1], false, s.loopNum, TypingSpeed, 0, true);
    if |s.text| + 1 < |w| {
      TypeRest(words, r);
    } else {
      assert w[..|s.text| + 1] == w;
    }
  }

  /** Deleting ticks empty the text, one character each. */
  lemma {:induction false} DeleteRest(words: seq<string>, s: Cycler)
    requires |words| > 0
    requires s.isDeleting && s.pendingHolds == 0 && s.tickArmed
    requires ShowsPrefix(words, s) && s.text != ""
    ensures AdvanceN(words, s, |s.text|) == Cycler("", true, s.loopNum, DeletingSpeed, 0, true)
    decreases |s.text|
  {
    TickText(words, s);
    TickKeepsPrefix(words, s);
    var r := TickStep(words, s);
    assert r == Cycler(s.text[..|s.text| - 1], true, s.loopNum, DeletingSpeed, 0, true);
    if |s.text| > 1 {
      DeleteRest(words, r);
    }
  }

  /** A cycler at the start of a word (nothing shown, typing) returns to the start of the
      next word after 2|w| + 3 events: |w| typing ticks, the tick that schedules the hold,
      the hold, |w| deleting ticks and the tick that advances the word index. */
  lemma WordCycle(words: seq<string>, loopNum: nat, speed: nat)
    requires |words| > 0
    requires CurrentWord(words, Cycler("", false, loopNum, speed, 0, true)) != ""
    ensures var w := words[loopNum % |words|];
      AdvanceN(words, Cycler("", false, loopNum, speed, 0, true), 2 * |w| + 3)
      == Cycler("", false, loopNum + 1, DeletingSpeed, 0, true)
  {
    var s0 := Cycler("", false, loopNum, speed, 0, true);
    var w := CurrentWord(words, s0);
    var n := |w|;
    var s1 := Cycler(w, false, loopNum, TypingSpeed, 0, true);
    var s3 := Cycler(w, true, loopNum, TypingSpeed, 0, true);
    var s4 := Cycler("", true, loopNum, DeletingSpeed, 0, true);
    var s5 := Cycler("", false, loopNum + 1, DeletingSpeed, 0, true);
    TypeRest(words, s0);
    assert AdvanceN(words, s0, n) == s1;
    HoldAndSwitch(words, loopNum);
    AdvanceNAdd(words, s0, n, 2);
    assert AdvanceN(words, s0, n + 2) == s3;
    DeleteRest(words, s3);
    assert AdvanceN(words, s3, n) == s4;
    AdvanceNAdd(words, s0, n + 2, n);
    assert AdvanceN(words, s0, 2 * n + 2) == s4;
    NextWord(words, loopNum);
    AdvanceNAdd(words, s0, 2 * n + 2, 1);
  }

  /** On the whole word, the scheduling tick and the hold switch the cycler to deleting. */
  lemma HoldAndSwitch(words: seq<string>, loopNum: nat)
    requires |words| > 0
    ensures var w := words[loopNum % |words|];
      AdvanceN(words, Cycler(w, false, loopNum, TypingSpeed, 0, true), 2)
      == Cycler(w, true, loopNum, TypingSpeed, 0, true)
  {
    var w := words[loopNum % |words|];
    var s1 := Cycler(w, false, loopNum, TypingSpeed, 0, true);
    var s2 := Cycler(w, false, loopNum, TypingSpeed, 1, false);
    assert Advance(words, s1) == s2;
    assert Advance(words, s2) == Cycler(w, true, loopNum, TypingSpeed, 0, true);
  }

  /** With nothing left to delete, one tick moves to the next word and resumes typing. */
  lemma NextWord(words: seq<string>, loopNum: nat)
    requires |words| > 0
    ensures AdvanceN(words, Cycler("", true, loopNum, DeletingSpeed, 0, true), 1)
         == Cycler("", false, loopNum + 1, DeletingSpeed, 0, true)
  {
    assert Advance(words, Cycler("", true, loopNum, DeletingSpeed, 0, true))
        == Cycler("", false, loopNum + 1, DeletingSpeed, 0, true);
  }

  /** The number of events needed to type, hold and delete the first k words of the cycle. */
  function CycleSteps(words: seq<string>, k: nat): nat
    requires |words| > 0
  {
    if k == 0 then 0 else CycleSteps(words, k - 1) + 2 * |words[(k - 1) % |words|]| + 3
  }

  /** The words are visited in order, forever: after the first k words have been typed,
      held and deleted, the cycler shows nothing and types word k mod |words| next. */
  lemma {:induction false} VisitsWordsInOrder(words: seq<string>, k: nat)
    requires |words| > 0 && AllNonEmpty(words)
    ensures AdvanceN(words, Init(), CycleSteps(words, k))
         == Cycler("", false, k, if k == 0 then InitialSpeed else DeletingSpeed, 0, true)
    ensures CurrentWord(words, AdvanceN(words, Init(), CycleSteps(words, k))) == words[k % |words|]
  {
    if k > 0 {
      var j := k - 1;
      VisitsWordsInOrder(words, j);
      var speed := if j == 0 then InitialSpeed else DeletingSpeed;
      var w := words[j % |words|];
      assert w != "";
      var before := CycleSteps(words, j);
      assert AdvanceN(words, Init(), before) == Cycler("", false, j, speed, 0, true);
      WordCycle(words, j, speed);
      AdvanceNAdd(words, Init(), before, 2 * |w| + 3);
      assert CycleSteps(words, k) == before + (2 * |w| + 3);
    }
  }

  /** A run of states, each obtained from the one before by Advance, displays their texts. */
  lemma {:induction false} TraceOfRun(words: seq<string>, states: seq<Cycler>)
    requires |words| > 0 && |states| > 0
    requires forall i :: 0 <= i < |states| - 1 ==> Advance(words, states[i]) == states[i + 1]
    ensures Trace(words, states[0], |states| - 1) == seq(|states|, i requires 0 <= i < |states| => states[i].text)
    decreases |states|
  {
    if |states| > 1 {
      TraceOfRun(words, states[1..]);
    }
  }

  /** The states of the two-word run from mount. */
  function TwoWordRun(): seq<Cycler>
  {
    [ Init(),
      Cycler("A", false, 0, TypingSpeed, 0, true),
      Cycler("A", false, 0, TypingSpeed, 1, false),
      Cycler("A", true, 0, TypingSpeed, 0, true),
      Cycler("", true, 0, DeletingSpeed, 0, true),
      Cycler("", false, 1, DeletingSpeed, 0, true),
      Cycler("B", false, 1, TypingSpeed, 0, true),
      Cycler("BB", false, 1, TypingSpeed, 0, true),
      Cycler("BB", false, 1, TypingSpeed, 1, false),
      Cycler("BB", true, 1, TypingSpeed, 0, true),
      Cycler("B", true, 1, DeletingSpeed, 0, true),
      Cycler("", true, 1, DeletingSpeed, 0, true),
      Cycler("", false, 2, DeletingSpeed, 0, true),
      Cycler("A", false, 2, TypingSpeed, 0, true)]
  }

  lemma TwoWordStepsFirst()
    ensures Advance(["A", "BB"], TwoWordRun()[0]) == TwoWordRun()[1]
    ensures Advance(["A", "BB"], TwoWordRun()[1]) == TwoWordRun()[2]
    ensures Advance(["A", "BB"], TwoWordRun()[2]) == TwoWordRun()[3]
    ensures Advance(["A", "BB"], TwoWordRun()[3]) == TwoWordRun()[4]
    ensures Advance(["A", "BB"], TwoWordRun()[4]) == TwoWordRun()[5]
  {
  }

  lemma TwoWordStepsSecond()
    ensures Advance(["A", "BB"], TwoWordRun()[5]) == TwoWordRun()[6]
    ensures Advance(["A", "BB"], TwoWordRun()[6]) == TwoWordRun()[7]
    ensures Advance(["A", "BB"], TwoWordRun()[7]) == TwoWordRun()[8]
    ensures Advance(["A", "BB"], TwoWordRun()[8]) == TwoWordRun()[9]
  {
  }

  lemma TwoWordStepsThird()
    ensures Advance(["A", "BB"], TwoWordRun()[9]) == TwoWordRun()[10]
    ensures Advance(["A", "BB"], TwoWordRun()[10]) == TwoWordRun()[11]
    ensures Advance(["A", "BB"], TwoWordRun()[11]) == TwoWordRun()[12]
    ensures Advance(["A", "BB"], TwoWordRun()[12]) == TwoWordRun()[13]
  {
  }

  /** The two-word run from mount: "A" is typed and held, deleted, then "B", "BB" typed and
      held, deleted, and "A" again. */
  lemma TwoWordTrace()
    ensures Trace(["A", "BB"], Init(), 13)
         == ["", "A", "A", "A", "", "", "B", "BB", "BB", "BB", "B", "", "", "A"]
  {
    TwoWordStepsFirst();
    TwoWordStepsSecond();
    TwoWordStepsThird();
    TraceOfRun(["A", "BB"], TwoWordRun());
  }

  // ---------------------------------------------------------------------------
  // The component

  /** One mounted CyclingText; its fields are the component's state hooks plus the two
      kinds of pending timers. */
  class Typewriter {
    const words: seq<string>
    var text: string
    var isDeleting: bool
    var loopNum: nat
    var typingSpeed: nat
    var pendingHolds: nat
    var tickArmed: bool

    function State(): Cycler
      reads this
    {
      Cycler(text, isDeleting, loopNum, typingSpeed, pendingHolds, tickArmed)
    }

    /** The text is a prefix of the current word; over non-empty words exactly one timer
        is pending, as WellFormed says. */
    ghost predicate Valid()
      reads this
    {
      && |words| > 0 && ShowsPrefix(words, State())
      && (AllNonEmpty(words) ==> WellFormed(words, State()))
    }

    constructor (words: seq<string>)
      requires |words| > 0
      ensures this.words == words && State() == Init() && Valid()
    {
      this.words := words;
      text, isDeleting, loopNum, typingSpeed := "", false, 0, InitialSpeed;
      pendingHolds, tickArmed := 0, true;
    }

    /** The width reserved for the text: the longest word. */
    method ReservedWord() returns (r: string)
      ensures forall i :: 0 <= i < |words| ==> |words[i]| <= |r|
      ensures |words| > 0 ==> r in words
    {
      r := LongestWord(words);
    }

    /** The tick timer fires and `handleTyping` runs. */
    method Tick()
      requires Valid() && tickArmed
      modifies this
      ensures State() == TickStep(words, old(State())) && Valid()
    {
      var fullText := words[loopNum % |words|];
      var newText := if isDeleting then Substring(fullText, 0, |text| - 1)
                     else Substring(fullText, 0, |text| + 1);
      var newSpeed := if isDeleting then DeletingSpeed else TypingSpeed;
      var newDeleting, newLoop, newHolds := isDeleting, loopNum, pendingHolds;
      if !isDeleting && text == fullText {
        newHolds := pendingHolds + 1;
      } else if isDeleting && text == "" {
        newDeleting, newLoop := false, loopNum + 1;
      }
      tickArmed := newText != text || newDeleting != isDeleting
                   || newLoop != loopNum || newSpeed != typingSpeed;
      text, isDeleting, loopNum, typingSpeed, pendingHolds
        := newText, newDeleting, newLoop, newSpeed, newHolds;
      TickKeepsPrefix(words, old(State()));
      if AllNonEmpty(words) {
        AdvanceWellFormed(words, old(State()));
      }
    }

    /** A delayed switch to deleting fires. */
    method HoldElapsed()
      requires Valid() && pendingHolds > 0
      modifies this
      ensures State() == HoldStep(old(State())) && Valid()
    {
      tickArmed := tickArmed || !isDeleting;
      isDeleting := true;
      pendingHolds := pendingHolds - 1;
      if AllNonEmpty(words) {
        AdvanceWellFormed(words, old(State()));
      }
    }
  }
}
