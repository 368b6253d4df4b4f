/** The media carousel of the ProjectCard component: a slide index over a project's
    fixed, non-empty media list, moved by the previous/next controls and by a repeating
    interval that is installed only while the mouse is away and there is more than one
    slide. The interval's 3000 ms period is not modelled; each elapsed period is an event. */
module ProjectCard {

  datatype MediaType = Image | Video
  datatype Frame = Browser | Phone

  /** One entry of `project.media`. */
  datatype ProjectMedia = ProjectMedia(kind: MediaType, src: string, frame: Frame)

  // ---------------------------------------------------------------------------
  // The two index updaters

  /** `(prev) => (prev + 1) % n`: the following slide, the first after the last. */
  function NextSlide(i: nat, n: nat): (r: nat)
    requires n > 0
    ensures r < n
    ensures i < n ==> r == if i == n - 1 then 0 else i + 1
  {
    (i + 1) % n
  }

  /** `(prev) => (prev - 1 + n) % n`: the preceding slide, the last before the first.
      The dividend is never negative, so JavaScript's `%` and Dafny's agree. */
  function PrevSlide(i: nat, n: nat): (r: nat)
    requires n > 0
    ensures r < n
    ensures i < n ==> r == if i == 0 then n - 1 else i - 1
  {
    (i - 1 + n) % n
  }

  /** Previous undoes next. */
  lemma PrevAfterNext(i: nat, n: nat)
    requires i < n
    ensures PrevSlide(NextSlide(i, n), n) == i
  {
  }

  /** Next undoes previous. */
  lemma NextAfterPrev(i: nat, n: nat)
    requires i < n
    ensures NextSlide(PrevSlide(i, n), n) == i
  {
  }

  lemma MulAtLeast(k: int, n: int)
    requires k >= 1 && n > 0
    ensures k * n >= n
  {
  }

  /** Euclidean division has a unique remainder. */
  lemma ModUnique(x: int, n: int, q: int, r: int)
    requires n > 0 && 0 <= r < n && x == q * n + r
    ensures x % n == r
  {
    var q', r' := x / n, x % n;
    assert x == q' * n + r';
    assert (q - q') * n == r' - r;
    if q > q' {
      MulAtLeast(q - q', n);
    } else if q < q' {
      MulAtLeast(q' - q, n);
    }
  }

  /** Adding to a remainder: ((a % n) + b) % n == (a + b) % n. */
  lemma ModAdd(a: nat, b: nat, n: nat)
    requires n > 0
    ensures ((a % n) + b) % n == (a + b) % n
  {
    var c := (a % n) + b;
    assert a == (a / n) * n + a % n;
    assert c == (c / n) * n + c % n;
    assert a + b == (a / n + c / n) * n + c % n;
    ModUnique(a + b, n, a / n + c / n, c % n);
  }

  /** k presses of next. */
  function NextN(i: nat, n: nat, k: nat): (r: nat)
    requires n > 0 && i < n
    ensures r < n
    decreases k
  {
    if k == 0 then i else NextSlide(NextN(i, n, k - 1), n)
  }

  /** k presses of next move the index forward by k, modulo n. */
  lemma {:induction false} NextNIsAdd(i: nat, n: nat, k: nat)
    requires i < n
    ensures NextN(i, n, k) == (i + k) % n
    decreases k
  {
    if k > 0 {
      NextNIsAdd(i, n, k - 1);
      ModAdd(i + k - 1, 1, n);
    }
  }

  /** n presses of next return to the starting slide. */
  lemma NextNCycle(i: nat, n: nat)
    requires i < n
    ensures NextN(i, n, n) == i
  {
    NextNIsAdd(i, n, n);
    ModUnique(i + n, n, 1, i);
  }

  // ---------------------------------------------------------------------------
  // The carousel's state and events

  /** `(currentSlide, isPaused)` of one card. */
  datatype Slideshow = Slideshow(currentSlide: nat, isPaused: bool)

  /** The state on mount. */
  function Init(): (r: Slideshow)
    ensures r.currentSlide == 0 && !r.isPaused
  {
    Slideshow(0, false)
  }

  datatype Event =
    | ClickNext        // the next button
    | ClickPrev        // the previous button
    | MouseEntered     // onMouseEnter of the visual column
    | MouseLeft        // onMouseLeave of the visual column
    | IntervalElapsed  // one period of the auto-advance interval, if one is installed

  /** The effect installs the auto-advance interval exactly when this holds: the mouse is
      away and a next would actually move the slide. */
  predicate AutoAdvancing(s: Slideshow, n: nat): (r: bool)
    ensures r ==> ControlsVisible(n)
    ensures s.currentSlide < n ==> (r <==> !s.isPaused && NextSlide(s.currentSlide, n) != s.currentSlide)
  {
    !s.isPaused && n > 1
  }

  /** The previous/next buttons and the dots are rendered exactly when this holds: when
      every press of either button would move the slide. */
  predicate ControlsVisible(n: nat): (r: bool)
    ensures n > 0 ==> (r <==> forall i :: 0 <= i < n ==> NextSlide(i, n) != i && PrevSlide(i, n) != i)
  {
    assert n == 1 ==> NextSlide(0, n) == 0;
    n > 1
  }

  /** One event on a carousel over n slides. */
  function Apply(s: Slideshow, n: nat, e: Event): (r: Slideshow)
    requires n > 0
    ensures s.currentSlide < n ==> r.currentSlide < n
    ensures e.MouseEntered? ==> r.isPaused && r.currentSlide == s.currentSlide
    ensures e.MouseLeft? ==> !r.isPaused && r.currentSlide == s.currentSlide
    ensures !e.MouseEntered? && !e.MouseLeft? ==> r.isPaused == s.isPaused
    ensures e.IntervalElapsed? && !AutoAdvancing(s, n) ==> r == s
  {
    match e
    case ClickNext => s.(currentSlide := NextSlide(s.currentSlide, n))
    case ClickPrev => s.(currentSlide := PrevSlide(s.currentSlide, n))
    case MouseEntered => s.(isPaused := true)
    case MouseLeft => s.(isPaused := false)
    case IntervalElapsed =>
      if AutoAdvancing(s, n) then s.(currentSlide := NextSlide(s.currentSlide, n)) else s
  }

  /** A sequence of events, in order. */
  function Run(s: Slideshow, n: nat, es: seq<Event>): Slideshow
    requires n > 0
    decreases |es|
  {
    if es == [] then s else Run(Apply(s, n, es[0]), n, es[1..])
  }

  /** The slide index stays in [0, n) under any events, so `project.media[currentSlide]`
      is always a valid access. */
  lemma {:induction false} RunInBounds(s: Slideshow, n: nat, es: seq<Event>)
    requires s.currentSlide < n
    ensures Run(s, n, es).currentSlide < n
    decreases |es|
  {
    if es != [] {
      RunInBounds(Apply(s, n, es[0]), n, es[1..]);
    }
  }

  predicate OnlyTicks(es: seq<Event>)
  {
    forall i :: 0 <= i < |es| ==> es[i].IntervalElapsed?
  }

  /** Without an installed interval (paused, or at most one slide) no amount of elapsed
      time moves the carousel. */
  lemma {:induction false} TicksWithoutIntervalDoNothing(s: Slideshow, n: nat, es: seq<Event>)
    requires n > 0 && !AutoAdvancing(s, n) && OnlyTicks(es)
    ensures Run(s, n, es) == s
    decreases |es|
  {
    if es != [] {
      assert es[0].IntervalElapsed?;
      TicksWithoutIntervalDoNothing(s, n, es[1..]);
    }
  }

  /** With the interval installed, each elapsed period performs exactly one next. */
  lemma {:induction false} TicksAdvance(s: Slideshow, n: nat, es: seq<Event>)
    requires AutoAdvancing(s, n) && s.currentSlide < n && OnlyTicks(es)
    ensures Run(s, n, es) == Slideshow(NextN(s.currentSlide, n, |es|), false)
    decreases |es|
  {
    if es != [] {
      assert es[0].IntervalElapsed?;
      var t := Apply(s, n, es[0]);
      assert t == Slideshow(NextSlide(s.currentSlide, n), false);
      TicksAdvance(t, n, es[1..]);
      NextNIsAdd(t.currentSlide, n, |es| - 1);
      NextNIsAdd(s.currentSlide, n, |es|);
      ModAdd(s.currentSlide + 1, |es| - 1, n);
    }
  }

  /** A carousel with a single slide never leaves it, whatever happens. */
  lemma SingleSlideStays(s: Slideshow, es: seq<Event>)
    requires s.currentSlide == 0
    ensures !ControlsVisible(1) && Run(s, 1, es).currentSlide == 0
  {
    RunInBounds(s, 1, es);
  }

  /** Leaving the carousel resumes auto-advance: the next elapsed period moves one slide. */
  lemma ResumeOnLeave(s: Slideshow, n: nat)
    requires n > 1 && s.currentSlide < n
    ensures Run(s, n, [MouseLeft, IntervalElapsed])
         == Slideshow(if s.currentSlide == n - 1 then 0 else s.currentSlide + 1, false)
  {
  }

  // ---------------------------------------------------------------------------
  // The dots

  /** `project.media.map((_, idx) => idx === currentSlide)`: which dots are highlighted. */
  function Dots(n: nat, current: nat): (r: seq<bool>)
    ensures |r| == n
  {
    seq(n, k => k == current)
  }

  lemma {:induction false} NoDotBeyond(n: nat, current: nat)
    requires n <= current
    ensures multiset(Dots(n, current))[true] == 0
  {
  }

  /** Exactly one dot is highlighted, and it is the current slide's. */
  lemma {:induction false} OneDotHighlighted(n: nat, current: nat)
    requires current < n
    ensures multiset(Dots(n, current))[true] == 1
    ensures Dots(n, current)[current]
  {
    assert Dots(n, current) == Dots(n - 1, current) + [n - 1 == current];
    if current == n - 1 {
      NoDotBeyond(n - 1, current);
    } else {
      OneDotHighlighted(n - 1, current);
    }
  }

  // ---------------------------------------------------------------------------
  // The component

  /** One mounted ProjectCard's carousel. */
  class Carousel {
    const media: seq<ProjectMedia>
    var currentSlide: nat
    var isPaused: bool

    function State(): Slideshow
      reads this
    {
      Slideshow(currentSlide, isPaused)
    }

    ghost predicate Valid()
      reads this
    {
      |media| > 0 && currentSlide < |media|
    }

    constructor (media: seq<ProjectMedia>)
      requires |media| > 0
      ensures this.media == media && State() == Init() && Valid()
    {
      this.media := media;
      currentSlide, isPaused := 0, false;
    }

    /** `const media = project.media[currentSlide]`. */
    method Shown() returns (m: ProjectMedia)
      requires Valid()
      ensures m == media[currentSlide] && m in media
    {
      m := media[currentSlide];
    }

    /** Whether the controls and dots are rendered, and which dots are highlighted. */
    method Controls() returns (visible: bool, dots: seq<bool>)
      requires Valid()
      ensures visible <==> |media| > 1
      ensures |dots| == |media|
      ensures forall k :: 0 <= k < |dots| ==> (dots[k] <==> k == currentSlide)
    {
      visible := ControlsVisible(|media|);
      dots := Dots(|media|, currentSlide);
    }

    method Next()
      requires Valid()
      modifies this
      ensures Valid() && State() == Apply(old(State()), |media|, ClickNext)
      ensures currentSlide == NextSlide(old(currentSlide), |media|) && isPaused == old(isPaused)
    {
      currentSlide := (currentSlide + 1) % |media|;
    }

    method Prev()
      requires Valid()
      modifies this
      ensures Valid() && State() == Apply(old(State()), |media|, ClickPrev)
      ensures currentSlide == PrevSlide(old(currentSlide), |media|) && isPaused == old(isPaused)
    {
      currentSlide := (currentSlide - 1 + |media|) % |media|;
    }

    method MouseEnter()
      requires Valid()
      modifies this
      ensures Valid() && State() == Apply(old(State()), |media|, MouseEntered)
      ensures isPaused && currentSlide == old(currentSlide)
    {
      isPaused := true;
    }

    method MouseLeave()
      requires Valid()
      modifies this
      ensures Valid() && State() == Apply(old(State()), |media|, MouseLeft)
      ensures !isPaused && currentSlide == old(currentSlide)
    {
      isPaused := false;
    }

    /** One period of the interval elapses; it exists only while the effect installed it. */
    method IntervalTick()
      requires Valid()
      modifies this
      ensures Valid() && State() == Apply(old(State()), |media|, IntervalElapsed)
      ensures currentSlide == (if AutoAdvancing(old(State()), |media|)
                               then NextSlide(old(currentSlide), |media|) else old(currentSlide))
      ensures isPaused == old(isPaused)
    {
      if !isPaused && |media| > 1 {
        currentSlide := (currentSlide + 1) % |media|;
      }
    }
  }
}
