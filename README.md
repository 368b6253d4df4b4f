# Portfolio UI state machines in Dafny

The portfolio site is almost entirely markup. Three of its components hold sequential
logic, and each is modelled here as an explicit state machine. Timers become events.

- **CyclingText** (`cycling_text.dfy`, module `CyclingText`) is the typewriter effect.
  Its state is `(text, isDeleting, loopNum, typingSpeed)`. `handleTyping` advances it
  one tick at a time: it types the current word `words[loopNum % words.length]` one
  character per tick, waits for the delayed switch to deleting, deletes one character
  per tick, then moves to the next word, wrapping around the list. The `longestWord`
  reduction (used to reserve layout width) is a function.
  The model also tracks the two kinds of pending timers:
  - `tickArmed`: React re-runs the effect, and so sets a new tick timer, only when one
    of its dependencies changed value.
  - `pendingHolds`: the delayed `setIsDeleting(true)` callbacks, which are never
    cancelled.

  With non-empty words, exactly one of the two is waiting at any moment. Proving that
  property is what shows a single hold per word and no stall.
- **ProjectCard** (`project_card.dfy`, module `ProjectCard`) is the media carousel of
  `Work.tsx`. It holds `(currentSlide, isPaused)` over a fixed, non-empty media list.
  It has the modular `nextSlide` and `prevSlide` updaters, and hover pausing. The
  auto-advance interval exists only while the carousel is not paused and has more than
  one slide. The controls and dots are shown only when there is more than one slide.
- **ContactForm** (`contact_form.dfy`, module `ContactForm`) is the submission flow of
  `Contact.tsx`. It holds `formData` (four strings), `isSubmitting` and a status in
  {idle, success, error}, plus the pending 5-second reset timers. The request's result
  is an `Outcome` parameter: a response with a true or false success flag, or a thrown
  error.

Each module is built the same way:
- a value-level state datatype with one transition function per event, and lemmas
  about runs of events;
- a class whose methods update the component's fields in place, as the hooks do. Each
  method's `ensures` ties the new state to the transition function applied to the old
  state.

Observations from the code:
- The form renders no input named `name`. `formData.name` therefore stays `""`, and
  every request carries an empty name (`ContactForm.NameStaysEmpty`).
- A submit can start from the success or the error status, not only from idle. The
  only thing that blocks it is `disabled={isSubmitting}`. The model follows the code
  here.
- The typing speed reflects the kind of tick just taken. On the tick that moves to the
  next word, `isDeleting` becomes false while the speed is still 50. The same holds for
  the mount value 150.
- With an empty word list, `loopNum % 0` is `NaN`, `words[NaN]` is `undefined`, and the
  first tick throws a `TypeError` on `undefined.substring` inside the timer callback. The
  component stays mounted showing `""`, and no further tick is ever scheduled. So the
  cycler requires a non-empty list. A word that is itself empty does not crash, but it can schedule more
  than one hold. The single-hold invariant is therefore stated for lists of non-empty
  words.

## Model

| member | source | states |
|---|---|---|
| `CyclingText.Substring` | src/components/ui/CyclingText.tsx:25-29 | JavaScript `substring` semantics: within range it is the slice; from index 0 it is the prefix up to the clamped end, so `-1` gives `""` |
| `CyclingText.LongestWord` | src/components/ui/CyclingText.tsx:16-18 | the reduced word is at least as long as every word, is `""` for an empty list and otherwise is one of the words |
| `CyclingText.LongestWordIsLastLongest` | src/components/ui/CyclingText.tsx:17 | because the comparison is strict, the result is the last word of maximal length (later words win ties) |
| `CyclingText.Init` | src/components/ui/CyclingText.tsx:11-14 | on mount: empty text, typing, loop 0, speed 150, no hold pending, the first tick timer set |
| `CyclingText.CurrentWord` | src/components/ui/CyclingText.tsx:22-23 | the word at index `loopNum` modulo the list length is an element of the non-empty list (the index is always in bounds) |
| `CyclingText.HoldStep` | src/components/ui/CyclingText.tsx:34 | a delayed switch sets deleting and consumes one pending hold, leaves text, loop and speed alone, and re-arms the tick exactly when the flag changed |
| `CyclingText.TickStep` | src/components/ui/CyclingText.tsx:21-39 | `handleTyping`: from any state, the text after a tick is a prefix of the word the next tick works on; its other effects are stated by `TickText` and `TickControl` |
| `CyclingText.TickText` | src/components/ui/CyclingText.tsx:25-29 | a typing tick appends the next character of the word; a deleting tick removes the last character; the text is unchanged on the tick that sees the whole word, and stays `""` on the tick that sees nothing left |
| `CyclingText.TickControl` | src/components/ui/CyclingText.tsx:31-38 | after a tick the speed is 50 if it was a deleting tick and 100 otherwise; a hold is scheduled exactly when typing and the text is the whole word; `loopNum` grows by exactly one and `isDeleting` flips exactly on a deleting tick with `""` |
| `CyclingText.TickKeepsPrefix` | src/components/ui/CyclingText.tsx:22-29 | every tick keeps the text a prefix of the current word, so never longer than it |
| `CyclingText.HoldKeepsPrefix` | src/components/ui/CyclingText.tsx:34 | the delayed switch keeps the text a prefix of the current word |
| `CyclingText.Advance` | src/components/ui/CyclingText.tsx:34-41 | which timer fires next: when exactly one of the tick timer and the hold callbacks is pending (as the invariant guarantees), the event is that timer's tick or hold |
| `CyclingText.InitWellFormed` | src/components/ui/CyclingText.tsx:11-14 | the mount state satisfies the cycler invariant when every word is non-empty |
| `CyclingText.AdvanceWellFormed` | src/components/ui/CyclingText.tsx:21-43 | each event keeps the invariant (prefix; at most one hold pending, and only on the whole word; a pending hold exactly when no tick timer is set), so exactly one timer is waiting at any time |
| `CyclingText.AdvanceNWellFormed` | src/components/ui/CyclingText.tsx:21-43 | the invariant holds after any number of events |
| `CyclingText.TypeRest` | src/components/ui/CyclingText.tsx:25-31 | from a proper prefix, typing ticks complete the word one character each, with the typing speed in place |
| `CyclingText.DeleteRest` | src/components/ui/CyclingText.tsx:25-31 | from a non-empty prefix, deleting ticks empty the text one character each |
| `CyclingText.WordCycle` | src/components/ui/CyclingText.tsx:21-43 | from the start of a non-empty word of length L, 2L+3 events (type, schedule hold, hold, delete, advance) lead to the start of the next word |
| `CyclingText.HoldAndSwitch` | src/components/ui/CyclingText.tsx:31-35 | on the whole word, the tick that schedules the hold and then the hold itself switch the cycler to deleting, text unchanged |
| `CyclingText.NextWord` | src/components/ui/CyclingText.tsx:35-38 | with nothing left to delete, one tick moves to the next word and resumes typing |
| `CyclingText.VisitsWordsInOrder` | src/components/ui/CyclingText.tsx:21-43 | the words are visited in list order, forever: after k complete words the cycler is at the start of word k modulo the list length |
| `CyclingText.TwoWordTrace` | src/components/ui/CyclingText.tsx:10-43 | for words ["A", "BB"] the displayed texts from mount are "", "A" (held), "", "B", "BB" (held), "B", "", "A" |
| `CyclingText.Typewriter.constructor` | src/components/ui/CyclingText.tsx:10-14 | a mounted cycler starts in the mount state, which satisfies the class invariant (prefix, and exactly one timer pending over non-empty words) |
| `CyclingText.Typewriter.ReservedWord` | src/components/ui/CyclingText.tsx:16-18 | the width-reserving word is at least as long as every word and is one of them |
| `CyclingText.Typewriter.Tick` | src/components/ui/CyclingText.tsx:21-41 | the tick updates the fields exactly as the tick transition does and keeps the class invariant: the prefix, and over non-empty words exactly one timer pending |
| `CyclingText.Typewriter.HoldElapsed` | src/components/ui/CyclingText.tsx:34 | the delayed switch updates the fields exactly as the hold transition does and keeps the class invariant: the prefix, and over non-empty words exactly one timer pending |
| `ProjectCard.NextSlide` | src/components/Work.tsx:176-178 | the next index is in [0, n): the following index, or 0 after the last |
| `ProjectCard.PrevSlide` | src/components/Work.tsx:180-184 | the previous index is in [0, n): the preceding index, or n-1 before the first |
| `ProjectCard.PrevAfterNext` | src/components/Work.tsx:176-184 | previous undoes next on every index in [0, n) |
| `ProjectCard.NextAfterPrev` | src/components/Work.tsx:176-184 | next undoes previous on every index in [0, n) |
| `ProjectCard.NextNIsAdd` | src/components/Work.tsx:177 | k presses of next move the index to (i + k) mod n |
| `ProjectCard.NextNCycle` | src/components/Work.tsx:177 | n presses of next return to the starting slide |
| `ProjectCard.Init` | src/components/Work.tsx:172-173 | a card mounts on slide 0, not paused |
| `ProjectCard.AutoAdvancing` | src/components/Work.tsx:186-187 | the interval is installed only on a carousel that shows its controls, and exactly when the mouse is away and a next would move the slide |
| `ProjectCard.ControlsVisible` | src/components/Work.tsx:283 | the controls and dots are rendered exactly when every press of either button would move the slide |
| `ProjectCard.Apply` | src/components/Work.tsx:176-192 | every event keeps the index in bounds; hover sets and leave clears the pause without moving; clicks leave the pause alone; an elapsed period with no interval installed changes nothing |
| `ProjectCard.RunInBounds` | src/components/Work.tsx:172-184 | any events keep `currentSlide` in [0, n), so `project.media[currentSlide]` is a valid access |
| `ProjectCard.TicksWithoutIntervalDoNothing` | src/components/Work.tsx:186-192 | while paused, or with at most one slide, no number of elapsed periods moves the carousel |
| `ProjectCard.TicksAdvance` | src/components/Work.tsx:186-192 | with the interval installed, k elapsed periods perform exactly k nexts |
| `ProjectCard.SingleSlideStays` | src/components/Work.tsx:176-187 | a one-slide carousel hides its controls and stays on its slide whatever happens |
| `ProjectCard.ResumeOnLeave` | src/components/Work.tsx:186-192 | after the mouse leaves, the next elapsed period advances exactly one slide |
| `ProjectCard.Dots` | src/components/Work.tsx:293-299 | one dot per media item |
| `ProjectCard.OneDotHighlighted` | src/components/Work.tsx:293-299 | exactly one dot is highlighted, and it is the current slide's |
| `ProjectCard.Carousel.constructor` | src/components/Work.tsx:172-173 | a card starts in the mount state over its non-empty media |
| `ProjectCard.Carousel.Shown` | src/components/Work.tsx:174 | the shown media is `media[currentSlide]`, an element of the list |
| `ProjectCard.Carousel.Controls` | src/components/Work.tsx:283-299 | controls are visible exactly when there is more than one slide; dot k is highlighted exactly when k is the current slide |
| `ProjectCard.Carousel.Next` | src/components/Work.tsx:176-178 | the next button moves to the next slide and leaves the pause flag alone |
| `ProjectCard.Carousel.Prev` | src/components/Work.tsx:180-184 | the previous button moves to the previous slide and leaves the pause flag alone |
| `ProjectCard.Carousel.MouseEnter` | src/components/Work.tsx:250 | mouse enter pauses without moving |
| `ProjectCard.Carousel.MouseLeave` | src/components/Work.tsx:251 | mouse leave unpauses without moving |
| `ProjectCard.Carousel.IntervalTick` | src/components/Work.tsx:186-192 | an elapsed period performs one next exactly when not paused and there is more than one slide |
| `ContactForm.FormData.Set` | src/components/Contact.tsx:27 | the spread update sets the named field to the value and leaves the other three fields unchanged |
| `ContactForm.Init` | src/components/Contact.tsx:15-22 | the form mounts with four empty fields, not submitting, status idle |
| `ContactForm.SubmitEnabled` | src/components/Contact.tsx:189 | the submit control is enabled exactly when pressing it has an effect |
| `ContactForm.Change` | src/components/Contact.tsx:24-28 | `handleChange` sets exactly one field and touches neither `isSubmitting` nor the status |
| `ContactForm.Submit` | src/components/Contact.tsx:30-33 | a press while a request is in flight does nothing; otherwise it sets submitting and resets status to idle before the outcome is known, fields unchanged; afterwards the control is disabled |
| `ContactForm.RequestBody` | src/components/Contact.tsx:42-48 | the request carries exactly the current name, email, subject and message, plus the access key |
| `ContactForm.Finish` | src/components/Contact.tsx:51-64 | a true success flag gives status success and four empty fields; a false flag or a thrown error gives status error with the fields unchanged; either way `isSubmitting` ends false and one reset is scheduled |
| `ContactForm.Reset` | src/components/Contact.tsx:64 | the reset timer sets status to idle without touching the fields or `isSubmitting` |
| `ContactForm.Enabled` | src/components/Contact.tsx:30-65 | edits and presses can always happen; a request can end exactly while the submit control is disabled; a reset fires only when one is pending |
| `ContactForm.Apply` | src/components/Contact.tsx:24-65 | each event keeps the status idle while a request is in flight; a press leaves the form submitting and a request's end leaves it not submitting with one more reset pending; only edits and a successful response change the fields |
| `ContactForm.RunConsistent` | src/components/Contact.tsx:30-65 | along any run of events the status is idle while a request is in flight |
| `ContactForm.NoSecondSubmit` | src/components/Contact.tsx:189 | until the in-flight request ends, the form stays submitting and a further press changes nothing |
| `ContactForm.SubmitThenReset` | src/components/Contact.tsx:30-65 | a press, the request's end and the reset timer compose to the three transitions in order |
| `ContactForm.SuccessRoundTrip` | src/components/Contact.tsx:53-55 | a successful submission from a quiet form shows success with every field cleared, and after the reset the form is back in its mount state |
| `ContactForm.FailureRoundTrip` | src/components/Contact.tsx:56-64 | a false flag or a thrown error shows error with every field kept, and after the reset the form is idle with the same fields |
| `ContactForm.NameStaysEmpty` | src/components/Contact.tsx:131-168 | editing only the rendered inputs (email, subject, message) never changes the name field from "" |
| `ContactForm.Contact.constructor` | src/components/Contact.tsx:15-22 | a mounted form starts in the mount state |
| `ContactForm.Contact.SubmitDisabled` | src/components/Contact.tsx:189 | the submit control reports disabled exactly when pressing it would change nothing |
| `ContactForm.Contact.HandleChange` | src/components/Contact.tsx:24-28 | the named field takes the value, the other fields are unchanged |
| `ContactForm.Contact.HandleSubmit` | src/components/Contact.tsx:30-49 | a disabled press sends nothing; an enabled one sets submitting, resets status and returns the request body built from the form as it was |
| `ContactForm.Contact.RequestResolved` | src/components/Contact.tsx:51-64 | per outcome: success clears the fields and shows success; a false flag or a throw shows error and keeps the fields; `isSubmitting` ends false |
| `ContactForm.Contact.ResetTimerFired` | src/components/Contact.tsx:64 | the reset timer sets the status to idle and keeps the fields |

## Left out

- The `fetch` to the form-relay endpoint and the parsing of its JSON reply are network
  I/O. They are replaced by the `Outcome` parameter. An `access_key` that is undefined,
  and therefore dropped by `JSON.stringify`, is modelled as any string.
- Real time is not modelled: the tick delays (150, 100 and 50 ms), the hold `period`,
  the 3000 ms interval and the 5000 ms reset delay. Timer ordering is kept only through
  which events are enabled. When several timers could fire, which fires first is the
  caller's choice.
- `Typewriter.Tick` and `Typewriter.HoldElapsed` require that their timer is pending.
  `Contact.RequestResolved` and `Contact.ResetTimerFired` require the same. This is
  because a timer or a request that does not exist cannot fire.
- Cleanup on unmount is left out: `clearTimeout` and `clearInterval` when a component
  goes away, and a request answered after unmount.
- Resetting the interval's phase when the carousel re-installs its interval on unpause
  is also left out, since no time is modelled.
- The browser's constraint validation of the `required` inputs and of the email syntax
  is left out. It can stop the submit event before `handleSubmit` runs; the model lets
  every enabled press start a submission.
- `handleChange` with an input name other than the four keys is left out. The spread
  would add a new key to `formData`, but the form renders no such input.
- JavaScript strings are UTF-16 code-unit sequences. They are modelled as `seq<char>`,
  so a character outside the Basic Multilingual Plane is one character here, while
  `substring` would split it.
- The scroll-triggered reveal wrapper is left out: its source file is not part of
  this model.
- React rendering, JSX, styling, animation, images and icons are presentational and left
  out. So are the page shell, the navigation bar's scroll listener, and the static
  project and word data; those become inputs.
