/** The submission flow of the Contact component: four text fields edited one at a time,
    a submit that sends them to the form-relay service, and a status line
    (idle, success, error) that a delayed timer clears.

    The request itself is not modelled: its result is an Outcome supplied by the caller
    (a response whose success flag is true or false, or a thrown error). Each 5000 ms
    reset timer is a pending event; they are never cancelled. */
module ContactForm {

  datatype Option<T> = None | Some(value: T)

  /** The keys of `formData`, named by the `name` attribute of the changed input. */
  datatype Field = Name | Email | Subject | Message

  /** `formData`. */
  datatype FormData = FormData(name: string, email: string, subject: string, message: string)
  {
    function Get(f: Field): string
    {
      match f
      case Name => name
      case Email => email
      case Subject => subject
      case Message => message
    }

    /** `{ ...prev, [f]: v }`. */
    function Set(f: Field, v: string): (r: FormData)
      ensures r.Get(f) == v
      ensures forall g :: g != f ==> r.Get(g) == Get(g)
    {
      match f
      case Name => this.(name := v)
      case Email => this.(email := v)
      case Subject => this.(subject := v)
      case Message => this.(message := v)
    }
  }

  /** The initial form, and the form after a successful submission. */
  const EmptyForm: FormData := FormData("", "", "", "")

  datatype Status = Idle | Success | Error

  /** How the request ended: the relay answered with its success flag, or fetch or
      response.json() threw. */
  datatype Outcome = Responded(success: bool) | Threw

  /** The JSON body of the request. */
  datatype Payload = Payload(accessKey: string, name: string, email: string, subject: string, message: string)

  /** The state of one mounted Contact form. */
  datatype FormState = FormState(
    data: FormData,
    isSubmitting: bool,
    status: Status,
    pendingResets: nat)  // `setStatus("idle")` timers scheduled and not yet fired

  function Init(): (r: FormState)
    ensures r.data == EmptyForm && !r.isSubmitting && r.status == Idle && r.pendingResets == 0
  {
    FormState(EmptyForm, false, Idle, 0)
  }

  /** `disabled={isSubmitting}`: the submit control can be used exactly when this holds,
      that is, exactly when pressing it has an effect. */
  predicate SubmitEnabled(s: FormState): (r: bool)
    ensures r <==> Submit(s) != s
  {
    !s.isSubmitting
  }

  /** `handleChange`: one field takes the typed value. */
  function Change(s: FormState, f: Field, v: string): (r: FormState)
    ensures r.data.Get(f) == v
    ensures forall g :: g != f ==> r.data.Get(g) == s.data.Get(g)
    ensures r.isSubmitting == s.isSubmitting && r.status == s.status
    ensures r.pendingResets == s.pendingResets
  {
    s.(data := s.data.Set(f, v))
  }

  /** The submit control is pressed: while a request is in flight the control is disabled
      and nothing happens; otherwise `handleSubmit` starts. */
  function Submit(s: FormState): (r: FormState)
    ensures s.isSubmitting ==> r == s
    ensures !s.isSubmitting ==> r.isSubmitting && r.status == Idle
    ensures r.data == s.data && r.pendingResets == s.pendingResets
    ensures r.isSubmitting
  {
    if s.isSubmitting then s else s.(isSubmitting := true, status := Idle)
  }

  /** The fields a payload carries. */
  function PayloadForm(p: Payload): FormData
  {
    FormData(p.name, p.email, p.subject, p.message)
  }

  /** The request body built from the form as it stands when the submit starts. */
  function RequestBody(data: FormData, accessKey: string): (p: Payload)
    ensures PayloadForm(p) == data && p.accessKey == accessKey
  {
    Payload(accessKey, data.name, data.email, data.subject, data.message)
  }

  /** The request ends and the `try`/`catch`/`finally` of `handleSubmit` runs. */
  function Finish(s: FormState, o: Outcome): (r: FormState)
    ensures !r.isSubmitting && r.pendingResets == s.pendingResets + 1
    ensures o == Responded(true) ==> r.status == Success && r.data == EmptyForm
    ensures o != Responded(true) ==> r.status == Error && r.data == s.data
  {
    var status := match o
      case Responded(success) => if success then Success else Error
      case Threw => Error;
    FormState(if status == Success then EmptyForm else s.data, false, status, s.pendingResets + 1)
  }

  /** A reset timer fires. */
  function Reset(s: FormState): (r: FormState)
    requires s.pendingResets > 0
    ensures r.status == Idle && r.data == s.data && r.isSubmitting == s.isSubmitting
    ensures r.pendingResets == s.pendingResets - 1
  {
    s.(status := Idle, pendingResets := s.pendingResets - 1)
  }

  // ---------------------------------------------------------------------------
  // Runs of the form

  datatype Event =
    | Edit(field: Field, value: string)  // an input's onChange
    | SubmitPressed                       // the submit control
    | Resolved(outcome: Outcome)          // the in-flight request ends
    | ResetTimerElapsed                   // a pending reset timer fires

  /** Which events can happen in a state: a request can end only while one is in flight,
      a reset timer can fire only when one is pending. */
  predicate Enabled(s: FormState, e: Event): (r: bool)
    ensures e.Edit? || e.SubmitPressed? ==> r
    ensures e.Resolved? ==> (r <==> !SubmitEnabled(s))
    ensures e.ResetTimerElapsed? ==> (r <==> s.pendingResets > 0)
  {
    match e
    case Resolved(_) => s.isSubmitting
    case ResetTimerElapsed => s.pendingResets > 0
    case _ => true
  }

  /** One event. Only edits and a successful response change the fields; a request in
      flight always starts from, and keeps, a blank status line. */
  function Apply(s: FormState, e: Event): (r: FormState)
    requires Enabled(s, e)
    ensures Consistent(s) ==> Consistent(r)
    ensures e.SubmitPressed? ==> r.isSubmitting
    ensures e.Resolved? ==> !r.isSubmitting && r.pendingResets == s.pendingResets + 1
    ensures !e.Edit? && e != Resolved(Responded(true)) ==> r.data == s.data
  {
    match e
    case Edit(f, v) => Change(s, f, v)
    case SubmitPressed => Submit(s)
    case Resolved(o) => Finish(s, o)
    case ResetTimerElapsed => Reset(s)
  }

  /** The events can happen one after the other from s. */
  predicate Possible(s: FormState, es: seq<Event>)
    decreases |es|
  {
    es == [] || (Enabled(s, es[0]) && Possible(Apply(s, es[0]), es[1..]))
  }

  function Run(s: FormState, es: seq<Event>): FormState
    requires Possible(s, es)
    decreases |es|
  {
    if es == [] then s else Run(Apply(s, es[0]), es[1..])
  }

  /** While a request is in flight the status line is blank. */
  predicate Consistent(s: FormState)
  {
    s.isSubmitting ==> s.status == Idle
  }

  /** Every run keeps the status line blank while a request is in flight, so the form is
      always in one of the four phases idle, submitting, success, error. */
  lemma {:induction false} RunConsistent(s: FormState, es: seq<Event>)
    requires Consistent(s) && Possible(s, es)
    ensures Consistent(Run(s, es))
    decreases |es|
  {
    if es != [] {
      RunConsistent(Apply(s, es[0]), es[1..]);
    }
  }

  /** At most one request is in flight: between a submit and the end of its request,
      pressing the control again changes nothing. */
  lemma {:induction false} NoSecondSubmit(s: FormState, es: seq<Event>)
    requires s.isSubmitting && Possible(s, es)
    requires forall i :: 0 <= i < |es| ==> !es[i].Resolved?
    ensures Run(s, es).isSubmitting
    ensures Possible(s, es + [SubmitPressed]) && Run(s, es + [SubmitPressed]) == Run(s, es)
    decreases |es|
  {
    if es == [] {
      assert es + [SubmitPressed] == [SubmitPressed];
    } else {
      assert (es + [SubmitPressed])[1..] == es[1..] + [SubmitPressed];
      NoSecondSubmit(Apply(s, es[0]), es[1..]);
    }
  }

  /** Running e and then es. */
  lemma RunCons(s: FormState, e: Event, es: seq<Event>)
    requires Enabled(s, e) && Possible(Apply(s, e), es)
    ensures Possible(s, [e] + es) && Run(s, [e] + es) == Run(Apply(s, e), es)
  {
  }

  /** A submission from a quiet form followed by its reset timer. */
  lemma SubmitThenReset(s: FormState, o: Outcome)
    requires SubmitEnabled(s)
    ensures Possible(s, [SubmitPressed, Resolved(o)])
    ensures Run(s, [SubmitPressed, Resolved(o)]) == Finish(Submit(s), o)
    ensures Possible(s, [SubmitPressed, Resolved(o), ResetTimerElapsed])
    ensures Run(s, [SubmitPressed, Resolved(o), ResetTimerElapsed]) == Reset(Finish(Submit(s), o))
  {
    var s1 := Submit(s);
    var s2 := Finish(s1, o);
    RunCons(s2, ResetTimerElapsed, []);
    RunCons(s1, Resolved(o), [ResetTimerElapsed]);
    RunCons(s, SubmitPressed, [Resolved(o), ResetTimerElapsed]);
    RunCons(s1, Resolved(o), []);
    RunCons(s, SubmitPressed, [Resolved(o)]);
  }

  /** A successful submission from a quiet form clears every field and, once its reset timer
      fires, returns the form to its initial state. */
  lemma SuccessRoundTrip(s: FormState)
    requires SubmitEnabled(s) && s.pendingResets == 0
    ensures Possible(s, [SubmitPressed, Resolved(Responded(true)), ResetTimerElapsed])
    ensures Run(s, [SubmitPressed, Resolved(Responded(true))]).status == Success
    ensures Run(s, [SubmitPressed, Resolved(Responded(true))]).data == EmptyForm
    ensures Run(s, [SubmitPressed, Resolved(Responded(true)), ResetTimerElapsed]) == Init()
  {
  }

  /** A failed submission (false flag or thrown error) from a quiet form keeps every field
      and, once its reset timer fires, leaves the form idle with the same fields. */
  lemma FailureRoundTrip(s: FormState, o: Outcome)
    requires SubmitEnabled(s) && s.pendingResets == 0 && o != Responded(true)
    ensures Possible(s, [SubmitPressed, Resolved(o), ResetTimerElapsed])
    ensures Run(s, [SubmitPressed, Resolved(o)]).status == Error
    ensures Run(s, [SubmitPressed, Resolved(o)]).data == s.data
    ensures Run(s, [SubmitPressed, Resolved(o), ResetTimerElapsed]) == FormState(s.data, false, Idle, 0)
  {
    SubmitThenReset(s, o);
  }

  /** The inputs the form renders: email, subject and message. No input is named "name". */
  predicate Rendered(f: Field)
  {
    f != Name
  }

  /** Since no rendered input is named "name", the name field keeps its initial "" through
      any run driven by the rendered inputs, and every request carries an empty name. */
  lemma {:induction false} NameStaysEmpty(s: FormState, es: seq<Event>)
    requires s.data.name == "" && Possible(s, es)
    requires forall i :: 0 <= i < |es| ==> es[i].Edit? ==> Rendered(es[i].field)
    ensures Run(s, es).data.name == ""
    decreases |es|
  {
    if es != [] {
      var t := Apply(s, es[0]);
      assert t.data.name == "" by {
        if es[0].Edit? {
          assert es[0].field != Name;
          assert t.data.Get(Name) == s.data.Get(Name);
        }
      }
      NameStaysEmpty(t, es[1..]);
    }
  }

  // ---------------------------------------------------------------------------
  // The component

  /** One mounted Contact form. */
  class Contact {
    /** `process.env.NEXT_PUBLIC_ACCESS_KEY`. */
    const accessKey: string
    var formData: FormData
    var isSubmitting: bool
    var status: Status
    var pendingResets: nat

    function State(): FormState
      reads this
    {
      FormState(formData, isSubmitting, status, pendingResets)
    }

    ghost predicate Valid()
      reads this
    {
      Consistent(State())
    }

    constructor (accessKey: string)
      ensures this.accessKey == accessKey && State() == Init() && Valid()
    {
      this.accessKey := accessKey;
      formData := EmptyForm;
      isSubmitting, status, pendingResets := false, Idle, 0;
    }

    /** Whether the submit control is disabled: exactly when pressing it would change
        nothing. */
    method SubmitDisabled() returns (disabled: bool)
      ensures disabled <==> Submit(State()) == State()
    {
      disabled := !SubmitEnabled(State());
    }

    method HandleChange(f: Field, v: string)
      requires Valid()
      modifies this
      ensures Valid() && State() == Change(old(State()), f, v)
      ensures formData.Get(f) == v
      ensures forall g :: g != f ==> formData.Get(g) == old(formData.Get(g))
    {
      formData := formData.Set(f, v);
    }

    /** The submit control is pressed; when it is enabled `handleSubmit` runs up to the
        request and returns the request body. */
    method HandleSubmit() returns (request: Option<Payload>)
      requires Valid()
      modifies this
      ensures Valid() && State() == Submit(old(State()))
      ensures old(isSubmitting) ==> request == None
      ensures !old(isSubmitting) ==> request == Some(RequestBody(old(formData), accessKey))
    {
      if isSubmitting {
        return None;
      }
      isSubmitting := true;
      status := Idle;
      request := Some(Payload(accessKey, formData.name, formData.email, formData.subject, formData.message));
    }

    /** The in-flight request ends with the given outcome and `handleSubmit` completes. */
    method RequestResolved(outcome: Outcome)
      requires Valid() && isSubmitting
      modifies this
      ensures Valid() && State() == Finish(old(State()), outcome)
      ensures outcome == Responded(true) ==> status == Success && formData == EmptyForm
      ensures outcome != Responded(true) ==> status == Error && formData == old(formData)
      ensures !isSubmitting
    {
      match outcome {
        case Responded(success) =>
          if success {
            status := Success;
            formData := EmptyForm;
          } else {
            status := Error;
          }
        case Threw =>
          status := Error;
      }
      isSubmitting := false;
      pendingResets := pendingResets + 1;
    }

    /** One pending `setStatus("idle")` timer fires. */
    method ResetTimerFired()
      requires Valid() && pendingResets > 0
      modifies this
      ensures Valid() && State() == Reset(old(State()))
      ensures status == Idle && formData == old(formData)
    {
      status := Idle;
      pendingResets := pendingResets - 1;
    }
  }
}
