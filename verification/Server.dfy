/**
 * The server's handling of requests: the check, the admission, the execution by a module and the
 * marking each take the lock on their own, so that requests interleave between them.
 */
module Server {
  import opened Wrappers
  import opened Bytes
  import opened Validators

  datatype Route = Module | Fallback | Unrouted

  datatype Phase = Submitted | Passed | Admitted(route: Route) | Executed | Closed

  datatype Job = Job(envelope: Envelope, phase: Phase)

  datatype Event = Checked(job: nat) | Ran(job: nat) | Marked(job: nat)

  datatype State = State(caches: Caches, jobs: seq<Job>, log: seq<Event>)

  /** The outcomes decided elsewhere (the signature, the time, the module) come with the action. */
  datatype Action =
    | Submit(envelope: Envelope)
    | Check(job: nat, valid: bool)
    | Admit(job: nat, accepted: bool, route: Route)
    | Execute(job: nat)
    | Mark(job: nat)

  function Move(s: State, i: nat, phase: Phase): State
    requires i < |s.jobs|
  {
    s.(jobs := s.jobs[i := s.jobs[i].(phase := phase)])
  }

  predicate At(s: State, i: nat, phase: Phase) { i < |s.jobs| && s.jobs[i].phase == phase }

  /** One critical section, if the job is where the section starts. */
  function Step(v: Validator, digest: Bytes -> Bytes, s: State, a: Action): Option<State> {
    match a
    case Submit(e) => Some(s.(jobs := s.jobs + [Job(e, Submitted)]))
    case Check(i, valid) =>
      if !At(s, i, Submitted) then None
      else if ValidateEnvelope(v, s.caches, digest, s.jobs[i].envelope).None? && valid then
        Some(Move(s, i, Passed).(log := s.log + [Checked(i)]))
      else Some(Move(s, i, Closed))
    case Admit(i, accepted, route) =>
      if !At(s, i, Passed) then None
      else if accepted then Some(Move(s, i, if route.Unrouted? then Closed else Admitted(route)))
      else Some(Move(s, i, Closed))
    case Execute(i) =>
      if At(s, i, Admitted(Module)) then Some(Move(s, i, Executed).(log := s.log + [Ran(i)]))
      else if At(s, i, Admitted(Fallback)) then Some(Move(s, i, Closed))
      else None
    case Mark(i) =>
      if !At(s, i, Executed) then None
      else
        var m := MessageExecuted(v, s.caches, digest, s.jobs[i].envelope);
        if m.error.Some? then None
        else Some(Move(s, i, Closed).(caches := m.caches, log := s.log + [Marked(i)]))
  }

  function Run(v: Validator, digest: Bytes -> Bytes, s: State, actions: seq<Action>): Option<State>
    decreases |actions|
  {
    if actions == [] then Some(s)
    else
      var t :- Step(v, digest, s, actions[0]);
      Run(v, digest, t, actions[1..])
  }

  predicate SamePayloadDigest(digest: Bytes -> Bytes, e: Envelope, f: Envelope) {
    e.payload.Some? && f.payload.Some? && digest(e.payload.value) == digest(f.payload.value)
  }

  // -------------------------------------------------------------------------------------------
  // The invariant of every interleaving
  // -------------------------------------------------------------------------------------------

  predicate Begun(phase: Phase) { phase.Passed? || phase.Admitted? || phase.Executed? }

  function Sent(s: State, i: nat): Envelope {
    if i < |s.jobs| then s.jobs[i].envelope else Envelope(None, [])
  }

  predicate Earlier(log: seq<Event>, p: nat, x: Event) {
    exists q :: 0 <= q < p && q < |log| && log[q] == x
  }

  /** Events name jobs; a job under way was checked, and one executed ran. */
  predicate Logged(s: State) {
    && (forall p :: 0 <= p < |s.log| ==> s.log[p].job < |s.jobs|)
    && (forall i :: 0 <= i < |s.jobs| && Begun(s.jobs[i].phase) ==> Earlier(s.log, |s.log|, Checked(i)))
    && (forall i :: 0 <= i < |s.jobs| && s.jobs[i].phase.Executed? ==> Earlier(s.log, |s.log|, Ran(i)))
  }

  /** What the job did before this event. */
  predicate Caused(log: seq<Event>, p: nat, x: Event) {
    match x
    case Checked(_) => true
    case Ran(i) => Earlier(log, p, Checked(i))
    case Marked(i) => Earlier(log, p, Ran(i))
  }

  predicate Ordered(s: State) {
    Logged(s) && forall p :: 0 <= p < |s.log| ==> Caused(s.log, p, s.log[p])
  }

  predicate Held(digest: Bytes -> Bytes, b: nat, caches: Caches, e: Envelope) {
    e.payload.Some? && Has(caches, b, digest(e.payload.value))
  }

  /** Everything marked is in the backend. */
  predicate Remembered(digest: Bytes -> Bytes, b: nat, s: State) {
    forall p :: 0 <= p < |s.log| && s.log[p].Marked? ==> Held(digest, b, s.caches, Sent(s, s.log[p].job))
  }

  /** No check passed once the same digest had been marked. */
  predicate Refusing(digest: Bytes -> Bytes, s: State) {
    forall p, q :: 0 <= p < q < |s.log| && s.log[p].Marked? && s.log[q].Checked? ==>
                     !SamePayloadDigest(digest, Sent(s, s.log[p].job), Sent(s, s.log[q].job))
  }

  /** Jobs keep their envelopes, and the log and the caches only grow. */
  predicate Extends(s: State, t: State) {
    && |s.jobs| <= |t.jobs|
    && (forall i :: 0 <= i < |s.jobs| ==> t.jobs[i].envelope == s.jobs[i].envelope)
    && s.log <= t.log && |t.log| <= |s.log| + 1
  }

  lemma StepExtends(v: Validator, digest: Bytes -> Bytes, s: State, a: Action)
    requires Step(v, digest, s, a).Some?
    ensures Extends(s, Step(v, digest, s, a).value)
  {
    hide ValidateEnvelope, MessageExecuted;
  }

  lemma StillEarlier(log: seq<Event>, x: Event, y: Event, p: nat, q: nat)
    requires p <= q && Earlier(log, p, y)
    ensures Earlier(log + [x], q, y)
  {
    var k :| 0 <= k < p && k < |log| && log[k] == y;
    assert (log + [x])[k] == y;
  }

  lemma JustNow(log: seq<Event>, x: Event)
    ensures Earlier(log + [x], |log| + 1, x)
  {
    assert (log + [x])[|log|] == x;
  }

  lemma StillCaused(log: seq<Event>, x: Event, p: nat, y: Event)
    requires Caused(log, p, y)
    ensures Caused(log + [x], p, y)
  {
    hide Earlier;
    match y
    case Checked(_) =>
    case Ran(i) => StillEarlier(log, x, Checked(i), p, p);
    case Marked(i) => StillEarlier(log, x, Ran(i), p, p);
  }

  /** A job that moves on and logs it keeps the log in order. */
  lemma Appended(s: State, i: nat, phase: Phase, caches: Caches, x: Event)
    requires Ordered(s) && i < |s.jobs| && x.job == i && Caused(s.log, |s.log|, x)
    requires Begun(phase) ==> x == Checked(i) || Begun(s.jobs[i].phase)
    requires phase.Executed? ==> x == Ran(i)
    ensures Ordered(Move(s, i, phase).(caches := caches, log := s.log + [x]))
  {
    hide Earlier, Caused;
    var t := Move(s, i, phase).(caches := caches, log := s.log + [x]);
    JustNow(s.log, x);
    forall p | 0 <= p < |t.log| ensures Caused(t.log, p, t.log[p]) {
      StillCaused(s.log, x, p, t.log[p]);
    }
    forall k | 0 <= k < |t.jobs| && Begun(t.jobs[k].phase) ensures Earlier(t.log, |t.log|, Checked(k)) {
      if x != Checked(k) {
        StillEarlier(s.log, x, Checked(k), |s.log|, |t.log|);
      }
    }
    forall k | 0 <= k < |t.jobs| && t.jobs[k].phase.Executed? ensures Earlier(t.log, |t.log|, Ran(k)) {
      if x != Ran(k) {
        StillEarlier(s.log, x, Ran(k), |s.log|, |t.log|);
      }
    }
  }

  lemma Moved(s: State, i: nat, phase: Phase)
    requires Ordered(s) && i < |s.jobs| && !phase.Executed?
    requires Begun(phase) ==> Begun(s.jobs[i].phase)
    ensures Ordered(Move(s, i, phase))
  {
    hide Earlier, Caused;
  }

  lemma StepOrdered(v: Validator, digest: Bytes -> Bytes, s: State, a: Action)
    requires Ordered(s) && Step(v, digest, s, a).Some?
    ensures Ordered(Step(v, digest, s, a).value)
  {
    hide ValidateEnvelope, MessageExecuted, Earlier;
    var t := Step(v, digest, s, a).value;
    match a
    case Submit(_) =>
    case Check(i, _) =>
      if t.jobs[i].phase.Passed? {
        Appended(s, i, Passed, s.caches, Checked(i));
      } else {
        Moved(s, i, Closed);
      }
    case Admit(i, _, _) => Moved(s, i, t.jobs[i].phase);
    case Execute(i) =>
      if t.jobs[i].phase.Executed? {
        Appended(s, i, Executed, s.caches, Ran(i));
      } else {
        Moved(s, i, Closed);
      }
    case Mark(i) => Appended(s, i, Closed, t.caches, Marked(i));
  }

  /** Where the log gains nothing, nothing about it changes. */
  lemma SameLog(digest: Bytes -> Bytes, b: nat, s: State, t: State)
    requires Ordered(s) && Extends(s, t) && t.log == s.log && t.caches == s.caches
    requires Remembered(digest, b, s) && Refusing(digest, s)
    ensures Remembered(digest, b, t) && Refusing(digest, t)
  {
    hide Held, SamePayloadDigest;
  }

  lemma LogGrows(digest: Bytes -> Bytes, b: nat, s: State, t: State, x: Event)
    requires Ordered(s) && Extends(s, t) && t.log == s.log + [x] && x.job < |s.jobs|
    requires Remembered(digest, b, s) && Refusing(digest, s)
    requires forall e :: Held(digest, b, s.caches, e) ==> Held(digest, b, t.caches, e)
    requires x.Marked? ==> Held(digest, b, t.caches, Sent(s, x.job))
    requires x.Checked? ==> forall e :: Held(digest, b, s.caches, e) ==> !SamePayloadDigest(digest, e, Sent(s, x.job))
    ensures Remembered(digest, b, t) && Refusing(digest, t)
  {
    hide Held, SamePayloadDigest;
    forall p | 0 <= p < |t.log| && t.log[p].Marked? ensures Held(digest, b, t.caches, Sent(t, t.log[p].job)) {
      if p < |s.log| {
        assert t.log[p] == s.log[p];
      }
    }
    forall p, q | 0 <= p < q < |t.log| && t.log[p].Marked? && t.log[q].Checked?
      ensures !SamePayloadDigest(digest, Sent(t, t.log[p].job), Sent(t, t.log[q].job))
    {
      assert t.log[p] == s.log[p];
      if q < |s.log| {
        assert t.log[q] == s.log[q];
      }
    }
  }

  /** A check that passes meets no digest the backend holds. */
  lemma CheckMisses(v: Validator, digest: Bytes -> Bytes, b: nat, caches: Caches, e: Envelope, f: Envelope)
    requires Consults(v, b) && ValidateEnvelope(v, caches, digest, e).None? && Held(digest, b, caches, f)
    ensures !SamePayloadDigest(digest, f, e)
  {
    hide ValidateEnvelope, Consults;
    if SamePayloadDigest(digest, f, e) {
      HeldIsRefused(v, caches, digest, e, b);
    }
  }

  lemma MarkHolds(v: Validator, digest: Bytes -> Bytes, b: nat, caches: Caches, e: Envelope, f: Envelope)
    requires Records(v, b) && MessageExecuted(v, caches, digest, e).error.None? && e.payload.Some?
    ensures Held(digest, b, caches, f) ==> Held(digest, b, MessageExecuted(v, caches, digest, e).caches, f)
    ensures Held(digest, b, MessageExecuted(v, caches, digest, e).caches, e)
  {
    hide MessageExecuted, Records, Has;
    MarkingRecords(v, caches, digest, e, b, digest(e.payload.value));
    if f.payload.Some? {
      MarkingRecords(v, caches, digest, e, b, digest(f.payload.value));
    }
  }

  /** Every job that got past the check has a payload. */
  predicate Payloads(s: State) {
    forall i :: 0 <= i < |s.jobs| && Begun(s.jobs[i].phase) ==> s.jobs[i].envelope.payload.Some?
  }

  lemma StepPayloads(v: Validator, digest: Bytes -> Bytes, s: State, a: Action)
    requires Payloads(s) && RecordsSome(v) && Step(v, digest, s, a).Some?
    ensures Payloads(Step(v, digest, s, a).value)
  {
    hide ValidateEnvelope, MessageExecuted, RecordsSome;
    if a.Check? && ValidateEnvelope(v, s.caches, digest, s.jobs[a.job].envelope).None? {
      RecordersNeedPayload(v, s.caches, digest, s.jobs[a.job].envelope);
    }
  }

  predicate Safe(digest: Bytes -> Bytes, b: nat, s: State) {
    Ordered(s) && Payloads(s) && Remembered(digest, b, s) && Refusing(digest, s)
  }

  lemma StepSafe(v: Validator, digest: Bytes -> Bytes, b: nat, s: State, a: Action)
    requires Records(v, b) && Safe(digest, b, s) && Step(v, digest, s, a).Some?
    ensures Safe(digest, b, Step(v, digest, s, a).value)
  {
    RecordsConsults(v, b);
    StepExtends(v, digest, s, a);
    StepOrdered(v, digest, s, a);
    StepPayloads(v, digest, s, a);
    hide ValidateEnvelope, MessageExecuted, Records, Consults, RecordsSome, Ordered, Extends, Remembered, Refusing,
      Held, SamePayloadDigest;
    var t := Step(v, digest, s, a).value;
    match a
    case Submit(_) => SameLog(digest, b, s, t);
    case Check(i, _) =>
      if t.jobs[i].phase.Passed? {
        forall f | Held(digest, b, s.caches, f) ensures !SamePayloadDigest(digest, f, Sent(s, i)) {
          CheckMisses(v, digest, b, s.caches, s.jobs[i].envelope, f);
        }
        LogGrows(digest, b, s, t, Checked(i));
      } else {
        SameLog(digest, b, s, t);
      }
    case Admit(_, _, _) => SameLog(digest, b, s, t);
    case Execute(i) =>
      if t.jobs[i].phase.Executed? {
        LogGrows(digest, b, s, t, Ran(i));
      } else {
        SameLog(digest, b, s, t);
      }
    case Mark(i) =>
      forall f
        ensures Held(digest, b, s.caches, f) ==> Held(digest, b, t.caches, f)
        ensures Held(digest, b, t.caches, Sent(s, i))
      {
        MarkHolds(v, digest, b, s.caches, s.jobs[i].envelope, f);
      }
      LogGrows(digest, b, s, t, Marked(i));
  }

  lemma {:induction false} RunSafe(v: Validator, digest: Bytes -> Bytes, b: nat, s: State, actions: seq<Action>)
    requires Records(v, b) && Safe(digest, b, s) && Run(v, digest, s, actions).Some?
    ensures Safe(digest, b, Run(v, digest, s, actions).value)
    decreases |actions|
  {
    hide Safe, Step, Records;
    if actions == [] {
    } else {
      StepSafe(v, digest, b, s, actions[0]);
      RunSafe(v, digest, b, Step(v, digest, s, actions[0]).value, actions[1..]);
    }
  }

  function Start(caches: Caches): State { State(caches, [], []) }

  // -------------------------------------------------------------------------------------------
  // Main results
  // -------------------------------------------------------------------------------------------

  predicate EventAt(s: State, p: nat, x: Event) { p < |s.log| && s.log[p] == x }

  /**
   * In every interleaving: where one request has been marked and another of the same digest has
   * run, the other had passed its check before that mark.
   */
  lemma NoRunAfterMark(v: Validator, digest: Bytes -> Bytes, caches: Caches, actions: seq<Action>, p: nat, r: nat,
      i: nat, j: nat)
    requires RecordsSome(v) && Run(v, digest, Start(caches), actions).Some?
    requires var s := Run(v, digest, Start(caches), actions).value;
             && EventAt(s, p, Marked(i)) && EventAt(s, r, Ran(j))
             && i < |s.jobs| && j < |s.jobs|
             && SamePayloadDigest(digest, s.jobs[i].envelope, s.jobs[j].envelope)
    ensures var s := Run(v, digest, Start(caches), actions).value;
            exists q :: 0 <= q < p && q < r && EventAt(s, q, Checked(j))
  {
    hide Run, SamePayloadDigest;
    var b := SomeRecorder(v);
    RunSafe(v, digest, b, Start(caches), actions);
    PassedFirst(digest, Run(v, digest, Start(caches), actions).value, p, r, i, j);
  }

  lemma PassedFirst(digest: Bytes -> Bytes, s: State, p: nat, r: nat, i: nat, j: nat)
    requires Ordered(s) && Refusing(digest, s) && EventAt(s, p, Marked(i)) && EventAt(s, r, Ran(j))
    requires SamePayloadDigest(digest, Sent(s, i), Sent(s, j))
    ensures exists q :: 0 <= q < p && q < r && EventAt(s, q, Checked(j))
  {
    hide SamePayloadDigest, Logged;
    assert Caused(s.log, r, Ran(j));
    var q :| 0 <= q < r && q < |s.log| && s.log[q] == Checked(j);
    assert EventAt(s, q, Checked(j));
    assert s.log[p].job == i && s.log[q].job == j;
  }

  /** Two requests of one digest that both ran and were marked each passed the check before the other's mark. */
  lemma OnlyOverlapping(v: Validator, digest: Bytes -> Bytes, caches: Caches, actions: seq<Action>, p: nat, r: nat,
      i: nat, j: nat)
    requires RecordsSome(v) && Run(v, digest, Start(caches), actions).Some?
    requires var s := Run(v, digest, Start(caches), actions).value;
             && EventAt(s, p, Marked(i)) && EventAt(s, r, Marked(j))
             && i < |s.jobs| && j < |s.jobs|
             && SamePayloadDigest(digest, s.jobs[i].envelope, s.jobs[j].envelope)
    ensures var s := Run(v, digest, Start(caches), actions).value;
            && (exists q :: 0 <= q < p && EventAt(s, q, Checked(j)))
            && (exists q :: 0 <= q < r && EventAt(s, q, Checked(i)))
  {
    var s := Run(v, digest, Start(caches), actions).value;
    var b := SomeRecorder(v);
    RunSafe(v, digest, b, Start(caches), actions);
    var x := RanBefore(s, p, i);
    var y := RanBefore(s, r, j);
    hide Run, Ordered;
    NoRunAfterMark(v, digest, caches, actions, p, y, i, j);
    NoRunAfterMark(v, digest, caches, actions, r, x, j, i);
  }

  lemma RanBefore(s: State, p: nat, i: nat) returns (q: nat)
    requires Ordered(s) && EventAt(s, p, Marked(i))
    ensures q < p && EventAt(s, q, Ran(i))
  {
    assert Caused(s.log, p, s.log[p]);
    q :| 0 <= q < p && q < |s.log| && s.log[q] == Ran(i);
  }

  /** A job past its check can be marked, whatever the caches hold by then. */
  ghost predicate Markable(v: Validator, digest: Bytes -> Bytes, s: State) {
    forall i, c :: 0 <= i < |s.jobs| && Begun(s.jobs[i].phase) ==>
                     MessageExecuted(v, c, digest, s.jobs[i].envelope).error.None?
  }

  lemma StepMarkable(v: Validator, digest: Bytes -> Bytes, s: State, a: Action)
    requires Markable(v, digest, s) && Step(v, digest, s, a).Some?
    ensures Markable(v, digest, Step(v, digest, s, a).value)
  {
    hide ValidateEnvelope, MessageExecuted;
    if a.Check? && ValidateEnvelope(v, s.caches, digest, s.jobs[a.job].envelope).None? {
      forall c ensures MessageExecuted(v, c, digest, s.jobs[a.job].envelope).error.None? {
        MarkingSucceeds(v, s.caches, c, digest, s.jobs[a.job].envelope);
      }
    }
  }

  lemma {:induction false} RunMarkable(v: Validator, digest: Bytes -> Bytes, s: State, actions: seq<Action>)
    requires Markable(v, digest, s) && Run(v, digest, s, actions).Some?
    ensures Markable(v, digest, Run(v, digest, s, actions).value)
    decreases |actions|
  {
    hide Markable, Step;
    if actions == [] {
    } else {
      StepMarkable(v, digest, s, actions[0]);
      RunMarkable(v, digest, Step(v, digest, s, actions[0]).value, actions[1..]);
    }
  }

  /** In every interleaving a request that was executed can be marked: the server never stops there. */
  lemma ExecutedIsMarked(v: Validator, digest: Bytes -> Bytes, caches: Caches, actions: seq<Action>, i: nat)
    requires Run(v, digest, Start(caches), actions).Some? &&
             At(Run(v, digest, Start(caches), actions).value, i, Executed)
    ensures Step(v, digest, Run(v, digest, Start(caches), actions).value, Mark(i)).Some?
  {
    hide Run, MessageExecuted;
    RunMarkable(v, digest, Start(caches), actions);
  }

  // -------------------------------------------------------------------------------------------
  // When a copy passes, over every run
  // -------------------------------------------------------------------------------------------

  /** The check looks at the caches only for the digest of the payload. */
  lemma {:induction false} CheckLooksAt(v: Validator, c: Caches, d: Caches, digest: Bytes -> Bytes, e: Envelope)
    requires e.payload.Some? ==> forall b :: Has(c, b, digest(e.payload.value)) <==> Has(d, b, digest(e.payload.value))
    ensures ValidateEnvelope(v, c, digest, e) == ValidateEnvelope(v, d, digest, e)
  {
    hide Has;
    match v
    case ValidateOnly(inner) => CheckLooksAt(inner, c, d, digest, e);
    case Both(first, second) =>
      CheckLooksAt(first, c, d, digest, e);
      CheckLooksAt(second, c, d, digest, e);
    case _ =>
  }

  /** The event at this place is the mark of a request with the digest of this one. */
  predicate MarkOf(digest: Bytes -> Bytes, s: State, p: nat, e: Envelope) {
    p < |s.log| && s.log[p].Marked? && SamePayloadDigest(digest, Sent(s, s.log[p].job), e)
  }

  predicate MarkedSince(digest: Bytes -> Bytes, n: nat, s: State, e: Envelope) {
    exists p :: n <= p < |s.log| && MarkOf(digest, s, p, e)
  }

  lemma MarkSpoils(v: Validator, digest: Bytes -> Bytes, caches: Caches, f: Envelope, e: Envelope)
    requires RecordsSome(v) && f.payload.Some? && MessageExecuted(v, caches, digest, f).error.None?
    ensures ValidateEnvelope(v, MessageExecuted(v, caches, digest, f).caches, digest, e).None? <==>
            ValidateEnvelope(v, caches, digest, e).None? && !SamePayloadDigest(digest, f, e)
  {
    var after := MessageExecuted(v, caches, digest, f).caches;
    hide MessageExecuted, ValidateEnvelope, Records, RecordsSome, Consults, Has;
    if e.payload.Some? && digest(f.payload.value) == digest(e.payload.value) {
      var b := SomeRecorder(v);
      RecordsConsults(v, b);
      MarkingRecords(v, caches, digest, f, b, digest(e.payload.value));
      HeldIsRefused(v, after, digest, e, b);
    } else {
      if e.payload.Some? {
        forall b ensures Has(caches, b, digest(e.payload.value)) <==> Has(after, b, digest(e.payload.value)) {
          MarkingRecords(v, caches, digest, f, b, digest(e.payload.value));
        }
      }
      CheckLooksAt(v, caches, after, digest, e);
    }
  }

  lemma StepPasses(v: Validator, digest: Bytes -> Bytes, s: State, a: Action, e: Envelope)
    requires RecordsSome(v) && Payloads(s) && Step(v, digest, s, a).Some?
    ensures var t := Step(v, digest, s, a).value;
            ValidateEnvelope(v, t.caches, digest, e).None? <==>
            ValidateEnvelope(v, s.caches, digest, e).None? && !MarkOf(digest, t, |s.log|, e)
  {
    hide ValidateEnvelope, MessageExecuted, RecordsSome, SamePayloadDigest;
    if a.Mark? {
      MarkSpoils(v, digest, s.caches, s.jobs[a.job].envelope, e);
    }
  }

  lemma {:induction false} RunExtends(v: Validator, digest: Bytes -> Bytes, s: State, actions: seq<Action>)
    requires Run(v, digest, s, actions).Some?
    ensures var t := Run(v, digest, s, actions).value;
            && |s.jobs| <= |t.jobs| && s.log <= t.log
            && forall i :: 0 <= i < |s.jobs| ==> t.jobs[i].envelope == s.jobs[i].envelope
    decreases |actions|
  {
    hide Step;
    if actions == [] {
    } else {
      StepExtends(v, digest, s, actions[0]);
      RunExtends(v, digest, Step(v, digest, s, actions[0]).value, actions[1..]);
    }
  }

  lemma SameMark(digest: Bytes -> Bytes, s: State, t: State, p: nat, e: Envelope)
    requires Ordered(s) && |s.jobs| <= |t.jobs| && s.log <= t.log && p < |s.log|
    requires forall i :: 0 <= i < |s.jobs| ==> t.jobs[i].envelope == s.jobs[i].envelope
    ensures MarkOf(digest, t, p, e) <==> MarkOf(digest, s, p, e)
  {
    hide SamePayloadDigest, Earlier, Caused;
    assert t.log[p] == s.log[p];
  }

  /**
   * Exactly when an envelope passes the check, after every run: it passed before the run, and no
   * request of its digest was marked in it.
   */
  lemma {:induction false} PassesIff(v: Validator, digest: Bytes -> Bytes, s: State, actions: seq<Action>, e: Envelope)
    requires RecordsSome(v) && Ordered(s) && Payloads(s) && Run(v, digest, s, actions).Some?
    ensures var t := Run(v, digest, s, actions).value;
            ValidateEnvelope(v, t.caches, digest, e).None? <==>
            ValidateEnvelope(v, s.caches, digest, e).None? && !MarkedSince(digest, |s.log|, t, e)
    decreases |actions|
  {
    hide Step, ValidateEnvelope, RecordsSome, Ordered, Payloads, MarkOf;
    if actions == [] {
    } else {
      var u := Step(v, digest, s, actions[0]).value;
      var t := Run(v, digest, s, actions).value;
      StepOrdered(v, digest, s, actions[0]);
      StepPayloads(v, digest, s, actions[0]);
      StepExtends(v, digest, s, actions[0]);
      StepPasses(v, digest, s, actions[0], e);
      PassesIff(v, digest, u, actions[1..], e);
      RunExtends(v, digest, u, actions[1..]);
      MarkedSoon(digest, s, u, t, e);
    }
  }

  lemma MarkedSoon(digest: Bytes -> Bytes, s: State, u: State, t: State, e: Envelope)
    requires Ordered(u) && Extends(s, u) && |u.jobs| <= |t.jobs| && u.log <= t.log
    requires forall i :: 0 <= i < |u.jobs| ==> t.jobs[i].envelope == u.jobs[i].envelope
    ensures MarkedSince(digest, |s.log|, t, e) <==> MarkOf(digest, u, |s.log|, e) || MarkedSince(digest, |u.log|, t, e)
  {
    if |s.log| < |u.log| {
      SameMark(digest, u, t, |s.log|, e);
    }
    hide Ordered;
    if MarkedSince(digest, |s.log|, t, e) {
      var p :| |s.log| <= p < |t.log| && MarkOf(digest, t, p, e);
      assert p == |s.log| || |u.log| <= p;
    }
  }

  /** The sections from the check to the execution of a request that everything else admits. */
  function ToExecution(j: nat): seq<Action> { [Check(j, true), Admit(j, true, Module), Execute(j)] }

  lemma ToExecutionIff(v: Validator, digest: Bytes -> Bytes, t: State, j: nat)
    requires At(t, j, Submitted)
    ensures Run(v, digest, t, ToExecution(j)).Some? <==> ValidateEnvelope(v, t.caches, digest, t.jobs[j].envelope).None?
    ensures Run(v, digest, t, ToExecution(j)).Some? ==>
              var u := Run(v, digest, t, ToExecution(j)).value;
              && u.caches == t.caches && u.log == t.log + [Checked(j), Ran(j)]
              && u.jobs == t.jobs[j := t.jobs[j].(phase := Executed)]
  {
    hide ValidateEnvelope, Run;
    var acts := ToExecution(j);
    assert acts[0..] == acts;
    if ValidateEnvelope(v, t.caches, digest, t.jobs[j].envelope).None? {
      var passed := Move(t, j, Passed).(log := t.log + [Checked(j)]);
      var admitted := Move(t, j, Admitted(Module)).(log := t.log + [Checked(j)]);
      var executed := Move(t, j, Executed).(log := t.log + [Checked(j), Ran(j)]);
      OneStep(v, digest, acts, 0, t, passed);
      OneStep(v, digest, acts, 1, passed, admitted);
      OneStep(v, digest, acts, 2, admitted, executed);
      NoActions(v, digest, acts, executed);
    } else {
      OneStep(v, digest, acts, 0, t, Move(t, j, Closed));
      Stuck(v, digest, acts, 1, Move(t, j, Closed));
    }
  }

  lemma Stuck(v: Validator, digest: Bytes -> Bytes, acts: seq<Action>, n: nat, s: State)
    requires n < |acts| && Step(v, digest, s, acts[n]).None?
    ensures Run(v, digest, s, acts[n..]).None?
  {
    hide Step;
    assert acts[n..][0] == acts[n];
  }

  /**
   * At most once, exactly. After every run, a request that is waiting and that all else admits gets
   * executed just when it would have passed before the run and no request of its digest was marked
   * in it, however many of them have been executed.
   */
  lemma ExecutesIff(v: Validator, digest: Bytes -> Bytes, s: State, actions: seq<Action>, j: nat)
    requires RecordsSome(v) && Ordered(s) && Payloads(s) && Run(v, digest, s, actions).Some?
    requires At(Run(v, digest, s, actions).value, j, Submitted)
    ensures var t := Run(v, digest, s, actions).value;
            Run(v, digest, t, ToExecution(j)).Some? <==>
            ValidateEnvelope(v, s.caches, digest, t.jobs[j].envelope).None? &&
              !MarkedSince(digest, |s.log|, t, t.jobs[j].envelope)
  {
    hide Run, ValidateEnvelope, RecordsSome, Ordered, Payloads, MarkedSince, ToExecution;
    var t := Run(v, digest, s, actions).value;
    PassesIff(v, digest, s, actions, t.jobs[j].envelope);
    ToExecutionIff(v, digest, t, j);
  }

  /**
   * The race. Of two waiting copies that pass the check, the second is executed after the first has
   * been executed, and is not once the first has been marked.
   */
  lemma RacingDuplicates(v: Validator, digest: Bytes -> Bytes, s: State, i: nat, j: nat)
    requires RecordsSome(v) && Ordered(s) && Payloads(s) && i != j && At(s, i, Submitted) && At(s, j, Submitted)
    requires s.jobs[i].envelope == s.jobs[j].envelope && ValidateEnvelope(v, s.caches, digest, s.jobs[j].envelope).None?
    ensures var t := Run(v, digest, s, ToExecution(i));
            && t.Some? && Run(v, digest, t.value, ToExecution(j)).Some?
            && Step(v, digest, t.value, Mark(i)).Some?
            && Run(v, digest, Step(v, digest, t.value, Mark(i)).value, ToExecution(j)).None?
  {
    hide ValidateEnvelope, MessageExecuted, RecordsSome, Ordered, Payloads, ToExecution, Run;
    var e := s.jobs[j].envelope;
    ToExecutionIff(v, digest, s, i);
    var t := Run(v, digest, s, ToExecution(i)).value;
    ToExecutionIff(v, digest, t, j);
    MarkingSucceeds(v, s.caches, t.caches, digest, e);
    RecordersNeedPayload(v, s.caches, digest, e);
    MarkSpoils(v, digest, t.caches, e, e);
    ToExecutionIff(v, digest, Step(v, digest, t, Mark(i)).value, j);
  }

  /**
   * A request that the fallback handles is never marked: after every run in which no module executed
   * a request of its digest, it passes the check as before, however often it was forwarded.
   */
  lemma ForwardedPassAgain(v: Validator, digest: Bytes -> Bytes, s: State, actions: seq<Action>, e: Envelope)
    requires RecordsSome(v) && Ordered(s) && Payloads(s) && Run(v, digest, s, actions).Some?
    requires var t := Run(v, digest, s, actions).value;
             forall p :: 0 <= p < |t.log| && t.log[p].Ran? ==> !SamePayloadDigest(digest, Sent(t, t.log[p].job), e)
    ensures var t := Run(v, digest, s, actions).value;
            ValidateEnvelope(v, t.caches, digest, e).None? <==> ValidateEnvelope(v, s.caches, digest, e).None?
  {
    var t := Run(v, digest, s, actions).value;
    PassesIff(v, digest, s, actions, e);
    RunOrdered(v, digest, s, actions);
    hide Run, ValidateEnvelope, RecordsSome, SamePayloadDigest, Payloads, Logged;
    forall p | |s.log| <= p < |t.log| ensures !MarkOf(digest, t, p, e) {
      if t.log[p].Marked? {
        var q := RanBefore(t, p, t.log[p].job);
        assert t.log[q].Ran? && t.log[q].job == t.log[p].job;
      }
    }
  }

  lemma {:induction false} RunOrdered(v: Validator, digest: Bytes -> Bytes, s: State, actions: seq<Action>)
    requires Ordered(s) && Run(v, digest, s, actions).Some?
    ensures Ordered(Run(v, digest, s, actions).value)
    decreases |actions|
  {
    hide Ordered, Step;
    if actions == [] {
    } else {
      StepOrdered(v, digest, s, actions[0]);
      RunOrdered(v, digest, Step(v, digest, s, actions[0]).value, actions[1..]);
    }
  }

  lemma NoActions(v: Validator, digest: Bytes -> Bytes, acts: seq<Action>, s: State)
    ensures Run(v, digest, s, acts[|acts|..]) == Some(s)
  {
  }

  predicate SameState(s: State, t: State) {
    s.caches == t.caches && s.jobs == t.jobs && s.log == t.log
  }

  lemma OneStep(v: Validator, digest: Bytes -> Bytes, acts: seq<Action>, n: nat, s: State, t: State)
    requires n < |acts| && Step(v, digest, s, acts[n]).Some? && SameState(Step(v, digest, s, acts[n]).value, t)
    ensures Run(v, digest, s, acts[n..]) == Run(v, digest, t, acts[n + 1..])
  {
    hide Step;
    assert acts[n..][0] == acts[n] && acts[n..][1..] == acts[n + 1..];
  }

  // -------------------------------------------------------------------------------------------
  // Requests handled one at a time
  // -------------------------------------------------------------------------------------------

  datatype Request = Request(envelope: Envelope, valid: bool, accepted: bool, route: Route)

  datatype Handled = Handled(caches: Caches, ran: bool)

  function Handle(v: Validator, digest: Bytes -> Bytes, caches: Caches, r: Request): Handled {
    if ValidateEnvelope(v, caches, digest, r.envelope).Some? || !r.valid || !r.accepted || !r.route.Module? then
      Handled(caches, false)
    else Handled(MessageExecuted(v, caches, digest, r.envelope).caches, true)
  }

  /**
   * A request runs just when it is valid, accepted and routed to a module, every stateless validator
   * admits its envelope, it has a payload where a cache asks for one, and no consulted backend holds
   * the digest. What the caches then hold more is that digest, in the recording backends.
   */
  lemma HandledIff(v: Validator, digest: Bytes -> Bytes, caches: Caches, r: Request, b: nat, d: Bytes)
    ensures Handle(v, digest, caches, r).ran <==>
            && r.valid && r.accepted && r.route == Module
            && (forall i :: 0 <= i < |Leaves(v)| && Leaves(v)[i].Stateless? ==> Leaves(v)[i].admits(r.envelope))
            && (r.envelope.payload.None? ==> NoneNeedsPayload(Leaves(v)))
            && (r.envelope.payload.Some? ==>
                  forall c :: Consults(v, c) ==> !Has(caches, c, digest(r.envelope.payload.value)))
    ensures Has(Handle(v, digest, caches, r).caches, b, d) <==>
            || Has(caches, b, d)
            || (Handle(v, digest, caches, r).ran && Records(v, b)
                && r.envelope.payload.Some? && d == digest(r.envelope.payload.value))
  {
    hide ValidateEnvelope, MessageExecuted, Leaves, NoneNeedsPayload, Consults, Records, Has;
    AdmitsIff(v, caches, digest, r.envelope);
    if Handle(v, digest, caches, r).ran {
      MarkingSucceeds(v, caches, caches, digest, r.envelope);
      MarkingRecords(v, caches, digest, r.envelope, b, d);
    }
  }

  /** The caches before each request, and at the end. */
  function After(v: Validator, digest: Bytes -> Bytes, caches: Caches, rs: seq<Request>): Caches
    decreases |rs|
  {
    if rs == [] then caches else After(v, digest, Handle(v, digest, caches, rs[0]).caches, rs[1..])
  }

  predicate RanAt(v: Validator, digest: Bytes -> Bytes, caches: Caches, rs: seq<Request>, i: nat)
    requires i < |rs|
  {
    Handle(v, digest, After(v, digest, caches, rs[..i]), rs[i]).ran
  }

  lemma HandleHolds(v: Validator, digest: Bytes -> Bytes, b: nat, caches: Caches, r: Request, f: Envelope)
    requires Records(v, b)
    ensures Held(digest, b, caches, f) ==> Held(digest, b, Handle(v, digest, caches, r).caches, f)
    ensures Handle(v, digest, caches, r).ran ==> Held(digest, b, Handle(v, digest, caches, r).caches, r.envelope)
  {
    hide ValidateEnvelope, MessageExecuted, Records, RecordsSome, Consults, Held;
    if Handle(v, digest, caches, r).ran {
      RecordsConsults(v, b);
      RecordersNeedPayload(v, caches, digest, r.envelope);
      MarkingSucceeds(v, caches, caches, digest, r.envelope);
      MarkHolds(v, digest, b, caches, r.envelope, f);
    }
  }

  lemma {:induction false} AfterHolds(v: Validator, digest: Bytes -> Bytes, b: nat, caches: Caches,
      rs: seq<Request>, f: Envelope)
    requires Records(v, b) && Held(digest, b, caches, f)
    ensures Held(digest, b, After(v, digest, caches, rs), f)
    decreases |rs|
  {
    hide Held, Handle, Records;
    if rs == [] {
    } else {
      HandleHolds(v, digest, b, caches, rs[0], f);
      AfterHolds(v, digest, b, Handle(v, digest, caches, rs[0]).caches, rs[1..], f);
    }
  }

  lemma {:induction false} AfterSplit(v: Validator, digest: Bytes -> Bytes, caches: Caches, a: seq<Request>,
      c: seq<Request>)
    ensures After(v, digest, caches, a + c) == After(v, digest, After(v, digest, caches, a), c)
    decreases |a|
  {
    hide Handle;
    if a == [] {
      assert a + c == c;
    } else {
      assert (a + c)[1..] == a[1..] + c;
      AfterSplit(v, digest, Handle(v, digest, caches, a[0]).caches, a[1..], c);
    }
  }

  /** Handled one at a time, no two requests of one digest both run. */
  lemma AtMostOnce(v: Validator, digest: Bytes -> Bytes, caches: Caches, rs: seq<Request>, i: nat, j: nat)
    requires RecordsSome(v) && i < j < |rs|
    requires RanAt(v, digest, caches, rs, i) && RanAt(v, digest, caches, rs, j)
    ensures !SamePayloadDigest(digest, rs[i].envelope, rs[j].envelope)
  {
    var b := SomeRecorder(v);
    RecordsConsults(v, b);
    hide After, MessageExecuted, ValidateEnvelope, Records, RecordsSome, Consults, Held, SamePayloadDigest;
    var before := After(v, digest, caches, rs[..i]);
    var then_ := Handle(v, digest, before, rs[i]).caches;
    HandleHolds(v, digest, b, before, rs[i], rs[i].envelope);
    AfterHolds(v, digest, b, then_, rs[i + 1..j], rs[i].envelope);
    Between(v, digest, caches, rs, i, j);
    CheckMisses(v, digest, b, After(v, digest, caches, rs[..j]), rs[j].envelope, rs[i].envelope);
  }

  lemma Between(v: Validator, digest: Bytes -> Bytes, caches: Caches, rs: seq<Request>, i: nat, j: nat)
    requires i < j < |rs|
    ensures After(v, digest, caches, rs[..j]) ==
            After(v, digest, Handle(v, digest, After(v, digest, caches, rs[..i]), rs[i]).caches, rs[i + 1..j])
  {
    hide Handle;
    assert rs[..j] == rs[..i] + rs[i..j];
    AfterSplit(v, digest, caches, rs[..i], rs[i..j]);
    assert rs[i..j][0] == rs[i] && rs[i..j][1..] == rs[i + 1..j];
  }

  /** Sent a second time, a request that ran runs again just when nothing in the tree records. */
  lemma ReplayRunsIff(v: Validator, digest: Bytes -> Bytes, caches: Caches, r: Request)
    requires Handle(v, digest, caches, r).ran
    ensures Handle(v, digest, Handle(v, digest, caches, r).caches, r).ran <==> !RecordsSome(v)
  {
    if RecordsSome(v) {
      var b := SomeRecorder(v);
      RecordsConsults(v, b);
      RecordersNeedPayload(v, caches, digest, r.envelope);
      HandleHolds(v, digest, b, caches, r, r.envelope);
      HeldIsRefused(v, Handle(v, digest, caches, r).caches, digest, r.envelope, b);
    } else {
      NothingRecorded(v, caches, digest, r.envelope);
    }
  }

  /** The critical sections a request goes through when no other comes between them. */
  function Sections(v: Validator, digest: Bytes -> Bytes, caches: Caches, r: Request, n: nat): seq<Action> {
    var begin := [Submit(r.envelope), Check(n, r.valid)];
    if ValidateEnvelope(v, caches, digest, r.envelope).Some? || !r.valid then begin
    else if !r.accepted || r.route.Unrouted? then begin + [Admit(n, r.accepted, r.route)]
    else if r.route.Fallback? then begin + [Admit(n, true, r.route), Execute(n)]
    else begin + [Admit(n, true, r.route), Execute(n), Mark(n)]
  }

  function Last(s: State, e: Envelope, phase: Phase): State {
    s.(jobs := s.jobs + [Job(e, phase)])
  }

  lemma LastMoves(s: State, e: Envelope, x: Phase, y: Phase)
    ensures At(Last(s, e, x), |s.jobs|, x) && Move(Last(s, e, x), |s.jobs|, y) == Last(s, e, y)
  {
    assert (s.jobs + [Job(e, x)])[|s.jobs| := Job(e, y)] == s.jobs + [Job(e, y)];
  }

  /** Handling a request alone is running its sections: same caches, and it ran just when the log says so. */
  lemma HandleIsRun(v: Validator, digest: Bytes -> Bytes, s: State, r: Request)
    ensures var t := Run(v, digest, s, Sections(v, digest, s.caches, r, |s.jobs|));
            && t.Some?
            && t.value.caches == Handle(v, digest, s.caches, r).caches
            && t.value.log == s.log + SectionsLog(v, digest, s.caches, r, |s.jobs|)
  {
    hide ValidateEnvelope, MessageExecuted, Run, Move, At, Last;
    var n, e := |s.jobs|, r.envelope;
    var acts := Sections(v, digest, s.caches, r, n);
    LastAlone(s, e);
    LastMoves(s, e, Submitted, Passed);
    LastMoves(s, e, Submitted, Closed);
    LastMoves(s, e, Passed, Closed);
    LastMoves(s, e, Passed, Admitted(r.route));
    assert acts[0..] == acts;
    OneStep(v, digest, acts, 0, s, Last(s, e, Submitted));
    if ValidateEnvelope(v, s.caches, digest, e).Some? || !r.valid {
      OneStep(v, digest, acts, 1, Last(s, e, Submitted), Last(s, e, Closed));
      NoActions(v, digest, acts, Last(s, e, Closed));
    } else {
      var passed := Last(s, e, Passed).(log := s.log + [Checked(n)]);
      OneStep(v, digest, acts, 1, Last(s, e, Submitted), passed);
      HandleTail(v, digest, s, r, acts, passed);
    }
  }

  lemma LastAlone(s: State, e: Envelope)
    ensures forall x :: Last(s, e, x).caches == s.caches && Last(s, e, x).log == s.log
    ensures forall x :: |Last(s, e, x).jobs| == |s.jobs| + 1
    ensures forall x :: Last(s, e, x).jobs[|s.jobs|].envelope == e
    ensures s.(jobs := s.jobs + [Job(e, Submitted)]) == Last(s, e, Submitted)
  {
  }

  /** The events a request handled alone leaves. */
  function SectionsLog(v: Validator, digest: Bytes -> Bytes, caches: Caches, r: Request, n: nat): seq<Event> {
    if ValidateEnvelope(v, caches, digest, r.envelope).Some? || !r.valid then []
    else if Handle(v, digest, caches, r).ran then [Checked(n), Ran(n), Marked(n)]
    else [Checked(n)]
  }

  lemma HandleTail(v: Validator, digest: Bytes -> Bytes, s: State, r: Request, acts: seq<Action>, passed: State)
    requires acts == Sections(v, digest, s.caches, r, |s.jobs|)
    requires ValidateEnvelope(v, s.caches, digest, r.envelope).None? && r.valid
    requires passed == Last(s, r.envelope, Passed).(log := s.log + [Checked(|s.jobs|)])
    ensures var t := Run(v, digest, passed, acts[2..]);
            && t.Some?
            && t.value.caches == Handle(v, digest, s.caches, r).caches
            && t.value.log == s.log + SectionsLog(v, digest, s.caches, r, |s.jobs|)
  {
    hide ValidateEnvelope, MessageExecuted, Run, Move, At;
    var n, e := |s.jobs|, r.envelope;
    var closed := Shown(s, e, Closed, [Checked(n)]);
    ShownMoves(s, e, Passed, Closed, [Checked(n)]);
    ShownMoves(s, e, Passed, Admitted(r.route), [Checked(n)]);
    ShownMoves(s, e, Admitted(r.route), Closed, [Checked(n)]);
    ShownMoves(s, e, Admitted(r.route), Executed, [Checked(n)]);
    var admitted := Shown(s, e, Admitted(r.route), [Checked(n)]);
    if !r.accepted || r.route.Unrouted? {
      OneStep(v, digest, acts, 2, passed, closed);
      NoActions(v, digest, acts, closed);
    } else if r.route.Fallback? {
      OneStep(v, digest, acts, 2, passed, admitted);
      OneStep(v, digest, acts, 3, admitted, closed);
      NoActions(v, digest, acts, closed);
    } else {
      OneStep(v, digest, acts, 2, passed, admitted);
      var executed := Shown(s, e, Executed, [Checked(n), Ran(n)]);
      OneStep(v, digest, acts, 3, admitted, executed);
      ShownMoves(s, e, Executed, Closed, [Checked(n), Ran(n)]);
      MarkingSucceeds(v, s.caches, s.caches, digest, e);
      var marked := Shown(s, e, Closed, [Checked(n), Ran(n), Marked(n)])
                    .(caches := MessageExecuted(v, s.caches, digest, e).caches);
      OneStep(v, digest, acts, 4, executed, marked);
      NoActions(v, digest, acts, marked);
    }
  }

  function Shown(s: State, e: Envelope, phase: Phase, events: seq<Event>): State {
    Last(s, e, phase).(log := s.log + events)
  }

  lemma ShownMoves(s: State, e: Envelope, x: Phase, y: Phase, events: seq<Event>)
    ensures forall z :: At(Shown(s, e, x, events), |s.jobs|, z) <==> z == x
    ensures Move(Shown(s, e, x, events), |s.jobs|, y) == Shown(s, e, y, events)
  {
    assert (s.jobs + [Job(e, x)])[|s.jobs| := Job(e, y)] == s.jobs + [Job(e, y)];
  }

  // -------------------------------------------------------------------------------------------
  // The server object
  // -------------------------------------------------------------------------------------------

  datatype ModuleInfo = ModuleInfo(attribute: Option<nat>, endpoints: seq<string>)

  /** Each endpoint belongs to at most one module. */
  predicate Separate(modules: seq<ModuleInfo>) {
    forall i, j, e :: 0 <= i < j < |modules| && e in modules[i].endpoints ==> e !in modules[j].endpoints
  }

  predicate Offers(modules: seq<ModuleInfo>, e: string) {
    exists i :: 0 <= i < |modules| && e in modules[i].endpoints
  }

  predicate Conflict(modules: seq<ModuleInfo>, methods: set<string>, m: ModuleInfo) {
    || (m.attribute.Some? && exists i :: 0 <= i < |modules| && modules[i].attribute == m.attribute)
    || (exists i :: 0 <= i < |m.endpoints| && m.endpoints[i] in methods)
  }

  class ManyServer {
    var validator: Validator
    const table: CacheTable
    var modules: seq<ModuleInfo>
    var methods: set<string>
    const fallback: bool

    ghost predicate Valid()
      reads this
    {
      Separate(modules) && forall e :: e in methods <==> Offers(modules, e)
    }

    constructor (fallback: bool, table: CacheTable)
      ensures Valid() && validator == Accept && modules == []
      ensures this.fallback == fallback && this.table == table
    {
      validator, modules, methods := Accept, [], {};
      this.fallback, this.table := fallback, table;
    }

    /** Adds a validator after those already there: what they record and consult stays so. */
    method AddValidator(v: Validator)
      modifies this`validator
      ensures forall b :: Records(validator, b) <==> Records(old(validator), b) || Records(v, b)
      ensures forall c, digest, e :: ValidateEnvelope(validator, c, digest, e).None? <==>
                ValidateEnvelope(old(validator), c, digest, e).None? && ValidateEnvelope(v, c, digest, e).None?
    {
      validator := Both(validator, v);
    }

    /** False where the server refuses to start: an attribute or an endpoint is already taken. */
    method AddModule(m: ModuleInfo) returns (ok: bool)
      requires Valid()
      modifies this`modules, this`methods
      ensures Valid() && ok == !old(Conflict(modules, methods, m))
      ensures ok <==>
              && (m.attribute.Some? ==>
                    forall i :: 0 <= i < |old(modules)| ==> old(modules)[i].attribute != m.attribute)
              && (forall e :: e in m.endpoints ==> !Offers(old(modules), e))
      ensures modules == if ok then old(modules) + [m] else old(modules)
    {
      if m.attribute.Some? {
        for i := 0 to |modules|
          invariant forall k :: 0 <= k < i ==> modules[k].attribute != m.attribute
        {
          if modules[i].attribute == m.attribute {
            return false;
          }
        }
      }
      for i := 0 to |m.endpoints|
        invariant forall k :: 0 <= k < i ==> m.endpoints[k] !in methods
      {
        if m.endpoints[i] in methods {
          return false;
        }
      }
      var grown := methods;
      for i := 0 to |m.endpoints|
        invariant forall e :: e in grown <==> e in methods || e in m.endpoints[..i]
      {
        assert m.endpoints[..i + 1] == m.endpoints[..i] + [m.endpoints[i]];
        grown := grown + {m.endpoints[i]};
      }
      assert m.endpoints[..|m.endpoints|] == m.endpoints;
      OffersGrow(modules, m);
      methods := grown;
      modules := modules + [m];
      return true;
    }

    /** The one module that has the endpoint, if any has. */
    method FindModule(name: string) returns (r: Option<nat>)
      requires Valid()
      ensures r.Some? <==> name in methods
      ensures forall k :: 0 <= k < |modules| ==> (name in modules[k].endpoints <==> r == Some(k))
    {
      for i := 0 to |modules|
        invariant forall k :: 0 <= k < i ==> name !in modules[k].endpoints
      {
        if name in modules[i].endpoints {
          return Some(i);
        }
      }
      return None;
    }

    /** All the phases of one request with no other in between; marking cannot fail. */
    method HandleAlone(e: Envelope, valid: bool, accepted: bool, name: string) returns (ran: bool)
      requires Valid()
      modifies table
      ensures Valid()
      ensures Handled(table.caches, ran) ==
              Handle(validator, table.digest, old(table.caches),
                     Request(e, valid, accepted,
                       if name in methods then Module else if fallback then Fallback else Unrouted))
    {
      hide ValidateEnvelope, MessageExecuted;
      var error := table.Check(validator, e);
      if error.Some? || !valid || !accepted {
        return false;
      }
      var m := FindModule(name);
      if m.None? {
        return false;
      }
      MarkingSucceeds(validator, table.caches, table.caches, table.digest, e);
      error := table.Mark(validator, e);
      assert error.None?;
      return true;
    }
  }

  lemma OffersGrow(modules: seq<ModuleInfo>, m: ModuleInfo)
    ensures forall e :: Offers(modules + [m], e) <==> Offers(modules, e) || e in m.endpoints
  {
    forall e ensures Offers(modules + [m], e) <==> Offers(modules, e) || e in m.endpoints {
      assert (modules + [m])[|modules|] == m;
      if Offers(modules, e) {
        var i :| 0 <= i < |modules| && e in modules[i].endpoints;
        assert e in (modules + [m])[i].endpoints;
      }
    }
  }
}
