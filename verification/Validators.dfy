/** Request validators composed as a tree, some of which remember the requests already executed. */
module Validators {
  import opened Wrappers
  import opened Bytes

  datatype Envelope = Envelope(payload: Option<Bytes>, sender: Bytes)

  /** The sets of digests kept by the cache backends; validators may share a backend. */
  type Caches = map<nat, set<Bytes>>

  datatype Error = EmptyEnvelope | Duplicated | Refused

  datatype Validator =
    | Accept
    | Cache(backend: nat)
    | NullCache
    | ValidateOnly(inner: Validator)
    | Both(first: Validator, second: Validator)
    | Stateless(admits: Envelope -> bool)

  predicate Has(caches: Caches, b: nat, d: Bytes) { b in caches && d in caches[b] }

  function Put(caches: Caches, b: nat, d: Bytes): Caches {
    caches[b := (if b in caches then caches[b] else {}) + {d}]
  }

  function ValidateEnvelope(v: Validator, caches: Caches, digest: Bytes -> Bytes, e: Envelope): Option<Error> {
    match v
    case Accept => None
    case Cache(b) =>
      if e.payload.None? then Some(EmptyEnvelope)
      else if Has(caches, b, digest(e.payload.value)) then Some(Duplicated)
      else None
    case NullCache => if e.payload.None? then Some(EmptyEnvelope) else None
    case ValidateOnly(inner) => ValidateEnvelope(inner, caches, digest, e)
    case Both(first, second) =>
      var r := ValidateEnvelope(first, caches, digest, e);
      if r.Some? then r else ValidateEnvelope(second, caches, digest, e)
    case Stateless(admits) => if admits(e) then None else Some(Refused)
  }

  datatype Marking = Marking(caches: Caches, error: Option<Error>)

  function MessageExecuted(v: Validator, caches: Caches, digest: Bytes -> Bytes, e: Envelope): Marking {
    match v
    case Accept => Marking(caches, None)
    case Cache(b) =>
      if e.payload.None? then Marking(caches, Some(EmptyEnvelope))
      else Marking(Put(caches, b, digest(e.payload.value)), None)
    case NullCache => Marking(caches, if e.payload.None? then Some(EmptyEnvelope) else None)
    case ValidateOnly(_) => Marking(caches, None)
    case Both(first, second) =>
      var m := MessageExecuted(first, caches, digest, e);
      if m.error.Some? then m else MessageExecuted(second, m.caches, digest, e)
    case Stateless(_) => Marking(caches, None)
  }

  /** The backend is consulted somewhere in the tree. */
  predicate Consults(v: Validator, b: nat) {
    match v
    case Cache(c) => c == b
    case ValidateOnly(inner) => Consults(inner, b)
    case Both(first, second) => Consults(first, b) || Consults(second, b)
    case _ => false
  }

  /** The backend is consulted by a validator that also records: one that is not wrapped. */
  predicate Records(v: Validator, b: nat) {
    match v
    case Cache(c) => c == b
    case Both(first, second) => Records(first, b) || Records(second, b)
    case _ => false
  }

  predicate RecordsSome(v: Validator) {
    match v
    case Cache(_) => true
    case Both(first, second) => RecordsSome(first) || RecordsSome(second)
    case _ => false
  }

  lemma {:induction false} RecordsConsults(v: Validator, b: nat)
    requires Records(v, b)
    ensures Consults(v, b) && RecordsSome(v)
  {
    if v.Both? {
      if Records(v.first, b) {
        RecordsConsults(v.first, b);
      } else {
        RecordsConsults(v.second, b);
      }
    }
  }

  lemma {:induction false} SomeRecorder(v: Validator) returns (b: nat)
    requires RecordsSome(v)
    ensures Records(v, b)
  {
    match v
    case Cache(c) => b := c;
    case Both(first, second) =>
      if RecordsSome(first) {
        b := SomeRecorder(first);
      } else {
        b := SomeRecorder(second);
      }
    case _ =>
  }

  /** A digest that a consulted backend holds is refused. */
  lemma {:induction false} HeldIsRefused(v: Validator, caches: Caches, digest: Bytes -> Bytes, e: Envelope, b: nat)
    requires Consults(v, b) && e.payload.Some? && Has(caches, b, digest(e.payload.value))
    ensures ValidateEnvelope(v, caches, digest, e).Some?
  {
    match v
    case ValidateOnly(inner) => HeldIsRefused(inner, caches, digest, e, b);
    case Both(first, second) =>
      if Consults(first, b) {
        HeldIsRefused(first, caches, digest, e, b);
      } else {
        HeldIsRefused(second, caches, digest, e, b);
      }
    case _ =>
  }

  /**
   * An envelope that passed the check is always markable, whatever the caches have become in
   * between: marking never fails, so the server never stops on an inconsistent state.
   */
  lemma {:induction false} MarkingSucceeds(v: Validator, before: Caches, after: Caches, digest: Bytes -> Bytes,
      e: Envelope)
    requires ValidateEnvelope(v, before, digest, e).None?
    ensures MessageExecuted(v, after, digest, e).error.None?
  {
    if v.Both? {
      MarkingSucceeds(v.first, before, after, digest, e);
      MarkingSucceeds(v.second, before, MessageExecuted(v.first, after, digest, e).caches, digest, e);
    }
  }

  /** Marking adds the digest to every recording backend of the tree, and changes nothing else. */
  lemma {:induction false} MarkingRecords(v: Validator, caches: Caches, digest: Bytes -> Bytes, e: Envelope, b: nat,
      d: Bytes)
    requires MessageExecuted(v, caches, digest, e).error.None?
    ensures Has(MessageExecuted(v, caches, digest, e).caches, b, d) <==>
            Has(caches, b, d) || (Records(v, b) && e.payload.Some? && d == digest(e.payload.value))
  {
    if v.Both? {
      var m := MessageExecuted(v.first, caches, digest, e);
      MarkingRecords(v.first, caches, digest, e, b, d);
      MarkingRecords(v.second, m.caches, digest, e, b, d);
    }
  }

  lemma {:induction false} NothingRecorded(v: Validator, caches: Caches, digest: Bytes -> Bytes, e: Envelope)
    requires !RecordsSome(v)
    ensures MessageExecuted(v, caches, digest, e).caches == caches
  {
    if v.Both? {
      NothingRecorded(v.first, caches, digest, e);
      NothingRecorded(v.second, caches, digest, e);
    }
  }

  /** A tree that records something admits no envelope without a payload. */
  lemma {:induction false} RecordersNeedPayload(v: Validator, caches: Caches, digest: Bytes -> Bytes, e: Envelope)
    requires RecordsSome(v) && ValidateEnvelope(v, caches, digest, e).None?
    ensures e.payload.Some?
  {
    if v.Both? {
      if RecordsSome(v.first) {
        RecordersNeedPayload(v.first, caches, digest, e);
      } else {
        RecordersNeedPayload(v.second, caches, digest, e);
      }
    }
  }

  // -------------------------------------------------------------------------------------------
  // What a tree admits
  // -------------------------------------------------------------------------------------------

  /** The validators at the leaves of the tree, left to right, wrapped or not. */
  function Leaves(v: Validator): seq<Validator> {
    match v
    case ValidateOnly(inner) => Leaves(inner)
    case Both(first, second) => Leaves(first) + Leaves(second)
    case _ => [v]
  }

  /** The leaves that see executed messages: those not wrapped. */
  function Unwrapped(v: Validator): seq<Validator> {
    match v
    case ValidateOnly(_) => []
    case Both(first, second) => Unwrapped(first) + Unwrapped(second)
    case _ => [v]
  }

  /** A validator that asks for a payload. */
  predicate NeedsPayload(l: Validator) { l.Cache? || l.NullCache? }

  /** The reasons a leaf has to refuse an envelope. */
  predicate Refuses(l: Validator, caches: Caches, digest: Bytes -> Bytes, e: Envelope, error: Error) {
    match error
    case EmptyEnvelope => NeedsPayload(l) && e.payload.None?
    case Duplicated => l.Cache? && e.payload.Some? && Has(caches, l.backend, digest(e.payload.value))
    case Refused => l.Stateless? && !l.admits(e)
  }

  ghost predicate NoneRefuses(ls: seq<Validator>, caches: Caches, digest: Bytes -> Bytes, e: Envelope) {
    forall i, error :: 0 <= i < |ls| ==> !Refuses(ls[i], caches, digest, e, error)
  }

  /** Some leaf refuses with this error, and no leaf to its left refuses at all. */
  ghost predicate FirstRefuses(ls: seq<Validator>, caches: Caches, digest: Bytes -> Bytes, e: Envelope,
      error: Error)
  {
    exists i :: 0 <= i < |ls| && Refuses(ls[i], caches, digest, e, error) &&
      NoneRefuses(ls[..i], caches, digest, e)
  }

  lemma RefusesConcat(xs: seq<Validator>, ys: seq<Validator>, caches: Caches, digest: Bytes -> Bytes, e: Envelope)
    ensures NoneRefuses(xs + ys, caches, digest, e) <==>
            NoneRefuses(xs, caches, digest, e) && NoneRefuses(ys, caches, digest, e)
  {
    var all := xs + ys;
    assert forall i :: 0 <= i < |xs| ==> all[i] == xs[i];
    assert forall i :: 0 <= i < |ys| ==> all[|xs| + i] == ys[i];
    if NoneRefuses(all, caches, digest, e) {
      forall i, error | 0 <= i < |ys| ensures !Refuses(ys[i], caches, digest, e, error) {
        assert !Refuses(all[|xs| + i], caches, digest, e, error);
      }
    }
  }

  lemma FirstRefusesLeft(xs: seq<Validator>, ys: seq<Validator>, caches: Caches, digest: Bytes -> Bytes,
      e: Envelope, error: Error)
    requires FirstRefuses(xs, caches, digest, e, error)
    ensures FirstRefuses(xs + ys, caches, digest, e, error)
  {
    var i :| 0 <= i < |xs| && Refuses(xs[i], caches, digest, e, error) && NoneRefuses(xs[..i], caches, digest, e);
    assert (xs + ys)[..i] == xs[..i] && (xs + ys)[i] == xs[i];
  }

  lemma FirstRefusesRight(xs: seq<Validator>, ys: seq<Validator>, caches: Caches, digest: Bytes -> Bytes,
      e: Envelope, error: Error)
    requires NoneRefuses(xs, caches, digest, e) && FirstRefuses(ys, caches, digest, e, error)
    ensures FirstRefuses(xs + ys, caches, digest, e, error)
  {
    hide Refuses;
    var i :| 0 <= i < |ys| && Refuses(ys[i], caches, digest, e, error) && NoneRefuses(ys[..i], caches, digest, e);
    RefusesConcat(xs, ys[..i], caches, digest, e);
    assert (xs + ys)[..|xs| + i] == xs + ys[..i] && (xs + ys)[|xs| + i] == ys[i];
  }

  /** The answer of the tree is that of its leftmost leaf that refuses. */
  lemma {:induction false} LeftmostRefusal(v: Validator, caches: Caches, digest: Bytes -> Bytes, e: Envelope)
    ensures ValidateEnvelope(v, caches, digest, e).None? ==> NoneRefuses(Leaves(v), caches, digest, e)
    ensures ValidateEnvelope(v, caches, digest, e).Some? ==>
              FirstRefuses(Leaves(v), caches, digest, e, ValidateEnvelope(v, caches, digest, e).value)
  {
    match v
    case ValidateOnly(inner) => LeftmostRefusal(inner, caches, digest, e);
    case Both(first, second) =>
      hide Refuses, NoneRefuses, FirstRefuses;
      LeftmostRefusal(first, caches, digest, e);
      LeftmostRefusal(second, caches, digest, e);
      RefusesConcat(Leaves(first), Leaves(second), caches, digest, e);
      var r := ValidateEnvelope(first, caches, digest, e);
      var q := ValidateEnvelope(second, caches, digest, e);
      if r.Some? {
        FirstRefusesLeft(Leaves(first), Leaves(second), caches, digest, e, r.value);
      } else if q.Some? {
        FirstRefusesRight(Leaves(first), Leaves(second), caches, digest, e, q.value);
      }
    case _ =>
      assert [v][..0] == [];
      LeafRefusal(v, caches, digest, e);
  }

  lemma LeafRefusal(v: Validator, caches: Caches, digest: Bytes -> Bytes, e: Envelope)
    requires !v.ValidateOnly? && !v.Both?
    ensures forall error :: Refuses(v, caches, digest, e, error) <==>
              ValidateEnvelope(v, caches, digest, e) == Some(error)
    ensures NoneRefuses([], caches, digest, e)
  {
    forall error ensures Refuses(v, caches, digest, e, error) <==>
        ValidateEnvelope(v, caches, digest, e) == Some(error) {
      match error
      case EmptyEnvelope =>
      case Duplicated =>
      case Refused =>
    }
  }

  lemma {:induction false} ConsultedLeaf(v: Validator, b: nat)
    ensures Consults(v, b) <==> Cache(b) in Leaves(v)
  {
    match v
    case ValidateOnly(inner) => ConsultedLeaf(inner, b);
    case Both(first, second) =>
      ConsultedLeaf(first, b);
      ConsultedLeaf(second, b);
    case _ =>
  }

  predicate NoneNeedsPayload(ls: seq<Validator>) {
    forall i :: 0 <= i < |ls| ==> !NeedsPayload(ls[i])
  }

  lemma NeedsConcat(xs: seq<Validator>, ys: seq<Validator>)
    ensures NoneNeedsPayload(xs + ys) <==> NoneNeedsPayload(xs) && NoneNeedsPayload(ys)
  {
    assert forall i :: 0 <= i < |xs| ==> (xs + ys)[i] == xs[i];
    forall i | 0 <= i < |ys| ensures (xs + ys)[|xs| + i] == ys[i] {}
    if NoneNeedsPayload(xs + ys) {
      forall i | 0 <= i < |ys| ensures !NeedsPayload(ys[i]) {
        assert !NeedsPayload((xs + ys)[|xs| + i]);
      }
    }
  }

  /**
   * A tree admits an envelope just when every stateless validator in it does, there is a payload if
   * any cache in it asks for one, and no backend that it consults holds the payload's digest.
   */
  lemma AdmitsIff(v: Validator, caches: Caches, digest: Bytes -> Bytes, e: Envelope)
    ensures ValidateEnvelope(v, caches, digest, e).None? <==>
            && (forall i :: 0 <= i < |Leaves(v)| && Leaves(v)[i].Stateless? ==> Leaves(v)[i].admits(e))
            && (e.payload.None? ==> NoneNeedsPayload(Leaves(v)))
            && (e.payload.Some? ==> forall b :: Consults(v, b) ==> !Has(caches, b, digest(e.payload.value)))
  {
    hide ValidateEnvelope, Leaves, Consults, Has;
    var ls := Leaves(v);
    LeftmostRefusal(v, caches, digest, e);
    forall b ensures Consults(v, b) <==> Cache(b) in ls {
      ConsultedLeaf(v, b);
    }
    if ValidateEnvelope(v, caches, digest, e).None? {
      forall i | 0 <= i < |ls| ensures ls[i].Stateless? ==> ls[i].admits(e) {
        assert !Refuses(ls[i], caches, digest, e, Refused);
      }
      forall i | 0 <= i < |ls| ensures e.payload.None? ==> !NeedsPayload(ls[i]) {
        assert !Refuses(ls[i], caches, digest, e, EmptyEnvelope);
      }
      forall b | Consults(v, b) ensures e.payload.Some? ==> !Has(caches, b, digest(e.payload.value)) {
        var i :| 0 <= i < |ls| && ls[i] == Cache(b);
        assert !Refuses(ls[i], caches, digest, e, Duplicated);
      }
    }
  }

  /** Marking fails just when there is no payload and an unwrapped cache asks for one; it then records nothing. */
  lemma {:induction false} MarkingIff(v: Validator, caches: Caches, digest: Bytes -> Bytes, e: Envelope)
    ensures var m := MessageExecuted(v, caches, digest, e);
            && (m.error.None? <==> e.payload.Some? || NoneNeedsPayload(Unwrapped(v)))
            && (e.payload.None? ==> m.caches == caches)
            && (m.error.Some? ==> m.error == Some(EmptyEnvelope))
  {
    match v
    case Both(first, second) =>
      var m := MessageExecuted(first, caches, digest, e);
      MarkingIff(first, caches, digest, e);
      MarkingIff(second, m.caches, digest, e);
      NeedsConcat(Unwrapped(first), Unwrapped(second));
    case ValidateOnly(_) =>
    case _ => assert Unwrapped(v)[0] == v;
  }

  /** The cache backends, shared by the validators that name them. */
  class CacheTable {
    var caches: Caches
    const digest: Bytes -> Bytes

    constructor (digest: Bytes -> Bytes)
      ensures caches == map[] && this.digest == digest
    {
      caches := map[];
      this.digest := digest;
    }

    method Add(b: nat, d: Bytes)
      modifies this
      ensures forall c, x :: Has(caches, c, x) <==> Has(old(caches), c, x) || (c == b && x == d)
      ensures caches == Put(old(caches), b, d)
    {
      caches := Put(caches, b, d);
    }

    method Check(v: Validator, e: Envelope) returns (error: Option<Error>)
      ensures error == ValidateEnvelope(v, caches, digest, e)
      ensures error.None? ==> NoneRefuses(Leaves(v), caches, digest, e)
      ensures error.Some? ==> FirstRefuses(Leaves(v), caches, digest, e, error.value)
      decreases v
    {
      hide NoneRefuses, FirstRefuses;
      LeftmostRefusal(v, caches, digest, e);
      match v
      case Accept => error := None;
      case Cache(b) =>
        if e.payload.None? {
          return Some(EmptyEnvelope);
        }
        error := if Has(caches, b, digest(e.payload.value)) then Some(Duplicated) else None;
      case NullCache => error := if e.payload.None? then Some(EmptyEnvelope) else None;
      case ValidateOnly(inner) => error := Check(inner, e);
      case Both(first, second) =>
        error := Check(first, e);
        if error.None? {
          error := Check(second, e);
        }
      case Stateless(admits) => error := if admits(e) then None else Some(Refused);
    }

    /** Each recording validator puts the digest in its backend; an error ends the walk. */
    method Mark(v: Validator, e: Envelope) returns (error: Option<Error>)
      modifies this
      ensures Marking(caches, error) == MessageExecuted(v, old(caches), digest, e)
      decreases v
    {
      match v
      case Accept => error := None;
      case Cache(b) =>
        if e.payload.None? {
          return Some(EmptyEnvelope);
        }
        Add(b, digest(e.payload.value));
        error := None;
      case NullCache => error := if e.payload.None? then Some(EmptyEnvelope) else None;
      case ValidateOnly(_) => error := None;
      case Both(first, second) =>
        error := Mark(first, e);
        if error.None? {
          error := Mark(second, e);
        }
      case Stateless(_) => error := None;
    }
  }
}
