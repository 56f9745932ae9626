/**
 * The ABCI bridge's `begin_block` and `deliver_tx`. All nodes of a chain must return the same bytes for a
 * transaction, although their backends answer with their own address and clock and may have
 * been restarted at different blocks.
 */
module Abci {
  import opened Wrappers
  import opened Bytes
  import opened Cbor
  import opened Errors
  import A = Address
  import Attributes
  import M = Migration
  import R = Response

  const LEGACY_ERROR_CODE := "LegacyErrorCode"
  const EPOCH: U64 := 0

  // -------------------------------------------------------------------------------------------
  // Normalisation
  // -------------------------------------------------------------------------------------------

  /** While the legacy trigger is active, attribute-specific codes are reported as unknown. */
  function LegacyOutcome(o: R.Outcome, legacy: bool): R.Outcome {
    if legacy && o.Err? && o.error.code.AttributeSpecific? then R.Err(o.error.(code := UNKNOWN)) else o
  }

  function Normalise(r: R.Response, legacy: bool): R.Response {
    r.(from := A.ANONYMOUS, version := None, timestamp := Some(EPOCH), data := LegacyOutcome(r.data, legacy))
  }

  lemma NormaliseValid(r: R.Response, legacy: bool)
    requires R.Valid(r)
    ensures R.Valid(Normalise(r, legacy))
  {
  }

  /** The response that the bridge works on: an unreadable payload counts as the default one. */
  function Answer(payload: Bytes): R.Response {
    var r := R.FromBytes(payload);
    if r.Some? then r.value else R.DEFAULT
  }

  lemma AnswerValid(payload: Bytes)
    requires |payload| < TWO_64
    ensures R.Valid(Answer(payload))
  {
    hide R.Valid, R.Decode;
    R.DecodeValid(payload);
    R.DefaultValid();
  }

  function Deliver(payload: Bytes, legacy: bool): Bytes
    requires |payload| < TWO_64
  {
    AnswerValid(payload);
    NormaliseValid(Answer(payload), legacy);
    R.Encode(Normalise(Answer(payload), legacy), EPOCH)
  }

  // -------------------------------------------------------------------------------------------
  // Agreement between nodes
  // -------------------------------------------------------------------------------------------

  /** Two responses that differ at most in sender, version and time. */
  predicate Alike(r1: R.Response, r2: R.Response) {
    r1.to == r2.to && r1.data == r2.data && r1.id == r2.id && r1.attributes == r2.attributes
  }

  /** Alike responses, written by two backends at their own times, are delivered as the same bytes. */
  lemma DeliverAgrees(r1: R.Response, now1: U64, r2: R.Response, now2: U64, legacy: bool)
    requires R.Valid(r1) && R.Valid(r2) && Alike(r1, r2)
    requires |R.Encode(r1, now1)| < TWO_64 && |R.Encode(r2, now2)| < TWO_64
    ensures Deliver(R.Encode(r1, now1), legacy) == Deliver(R.Encode(r2, now2), legacy)
  {
    hide R.Valid, R.Encode, R.Decode;
    AnswerWritten(r1, now1);
    AnswerWritten(r2, now2);
  }

  lemma AnswerWritten(r: R.Response, now: U64)
    requires R.Valid(r)
    ensures Answer(R.Encode(r, now)) == if R.Received(r, now).Some? then R.Received(r, now).value else R.DEFAULT
  {
    hide R.Valid, R.Encode, R.Decode, R.Received;
    R.DecodeWritten(r, now, []);
    assert R.Encode(r, now) + [] == R.Encode(r, now);
  }

  /** Nothing a backend sends makes the bridge deliver a request id. */
  lemma DeliversNoId(payload: Bytes, legacy: bool)
    requires |payload| < TWO_64
    ensures Normalise(Answer(payload), legacy).id == None
  {
    hide R.Decode;
    R.DecodeNoId(payload);
  }

  /** The outcome a reader finds in the delivered bytes. */
  function DeliveredOutcome(o: R.Outcome, legacy: bool): R.Outcome {
    match o
    case Ok(data) => R.Ok(data)
    case Err(ManyError(code, message, arguments)) =>
      if legacy && code.AttributeSpecific? then R.Err(ManyError(Named(-1), message, arguments))
      else R.Err(ManyError(CodeOf(code.value), message, arguments))
  }

  lemma DeliveredData(r: R.Response, legacy: bool)
    ensures R.NormalOutcome(Normalise(r, legacy).data) == DeliveredOutcome(r.data, legacy)
  {
  }

  /**
   * What is read from the delivered bytes, for every payload a backend can send: the backend's data
   * or its error, its attributes, and its receiver unless anonymous; no sender, version or id, and
   * the epoch as its time. An error has its code as the number of the code reads, or `unknown` where
   * the legacy trigger says so. An unreadable payload counts as a response without data.
   */
  lemma DeliveredContent(payload: Bytes, legacy: bool, s: Bytes)
    requires |payload| < TWO_64
    ensures var answer := R.FromBytes(payload);
            var to := if answer.Some? && answer.value.to != Some(A.ANONYMOUS) then answer.value.to else None;
            var data := if answer.Some? then DeliveredOutcome(answer.value.data, legacy) else R.Ok([]);
            var attributes := if answer.Some? then answer.value.attributes else [];
            R.Decode(Deliver(payload, legacy) + s) ==
            Some((R.Response(None, A.ANONYMOUS, to, data, Some(0), None, attributes), s))
  {
    hide R.Valid, R.Encode, R.Decode, R.NormalOutcome, LegacyOutcome, R.Unread, DeliveredOutcome;
    var n := Normalise(Answer(payload), legacy);
    AnswerValid(payload);
    NormaliseValid(Answer(payload), legacy);
    DeliversNoId(payload, legacy);
    SetOf(n);
    ReceiverOf(n);
    DeliveredData(Answer(payload), legacy);
    DefaultData(legacy);
    R.DecodeWritten(n, EPOCH, s);
    NothingUnread(n, s);
  }

  lemma ReceiverOf(r: R.Response)
    requires R.Valid(r)
    ensures R.SendsTo(r) <==> r.to.Some? && r.to.value != A.ANONYMOUS
  {
    hide Attributes.ValidSet, R.ValidOutcome;
    if r.to.Some? && A.IsAnonymous(r.to.value) {
      A.AnonymousIsUnique(r.to.value);
    }
  }

  lemma DefaultData(legacy: bool)
    ensures DeliveredOutcome(R.DEFAULT.data, legacy) == R.Ok([])
  {
  }

  lemma NothingUnread(r: R.Response, s: Bytes)
    requires Attributes.ValidSet(r.attributes) && r.id == None
    ensures R.Unread(r) + s == s
  {
    hide Attributes.ValidSet;
    assert [] + s == s;
  }

  lemma SetOf(r: R.Response)
    requires R.Valid(r)
    ensures Attributes.ValidSet(r.attributes)
  {
  }

  // -------------------------------------------------------------------------------------------
  // Nodes
  // -------------------------------------------------------------------------------------------

  predicate LegacyActive(ms: seq<M.Migration<()>>) {
    exists i :: 0 <= i < |ms| && ms[i].inner.name == LEGACY_ERROR_CODE && ms[i].IsActive()
  }

  /** The bridge registers triggers only, and they have no callback that could fail. */
  predicate OnlyTriggers(ms: seq<M.Migration<()>>) {
    forall i :: 0 <= i < |ms| ==> ms[i].IsTrigger()
  }

  lemma {:induction false} TriggersNeverFail(ms: seq<M.Migration<()>>, s: (), h: nat)
    requires OnlyTriggers(ms)
    ensures M.StepAll(ms, s, h).ok && OnlyTriggers(M.StepAll(ms, s, h).after)
  {
    if ms == [] {
    } else {
      TriggersNeverFail(ms[1..], s, h);
    }
  }

  lemma {:induction false} RunNeverFails(base: seq<M.Migration<()>>, n: M.Node<()>, events: seq<M.Event>)
    requires OnlyTriggers(base) && OnlyTriggers(n.set_) && n.ok
    ensures M.Run(base, n, events).ok
    decreases |events|
  {
    hide M.StepAll;
    if events == [] {
    } else {
      TriggersNeverFail(n.set_, n.storage, n.height + 1);
      RunNeverFails(base, M.Next(base, n, events[0]), events[1..]);
    }
  }

  /**
   * Two nodes that loaded the same configuration at the same height and saw the same number of
   * blocks, each with its own restarts, deliver the same bytes for alike responses.
   */
  lemma NodesAgree(base: seq<M.Migration<()>>, h0: nat, events1: seq<M.Event>, events2: seq<M.Event>,
                   r1: R.Response, now1: U64, r2: R.Response, now2: U64)
    requires OnlyTriggers(base) && M.Inactive(base) && M.OnlyBlocks(events1) == M.OnlyBlocks(events2)
    requires R.Valid(r1) && R.Valid(r2) && Alike(r1, r2)
    requires |R.Encode(r1, now1)| < TWO_64 && |R.Encode(r2, now2)| < TWO_64
    ensures var n1 := M.Run(base, M.Start(base, (), h0), events1);
            var n2 := M.Run(base, M.Start(base, (), h0), events2);
            Deliver(R.Encode(r1, now1), LegacyActive(n1.set_)) == Deliver(R.Encode(r2, now2), LegacyActive(n2.set_))
  {
    hide R.Valid, R.Encode, Deliver, M.Run, LegacyActive;
    var n := M.Start(base, (), h0);
    RunNeverFails(base, n, M.OnlyBlocks(events1));
    M.RestartsInvisible(base, n, events1);
    M.RestartsInvisible(base, n, events2);
    DeliverAgrees(r1, now1, r2, now2, LegacyActive(M.Run(base, n, events1).set_));
  }

  // -------------------------------------------------------------------------------------------
  // The bridge as an object
  // -------------------------------------------------------------------------------------------

  class AbciApp {
    const migrations: M.MigrationSet<()>
    var blockTime: Option<nat>

    constructor (set_: M.MigrationSet<()>)
      ensures migrations == set_ && blockTime == None
    {
      migrations := set_;
      blockTime := None;
    }

    /** The header may be missing; a negative height counts as zero; failures are ignored. */
    method BeginBlock(header: Option<(Option<nat>, int)>)
      modifies this, migrations
      ensures header.Some? ==>
                && migrations.inner
                   == M.StepAll(old(migrations.inner), (), if header.value.1 > 0 then header.value.1 else 0).after
                && blockTime == header.value.0
      ensures header.None? ==> migrations.inner == old(migrations.inner) && blockTime == None
    {
      if header.Some? {
        var height := if header.value.1 > 0 then header.value.1 else 0;
        var _, _ := migrations.UpdateAtHeight((), height);
      }
      blockTime := if header.Some? then header.value.0 else None;
    }

    method DeliverTx(payload: Bytes) returns (data: Bytes)
      requires |payload| < TWO_64
      ensures data == Deliver(payload, LegacyActive(migrations.inner))
    {
      hide R.Valid, R.Encode;
      var response := Answer(payload);
      AnswerValid(payload);
      response := response.(from := A.ANONYMOUS);
      response := response.(version := None);
      response := response.(timestamp := Some(EPOCH));
      var legacy := migrations.IsActive(LEGACY_ERROR_CODE);
      if legacy && response.data.Err? && response.data.error.code.AttributeSpecific? {
        response := response.(data := R.Err(response.data.error.(code := UNKNOWN)));
      }
      assert response == Normalise(Answer(payload), LegacyActive(migrations.inner));
      NormaliseValid(Answer(payload), LegacyActive(migrations.inner));
      var e := new Encoder();
      R.EncodeInto(e, response, EPOCH);
      assert [] + R.Encode(response, EPOCH) == R.Encode(response, EPOCH);
      data := e.buf;
    }
  }
}
