/** Handoff records (runtime/state.py), their terminal receipts (runtime/handoff_receipts.py) and the
    acknowledgement resolver (runtime/handoff_governance.py). */
module Handoffs {
  import opened Wrappers
  import opened Sorting
  import opened Text

  /** The fields no runtime operation assigns after construction (`control_contract`). */
  datatype Contract = Contract(
    id: string, fromAgent: string, toAgent: string, reason: string, summary: string,
    evidenceRefs: seq<string>, action: string, risk: string, criteria: seq<string>,
    dueTrigger: string, source: string, target: string)

  /** The value of one handoff: its contract, its lifecycle fields and its receipt. */
  datatype Record = Record(
    contract: Contract, status: string, receivingOutput: string, receivingNode: string,
    consumedAt: string, reason: string, resolution: string, receipt: string)

  /** SHA-256 over the canonical JSON of every field but the receipt, as an arbitrary function. */
  type Hasher = Record -> string

  const CREATED := "CREATED"
  const CONSUMED := "CONSUMED"
  const BLOCKED := "BLOCKED"

  function Pending(c: Contract): Record {
    Record(c, CREATED, "", "", "", "", "PENDING", "")
  }

  // ----- Receipts -----

  /** A digest is never the empty string. */
  ghost predicate ProducesDigests(h: Hasher) {
    forall r :: h(r) != ""
  }

  function Receipt(h: Hasher, r: Record): string {
    h(r.(receipt := ""))
  }

  function Sealed(h: Hasher, r: Record): Record {
    r.(receipt := Receipt(h, r))
  }

  predicate ReceiptValid(h: Hasher, r: Record) {
    r.receipt != "" && r.receipt == Receipt(h, r)
  }

  function ConsumedBy(r: Record, output: string, node: string, disposition: string, now: string): Record {
    r.(status := CONSUMED, receivingOutput := output, receivingNode := node, consumedAt := now,
       reason := "", resolution := disposition)
  }

  function BlockedFor(r: Record, reason: string): Record {
    r.(status := BLOCKED, reason := reason, resolution := "UNRESOLVED")
  }

  lemma SealedIsValid(h: Hasher, r: Record)
    requires ProducesDigests(h)
    ensures ReceiptValid(h, Sealed(h, r))
  {
    assert Sealed(h, r).(receipt := "") == r.(receipt := "");
  }

  // ----- Acknowledgements -----

  /** One entry of an output's `handoff_acknowledgements`, every field of which the schema requires. */
  datatype Ack = Ack(
    handoffId: string, disposition: string, action: string, evidenceRefs: seq<string>,
    criteria: seq<string>, note: string)

  /** Who answers: the identifier and agent of the output and the node that produced it. */
  datatype Receiver = Receiver(outputId: string, node: string, agent: string)

  function Matching(acks: seq<Ack>, id: string): seq<Ack> {
    Filter(acks, (a: Ack) => a.handoffId == id)
  }

  predicate ContextIsExact(c: Contract, a: Ack, to: Receiver) {
    && !Blank(to.outputId)
    && to.node == c.target
    && to.agent == c.toAgent
    && a.action == c.action
    && SortStrings(a.evidenceRefs) == SortStrings(c.evidenceRefs)
    && SortStrings(a.criteria) == SortStrings(c.criteria)
  }

  const DUPLICATE_ACK := "Duplicate acknowledgements were returned for this handoff."
  const INVALID_ACK := "Invalid acknowledgement: exact recipient, output, action, evidence, criteria, disposition, and nonblank resolution note are required."

  /** `resolve_handoff_acknowledgements` on values: the record after one output has answered. */
  function Resolve(h: Hasher, r: Record, acks: seq<Ack>, to: Receiver, now: string): Record {
    var matches := Matching(acks, r.contract.id);
    if matches == [] then r
    else if |matches| != 1 then Sealed(h, BlockedFor(r, DUPLICATE_ACK))
    else
      var a := matches[0];
      var exact := ContextIsExact(r.contract, a, to);
      if a.disposition == "UNRESOLVED" && exact && !Blank(a.note) then
        Sealed(h, BlockedFor(r.(receivingOutput := to.outputId, receivingNode := to.node), a.note))
      else if a.disposition in {"ACCEPTED", "CHALLENGED"} && exact && !Blank(a.note)
              && (r.contract.evidenceRefs != [] || a.disposition == "CHALLENGED") then
        Sealed(h, ConsumedBy(r, to.outputId, to.node, a.disposition, now))
      else
        Sealed(h, BlockedFor(r, INVALID_ACK))
  }

  /** What an acknowledgement must say for delivery to count, in terms of contents only. */
  predicate Accepts(c: Contract, a: Ack, to: Receiver) {
    && a.handoffId == c.id
    && !Blank(to.outputId) && to.node == c.target && to.agent == c.toAgent
    && a.action == c.action
    && multiset(a.evidenceRefs) == multiset(c.evidenceRefs)
    && multiset(a.criteria) == multiset(c.criteria)
    && !Blank(a.note)
    && (a.disposition == "CHALLENGED" || (a.disposition == "ACCEPTED" && c.evidenceRefs != []))
  }

  ghost predicate AnsweredOnceBy(c: Contract, acks: seq<Ack>, a: Ack) {
    a in acks && a.handoffId == c.id && |Matching(acks, c.id)| == 1
  }

  /** What resolution can do to a pending handoff: leave it as it was, or give it a terminal status under
      a valid receipt; a delivered one names the addressed receiver and is backed by evidence or a
      challenge. */
  ghost predicate ResolvedFrom(h: Hasher, r: Record, after: Record, to: Receiver) {
    && after.contract == r.contract
    && (after.status == CREATED ==> after == r)
    && (after.status != CREATED ==> ReceiptValid(h, after))
    && (after.status == CREATED || after.status == CONSUMED || after.status == BLOCKED)
    && (after.status == BLOCKED ==> after.resolution == "UNRESOLVED")
    && (after.status == CONSUMED ==>
          && after.receivingOutput == to.outputId && !Blank(to.outputId)
          && after.receivingNode == to.node == r.contract.target
          && to.agent == r.contract.toAgent
          && (after.resolution == "CHALLENGED" || after.resolution == "ACCEPTED")
          && (after.resolution == "ACCEPTED" ==> r.contract.evidenceRefs != []))
  }

  lemma ResolveShape(h: Hasher, r: Record, acks: seq<Ack>, to: Receiver, now: string)
    requires ProducesDigests(h) && r.status == CREATED
    ensures ResolvedFrom(h, r, Resolve(h, r, acks, to, now), to)
  {
    var matches := Matching(acks, r.contract.id);
    if |matches| == 1 {
      var a := matches[0];
      SealedIsValid(h, BlockedFor(r.(receivingOutput := to.outputId, receivingNode := to.node), a.note));
      SealedIsValid(h, ConsumedBy(r, to.outputId, to.node, a.disposition, now));
    }
    SealedIsValid(h, BlockedFor(r, DUPLICATE_ACK));
    SealedIsValid(h, BlockedFor(r, INVALID_ACK));
  }

  /** A pending handoff is consumed exactly when one acknowledgement names it and that one repeats its
      contract to the addressed receiver; it stays pending exactly when none names it. */
  lemma ResolveOutcome(h: Hasher, r: Record, acks: seq<Ack>, to: Receiver, now: string)
    requires r.status == CREATED
    ensures Resolve(h, r, acks, to, now).status == CONSUMED <==>
            exists a :: AnsweredOnceBy(r.contract, acks, a) && Accepts(r.contract, a, to)
    ensures Resolve(h, r, acks, to, now).status == CREATED <==>
            forall a :: a in acks ==> a.handoffId != r.contract.id
  {
    var matches := Matching(acks, r.contract.id);
    if matches == [] {
      forall a | a in acks
        ensures a.handoffId != r.contract.id
      {
        assert a !in matches;
      }
    } else {
      var m := matches[0];
      assert m in matches && m in acks && m.handoffId == r.contract.id;
      if |matches| == 1 {
        assert AnsweredOnceBy(r.contract, acks, m);
        forall a | AnsweredOnceBy(r.contract, acks, a)
          ensures a == m
        {
          assert a in matches;
        }
        AcceptsIsExact(r.contract, m, to);
      }
    }
  }

  lemma AcceptsIsExact(c: Contract, a: Ack, to: Receiver)
    requires a.handoffId == c.id
    ensures Accepts(c, a, to) <==>
            ContextIsExact(c, a, to) && !Blank(a.note)
            && (a.disposition == "CHALLENGED" || (a.disposition == "ACCEPTED" && c.evidenceRefs != []))
  {
    SortStringsCanonical(a.evidenceRefs, c.evidenceRefs);
    SortStringsCanonical(a.criteria, c.criteria);
  }

  // ----- The mutable handoff -----

  class Handoff {
    const contract: Contract
    var status: string
    var receivingOutput: string
    var receivingNode: string
    var consumedAt: string
    var unresolvedReason: string
    var resolution: string
    var receipt: string

    function Value(): Record
      reads this
    {
      Record(contract, status, receivingOutput, receivingNode, consumedAt, unresolvedReason, resolution, receipt)
    }

    constructor (c: Contract)
      ensures Value() == Pending(c)
    {
      contract := c;
      status := CREATED;
      receivingOutput, receivingNode, consumedAt, unresolvedReason := "", "", "", "";
      resolution := "PENDING";
      receipt := "";
    }

    method Consume(output: string, node: string, disposition: string, now: string)
      modifies this
      ensures Value() == ConsumedBy(old(Value()), output, node, disposition, now)
    {
      status := CONSUMED;
      receivingOutput := output;
      receivingNode := node;
      consumedAt := now;
      unresolvedReason := "";
      resolution := disposition;
    }

    method Block(reason: string)
      modifies this
      ensures Value() == BlockedFor(old(Value()), reason)
    {
      status := BLOCKED;
      unresolvedReason := reason;
      resolution := "UNRESOLVED";
    }

    method Seal(h: Hasher)
      modifies this
      ensures Value() == Sealed(h, old(Value()))
    {
      receipt := h(Value().(receipt := ""));
    }
  }

  /** `resolve_handoff_acknowledgements`. */
  method ResolveAcknowledgements(h: Hasher, handoff: Handoff, acks: seq<Ack>, to: Receiver, now: string)
    modifies handoff
    ensures handoff.Value() == Resolve(h, old(handoff.Value()), acks, to, now)
  {
    var matches := Matching(acks, handoff.contract.id);
    if matches == [] {
      return;
    }
    if |matches| != 1 {
      handoff.Block(DUPLICATE_ACK);
      handoff.Seal(h);
      return;
    }
    var a := matches[0];
    var exact := ContextIsExact(handoff.contract, a, to);
    if a.disposition == "UNRESOLVED" && exact && !Blank(a.note) {
      handoff.receivingOutput := to.outputId;
      handoff.receivingNode := to.node;
      handoff.Block(a.note);
      handoff.Seal(h);
    } else if a.disposition in {"ACCEPTED", "CHALLENGED"} && exact && !Blank(a.note)
              && (handoff.contract.evidenceRefs != [] || a.disposition == "CHALLENGED") {
      handoff.Consume(to.outputId, to.node, a.disposition, now);
      handoff.Seal(h);
    } else {
      handoff.Block(INVALID_ACK);
      handoff.Seal(h);
    }
  }

  // ----- Lists of handoffs -----

  function Values(hs: seq<Handoff>): (rs: seq<Record>)
    reads hs
    ensures |rs| == |hs|
    ensures forall i :: 0 <= i < |hs| ==> rs[i] == hs[i].Value()
  {
    seq(|hs|, i requires 0 <= i < |hs| reads hs => hs[i].Value())
  }
}
