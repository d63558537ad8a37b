/** The field-bounded transition between a reviewed program state and the final one, and chains of such
    transitions (scripts/autonomous_seo_phase_closure.py). */
module PhaseClosures {
  import opened Wrappers
  import opened Sorting
  import opened Sequences
  import opened EvidenceDrift

  /** `fields` is the whole record, its status and verification states included. */
  datatype Phase = Phase(status: string, technical: string, outcome: string, fields: map<string, string>)

  type Lane = map<string, string>

  datatype Program = Program(
    currentPhase: string, fields: map<string, string>, phases: map<string, Phase>, lanes: map<string, Lane>)

  datatype Policy = Policy(
    order: seq<string>, immutableFields: seq<string>, immutablePhaseFields: seq<string>,
    immutableLaneFields: seq<string>, reviewedFrom: set<string>, reviewedTo: string, technicalTo: string,
    nextFrom: string, nextTo: string)

  /** The statuses that the error messages name. */
  predicate Stated(p: Policy) {
    && p.reviewedFrom == {"IN_PROGRESS", "BLOCKED"} && p.reviewedTo == "COMPLETE" && p.technicalTo == "PASS"
    && p.nextFrom == "NOT_STARTED" && p.nextTo == "IN_PROGRESS"
  }

  datatype TransitionError =
    | ProgramFieldChanged(name: string) | PhaseSetChanged | PhaseFieldChanged(id: string, name: string)
    | ReviewedStart | ReviewedFinish | TechnicalNotPassed | OutcomeNotExplicit
    | CurrentNotTerminal | CurrentNotNext | NextStart | NextFinish | UnreviewedChanged(id: string)
    | LaneSetChanged | LaneFieldChanged(id: string, name: string) | LaneChanged(id: string)

  function Get(m: map<string, string>, key: string): Option<string> {
    if key in m then Some(m[key]) else None
  }

  /** `order.index(id)` */
  function IndexOf(order: seq<string>, id: string): (i: nat)
    requires id in order
    ensures i < |order| && order[i] == id && id !in order[..i]
  {
    if order[0] == id then 0 else
      var i := IndexOf(order[1..], id);
      assert order[..i + 1] == [order[0]] + order[1..][..i];
      i + 1
  }

  /** One error per listed field in which the two records differ. */
  function FieldError(b: map<string, string>, a: map<string, string>, make: string -> TransitionError):
    string -> seq<TransitionError>
  {
    f => if Get(b, f) != Get(a, f) then [make(f)] else []
  }

  function FieldErrors(
    fields: seq<string>, b: map<string, string>, a: map<string, string>, make: string -> TransitionError):
    seq<TransitionError>
  {
    Flatten(fields, FieldError(b, a, make))
  }

  predicate SameFields(fields: seq<string>, b: map<string, string>, a: map<string, string>) {
    forall f :: f in fields ==> Get(b, f) == Get(a, f)
  }

  lemma FieldErrorsExactly(
    fields: seq<string>, b: map<string, string>, a: map<string, string>, make: string -> TransitionError)
    ensures FieldErrors(fields, b, a, make) == [] <==> SameFields(fields, b, a)
  {
    FlattenEmpty(fields, FieldError(b, a, make));
    assert forall f :: FieldError(b, a, make)(f) == [] <==> Get(b, f) == Get(a, f);
  }

  function ProgramField(): string -> TransitionError {
    f => ProgramFieldChanged(f)
  }

  function PhaseField(id: string): string -> TransitionError {
    f => PhaseFieldChanged(id, f)
  }

  function ImmutableProgramErrors(before: Program, after: Program, p: Policy): seq<TransitionError> {
    FieldErrors(p.immutableFields, before.fields, after.fields, ProgramField())
  }

  function Entry(x: Program, id: string): Option<Phase> {
    if id in x.phases then Some(x.phases[id]) else None
  }

  function PhaseFieldError(before: Program, after: Program, p: Policy): string -> seq<TransitionError> {
    id => match (Entry(before, id), Entry(after, id))
          case (Some(b), Some(a)) => FieldErrors(p.immutablePhaseFields, b.fields, a.fields, PhaseField(id))
          case _ => []
  }

  function ReviewedStateErrors(b: Phase, a: Phase, p: Policy): seq<TransitionError> {
    (if b.status !in p.reviewedFrom then [ReviewedStart] else [])
    + (if a.status != p.reviewedTo then [ReviewedFinish] else [])
    + (if a.technical != p.technicalTo then [TechnicalNotPassed] else [])
    + (if a.outcome !in {"PASS", "NOT_REQUIRED", "PENDING"} then [OutcomeNotExplicit] else [])
  }

  function NextErrors(before: Program, after: Program, next: string, p: Policy): seq<TransitionError>
    requires next in before.phases && next in after.phases
  {
    (if after.currentPhase != next then [CurrentNotNext] else [])
    + (if before.phases[next].status != p.nextFrom then [NextStart] else [])
    + (if after.phases[next].status != p.nextTo then [NextFinish] else [])
  }

  function ReviewedAndNextErrors(before: Program, after: Program, id: string, p: Policy): seq<TransitionError>
    requires Known(before, id, p) && after.phases.Keys == before.phases.Keys
  {
    var i := IndexOf(p.order, id);
    ReviewedStateErrors(before.phases[id], after.phases[id], p)
    + if i + 1 < |p.order| then NextErrors(before, after, p.order[i + 1], p)
      else if after.currentPhase != id then [CurrentNotTerminal]
      else []
  }

  function Allowed(order: seq<string>, id: string): set<string>
    requires id in order
  {
    var i := IndexOf(order, id);
    {id} + if i + 1 < |order| then {order[i + 1]} else {}
  }

  function UnreviewedError(before: Program, after: Program, allowed: set<string>): string -> seq<TransitionError> {
    q => if q !in allowed && Entry(before, q) != Entry(after, q) then [UnreviewedChanged(q)] else []
  }

  /** What the code looks up without a guard; otherwise it raises. */
  predicate Known(before: Program, id: string, p: Policy) {
    id in p.order && forall q :: q in p.order ==> q in before.phases
  }

  /** The lookups are reached only if both programs have the same phases. */
  predicate Compared(before: Program, after: Program, id: string, p: Policy) {
    before.phases.Keys == after.phases.Keys ==> Known(before, id, p)
  }

  function PhaseErrors(before: Program, after: Program, id: string, p: Policy): seq<TransitionError>
    requires Compared(before, after, id, p)
  {
    if before.phases.Keys != after.phases.Keys then [PhaseSetChanged]
    else
      Flatten(SortedKeys(before.phases.Keys), PhaseFieldError(before, after, p))
      + ReviewedAndNextErrors(before, after, id, p)
      + Flatten(p.order, UnreviewedError(before, after, Allowed(p.order, id)))
  }

  function OneLane(b: Lane, a: Lane, id: string, p: Policy): seq<TransitionError> {
    FieldErrors(p.immutableLaneFields, b, a, LaneField(id)) + if b != a then [LaneChanged(id)] else []
  }

  function LaneField(id: string): string -> TransitionError {
    f => LaneFieldChanged(id, f)
  }

  function LaneError(before: Program, after: Program, p: Policy): string -> seq<TransitionError> {
    id => if id in before.lanes && id in after.lanes then OneLane(before.lanes[id], after.lanes[id], id, p) else []
  }

  function LaneTransitionErrors(before: Program, after: Program, p: Policy): seq<TransitionError> {
    if before.lanes.Keys != after.lanes.Keys then [LaneSetChanged]
    else Flatten(SortedKeys(before.lanes.Keys), LaneError(before, after, p))
  }

  /** `field_bounded_transition_errors` */
  function TransitionErrors(before: Program, after: Program, id: string, p: Policy): seq<TransitionError>
    requires Compared(before, after, id, p)
  {
    ImmutableProgramErrors(before, after, p) + PhaseErrors(before, after, id, p) + LaneTransitionErrors(before, after, p)
  }

  // ----- The loops over lanes -----

  /** The inner loop of `_lane_transition_errors`. */
  method CheckLane(b: Lane, a: Lane, id: string, p: Policy) returns (errors: seq<TransitionError>)
    ensures errors == OneLane(b, a, id, p)
  {
    errors := [];
    var fields := p.immutableLaneFields;
    for j := 0 to |fields|
      invariant errors == Flatten(fields[..j], FieldError(b, a, LaneField(id)))
    {
      FlattenStep(fields, j, FieldError(b, a, LaneField(id)));
      if Get(b, fields[j]) != Get(a, fields[j]) {
        errors := errors + [LaneFieldChanged(id, fields[j])];
      }
    }
    FlattenWhole(fields, FieldError(b, a, LaneField(id)));
    if b != a {
      errors := errors + [LaneChanged(id)];
    }
  }

  /** The outer loop. */
  method CheckLanes(before: Program, after: Program, p: Policy) returns (errors: seq<TransitionError>)
    ensures errors == LaneTransitionErrors(before, after, p)
  {
    if before.lanes.Keys != after.lanes.Keys {
      return [LaneSetChanged];
    }
    errors := [];
    var ids := SortedKeys(before.lanes.Keys);
    for i := 0 to |ids|
      invariant errors == Flatten(ids[..i], LaneError(before, after, p))
    {
      FlattenStep(ids, i, LaneError(before, after, p));
      var found := CheckLane(before.lanes[ids[i]], after.lanes[ids[i]], ids[i], p);
      errors := errors + found;
    }
    FlattenWhole(ids, LaneError(before, after, p));
  }

  lemma OneLaneExactly(b: Lane, a: Lane, id: string, p: Policy)
    ensures OneLane(b, a, id, p) == [] <==> b == a
  {
    FieldErrorsExactly(p.immutableLaneFields, b, a, LaneField(id));
  }

  lemma SameEntries<V>(b: map<string, V>, a: map<string, V>)
    requires b.Keys == a.Keys
    ensures b == a <==> forall id :: id in b ==> b[id] == a[id]
  {
  }

  /** Whatever fields the policy lists, no lane may change at all. */
  lemma LanesExactly(before: Program, after: Program, p: Policy)
    ensures LaneTransitionErrors(before, after, p) == [] <==> before.lanes == after.lanes
  {
    if before.lanes.Keys == after.lanes.Keys {
      LaneErrorsExactly(before, after, p, SortedKeys(before.lanes.Keys));
      SameEntries(before.lanes, after.lanes);
    }
  }

  lemma LaneErrorsExactly(before: Program, after: Program, p: Policy, ids: seq<string>)
    requires before.lanes.Keys == after.lanes.Keys && forall id :: id in ids <==> id in before.lanes
    ensures Flatten(ids, LaneError(before, after, p)) == [] <==>
              forall id :: id in before.lanes ==> before.lanes[id] == after.lanes[id]
  {
    FlattenEmpty(ids, LaneError(before, after, p));
    forall id | id in ids
      ensures LaneError(before, after, p)(id) == [] <==> before.lanes[id] == after.lanes[id]
    {
      LaneErrorExactly(before, after, p, id);
    }
  }

  lemma LaneErrorExactly(before: Program, after: Program, p: Policy, id: string)
    requires id in before.lanes && id in after.lanes
    ensures LaneError(before, after, p)(id) == [] <==> before.lanes[id] == after.lanes[id]
  {
    OneLaneExactly(before.lanes[id], after.lanes[id], id, p);
  }

  // ----- One accepted transition -----

  /** What an accepted transition does to the phases: the set stays, the reviewed phase finishes, the next one starts,
      the others do not change. */
  ghost predicate Advances(before: Program, after: Program, id: string, p: Policy)
    requires Compared(before, after, id, p)
  {
    && after.phases.Keys == before.phases.Keys
    && (forall q {:trigger before.phases[q]} {:trigger after.phases[q]} ::
          q in p.order && q !in Allowed(p.order, id) ==> after.phases[q] == before.phases[q])
    && Finishes(before.phases[id], after.phases[id], p)
    && MovesOn(before, after, id, p)
  }

  /** The reviewed phase was under way, is complete and technically verified, and its outcome is explicit. */
  predicate Finishes(b: Phase, a: Phase, p: Policy) {
    && b.status in p.reviewedFrom && a.status == p.reviewedTo && a.technical == p.technicalTo
    && (a.outcome == "PASS" || a.outcome == "NOT_REQUIRED" || a.outcome == "PENDING")
  }

  /** The next phase starts and becomes current; the last one stays current. */
  ghost predicate MovesOn(before: Program, after: Program, id: string, p: Policy)
    requires Known(before, id, p) && before.phases.Keys == after.phases.Keys
  {
    var i := IndexOf(p.order, id);
    if i + 1 < |p.order| then
      var next := p.order[i + 1];
      && after.currentPhase == next
      && before.phases[next].status == p.nextFrom && after.phases[next].status == p.nextTo
    else after.currentPhase == id
  }

  ghost predicate KeepsPhaseFields(before: Program, after: Program, p: Policy) {
    forall q :: q in before.phases && q in after.phases ==>
                  SameFields(p.immutablePhaseFields, before.phases[q].fields, after.phases[q].fields)
  }

  lemma UnreviewedExactly(before: Program, after: Program, id: string, p: Policy)
    requires Known(before, id, p) && before.phases.Keys == after.phases.Keys
    ensures Flatten(p.order, UnreviewedError(before, after, Allowed(p.order, id))) == [] <==>
              forall q :: q in p.order && q !in Allowed(p.order, id) ==> after.phases[q] == before.phases[q]
  {
    FlattenEmpty(p.order, UnreviewedError(before, after, Allowed(p.order, id)));
    forall q | q in p.order
      ensures UnreviewedError(before, after, Allowed(p.order, id))(q) == [] <==>
                q in Allowed(p.order, id) || after.phases[q] == before.phases[q]
    {
    }
  }

  lemma PhaseFieldsExactly(before: Program, after: Program, p: Policy)
    requires before.phases.Keys == after.phases.Keys
    ensures Flatten(SortedKeys(before.phases.Keys), PhaseFieldError(before, after, p)) == [] <==>
              forall q :: q in before.phases ==>
                            SameFields(p.immutablePhaseFields, before.phases[q].fields, after.phases[q].fields)
  {
    FlattenEmpty(SortedKeys(before.phases.Keys), PhaseFieldError(before, after, p));
    forall q | q in before.phases
      ensures PhaseFieldError(before, after, p)(q) == [] <==>
                SameFields(p.immutablePhaseFields, before.phases[q].fields, after.phases[q].fields)
    {
      OnePhaseFieldExactly(before, after, p, q);
    }
  }

  lemma OnePhaseFieldExactly(before: Program, after: Program, p: Policy, q: string)
    requires q in before.phases && q in after.phases
    ensures PhaseFieldError(before, after, p)(q) == [] <==>
              SameFields(p.immutablePhaseFields, before.phases[q].fields, after.phases[q].fields)
  {
    FieldErrorsExactly(p.immutablePhaseFields, before.phases[q].fields, after.phases[q].fields, PhaseField(q));
  }

  lemma ReviewedAndNextExactly(before: Program, after: Program, id: string, p: Policy)
    requires Known(before, id, p) && before.phases.Keys == after.phases.Keys
    ensures ReviewedAndNextErrors(before, after, id, p) == [] <==>
              Finishes(before.phases[id], after.phases[id], p) && MovesOn(before, after, id, p)
  {
  }

  lemma PhasesExactly(before: Program, after: Program, id: string, p: Policy)
    requires Known(before, id, p) && before.phases.Keys == after.phases.Keys
    ensures PhaseErrors(before, after, id, p) == [] <==>
              Advances(before, after, id, p) && KeepsPhaseFields(before, after, p)
  {
    UnreviewedExactly(before, after, id, p);
    PhaseFieldsExactly(before, after, p);
    ReviewedAndNextExactly(before, after, id, p);
    ConcatEmpty(Flatten(SortedKeys(before.phases.Keys), PhaseFieldError(before, after, p)),
                ReviewedAndNextErrors(before, after, id, p),
                Flatten(p.order, UnreviewedError(before, after, Allowed(p.order, id))));
  }

  /** A transition is accepted exactly when it advances the phases and keeps everything immutable. */
  lemma AcceptedExactly(before: Program, after: Program, id: string, p: Policy)
    requires Compared(before, after, id, p)
    ensures TransitionErrors(before, after, id, p) == [] <==>
              && Advances(before, after, id, p) && KeepsPhaseFields(before, after, p)
              && SameFields(p.immutableFields, before.fields, after.fields) && after.lanes == before.lanes
  {
    LanesExactly(before, after, p);
    FieldErrorsExactly(p.immutableFields, before.fields, after.fields, ProgramField());
    if before.phases.Keys == after.phases.Keys {
      PhasesExactly(before, after, id, p);
    }
    ConcatEmpty(ImmutableProgramErrors(before, after, p), PhaseErrors(before, after, id, p),
                LaneTransitionErrors(before, after, p));
  }

  // ----- The shape of a program -----

  /** The first `k` phases are complete; the next one, if any, is the active and current one; the rest has not
      started. With every phase complete, the last one stays current. */
  ghost predicate Shape(x: Program, order: seq<string>, k: nat) {
    && k <= |order| && order != [] && NoDuplicates(order)
    && (forall q :: q in order ==> q in x.phases)
    && (forall i :: 0 <= i < k ==> x.phases[order[i]].status == "COMPLETE")
    && (forall i :: k < i < |order| ==> x.phases[order[i]].status == "NOT_STARTED")
    && (k < |order| ==> x.phases[order[k]].status in {"IN_PROGRESS", "BLOCKED"} && x.currentPhase == order[k])
    && (k == |order| ==> x.currentPhase == order[k - 1])
  }

  /** From such a shape only the active phase can be reviewed, and the shape moves on by one. */
  lemma StepKeepsShape(before: Program, after: Program, id: string, p: Policy, k: nat)
    requires Stated(p) && Shape(before, p.order, k) && Known(before, id, p) && Advances(before, after, id, p)
    ensures k < |p.order| && id == p.order[k] && Shape(after, p.order, k + 1)
    ensures forall i :: 0 <= i < k ==> after.phases[p.order[i]] == before.phases[p.order[i]]
    ensures after.phases[p.order[k]].technical == "PASS"
  {
    assert IndexOf(p.order, id) == k;
    forall i | 0 <= i < |p.order| && i != k && i != k + 1
      ensures after.phases[p.order[i]] == before.phases[p.order[i]]
    {
      assert p.order[i] !in Allowed(p.order, id);
    }
  }

  // ----- Chains -----

  /** Every program of the chain follows from the one before by a transition without errors. */
  ghost predicate Chain(programs: seq<Program>, ids: seq<string>, p: Policy) {
    |programs| == |ids| + 1 && forall i :: 0 <= i < |ids| ==> Accepted(programs[i], programs[i + 1], ids[i], p)
  }

  ghost predicate Accepted(before: Program, after: Program, id: string, p: Policy) {
    Compared(before, after, id, p) && TransitionErrors(before, after, id, p) == []
  }

  ghost predicate StepAt(programs: seq<Program>, ids: seq<string>, p: Policy, i: nat) {
    i < |ids| && i + 1 < |programs| && Known(programs[i], ids[i], p)
    && Advances(programs[i], programs[i + 1], ids[i], p)
  }

  ghost predicate Advancing(programs: seq<Program>, ids: seq<string>, p: Policy) {
    |programs| == |ids| + 1 && forall i: nat {:trigger StepAt(programs, ids, p, i)} ::
      i < |ids| ==> StepAt(programs, ids, p, i)
  }

  lemma ChainAdvances(programs: seq<Program>, ids: seq<string>, p: Policy)
    requires Chain(programs, ids, p)
    ensures Advancing(programs, ids, p)
  {
    forall i: nat | i < |ids|
      ensures StepAt(programs, ids, p, i)
    {
      assert Accepted(programs[i], programs[i + 1], ids[i], p);
      AcceptedExactly(programs[i], programs[i + 1], ids[i], p);
    }
  }

  lemma StepMoves(programs: seq<Program>, ids: seq<string>, p: Policy, k: nat, i: nat)
    requires Stated(p) && Advancing(programs, ids, p) && i < |ids| && Shape(programs[i], p.order, k)
    ensures k < |p.order| && ids[i] == p.order[k] && Shape(programs[i + 1], p.order, k + 1)
    ensures forall q :: 0 <= q < k ==> programs[i + 1].phases[p.order[q]] == programs[i].phases[p.order[q]]
  {
    assert StepAt(programs, ids, p, i);
    StepKeepsShape(programs[i], programs[i + 1], ids[i], p, k);
  }

  lemma StepCompletes(programs: seq<Program>, ids: seq<string>, p: Policy, i: nat)
    requires Stated(p) && Advancing(programs, ids, p) && i < |ids|
    ensures CompleteCount(programs[i], p.order) < CompleteCount(programs[i + 1], p.order)
  {
    assert StepAt(programs, ids, p, i);
    CompletesOneMore(programs[i], programs[i + 1], ids[i], p);
  }

  lemma {:induction false} AdvancingKeepsShape(programs: seq<Program>, ids: seq<string>, p: Policy, k: nat, i: nat)
    requires Stated(p) && Advancing(programs, ids, p) && Shape(programs[0], p.order, k) && i < |programs|
    ensures k + i <= |p.order| && Shape(programs[i], p.order, k + i)
    ensures forall j :: 0 <= j < i ==> ids[j] == p.order[k + j]
  {
    if i > 0 {
      AdvancingKeepsShape(programs, ids, p, k, i - 1);
      StepMoves(programs, ids, p, k + i - 1, i - 1);
    }
  }

  /** The shape moves along the whole chain, which reviews the phases in order, one each. */
  lemma ChainKeepsShape(programs: seq<Program>, ids: seq<string>, p: Policy, k: nat, i: nat)
    requires Stated(p) && Chain(programs, ids, p) && Shape(programs[0], p.order, k) && i < |programs|
    ensures k + i <= |p.order| && Shape(programs[i], p.order, k + i)
    ensures forall j :: 0 <= j < i ==> ids[j] == p.order[k + j]
  {
    ChainAdvances(programs, ids, p);
    AdvancingKeepsShape(programs, ids, p, k, i);
  }

  lemma StaysOnce(programs: seq<Program>, ids: seq<string>, p: Policy, k: nat, j: nat, q: nat)
    requires Stated(p) && Advancing(programs, ids, p) && Shape(programs[0], p.order, k)
    requires j < |ids| && q < k + j && q < |p.order|
    ensures p.order[q] in programs[j].phases && p.order[q] in programs[j + 1].phases
    ensures programs[j + 1].phases[p.order[q]] == programs[j].phases[p.order[q]]
  {
    AdvancingKeepsShape(programs, ids, p, k, j);
    StepMoves(programs, ids, p, k + j, j);
  }

  lemma {:induction false} CompletedStays(
    programs: seq<Program>, ids: seq<string>, p: Policy, k: nat, i: nat, j: nat, q: nat)
    requires Stated(p) && Advancing(programs, ids, p) && Shape(programs[0], p.order, k)
    requires i <= j < |programs| && q < k + i && q < |p.order|
    ensures p.order[q] in programs[i].phases && p.order[q] in programs[j].phases
    ensures programs[j].phases[p.order[q]] == programs[i].phases[p.order[q]]
  {
    if i < j {
      CompletedStays(programs, ids, p, k, i, j - 1, q);
      StaysOnce(programs, ids, p, k, j - 1, q);
    } else {
      AdvancingKeepsShape(programs, ids, p, k, i);
    }
  }

  /** A phase that was complete at some point of the chain is the same record ever after. */
  lemma CompletedNeverChanges(
    programs: seq<Program>, ids: seq<string>, p: Policy, k: nat, i: nat, j: nat, q: nat)
    requires Stated(p) && Chain(programs, ids, p) && Shape(programs[0], p.order, k)
    requires i <= j < |programs| && q < k + i && q < |p.order|
    ensures p.order[q] in programs[i].phases && p.order[q] in programs[j].phases
    ensures programs[j].phases[p.order[q]] == programs[i].phases[p.order[q]]
  {
    ChainAdvances(programs, ids, p);
    CompletedStays(programs, ids, p, k, i, j, q);
  }

  // ----- How long a chain can be -----

  function CompleteIn(x: Program): string -> bool {
    q => q in x.phases && x.phases[q].status == "COMPLETE"
  }

  function CompleteCount(x: Program, order: seq<string>): nat {
    |Filter(order, CompleteIn(x))|
  }

  /** Whatever the program looks like, an accepted transition completes one more phase and undoes none. */
  lemma CompletesOneMore(before: Program, after: Program, id: string, p: Policy)
    requires Stated(p) && Known(before, id, p) && Advances(before, after, id, p)
    ensures CompleteCount(before, p.order) < CompleteCount(after, p.order)
  {
    forall q | q in p.order && CompleteIn(before)(q)
      ensures CompleteIn(after)(q)
    {
      assert q in Allowed(p.order, id) || after.phases[q] == before.phases[q];
    }
    FilterStrict(p.order, CompleteIn(before), CompleteIn(after), id);
  }

  lemma {:induction false} AdvancingCompletes(programs: seq<Program>, ids: seq<string>, p: Policy, n: nat)
    requires Stated(p) && Advancing(programs, ids, p) && n <= |ids|
    ensures n <= CompleteCount(programs[n], p.order)
  {
    if n > 0 {
      AdvancingCompletes(programs, ids, p, n - 1);
      StepCompletes(programs, ids, p, n - 1);
    }
  }

  /** No chain is longer than the phase list, whatever program it starts from. */
  lemma ChainIsBounded(programs: seq<Program>, ids: seq<string>, p: Policy)
    requires Stated(p) && Chain(programs, ids, p)
    ensures |ids| <= |p.order|
  {
    ChainAdvances(programs, ids, p);
    AdvancingCompletes(programs, ids, p, |ids|);
  }
}
