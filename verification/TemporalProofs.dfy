/** Time-only evidence collected from freshness checks (scripts/publication_freshness.py, and the checks that
    feed it in scripts/publication_subject.py and scripts/publication_provider.py). Instants are seconds. */
module TemporalProofs {
  import opened Wrappers
  import opened Sequences

  const CLOCK_SKEW_SECONDS := 300.0

  /** The first and last instant a datetime can hold. */
  const MIN_INSTANT := -62135596800.0
  const MAX_INSTANT := 253402300799.999999

  predicate IsInstant(t: real) {
    MIN_INSTANT <= t <= MAX_INSTANT
  }

  datatype Interval = Interval(after: real, before: real)

  predicate Covers(i: Interval, t: real) {
    i.after <= t < i.before
  }

  ghost predicate CoversAll(recorded: seq<Interval>, t: real) {
    forall i :: i in recorded ==> Covers(i, t)
  }

  /** `after` is the latest start and `before` the earliest end. */
  ghost predicate Bounds(after: real, before: real, recorded: seq<Interval>) {
    && (exists i :: i in recorded && i.after == after) && (exists i :: i in recorded && i.before == before)
    && forall i :: i in recorded ==> i.after <= after && before <= i.before
  }

  lemma BoundsCover(after: real, before: real, recorded: seq<Interval>, t: real)
    requires Bounds(after, before, recorded)
    ensures CoversAll(recorded, t) <==> after <= t < before
  {
  }

  lemma BoundsNext(after: real, before: real, recorded: seq<Interval>, i: Interval)
    requires Bounds(after, before, recorded)
    ensures Bounds(if after >= i.after then after else i.after, if before <= i.before then before else i.before,
                   recorded + [i])
  {
    assert forall x :: x in recorded + [i] <==> x in recorded || x == i;
  }

  ghost predicate Within(inner: seq<Interval>, outer: seq<Interval>) {
    forall i :: i in inner ==> i in outer
  }

  datatype TimeError = Empty | Outdated | EmptyInterval | FutureDated | Expired | Inconsistent | Overflow

  // ----- Checks and the intervals they record -----

  datatype Check = Freshness(issued: real, ttl: int) | Window(start: real, end: real, ttl: int) | Expiry(expires: real)

  /** What the check itself demands of the clock. */
  predicate Passes(c: Check, now: real) {
    match c
    case Freshness(issued, ttl) =>
      IsInstant(issued + ttl as real) && issued - now <= CLOCK_SKEW_SECONDS && now < issued + ttl as real
    case Window(start, end, ttl) =>
      && start <= end && end - now <= CLOCK_SKEW_SECONDS && start - now <= CLOCK_SKEW_SECONDS
      && now - start < ttl as real && now - end < ttl as real
    case Expiry(expires) => now < expires
  }

  /** The interval of one issue time, bounded to representable instants. */
  function FreshInterval(issued: real, ttl: int): Interval {
    Interval(
      if issued - CLOCK_SKEW_SECONDS < MIN_INSTANT then MIN_INSTANT else issued - CLOCK_SKEW_SECONDS,
      if IsInstant(issued + ttl as real) then issued + ttl as real
      else if ttl >= 0 then MAX_INSTANT
      else MIN_INSTANT)
  }

  function IntervalsOf(c: Check): seq<Interval> {
    match c
    case Freshness(issued, ttl) => [FreshInterval(issued, ttl)]
    case Window(start, end, ttl) => [FreshInterval(start, ttl), FreshInterval(end, ttl)]
    case Expiry(expires) => [Interval(MIN_INSTANT, expires)]
  }

  predicate Representable(c: Check) {
    match c
    case Freshness(issued, _) => IsInstant(issued)
    case Window(start, end, _) => IsInstant(start) && IsInstant(end)
    case Expiry(expires) => IsInstant(expires)
  }

  /** The end of the window lies beyond the last representable instant. */
  predicate Clamped(c: Check) {
    c.Window? && (c.start + c.ttl as real > MAX_INSTANT || c.end + c.ttl as real > MAX_INSTANT)
  }

  /** What a check that once passed has recorded holds at exactly the instants at which it would pass again;
      only at the very last instant is a clamped window stricter. */
  lemma IntervalsAgree(c: Check, earlier: real, now: real)
    requires Representable(c) && Passes(c, earlier) && IsInstant(now)
    ensures CoversAll(IntervalsOf(c), now) <==> HoldsAgain(c, now)
  {
    assert forall i :: i in IntervalsOf(c) <==>
                         match c
                         case Freshness(issued, ttl) => i == FreshInterval(issued, ttl)
                         case Window(start, end, ttl) => i == FreshInterval(start, ttl) || i == FreshInterval(end, ttl)
                         case Expiry(expires) => i == Interval(MIN_INSTANT, expires);
    match c
    case Freshness(issued, ttl) => assert CoversAll(IntervalsOf(c), now) <==> Covers(FreshInterval(issued, ttl), now);
    case Window(start, end, ttl) =>
      assert CoversAll(IntervalsOf(c), now) <==>
               Covers(FreshInterval(start, ttl), now) && Covers(FreshInterval(end, ttl), now);
    case Expiry(expires) => assert CoversAll(IntervalsOf(c), now) <==> Covers(Interval(MIN_INSTANT, expires), now);
  }

  /** The check would pass now; at the last instant of all a clamped window does not. */
  predicate HoldsAgain(c: Check, now: real) {
    Passes(c, now) && !(now == MAX_INSTANT && Clamped(c))
  }

  /** Everything a collector records while these checks run. */
  function AllIntervals(checks: seq<Check>): seq<Interval> {
    Flatten(checks, IntervalsOf)
  }

  ghost predicate OncePassed(c: Check) {
    Representable(c) && exists t :: Passes(c, t)
  }

  /** A proof that collected these checks is current exactly when each of them would itself pass. */
  lemma {:induction false} ProofIsExact(checks: seq<Check>, now: real)
    requires IsInstant(now) && forall c :: c in checks ==> OncePassed(c)
    ensures CoversAll(AllIntervals(checks), now) <==> forall c :: c in checks ==> HoldsAgain(c, now)
    ensures AllIntervals(checks) != [] <==> checks != []
  {
    if checks != [] {
      var first, rest := checks[0], checks[1..];
      assert checks == [first] + rest;
      ProofIsExact(rest, now);
      assert OncePassed(first) by { assert first in checks; }
      var t :| Passes(first, t);
      IntervalsAgree(first, t, now);
      assert AllIntervals(checks) == IntervalsOf(first) + AllIntervals(rest);
      assert forall i :: i in AllIntervals(checks) <==> i in IntervalsOf(first) || i in AllIntervals(rest);
    }
  }

  // ----- One proof -----

  class TemporalProof {
    var after: Option<real>
    var before: Option<real>
    var last: Option<real>
    /** What was recorded, by which checks, and the collectors that were active when this one was opened. */
    ghost var recorded: seq<Interval>
    ghost var checks: seq<Check>
    ghost const enclosing: set<TemporalProof>

    /** The two bounds are those of everything recorded. */
    ghost predicate Sound()
      reads this
    {
      && after.Some? == before.Some? == (recorded != [])
      && (after.Some? ==> Bounds(after.value, before.value, recorded))
    }

    /** What was recorded is what the checks record, each of which passed. */
    ghost predicate Valid()
      reads this
    {
      Sound() && recorded == AllIntervals(checks) && forall c :: c in checks ==> OncePassed(c)
    }

    constructor (ghost around: set<TemporalProof>)
      ensures Valid() && recorded == [] && checks == [] && last == None && enclosing == around
    {
      after, before, last, recorded, checks := None, None, None, [], [];
      enclosing := around;
    }

    method Include(validAfter: real, validBefore: real)
      requires Sound()
      modifies this`after, this`before, this`recorded
      ensures Sound() && recorded == old(recorded) + [Interval(validAfter, validBefore)]
    {
      ghost var interval := Interval(validAfter, validBefore);
      if after.Some? {
        BoundsNext(after.value, before.value, recorded, interval);
      }
      after := Some(if after.Some? && after.value >= validAfter then after.value else validAfter);
      before := Some(if before.Some? && before.value <= validBefore then before.value else validBefore);
      recorded := recorded + [interval];
      assert recorded == [interval] ==> interval in recorded;
    }

    /** Passes exactly when some check was made, time has not gone back and every check made would pass now. */
    method AssertCurrent(now: real) returns (r: Result<(), TimeError>)
      requires Valid() && IsInstant(now)
      modifies this`last
      ensures Valid()
      ensures r.Ok? <==>
              checks != [] && (old(last).Some? ==> old(last).value <= now)
              && forall c :: c in checks ==> HoldsAgain(c, now)
      ensures last == if r.Ok? then Some(now) else old(last)
    {
      ProofIsExact(checks, now);
      if after.None? || before.None? {
        return Err(Empty);
      }
      BoundsCover(after.value, before.value, recorded, now);
      if !(after.value <= now < before.value) || (last.Some? && now < last.value) {
        return Err(Outdated);
      }
      last := Some(now);
      return Ok(());
    }
  }

  // ----- Nested collectors -----

  /** The active collectors of one context, outermost first, and every collector ever opened in it. */
  class Collectors {
    var active: seq<TemporalProof>
    ghost var known: set<TemporalProof>

    /** A collector is enclosed by the active ones before it; what a collector recorded, each of its enclosing ones
        recorded too, whether or not it has been left since. */
    ghost predicate Sound()
      reads this, known
    {
      && (forall i, j :: 0 <= i < j < |active| ==> active[i] != active[j])
      && (forall p :: p in active ==> p in known)
      && (forall k :: 0 <= k < |active| ==> active[k].enclosing == set q | q in active[..k])
      && (forall p :: p in known ==> p.Sound() && p.enclosing <= known)
      && (forall p, q :: p in known && q in p.enclosing ==> Within(p.recorded, q.recorded))
    }

    ghost predicate Valid()
      reads this, known
    {
      Sound() && forall p :: p in known ==> p.Valid()
    }

    constructor ()
      ensures Valid() && active == [] && known == {}
    {
      active, known := [], {};
    }

    /** Entering `collect_time_proof`. */
    method Enter() returns (proof: TemporalProof)
      requires Valid()
      modifies this
      ensures Valid() && fresh(proof) && active == old(active) + [proof] && known == old(known) + {proof}
      ensures proof.checks == [] && proof.last == None && proof.enclosing == set q | q in old(active)
    {
      proof := new TemporalProof(set q | q in active);
      active := active + [proof];
      known := known + {proof};
      assert active[..|active| - 1] == old(active);
      assert forall k :: 0 <= k < |old(active)| ==> active[..k] == old(active)[..k];
    }

    /** Leaving it. */
    method Exit()
      requires Valid() && active != []
      modifies this`active
      ensures Valid() && active == old(active)[..|old(active)| - 1]
    {
      active := active[..|active| - 1];
      assert forall k :: 0 <= k < |active| ==> active[..k] == old(active)[..k];
    }

    /** `record_interval`: in every active collector, or in none. */
    method RecordInterval(validAfter: real, validBefore: real) returns (r: Result<(), TimeError>)
      requires Sound()
      modifies active
      ensures Sound()
      ensures r.Ok? <==> validAfter < validBefore
      ensures forall p :: p in active ==>
                            p.recorded == old(p.recorded) + if r.Ok? then [Interval(validAfter, validBefore)] else []
      ensures forall p :: p in active ==> p.checks == old(p.checks) && p.last == old(p.last)
    {
      if validAfter >= validBefore {
        return Err(EmptyInterval);
      }
      ghost var interval := Interval(validAfter, validBefore);
      for k := 0 to |active|
        invariant forall p :: p in known ==> p.Sound()
        invariant forall p :: p in active ==> p.checks == old(p.checks) && p.last == old(p.last)
        invariant forall i :: 0 <= i < k ==> active[i].recorded == old(active[i].recorded) + [interval]
        invariant forall i :: k <= i < |active| ==> active[i].recorded == old(active[i].recorded)
        invariant forall p :: p in known && p !in active ==> p.recorded == old(p.recorded)
      {
        active[k].Include(validAfter, validBefore);
      }
      forall p, q | p in known && q in p.enclosing
        ensures Within(p.recorded, q.recorded)
      {
        assert Within(old(p.recorded), old(q.recorded));
        if p in active {
          var k :| 0 <= k < |active| && active[k] == p;
          assert q in active[..k];
        }
      }
      return Ok(());
    }

    /** `record_freshness`. */
    method RecordFreshness(issued: real, ttl: int) returns (r: Result<(), TimeError>)
      requires Sound()
      modifies active
      ensures Sound()
      ensures r.Ok? <==> active == [] || FreshInterval(issued, ttl).after < FreshInterval(issued, ttl).before
      ensures forall p :: p in active ==>
                            p.recorded == old(p.recorded) + if r.Ok? then [FreshInterval(issued, ttl)] else []
      ensures forall p :: p in active ==> p.checks == old(p.checks) && p.last == old(p.last)
    {
      if active == [] {
        return Ok(());
      }
      var interval := FreshInterval(issued, ttl);
      r := RecordInterval(interval.after, interval.before);
    }

    /** The active collectors have recorded what this check records: they made it. */
    ghost method Note(c: Check)
      requires Sound() && OncePassed(c)
      requires forall p :: p in active ==> p.recorded == AllIntervals(p.checks) + IntervalsOf(c)
      requires forall p :: p in active ==> forall d :: d in p.checks ==> OncePassed(d)
      requires forall p :: p in known && p !in active ==> p.Valid()
      modifies active
      ensures Valid()
      ensures forall p :: p in active ==> p.checks == old(p.checks) + [c] && p.last == old(p.last)
    {
      forall p | p in active {
        p.checks := p.checks + [c];
      }
      forall p | p in active
        ensures p.Valid()
      {
        FlattenNext(old(p.checks), c, IntervalsOf);
      }
    }

    /** `require_fresh`. */
    method RequireFresh(issued: real, now: real, ttl: int) returns (r: Result<(), TimeError>)
      requires Valid() && IsInstant(issued) && IsInstant(now)
      modifies active
      ensures Valid()
      ensures r.Ok? <==> Passes(Freshness(issued, ttl), now)
      ensures forall p :: p in active ==>
                            p.checks == old(p.checks) + if r.Ok? then [Freshness(issued, ttl)] else []
      ensures forall p :: p in active ==> p.last == old(p.last)
    {
      if issued - now > CLOCK_SKEW_SECONDS {
        return Err(FutureDated);
      }
      if !IsInstant(issued + ttl as real) {
        return Err(Overflow);
      }
      if now >= issued + ttl as real {
        return Err(Expired);
      }
      assert Passes(Freshness(issued, ttl), now);
      r := RecordFreshness(issued, ttl);
      Note(Freshness(issued, ttl));
    }

    /** The freshness part of a job window with two timestamps. */
    method FreshWindow(start: real, end: real, now: real, ttl: int) returns (r: Result<(), TimeError>)
      requires Valid() && IsInstant(start) && IsInstant(end) && IsInstant(now)
      modifies active
      ensures Valid()
      ensures r.Ok? <==> Passes(Window(start, end, ttl), now)
      ensures forall p :: p in active ==>
                            p.checks == old(p.checks) + if r.Ok? then [Window(start, end, ttl)] else []
      ensures forall p :: p in active ==> p.last == old(p.last)
    {
      if end < start || end - now > CLOCK_SKEW_SECONDS {
        return Err(Inconsistent);
      }
      if start - now > CLOCK_SKEW_SECONDS {
        return Err(FutureDated);
      }
      if now - start >= ttl as real || now - end >= ttl as real {
        return Err(Expired);
      }
      assert Passes(Window(start, end, ttl), now);
      r := RecordFreshness(start, ttl);
      r := RecordFreshness(end, ttl);
      Note(Window(start, end, ttl));
    }

    /** The expiry check of `authenticate_artifact`. */
    method RequireUnexpired(expiry: real, now: real) returns (r: Result<(), TimeError>)
      requires Valid() && IsInstant(expiry) && IsInstant(now)
      modifies active
      ensures Valid()
      ensures r.Ok? <==> Passes(Expiry(expiry), now)
      ensures forall p :: p in active ==> p.checks == old(p.checks) + if r.Ok? then [Expiry(expiry)] else []
      ensures forall p :: p in active ==> p.last == old(p.last)
    {
      if expiry <= now {
        return Err(Expired);
      }
      assert Passes(Expiry(expiry), now);
      r := RecordInterval(MIN_INSTANT, expiry);
      Note(Expiry(expiry));
    }

    /** Whatever was opened around a collector has, left or not, at least as narrow a window: its bounds lie within
        those of the enclosed one. */
    lemma OuterWithinInner(inner: TemporalProof, outer: TemporalProof)
      requires Sound() && inner in known && outer in inner.enclosing && inner.after.Some?
      ensures outer in known && outer.after.Some? && outer.before.Some? && inner.before.Some?
      ensures inner.after.value <= outer.after.value && outer.before.value <= inner.before.value
    {
      assert Within(inner.recorded, outer.recorded);
    }
  }
}
