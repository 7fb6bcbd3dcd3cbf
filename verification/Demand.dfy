/** The bucket scheduler that inserts extra demand: `Visualize/actuators/demand.py`. */
module Demand {
  import opened Options
  import opened RealArithmetic

  datatype Source = Source(id: string, baseline: real, tls: string)

  /** Target rates of one profile by source; a source without an entry keeps its baseline. */
  type Profile = map<string, real>

  function Severity(profile: string): nat {
    if profile == "peak" || profile == "morning_peak" || profile == "evening_peak" || profile == "heavy_traffic" then 2
    else if profile == "oversaturated" then 3 else 0
  }

  function TargetOf(profiles: map<string, Profile>, profile: string, src: Source): real {
    if profile in profiles && src.id in profiles[profile] then profiles[profile][src.id] else src.baseline
  }

  /** One profile's claim on a source. */
  datatype Claim = Claim(severity: nat, target: real) {
    /** Strictly stronger: more severe, or as severe with a higher target. */
    predicate Beats(other: Claim) {
      severity > other.severity || (severity == other.severity && target > other.target)
    }
  }

  function ClaimOf(profiles: map<string, Profile>, profile: string, src: Source): Claim {
    Claim(Severity(profile), TargetOf(profiles, profile, src))
  }

  /** What the parameter registry checks before it is frozen: a profile that names a source asks for at
      least the source's baseline. */
  ghost predicate Validated(sources: seq<Source>, profiles: map<string, Profile>) {
    forall p, k :: p in profiles && 0 <= k < |sources| && sources[k].id in profiles[p] ==>
      profiles[p][sources[k].id] >= sources[k].baseline
  }

  /** node_profiles in dictionary order. */
  datatype Assignment = Assignment(node: string, profile: string)

  /** The default profile and those of the first `n` nodes whose light the source feeds. */
  function Claimants(default: string, scoped: seq<Assignment>, nodeTls: map<string, string>, src: Source, n: nat): seq<string>
    requires n <= |scoped|
  {
    if n == 0 then [default]
    else
      var a := scoped[n - 1];
      Claimants(default, scoped, nodeTls, src, n - 1)
      + if a.node in nodeTls && nodeTls[a.node] == src.tls then [a.profile] else []
  }

  /** The winner is one of the claimants and no claimant beats it. */
  ghost predicate Wins(profiles: map<string, Profile>, claimants: seq<string>, src: Source, winner: string) {
    && winner in claimants
    && forall p :: p in claimants ==> !ClaimOf(profiles, p, src).Beats(ClaimOf(profiles, winner, src))
  }

  /** No claimant is more severe than `q`, and none asks for more. */
  ghost predicate Tops(profiles: map<string, Profile>, claimants: seq<string>, src: Source, q: string) {
    q in claimants
    && forall p :: p in claimants ==> Severity(p) <= Severity(q) && TargetOf(profiles, p, src) <= TargetOf(profiles, q, src)
  }

  /** The winner has the highest target of all claimants exactly when some claimant of the greatest
      severity does. */
  lemma HighestTargetIff(profiles: map<string, Profile>, claimants: seq<string>, src: Source, winner: string)
    requires Wins(profiles, claimants, src, winner)
    ensures (forall p :: p in claimants ==> TargetOf(profiles, p, src) <= TargetOf(profiles, winner, src)) <==>
            (exists q :: Tops(profiles, claimants, src, q))
  {
    forall p | p in claimants
      ensures Severity(p) <= Severity(winner)
      ensures Severity(p) == Severity(winner) ==> TargetOf(profiles, p, src) <= TargetOf(profiles, winner, src)
    {
      assert !ClaimOf(profiles, p, src).Beats(ClaimOf(profiles, winner, src));
    }
    if forall p :: p in claimants ==> TargetOf(profiles, p, src) <= TargetOf(profiles, winner, src) {
      assert Tops(profiles, claimants, src, winner);
    }
  }

  /** It can fail: a node at "oversaturated" wins over a default "peak" that asks for more. */
  lemma SeverityBeatsTarget()
    ensures var src := Source("we_s", 120.0, "J1");
            var profiles: map<string, Profile> := map["peak" := map["we_s" := 4000.0], "oversaturated" := map["we_s" := 3000.0]];
            var claimants := Claimants("peak", [Assignment("A", "oversaturated")], map["A" := "J1"], src, 1);
            && Validated([src], profiles) && claimants == ["peak", "oversaturated"]
            && Wins(profiles, claimants, src, "oversaturated")
            && TargetOf(profiles, "oversaturated", src) == 3000.0 < TargetOf(profiles, "peak", src)
  {
  }

  // ----- the shipped profiles -----

  const SHIPPED := ["normal", "peak", "morning_peak", "evening_peak", "heavy_traffic", "oversaturated"]

  /** The shipped targets are the same for all sources, except in the two directional peaks. */
  function ShippedTarget(profile: string, source: string): real {
    if profile == "normal" then 700.0
    else if profile == "peak" then 4000.0
    else if profile == "heavy_traffic" then 2200.0
    else if profile == "oversaturated" then 70000.0
    else if profile == "morning_peak" then
      if source == "ns_w" || source == "ns_e" then 2800.0
      else if source == "sn_w" || source == "we_s" then 2400.0
      else if source == "sn_e" then 2000.0
      else if source == "we_n" then 2200.0 else 900.0
    else
      if source == "sn_e" || source == "ew_s" then 2800.0
      else if source == "sn_w" || source == "ew_n" then 2400.0 else 900.0
  }

  /** With the shipped targets the winner always has the highest target. */
  lemma ShippedWinnerIsHighest(profiles: map<string, Profile>, claimants: seq<string>, src: Source, winner: string)
    requires Wins(profiles, claimants, src, winner)
    requires forall p :: p in claimants ==> p in SHIPPED && TargetOf(profiles, p, src) == ShippedTarget(p, src.id)
    ensures forall p :: p in claimants ==> TargetOf(profiles, p, src) <= TargetOf(profiles, winner, src)
  {
    forall p | p in claimants ensures TargetOf(profiles, p, src) <= TargetOf(profiles, winner, src) {
      assert !ClaimOf(profiles, p, src).Beats(ClaimOf(profiles, winner, src));
      if Severity(p) < Severity(winner) {
        ShippedRises(p, winner, src.id);
      }
    }
  }

  lemma ShippedRises(p: string, q: string, source: string)
    requires p in SHIPPED && q in SHIPPED && Severity(p) < Severity(q)
    ensures ShippedTarget(p, source) <= ShippedTarget(q, source)
  {
  }

  function Total(bs: seq<nat>): nat {
    if bs == [] then 0 else Total(bs[..|bs| - 1]) + bs[|bs| - 1]
  }

  // ----- one source -----

  /** One source's schedule.  The history fields tell the state at the last rebuild, the time ticked
      since, and whether the pending cap was ever reached. */
  class SourceBucket {
    const sourceId: string
    const delta: real
    const interval: real
    var accumulator: real
    var scheduled: nat
    var inserted: nat
    var failed: nat
    var pending: nat
    ghost const start: real
    ghost const startPending: nat
    ghost var elapsed: real
    ghost var ticks: nat
    ghost var saturated: bool

    constructor (id: string, delta: real, pending: nat, accumulator: real)
      requires accumulator >= 0.0
      ensures sourceId == id && this.delta == delta && this.pending == pending
      ensures inserted == 0 && Restarted(accumulator) && Valid()
    {
      sourceId, this.delta := id, delta;
      interval := if delta > 0.0 then 3600.0 / delta else 1000000000.0;
      this.accumulator, this.pending := accumulator, pending;
      scheduled, inserted, failed := 0, 0, 0;
      start, startPending, elapsed, ticks, saturated := accumulator, pending, 0.0, 0, false;
      new;
      if delta > 0.0 {
        IntervalPositive(delta);
      }
    }

    /** Right after a rebuild: nothing scheduled, the clock starting at `at`. */
    ghost predicate Restarted(at: real)
      reads this`scheduled, this`ticks, this`accumulator
    {
      scheduled == 0 && ticks == 0 && start == at && accumulator == at
    }

    /** Rate: what was scheduled never exceeds what the clock has paid for; while the cap was never
        reached nothing is lost and less than one interval is left over. */
    ghost predicate Valid()
      reads this
    {
      && interval > 0.0 && accumulator >= 0.0 && elapsed >= 0.0
      && (delta > 0.0 ==> interval * delta == 3600.0)
      && startPending + scheduled == inserted + pending
      && Multiple(scheduled, interval) + accumulator <= start + elapsed
      && (!saturated ==> Multiple(scheduled, interval) + accumulator == start + elapsed)
      && (!saturated && ticks > 0 ==> accumulator < interval)
    }

    /** Adds `dt` to the clock and schedules every interval that is due, up to the cap. */
    method Schedule(dt: real, maxPending: nat) returns (count: nat)
      requires Valid() && dt > 0.0
      modifies this`accumulator, this`scheduled, this`pending, this`elapsed, this`ticks, this`saturated
      ensures Valid() && elapsed == old(elapsed) + dt && ticks == old(ticks) + 1
      ensures scheduled == old(scheduled) + count && pending == old(pending) + count
      ensures pending <= maxPending || (count == 0 && old(pending) > maxPending)
      ensures old(pending) < maxPending && pending < maxPending ==> accumulator < interval && saturated == old(saturated)
      ensures pending >= maxPending ==> saturated
    {
      count := 0;
      accumulator := accumulator + dt;
      elapsed := elapsed + dt;
      ticks := ticks + 1;
      if pending >= maxPending {
        accumulator := if accumulator <= interval then accumulator else interval;
        saturated := true;
      }
      while accumulator >= interval && pending < maxPending
        invariant accumulator >= 0.0 && elapsed == old(elapsed) + dt && ticks == old(ticks) + 1
        invariant startPending + scheduled == inserted + pending
        invariant scheduled == old(scheduled) + count && pending == old(pending) + count
        invariant pending <= maxPending || (count == 0 && old(pending) > maxPending)
        invariant Multiple(scheduled, interval) + accumulator <= start + elapsed
        invariant !saturated ==> Multiple(scheduled, interval) + accumulator == start + elapsed
        invariant saturated == (old(saturated) || old(pending) >= maxPending)
        decreases maxPending - pending
      {
        accumulator := accumulator - interval;
        scheduled := scheduled + 1;
        pending := pending + 1;
        count := count + 1;
      }
      if pending >= maxPending {
        saturated := true;
      }
    }

    /** Tries to insert owed vehicles until one attempt fails or the attempts run out; whether SUMO
        accepts an attempt is SUMO's choice. */
    method Insert(maxAttempts: nat) returns (count: nat, failures: nat)
      requires Valid()
      modifies this`inserted, this`failed, this`pending
      ensures Valid() && inserted == old(inserted) + count && pending + count == old(pending)
      ensures failed == old(failed) + failures && count + failures <= maxAttempts
      ensures failures == 1 || (failures == 0 && (pending == 0 || count == maxAttempts))
    {
      count, failures := 0, 0;
      while pending > 0 && count < maxAttempts && failures == 0
        invariant Valid() && inserted == old(inserted) + count && pending + count == old(pending)
        invariant failed == old(failed) + failures && failures <= 1 && count + failures <= maxAttempts
        decreases maxAttempts - count, 1 - failures
      {
        var ok: bool := *;
        if ok {
          pending := pending - 1;
          inserted := inserted + 1;
          count := count + 1;
        } else {
          failed := failed + 1;
          failures := 1;
        }
      }
    }

    /** One tick of this source: schedule, then insert. */
    method Serve(dt: real, maxPending: nat, maxAttempts: nat) returns (count: nat, done: nat, failures: nat)
      requires Valid() && dt > 0.0 && pending <= maxPending
      modifies this
      ensures Valid() && elapsed == old(elapsed) + dt && pending <= maxPending
      ensures pending + done == old(pending) + count
    {
      count := Schedule(dt, maxPending);
      done, failures := Insert(maxAttempts);
    }

    /** The exact schedule: a source that ticked and never reached its cap has scheduled exactly
        floor((accumulator at the rebuild + time since) / interval) vehicles. */
    lemma ScheduleIsFloor()
      requires Valid() && ticks > 0 && !saturated
      ensures scheduled == ((start + elapsed) / interval).Floor
    {
      MultipleUnique(start + elapsed, interval, scheduled, accumulator);
    }

    /** The rate: over `start + elapsed` seconds exactly floor(delta * hours) vehicles, if the cap was never
        reached, and never more. */
    lemma ScheduleIsPerHour()
      requires Valid() && delta > 0.0
      ensures scheduled as real * 3600.0 <= (start + elapsed) * delta
      ensures ticks > 0 && !saturated ==> (start + elapsed) * delta < (scheduled + 1) as real * 3600.0
    {
      ScheduleAtMostClock();
      PerHour(scheduled as real, interval, delta, start + elapsed);
      if ticks > 0 && !saturated {
        MultipleIsProduct(scheduled, interval);
        PlusOneTimes(scheduled as real, interval);
        PerHour((scheduled + 1) as real, interval, delta, start + elapsed);
      }
    }

    /** In any case the schedule never runs ahead of the clock. */
    lemma ScheduleAtMostClock()
      requires Valid()
      ensures scheduled as real * interval <= start + elapsed
    {
      MultipleIsProduct(scheduled, interval);
    }
  }

  lemma IntervalPositive(delta: real)
    requires delta > 0.0
    ensures 3600.0 / delta > 0.0 && 3600.0 / delta * delta == 3600.0
  {
  }

  lemma PerHour(n: real, interval: real, delta: real, x: real)
    requires delta > 0.0 && interval * delta == 3600.0
    ensures n * interval <= x ==> n * 3600.0 <= x * delta
    ensures x < n * interval ==> x * delta < n * 3600.0
  {
    assert n * interval * delta == n * (interval * delta);
  }

  // ----- totals over the buckets -----

  /** What each bucket owes. */
  ghost function Owed(bs: seq<SourceBucket>): (owed: seq<nat>)
    reads bs`pending
    ensures |owed| == |bs| && forall i :: 0 <= i < |bs| ==> owed[i] == bs[i].pending
  {
    if bs == [] then [] else Owed(bs[..|bs| - 1]) + [bs[|bs| - 1].pending]
  }

  ghost function Accumulators(bs: seq<SourceBucket>): (clocks: seq<real>)
    reads bs`accumulator
    ensures |clocks| == |bs| && forall i :: 0 <= i < |bs| ==> clocks[i] == bs[i].accumulator
  {
    if bs == [] then [] else Accumulators(bs[..|bs| - 1]) + [bs[|bs| - 1].accumulator]
  }

  /** The time each bucket has been given since its last rebuild. */
  ghost function Clocks(bs: seq<SourceBucket>): (clocks: seq<real>)
    reads bs`elapsed
    ensures |clocks| == |bs| && forall i :: 0 <= i < |bs| ==> clocks[i] == bs[i].elapsed
  {
    if bs == [] then [] else Clocks(bs[..|bs| - 1]) + [bs[|bs| - 1].elapsed]
  }

  /** The clocks after the first `n` sources got `dt`; only a positive rate runs a clock. */
  ghost function Advanced(bs: seq<SourceBucket>, clocks: seq<real>, dt: real, n: nat): (r: seq<real>)
    requires |clocks| == |bs|
    ensures |r| == |bs|
  {
    seq(|bs|, i requires 0 <= i < |bs| => if i < n && bs[i].delta > 0.0 then clocks[i] + dt else clocks[i])
  }

  /** What the sources with a positive rate owe; `tick` skips the others. */
  ghost function Active(bs: seq<SourceBucket>, owed: seq<nat>): (r: seq<nat>)
    requires |owed| == |bs|
    ensures |r| == |bs| && forall i :: 0 <= i < |bs| ==> r[i] == if bs[i].delta > 0.0 then owed[i] else 0
  {
    seq(|bs|, i requires 0 <= i < |bs| => if bs[i].delta > 0.0 then owed[i] else 0)
  }

  lemma TotalAppend(ns: seq<nat>, n: nat)
    ensures Total(ns + [n]) == Total(ns) + n
  {
    assert (ns + [n])[..|ns|] == ns;
  }

  lemma {:induction false} TotalUpdate(ns: seq<nat>, i: nat, n: nat)
    requires i < |ns|
    ensures Total(ns[i := n]) == Total(ns) - ns[i] + n
  {
    var rest, last := ns[..|ns| - 1], ns[|ns| - 1];
    if i < |rest| {
      TotalUpdate(rest, i, n);
      assert ns[i := n][..|rest|] == rest[i := n];
    } else {
      assert ns[i := n][..|rest|] == rest;
    }
  }

  lemma {:induction false} TotalOrder(a: seq<nat>, b: seq<nat>)
    requires |a| == |b| && forall i :: 0 <= i < |a| ==> a[i] <= b[i]
    ensures Total(a) <= Total(b)
    ensures Total(a) == Total(b) <==> a == b
  {
    if a != [] {
      var n := |a| - 1;
      TotalOrder(a[..n], b[..n]);
      assert a == a[..n] + [a[n]] && b == b[..n] + [b[n]];
    }
  }

  /** Entry by entry no larger: the totals agree exactly when every entry does. */
  lemma TotalsAgreeIff(a: seq<nat>, b: seq<nat>)
    requires |a| == |b| && forall i :: 0 <= i < |a| ==> a[i] <= b[i]
    ensures Total(a) <= Total(b)
    ensures Total(a) == Total(b) <==> forall i :: 0 <= i < |a| ==> a[i] == b[i]
  {
    hide Total;
    TotalOrder(a, b);
  }

  /** The list padded with zeros to length `k`. */
  function Padded(ns: seq<nat>, k: nat): seq<nat> {
    seq(k, i => if 0 <= i < |ns| then ns[i] else 0)
  }

  lemma {:induction false} PaddedTotal(ns: seq<nat>, k: nat)
    requires |ns| <= k
    ensures Total(Padded(ns, k)) == Total(ns)
  {
    if k > |ns| {
      PaddedTotal(ns, k - 1);
      assert Padded(ns, k) == Padded(ns, k - 1) + [0];
      TotalAppend(Padded(ns, k - 1), 0);
    } else {
      assert Padded(ns, k) == ns;
    }
  }

  ghost predicate Apart(bs: seq<SourceBucket>) {
    forall i, j :: 0 <= i < j < |bs| ==> bs[i] != bs[j]
  }

  // ----- the actuator -----

  datatype SetResult = Rebuilt | UnknownProfile

  datatype Request = Change(profile: string, node: Option<string>) | Elapse(dt: real)

  class ScenarioDemandActuator {
    const sources: seq<Source>
    const profiles: map<string, Profile>
    const nodeTls: map<string, string>
    const maxPending: nat
    const maxAttempts: nat
    var defaultProfile: string
    var nodeProfiles: seq<Assignment>
    var buckets: seq<SourceBucket>
    var enabled: bool
    var scheduledTotal: nat
    var insertedTotal: nat
    var failedTotal: nat
    var pendingTotal: nat

    constructor (sources: seq<Source>, profiles: map<string, Profile>, nodeTls: map<string, string>, maxPending: nat, maxRetries: nat)
      requires forall i, j :: 0 <= i < j < |sources| ==> sources[i].id != sources[j].id
      requires Validated(sources, profiles)
      ensures this.sources == sources && this.profiles == profiles && this.nodeTls == nodeTls && this.maxPending == maxPending
      ensures Valid() && buckets == [] && nodeProfiles == [] && defaultProfile == "normal" && enabled
    {
      this.sources, this.profiles, this.nodeTls, this.maxPending := sources, profiles, nodeTls, maxPending;
      maxAttempts := if maxRetries * 2 > 1 then maxRetries * 2 else 1;
      defaultProfile, nodeProfiles, buckets, enabled := "normal", [], [], true;
      scheduledTotal, insertedTotal, failedTotal, pendingTotal := 0, 0, 0, 0;
    }

    /** One valid bucket per source, in order, up to where the last rebuild got; nobody is owed more
        than the cap. */
    ghost predicate BucketsOk(bs: seq<SourceBucket>)
      reads bs
    {
      && |bs| <= |sources| && Apart(bs)
      && forall i :: 0 <= i < |bs| ==> bs[i].sourceId == sources[i].id && bs[i].Valid() && bs[i].pending <= maxPending
    }

    /** Conservation: everything scheduled was inserted or is still owed. */
    ghost predicate Valid()
      reads this`buckets, this`scheduledTotal, this`insertedTotal, buckets
    {
      && (forall i, j :: 0 <= i < j < |sources| ==> sources[i].id != sources[j].id)
      && Validated(sources, profiles) && BucketsOk(buckets)
      && scheduledTotal == insertedTotal + Total(Owed(buckets))
    }

    // ----- which profile wins a source -----

    function ClaimantsOf(src: Source): seq<string>
      reads this`defaultProfile, this`nodeProfiles
    {
      Claimants(defaultProfile, nodeProfiles, nodeTls, src, |nodeProfiles|)
    }

    /** The bucket gets what the winning profile asks for beyond the baseline. */
    ghost predicate Rated(b: SourceBucket, src: Source)
      reads this`defaultProfile, this`nodeProfiles
    {
      exists p :: Wins(profiles, ClaimantsOf(src), src, p) && b.delta == TargetOf(profiles, p, src) - src.baseline && b.delta >= 0.0
    }

    /** Nobody asks for less than the baseline, so the rejection in _rebuild_buckets is dead code. */
    lemma NothingToReject(k: nat, profile: string)
      requires Validated(sources, profiles) && k < |sources|
      ensures TargetOf(profiles, profile, sources[k]) >= sources[k].baseline
    {
    }

    /** _effective_target_vph. */
    method EffectiveTarget(src: Source) returns (target: real, winner: string)
      ensures Wins(profiles, ClaimantsOf(src), src, winner) && target == TargetOf(profiles, winner, src)
    {
      winner := defaultProfile;
      var best := ClaimOf(profiles, winner, src);
      for i := 0 to |nodeProfiles|
        invariant best == ClaimOf(profiles, winner, src)
        invariant Wins(profiles, Claimants(defaultProfile, nodeProfiles, nodeTls, src, i), src, winner)
      {
        var a := nodeProfiles[i];
        if a.node in nodeTls && nodeTls[a.node] == src.tls {
          var claim := ClaimOf(profiles, a.profile, src);
          if claim.severity > best.severity || (claim.severity == best.severity && claim.target > best.target) {
            winner, best := a.profile, claim;
          }
        }
      }
      target := best.target;
    }

    // ----- rebuilding -----

    /** The tables hold, by source id, what each bucket owes and its clock. */
    ghost predicate Saved(pending: map<string, nat>, accumulator: map<string, real>, n: nat)
      requires n <= |buckets|
      reads this`buckets, buckets
    {
      forall k :: 0 <= k < |sources| ==>
        if k < n then
          && sources[k].id in pending && pending[sources[k].id] == buckets[k].pending
          && sources[k].id in accumulator && accumulator[sources[k].id] == buckets[k].accumulator >= 0.0
        else sources[k].id !in pending && sources[k].id !in accumulator
    }

    method Save() returns (pending: map<string, nat>, accumulator: map<string, real>)
      requires Valid()
      ensures Saved(pending, accumulator, |buckets|)
    {
      pending, accumulator := map[], map[];
      for i := 0 to |buckets|
        invariant Saved(pending, accumulator, i)
      {
        pending := pending[buckets[i].sourceId := buckets[i].pending];
        accumulator := accumulator[buckets[i].sourceId := buckets[i].accumulator];
      }
    }

    lemma SavedAt(pending: map<string, nat>, accumulator: map<string, real>, k: nat)
      requires Saved(pending, accumulator, |buckets|) && k < |sources| && BucketsOk(buckets)
      ensures (if sources[k].id in pending then pending[sources[k].id] else 0) == Padded(Owed(buckets), k + 1)[k] <= maxPending
      ensures (if sources[k].id in accumulator then accumulator[sources[k].id] else 0.0) == StartOf(Accumulators(buckets), k) >= 0.0
    {
    }

    /** The clock a source restarts from: the one it had, or zero for a source without a bucket. */
    function StartOf(clocks: seq<real>, k: nat): real {
      if k < |clocks| then clocks[k] else 0.0
    }

    /** Every bucket was restarted from the clock it had, at the rate of its winning profile. */
    ghost predicate AsRebuilt(bs: seq<SourceBucket>, clocks: seq<real>)
      reads this`defaultProfile, this`nodeProfiles, bs
    {
      |bs| <= |sources| && forall i :: 0 <= i < |bs| ==> bs[i].Restarted(StartOf(clocks, i)) && Rated(bs[i], sources[i])
    }

    lemma AsRebuiltAppend(bs: seq<SourceBucket>, clocks: seq<real>, b: SourceBucket)
      requires AsRebuilt(bs, clocks) && |bs| < |sources|
      requires b.Restarted(StartOf(clocks, |bs|)) && Rated(b, sources[|bs|])
      ensures AsRebuilt(bs + [b], clocks)
    {
      hide SourceBucket.Restarted, Rated, StartOf;
    }

    /** _rebuild_buckets: fresh buckets in source order that keep what was owed and the clock. */
    method RebuildBuckets()
      requires Valid()
      modifies this`buckets
      ensures Valid() && fresh(buckets) && |buckets| == |sources|
      ensures Owed(buckets) == Padded(old(Owed(buckets)), |sources|)
      ensures AsRebuilt(buckets, old(Accumulators(buckets)))
    {
      hide BucketsOk, Owed, Padded, AsRebuilt, Accumulators, Saved, Validated;
      var pending, accumulator := Save();
      var built := Build(pending, accumulator);
      BucketCount();
      PaddedTotal(Owed(buckets), |sources|);
      buckets := built;
    }

    lemma BucketCount()
      requires Valid()
      ensures |buckets| <= |sources|
    {
    }

    lemma BucketsAppend(bs: seq<SourceBucket>, b: SourceBucket)
      requires BucketsOk(bs) && |bs| < |sources| && b !in bs
      requires b.sourceId == sources[|bs|].id && b.Valid() && b.pending <= maxPending
      ensures BucketsOk(bs + [b])
    {
      hide SourceBucket.Valid;
    }

    lemma BucketsEmpty()
      ensures BucketsOk([]) && Owed([]) == [] && (forall clocks :: AsRebuilt([], clocks)) && forall ns: seq<nat> :: Padded(ns, 0) == []
    {
    }

    method Build(pending: map<string, nat>, accumulator: map<string, real>) returns (built: seq<SourceBucket>)
      requires Valid()
      requires Saved(pending, accumulator, |buckets|)
      ensures BucketsOk(built) && fresh(built) && |built| == |sources| && Owed(built) == Padded(Owed(buckets), |sources|)
      ensures AsRebuilt(built, Accumulators(buckets))
    {
      hide SourceBucket.Valid, SourceBucket.Restarted, StartOf, Owed, Padded, BucketsOk, Rated, Saved, AsRebuilt, Accumulators, Validated;
      BucketsEmpty();
      built := [];
      while |built| < |sources|
        invariant |built| <= |sources| && fresh(built) && BucketsOk(built)
        invariant Owed(built) == Padded(Owed(buckets), |built|)
        invariant AsRebuilt(built, Accumulators(buckets))
      {
        var k := |built|;
        SavedAt(pending, accumulator, k);
        var b := NextBucket(k, if sources[k].id in pending then pending[sources[k].id] else 0,
                            if sources[k].id in accumulator then accumulator[sources[k].id] else 0.0);
        OwedAppend(built, b);
        PaddedNext(Owed(buckets), k);
        BucketsAppend(built, b);
        AsRebuiltAppend(built, Accumulators(buckets), b);
        built := built + [b];
      }
    }

    /** The fresh bucket of one source.  The source rejects a winning target below the baseline. */
    method NextBucket(k: nat, pending: nat, accumulator: real) returns (b: SourceBucket)
      requires k < |sources| && Validated(sources, profiles) && accumulator >= 0.0
      ensures fresh(b) && Rated(b, sources[k]) && b.sourceId == sources[k].id && b.pending == pending
      ensures b.Valid() && b.Restarted(accumulator)
    {
      hide SourceBucket.Valid, SourceBucket.Restarted, Wins, TargetOf, Validated;
      var target, winner := EffectiveTarget(sources[k]);
      NothingToReject(k, winner);
      if target < sources[k].baseline {
        assert false;
      }
      b := new SourceBucket(sources[k].id, target - sources[k].baseline, pending, accumulator);
    }

    /** set_profile, network-wide or for one node.  An unknown profile is refused after the assignment
        was recorded but before any bucket is touched. */
    method SetProfile(profile: string, node: Option<string>) returns (r: SetResult)
      requires Valid()
      modifies this`defaultProfile, this`nodeProfiles, this`buckets
      ensures Valid()
      ensures defaultProfile == (if node.None? then profile else old(defaultProfile))
      ensures nodeProfiles == (if node.None? then [] else Assign(old(nodeProfiles), node.value, profile))
      ensures r.UnknownProfile? <==> exists p :: p in {profile, defaultProfile} + Assigned(nodeProfiles) && p !in profiles
      ensures r.UnknownProfile? ==> buckets == old(buckets)
      ensures r.Rebuilt? ==> |buckets| == |sources| && fresh(buckets) && AsRebuilt(buckets, old(Accumulators(buckets)))
                             && Owed(buckets) == Padded(old(Owed(buckets)), |sources|)
                             && Total(Owed(buckets)) == old(Total(Owed(buckets)))
    {
      hide BucketsOk, Owed, Padded, AsRebuilt, Accumulators, Validated;
      if node.Some? {
        nodeProfiles := Assign(nodeProfiles, node.value, profile);
      } else {
        defaultProfile := profile;
        nodeProfiles := [];
      }
      if exists p :: p in {profile, defaultProfile} + Assigned(nodeProfiles) && p !in profiles {
        return UnknownProfile;
      }
      BucketCount();
      PaddedTotal(Owed(buckets), |sources|);
      RebuildBuckets();
      r := Rebuilt;
    }

    function Assigned(d: seq<Assignment>): set<string> {
      set a | a in d :: a.profile
    }

    /** `dict[key] = value`: an existing key keeps its place. */
    function Assign(d: seq<Assignment>, key: string, value: string): seq<Assignment> {
      if d == [] then [Assignment(key, value)]
      else if d[0].node == key then [Assignment(key, value)] + d[1..]
      else [d[0]] + Assign(d[1..], key, value)
    }

    /** The node has the new profile and only that; the other nodes keep theirs. */
    lemma {:induction false} AssignSpec(d: seq<Assignment>, key: string, value: string)
      requires forall i, j :: 0 <= i < j < |d| ==> d[i].node != d[j].node
      ensures var e := Assign(d, key, value);
              && (forall a :: a in e <==> a == Assignment(key, value) || (a in d && a.node != key))
              && (forall i, j :: 0 <= i < j < |e| ==> e[i].node != e[j].node)
    {
      if d != [] {
        AssignSpec(d[1..], key, value);
        assert d == [d[0]] + d[1..];
        assert forall a :: a in d[1..] ==> a.node != d[0].node;
      }
    }

    // ----- ticking -----

    /** tick: schedule what is due and insert what SUMO takes, source by source. */
    method Tick(dt: real) returns (inserted: nat)
      requires Valid()
      modifies this`scheduledTotal, this`insertedTotal, this`failedTotal, this`pendingTotal, buckets
      ensures Valid() && insertedTotal == old(insertedTotal) + inserted
      ensures !enabled || dt <= 0.0 ==>
                inserted == 0 && pendingTotal == old(pendingTotal)
                && Clocks(buckets) == old(Clocks(buckets)) && Owed(buckets) == old(Owed(buckets))
      ensures enabled && dt > 0.0 ==>
                && pendingTotal == Total(Active(buckets, Owed(buckets)))
                && Clocks(buckets) == Advanced(buckets, old(Clocks(buckets)), dt, |buckets|)
                && forall i :: 0 <= i < |buckets| && buckets[i].delta <= 0.0 ==> Owed(buckets)[i] == old(Owed(buckets))[i]
    {
      hide SourceBucket.Valid, Owed, Active, BucketsOk, Clocks, Advanced, Progress, Valid;
      inserted := 0;
      if !enabled || dt <= 0.0 {
        return;
      }
      ghost var clocks, owed := Clocks(buckets), Owed(buckets);
      ProgressStart(dt);
      var pending;
      inserted, pending := TickAll(clocks, owed, dt);
      ProgressEnd(clocks, owed, pending, dt);
      pendingTotal := pending;
    }

    /** Where a tick stands after `i` sources, from the clocks and debts at its start. */
    ghost predicate Progress(i: nat, clocks: seq<real>, owed: seq<nat>, pending: nat, dt: real)
      reads this`buckets, this`scheduledTotal, this`insertedTotal, buckets
    {
      && (forall i, j :: 0 <= i < j < |sources| ==> sources[i].id != sources[j].id)
      && i <= |buckets| && |clocks| == |buckets| && |owed| == |buckets| && BucketsOk(buckets)
      && Validated(sources, profiles) && scheduledTotal == insertedTotal + Total(Owed(buckets))
      && pending == Total(Active(buckets, Owed(buckets))[..i])
      && Clocks(buckets) == Advanced(buckets, clocks, dt, i)
      && forall j :: 0 <= j < |buckets| && buckets[j].delta <= 0.0 ==> Owed(buckets)[j] == owed[j]
    }

    lemma ProgressStart(dt: real)
      requires Valid()
      ensures Progress(0, Clocks(buckets), Owed(buckets), 0, dt)
    {
      hide SourceBucket.Valid, Owed, Active, BucketsOk, Clocks, Advanced;
      ActivePrefix(buckets, Owed(buckets), 0);
      AdvancedStep(buckets, Clocks(buckets), dt, 0);
    }

    lemma ProgressEnd(clocks: seq<real>, owed: seq<nat>, pending: nat, dt: real)
      requires Progress(|buckets|, clocks, owed, pending, dt)
      ensures Valid() && pending == Total(Active(buckets, Owed(buckets)))
      ensures Clocks(buckets) == Advanced(buckets, clocks, dt, |buckets|)
      ensures forall i :: 0 <= i < |buckets| && buckets[i].delta <= 0.0 ==> Owed(buckets)[i] == owed[i]
    {
      hide SourceBucket.Valid, Owed, BucketsOk, Clocks, Advanced, Total;
      assert Active(buckets, Owed(buckets))[..|buckets|] == Active(buckets, Owed(buckets));
    }

    method TickAll(ghost clocks: seq<real>, ghost owed: seq<nat>, dt: real) returns (inserted: nat, pending: nat)
      requires Progress(0, clocks, owed, 0, dt) && dt > 0.0
      modifies this`scheduledTotal, this`insertedTotal, this`failedTotal, buckets
      ensures Progress(|buckets|, clocks, owed, pending, dt) && insertedTotal == old(insertedTotal) + inserted
    {
      hide Progress, Valid;
      inserted, pending := 0, 0;
      for i := 0 to |buckets|
        invariant insertedTotal == old(insertedTotal) + inserted && Progress(i, clocks, owed, pending, dt)
      {
        var done;
        done, pending := TickNext(i, clocks, owed, pending, dt);
        inserted := inserted + done;
      }
    }

    method TickNext(i: nat, ghost clocks: seq<real>, ghost owed: seq<nat>, pending: nat, dt: real) returns (inserted: nat, sum: nat)
      requires Progress(i, clocks, owed, pending, dt) && i < |buckets| && dt > 0.0
      modifies this`scheduledTotal, this`insertedTotal, this`failedTotal, buckets[i]
      ensures Progress(i + 1, clocks, owed, sum, dt) && insertedTotal == old(insertedTotal) + inserted
    {
      hide SourceBucket.Valid, Owed, Active, BucketsOk, Clocks, Advanced, Total;
      inserted, sum := 0, pending;
      AdvancedStep(buckets, clocks, dt, i);
      ActivePrefix(buckets, Owed(buckets), i);
      if buckets[i].delta > 0.0 {
        inserted := TickBucket(i, dt);
        sum := sum + buckets[i].pending;
        ActivePrefix(buckets, Owed(buckets), i);
      }
    }

    lemma AdvancedStep(bs: seq<SourceBucket>, clocks: seq<real>, dt: real, i: nat)
      requires |clocks| == |bs|
      ensures Advanced(bs, clocks, dt, 0) == clocks
      ensures i < |bs| ==>
                Advanced(bs, clocks, dt, i + 1) ==
                (if bs[i].delta > 0.0 then Advanced(bs, clocks, dt, i)[i := clocks[i] + dt] else Advanced(bs, clocks, dt, i))
                && Advanced(bs, clocks, dt, i)[i] == clocks[i]
    {
    }

    lemma ActivePrefix(bs: seq<SourceBucket>, owed: seq<nat>, i: nat)
      requires |owed| == |bs|
      ensures i == 0 ==> Total(Active(bs, owed)[..i]) == 0
      ensures i < |bs| ==>
                Total(Active(bs, owed)[..i + 1]) == Total(Active(bs, owed)[..i]) + if bs[i].delta > 0.0 then owed[i] else 0
    {
      if i < |bs| {
        var a := Active(bs, owed);
        assert a[..i + 1] == a[..i] + [a[i]];
        TotalAppend(a[..i], a[i]);
      }
    }

    method TickBucket(i: nat, dt: real) returns (inserted: nat)
      requires i < |buckets| && BucketsOk(buckets) && dt > 0.0
      modifies this`scheduledTotal, this`insertedTotal, this`failedTotal, buckets[i]
      ensures BucketsOk(buckets)
      ensures insertedTotal == old(insertedTotal) + inserted
      ensures scheduledTotal - insertedTotal - Total(Owed(buckets)) == old(scheduledTotal - insertedTotal - Total(Owed(buckets)))
      ensures Owed(buckets) == old(Owed(buckets))[i := buckets[i].pending]
      ensures Clocks(buckets) == old(Clocks(buckets))[i := old(Clocks(buckets))[i] + dt]
      ensures Active(buckets, Owed(buckets))[..i] == old(Active(buckets, Owed(buckets)))[..i]
    {
      hide SourceBucket.Valid, BucketsOk, Owed, Active, Clocks;
      var b := buckets[i];
      BucketAt(i);
      var count, failures;
      count, inserted, failures := b.Serve(dt, maxPending, maxAttempts);
      scheduledTotal := scheduledTotal + count;
      insertedTotal := insertedTotal + inserted;
      failedTotal := failedTotal + failures;
      OneBucketChanged(i);
      TotalUpdate(old(Owed(buckets)), i, b.pending);
    }

    lemma BucketAt(i: nat)
      requires BucketsOk(buckets) && i < |buckets|
      ensures buckets[i].Valid() && buckets[i].pending <= maxPending
      ensures forall j :: 0 <= j < |buckets| && j != i ==> buckets[j] != buckets[i]
    {
    }

    twostate lemma OneBucketChanged(i: nat)
      requires buckets == old(buckets) && i < |buckets| && old(BucketsOk(buckets))
      requires forall j :: 0 <= j < |buckets| && j != i ==> unchanged(buckets[j])
      requires buckets[i].Valid() && buckets[i].pending <= maxPending
      ensures BucketsOk(buckets) && Owed(buckets) == old(Owed(buckets))[i := buckets[i].pending]
      ensures Clocks(buckets) == old(Clocks(buckets))[i := buckets[i].elapsed]
    {
      hide SourceBucket.Valid, Owed, Clocks;
      forall j | 0 <= j < |buckets| && j != i ensures buckets[j].Valid() && buckets[j].pending <= maxPending {
        assert old(buckets[j].Valid());
      }
    }

    /** Every run of profile changes and ticks: what was scheduled is what was inserted and what is still
        owed, and nobody is owed more than the cap. */
    method Run(requests: seq<Request>)
      requires Valid()
      modifies this`defaultProfile, this`nodeProfiles, this`buckets
      modifies this`scheduledTotal, this`insertedTotal, this`failedTotal, this`pendingTotal, buckets
      ensures Valid() && scheduledTotal == insertedTotal + Total(Owed(buckets))
      ensures forall b :: b in buckets ==> b.pending <= maxPending
    {
      hide BucketsOk, Validated, Owed, SourceBucket.Valid, AsRebuilt, Padded, Active, Advanced, Accumulators, Clocks;
      for i := 0 to |requests|
        invariant Valid() && forall k :: 0 <= k < |buckets| ==> buckets[k] in old(buckets) || fresh(buckets[k])
      {
        match requests[i]
        case Change(profile, node) =>
          var r := SetProfile(profile, node);
        case Elapse(dt) =>
          var n := Tick(dt);
      }
      CapKept();
    }

    lemma CapKept()
      requires Valid()
      ensures forall b :: b in buckets ==> b.pending <= maxPending
    {
    }

    /** The pending total that `tick` reports is what is owed exactly when no source without extra
        demand is still owed something; such sources are skipped by every tick. */
    lemma ReportedIsOwed()
      requires Valid() && pendingTotal == Total(Active(buckets, Owed(buckets)))
      ensures pendingTotal <= Total(Owed(buckets))
      ensures pendingTotal == Total(Owed(buckets)) <==>
                forall i :: 0 <= i < |buckets| && buckets[i].delta <= 0.0 ==> buckets[i].pending == 0
    {
      hide Valid, Total, Owed, Active;
      var a, o := Active(buckets, Owed(buckets)), Owed(buckets);
      TotalsAgreeIff(a, o);
      assert forall i :: 0 <= i < |buckets| ==> (a[i] == o[i] <==> buckets[i].delta > 0.0 || buckets[i].pending == 0);
    }
  }

  lemma OwedAppend(bs: seq<SourceBucket>, b: SourceBucket)
    ensures Owed(bs + [b]) == Owed(bs) + [b.pending]
  {
    assert (bs + [b])[..|bs|] == bs;
  }

  lemma PaddedNext(ns: seq<nat>, k: nat)
    ensures Padded(ns, k + 1) == Padded(ns, k) + [if k < |ns| then ns[k] else 0]
  {
  }
}
