/** Command records and their eviction: `Visualize/control/command_registry.py`. */
module Registry {
  import opened Options

  type Id = nat

  datatype Life = Received | Validated | Queued | Applying | Completed | Failed | Expired | UnknownOutcome {
    predicate Terminal() {
      Completed? || Failed? || Expired? || UnknownOutcome?
    }

    /** How far along the life of a command is. */
    function Rank(): nat {
      match this
      case Received => 0
      case Validated => 1
      case Queued => 2
      case Applying => 3
      case _ => 4
    }
  }

  /** A command's life in order; the four ways to end are the last stage. */
  lemma LifeInOrder(life: Life)
    ensures Received.Rank() < Validated.Rank() < Queued.Rank() < Applying.Rank()
    ensures life.Terminal() <==> life.Rank() > Applying.Rank()
    ensures life.Terminal() ==> forall other: Life :: other.Rank() <= life.Rank()
  {
  }

  datatype Execution = NotStarted | Waiting | Executing | Transitioning | AppliedAtSumo | FailedAtRuntime

  datatype Status = Status(life: Life, execution: Execution, error: Option<string>)

  datatype Record = Record(status: Status, terminalAt: Option<real>)

  type Records = map<Id, Record>

  datatype Limits = Limits(maxRecords: nat, retention: real)

  function Stamp(r: Record, now: real): real {
    r.terminalAt.GetOr(now)
  }

  predicate Evictable(r: Record, now: real, limits: Limits) {
    r.status.life.Terminal() && now - Stamp(r, now) >= limits.retention
  }

  function NewRecord(status: Status, now: real): Record {
    Record(status, if status.life.Terminal() then Some(now) else None)
  }

  /** put: a known id keeps its record; a new one may push `victims` out. */
  function PutRecord(records: Records, id: Id, status: Status, now: real, victims: set<Id>): Records {
    if id in records then records else records[id := NewRecord(status, now)] - victims
  }

  /** The time of the first terminal status stays. */
  function Rewrite(r: Record, status: Status, now: real): Record {
    Record(status, if status.life.Terminal() && r.terminalAt.None? then Some(now) else r.terminalAt)
  }

  /** update. */
  function UpdateRecord(records: Records, id: Id, status: Status, now: real, victims: set<Id>): Records {
    if id !in records then PutRecord(records, id, status, now, victims)
    else records[id := Rewrite(records[id], status, now)]
  }

  /** Only old terminal records go, the oldest first. */
  ghost predicate OldestFirst(records: Records, now: real, limits: Limits, victims: set<Id>) {
    && (forall id :: id in victims ==> id in records && Evictable(records[id], now, limits))
    && (forall v, k :: v in victims && k in records && k !in victims && Evictable(records[k], now, limits) ==>
          Stamp(records[v], now) <= Stamp(records[k], now))
  }

  ghost predicate AllGone(records: Records, now: real, limits: Limits, victims: set<Id>) {
    forall k :: k in records && Evictable(records[k], now, limits) ==> k in victims
  }

  /** Only old terminal records go, the oldest first, no more than needed and no fewer than possible. */
  ghost predicate Evicts(records: Records, now: real, limits: Limits, victims: set<Id>) {
    && OldestFirst(records, now, limits, victims)
    && (victims != {} ==> |records - victims| >= limits.maxRecords)
    && (|records - victims| > limits.maxRecords ==> AllGone(records, now, limits, victims))
  }

  /** The victims of putting `id`. */
  ghost predicate PutEvicts(records: Records, id: Id, status: Status, now: real, limits: Limits, victims: set<Id>) {
    if id in records then victims == {} else Evicts(records[id := NewRecord(status, now)], now, limits, victims)
  }

  /** Whoever is evicted had a terminal status for the retention time, and none such stays while the
      registry is over its limit; it is never emptied below the limit. */
  lemma EvictedForAge(records: Records, now: real, limits: Limits, victims: set<Id>)
    requires Evicts(records, now, limits, victims)
    ensures forall v :: v in victims ==>
              && v in records && records[v].status.life.Terminal()
              && (records[v].terminalAt.Some? ==> now - records[v].terminalAt.value >= limits.retention)
    ensures |records - victims| > limits.maxRecords ==>
              forall k :: k in records - victims && records[k].status.life.Terminal() && records[k].terminalAt.Some? ==>
                now - records[k].terminalAt.value < limits.retention
    ensures victims != {} ==> |records - victims| >= limits.maxRecords
    ensures forall v, k :: v in victims && k in records - victims && records[k].status.life.Terminal() ==>
              records[v].terminalAt.Some? && records[k].terminalAt.Some? && now - records[k].terminalAt.value >= limits.retention ==>
                records[v].terminalAt.value <= records[k].terminalAt.value
  {
  }

  // ----- the order of eviction -----

  datatype Candidate = Candidate(stamp: real, id: Id)

  ghost predicate Ordered(cs: seq<Candidate>) {
    forall i, j :: 0 <= i < j < |cs| ==> cs[i].stamp <= cs[j].stamp
  }

  function InsertByStamp(c: Candidate, cs: seq<Candidate>): (r: seq<Candidate>)
    requires Ordered(cs)
    ensures Ordered(r) && forall x :: x in r <==> x == c || x in cs
  {
    if cs == [] || c.stamp < cs[0].stamp then [c] + cs
    else
      var rest := InsertByStamp(c, cs[1..]);
      assert forall x :: x in cs <==> x == cs[0] || x in cs[1..];
      assert forall x :: x in rest ==> cs[0].stamp <= x.stamp;
      [cs[0]] + rest
  }

  /** `list.sort` by time stamp. */
  function SortByStamp(cs: seq<Candidate>): (r: seq<Candidate>)
    ensures Ordered(r) && forall x :: x in r <==> x in cs
  {
    if cs == [] then []
    else
      var n := |cs| - 1;
      assert cs == cs[..n] + [cs[n]];
      InsertByStamp(cs[n], SortByStamp(cs[..n]))
  }

  /** The candidates are exactly the evictable records. */
  ghost predicate Candidates(records: Records, now: real, limits: Limits, cs: seq<Candidate>) {
    forall c :: c in cs <==>
      c.id in records && Evictable(records[c.id], now, limits) && c.stamp == Stamp(records[c.id], now)
  }

  ghost function FirstIds(cs: seq<Candidate>, n: nat): set<Id>
    requires n <= |cs|
  {
    set k | 0 <= k < n :: cs[k].id
  }

  lemma FirstIdsNext(cs: seq<Candidate>, n: nat)
    requires n < |cs|
    ensures FirstIds(cs, n + 1) == FirstIds(cs, n) + {cs[n].id}
  {
  }

  lemma CandidateOf(records: Records, now: real, limits: Limits, cs: seq<Candidate>, k: Id) returns (i: nat)
    requires Candidates(records, now, limits, cs) && k in records && Evictable(records[k], now, limits)
    ensures i < |cs| && cs[i] == Candidate(Stamp(records[k], now), k)
  {
    hide Evictable;
    assert Candidate(Stamp(records[k], now), k) in cs;
    i :| 0 <= i < |cs| && cs[i] == Candidate(Stamp(records[k], now), k);
  }

  lemma VictimFacts(records: Records, now: real, limits: Limits, cs: seq<Candidate>, n: nat, v: Id) returns (i: nat)
    requires Candidates(records, now, limits, cs) && n <= |cs| && v in FirstIds(cs, n)
    ensures i < n && v in records && Evictable(records[v], now, limits) && cs[i] == Candidate(Stamp(records[v], now), v)
  {
    hide Evictable;
    i :| 0 <= i < n && cs[i].id == v;
    assert cs[i] in cs;
  }

  lemma VictimsAreOld(records: Records, now: real, limits: Limits, cs: seq<Candidate>, n: nat)
    requires Candidates(records, now, limits, cs) && n <= |cs|
    ensures forall v :: v in FirstIds(cs, n) ==> v in records && Evictable(records[v], now, limits)
  {
    hide Evictable, FirstIds, Candidates;
    forall v | v in FirstIds(cs, n) ensures v in records && Evictable(records[v], now, limits) {
      var i := VictimFacts(records, now, limits, cs, n, v);
    }
  }

  lemma KeptIsYounger(records: Records, now: real, limits: Limits, cs: seq<Candidate>, n: nat, k: Id)
    requires Candidates(records, now, limits, cs) && Ordered(cs) && n <= |cs|
    requires k in records && Evictable(records[k], now, limits) && k !in FirstIds(cs, n)
    ensures n < |cs|
    ensures forall v :: v in FirstIds(cs, n) ==> v in records && Stamp(records[v], now) <= Stamp(records[k], now)
  {
    hide Evictable, FirstIds, Candidates;
    var j := CandidateOf(records, now, limits, cs, k);
    NotTaken(cs, n, j);
    forall v | v in FirstIds(cs, n) ensures v in records && Stamp(records[v], now) <= Stamp(records[k], now) {
      var i := VictimFacts(records, now, limits, cs, n, v);
    }
  }

  /** Taking the candidates from the front takes the oldest, and in the end all of them. */
  lemma OldestGo(records: Records, now: real, limits: Limits, cs: seq<Candidate>, n: nat)
    requires Candidates(records, now, limits, cs) && Ordered(cs) && n <= |cs|
    ensures OldestFirst(records, now, limits, FirstIds(cs, n))
    ensures n == |cs| ==> AllGone(records, now, limits, FirstIds(cs, n))
  {
    hide Evictable, FirstIds, Candidates, Stamp, Ordered;
    VictimsAreOld(records, now, limits, cs, n);
    forall k | k in records && Evictable(records[k], now, limits) && k !in FirstIds(cs, n)
      ensures n < |cs|
      ensures forall v :: v in FirstIds(cs, n) ==> v in records && Stamp(records[v], now) <= Stamp(records[k], now)
    {
      KeptIsYounger(records, now, limits, cs, n, k);
    }
  }

  lemma NotTaken(cs: seq<Candidate>, n: nat, j: nat)
    requires n <= |cs| && j < |cs| && cs[j].id !in FirstIds(cs, n)
    ensures n <= j
  {
  }

  lemma NoneTaken(cs: seq<Candidate>)
    ensures FirstIds(cs, 0) == {}
  {
  }

  lemma NothingGoes(records: Records, now: real, limits: Limits)
    ensures records == records - {}
    ensures |records| <= limits.maxRecords ==> Evicts(records, now, limits, {})
  {
  }

  class CommandRegistry {
    const limits: Limits
    var records: Records

    constructor (limits: Limits)
      ensures this.limits == limits && records == map[]
    {
      this.limits, records := limits, map[];
    }

    method Put(id: Id, status: Status, now: real) returns (ghost victims: set<Id>)
      modifies this
      ensures records == PutRecord(old(records), id, status, now, victims)
      ensures PutEvicts(old(records), id, status, now, limits, victims)
    {
      victims := {};
      if id in records {
        return;
      }
      records := records[id := NewRecord(status, now)];
      victims := EvictIfNeeded(now);
    }

    method Update(id: Id, status: Status, now: real) returns (ghost victims: set<Id>)
      modifies this
      ensures records == UpdateRecord(old(records), id, status, now, victims)
      ensures PutEvicts(old(records), id, status, now, limits, victims)
    {
      victims := {};
      if id !in records {
        victims := Put(id, status, now);
        return;
      }
      var at := records[id].terminalAt;
      records := records[id := Record(status, if status.life.Terminal() && at.None? then Some(now) else at)];
    }

    method EvictIfNeeded(now: real) returns (ghost victims: set<Id>)
      modifies this
      ensures records == old(records) - victims && Evicts(old(records), now, limits, victims)
    {
      hide Evictable, InsertByStamp, SortByStamp, Ordered, FirstIds, OldestFirst, AllGone;
      victims := {};
      NothingGoes(records, now, limits);
      if |records| <= limits.maxRecords {
        return;
      }
      var terminals := Terminals(now);
      terminals := SortByStamp(terminals);
      assert Candidates(records, now, limits, terminals);
      hide Candidates;
      NoneTaken(terminals);
      var i := 0;
      while i < |terminals| && |records| > limits.maxRecords
        invariant i <= |terminals| && victims == FirstIds(terminals, i)
        invariant records == old(records) - victims
        invariant i > 0 ==> |records| >= limits.maxRecords
      {
        RemoveOne(records, terminals[i].id);
        FirstIdsNext(terminals, i);
        records := records - {terminals[i].id};
        victims := victims + {terminals[i].id};
        i := i + 1;
      }
      OldestGo(old(records), now, limits, terminals, i);
    }

    /** The records that are old enough to go; a dictionary is walked in some order. */
    method Terminals(now: real) returns (terminals: seq<Candidate>)
      ensures Candidates(records, now, limits, terminals)
    {
      terminals := [];
      var todo := records.Keys;
      while todo != {}
        invariant todo <= records.Keys
        invariant forall c :: c in terminals <==>
                    c.id in records && c.id !in todo && Evictable(records[c.id], now, limits) && c.stamp == Stamp(records[c.id], now)
        decreases |todo|
      {
        var id :| id in todo;
        todo := todo - {id};
        if Evictable(records[id], now, limits) {
          terminals := terminals + [Candidate(Stamp(records[id], now), id)];
        }
      }
    }
  }

  lemma RemoveOne(m: Records, id: Id)
    ensures |m| - 1 <= |m - {id}| <= |m|
  {
    assert (m - {id}).Keys == m.Keys - {id};
    assert |(m - {id}).Keys| == |m - {id}| && |m.Keys| == |m|;
  }
}
