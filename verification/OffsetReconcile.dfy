/** Repairing the projector's offsets after the broker's log was replaced:
    `Visualize/tools/production_offset_reconcile.py`. */
module OffsetReconcile {
  import opened Options

  type Partition = nat

  datatype Key = Key(topic: string, partition: Partition)

  datatype Row = Row(key: Key, offset: int)

  /** What `capture_state` reads: the log's end offsets, the last processed offsets of the topic, and
      the consumer group's next offsets. */
  datatype Snapshot = Snapshot(tips: map<Partition, int>, sqlite: map<Partition, int>, broker: map<Partition, Option<int>>)

  datatype Issue =
    | SqliteAheadOfEnd(partition: Partition, last: int, end: int)
    | BrokerAheadOfSqlite(partition: Partition, last: int, next: int)

  datatype Clamp = Clamp(was: int, to: int)

  datatype Plan = Plan(clamps: map<Partition, Clamp>, resets: map<Partition, int>, effective: map<Partition, int>)

  function Committed(broker: map<Partition, Option<int>>, p: Partition): Option<int> {
    if p in broker then broker[p] else None
  }

  // ----- issues -----

  predicate AheadOfEnd(s: Snapshot, p: Partition) {
    p in s.sqlite && p in s.tips && s.sqlite[p] >= s.tips[p]
  }

  predicate BrokerAhead(s: Snapshot, p: Partition) {
    p in s.sqlite && Committed(s.broker, p).Some? && Committed(s.broker, p).value > s.sqlite[p] + 1
  }

  /** Offset `o` was not processed, and the group would resume after it. */
  predicate Skipped(s: Snapshot, p: Partition, o: int)
    requires p in s.sqlite && Committed(s.broker, p).Some?
  {
    s.sqlite[p] < o < Committed(s.broker, p).value
  }

  /** The log of the partition reaches beyond offset `o`. */
  predicate Holds(s: Snapshot, p: Partition, o: int)
    requires p in s.tips
  {
    o < s.tips[p]
  }

  /** What the two issues are: an offset would be skipped; what was processed is no longer in the log. */
  lemma IssueMeaning(s: Snapshot, p: Partition)
    requires p in s.sqlite
    ensures Committed(s.broker, p).Some? ==> (BrokerAhead(s, p) <==> exists o :: Skipped(s, p, o))
    ensures p in s.tips ==> (AheadOfEnd(s, p) <==> !Holds(s, p, s.sqlite[p]))
  {
    if BrokerAhead(s, p) {
      assert Skipped(s, p, s.sqlite[p] + 1);
    }
  }

  ghost predicate IsIssue(s: Snapshot, i: Issue) {
    match i
    case SqliteAheadOfEnd(p, last, end) => AheadOfEnd(s, p) && last == s.sqlite[p] && end == s.tips[p]
    case BrokerAheadOfSqlite(p, last, next) => BrokerAhead(s, p) && last == s.sqlite[p] && next == s.broker[p].value
  }

  /** The issues of one partition. */
  function IssuesOf(s: Snapshot, p: Partition): set<Issue> {
    (if AheadOfEnd(s, p) then {SqliteAheadOfEnd(p, s.sqlite[p], s.tips[p])} else {})
    + (if BrokerAhead(s, p) then {BrokerAheadOfSqlite(p, s.sqlite[p], s.broker[p].value)} else {})
  }

  ghost predicate IssuesAmong(s: Snapshot, parts: set<Partition>, issues: set<Issue>) {
    forall i :: i in issues <==> i.partition in parts && IsIssue(s, i)
  }

  lemma IssuesNext(s: Snapshot, parts: set<Partition>, issues: set<Issue>, p: Partition)
    requires IssuesAmong(s, parts, issues)
    ensures IssuesAmong(s, parts + {p}, issues + IssuesOf(s, p))
  {
  }

  lemma IssuesNone(s: Snapshot)
    ensures IssuesAmong(s, {}, {})
  {
  }

  lemma IssuesAll(s: Snapshot, issues: set<Issue>)
    requires IssuesAmong(s, s.tips.Keys + s.sqlite.Keys + s.broker.Keys, issues)
    ensures forall i :: i in issues <==> IsIssue(s, i)
  {
  }

  /** The check inside capture_state. */
  method FindIssues(s: Snapshot) returns (issues: set<Issue>)
    ensures forall i :: i in issues <==> IsIssue(s, i)
  {
    hide IssuesAmong, IsIssue, IssuesOf;
    issues := {};
    var parts := s.tips.Keys + s.sqlite.Keys + s.broker.Keys;
    var done := {};
    IssuesNone(s);
    while done != parts
      invariant done <= parts && IssuesAmong(s, done, issues)
      decreases |parts - done|
    {
      var p := OneOf(parts - done);
      IssuesNext(s, done, issues, p);
      var more := CheckOne(s, p);
      issues := issues + more;
      done := done + {p};
    }
    IssuesAll(s, issues);
  }

  method CheckOne(s: Snapshot, p: Partition) returns (issues: set<Issue>)
    ensures issues == IssuesOf(s, p)
  {
    issues := {};
    if p in s.sqlite {
      var last := s.sqlite[p];
      if p in s.tips && last >= s.tips[p] {
        issues := issues + {SqliteAheadOfEnd(p, last, s.tips[p])};
      }
      var next := Committed(s.broker, p);
      if next.Some? && next.value > last + 1 {
        issues := issues + {BrokerAheadOfSqlite(p, last, next.value)};
      }
    }
  }

  /** The tool walks the partitions in some order; its result does not depend on it. */
  method OneOf(todo: set<Partition>) returns (p: Partition)
    requires todo != {}
    ensures p in todo
  {
    p :| p in todo;
  }

  // ----- the plan -----

  predicate NeedsClamp(tips: map<Partition, int>, sqlite: map<Partition, int>, p: Partition) {
    p in tips && p in sqlite && sqlite[p] >= tips[p] && tips[p] > 0
  }

  /** The clamps of the partitions `parts`. */
  function ClampsAmong(tips: map<Partition, int>, sqlite: map<Partition, int>, parts: set<Partition>): map<Partition, Clamp> {
    map p | p in parts && NeedsClamp(tips, sqlite, p) :: Clamp(sqlite[p], tips[p] - 1)
  }

  function Clamps(tips: map<Partition, int>, sqlite: map<Partition, int>): map<Partition, Clamp> {
    ClampsAmong(tips, sqlite, tips.Keys)
  }

  /** The processed offsets after the clamps. */
  function WithClamps(sqlite: map<Partition, int>, clamps: map<Partition, Clamp>): map<Partition, int> {
    map p | p in sqlite :: if p in clamps then clamps[p].to else sqlite[p]
  }

  function Clamped(tips: map<Partition, int>, sqlite: map<Partition, int>): map<Partition, int> {
    WithClamps(sqlite, Clamps(tips, sqlite))
  }

  /** Where the group should resume: after the last processed offset, or at the log's end. */
  function Target(tips: map<Partition, int>, sqlite: map<Partition, int>, p: Partition): int {
    if p in sqlite then sqlite[p] + 1 else if p in tips then tips[p] else 0
  }

  /** The partitions among `parts` that do not resume at their target yet, with that target. */
  function ResetsAmong(s: Snapshot, effective: map<Partition, int>, parts: set<Partition>): map<Partition, int> {
    map p | p in parts && Committed(s.broker, p) != Some(Target(s.tips, effective, p)) :: Target(s.tips, effective, p)
  }

  ghost predicate IsPlan(s: Snapshot, plan: Plan) {
    && plan.clamps == Clamps(s.tips, s.sqlite)
    && plan.effective == Clamped(s.tips, s.sqlite)
    && plan.resets == ResetsAmong(s, plan.effective, s.tips.Keys + s.sqlite.Keys)
  }

  lemma ClampNext(tips: map<Partition, int>, sqlite: map<Partition, int>, parts: set<Partition>, p: Partition)
    ensures ClampsAmong(tips, sqlite, parts + {p}) ==
            if NeedsClamp(tips, sqlite, p) then ClampsAmong(tips, sqlite, parts)[p := Clamp(sqlite[p], tips[p] - 1)]
            else ClampsAmong(tips, sqlite, parts)
    ensures ClampsAmong(tips, sqlite, {}) == map[] && WithClamps(sqlite, map[]) == sqlite
  {
  }

  lemma WithClampNext(sqlite: map<Partition, int>, clamps: map<Partition, Clamp>, p: Partition, c: Clamp)
    requires p in sqlite
    ensures WithClamps(sqlite, clamps[p := c]) == WithClamps(sqlite, clamps)[p := c.to]
    ensures p !in clamps ==> WithClamps(sqlite, clamps)[p] == sqlite[p]
    ensures WithClamps(sqlite, clamps).Keys == sqlite.Keys
  {
  }

  lemma ResetNext(s: Snapshot, effective: map<Partition, int>, parts: set<Partition>, p: Partition)
    ensures var target := Target(s.tips, effective, p);
            ResetsAmong(s, effective, parts + {p}) ==
            if Committed(s.broker, p) != Some(target) then ResetsAmong(s, effective, parts)[p := target]
            else ResetsAmong(s, effective, parts)
    ensures ResetsAmong(s, effective, {}) == map[]
  {
  }

  method BuildPlan(s: Snapshot) returns (plan: Plan)
    ensures IsPlan(s, plan)
  {
    hide ClampsAmong, WithClamps, ResetsAmong;
    var clamps, effective := PlanClamps(s);
    var resets := PlanResets(s, effective);
    plan := Plan(clamps, resets, effective);
  }

  method PlanClamps(s: Snapshot) returns (clamps: map<Partition, Clamp>, effective: map<Partition, int>)
    ensures clamps == Clamps(s.tips, s.sqlite) && effective == Clamped(s.tips, s.sqlite)
    ensures effective.Keys == s.sqlite.Keys
  {
    hide ClampsAmong, WithClamps;
    clamps, effective := map[], s.sqlite;
    var done := {};
    ClampNext(s.tips, s.sqlite, {}, 0);
    while done != s.tips.Keys
      invariant done <= s.tips.Keys && clamps == ClampsAmong(s.tips, s.sqlite, done) && clamps.Keys <= done
      invariant effective == WithClamps(s.sqlite, clamps) && effective.Keys == s.sqlite.Keys
      decreases |s.tips.Keys - done|
    {
      var p := OneOf(s.tips.Keys - done);
      ClampNext(s.tips, s.sqlite, done, p);
      if p in effective {
        WithClampNext(s.sqlite, clamps, p, Clamp(s.sqlite[p], s.tips[p] - 1));
        if effective[p] >= s.tips[p] && s.tips[p] > 0 {
          clamps := clamps[p := Clamp(effective[p], s.tips[p] - 1)];
          effective := effective[p := s.tips[p] - 1];
        }
      }
      done := done + {p};
    }
  }

  method PlanResets(s: Snapshot, effective: map<Partition, int>) returns (resets: map<Partition, int>)
    ensures resets == ResetsAmong(s, effective, s.tips.Keys + effective.Keys)
  {
    hide ResetsAmong;
    resets := map[];
    var parts := s.tips.Keys + effective.Keys;
    var done := {};
    ResetNext(s, effective, {}, 0);
    while done != parts
      invariant done <= parts && resets == ResetsAmong(s, effective, done)
      decreases |parts - done|
    {
      var p := OneOf(parts - done);
      ResetNext(s, effective, done, p);
      var next := Committed(s.broker, p);
      if p !in effective {
        var target := if p in s.tips then s.tips[p] else 0;
        if next != Some(target) {
          resets := resets[p := target];
        }
      } else {
        var expected := effective[p] + 1;
        if next.None? || next.value != expected {
          resets := resets[p := expected];
        }
      }
      done := done + {p};
    }
  }

  // ----- applying it -----

  function OfTopic(commits: map<Key, int>, topic: string): map<Partition, int> {
    map k | k in commits && k.topic == topic :: k.partition := commits[k]
  }

  /** The rows that a clamp leaves in the ledger. */
  predicate Kept(row: Row, topic: string, clamps: map<Partition, Clamp>) {
    row.key.topic == topic && row.key.partition in clamps ==> row.offset <= clamps[row.key.partition].to
  }

  function CommitsWith(commits: map<Key, int>, topic: string, clamps: map<Partition, Clamp>): map<Key, int> {
    map k | k in commits :: if k.topic == topic && k.partition in clamps then clamps[k.partition].to else commits[k]
  }

  function LedgerWith(ledger: set<Row>, topic: string, clamps: map<Partition, Clamp>): set<Row> {
    set row | row in ledger && Kept(row, topic, clamps)
  }

  lemma CommitsNext(commits: map<Key, int>, topic: string, clamps: map<Partition, Clamp>, p: Partition, c: Clamp)
    requires Key(topic, p) in commits
    ensures CommitsWith(commits, topic, clamps[p := c]) == CommitsWith(commits, topic, clamps)[Key(topic, p) := c.to]
    ensures CommitsWith(commits, topic, map[]) == commits
  {
  }

  lemma LedgerNext(ledger: set<Row>, topic: string, clamps: map<Partition, Clamp>, p: Partition, c: Clamp)
    ensures p !in clamps ==>
              LedgerWith(ledger, topic, clamps[p := c]) ==
              set row | row in LedgerWith(ledger, topic, clamps) && !(row.key == Key(topic, p) && row.offset > c.to)
    ensures LedgerWith(ledger, topic, map[]) == ledger
  {
  }

  /** One more target written to the broker. */
  lemma WrittenNext(broker: map<Partition, Option<int>>, targets: map<Partition, int>, todo: set<Partition>, p: Partition)
    requires p in todo && todo <= targets.Keys
    ensures Written(broker, targets, todo - {p}) == Written(broker, targets, todo)[p := Some(targets[p])]
  {
  }

  /** Nothing is written at the start, everything at the end. */
  lemma WrittenBounds(broker: map<Partition, Option<int>>, targets: map<Partition, int>)
    ensures Written(broker, targets, targets.Keys) == broker
    ensures Written(broker, targets, {}) == broker + map p | p in targets :: Some(targets[p])
  {
  }

  /** The broker's commits when every target outside `todo` has been written. */
  function Written(broker: map<Partition, Option<int>>, targets: map<Partition, int>, todo: set<Partition>): map<Partition, Option<int>> {
    broker + map p | p in targets && p !in todo :: Some(targets[p])
  }

  /** Clamping the table clamps the topic's offsets and leaves the other topics alone. */
  lemma CommitsOfTopic(commits: map<Key, int>, topic: string, clamps: map<Partition, Clamp>, other: string)
    ensures OfTopic(CommitsWith(commits, topic, clamps), other) ==
            if other == topic then WithClamps(OfTopic(commits, topic), clamps) else OfTopic(commits, other)
  {
  }

  /** The two tables of the projector's database, and the group's commits at the broker. */
  class Deployment {
    var commits: map<Key, int>
    var ledger: set<Row>
    var broker: map<Partition, Option<int>>

    constructor (commits: map<Key, int>, ledger: set<Row>, broker: map<Partition, Option<int>>)
      ensures this.commits == commits && this.ledger == ledger && this.broker == broker
    {
      this.commits, this.ledger, this.broker := commits, ledger, broker;
    }

    function Capture(topic: string, tips: map<Partition, int>): Snapshot
      reads this
    {
      Snapshot(tips, OfTopic(commits, topic), broker)
    }

    /** reconcile_sqlite_generation. */
    method ReconcileSqlite(topic: string, tips: map<Partition, int>, dryRun: bool) returns (actions: map<Partition, Clamp>)
      modifies this`commits, this`ledger
      ensures actions == Clamps(tips, OfTopic(old(commits), topic))
      ensures commits == if dryRun then old(commits) else CommitsWith(old(commits), topic, actions)
      ensures ledger == if dryRun then old(ledger) else LedgerWith(old(ledger), topic, actions)
    {
      hide ClampsAmong, CommitsWith, LedgerWith;
      actions := map[];
      var read := OfTopic(commits, topic);
      var done := {};
      ClampNext(tips, read, {}, 0);
      Untouched(commits, ledger, topic);
      while done != tips.Keys
        invariant done <= tips.Keys && actions == ClampsAmong(tips, read, done) && actions.Keys <= done
        invariant commits == if dryRun then old(commits) else CommitsWith(old(commits), topic, actions)
        invariant ledger == if dryRun then old(ledger) else LedgerWith(old(ledger), topic, actions)
        decreases |tips.Keys - done|
      {
        var p := OneOf(tips.Keys - done);
        ClampNext(tips, read, done, p);
        if p in read && tips[p] > 0 && read[p] >= tips[p] {
          var clamp := Clamp(read[p], tips[p] - 1);
          CommitsNext(old(commits), topic, actions, p, clamp);
          LedgerNext(old(ledger), topic, actions, p, clamp);
          actions := actions[p := clamp];
          if !dryRun {
            commits := commits[Key(topic, p) := clamp.to];
            ledger := set row | row in ledger && !(row.key == Key(topic, p) && row.offset > clamp.to);
          }
        }
        done := done + {p};
      }
    }

    lemma Untouched(commits: map<Key, int>, ledger: set<Row>, topic: string)
      ensures CommitsWith(commits, topic, map[]) == commits && LedgerWith(ledger, topic, map[]) == ledger
    {
    }

    /** reset_group_offsets, when every command succeeds. */
    method ResetGroup(targets: map<Partition, int>, dryRun: bool)
      modifies this`broker
      ensures dryRun ==> broker == old(broker)
      ensures !dryRun ==> broker == old(broker) + map p | p in targets :: Some(targets[p])
    {
      hide Written;
      var todo := targets.Keys;
      WrittenBounds(broker, targets);
      while todo != {}
        invariant todo <= targets.Keys
        invariant broker == if dryRun then old(broker) else Written(old(broker), targets, todo)
        decreases |todo|
      {
        var p :| p in todo;
        WrittenNext(old(broker), targets, todo, p);
        todo := todo - {p};
        if !dryRun {
          broker := broker[p := Some(targets[p])];
        }
      }
    }

    /** The tool's run; it succeeds when no issue is left. */
    method Execute(topic: string, tips: map<Partition, int>) returns (plan: Plan, actions: map<Partition, Clamp>, ok: bool)
      modifies this
      ensures IsPlan(old(Capture(topic, tips)), plan) && actions == plan.clamps
      ensures Capture(topic, tips) == Applied(old(Capture(topic, tips)), plan)
      ensures forall other :: other != topic ==> OfTopic(commits, other) == OfTopic(old(commits), other)
      ensures ledger == LedgerWith(old(ledger), topic, plan.clamps)
      ensures ok <==> forall p :: !Unfixable(old(Capture(topic, tips)), p)
    {
      hide ClampsAmong, WithClamps, ResetsAmong, CommitsWith, LedgerWith, OfTopic, AheadOfEnd, BrokerAhead, Unfixable;
      ghost var before := Capture(topic, tips);
      plan := BuildPlan(Capture(topic, tips));
      actions := ReconcileSqlite(topic, tips, false);
      forall other: string ensures OfTopic(commits, other) == if other == topic then plan.effective else OfTopic(old(commits), other) {
        CommitsOfTopic(old(commits), topic, actions, other);
      }
      ResetGroup(plan.resets, false);
      assert Capture(topic, tips) == Applied(before, plan);
      var issues := FindIssues(Capture(topic, tips));
      ok := issues == {};
      NoIssuesIff(Applied(before, plan), issues);
      IssuesLeft(before, plan);
    }
  }

  lemma NoIssuesIff(s: Snapshot, issues: set<Issue>)
    requires forall i :: i in issues <==> IsIssue(s, i)
    ensures issues == {} <==> forall p :: !AheadOfEnd(s, p) && !BrokerAhead(s, p)
  {
    forall p ensures AheadOfEnd(s, p) || BrokerAhead(s, p) ==> issues != {} {
      if AheadOfEnd(s, p) {
        assert SqliteAheadOfEnd(p, s.sqlite[p], s.tips[p]) in issues;
      } else if BrokerAhead(s, p) {
        assert BrokerAheadOfSqlite(p, s.sqlite[p], s.broker[p].value) in issues;
      }
    }
    forall i | i in issues ensures AheadOfEnd(s, i.partition) || BrokerAhead(s, i.partition) {
    }
  }

  // ----- what the plan achieves -----

  function Applied(s: Snapshot, plan: Plan): Snapshot {
    Snapshot(s.tips, plan.effective, s.broker + map p | p in plan.resets :: Some(plan.resets[p]))
  }

  /** The one issue no plan repairs: a processed offset at or beyond the end of an empty log. */
  predicate Unfixable(s: Snapshot, p: Partition) {
    AheadOfEnd(s, p) && s.tips[p] <= 0
  }

  /** After the plan is applied the group resumes exactly at the target, on every partition. */
  lemma ResumesAtTarget(s: Snapshot, plan: Plan, p: Partition)
    requires IsPlan(s, plan) && (p in s.tips || p in s.sqlite)
    ensures Committed(Applied(s, plan).broker, p) == Some(Target(s.tips, plan.effective, p))
  {
  }

  /** A partition has an issue afterwards exactly when it is unfixable, and then it is the same one. */
  lemma IssuesLeft(s: Snapshot, plan: Plan)
    requires IsPlan(s, plan)
    ensures forall p :: AheadOfEnd(Applied(s, plan), p) <==> Unfixable(s, p)
    ensures forall p :: !BrokerAhead(Applied(s, plan), p)
  {
    forall p | p in s.sqlite ensures !BrokerAhead(Applied(s, plan), p) {
      ResumesAtTarget(s, plan, p);
    }
  }

  /** The plan is a fixpoint: planning again finds nothing to do. */
  lemma NextPlanIsEmpty(s: Snapshot, plan: Plan, next: Plan)
    requires IsPlan(s, plan) && IsPlan(Applied(s, plan), next)
    ensures next == Plan(map[], map[], plan.effective)
  {
    assert next.effective == plan.effective;
    forall p ensures p !in next.resets {
      if p in s.tips || p in s.sqlite {
        ResumesAtTarget(s, plan, p);
      }
    }
  }

  /** A committed partition resumes at the earlier of its old commit plus one and the log's end; only
      an empty log is overrun.  A partition that was never processed is sent to the end of its log,
      whatever the log holds. */
  lemma ResumePoint(s: Snapshot, plan: Plan, p: Partition)
    requires IsPlan(s, plan) && (p in s.sqlite || p in s.tips)
    ensures Committed(Applied(s, plan).broker, p).Some?
    ensures var resume := Committed(Applied(s, plan).broker, p).value;
            && (p !in s.sqlite ==> resume == s.tips[p])
            && (p in s.sqlite ==>
                  && resume <= s.sqlite[p] + 1
                  && (p in s.tips && s.tips[p] > 0 ==> resume == if s.sqlite[p] + 1 <= s.tips[p] then s.sqlite[p] + 1 else s.tips[p])
                  && (p in s.tips && s.tips[p] <= 0 ==> resume == s.sqlite[p] + 1)
                  && (p !in s.tips ==> resume == s.sqlite[p] + 1)
                  && (p in s.tips ==> (resume > s.tips[p] <==> Unfixable(s, p))))
  {
    ResumesAtTarget(s, plan, p);
  }

  /** After the run no ledger row lies beyond the offset its clamped partition was set back to, so
      every row kept for it has been processed and lies inside the log. */
  lemma LedgerInsideLog(s: Snapshot, plan: Plan, topic: string, row: Row)
    requires IsPlan(s, plan) && Kept(row, topic, plan.clamps)
    requires row.key.topic == topic && row.key.partition in plan.clamps
    ensures row.offset <= plan.effective[row.key.partition] < s.tips[row.key.partition]
  {
  }
}
