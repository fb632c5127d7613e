/** The protocol that keeps a cached snapshot coherent with concurrent writers.  Writers advance
    generation counters when a write is planned and again after its commit; readers compare the
    counters with those the snapshot recorded, and follow inserts with a delta.  Every action below
    is one lock-protected access or one database read, and actions of different processes and
    transactions interleave in any order. */
module Lease {
  import opened Watermarks

  // ----- the database and its writers -----

  datatype Table = VertexTable | EdgeTable

  datatype Counter = PreparedWrites | Writes(table: Table) | Destructive(table: Table) | Database

  datatype Tables = Tables(vertices: set<Row<nat>>, edges: set<Row<nat>>)
  {
    function At(t: Table): set<Row<nat>>
    {
      match t
      case VertexTable => vertices
      case EdgeTable => edges
    }

    function Plus(other: Tables): Tables
    {
      Tables(vertices + other.vertices, edges + other.edges)
    }

    ghost predicate Within(other: Tables)
    {
      vertices <= other.vertices && edges <= other.edges
    }
  }

  /** A committed transaction: the rows it left, the counters its after-commit hook advances, and
      those the hook has not advanced yet. */
  datatype Commit = Commit(after: Tables, duties: set<Counter>, remaining: set<Counter>)
  {
    predicate Finished()
    {
      remaining == {}
    }

    predicate IsDestructive()
    {
      PreparedWrites in duties || Destructive(VertexTable) in duties || Destructive(EdgeTable) in duties
    }

    predicate MayRemove(t: Table)
    {
      PreparedWrites in duties || Destructive(t) in duties
    }

    predicate Advanced(c: Counter)
    {
      c in duties && c !in remaining
    }
  }

  /** An open transaction: the graph tables it has planned to write, each with whether all of its
      planned writes only insert, and whether it executed a prepared write. */
  datatype Transaction = Transaction(planned: map<Table, bool>, prepared: bool)
  {
    function Duties(): set<Counter>
    {
      {Database} + (set t | t in planned :: Writes(t)) + (set t | t in planned && !planned[t] :: Destructive(t))
      + (if prepared then {PreparedWrites} else {})
    }

    /** Rows change only in tables planned for, and only grow where every plan was an insert. */
    ghost predicate Allows(before: Tables, after: Tables)
    {
      prepared || forall t: Table ::
        if t !in planned then after.At(t) == before.At(t) else planned[t] ==> before.At(t) <= after.At(t)
    }
  }

  datatype World = World(counters: map<Counter, nat>, log: seq<Commit>)

  // ----- snapshots and the processes that use them -----

  /** A published snapshot.  `baseAt` and `at` date the reads behind it: the base holds the rows of
      the first `baseAt` commits, and the last delta scan read those of the first `at`, starting
      from the rows `known`. */
  datatype Snapshot = Snapshot(record: map<Counter, nat>, supportsDelta: bool, base: Tables, delta: Tables,
                               vertexMark: nat, edgeMark: nat, synced: nat, baseAt: nat, known: Tables, at: nat)
  {
    function Rows(): Tables
    {
      base.Plus(delta)
    }
  }

  /** Where a process stands.  `finished` is the commits whose hook had finished when it began. */
  datatype Process =
    | Idle
    | Finding(finished: set<nat>, rebuilt: bool)
    | Comparing(finished: set<nat>, rebuilt: bool, snap: nat, goal: set<Counter>, agreed: set<Counter>)
    | Located(finished: set<nat>, rebuilt: bool, snap: nat)
    | Locked(finished: set<nat>, rebuilt: bool, snap: nat)
    | Syncing(finished: set<nat>, rebuilt: bool, snap: nat, generation: nat)
    | Scanned(finished: set<nat>, snap: nat, generation: nat, next: Snapshot)
    | Refused(finished: set<nat>)
    | Waiting(finished: set<nat>)
    | Building(finished: set<nat>, record: map<Counter, nat>)
    | Built(finished: set<nat>, next: Snapshot)
    | Ending(finished: set<nat>)
    | Leased(finished: set<nat>, lease: Tables, baseAt: nat, known: Tables, at: nat)
    | Failed

  predicate HoldsCatchUpLock(p: Process)
  {
    p.Locked? || p.Syncing? || p.Scanned?
  }

  predicate IsBuilding(p: Process)
  {
    p.Building? || p.Built? || p.Ending?
  }

  datatype State = State(world: World, transactions: map<nat, Transaction>, snapshots: seq<Snapshot>,
                         published: set<nat>,
                         catchUpLocked: bool, buildInProgress: bool, processes: map<nat, Process>)

  /** The counters that must agree for a snapshot to be current, or to be followed by a delta. */
  const CURRENT: set<Counter> := {PreparedWrites, Writes(VertexTable), Writes(EdgeTable)}
  const CAN_CATCH_UP: set<Counter> := {PreparedWrites, Destructive(VertexTable), Destructive(EdgeTable)}

  datatype Action =
    | Advance(c: Counter)
    | Plan(x: nat, table: Table, insertsOnly: bool)
    | PlanPrepared(x: nat)
    | Rollback(x: nat)
    | CommitRows(x: nat, after: Tables)
    | Hook(i: nat, c: Counter)
    | Unpublish(snap: nat)
    | Begin(p: nat)
    | Pick(p: nat, snap: nat, goal: set<Counter>)
    | Agree(p: nat, c: Counter)
    | Disagree(p: nat)
    | Take(p: nat)
    | Lock(p: nat)
    | ReadGeneration(p: nat)
    | Reuse(p: nat)
    | Scan(p: nat, vertexMark: nat, edgeMark: nat)
    | Refuse(p: nat)
    | PublishDelta(p: nat)
    | StartBuild(p: nat)
    | Wait(p: nat)
    | Wake(p: nat)
    | Record(p: nat, c: Counter)
    | ReadBase(p: nat, supportsDelta: bool, vertexMark: nat, edgeMark: nat)
    | PublishBase(p: nat, keep: set<nat>)
    | EndBuild(p: nat)
    | Abandon(p: nat)

  function Bump(counters: map<Counter, nat>, c: Counter): map<Counter, nat>
  {
    if c in counters then counters[c := counters[c] + 1] else counters
  }

  function Open(transactions: map<nat, Transaction>, x: nat): Transaction
  {
    if x in transactions then transactions[x] else Transaction(map[], false)
  }

  ghost function FinishedCommits(log: seq<Commit>): set<nat>
  {
    set i: nat | i < |log| && log[i].Finished()
  }

  /** What a writer's or the environment's action does to the counters and the commit log. */
  ghost predicate WorldAction(s: State, a: Action, s': State)
  {
    && s'.(world := s.world, transactions := s.transactions) == s
    && match a
       case Advance(c) => s'.transactions == s.transactions
           && s'.world == s.world.(counters := Bump(s.world.counters, c))
       case Plan(x, t, insertsOnly) =>
         var open := Open(s.transactions, x);
         var counters := Bump(s.world.counters, Writes(t));
         && s'.world == s.world.(counters := if insertsOnly then counters else Bump(counters, Destructive(t)))
         && s'.transactions == s.transactions[x := open.(planned :=
              open.planned[t := insertsOnly && (t in open.planned ==> open.planned[t])])]
       case PlanPrepared(x) =>
         && s'.world == s.world.(counters := Bump(s.world.counters, PreparedWrites))
         && s'.transactions == s.transactions[x := Open(s.transactions, x).(prepared := true)]
       case Rollback(x) => s'.world == s.world && s'.transactions == s.transactions - {x}
       case CommitRows(x, after) =>
         && x in s.transactions && (s.transactions[x].prepared || s.transactions[x].planned != map[])
         && |s.world.log| > 0 && s.transactions[x].Allows(s.world.log[|s.world.log| - 1].after, after)
         && s'.world == s.world.(log :=
                                 s.world.log + [Commit(after, s.transactions[x].Duties(), s.transactions[x].Duties())])
         && s'.transactions == s.transactions - {x}
       case Hook(i, c) =>
         && i < |s.world.log| && c in s.world.log[i].remaining && s'.transactions == s.transactions
         && s'.world == World(Bump(s.world.counters, c),
              s.world.log[i := s.world.log[i].(remaining := s.world.log[i].remaining - {c})])
       case _ => false
  }

  function Committed(w: World): Tables
    requires |w.log| > 0
  {
    w.log[|w.log| - 1].after
  }

  /** Both tables pass the count check, and the marks are where the next scans start. */
  ghost predicate ScanAccepted(snap: Snapshot, committed: Tables, vertexMark: nat, edgeMark: nat)
  {
    && TableAccepted(snap.Rows().vertices, snap.vertexMark, committed.vertices, vertexMark)
    && TableAccepted(snap.Rows().edges, snap.edgeMark, committed.edges, edgeMark)
  }

  /** The snapshot with its delta extended by an accepted scan that saw the first `at` commits. */
  function Followed(snap: Snapshot, committed: Tables, at: nat, generation: nat, vertexMark: nat,
                    edgeMark: nat): Snapshot
    requires ScanTable(snap.Rows().vertices, snap.vertexMark, committed.vertices).Inserted?
    requires ScanTable(snap.Rows().edges, snap.edgeMark, committed.edges).Inserted?
  {
    var added := Tables(ScanTable(snap.Rows().vertices, snap.vertexMark, committed.vertices).rows,
                        ScanTable(snap.Rows().edges, snap.edgeMark, committed.edges).rows);
    snap.(delta := snap.delta.Plus(added), vertexMark := vertexMark, edgeMark := edgeMark, synced := generation,
          known := snap.Rows(), at := at)
  }

  ghost predicate Moves(s: State, s': State, p: nat, next: Process)
  {
    s' == s.(processes := s.processes[p := next])
  }

  /** A reader looks for a published snapshot whose counters have not moved. */
  ghost predicate SearchAction(s: State, a: Action, s': State)
  {
    match a
    case Begin(p) => (At(s, p).Idle? || At(s, p).Leased? || At(s, p).Failed?)
        && Moves(s, s', p, Finding(FinishedCommits(s.world.log), false))
    case Pick(p, snap, goal) =>
      && At(s, p).Finding? && snap in s.published && snap < |s.snapshots|
      && (goal == CURRENT || (goal == CAN_CATCH_UP && s.snapshots[snap].supportsDelta))
      && Moves(s, s', p, Comparing(At(s, p).finished, At(s, p).rebuilt, snap, goal, {}))
    case Agree(p, c) =>
      && At(s, p).Comparing? && c in At(s, p).goal && At(s, p).snap < |s.snapshots|
      && c in s.world.counters && c in s.snapshots[At(s, p).snap].record
      && s.world.counters[c] == s.snapshots[At(s, p).snap].record[c]
      && Moves(s, s', p, At(s, p).(agreed := At(s, p).agreed + {c}))
    case Disagree(p) => At(s, p).Comparing? && Moves(s, s', p, Finding(At(s, p).finished, At(s, p).rebuilt))
    case Take(p) =>
      && At(s, p).Comparing? && At(s, p).agreed == At(s, p).goal && At(s, p).snap < |s.snapshots|
      && var snap := s.snapshots[At(s, p).snap];
         Moves(s, s', p, if snap.supportsDelta then Located(At(s, p).finished, At(s, p).rebuilt, At(s, p).snap)
                         else Leased(At(s, p).finished, snap.base, snap.baseAt, snap.base, snap.baseAt))
    case _ => false
  }

  /** A reader extends the snapshot's delta under the catch-up lock, or finds it up to date. */
  ghost predicate CatchUpAction(s: State, a: Action, s': State)
    requires |s.world.log| > 0
  {
    match a
    case Lock(p) =>
      && At(s, p).Located? && !s.catchUpLocked
      && Moves(s.(catchUpLocked := true), s', p, Locked(At(s, p).finished, At(s, p).rebuilt, At(s, p).snap))
    case ReadGeneration(p) =>
      && At(s, p).Locked? && Database in s.world.counters
      && Moves(s, s', p, Syncing(At(s, p).finished, At(s, p).rebuilt, At(s, p).snap, s.world.counters[Database]))
    case Reuse(p) =>
      && At(s, p).Syncing? && At(s, p).snap < |s.snapshots|
      && var snap := s.snapshots[At(s, p).snap];
      && snap.synced == At(s, p).generation
      && Moves(s.(catchUpLocked := false), s', p,
               Leased(At(s, p).finished, snap.Rows(), snap.baseAt, snap.known, snap.at))
    case Scan(p, vertexMark, edgeMark) =>
      && At(s, p).Syncing? && At(s, p).snap < |s.snapshots|
      && var snap := s.snapshots[At(s, p).snap];
      && snap.synced != At(s, p).generation
      && ScanAccepted(snap, Committed(s.world), vertexMark, edgeMark)
      && Moves(s, s', p, Scanned(At(s, p).finished, At(s, p).snap, At(s, p).generation,
           Followed(snap, Committed(s.world), |s.world.log|, At(s, p).generation, vertexMark, edgeMark)))
    case Refuse(p) =>
      && At(s, p).Syncing?
      && Moves(s.(catchUpLocked := false), s', p, if At(s, p).rebuilt then Failed else Refused(At(s, p).finished))
    case _ => false
  }

  /** A process builds a snapshot, or waits for the build in progress. */
  ghost predicate BuildAction(s: State, a: Action, s': State)
    requires |s.world.log| > 0
  {
    match a
    case StartBuild(p) =>
      && (At(s, p).Refused? || At(s, p).Idle?) && !s.buildInProgress
      && Moves(s.(buildInProgress := true), s', p, Building(if At(s, p).Idle? then {} else At(s, p).finished, map[]))
    case Wait(p) => At(s, p).Refused? && s.buildInProgress && Moves(s, s', p, Waiting(At(s, p).finished))
    case Wake(p) => At(s, p).Waiting? && !s.buildInProgress && Moves(s, s', p, Finding(At(s, p).finished, true))
    case Record(p, c) =>
      && At(s, p).Building? && c !in At(s, p).record && c in s.world.counters
      && Moves(s, s', p, At(s, p).(record := At(s, p).record[c := s.world.counters[c]]))
    case ReadBase(p, supportsDelta, vertexMark, edgeMark) =>
      && At(s, p).Building? && (forall c: Counter :: c in At(s, p).record)
      && var base := Committed(s.world);
      && NextWatermark(0, base.vertices, vertexMark) && NextWatermark(0, base.edges, edgeMark)
      && Moves(s, s', p, Built(At(s, p).finished, Snapshot(At(s, p).record, supportsDelta, base, Tables({}, {}),
           vertexMark, edgeMark, At(s, p).record[Database], |s.world.log|, base, |s.world.log|)))
    case EndBuild(p) =>
      && At(s, p).Ending? && Moves(s.(buildInProgress := false), s', p, Finding(At(s, p).finished, true))
    case Abandon(p) =>
      && (At(s, p).Finding? || IsBuilding(At(s, p)))
      && Moves(s.(buildInProgress := s.buildInProgress && !IsBuilding(At(s, p))), s', p, Failed)
    case _ => false
  }

  /** The stored snapshots change. */
  ghost predicate StorageAction(s: State, a: Action, s': State)
  {
    match a
    case Unpublish(snap) => s' == s.(published := s.published - {snap})
    case PublishDelta(p) =>
      && At(s, p).Scanned? && At(s, p).snap < |s.snapshots|
      && var next := At(s, p).next;
         Moves(s.(catchUpLocked := false, snapshots := s.snapshots[At(s, p).snap := next]), s', p,
               Leased(At(s, p).finished, next.Rows(), next.baseAt, next.known, next.at))
    case PublishBase(p, keep) =>
      && At(s, p).Built?
      && var published := (s.published + {|s.snapshots|}) * keep;
         Moves(s.(snapshots := s.snapshots + [At(s, p).next], published := published), s', p,
               Ending(At(s, p).finished))
    case _ => false
  }

  function At(s: State, p: nat): Process
  {
    if p in s.processes then s.processes[p] else Failed
  }

  ghost predicate Step(s: State, a: Action, s': State)
  {
    && |s.world.log| > 0
    && (WorldAction(s, a, s') || SearchAction(s, a, s') || CatchUpAction(s, a, s') || BuildAction(s, a, s')
        || StorageAction(s, a, s'))
  }

  /** Before any write is observed: one commit stands for the rows the database starts with. */
  ghost predicate Initial(s: State)
  {
    && (forall c: Counter :: c in s.world.counters)
    && |s.world.log| == 1 && s.world.log[0].duties == {} == s.world.log[0].remaining
    && s.transactions == map[] && s.snapshots == [] && s.published == {} && !s.catchUpLocked && !s.buildInProgress
    && forall p :: p in s.processes ==> s.processes[p].Idle?
  }

  ghost predicate IsRun(states: seq<State>, actions: seq<Action>)
  {
    && |states| == |actions| + 1 && Initial(states[0])
    && forall i :: 0 <= i < |actions| ==> Step(states[i], actions[i], states[i + 1])
  }

  /** Some run, of any processes and transactions in any order, ends in this state. */
  ghost predicate Reachable(s: State)
  {
    exists states, actions :: IsRun(states, actions) && states[|actions|] == s
  }

  lemma InitialIsReachable(s: State)
    requires Initial(s)
    ensures Reachable(s)
  {
    assert IsRun([s], []);
  }

  lemma RunPlusStep(states: seq<State>, actions: seq<Action>, s': State, a: Action)
    requires IsRun(states, actions) && Step(states[|actions|], a, s')
    ensures IsRun(states + [s'], actions + [a])
  {
    var states', actions' := states + [s'], actions + [a];
    forall i | 0 <= i < |actions'|
      ensures Step(states'[i], actions'[i], states'[i + 1])
    {
      if i < |actions| {
        assert Step(states[i], actions[i], states[i + 1]);
      }
    }
  }

  lemma StepIsReachable(s: State, a: Action, s': State)
    requires Reachable(s) && Step(s, a, s')
    ensures Reachable(s')
  {
    var states, actions :| IsRun(states, actions) && states[|actions|] == s;
    var states', actions' := states + [s'], actions + [a];
    RunPlusStep(states, actions, s', a);
    assert IsRun(states', actions') && states'[|actions'|] == s';
  }

  // ----- the inductive invariant -----

  /** Commit `i` left this row in the table. */
  ghost predicate Shows(log: seq<Commit>, i: nat, t: Table, r: Row<nat>)
  {
    i < |log| && r in log[i].after.At(t)
  }

  /** One of the commits that a read between the two dates may have seen last left the row. */
  ghost predicate Dated(log: seq<Commit>, t: Table, r: Row<nat>, baseAt: nat, at: nat)
  {
    exists i: nat :: baseAt <= i + 1 <= at && Shows(log, i, t, r)
  }

  /** What is known of rows read as a base at `baseAt` and followed up to `at`, with the rows `known`
      before the last scan: they balance with the rows committed at `at`, and each of them was in its
      table at some date from `baseAt` to `at`. */
  ghost predicate Faithful(log: seq<Commit>, rows: Tables, baseAt: nat, known: Tables, at: nat)
  {
    && 1 <= baseAt <= at <= |log|
    && (forall t: Table :: Balanced(rows.At(t), known.At(t), log[at - 1].after.At(t)))
    && (forall t: Table, r :: r in rows.At(t) ==> Dated(log, t, r, baseAt, at))
  }

  ghost predicate WorldOk(w: World)
  {
    && (forall c: Counter :: c in w.counters)
    && |w.log| >= 1
    && (forall i :: 1 <= i < |w.log| ==> CommitOk(w.log[i - 1].after, w.log[i]))
  }

  ghost predicate CommitOk(before: Tables, c: Commit)
  {
    && c.remaining <= c.duties && Database in c.duties
    && (PreparedWrites in c.duties || Writes(VertexTable) in c.duties || Writes(EdgeTable) in c.duties)
    && forall t: Table :: !c.MayRemove(t) ==> before.At(t) <= c.after.At(t)
  }

  /** Counters recorded before the base was read are behind every hook that ran after it. */
  ghost predicate SnapshotOk(w: World, s: Snapshot)
    requires WorldOk(w)
  {
    && (forall c: Counter :: c in s.record && s.record[c] <= w.counters[c])
    && s.synced <= w.counters[Database]
    && Faithful(w.log, s.Rows(), s.baseAt, s.known, s.at)
    && s.base == w.log[s.baseAt - 1].after
    && (forall i, c: Counter :: s.baseAt <= i < |w.log| && w.log[i].Advanced(c) ==> s.record[c] < w.counters[c])
    && (forall i :: s.at <= i < |w.log| && w.log[i].Advanced(Database) ==> s.synced < w.counters[Database])
    && Below(s.Rows().vertices, s.vertexMark) && Below(s.Rows().edges, s.edgeMark)
  }

  /** Finished destructive commits are part of the base. */
  ghost predicate DestructivePrecede(w: World, finished: set<nat>, baseAt: nat)
  {
    forall i :: i in finished && i < |w.log| && w.log[i].IsDestructive() ==> i < baseAt
  }

  ghost predicate ProcessOk(w: World, snapshots: seq<Snapshot>, p: Process)
    requires WorldOk(w)
  {
    match p
    case Idle => true
    case Failed => true
    case Finding(finished, _) => FinishedOk(w, finished)
    case Refused(finished) => FinishedOk(w, finished)
    case Waiting(finished) => FinishedOk(w, finished)
    case Ending(finished) => FinishedOk(w, finished)
    case Comparing(finished, _, snap, goal, agreed) =>
      && FinishedOk(w, finished) && snap < |snapshots| && agreed <= goal
      && (goal == CURRENT || (goal == CAN_CATCH_UP && snapshots[snap].supportsDelta))
      && forall i, c :: i in finished && c in agreed && i < |w.log| && c in w.log[i].duties ==>
           i < snapshots[snap].baseAt
    case Located(finished, _, snap) =>
      FinishedOk(w, finished) && snap < |snapshots| && DestructivePrecede(w, finished, snapshots[snap].baseAt)
    case Locked(finished, _, snap) =>
      FinishedOk(w, finished) && snap < |snapshots| && DestructivePrecede(w, finished, snapshots[snap].baseAt)
    case Syncing(finished, _, snap, generation) =>
      && FinishedOk(w, finished) && snap < |snapshots| && DestructivePrecede(w, finished, snapshots[snap].baseAt)
      && generation <= w.counters[Database]
      && forall i :: i in finished && i >= snapshots[snap].at ==> snapshots[snap].synced < generation
    case Scanned(finished, snap, generation, next) =>
      && FinishedOk(w, finished) && snap < |snapshots| && DestructivePrecede(w, finished, next.baseAt)
      && SnapshotOk(w, next) && next.baseAt == snapshots[snap].baseAt
           && next.supportsDelta == snapshots[snap].supportsDelta
      && (forall i :: i in finished ==> i < next.at)
    case Building(finished, record) =>
      FinishedOk(w, finished) && forall c :: c in record ==> record[c] <= w.counters[c]
    case Built(finished, next) => FinishedOk(w, finished) && SnapshotOk(w, next)
    case Leased(finished, lease, baseAt, known, at) => LeaseOk(w, finished, lease, baseAt, known, at)
  }

  ghost predicate FinishedOk(w: World, finished: set<nat>)
  {
    forall i :: i in finished ==> i < |w.log| && w.log[i].Finished()
  }

  ghost predicate LeaseOk(w: World, finished: set<nat>, lease: Tables, baseAt: nat, known: Tables, at: nat)
  {
    && FinishedOk(w, finished) && DestructivePrecede(w, finished, baseAt)
    && Faithful(w.log, lease, baseAt, known, at)
    && forall i :: i in finished ==> i < at
  }

  ghost predicate LocksOk(s: State)
  {
    && (forall p :: HoldsCatchUpLock(At(s, p)) ==> s.catchUpLocked)
    && (forall p, q :: HoldsCatchUpLock(At(s, p)) && HoldsCatchUpLock(At(s, q)) ==> p == q)
    && (forall p :: IsBuilding(At(s, p)) ==> s.buildInProgress)
    && (forall p, q :: IsBuilding(At(s, p)) && IsBuilding(At(s, q)) ==> p == q)
  }

  ghost predicate Invariant(s: State)
  {
    && WorldOk(s.world) && LocksOk(s)
    && (forall i :: 0 <= i < |s.snapshots| ==> SnapshotOk(s.world, s.snapshots[i]))
    && (forall p :: p in s.processes ==> ProcessOk(s.world, s.snapshots, s.processes[p]))
  }

  // ----- writers keep the invariant -----

  /** One world follows another: counters do not fall, hooks advance, commits are appended, and a
      hook that advanced a counter found it no lower than anyone had read it before. */
  ghost predicate Follows(w: World, w': World)
    requires WorldOk(w) && WorldOk(w')
  {
    && (forall c: Counter :: w.counters[c] <= w'.counters[c])
    && |w.log| <= |w'.log|
    && (forall i :: 0 <= i < |w.log| ==> w'.log[i].after == w.log[i].after && w'.log[i].duties == w.log[i].duties)
    && (forall i :: 0 <= i < |w.log| && w.log[i].Finished() ==> w'.log[i].Finished())
    && (forall i, c: Counter :: 0 <= i < |w'.log| && w'.log[i].Advanced(c) ==>
         (i < |w.log| && w.log[i].Advanced(c)) || w.counters[c] < w'.counters[c])
  }

  lemma WorldActionFollows(s: State, a: Action, s': State)
    requires WorldOk(s.world) && WorldAction(s, a, s')
    ensures WorldOk(s'.world) && Follows(s.world, s'.world)
  {
    var w, w' := s.world, s'.world;
    match a
    case CommitRows(x, after) => CommitAppends(s, x, after, s');
    case Hook(i, c) =>
      assert forall j :: 0 <= j < |w.log| && j != i ==> w'.log[j] == w.log[j];
    case _ =>
  }

  lemma CommitAppends(s: State, x: nat, after: Tables, s': State)
    requires WorldOk(s.world) && WorldAction(s, CommitRows(x, after), s')
    ensures WorldOk(s'.world) && Follows(s.world, s'.world)
  {
    var w, w', t := s.world, s'.world, s.transactions[x];
    assert w'.log == w.log + [Commit(after, t.Duties(), t.Duties())];
    CommitIsOk(t, w.log[|w.log| - 1].after, after);
    hide CommitOk, Transaction.Duties, Transaction.Allows, WorldAction;
    assert forall i :: 0 <= i < |w.log| ==> w'.log[i] == w.log[i];
  }

  /** A transaction keeps the promises of what it planned. */
  lemma CommitIsOk(t: Transaction, before: Tables, after: Tables)
    requires t.Allows(before, after) && (t.prepared || t.planned != map[])
    ensures CommitOk(before, Commit(after, t.Duties(), t.Duties()))
  {
    var c := Commit(after, t.Duties(), t.Duties());
    forall k: Table | !c.MayRemove(k)
      ensures before.At(k) <= after.At(k)
    {
      assert k in t.planned && !t.planned[k] ==> Destructive(k) in c.duties;
    }
    if !t.prepared {
      var k :| k in t.planned;
      assert Writes(k) in c.duties;
    }
  }

  lemma FaithfulFollows(w: World, w': World, rows: Tables, baseAt: nat, known: Tables, at: nat)
    requires WorldOk(w) && WorldOk(w') && Follows(w, w') && Faithful(w.log, rows, baseAt, known, at)
    ensures Faithful(w'.log, rows, baseAt, known, at)
  {
    forall t: Table, r | r in rows.At(t)
      ensures Dated(w'.log, t, r, baseAt, at)
    {
      var i: nat :| baseAt <= i + 1 <= at && Shows(w.log, i, t, r);
      assert Shows(w'.log, i, t, r);
    }
  }

  lemma SnapshotFollows(w: World, w': World, s: Snapshot)
    requires WorldOk(w) && WorldOk(w') && Follows(w, w') && SnapshotOk(w, s)
    ensures SnapshotOk(w', s)
  {
    FaithfulFollows(w, w', s.Rows(), s.baseAt, s.known, s.at);
    forall i, c: Counter | s.baseAt <= i < |w'.log| && w'.log[i].Advanced(c)
      ensures s.record[c] < w'.counters[c]
    {
    }
  }

  lemma ProcessFollows(w: World, w': World, snapshots: seq<Snapshot>, p: Process)
    requires WorldOk(w) && WorldOk(w') && Follows(w, w') && ProcessOk(w, snapshots, p)
    ensures ProcessOk(w', snapshots, p)
  {
    match p
    case Scanned(_, _, _, next) => SnapshotFollows(w, w', next);
    case Built(_, next) => SnapshotFollows(w, w', next);
    case Leased(_, lease, baseAt, known, at) => FaithfulFollows(w, w', lease, baseAt, known, at);
    case _ =>
  }

  lemma WorldActionKeepsInvariant(s: State, a: Action, s': State)
    requires Invariant(s) && WorldAction(s, a, s')
    ensures Invariant(s')
  {
    WorldActionFollows(s, a, s');
    forall i | 0 <= i < |s.snapshots|
      ensures SnapshotOk(s'.world, s.snapshots[i])
    {
      SnapshotFollows(s.world, s'.world, s.snapshots[i]);
    }
    forall p | p in s.processes
      ensures ProcessOk(s'.world, s.snapshots, s.processes[p])
    {
      ProcessFollows(s.world, s'.world, s.snapshots, s.processes[p]);
    }
    assert forall p :: At(s', p) == At(s, p);
  }

  // ----- readers and builders keep the invariant -----

  lemma AgreedCommitPrecedesBase(w: World, snap: Snapshot, finished: set<nat>, c: Counter, i: nat)
    requires WorldOk(w) && SnapshotOk(w, snap) && FinishedOk(w, finished)
    requires w.counters[c] == snap.record[c] && i in finished && c in w.log[i].duties
    ensures i < snap.baseAt
  {
    assert w.log[i].Advanced(c);
  }

  lemma AgreeKeepsProcess(s: State, p: nat, c: Counter, s': State)
    requires Invariant(s) && SearchAction(s, Agree(p, c), s')
    ensures ProcessOk(s.world, s.snapshots, At(s', p))
  {
    var me := At(s, p);
    assert ProcessOk(s.world, s.snapshots, me);
    forall i, d | i in me.finished && d in me.agreed + {c} && i < |s.world.log| && d in s.world.log[i].duties
      ensures i < s.snapshots[me.snap].baseAt
    {
      if d == c {
        AgreedCommitPrecedesBase(s.world, s.snapshots[me.snap], me.finished, c, i);
      }
    }
  }

  /** Rows read at one date and not followed yet. */
  lemma BaseIsFaithful(w: World, base: Tables, baseAt: nat)
    requires 1 <= baseAt <= |w.log| && base == w.log[baseAt - 1].after
    ensures Faithful(w.log, base, baseAt, base, baseAt)
  {
    forall t: Table, r | r in base.At(t)
      ensures Dated(w.log, t, r, baseAt, baseAt)
    {
      assert Shows(w.log, baseAt - 1, t, r);
    }
  }

  /** A snapshot whose counters all agreed reflects the finished commits it is meant to. */
  lemma TakeKeepsProcess(s: State, p: nat, s': State)
    requires Invariant(s) && SearchAction(s, Take(p), s')
    ensures ProcessOk(s.world, s.snapshots, At(s', p))
  {
    var me, w := At(s, p), s.world;
    assert ProcessOk(w, s.snapshots, me);
    var snap := s.snapshots[me.snap];
    assert SnapshotOk(w, snap);
    forall i | i in me.finished && (me.goal == CURRENT || w.log[i].IsDestructive())
      ensures i < snap.baseAt
    {
      if i >= 1 {
        assert CommitOk(w.log[i - 1].after, w.log[i]);
        var c :| c in me.goal && c in w.log[i].duties;
      }
    }
    if !snap.supportsDelta {
      BaseIsFaithful(w, snap.base, snap.baseAt);
    }
  }

  lemma ReadGenerationKeepsProcess(s: State, p: nat, s': State)
    requires Invariant(s) && CatchUpAction(s, ReadGeneration(p), s')
    ensures ProcessOk(s.world, s.snapshots, At(s', p))
  {
    var me, w := At(s, p), s.world;
    assert ProcessOk(w, s.snapshots, me);
    var snap := s.snapshots[me.snap];
    assert SnapshotOk(w, snap);
    forall i | i in me.finished && i >= snap.at
      ensures snap.synced < w.counters[Database]
    {
      assert CommitOk(w.log[i - 1].after, w.log[i]);
      assert w.log[i].Advanced(Database);
    }
  }

  /** An accepted scan of both tables reads the committed rows exactly when no known row is gone, and
      balances each table. */
  lemma FollowedIsExactIff(snap: Snapshot, committed: Tables, at: nat, generation: nat, vertexMark: nat, edgeMark: nat)
    requires Below(snap.Rows().vertices, snap.vertexMark) && Below(snap.Rows().edges, snap.edgeMark)
    requires ScanAccepted(snap, committed, vertexMark, edgeMark)
    ensures var next := Followed(snap, committed, at, generation, vertexMark, edgeMark);
      && (next.Rows() == committed <==> snap.Rows().Within(committed))
      && (forall t: Table :: Balanced(next.Rows().At(t), snap.Rows().At(t), committed.At(t)))
      && Below(next.Rows().vertices, vertexMark) && Below(next.Rows().edges, edgeMark)
  {
    var known := snap.Rows();
    var vertices := ScanTable(known.vertices, snap.vertexMark, committed.vertices).rows;
    var edges := ScanTable(known.edges, snap.edgeMark, committed.edges).rows;
    var next := Followed(snap, committed, at, generation, vertexMark, edgeMark);
    assert next.Rows().vertices == known.vertices + vertices;
    assert next.Rows().edges == known.edges + edges;
    AcceptedScanBalances(known.vertices, snap.vertexMark, committed.vertices);
    AcceptedScanBalances(known.edges, snap.edgeMark, committed.edges);
    MissingIsLost(next.Rows().vertices, known.vertices, committed.vertices);
    MissingIsLost(next.Rows().edges, known.edges, committed.edges);
    NextWatermarkBounds(known.vertices, snap.vertexMark, committed.vertices, vertexMark);
    NextWatermarkBounds(known.edges, snap.edgeMark, committed.edges, edgeMark);
  }

  /** A row that balances is committed now or was known before. */
  lemma RowIsDated(w: World, rows: set<Row<nat>>, known: set<Row<nat>>, t: Table, r: Row<nat>, baseAt: nat, before: nat)
    requires 1 <= baseAt <= before <= |w.log| && Balanced(rows, known, Committed(w).At(t)) && r in rows
    requires r in known ==> Dated(w.log, t, r, baseAt, before)
    ensures Dated(w.log, t, r, baseAt, |w.log|)
  {
    if r in Committed(w).At(t) {
      assert Shows(w.log, |w.log| - 1, t, r);
    } else {
      assert r in rows - Committed(w).At(t);
      var i: nat :| baseAt <= i + 1 <= before && Shows(w.log, i, t, r);
      assert i + 1 <= |w.log|;
    }
  }

  lemma NextIsFaithful(w: World, snap: Snapshot, next: Snapshot)
    requires WorldOk(w) && SnapshotOk(w, snap) && next.synced <= w.counters[Database]
    requires next.record == snap.record && next.base == snap.base && next.baseAt == snap.baseAt
    requires next.known == snap.Rows() && next.at == |w.log|
    requires forall t: Table :: Balanced(next.Rows().At(t), next.known.At(t), Committed(w).At(t))
    requires Below(next.Rows().vertices, next.vertexMark) && Below(next.Rows().edges, next.edgeMark)
    ensures SnapshotOk(w, next)
  {
    hide Dated, Balanced, Snapshot.Rows, Tables.At;
    forall t: Table, r | r in next.Rows().At(t)
      ensures Dated(w.log, t, r, next.baseAt, next.at)
    {
      RowIsDated(w, next.Rows().At(t), next.known.At(t), t, r, snap.baseAt, snap.at);
    }
  }

  lemma ScanIsFaithful(w: World, snap: Snapshot, generation: nat, vertexMark: nat, edgeMark: nat)
    requires WorldOk(w) && SnapshotOk(w, snap) && generation <= w.counters[Database]
    requires ScanAccepted(snap, Committed(w), vertexMark, edgeMark)
    ensures SnapshotOk(w, Followed(snap, Committed(w), |w.log|, generation, vertexMark, edgeMark))
  {
    FollowedIsExactIff(snap, Committed(w), |w.log|, generation, vertexMark, edgeMark);
    NextIsFaithful(w, snap, Followed(snap, Committed(w), |w.log|, generation, vertexMark, edgeMark));
  }

  /** A row that was there and is not any more was removed by a commit that announced it. */
  lemma {:induction false} RemovedByCommit(w: World, i: nat, k: nat, t: Table, r: Row<nat>) returns (m: nat)
    requires WorldOk(w) && i < k < |w.log| && Shows(w.log, i, t, r) && !Shows(w.log, k, t, r)
    ensures i < m <= k && Removes(w.log, m, t, r)
    decreases k
  {
    if Shows(w.log, k - 1, t, r) {
      assert CommitOk(w.log[k - 1].after, w.log[k]);
      m := k;
    } else {
      m := RemovedByCommit(w, i, k - 1, t, r);
    }
  }

  ghost predicate Removes(log: seq<Commit>, m: nat, t: Table, r: Row<nat>)
  {
    0 < m < |log| && log[m].MayRemove(t) && Shows(log, m - 1, t, r) && !Shows(log, m, t, r)
  }

  lemma OtherProcessesUnaffected(s: State, s': State, p: nat)
    requires Invariant(s) && s'.world == s.world && s'.snapshots == s.snapshots
    requires s'.processes == s.processes[p := At(s', p)]
    requires ProcessOk(s.world, s.snapshots, At(s', p))
    ensures forall q :: q in s'.processes ==> ProcessOk(s'.world, s'.snapshots, s'.processes[q])
    ensures forall q :: q != p ==> At(s', q) == At(s, q)
  {
  }

  /** Publishing a delta changes only what the holder of the catch-up lock may change. */
  lemma PublishDeltaKeepsProcesses(s: State, p: nat, s': State)
    requires Invariant(s) && StorageAction(s, PublishDelta(p), s')
    ensures forall q :: q in s'.processes ==> ProcessOk(s'.world, s'.snapshots, s'.processes[q])
  {
    var me := At(s, p);
    assert ProcessOk(s.world, s.snapshots, me);
    forall q | q in s'.processes
      ensures ProcessOk(s'.world, s'.snapshots, s'.processes[q])
    {
      if q != p {
        var other := s.processes[q];
        assert ProcessOk(s.world, s.snapshots, other) && At(s, q) == other;
        assert !HoldsCatchUpLock(other) by {
          assert HoldsCatchUpLock(At(s, p));
        }
        assert s'.snapshots[me.snap].baseAt == s.snapshots[me.snap].baseAt;
        assert s'.snapshots[me.snap].supportsDelta == s.snapshots[me.snap].supportsDelta;
      }
    }
  }

  lemma PublishBaseKeepsProcesses(s: State, p: nat, keep: set<nat>, s': State)
    requires Invariant(s) && StorageAction(s, PublishBase(p, keep), s')
    ensures forall q :: q in s'.processes ==> ProcessOk(s'.world, s'.snapshots, s'.processes[q])
  {
    assert ProcessOk(s.world, s.snapshots, At(s, p));
    forall q | q in s'.processes && q != p
      ensures ProcessOk(s'.world, s'.snapshots, s'.processes[q])
    {
      assert ProcessOk(s.world, s.snapshots, s.processes[q]);
    }
  }

  lemma ReadBaseIsFaithful(s: State, p: nat, supportsDelta: bool, vertexMark: nat, edgeMark: nat, s': State)
    requires Invariant(s) && BuildAction(s, ReadBase(p, supportsDelta, vertexMark, edgeMark), s')
    ensures ProcessOk(s.world, s.snapshots, At(s', p))
  {
    assert ProcessOk(s.world, s.snapshots, At(s, p));
    var next := At(s', p).next;
    assert next.Rows().vertices == next.base.vertices && next.Rows().edges == next.base.edges;
    assert next.Rows() == next.base;
    BaseIsFaithful(s.world, next.base, next.baseAt);
  }

  lemma ScanKeepsProcess(s: State, p: nat, vertexMark: nat, edgeMark: nat, s': State)
    requires Invariant(s) && CatchUpAction(s, Scan(p, vertexMark, edgeMark), s')
    ensures ProcessOk(s.world, s.snapshots, At(s', p))
  {
    assert ProcessOk(s.world, s.snapshots, At(s, p));
    ScanIsFaithful(s.world, s.snapshots[At(s, p).snap], At(s, p).generation, vertexMark, edgeMark);
  }

  lemma ReuseKeepsProcess(s: State, p: nat, s': State)
    requires Invariant(s) && CatchUpAction(s, Reuse(p), s')
    ensures ProcessOk(s.world, s.snapshots, At(s', p))
  {
    assert ProcessOk(s.world, s.snapshots, At(s, p));
    assert SnapshotOk(s.world, s.snapshots[At(s, p).snap]);
  }

  lemma SearchActionKeepsProcess(s: State, a: Action, s': State)
    requires Invariant(s) && SearchAction(s, a, s')
    ensures s' == s.(processes := s.processes[a.p := At(s', a.p)]) && ProcessOk(s.world, s.snapshots, At(s', a.p))
  {
    assert ProcessOk(s.world, s.snapshots, At(s, a.p));
    hide Invariant, SnapshotOk, LeaseOk, DestructivePrecede;
    match a
    case Agree(p, c) => AgreeKeepsProcess(s, p, c, s');
    case Take(p) => TakeKeepsProcess(s, p, s');
    case _ =>
  }

  lemma CatchUpActionKeepsProcess(s: State, a: Action, s': State)
    requires Invariant(s) && CatchUpAction(s, a, s')
    ensures s' == s.(catchUpLocked := s'.catchUpLocked, processes := s.processes[a.p := At(s', a.p)])
    ensures ProcessOk(s.world, s.snapshots, At(s', a.p))
  {
    assert ProcessOk(s.world, s.snapshots, At(s, a.p));
    hide Invariant, SnapshotOk, LeaseOk, DestructivePrecede;
    match a
    case ReadGeneration(p) => ReadGenerationKeepsProcess(s, p, s');
    case Reuse(p) => ReuseKeepsProcess(s, p, s');
    case Scan(p, vertexMark, edgeMark) => ScanKeepsProcess(s, p, vertexMark, edgeMark, s');
    case _ =>
  }

  lemma BuildActionKeepsProcess(s: State, a: Action, s': State)
    requires Invariant(s) && BuildAction(s, a, s')
    ensures s' == s.(buildInProgress := s'.buildInProgress, processes := s.processes[a.p := At(s', a.p)])
    ensures ProcessOk(s.world, s.snapshots, At(s', a.p))
  {
    assert ProcessOk(s.world, s.snapshots, At(s, a.p));
    hide Invariant, SnapshotOk, LeaseOk, DestructivePrecede;
    match a
    case ReadBase(p, supportsDelta, vertexMark, edgeMark) => ReadBaseIsFaithful(s, p, supportsDelta, vertexMark,
                                                                                edgeMark, s');
    case _ =>
  }

  /** A flag guards its section: whoever enters found it clear and set it, and only who leaves clears it. */
  ghost predicate Guarded(before: bool, after: bool, flag: bool, flag': bool)
  {
    && (after ==> flag' && (before || !flag))
    && (flag && !flag' ==> before && !after)
  }

  lemma LocksStayOk(s: State, s': State, p: nat)
    requires LocksOk(s) && (forall q :: q != p ==> At(s', q) == At(s, q))
    requires Guarded(HoldsCatchUpLock(At(s, p)), HoldsCatchUpLock(At(s', p)), s.catchUpLocked, s'.catchUpLocked)
    requires Guarded(IsBuilding(At(s, p)), IsBuilding(At(s', p)), s.buildInProgress, s'.buildInProgress)
    ensures LocksOk(s')
  {
  }

  lemma SearchActionGuards(s: State, a: Action, s': State)
    requires |s.world.log| > 0 && LocksOk(s) && SearchAction(s, a, s')
    ensures LocksOk(s')
  {
    LocksStayOk(s, s', a.p);
  }

  lemma CatchUpActionGuards(s: State, a: Action, s': State)
    requires |s.world.log| > 0 && LocksOk(s) && CatchUpAction(s, a, s')
    ensures LocksOk(s')
  {
    if a.Scan? {
      ScanGuards(s, a, s');
    } else {
      assert HoldsCatchUpLock(At(s, a.p)) ==> s.catchUpLocked;
      LocksStayOk(s, s', a.p);
    }
  }

  lemma ScanGuards(s: State, a: Action, s': State)
    requires |s.world.log| > 0 && LocksOk(s) && a.Scan? && CatchUpAction(s, a, s')
    ensures LocksOk(s')
  {
    assert HoldsCatchUpLock(At(s, a.p));
    LocksStayOk(s, s', a.p);
  }

  lemma BuildActionGuards(s: State, a: Action, s': State)
    requires |s.world.log| > 0 && LocksOk(s) && BuildAction(s, a, s')
    ensures LocksOk(s')
  {
    assert IsBuilding(At(s, a.p)) ==> s.buildInProgress;
    LocksStayOk(s, s', a.p);
  }

  lemma StorageActionGuards(s: State, a: Action, s': State)
    requires LocksOk(s) && StorageAction(s, a, s')
    ensures LocksOk(s')
  {
    if a.Unpublish? {
      assert forall q :: At(s', q) == At(s, q);
    } else {
      assert HoldsCatchUpLock(At(s, a.p)) ==> s.catchUpLocked;
      assert IsBuilding(At(s, a.p)) ==> s.buildInProgress;
      LocksStayOk(s, s', a.p);
    }
  }

  lemma StorageActionKeepsInvariant(s: State, a: Action, s': State)
    requires Invariant(s) && StorageAction(s, a, s')
    ensures Invariant(s')
  {
    StorageActionGuards(s, a, s');
    hide LocksOk;
    if !a.Unpublish? {
      assert ProcessOk(s.world, s.snapshots, At(s, a.p));
      if a.PublishDelta? {
        PublishDeltaKeepsProcesses(s, a.p, s');
      } else {
        PublishBaseKeepsProcesses(s, a.p, a.keep, s');
      }
    }
  }

  lemma SearchActionKeepsInvariant(s: State, a: Action, s': State)
    requires Invariant(s) && |s.world.log| > 0 && SearchAction(s, a, s')
    ensures Invariant(s')
  {
    SearchActionKeepsProcess(s, a, s');
    SearchActionGuards(s, a, s');
    OtherProcessesUnaffected(s, s', a.p);
  }

  lemma CatchUpActionKeepsInvariant(s: State, a: Action, s': State)
    requires Invariant(s) && |s.world.log| > 0 && CatchUpAction(s, a, s')
    ensures Invariant(s')
  {
    CatchUpActionKeepsProcess(s, a, s');
    CatchUpActionGuards(s, a, s');
    OtherProcessesUnaffected(s, s', a.p);
  }

  lemma BuildActionKeepsInvariant(s: State, a: Action, s': State)
    requires Invariant(s) && |s.world.log| > 0 && BuildAction(s, a, s')
    ensures Invariant(s')
  {
    BuildActionKeepsProcess(s, a, s');
    BuildActionGuards(s, a, s');
    OtherProcessesUnaffected(s, s', a.p);
  }

  lemma StepKeepsInvariant(s: State, a: Action, s': State)
    requires Invariant(s) && Step(s, a, s')
    ensures Invariant(s')
  {
    hide Invariant, WorldAction, StorageAction, SearchAction, CatchUpAction, BuildAction;
    if WorldAction(s, a, s') {
      WorldActionKeepsInvariant(s, a, s');
    } else if StorageAction(s, a, s') {
      StorageActionKeepsInvariant(s, a, s');
    } else if SearchAction(s, a, s') {
      SearchActionKeepsInvariant(s, a, s');
    } else if CatchUpAction(s, a, s') {
      CatchUpActionKeepsInvariant(s, a, s');
    } else {
      BuildActionKeepsInvariant(s, a, s');
    }
  }

  lemma InitialStateIsOk(s: State)
    requires Initial(s)
    ensures Invariant(s)
  {
  }

  lemma {:induction false} RunKeepsInvariant(states: seq<State>, actions: seq<Action>, i: nat)
    requires IsRun(states, actions) && i <= |actions|
    ensures Invariant(states[i])
  {
    hide Invariant, Step;
    if i == 0 {
      InitialStateIsOk(states[0]);
    } else {
      RunKeepsInvariant(states, actions, i - 1);
      StepKeepsInvariant(states[i - 1], actions[i - 1], states[i]);
    }
  }

  // ----- the results -----

  lemma ReachableStatesAreOk(s: State)
    requires Reachable(s)
    ensures Invariant(s)
  {
    var states, actions :| IsRun(states, actions) && states[|actions|] == s;
    RunKeepsInvariant(states, actions, |actions|);
  }

  /** In every run a lease is dated no earlier than any write whose hook had finished when the call
      began, and it is exactly the rows of its date if and only if no row that the snapshot already
      knew had been deleted or updated by then. */
  lemma LeaseIsExactIff(s: State, p: nat)
    requires Reachable(s) && At(s, p).Leased?
    ensures var l, log := At(s, p), s.world.log;
      && 1 <= l.at <= |log|
      && (forall w :: w in l.finished ==> w < l.at)
      && (l.lease == log[l.at - 1].after <==> l.known.Within(log[l.at - 1].after))
  {
    var l := At(s, p);
    var committed := LeasedTables(s, p);
    MissingIsLost(l.lease.vertices, l.known.vertices, committed.vertices);
    MissingIsLost(l.lease.edges, l.known.edges, committed.edges);
  }

  /** What the invariant says of a lease: the rows committed at its date, table by table. */
  lemma LeasedTables(s: State, p: nat) returns (committed: Tables)
    requires Reachable(s) && At(s, p).Leased?
    ensures var l := At(s, p);
      && WorldOk(s.world) && LeaseOk(s.world, l.finished, l.lease, l.baseAt, l.known, l.at)
      && committed == s.world.log[l.at - 1].after
      && Balanced(l.lease.vertices, l.known.vertices, committed.vertices)
      && Balanced(l.lease.edges, l.known.edges, committed.edges)
  {
    ReachableStatesAreOk(s);
    var l := At(s, p);
    assert ProcessOk(s.world, s.snapshots, l);
    committed := s.world.log[l.at - 1].after;
    assert Balanced(l.lease.At(VertexTable), l.known.At(VertexTable), committed.At(VertexTable));
    assert Balanced(l.lease.At(EdgeTable), l.known.At(EdgeTable), committed.At(EdgeTable));
  }

  /** In every run a lease shows no row later than it may: each row it shows was in its table after
      some commit no earlier than any destructive write whose hook had finished when the call began. */
  lemma NoFinishedDeleteIsShown(s: State, p: nat, t: Table, r: Row<nat>)
    requires Reachable(s) && At(s, p).Leased? && r in At(s, p).lease.At(t)
    ensures exists i: nat ::
      i < At(s, p).at && Shows(s.world.log, i, t, r) && FollowsDestructive(s.world.log, At(s, p).finished, i)
  {
    var l := At(s, p);
    var committed := LeasedTables(s, p);
    var i: nat :| l.baseAt <= i + 1 <= l.at && Shows(s.world.log, i, t, r);
    assert FollowsDestructive(s.world.log, l.finished, i);
  }

  /** No finished destructive write comes after this commit. */
  ghost predicate FollowsDestructive(log: seq<Commit>, finished: set<nat>, i: nat)
  {
    forall j :: j in finished && j < |log| && log[j].IsDestructive() ==> j <= i
  }

  /** A row that a finished write deleted or updated away, and that has not come back since, is not shown. */
  lemma DeletedRowIsNotShown(s: State, p: nat, t: Table, r: Row<nat>, j: nat)
    requires Reachable(s) && At(s, p).Leased? && j in At(s, p).finished && j < |s.world.log|
      && s.world.log[j].IsDestructive()
    requires forall i: nat :: j <= i < At(s, p).at ==> !Shows(s.world.log, i, t, r)
    ensures r !in At(s, p).lease.At(t)
  {
    if r in At(s, p).lease.At(t) {
      NoFinishedDeleteIsShown(s, p, t, r);
    }
  }

  /** Of each table a lease misses as many committed rows as known rows have gone: none exactly when none has. */
  lemma NothingIsMissingIff(s: State, p: nat, t: Table)
    requires Reachable(s) && At(s, p).Leased?
    ensures var l, log := At(s, p), s.world.log;
      && 1 <= l.at <= |log|
      && var committed := log[l.at - 1].after.At(t);
      && |committed - l.lease.At(t)| == |l.known.At(t) - committed|
      && (committed <= l.lease.At(t) <==> l.known.At(t) <= committed)
  {
    var l := At(s, p);
    var committed := LeasedTables(s, p);
    MissingIsLost(l.lease.At(t), l.known.At(t), committed.At(t));
  }

  /** The row is among those that a read of this date sees. */
  ghost predicate CommittedAt(log: seq<Commit>, at: nat, t: Table, r: Row<nat>)
  {
    0 < at <= |log| && r in log[at - 1].after.At(t)
  }

  /** Commit `m` deleted or updated a row that the snapshot knew, too late for the base and in time for the lease;
      its hook had not finished when the call began, and the row has not come back. */
  ghost predicate RacingDelete(log: seq<Commit>, l: Process, t: Table, m: nat, lost: Row<nat>)
    requires l.Leased?
  {
    && l.baseAt <= m < l.at && m !in l.finished && Removes(log, m, t, lost)
    && lost in l.known.At(t) && !CommittedAt(log, l.at, t, lost)
  }

  ghost predicate MissesRow(log: seq<Commit>, l: Process, t: Table, r: Row<nat>)
    requires l.Leased?
  {
    CommittedAt(log, l.at, t, r) && r !in l.lease.At(t)
  }

  /** If a lease misses a row, such as a finished insert, then a destructive write of the same table was in flight:
      it committed after the base was read and by the lease's date, removed a row that the snapshot knew, and its
      hook had not finished when the call began. */
  lemma MissingRowMeansRacingDelete(s: State, p: nat, t: Table, r: Row<nat>) returns (m: nat, lost: Row<nat>)
    requires Reachable(s) && At(s, p).Leased? && MissesRow(s.world.log, At(s, p), t, r)
    ensures RacingDelete(s.world.log, At(s, p), t, m, lost)
  {
    var l := At(s, p);
    var committed := LeasedTables(s, p);
    MissingIsLost(l.lease.At(t), l.known.At(t), committed.At(t));
    hide Reachable, WorldOk, LeaseOk, Balanced;
    lost :| lost in l.known.At(t) && lost !in committed.At(t);
    m := LostToRacingDelete(s.world, l.finished, l.lease, l.baseAt, l.known, l.at, t, lost);
  }

  /** A committed row is missing from a table of the lease if and only if some write in flight deleted or updated
      a known row of that table. */
  lemma RowIsMissingIffRacingDelete(s: State, p: nat, t: Table)
    requires Reachable(s) && At(s, p).Leased?
    ensures (exists r :: MissesRow(s.world.log, At(s, p), t, r)) <==>
            (exists m: nat, lost :: RacingDelete(s.world.log, At(s, p), t, m, lost))
  {
    NothingIsMissingIff(s, p, t);
    hide Reachable;
    var l, log := At(s, p), s.world.log;
    if r :| MissesRow(log, l, t, r) {
      var m, lost := MissingRowMeansRacingDelete(s, p, t, r);
    }
    if m: nat, lost :| RacingDelete(log, l, t, m, lost) {
      assert !(log[l.at - 1].after.At(t) <= l.lease.At(t));
      var r :| r in log[l.at - 1].after.At(t) && r !in l.lease.At(t);
      assert MissesRow(log, l, t, r);
    }
  }

  lemma LostToRacingDelete(w: World, finished: set<nat>, lease: Tables, baseAt: nat, known: Tables, at: nat, t: Table,
                           lost: Row<nat>)
    returns (m: nat)
    requires WorldOk(w) && LeaseOk(w, finished, lease, baseAt, known, at)
    requires lost in known.At(t) && lost !in w.log[at - 1].after.At(t)
    ensures baseAt <= m < at && m !in finished && Removes(w.log, m, t, lost)
  {
    assert Balanced(lease.At(t), known.At(t), w.log[at - 1].after.At(t));
    var i: nat :| baseAt <= i + 1 <= at && Shows(w.log, i, t, lost);
    m := RemovedByCommit(w, i, at - 1, t, lost);
    assert w.log[m].IsDestructive();
  }

  /** So a table is leased exactly when no destructive write of it was in flight: every one that had
      committed by the lease's date had also finished its hook when the call began. */
  lemma QuietTableIsExact(s: State, p: nat, t: Table)
    requires Reachable(s) && At(s, p).Leased?
    requires forall w :: 0 <= w < At(s, p).at && w < |s.world.log| && s.world.log[w].MayRemove(t) ==>
      w in At(s, p).finished
    ensures var l, log := At(s, p), s.world.log;
      1 <= l.at <= |log| && l.lease.At(t) == log[l.at - 1].after.At(t)
  {
    var l := At(s, p);
    var committed := LeasedTables(s, p);
    hide Reachable, WorldOk;
    QuietlyLeased(s.world, l.finished, l.lease, l.baseAt, l.known, l.at, t);
  }

  lemma QuietlyLeased(w: World, finished: set<nat>, lease: Tables, baseAt: nat, known: Tables, at: nat, t: Table)
    requires WorldOk(w) && LeaseOk(w, finished, lease, baseAt, known, at)
    requires forall m :: 0 <= m < at && m < |w.log| && w.log[m].MayRemove(t) ==> m in finished
    ensures lease.At(t) == w.log[at - 1].after.At(t)
  {
    var committed := w.log[at - 1].after.At(t);
    assert Balanced(lease.At(t), known.At(t), committed);
    MissingIsLost(lease.At(t), known.At(t), committed);
    hide WorldOk, LeaseOk, Balanced;
    if lost :| lost in known.At(t) && lost !in committed {
      var m := LostToRacingDelete(w, finished, lease, baseAt, known, at, t, lost);
    }
  }

  lemma QuietLeaseIsExact(s: State, p: nat)
    requires Reachable(s) && At(s, p).Leased?
    requires forall w :: 0 <= w < At(s, p).at && w < |s.world.log| && s.world.log[w].IsDestructive() ==>
      w in At(s, p).finished
    ensures var l, log := At(s, p), s.world.log;
      1 <= l.at <= |log| && l.lease == log[l.at - 1].after && (forall w :: w in l.finished ==> w < l.at)
  {
    LeaseIsExactIff(s, p);
    hide Reachable;
    QuietTableIsExact(s, p, VertexTable);
    QuietTableIsExact(s, p, EdgeTable);
  }

  /** At most one process builds at a time. */
  lemma OneBuildAtATime(s: State, p: nat, q: nat)
    requires Reachable(s) && IsBuilding(At(s, p)) && IsBuilding(At(s, q))
    ensures p == q
  {
    ReachableStatesAreOk(s);
  }

  // ----- a run in which a finished insert is missing -----

  function Counters(vertexWrites: nat, vertexDestructive: nat, database: nat): (m: map<Counter, nat>)
  {
    map[PreparedWrites := 0, Writes(VertexTable) := vertexWrites, Writes(EdgeTable) := 0,
        Destructive(VertexTable) := vertexDestructive, Destructive(EdgeTable) := 0, Database := database]
  }

  lemma CountersBump(v: nat, d: nat, g: nat)
    ensures forall c: Counter :: c in Counters(v, d, g)
    ensures Bump(Counters(v, d, g), Writes(VertexTable)) == Counters(v + 1, d, g)
    ensures Bump(Counters(v, d, g), Destructive(VertexTable)) == Counters(v, d + 1, g)
    ensures Bump(Counters(v, d, g), Database) == Counters(v, d, g + 1)
  {
    forall c: Counter
      ensures c in Counters(v, d, g)
    {
      match c
      case Writes(t) => assert t == VertexTable || t == EdgeTable;
      case Destructive(t) => assert t == VertexTable || t == EdgeTable;
      case _ =>
    }
  }

  const OLD_ROW: Row<nat> := Row(0, 0)
  const NEW_ROW: Row<nat> := Row(1, 0)

  function VertexRows(rows: set<Row<nat>>): Tables
  {
    Tables(rows, {})
  }

  /** One process in an otherwise idle system, with the given counters and commits. */
  function Alone(counters: map<Counter, nat>, log: seq<Commit>, transactions: map<nat, Transaction>,
                 snapshots: seq<Snapshot>,
                 published: set<nat>, p: Process): State
  {
    State(World(counters, log), transactions, snapshots, published, HoldsCatchUpLock(p), IsBuilding(p), map[0 := p])
  }

  const FIRST_COMMIT: Commit := Commit(VertexRows({OLD_ROW}), {}, {})

  const FIRST_SNAPSHOT: Snapshot :=
    Snapshot(Counters(0, 0, 0), true, VertexRows({OLD_ROW}), VertexRows({}), 1, 0, 0, 1, VertexRows({OLD_ROW}), 1)

  /** The only process, in the same system, at another point. */
  function Then(s: State, p: Process): State
  {
    Alone(s.world.counters, s.world.log, s.transactions, s.snapshots, s.published, p)
  }

  lemma Searches(s: State, a: Action, p: Process)
    requires Reachable(s) && |s.world.log| > 0 && SearchAction(s, a, Then(s, p))
    ensures Reachable(Then(s, p))
  {
    StepIsReachable(s, a, Then(s, p));
  }

  lemma CatchesUp(s: State, a: Action, p: Process)
    requires Reachable(s) && |s.world.log| > 0 && CatchUpAction(s, a, Then(s, p))
    ensures Reachable(Then(s, p))
  {
    StepIsReachable(s, a, Then(s, p));
  }

  lemma Builds(s: State, a: Action, p: Process)
    requires Reachable(s) && |s.world.log| > 0 && BuildAction(s, a, Then(s, p))
    ensures Reachable(Then(s, p))
  {
    StepIsReachable(s, a, Then(s, p));
  }

  lemma Stores(s: State, a: Action, s': State)
    requires Reachable(s) && |s.world.log| > 0 && StorageAction(s, a, s')
    ensures Reachable(s')
  {
    StepIsReachable(s, a, s');
  }

  lemma Writing(s: State, a: Action, s': State)
    requires Reachable(s) && |s.world.log| > 0 && WorldAction(s, a, s')
    ensures Reachable(s')
  {
    StepIsReachable(s, a, s');
  }

  function Unbuilt(p: Process): State
  {
    Alone(Counters(0, 0, 0), [FIRST_COMMIT], map[], [], {}, p)
  }

  const COUNTERS: seq<Counter> :=
    [PreparedWrites, Writes(VertexTable), Writes(EdgeTable), Destructive(VertexTable), Destructive(EdgeTable), Database]

  lemma RecordNext(record: map<Counter, nat>, c: Counter)
    requires Reachable(Unbuilt(Building({}, record))) && c !in record
    ensures Reachable(Unbuilt(Building({}, record[c := 0])))
  {
    CountersBump(0, 0, 0);
    Builds(Unbuilt(Building({}, record)), Record(0, c), Building({}, record[c := 0]));
  }

  lemma AllRecorded(record: map<Counter, nat>)
    requires forall c :: c in record <==> c in COUNTERS[..|COUNTERS|]
    requires forall c :: c in record ==> record[c] == 0
    ensures record == Counters(0, 0, 0)
  {
    CountersBump(0, 0, 0);
    forall c: Counter
      ensures c in record
    {
      assert c in COUNTERS[..|COUNTERS|] by {
        match c
        case Writes(t) => assert c == COUNTERS[if t == VertexTable then 1 else 2];
        case Destructive(t) => assert c == COUNTERS[if t == VertexTable then 3 else 4];
        case PreparedWrites => assert c == COUNTERS[0];
        case Database => assert c == COUNTERS[5];
      }
    }
    assert record == Counters(0, 0, 0);
  }

  lemma AfterStart()
    ensures Reachable(Unbuilt(Building({}, map[])))
  {
    CountersBump(0, 0, 0);
    InitialIsReachable(Unbuilt(Idle));
    Builds(Unbuilt(Idle), StartBuild(0), Building({}, map[]));
  }

  /** A build records the counters. */
  lemma AfterRecording()
    ensures Reachable(Unbuilt(Building({}, Counters(0, 0, 0))))
  {
    AfterStart();
    var record: map<Counter, nat> := map[];
    for i := 0 to |COUNTERS|
      invariant forall c :: c in record <==> c in COUNTERS[..i]
      invariant forall c :: c in record ==> record[c] == 0
      invariant Reachable(Unbuilt(Building({}, record)))
    {
      RecordNext(record, COUNTERS[i]);
      record := record[COUNTERS[i] := 0];
    }
    AllRecorded(record);
  }

  function Cached(log: seq<Commit>, counters: map<Counter, nat>, transactions: map<nat, Transaction>, p: Process): State
  {
    Alone(counters, log, transactions, [FIRST_SNAPSHOT], {0}, p)
  }

  function Fresh(p: Process): State
  {
    Cached([FIRST_COMMIT], Counters(0, 0, 0), map[], p)
  }

  /** It reads one vertex row. */
  lemma AfterReading()
    ensures Reachable(Unbuilt(Built({}, FIRST_SNAPSHOT)))
  {
    AfterRecording();
    CountersBump(0, 0, 0);
    assert NextWatermark(0, FIRST_COMMIT.after.vertices, 1);
    Builds(Unbuilt(Building({}, Counters(0, 0, 0))), ReadBase(0, true, 1, 0), Built({}, FIRST_SNAPSHOT));
  }

  /** It publishes. */
  lemma AfterPublishing()
    ensures Reachable(Fresh(Ending({})))
  {
    AfterReading();
    Stores(Unbuilt(Built({}, FIRST_SNAPSHOT)), PublishBase(0, {0}), Fresh(Ending({})));
  }

  lemma AfterEnding()
    ensures Reachable(Fresh(Finding({}, true)))
  {
    AfterPublishing();
    Builds(Fresh(Ending({})), EndBuild(0), Finding({}, true));
  }

  lemma AfterBuild()
    ensures Reachable(Fresh(Failed))
  {
    AfterEnding();
    Builds(Fresh(Finding({}, true)), Abandon(0), Failed);
  }

  const INSERT: Transaction := Transaction(map[VertexTable := true], false)
  const DELETE: Transaction := Transaction(map[VertexTable := false], false)
  const INSERT_DUTIES: set<Counter> := {Database, Writes(VertexTable)}
  const DELETE_DUTIES: set<Counter> := {Database, Writes(VertexTable), Destructive(VertexTable)}

  function Inserted(remaining: set<Counter>): Commit
  {
    Commit(VertexRows({OLD_ROW, NEW_ROW}), INSERT_DUTIES, remaining)
  }

  function Hooking(vertexWrites: nat, database: nat, remaining: set<Counter>): State
  {
    Cached([FIRST_COMMIT, Inserted(remaining)], Counters(vertexWrites, 0, database), map[], Failed)
  }

  /** An insert is planned. */
  lemma AfterInsertPlan()
    ensures Reachable(Cached([FIRST_COMMIT], Counters(1, 0, 0), map[1 := INSERT], Failed))
  {
    AfterBuild();
    CountersBump(0, 0, 0);
    Writing(Fresh(Failed), Plan(1, VertexTable, true),
            Cached([FIRST_COMMIT], Counters(1, 0, 0), map[1 := INSERT], Failed));
  }

  /** It commits. */
  lemma AfterInsert()
    ensures Reachable(Hooking(1, 0, INSERT_DUTIES))
  {
    AfterInsertPlan();
    var planned := Cached([FIRST_COMMIT], Counters(1, 0, 0), map[1 := INSERT], Failed);
    assert INSERT.Duties() == INSERT_DUTIES;
    assert planned.transactions - {1} == map[];
    Writing(planned, CommitRows(1, VertexRows({OLD_ROW, NEW_ROW})), Hooking(1, 0, INSERT_DUTIES));
  }

  lemma HookNext(vertexWrites: nat, database: nat, remaining: set<Counter>, c: Counter, s': State)
    requires Reachable(Hooking(vertexWrites, database, remaining)) && c in remaining
    requires s' == Hooking(if c == Database then vertexWrites else vertexWrites + 1,
                           if c == Database then database + 1 else database, remaining - {c})
    requires c == Database || c == Writes(VertexTable)
    ensures Reachable(s')
  {
    CountersBump(vertexWrites, 0, database);
    var s := Hooking(vertexWrites, database, remaining);
    assert s.world.log[1 := s.world.log[1].(remaining := remaining - {c})] == s'.world.log;
    Writing(s, Hook(1, c), s');
  }

  /** Its hook finishes. */
  lemma AfterHook()
    ensures Reachable(Hooking(2, 1, {}))
  {
    AfterInsert();
    HookNext(1, 0, INSERT_DUTIES, Writes(VertexTable), Hooking(2, 0, INSERT_DUTIES - {Writes(VertexTable)}));
    assert INSERT_DUTIES - {Writes(VertexTable)} - {Database} == {};
    HookNext(2, 0, INSERT_DUTIES - {Writes(VertexTable)}, Database, Hooking(2, 1, {}));
  }

  function Checking(p: Process): State
  {
    Cached([FIRST_COMMIT, Inserted({})], Counters(2, 0, 1), map[], p)
  }

  const BEFORE_CALL: set<nat> := {0, 1}

  /** A call begins. */
  lemma AfterBegin()
    ensures Reachable(Checking(Finding(BEFORE_CALL, false)))
  {
    AfterHook();
    assert FinishedCommits([FIRST_COMMIT, Inserted({})]) == BEFORE_CALL;
    Searches(Checking(Failed), Begin(0), Finding(BEFORE_CALL, false));
  }

  /** It picks the snapshot. */
  lemma AfterPick()
    ensures Reachable(Checking(Comparing(BEFORE_CALL, false, 0, CAN_CATCH_UP, {})))
  {
    AfterBegin();
    Searches(Checking(Finding(BEFORE_CALL, false)), Pick(0, 0, CAN_CATCH_UP),
             Comparing(BEFORE_CALL, false, 0, CAN_CATCH_UP, {}));
  }

  lemma AgreeNext(agreed: set<Counter>, c: Counter)
    requires Reachable(Checking(Comparing(BEFORE_CALL, false, 0, CAN_CATCH_UP, agreed))) && c in CAN_CATCH_UP
    ensures Reachable(Checking(Comparing(BEFORE_CALL, false, 0, CAN_CATCH_UP, agreed + {c})))
  {
    Searches(Checking(Comparing(BEFORE_CALL, false, 0, CAN_CATCH_UP, agreed)), Agree(0, c),
             Comparing(BEFORE_CALL, false, 0, CAN_CATCH_UP, agreed + {c}));
  }

  /** The call finds that a delta can follow the snapshot. */
  lemma AfterCheck()
    ensures Reachable(Checking(Located(BEFORE_CALL, false, 0)))
  {
    AfterPick();
    AgreeNext({}, PreparedWrites);
    AgreeNext({} + {PreparedWrites}, Destructive(VertexTable));
    AgreeNext({} + {PreparedWrites} + {Destructive(VertexTable)}, Destructive(EdgeTable));
    assert {} + {PreparedWrites} + {Destructive(VertexTable)} + {Destructive(EdgeTable)} == CAN_CATCH_UP;
    Searches(Checking(Comparing(BEFORE_CALL, false, 0, CAN_CATCH_UP, CAN_CATCH_UP)), Take(0),
             Located(BEFORE_CALL, false, 0));
  }

  const DELETED: Commit := Commit(VertexRows({NEW_ROW}), DELETE_DUTIES, DELETE_DUTIES)

  function Racing(p: Process): State
  {
    Cached([FIRST_COMMIT, Inserted({}), DELETED], Counters(3, 1, 1), map[], p)
  }

  function Deleting(p: Process): State
  {
    Cached([FIRST_COMMIT, Inserted({})], Counters(3, 1, 1), map[2 := DELETE], p)
  }

  /** A delete is planned after the check. */
  lemma AfterDeletePlan()
    ensures Reachable(Deleting(Located(BEFORE_CALL, false, 0)))
  {
    AfterCheck();
    CountersBump(2, 0, 1);
    CountersBump(3, 0, 1);
    Writing(Checking(Located(BEFORE_CALL, false, 0)), Plan(2, VertexTable, false),
            Deleting(Located(BEFORE_CALL, false, 0)));
  }

  /** It commits. */
  lemma AfterDelete()
    ensures Reachable(Racing(Located(BEFORE_CALL, false, 0)))
  {
    AfterDeletePlan();
    var reader := Located(BEFORE_CALL, false, 0);
    var planned := Deleting(reader);
    assert DELETE.Duties() == DELETE_DUTIES;
    assert planned.transactions - {2} == map[];
    Writing(planned, CommitRows(2, VertexRows({NEW_ROW})), Racing(reader));
  }

  /** The call takes the catch-up lock and reads the database generation. */
  lemma AfterLock()
    ensures Reachable(Racing(Syncing(BEFORE_CALL, false, 0, 1)))
  {
    AfterDelete();
    CatchesUp(Racing(Located(BEFORE_CALL, false, 0)), Lock(0), Locked(BEFORE_CALL, false, 0));
    CatchesUp(Racing(Locked(BEFORE_CALL, false, 0)), ReadGeneration(0), Syncing(BEFORE_CALL, false, 0, 1));
  }

  /** The count check passes without reading a row: one known row is gone and one row is new. */
  lemma CountsAgree()
    ensures ScanAccepted(FIRST_SNAPSHOT, DELETED.after, 1, 0)
    ensures Followed(FIRST_SNAPSHOT, DELETED.after, 3, 1, 1, 0) == FIRST_SNAPSHOT.(synced := 1, at := 3)
  {
    assert FIRST_SNAPSHOT.Rows() == VertexRows({OLD_ROW});
    assert ScanTable({OLD_ROW}, 1, {NEW_ROW}) == Scan.Inserted({});
    assert ScanTable<nat>({}, 0, {}) == Scan.Inserted({});
  }

  const MISSED: Snapshot := FIRST_SNAPSHOT.(synced := 1, at := 3)

  lemma AfterScan()
    ensures Reachable(Racing(Scanned(BEFORE_CALL, 0, 1, MISSED)))
  {
    AfterLock();
    CountsAgree();
    CatchesUp(Racing(Syncing(BEFORE_CALL, false, 0, 1)), Action.Scan(0, 1, 0), Scanned(BEFORE_CALL, 0, 1, MISSED));
  }

  /** Without the condition of `QuietLeaseIsExact` a lease can miss a finished insert: a delete that
      commits between the comparison of the counters and the scan hides it from the count check. */
  lemma RacingDeleteHidesFinishedInsert() returns (s: State)
    ensures Reachable(s) && At(s, 0).Leased? && |s.world.log| == 3 && 1 in At(s, 0).finished
    ensures NEW_ROW !in s.world.log[0].after.vertices
    ensures NEW_ROW in s.world.log[1].after.vertices && NEW_ROW in s.world.log[2].after.vertices
    ensures NEW_ROW !in At(s, 0).lease.vertices
  {
    AfterScan();
    s := Alone(Counters(3, 1, 1), [FIRST_COMMIT, Inserted({}), DELETED], map[], [MISSED], {0},
               Leased(BEFORE_CALL, VertexRows({OLD_ROW}), 1, VertexRows({OLD_ROW}), 3));
    assert MISSED.Rows() == VertexRows({OLD_ROW});
    Stores(Racing(Scanned(BEFORE_CALL, 0, 1, MISSED)), PublishDelta(0), s);
  }
}
