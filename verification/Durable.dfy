/**
 * The database on the log: opening in its stages, actions and their batches, compactions,
 * and a crash anywhere, opening included.
 */
module Durable {
  import opened ByteStrings
  import opened Utf8
  import opened Storage
  import opened Recovery
  import opened Paths
  import opened Keys
  import opened Namespace
  import opened Refinement
  import opened TreeModel
  import opened Runs
  import opened Walking
  import opened Rebuild
  import opened Databases

  /** The good database a directory holds, up to its index and version: what opening makes of it. */
  datatype Ground = Ground(store: Store, rows: Rows, tree: NsTree)

  /** How far `open` has come: the root row is there, the index is rebuilt, the database is usable. */
  datatype Stage = Closed | Rooted | Rebuilt | Ready

  /** What a commit is for. */
  datatype Move = MakeRoot | RestoreNext | Reindex | Stamp | Act(action: Action)

  /** `done` holds the actions that took effect or returned without one. */
  datatype Db = Db(st: State, stage: Stage, pending: Option<Move>, done: seq<Action>)

  datatype DbEvent =
    | Start(move: Move, ops: Batch)
    | Pass
    | Return(action: Action)
    | Storage(event: Event)

  const ROOT_BATCH: Batch := [Put(NodeKey(ROOT), DIR_NODE), Put(META_NEXT_ID, EncodeId(ROOT + 1)),
                              Put(TypeKey("directory", ROOT), ToUtf8(AsStr([])))]

  predicate Stamped(m: Store) {
    META_VERSION in m && m[META_VERSION] == Be(1, 8)
  }

  // ----- the steps -----

  /** The batch the action hands to `commit` when the store holds `m`. */
  predicate Writes(m: Store, a: Action, ops: Batch) {
    match a
    case Direct(op) => OpBatch(m, op) == Ok(ops)
    case Transaction(txn) => Transact(m, txn) == Ok(ApplyOps(m, ops))
  }

  /** The action fails, or has nothing to write. */
  predicate WritesNothing(m: Store, a: Action) {
    match a
    case Direct(op) => OpBatch(m, op).Err? || OpBatch(m, op) == Ok([])
    case Transaction(txn) => Transact(m, txn).Err? || Transact(m, txn) == Ok(m)
  }

  /** In this stage, with `m` in the store, the database commits `ops` for `move`. */
  ghost predicate Issues(g: Ground, m: Store, stage: Stage, move: Move, ops: Batch) {
    match move
    case MakeRoot => stage.Closed? && NodeKey(ROOT) !in m && ops == ROOT_BATCH
    case RestoreNext =>
      && stage.Closed? && NodeKey(ROOT) in m && META_NEXT_ID !in m
      && ops == [Put(META_NEXT_ID, EncodeId(ROOT + 1))]
    case Reindex =>
      && stage.Rooted? && !Stamped(m) && Readable(g.tree, g.tree.live.Keys)
      && ApplyOps(m, ops) == Versioned(g.store, m)
    case Stamp => stage.Rebuilt? && ops == [Put(META_VERSION, Be(1, 8))]
    case Act(a) => stage.Ready? && ActionOk(a) && Writes(m, a, ops)
  }

  function After(move: Move): Stage {
    match move
    case MakeRoot => Rooted
    case RestoreNext => Rooted
    case Reindex => Rebuilt
    case Stamp => Ready
    case Act(_) => Ready
  }

  function Acted(move: Option<Move>): seq<Action> {
    if move.Some? && move.value.Act? then [move.value.action] else []
  }

  /** Ids are left for the action: the counter of the database does not wrap. */
  predicate Room(g: Ground, done: seq<Action>) {
    g.tree.next + Cost(done) < U64
  }

  ghost predicate DbNext(g: Ground, d: Db, e: DbEvent, d': Db) {
    match e
    case Start(move, ops) =>
      && Issues(g, d.st.mem, d.stage, move, ops) && Room(g, d.done + Acted(Some(move)))
      && Next(d.st, Begin(ops), d'.st) && Sound(d.st, Begin(ops))
      && d' == d.(st := d'.st, pending := Some(move))
    case Pass =>
      && d.st.phase.Idle?
      && (|| (d.stage.Closed? && NodeKey(ROOT) in d.st.mem && META_NEXT_ID in d.st.mem && d' == d.(stage := Rooted))
          || (d.stage.Rooted? && Stamped(d.st.mem) && d' == d.(stage := Ready)))
    case Return(a) =>
      && d.st.phase.Idle? && d.stage.Ready? && ActionOk(a) && WritesNothing(d.st.mem, a)
      && Room(g, d.done + [a])
      && d' == d.(done := d.done + [a])
    case Storage(ev) =>
      && !ev.Begin? && Next(d.st, ev, d'.st) && Sound(d.st, ev)
      && d' == if ev.Acknowledge? && d.pending.Some? then
                 Db(d'.st, After(d.pending.value), None, d.done + Acted(d.pending))
               else if ev.Crash? then Db(d'.st, Closed, None, Settled(d))
               else d.(st := d'.st)
  }

  /** The actions whose effect is on disk. */
  function Settled(d: Db): seq<Action> {
    if Complete(d.st.phase) then d.done + Acted(d.pending) else d.done
  }

  /** A directory that is empty, or holds a database as `open` takes it: any index version, the counter perhaps lost. */
  ghost predicate DbInitial(g: Ground, d: Db) {
    && Initial(d.st) && d.stage.Closed? && d.pending.None? && d.done == []
    && Represents(g.store, g.rows, g.tree)
    && (Empty(g, d.st.mem) || Older(g, [], Repaired(d.st.mem)))
  }

  ghost predicate DbReaches(g: Ground, events: seq<DbEvent>, d: Db) {
    if events == [] then DbInitial(g, d) else
    var init, last := events[..|events| - 1], events[|events| - 1];
    exists prev: Db :: DbNext(g, prev, last, d) && DbReaches(g, init, prev)
  }

  // ----- the invariant -----

  predicate Empty(g: Ground, m: Store) {
    m == map[] && g.store == Opened()
  }

  /** Nothing done yet, and opening will make the good store of it. */
  ghost predicate Older(g: Ground, done: seq<Action>, m: Store) {
    done == [] && Upgradable(m, g.store, g.rows, g.tree)
  }

  ghost predicate Current(g: Ground, done: seq<Action>, m: Store) {
    m == Run(g.store, done)
  }

  ghost predicate Holds(g: Ground, stage: Stage, done: seq<Action>, m: Store) {
    match stage
    case Closed => (done == [] && Empty(g, m)) || Older(g, done, Repaired(m)) || Current(g, done, m)
    case Rooted => Older(g, done, m) || Current(g, done, m)
    case Rebuilt => Older(g, done, m) && m == Versioned(g.store, m)
    case Ready => Current(g, done, m)
  }

  ghost predicate Grounded(g: Ground, done: seq<Action>) {
    Represents(g.store, g.rows, g.tree) && Room(g, done) && forall a | a in done :: ActionOk(a)
  }

  /** An append in flight carries the batch of the pending move. */
  ghost predicate InFlight(g: Ground, d: Db) {
    d.st.phase.Appending? ==>
      && d.pending.Some? && Issues(g, d.st.mem, d.stage, d.pending.value, d.st.phase.ops)
      && Room(g, d.done + Acted(d.pending))
  }

  ghost predicate DbInv(g: Ground, d: Db) {
    Inv(d.st) && Grounded(g, d.done) && Holds(g, d.stage, d.done, d.st.mem) && InFlight(g, d)
  }

  // ----- rows that a good store always has -----

  lemma {:induction false} CurrentTree(g: Ground, done: seq<Action>) returns (rows: Rows, t: NsTree)
    requires Grounded(g, done)
    ensures Represents(Run(g.store, done), rows, t)
  {
    hide Represents;
    rows, t := RunRefines(g.store, g.rows, g.tree, done);
  }

  lemma {:induction false} SameSelf(s: Store)
    ensures SameOutside(s, s)
  {
  }

  lemma {:induction false} OlderRows(g: Ground, done: seq<Action>, m: Store)
    requires Older(g, done, m)
    ensures NodeKey(ROOT) in m && META_NEXT_ID in m && Repaired(m) == m
  {
    hide Represents, SameOutside, NodeKey;
    RootRow(m, g.store, g.rows, g.tree);
    CounterRow(m, g.store, g.rows, g.tree);
  }

  lemma {:induction false} CurrentRows(g: Ground, done: seq<Action>, m: Store)
    requires Grounded(g, done) && Current(g, done, m)
    ensures NodeKey(ROOT) in m && META_NEXT_ID in m && Repaired(m) == m && Stamped(m)
  {
    hide Represents, Run, SameOutside, NodeKey, Room, ActionOk;
    var rows, t := CurrentTree(g, done);
    SameSelf(m);
    RootRow(m, m, rows, t);
    CounterRow(m, m, rows, t);
    VersionRow(m, rows, t);
  }

  /** Once anything is there so is the root, and behind the first stage the counter. */
  lemma {:induction false} HeldRows(g: Ground, stage: Stage, done: seq<Action>, m: Store)
    requires Grounded(g, done) && Holds(g, stage, done, m)
    ensures m == map[] || NodeKey(ROOT) in m
    ensures stage.Closed? || META_NEXT_ID in m
    ensures Current(g, done, m) ==> META_NEXT_ID in m && Stamped(m)
  {
    hide Grounded, Upgradable, Run, NodeKey;
    if Current(g, done, m) {
      CurrentRows(g, done, m);
    } else if stage.Closed? && Older(g, done, Repaired(m)) {
      OlderRows(g, done, Repaired(m));
    } else if Older(g, done, m) {
      OlderRows(g, done, m);
    }
  }

  // ----- each move leads to its stage -----

  lemma {:induction false} RunNothing(s: Store)
    ensures Run(s, []) == s
  {
  }

  lemma {:induction false} RunSnoc(s: Store, actions: seq<Action>, a: Action)
    ensures Run(s, actions + [a]) == Perform(Run(s, actions), a)
    decreases actions
  {
    hide Perform;
    if actions == [] {
      assert actions + [a] == [a] && [a][1..] == [];
    } else {
      assert (actions + [a])[1..] == actions[1..] + [a];
      RunSnoc(Perform(s, actions[0]), actions[1..], a);
    }
  }

  lemma {:induction false} RootMade(g: Ground, done: seq<Action>, m: Store)
    requires Grounded(g, done) && Holds(g, Closed, done, m) && NodeKey(ROOT) !in m
    ensures Older(g, done, ApplyOps(m, ROOT_BATCH))
  {
    hide Represents, Run, SameOutside, NodeKey, TypeKey, Opened, ApplyOps, EncodeId, ToUtf8, AsStr;
    HeldRows(g, Closed, done, m);
    assert m == map[];
    NotCurrent(g, done);
    var rows := FreshUpgrades(ApplyOps(map[], ROOT_BATCH));
  }

  /** No run and no older database is the empty store. */
  lemma {:induction false} NotCurrent(g: Ground, done: seq<Action>)
    requires Grounded(g, done)
    ensures !Current(g, done, map[]) && !Older(g, done, Repaired(map[]))
  {
    hide Grounded, Upgradable, Run, NodeKey;
    var none: Store := map[];
    assert Repaired(none) == none;
    if Older(g, done, none) {
      OlderRows(g, done, none);
    }
    if Current(g, done, none) {
      CurrentRows(g, done, none);
    }
  }

  /** The counter is restarted only where that makes an older database. */
  lemma {:induction false} CounterRestored(g: Ground, done: seq<Action>, m: Store)
    requires Grounded(g, done) && Holds(g, Closed, done, m) && NodeKey(ROOT) in m && META_NEXT_ID !in m
    ensures Older(g, done, ApplyOps(m, [Put(META_NEXT_ID, EncodeId(ROOT + 1))]))
  {
    hide Grounded, Upgradable, Run, NodeKey, EncodeId, ApplyOps;
    HeldRows(g, Closed, done, m);
    Apply1(m, Put(META_NEXT_ID, EncodeId(ROOT + 1)));
  }

  lemma {:induction false} Reindexed(g: Ground, done: seq<Action>, m: Store)
    requires Grounded(g, done) && Holds(g, Rooted, done, m) && !Stamped(m)
    ensures Holds(g, Rebuilt, done, Versioned(g.store, m))
  {
    hide Represents, Run, Room, ActionOk;
    HeldRows(g, Rooted, done, m);
  }

  lemma {:induction false} Stamping(g: Ground, done: seq<Action>, m: Store)
    requires Grounded(g, done) && Holds(g, Rebuilt, done, m)
    ensures Current(g, done, ApplyOps(m, [Put(META_VERSION, Be(1, 8))]))
  {
    hide Represents, Run, Room, ActionOk, Versioned, SameOutside;
    Apply1(m, Put(META_VERSION, Be(1, 8)));
    Upgraded(m, g.store, g.rows, g.tree);
    RunNothing(g.store);
  }

  lemma {:induction false} WritesPerform(m: Store, a: Action, ops: Batch)
    requires Writes(m, a, ops)
    ensures Perform(m, a) == ApplyOps(m, ops)
  {
    hide OpBatch, Transact, ApplyOps;
  }

  lemma {:induction false} NothingPerformed(m: Store, a: Action)
    requires WritesNothing(m, a)
    ensures Perform(m, a) == m
  {
    hide OpBatch, Transact;
  }

  /** Whatever batch the database commits, its store is then as the next stage wants it. */
  lemma {:induction false} MoveHolds(g: Ground, stage: Stage, done: seq<Action>, m: Store, move: Move, ops: Batch)
    requires Grounded(g, done) && Holds(g, stage, done, m) && Issues(g, m, stage, move, ops)
    ensures Holds(g, After(move), done + Acted(Some(move)), ApplyOps(m, ops))
  {
    hide Represents, Run, SameOutside, NodeKey, Room, ActionOk, ApplyOps, Versioned, Upgradable, Stamped, Readable,
         ROOT_BATCH, Writes;
    HeldRows(g, stage, done, m);
    assert done + [] == done;
    match move
    case MakeRoot => RootMade(g, done, m);
    case RestoreNext => CounterRestored(g, done, m);
    case Reindex => Reindexed(g, done, m);
    case Stamp => Stamping(g, done, m);
    case Act(a) =>
      WritesPerform(m, a, ops);
      RunSnoc(g.store, done, a);
  }

  lemma {:induction false} HoldsClosed(g: Ground, stage: Stage, done: seq<Action>, m: Store)
    requires Holds(g, stage, done, m)
    ensures Holds(g, Closed, done, m)
  {
    hide Upgradable, Run, Repaired;
    if !stage.Closed? && Older(g, done, m) {
      OlderRows(g, done, m);
    }
  }

  lemma {:induction false} MoveGrounded(g: Ground, done: seq<Action>, m: Store, stage: Stage, move: Move, ops: Batch)
    requires Grounded(g, done) && Issues(g, m, stage, move, ops) && Room(g, done + Acted(Some(move)))
    ensures Grounded(g, done + Acted(Some(move)))
  {
    hide Represents, Room, ApplyOps, Versioned, Stamped, Readable, NodeKey, Writes;
  }

  // ----- every step keeps the invariant -----

  lemma {:induction false} StartKeeps(g: Ground, d: Db, e: DbEvent, d': Db)
    requires DbInv(g, d) && DbNext(g, d, e, d') && e.Start?
    ensures DbInv(g, d')
  {
    hide Inv, Sound, Grounded, Holds, Issues, Room;
    StepKeepsInv(d.st, Begin(e.ops), d'.st);
  }

  lemma {:induction false} PassHolds(g: Ground, stage: Stage, done: seq<Action>, m: Store)
    requires Holds(g, stage, done, m)
    ensures stage.Closed? && NodeKey(ROOT) in m && META_NEXT_ID in m ==> Holds(g, Rooted, done, m)
    ensures stage.Rooted? && Stamped(m) ==> Holds(g, Ready, done, m)
  {
    hide Represents, Run, SameOutside, NodeKey, Versioned;
    RunNothing(g.store);
  }

  lemma {:induction false} PassKeeps(g: Ground, d: Db, d': Db)
    requires DbInv(g, d) && DbNext(g, d, Pass, d')
    ensures DbInv(g, d')
  {
    hide Inv, Grounded, Holds, NodeKey, Issues, Stamped, Room;
    PassHolds(g, d.stage, d.done, d.st.mem);
  }

  lemma {:induction false} ReturnKeeps(g: Ground, d: Db, a: Action, d': Db)
    requires DbInv(g, d) && DbNext(g, d, Return(a), d')
    ensures DbInv(g, d')
  {
    hide Inv, Represents, Run, Room, ActionOk, Issues, WritesNothing, Perform, Upgradable, Versioned;
    NothingPerformed(d.st.mem, a);
    RunSnoc(g.store, d.done, a);
  }

  /** What the storage holds after the step, as the database sees it. */
  lemma {:induction false} StorageMem(d: Db, ev: Event, st': State)
    requires Inv(d.st) && !ev.Begin? && Next(d.st, ev, st') && Sound(d.st, ev)
    ensures ev.Acknowledge? ==> Complete(d.st.phase) && st'.phase.Idle? && st'.mem == ApplyOps(d.st.mem, d.st.phase.ops)
    ensures ev.Crash? ==> st'.phase.Idle?
    ensures ev.Crash? ==>
              st'.mem == if Complete(d.st.phase) then ApplyOps(d.st.mem, d.st.phase.ops) else d.st.mem
    ensures !ev.Acknowledge? && !ev.Crash? ==> st'.mem == d.st.mem
    ensures !ev.Acknowledge? && !ev.Crash? && st'.phase.Appending? ==>
              d.st.phase.Appending? && st'.phase.ops == d.st.phase.ops
  {
    hide Inv, ApplyOps, Recover, Fold, Whole;
    MemIsFold(d.st);
    InvRecovers(d.st);
  }

  lemma {:induction false} StorageKeeps(g: Ground, d: Db, ev: Event, d': Db)
    requires DbInv(g, d) && DbNext(g, d, Storage(ev), d')
    ensures DbInv(g, d')
  {
    hide Inv, Sound, Next, Grounded, Holds, Issues, Room, ApplyOps;
    StepKeepsInv(d.st, ev, d'.st);
    StorageMem(d, ev, d'.st);
    HoldsClosed(g, d.stage, d.done, d.st.mem);
    if d.st.phase.Appending? {
      var move, ops := d.pending.value, d.st.phase.ops;
      MoveHolds(g, d.stage, d.done, d.st.mem, move, ops);
      MoveGrounded(g, d.done, d.st.mem, d.stage, move, ops);
      HoldsClosed(g, After(move), d.done + Acted(Some(move)), ApplyOps(d.st.mem, ops));
    }
  }

  lemma {:induction false} DbStepKeeps(g: Ground, d: Db, e: DbEvent, d': Db)
    requires DbInv(g, d) && DbNext(g, d, e, d')
    ensures DbInv(g, d')
  {
    hide DbInv, DbNext;
    match e
    case Start(_, _) => StartKeeps(g, d, e, d');
    case Pass => PassKeeps(g, d, d');
    case Return(a) => ReturnKeeps(g, d, a, d');
    case Storage(ev) => StorageKeeps(g, d, ev, d');
  }

  lemma {:induction false} DbReachableInv(g: Ground, events: seq<DbEvent>, d: Db)
    requires DbReaches(g, events, d)
    ensures DbInv(g, d)
    decreases |events|
  {
    hide DbInv, DbNext, DbInitial;
    if events == [] {
      DbInitialInv(g, d);
    } else {
      var init, last := events[..|events| - 1], events[|events| - 1];
      var prev: Db :| DbNext(g, prev, last, d) && DbReaches(g, init, prev);
      DbReachableInv(g, init, prev);
      DbStepKeeps(g, prev, last, d);
    }
  }

  lemma {:induction false} DbInitialInv(g: Ground, d: Db)
    requires DbInitial(g, d)
    ensures DbInv(g, d)
  {
    hide Initial, Inv, Represents, Upgradable;
    InitialInv(d.st);
    assert d.st.phase.Idle? by { IdleAtFirst(d.st); }
  }

  lemma {:induction false} IdleAtFirst(s: State)
    requires Initial(s)
    ensures s.phase.Idle?
  {
  }

  // ----- what a crash leaves -----

  lemma {:induction false} CurrentUpgrades(s: Store, rows: Rows, t: NsTree)
    requires Represents(s, rows, t)
    ensures Upgradable(s, s, rows, t)
  {
    SameSelf(s);
  }

  lemma {:induction false} ClosedOpens(g: Ground, done: seq<Action>, m: Store) returns (rows: Rows, t: NsTree)
    requires Grounded(g, done) && Holds(g, Closed, done, m)
    ensures Represents(Run(g.store, done), rows, t)
    ensures if m == map[] then Run(g.store, done) == Opened()
            else Upgradable(Repaired(m), Run(g.store, done), rows, t)
    ensures Current(g, done, m) ==> Repaired(m) == m
  {
    hide Represents, Run, Upgradable, Opened, Room, ActionOk, Repaired, NodeKey;
    RunNothing(g.store);
    NotCurrent(g, done);
    if Current(g, done, m) {
      rows, t := CurrentTree(g, done);
      CurrentRows(g, done, m);
      CurrentUpgrades(m, rows, t);
    } else {
      rows, t := g.rows, g.tree;
    }
  }

  /**
   * In any run of the database on the log, crashes anywhere, the files are good: they load,
   * as the empty store or as one that opening turns into exactly the store after the actions
   * that took effect, which represents a tree, index and all. Those are the acknowledged
   * actions and, if its record is complete, the one in flight; never part of one.
   */
  lemma {:induction false} CrashKeepsTree(g: Ground, events: seq<DbEvent>, d: Db)
    returns (m: Store, rows: Rows, t: NsTree)
    requires DbReaches(g, events, d)
    ensures Recover(d.st.disk) == Some(m)
    ensures Represents(Run(g.store, Settled(d)), rows, t)
    ensures if m == map[] then Run(g.store, Settled(d)) == Opened()
            else Upgradable(Repaired(m), Run(g.store, Settled(d)), rows, t)
    ensures d.stage.Ready? ==> Repaired(m) == m == Run(g.store, Settled(d))
  {
    hide DbReaches, Inv, Recover, Represents, Run, Upgradable, Opened, Grounded, Holds, Issues, Room, Fold, ApplyOps,
         Repaired;
    DbReachableInv(g, events, d);
    InvRecovers(d.st);
    MemIsFold(d.st);
    m := d.st.mem;
    if Complete(d.st.phase) {
      var move, ops := d.pending.value, d.st.phase.ops;
      MoveHolds(g, d.stage, d.done, m, move, ops);
      MoveGrounded(g, d.done, m, d.stage, move, ops);
      ReadyNext(g, d.stage, d.done, m, move, ops);
      m := ApplyOps(m, ops);
      HoldsClosed(g, After(move), Settled(d), m);
    } else {
      HoldsClosed(g, d.stage, d.done, m);
      ReadyHolds(g, d.stage, d.done, m);
    }
    rows, t := ClosedOpens(g, Settled(d), m);
  }

  lemma {:induction false} ReadyHolds(g: Ground, stage: Stage, done: seq<Action>, m: Store)
    requires Holds(g, stage, done, m)
    ensures stage.Ready? ==> m == Run(g.store, done)
  {
  }

  lemma {:induction false} ReadyNext(g: Ground, stage: Stage, done: seq<Action>, m: Store, move: Move, ops: Batch)
    requires Issues(g, m, stage, move, ops) && Holds(g, After(move), done + Acted(Some(move)), ApplyOps(m, ops))
    ensures stage.Ready? ==> ApplyOps(m, ops) == Run(g.store, done + Acted(Some(move)))
  {
    hide ApplyOps, Run, Writes;
  }

  /** Opening what a crash left gives the store after the settled actions. */
  method Reopen(ghost g: Ground, ghost events: seq<DbEvent>, ghost d: Db, store: MemoryStorage)
    returns (r: Result<Database, NsError>)
    requires DbReaches(g, events, d) && Recover(d.st.disk) == Some(store.data)
    modifies store
    ensures r.Ok? ==> r.value.store == store && store.data == Run(g.store, Settled(d))
    ensures r.Err? ==> store.data == Repaired(old(store.data))
    ensures d.stage.Ready? ==> r.Ok?
  {
    hide DbReaches, Recover, Represents, Run, Upgradable, Opened, Readable, Repaired;
    ghost var m, rows, t := CrashKeepsTree(g, events, d);
    r := Database.Open(store, Run(g.store, Settled(d)), rows, t);
  }
}
