/**
 * Commits, compactions and crashes as a step machine over what is on disk. A crash may
 * fall between any two steps and after any byte of an append. Rename and truncation are
 * taken to be atomic and in program order.
 */
module Recovery {
  import opened ByteStrings
  import opened Storage
  import opened Wal
  import opened WalProofs

  datatype Disk = Disk(checkpoint: Option<Bytes>, log: Bytes)

  /** What `open` reads back; `None` when it refuses the files. */
  function Recover(d: Disk): Option<Store> {
    match d.checkpoint
    case None => Replay(d.log, map[])
    case Some(file) =>
      match LoadCheckpoint(file)
      case None => None
      case Some((m, offset)) => if offset > |d.log| then None else Replay(d.log[offset..], m)
  }

  datatype Phase =
    | Idle
    | Appending(ops: Batch, written: nat)
    | Compacting   // the temporary checkpoint file is being written
    | Renamed      // the new checkpoint is in place, the log not yet truncated

  /**
   * `origin` is the map the run started with; `history` holds the batches acknowledged
   * since, or found complete on reopening.
   */
  datatype State = State(disk: Disk, mem: Store, origin: Store, history: seq<Batch>, phase: Phase)

  datatype Event =
    | Begin(ops: Batch)
    | Write(n: nat)
    | Acknowledge
    | StartCompaction
    | Rename
    | Truncate
    | Crash

  /** Only whole records, so the next append starts where replay ends. */
  ghost predicate Whole(log: Bytes) {
    exists batches: seq<Batch> :: AllFit(batches) && log == Log(batches)
  }

  /** A checkpoint with offset 0, all that `compact` ever writes, or none, and a log of whole records, just opened. */
  ghost predicate Initial(s: State) {
    && s.phase.Idle? && s.history == [] && s.mem == s.origin
    && Whole(s.disk.log) && exists base: Store :: Base(s.disk, base) && Recover(s.disk) == Some(s.mem)
  }

  /** Whether the append in flight has reached the disk in full. */
  predicate Complete(p: Phase) {
    p.Appending? && p.written == |Record(p.ops)|
  }

  ghost predicate Next(s: State, e: Event, t: State) {
    match e
    case Begin(ops) =>
      && s.phase.Idle? && ops != []
      && t == s.(phase := Appending(ops, 0))
    case Write(n) =>
      && s.phase.Appending? && s.phase.written + n <= |Record(s.phase.ops)|
      && var done := s.phase.written + n;
         t == s.(disk := s.disk.(log := s.disk.log + Record(s.phase.ops)[s.phase.written..done]),
                 phase := s.phase.(written := done))
    case Acknowledge =>
      && Complete(s.phase)
      && t == s.(mem := ApplyOps(s.mem, s.phase.ops), history := s.history + [s.phase.ops], phase := Idle)
    case StartCompaction => s.phase.Idle? && t == s.(phase := Compacting)
    case Rename =>
      && s.phase.Compacting?
      && t == s.(disk := s.disk.(checkpoint := Some(Checkpoint(s.mem, 0))), phase := Renamed)
    case Truncate =>
      && s.phase.Renamed?
      && t == s.(disk := s.disk.(log := []), phase := Idle)
    case Crash =>
      && Recover(s.disk).Some?
      && t == State(s.disk, Recover(s.disk).value, s.origin,
                    if Complete(s.phase) then s.history + [s.phase.ops] else s.history, Idle)
  }

  /**
   * What keeps a step from losing data: the lengths written fit their 32 bits, and an
   * append starts behind whole records. None of it is checked by the code; each part is
   * necessary, by `CompactionKeepsIff`, `RecordRoundTripIff` and `AppendsSafelyIff`.
   */
  ghost predicate Sound(s: State, e: Event) {
    && (e.Begin? ==> Fits(e.ops) && Whole(s.disk.log))
    && (e.Rename? ==> StoreFits(s.mem))
  }

  /** `s` is reached by the given events, all of them sound. */
  ghost predicate Reaches(events: seq<Event>, s: State) {
    if events == [] then Initial(s) else
    var init, last := events[..|events| - 1], events[|events| - 1];
    exists prev: State :: Next(prev, last, s) && Sound(prev, last) && Reaches(init, prev)
  }

  function Fold(origin: Store, history: seq<Batch>): Store {
    ApplyAll(origin, history)
  }

  // ----- the invariant -----

  /** The map replay starts from. */
  predicate Base(d: Disk, base: Store) {
    match d.checkpoint
    case None => base == map[]
    case Some(file) => LoadCheckpoint(file) == Some((base, 0))
  }

  lemma {:induction false} RecoverBase(d: Disk, base: Store)
    requires Base(d, base)
    ensures Recover(d) == Replay(d.log, base)
  {
    assert d.log[0..] == d.log;
  }

  /** The log is `batches` and then `tail`; replaying the batches over `base` gives the history. */
  ghost predicate Explains(s: State, base: Store, batches: seq<Batch>, tail: Bytes) {
    && Base(s.disk, base) && AllFit(batches)
    && s.disk.log == Log(batches) + tail
    && ApplyAll(base, batches) == Fold(s.origin, s.history) == s.mem
    && (match s.phase
        case Appending(ops, written) =>
          Fits(ops) && written <= |Record(ops)| && tail == Record(ops)[..written]
        case Compacting => Torn(tail)
        case Idle => Torn(tail)
        case Renamed => Torn(tail) && base == s.mem)
  }

  ghost predicate Inv(s: State) {
    exists base: Store, batches: seq<Batch>, tail: Bytes :: Explains(s, base, batches, tail)
  }

  /** What reopening returns: the history, plus the whole batch in flight if it got there. */
  ghost predicate Recovers(s: State) {
    Recover(s.disk) == Some(if Complete(s.phase) then ApplyOps(Fold(s.origin, s.history), s.phase.ops)
                            else Fold(s.origin, s.history))
  }

  lemma {:induction false} CompleteReplays(base: Store, batches: seq<Batch>, ops: Batch)
    requires AllFit(batches) && Fits(ops)
    ensures Replay(Log(batches) + Record(ops), base) == Some(ApplyOps(ApplyAll(base, batches), ops))
  {
    ReplayLog(batches, Record(ops), base);
    assert Record(ops) + [] == Record(ops);
    ReplayRecord(ops, [], ApplyAll(base, batches));
  }

  lemma {:induction false} PartialIsTorn(ops: Batch, n: nat)
    requires Fits(ops) && n < |Record(ops)|
    ensures Torn(Record(ops)[..n])
  {
    assert |Record(ops)[..n]| == n;
  }

  lemma {:induction false} ExplainedRecovers(s: State, base: Store, batches: seq<Batch>, tail: Bytes)
    requires Explains(s, base, batches, tail)
    ensures Recovers(s)
  {
    RecoverBase(s.disk, base);
    if Complete(s.phase) {
      assert tail == Record(s.phase.ops);
      CompleteReplays(base, batches, s.phase.ops);
    } else {
      if s.phase.Appending? {
        PartialIsTorn(s.phase.ops, s.phase.written);
      }
      ReplayTornLog(batches, tail, base);
    }
  }

  lemma {:induction false} FoldSnoc(origin: Store, history: seq<Batch>, ops: Batch)
    ensures Fold(origin, history + [ops]) == ApplyOps(Fold(origin, history), ops)
  {
    ApplyAllConcat(origin, history, [ops]);
  }

  lemma {:induction false} LogSnoc(batches: seq<Batch>, ops: Batch)
    ensures Log(batches + [ops]) == Log(batches) + Record(ops)
  {
    LogConcat(batches, [ops]);
    assert Log([ops]) == Record(ops) + Log([]);
  }

  /** Completing the append makes its record one more whole record of the log. */
  lemma {:induction false} ExplainsAppended(s: State, base: Store, batches: seq<Batch>, tail: Bytes, t: State)
    requires Explains(s, base, batches, tail) && Complete(s.phase)
    requires t.disk == s.disk && t.phase == Idle && t.history == s.history + [s.phase.ops]
    requires t.mem == ApplyOps(s.mem, s.phase.ops) && t.origin == s.origin
    ensures Explains(t, base, batches + [s.phase.ops], [])
  {
    hide Record, Log, ApplyOps, StoreFits, LoadCheckpoint;
    var ops := s.phase.ops;
    assert tail == Record(ops);
    LogSnoc(batches, ops);
    assert t.disk.log == Log(batches + [ops]) + [];
    ApplyAllConcat(base, batches, [ops]);
    FoldSnoc(s.origin, s.history, ops);
  }

  /** A log of whole records can be described without a tail. */
  lemma {:induction false} ExplainsWhole(s: State, base: Store, batches: seq<Batch>,
      tail: Bytes) returns (batches': seq<Batch>)
    requires Explains(s, base, batches, tail) && s.phase.Idle? && Whole(s.disk.log)
    ensures Explains(s, base, batches', [])
  {
    batches' :| AllFit(batches') && s.disk.log == Log(batches');
    assert s.disk.log == Log(batches') + [];
    ReplayTornLog(batches, tail, base);
    ReplayTornLog(batches', [], base);
  }

  lemma {:induction false} ExplainsBegun(s: State, base: Store, batches: seq<Batch>, ops: Batch, t: State)
    requires Explains(s, base, batches, []) && Next(s, Begin(ops), t) && Fits(ops)
    ensures Explains(t, base, batches, [])
  {
  }

  lemma {:induction false} WrittenLog(batches: seq<Batch>, rec: Bytes, i: nat, j: nat)
    requires i <= j <= |rec|
    ensures Log(batches) + rec[..i] + rec[i..j] == Log(batches) + rec[..j]
  {
    assert rec[..i] + rec[i..j] == rec[..j];
  }

  lemma {:induction false} ExplainsWritten(s: State, base: Store, batches: seq<Batch>, tail: Bytes, n: nat, t: State)
    requires Explains(s, base, batches, tail) && Next(s, Write(n), t)
    ensures Explains(t, base, batches, Record(s.phase.ops)[..t.phase.written])
  {
    hide Record, Log, ApplyAll, Torn, StoreFits;
    ghost var rec := Record(s.phase.ops);
    WrittenLog(batches, rec, s.phase.written, t.phase.written);
    ExplainsLonger(s, base, batches, tail, t.phase.written, t);
  }

  lemma {:induction false} ExplainsLonger(s: State, base: Store, batches: seq<Batch>, tail: Bytes, j: nat, t: State)
    requires Explains(s, base, batches, tail) && s.phase.Appending? && j <= |Record(s.phase.ops)|
    requires t.phase == Appending(s.phase.ops, j) && t.mem == s.mem && t.history == s.history && t.origin == s.origin
    requires t.disk.checkpoint == s.disk.checkpoint && t.disk.log == Log(batches) + Record(s.phase.ops)[..j]
    ensures Explains(t, base, batches, Record(s.phase.ops)[..j])
  {
  }

  lemma {:induction false} StepKeepsInv(s: State, e: Event, t: State)
    requires Inv(s) && Next(s, e, t) && Sound(s, e)
    ensures Inv(t)
  {
    var base, batches, tail :| Explains(s, base, batches, tail);
    if e.Begin? {
      var batches' := ExplainsWhole(s, base, batches, tail);
      ExplainsBegun(s, base, batches', e.ops, t);
    } else if e.Write? {
      ExplainsWritten(s, base, batches, tail, e.n, t);
    } else if e.Acknowledge? {
      ExplainsAppended(s, base, batches, tail, t);
    } else if e.Crash? {
      CrashKeepsInv(s, base, batches, tail, t);
    } else {
      CompactionKeepsInv(s, base, batches, tail, e, t);
    }
  }

  /** The old log is replayed over the checkpoint that already contains it. */
  lemma {:induction false} ExplainsRenamed(s: State, base: Store, batches: seq<Batch>, tail: Bytes, t: State)
    requires Explains(s, base, batches, tail) && Next(s, Rename, t) && StoreFits(s.mem)
    ensures Explains(t, s.mem, batches, tail)
  {
    ApplyAllIdempotent(base, batches);
    CheckpointRoundTrip(s.mem, 0);
  }

  lemma {:induction false} ExplainsTruncated(s: State, base: Store, batches: seq<Batch>, tail: Bytes, t: State)
    requires Explains(s, base, batches, tail) && Next(s, Truncate, t)
    ensures Explains(t, base, [], [])
  {
    hide Record, StoreFits, LoadCheckpoint;
  }

  lemma {:induction false} CompactionKeepsInv(s: State, base: Store, batches: seq<Batch>, tail: Bytes, e: Event,
      t: State)
    requires Explains(s, base, batches, tail) && Next(s, e, t)
    requires e.StartCompaction? || (e.Rename? && StoreFits(s.mem)) || e.Truncate?
    ensures Inv(t)
  {
    if e.StartCompaction? {
      assert Explains(t, base, batches, tail);
    } else if e.Rename? {
      ExplainsRenamed(s, base, batches, tail, t);
    } else {
      ExplainsTruncated(s, base, batches, tail, t);
    }
  }

  lemma {:induction false} PartialTail(s: State, base: Store, batches: seq<Batch>, tail: Bytes)
    requires Explains(s, base, batches, tail) && !Complete(s.phase)
    ensures Torn(tail)
  {
    if s.phase.Appending? {
      PartialIsTorn(s.phase.ops, s.phase.written);
    }
  }

  lemma {:induction false} ExplainsReopened(s: State, base: Store, batches: seq<Batch>, tail: Bytes, t: State)
    requires Explains(s, base, batches, tail) && Torn(tail)
    requires t == State(s.disk, s.mem, s.origin, s.history, Idle)
    ensures Explains(t, base, batches, tail)
  {
  }

  lemma {:induction false} CrashKeepsInv(s: State, base: Store, batches: seq<Batch>, tail: Bytes, t: State)
    requires Explains(s, base, batches, tail) && Next(s, Crash, t)
    ensures Inv(t)
  {
    hide Record, Log, ApplyAll, ApplyOps, Replay, LoadCheckpoint;
    ExplainedRecovers(s, base, batches, tail);
    if Complete(s.phase) {
      ExplainsAppended(s, base, batches, tail, t);
    } else {
      PartialTail(s, base, batches, tail);
      ExplainsReopened(s, base, batches, tail, t);
    }
  }

  lemma {:induction false} InitialInv(s: State)
    requires Initial(s)
    ensures Inv(s)
  {
    var base: Store :| Base(s.disk, base);
    var batches: seq<Batch> :| AllFit(batches) && s.disk.log == Log(batches);
    assert s.disk.log == Log(batches) + [];
    RecoverBase(s.disk, base);
    ReplayTornLog(batches, [], base);
    assert Explains(s, base, batches, []);
  }

  lemma {:induction false} InvRecovers(s: State)
    requires Inv(s)
    ensures Recovers(s)
  {
    var base, batches, tail :| Explains(s, base, batches, tail);
    ExplainedRecovers(s, base, batches, tail);
  }

  lemma {:induction false} ReachableInv(events: seq<Event>, s: State)
    requires Reaches(events, s)
    ensures Inv(s)
  {
    if events == [] {
      InitialInv(s);
    } else {
      var init, last := events[..|events| - 1], events[|events| - 1];
      var prev: State :| Reaches(init, prev) && Next(prev, last, s) && Sound(prev, last);
      ReachableInv(init, prev);
      StepKeepsInv(prev, last, s);
    }
  }

  /**
   * Every sound run, crashes included: in every state, reopening yields exactly the fold of
   * the acknowledged batches over the map it started with, or that plus the whole batch in
   * flight.
   */
  lemma {:induction false} RunRecovers(events: seq<Event>, s: State)
    requires Reaches(events, s)
    ensures Recovers(s)
  {
    ReachableInv(events, s);
    InvRecovers(s);
  }

  /** Reopening after a compaction finds the map if and only if it fits a checkpoint. */
  lemma {:induction false} CompactedRecovers(m: Store)
    ensures Recover(Disk(Some(Checkpoint(m, 0)), [])) == Some(m) <==> StoreFits(m)
  {
    hide LoadCheckpoint, Checkpoint, StoreFits;
    CheckpointRoundTripIff(m, 0);
    var log: Bytes := [];
    assert log[0..] == [];
    var loaded := LoadCheckpoint(Checkpoint(m, 0));
    assert loaded.Some? ==> Replay([], loaded.value.0) == Some(loaded.value.0);
  }

  /** A compaction keeps what reopening returns if and only if the map fits a checkpoint. */
  lemma {:induction false} CompactionKeepsIff(s: State, a: State, b: State, t: State)
    requires Inv(s) && Next(s, StartCompaction, a) && Next(a, Rename, b) && Next(b, Truncate, t)
    ensures Recovers(t) <==> StoreFits(s.mem)
  {
    hide Recover, Checkpoint, StoreFits, ApplyAll, Inv, Fold;
    CompactedRecovers(s.mem);
    MemIsFold(s);
  }

  /** Two batches of one value each. */
  function TwoBatches(v: Bytes): seq<Batch> {
    [[Put([0], v)], [Put([1], v)]]
  }

  function TwoRows(v: Bytes): Store {
    map[[0] := v, [1] := v]
  }

  lemma {:induction false} OnePut(k: Bytes, v: Bytes)
    requires |k| == 1 && |v| == 0x8000_0000
    ensures Fits([Put(k, v)])
  {
    var ops := [Put(k, v)];
    assert ops[1..] == [];
    assert |OpBytes(ops[0])| == 1 + (4 + |k|) + (4 + |v|);
    assert OpsBytes(ops) == OpBytes(ops[0]) + OpsBytes([]);
    assert |Body(ops)| == 5 + |OpBytes(ops[0])|;
  }

  lemma {:induction false} TwoApplied(v: Bytes)
    ensures ApplyAll(map[], TwoBatches(v)) == TwoRows(v)
  {
    var bs := TwoBatches(v);
    assert bs[1..] == [[Put([1], v)]] && bs[1..][1..] == [];
    var m, m': Store := map[], map[[0] := v];
    assert bs[0][1..] == [] && bs[1][1..] == [];
    assert ApplyOps(m, bs[0]) == ApplyOps(m', []) == m';
    assert ApplyOps(m', bs[1]) == ApplyOps(TwoRows(v), []) == TwoRows(v);
    assert ApplyAll(m', bs[1..]) == ApplyAll(TwoRows(v), []);
  }

  lemma {:induction false} TwoTooMany(v: Bytes)
    requires |v| == 0x8000_0000
    ensures !StoreFits(TwoRows(v))
  {
    hide Checkpoint, CheckpointBody;
    var m := TwoRows(v);
    assert m.Keys == {[0], [1]} && m[[0]] == v && m[[1]] == v;
    BodySize(m);
    WeightWithout(m, m.Keys, [0]);
    assert m.Keys - {[0]} == {[1]};
    WeightWithout(m, {[1]}, [1]);
  }

  /** A log of whole records from which every batch is read back, and a compaction after which none is. */
  lemma {:induction false} CompactionLoses(v: Bytes) returns (s: State, a: State, b: State, t: State)
    requires |v| == 0x8000_0000
    ensures Initial(s) && s.disk == Disk(None, Log(TwoBatches(v))) && s.mem == TwoRows(v)
    ensures Next(s, StartCompaction, a) && Next(a, Rename, b) && Next(b, Truncate, t)
    ensures Recovers(s) && !Recovers(t)
  {
    hide Record, Log, Checkpoint, StoreFits, ApplyAll, TwoBatches, TwoRows, Fits, Recover, Inv;
    var disk := Disk(None, Log(TwoBatches(v)));
    s := State(disk, TwoRows(v), TwoRows(v), [], Idle);
    TwoInitial(s, v);
    InitialInv(s);
    InvRecovers(s);
    a := s.(phase := Compacting);
    b := a.(disk := a.disk.(checkpoint := Some(Checkpoint(a.mem, 0))), phase := Renamed);
    t := b.(disk := b.disk.(log := []), phase := Idle);
    TwoTooMany(v);
    CompactionKeepsIff(s, a, b, t);
  }

  lemma {:induction false} TwoInitial(s: State, v: Bytes)
    requires |v| == 0x8000_0000
    requires s == State(Disk(None, Log(TwoBatches(v))), TwoRows(v), TwoRows(v), [], Idle)
    ensures Initial(s)
  {
    hide Record, Log, ApplyOps, Fits, TwoRows;
    var bs := TwoBatches(v);
    OnePut([0], v);
    OnePut([1], v);
    assert AllFit(bs);
    TwoApplied(v);
    var base: Store := map[];
    assert Base(s.disk, base);
    RecoverBase(s.disk, base);
    assert Log(bs) + [] == Log(bs);
    ReplayTornLog(bs, [], base);
  }

  lemma {:induction false} MemIsFold(s: State)
    requires Inv(s)
    ensures s.mem == Fold(s.origin, s.history)
  {
  }
}
