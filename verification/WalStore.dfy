/** The durable backend as the code runs it: buffers, cursors, and the storage object. */
module WalStore {
  import opened ByteStrings
  import opened Crc
  import opened Storage
  import opened Wal
  import opened WalProofs
  import opened Recovery

  // ----- writing -----

  lemma {:induction false} OpsBytesSnoc(ops: Batch, op: BatchOp)
    ensures OpsBytes(ops + [op]) == OpsBytes(ops) + OpBytes(op)
  {
    hide OpBytes;
    if ops == [] {
      assert ops + [op] == [op];
    } else {
      assert (ops + [op])[1..] == ops[1..] + [op];
      OpsBytesSnoc(ops[1..], op);
    }
  }

  method WriteFrame(magic: Bytes, body: Bytes) returns (out: Bytes)
    ensures out == Frame(magic, body, Checksum(body))
  {
    var checksum := ComputeCrc32(body);
    out := magic;
    out := out + [FORMAT];
    out := out + Le32(|body|);
    out := out + body;
    out := out + CrcBytes(checksum, 4);
  }

  method WriteOp(op: BatchOp, buf: Bytes) returns (out: Bytes)
    ensures out == buf + OpBytes(op)
  {
    hide Blob;
    match op
    case Put(k, v) =>
      out := buf + [OP_PUT];
      out := out + Blob(k);
      out := out + Blob(v);
    case Delete(k) =>
      out := buf + [OP_DELETE];
      out := out + Blob(k);
  }

  method EncodeRecord(ops: Batch) returns (rec: Bytes)
    ensures rec == Record(ops)
  {
    hide OpBytes, Le32, Frame, Checksum;
    var body := [REC_COMMIT] + Le32(|ops|);
    for i := 0 to |ops|
      invariant body == [REC_COMMIT] + Le32(|ops|) + OpsBytes(ops[..i])
    {
      OpsBytesSnoc(ops[..i], ops[i]);
      assert ops[..i] + [ops[i]] == ops[..i + 1];
      body := WriteOp(ops[i], body);
    }
    assert ops[..|ops|] == ops;
    rec := WriteFrame(MAGIC, body);
  }

  lemma {:induction false} RowsBytesSnoc(rows: seq<Row>, r: Row)
    ensures RowsBytes(rows + [r]) == RowsBytes(rows) + (Blob(r.0) + Blob(r.1))
  {
    hide Blob;
    if rows == [] {
      assert rows + [r] == [r];
    } else {
      assert (rows + [r])[1..] == rows[1..] + [r];
      RowsBytesSnoc(rows[1..], r);
    }
  }

  method WriteCheckpoint(m: Store, offset: nat) returns (file: Bytes)
    ensures file == Checkpoint(m, offset)
  {
    hide Rows, Frame, Checksum, Le32, Le, Blob;
    var rows := InOrder(m);
    var body := Le(offset, 8) + Le32(|m|);
    for i := 0 to |rows|
      invariant body == Le(offset, 8) + Le32(|m|) + RowsBytes(rows[..i])
    {
      RowsBytesSnoc(rows[..i], rows[i]);
      assert rows[..i] + [rows[i]] == rows[..i + 1];
      body := body + Blob(rows[i].0);
      body := body + Blob(rows[i].1);
    }
    assert rows[..|rows|] == rows;
    file := WriteFrame(CKPT_MAGIC, body);
  }

  // ----- reading -----

  /** The operations of a record body, with the cursor moving through it. */
  method ReadRecord(body: Bytes) returns (r: Option<Batch>)
    ensures r == ReadBody(body)
  {
    hide ReadOp;
    if |body| < 5 || body[0] != REC_COMMIT {
      return None;
    }
    var n := FromLe(body[1..5]);
    var cur, ops: Batch := body[5..], [];
    for i := 0 to n
      invariant ReadOps(n - i, cur, ops) == ReadBody(body)
    {
      var next := ReadOp(cur);
      if next.None? {
        return None;
      }
      ops, cur := ops + [next.value.0], next.value.1;
    }
    r := if cur == [] then Some(ops) else None;
  }

  method ApplyEach(m: Store, ops: Batch) returns (out: Store)
    ensures out == ApplyOps(m, ops)
  {
    out := m;
    for i := 0 to |ops|
      invariant ApplyOps(out, ops[i..]) == ApplyOps(m, ops)
    {
      assert ops[i..][1..] == ops[i + 1..];
      out := ApplyOp(out, ops[i]);
    }
  }

  /** One turn of replay: the map after the record at `i` and where the next one starts. */
  method ReplayFrom(buf: Bytes, start: Store) returns (r: Option<Store>)
    ensures r == Replay(buf, start)
  {
    hide ApplyOps, ReadBody, FromLe, Crc32, CrcBytes;
    var m, i := start, 0;
    while i < |buf|
      invariant i <= |buf|
      invariant Replay(buf[i..], m) == Replay(buf, start)
    {
      var cur := buf[i..];
      if |cur| < 9 {
        return Some(m);
      }
      if buf[i..i + 4] != MAGIC || buf[i + 4] != FORMAT {
        assert cur[..4] == buf[i..i + 4];
        return None;
      }
      assert cur[..4] == buf[i..i + 4];
      var len := FromLe(buf[i + 5..i + 9]);
      assert cur[5..9] == buf[i + 5..i + 9];
      var end := i + 9 + len + 4;
      if end > |buf| {
        return Some(m);
      }
      var body := buf[i + 9..i + 9 + len];
      assert cur[9..9 + len] == body && cur[9 + len..9 + len + 4] == buf[i + 9 + len..end];
      var crc := ComputeCrc32(body);
      if CrcBytes(crc, 4) != buf[i + 9 + len..end] {
        return Some(m);
      }
      var ops := ReadRecord(body);
      if ops.None? {
        return None;
      }
      assert cur[9 + len + 4..] == buf[end..];
      m := ApplyEach(m, ops.value);
      i := end;
    }
    assert buf[i..] == [];
    r := Some(m);
  }

  method ReadCheckpoint(buf: Bytes) returns (r: Option<(Store, nat)>)
    ensures r == LoadCheckpoint(buf)
  {
    hide ReadBlob, FromLe, Crc32, CrcBytes;
    if |buf| < 9 || buf[..4] != CKPT_MAGIC || buf[4] != FORMAT {
      return None;
    }
    var len := FromLe(buf[5..9]);
    if |buf| < 9 + len + 4 {
      return None;
    }
    var body := buf[9..9 + len];
    var crc := ComputeCrc32(body);
    if CrcBytes(crc, 4) != buf[9 + len..9 + len + 4] || |body| < 12 {
      return None;
    }
    var n := FromLe(body[8..12]);
    var cur, m: Store := body[12..], map[];
    for i := 0 to n
      invariant ReadRows(n - i, cur, m) == ReadRows(n, body[12..], map[])
    {
      var k := ReadBlob(cur);
      if k.None? {
        return None;
      }
      var v := ReadBlob(k.value.1);
      if v.None? {
        return None;
      }
      m, cur := m[k.value.0 := v.value.0], v.value.1;
    }
    r := if cur == [] then Some((m, FromLe(body[..8]))) else None;
  }

  // ----- the storage object -----

  function LogStart(files: Disk): nat {
    match files.checkpoint
    case None => 0
    case Some(file) => (match LoadCheckpoint(file) case None => 0 case Some((_, offset)) => offset)
  }

  /** The batches found on reopening after a crash. */
  function Reopened(s: State): seq<Batch> {
    if Complete(s.phase) then s.history + [s.phase.ops] else s.history
  }

  const AUTO_COMPACT: nat := 8 * 1024 * 1024

  class WalStorage {
    var data: Store
    /** What is on disk. */
    var checkpoint: Option<Bytes>
    var log: Bytes
    var walBytes: nat
    var threshold: nat
    /** The map of the first opening and the batches since, in order. */
    ghost var origin: Store
    ghost var history: seq<Batch>

    function Files(): Disk
      reads this
    {
      Disk(checkpoint, log)
    }

    /** Between calls: the recovery invariant, on a log of whole records. */
    ghost predicate Valid()
      reads this
    {
      Inv(State(Files(), data, origin, history, Idle)) && Whole(log)
    }

    constructor (files: Disk, m: Store, walBytes: nat, ghost origin: Store, ghost history: seq<Batch>)
      ensures Files() == files && data == m && this.walBytes == walBytes && threshold == 8_388_608
      ensures this.history == history && this.origin == origin
    {
      data := m;
      checkpoint := files.checkpoint;
      log := files.log;
      this.walBytes := walBytes;
      threshold := AUTO_COMPACT;
      this.history := history;
      this.origin := origin;
    }

    /**
     * Load the checkpoint, replay the log behind it; the files stay as they are. After a
     * crash in state `before` this finds its history, with the whole batch in flight if
     * that got to disk.
     */
    static method Open(files: Disk, ghost before: State) returns (r: Option<WalStorage>)
      ensures r.Some? <==> Recover(files).Some?
      ensures r.Some? ==>
                && fresh(r.value) && r.value.Files() == files && r.value.data == Recover(files).value
                && r.value.walBytes + LogStart(files) == |files.log| && r.value.threshold == 8_388_608
                && r.value.history == Reopened(before) && r.value.origin == before.origin
      ensures Inv(before) && before.disk == files && Whole(files.log) ==> r.Some? && r.value.Valid()
    {
      hide Inv, Whole, Replay, LoadCheckpoint;
      if Inv(before) && before.disk == files {
        CrashSteps(before);
      }
      var m: Store, start: nat := map[], 0;
      if files.checkpoint.Some? {
        var loaded := ReadCheckpoint(files.checkpoint.value);
        if loaded.None? {
          return None;
        }
        m, start := loaded.value.0, loaded.value.1;
      }
      if start > |files.log| {
        return None;
      }
      assert files.log[0..] == files.log;
      var replayed := ReplayFrom(files.log[start..], m);
      if replayed.None? {
        return None;
      }
      var store := new WalStorage(files, replayed.value, |files.log| - start, before.origin, Reopened(before));
      r := Some(store);
    }

    /** Write the checkpoint, put it in place, truncate the log. */
    method Compact()
      modifies this
      ensures data == old(data) && history == old(history) && origin == old(origin) && threshold == old(threshold)
      ensures checkpoint == Some(Checkpoint(data, 0)) && log == [] && walBytes == 0
      ensures Recover(Files()) == Some(data) <==> StoreFits(data)
      ensures old(Valid()) && StoreFits(data) ==> Valid()
    {
      hide Inv, Whole, StoreFits, Checkpoint, Recover;
      CompactedRecovers(data);
      ghost var before := State(Files(), data, origin, history, Idle);
      var file := WriteCheckpoint(data, 0);
      checkpoint := Some(file);
      log := [];
      walBytes := 0;
      if old(Valid()) && StoreFits(data) {
        CompactionSteps(before);
        EmptyIsWhole();
      }
    }

    /** Append and sync the record, then apply it, then compact if the log has grown large. */
    method Commit(ops: Batch)
      modifies this
      ensures data == ApplyOps(old(data), ops) && threshold == old(threshold) && origin == old(origin)
      ensures history == if ops == [] then old(history) else old(history) + [ops]
      ensures var grown := old(walBytes) + |Record(ops)|;
              if ops == [] then Files() == old(Files()) && walBytes == old(walBytes)
              else if 0 < threshold <= grown then
                Files() == Disk(Some(Checkpoint(data, 0)), []) && walBytes == 0
              else Files() == Disk(old(checkpoint), old(log) + Record(ops)) && walBytes == grown
      ensures old(Valid()) && Fits(ops) && (0 < threshold <= old(walBytes) + |Record(ops)| ==> StoreFits(data)) ==>
                Valid()
    {
      hide Record, Inv, Whole, StoreFits, Checkpoint;
      if ops == [] {
        return;
      }
      ghost var before := State(Files(), data, origin, history, Idle);
      var record := EncodeRecord(ops);
      log := log + record;
      walBytes := walBytes + |record|;
      data := ApplyEach(data, ops);
      history := history + [ops];
      if old(Valid()) && Fits(ops) {
        CommitSteps(before, ops);
      }
      if threshold > 0 && walBytes >= threshold {
        Compact();
      }
    }

    method Get(key: Bytes) returns (r: Option<Bytes>)
      ensures r == if key in data then Some(data[key]) else None
    {
      r := if key in data then Some(data[key]) else None;
    }

    method ScanPrefix(prefix: Bytes) returns (out: seq<Row>)
      ensures out == Scan(data, prefix)
    {
      out := ScanRange(data, prefix);
    }
  }

  // ----- each call is a run of the step machine -----

  lemma {:induction false} EmptyIsWhole()
    ensures Whole([])
  {
    var none: seq<Batch> := [];
    assert AllFit(none) && Log(none) == [];
  }

  lemma {:induction false} CrashSteps(s: State)
    requires Inv(s)
    ensures Recover(s.disk).Some? && Inv(State(s.disk, Recover(s.disk).value, s.origin, Reopened(s), Idle))
  {
    InvRecovers(s);
    hide Inv, Recover;
    StepKeepsInv(s, Crash, State(s.disk, Recover(s.disk).value, s.origin, Reopened(s), Idle));
  }

  lemma {:induction false} CompactionSteps(s: State)
    requires Inv(s) && s.phase.Idle? && StoreFits(s.mem)
    ensures Inv(State(Disk(Some(Checkpoint(s.mem, 0)), []), s.mem, s.origin, s.history, Idle))
  {
    hide Inv, StoreFits, Checkpoint;
    var a := s.(phase := Compacting);
    StepKeepsInv(s, StartCompaction, a);
    var b := a.(disk := a.disk.(checkpoint := Some(Checkpoint(s.mem, 0))), phase := Renamed);
    StepKeepsInv(a, Rename, b);
    var c := b.(disk := b.disk.(log := []), phase := Idle);
    StepKeepsInv(b, Truncate, c);
  }

  lemma {:induction false} CommitSteps(s: State, ops: Batch)
    requires Inv(s) && s.phase.Idle? && Whole(s.disk.log) && ops != [] && Fits(ops)
    ensures Inv(State(Disk(s.disk.checkpoint, s.disk.log + Record(ops)), ApplyOps(s.mem, ops), s.origin,
                      s.history + [ops], Idle))
    ensures Whole(s.disk.log + Record(ops))
  {
    AppendWhole(s.disk.log, ops);
    hide Inv, Record, ApplyOps, Fits, Whole;
    var rec := Record(ops);
    var a := s.(phase := Appending(ops, 0));
    StepKeepsInv(s, Begin(ops), a);
    var b := a.(disk := a.disk.(log := a.disk.log + rec[0..|rec|]), phase := Appending(ops, |rec|));
    StepKeepsInv(a, Write(|rec|), b);
    assert rec[0..|rec|] == rec;
    var c := b.(mem := ApplyOps(s.mem, ops), history := s.history + [ops], phase := Idle);
    StepKeepsInv(b, Acknowledge, c);
  }

  lemma {:induction false} AppendWhole(log: Bytes, ops: Batch)
    requires Whole(log) && Fits(ops)
    ensures Whole(log + Record(ops))
  {
    hide Record, Fits;
    var batches: seq<Batch> :| AllFit(batches) && log == Log(batches);
    LogSnoc(batches, ops);
    assert AllFit(batches + [ops]);
  }
}
