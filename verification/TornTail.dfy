/**
 * Reopening ignores a torn tail but leaves it in the log, so the next append lands behind
 * it. This is safe exactly when there is no torn tail.
 */
module TornTail {
  import opened ByteStrings
  import opened Crc
  import opened Storage
  import opened Wal
  import opened WalProofs
  import opened Recovery

  /** Whatever batches are appended to the log from now on, they will be there after reopening. */
  ghost predicate AppendsSafely(d: Disk)
    requires Recover(d).Some?
  {
    forall more: seq<Batch> | AllFit(more) ::
      Recover(d.(log := d.log + Log(more))) == Some(ApplyAll(Recover(d).value, more))
  }

  // ----- a batch that tells the difference -----

  function Zeros(n: nat): (r: Bytes)
    ensures |r| == n && forall i | 0 <= i < n :: r[i] == 0
  {
    seq(n, i => 0)
  }

  function Probe(n: nat): Batch {
    [Put([], Zeros(n))]
  }

  lemma {:induction false} SmallLe32(n: nat)
    requires n < 256
    ensures Le32(n) == [n, 0, 0, 0]
  {
    assert Le(0, 3) == [0, 0, 0];
  }

  lemma {:induction false} ProbeOp(n: nat)
    requires n < 128
    ensures OpsBytes(Probe(n)) == [1, 0, 0, 0, 0, n, 0, 0, 0] + Zeros(n)
  {
    SmallLe32(0);
    SmallLe32(n);
    assert Blob([]) == [0, 0, 0, 0];
    assert Blob(Zeros(n)) == [n, 0, 0, 0] + Zeros(n);
    assert Probe(n)[1..] == [];
    assert OpsBytes(Probe(n)) == OpBytes(Put([], Zeros(n))) + [];
  }

  lemma {:induction false} ProbeBody(n: nat)
    requires n < 128
    ensures Body(Probe(n)) == [1, 1, 0, 0, 0] + ([1, 0, 0, 0, 0, n, 0, 0, 0] + Zeros(n))
  {
    SmallLe32(1);
    ProbeOp(n);
  }

  lemma {:induction false} ProbeRecord(n: nat)
    requires n < 128
    ensures Fits(Probe(n)) && |Record(Probe(n))| == 27 + n
    ensures Record(Probe(n))[..9] == [0x41, 0x4C, 0x45, 0x46, 1, 14 + n, 0, 0, 0]
    ensures Record(Probe(n))[9..23 + n] == Body(Probe(n))
  {
    hide Checksum, Body;
    ProbeBody(n);
    SmallLe32(14 + n);
  }

  lemma {:induction false} NoMagicByte(n: byte, i: nat)
    requires n in {100, 101} && i < 14
    ensures [1, 1, 0, 0, 0, 1, 0, 0, 0, 0, n, 0, 0, 0][i] != 0x41
  {
  }

  lemma {:induction false} ProbeBodyByte(n: byte, i: nat)
    requires n in {100, 101} && i < 14 + n
    ensures |Body(Probe(n))| == 14 + n && Body(Probe(n))[i] != 0x41
  {
    hide Body, Probe;
    ProbeBody(n);
    var head := [1, 1, 0, 0, 0, 1, 0, 0, 0, 0, n, 0, 0, 0];
    assert Body(Probe(n)) == head + Zeros(n);
    if i < 14 {
      NoMagicByte(n, i);
    }
  }

  /** Past its first byte, no position of the probe's record looks like the start of one. */
  lemma {:induction false} ProbeHasNoMagic(n: byte, q: nat)
    requires n in {100, 101} && 1 <= q <= 28
    ensures |Record(Probe(n))| >= q + 9 && Record(Probe(n))[q..][..4] != MAGIC
  {
    ProbeRecord(n);
    ProbeByte(n, q, Record(Probe(n)));
    SliceHead(Record(Probe(n)), q);
  }

  lemma {:induction false} ProbeByte(n: byte, q: nat, r: Bytes)
    requires n in {100, 101} && 1 <= q <= 28 && |r| == 27 + n
    requires r[..9] == [0x41, 0x4C, 0x45, 0x46, 1, 14 + n, 0, 0, 0] && r[9..23 + n] == Body(Probe(n))
    ensures r[q] != 0x41
  {
    if q < 9 {
      assert r[q] == r[..9][q];
    } else {
      ProbeBodyByte(n, q - 9);
      assert r[q] == r[9..23 + n][q - 9];
    }
  }

  lemma {:induction false} SliceHead(r: Bytes, q: nat)
    requires q + 4 <= |r|
    ensures r[q..][..4][0] == r[q]
  {
  }

  lemma {:induction false} ProbeChanges(m: Store, n: nat)
    ensures ApplyOps(m, Probe(n)) == m[[] := Zeros(n)]
  {
    assert Probe(n)[1..] == [];
  }

  lemma {:induction false} UpdateSeen(m: Store, k: Bytes, v: Bytes)
    requires m[k := v] == m
    ensures k in m && m[k] == v
  {
    assert k in m[k := v];
  }

  /** Of two probes, one changes the map. */
  lemma {:induction false} PickProbe(m: Store, a: nat, b: nat) returns (n: nat)
    requires a != b
    ensures n in {a, b} && ApplyOps(m, Probe(n)) != m
  {
    n := if [] in m && m[[]] == Zeros(a) then b else a;
    ProbeChanges(m, n);
    if m[[] := Zeros(n)] == m {
      UpdateSeen(m, [], Zeros(n));
    }
  }

  // ----- what replay makes of a torn tail with a record behind it -----

  /** Up to four bytes of a record: the next header is misread and the store will not open. */
  lemma {:induction false} TornInMagic(tail: Bytes, ops: Batch, m: Store)
    requires 1 <= |tail| <= 4 && tail == MAGIC[..|tail|] && Fits(ops)
    ensures Replay(tail + Record(ops), m) == None
  {
    var buf := tail + Record(ops);
    RecordHeader(ops);
    assert buf[|tail|] == Record(ops)[0] == Record(ops)[..4][0];
    if |tail| < 4 {
      assert buf[..4][|tail|] == buf[|tail|];
    } else {
      assert buf[4] == 0x41;
    }
  }

  lemma {:induction false} LargeLength(b: Bytes)
    requires |b| == 4 && b[3] >= 0x41
    ensures FromLe(b) >= 0x41 * 0x100_0000
  {
    assert FromLe(b) == b[0] + 256 * FromLe(b[1..]);
    assert FromLe(b[1..]) == b[1] + 256 * FromLe(b[2..]) by { assert b[1..][1..] == b[2..]; }
    assert FromLe(b[2..]) == b[2] + 256 * FromLe(b[3..]) by { assert b[2..][1..] == b[3..]; }
    assert FromLe(b[3..]) == b[3] by { assert b[3..] == [b[3]]; }
  }

  lemma {:induction false} TornLength(whole: Bytes, tail: Bytes, rec: Bytes, m: Store)
    requires |whole| >= 9 && whole[..4] == MAGIC && whole[4] == FORMAT
    requires 5 <= |tail| <= 8 && tail == whole[..|tail|] && 13 <= |rec| < 1000 && rec[..4] == MAGIC
    ensures Replay(tail + rec, m) == Some(m)
  {
    var buf := tail + rec;
    assert buf[..4] == tail[..4] == whole[..4] && buf[4] == tail[4] == whole[4];
    assert buf[8] == rec[8 - |tail|] == rec[..4][8 - |tail|];
    assert buf[5..9][3] == buf[8];
    LargeLength(buf[5..9]);
    ReplayShort(buf, m);
  }

  /** Five to eight bytes: the magic of the next record is read as a huge length. */
  lemma {:induction false} TornInLength(whole: Bytes, tail: Bytes, ops: Batch, m: Store)
    requires |whole| >= 9 && whole[..4] == MAGIC && whole[4] == FORMAT
    requires 5 <= |tail| <= 8 && tail == whole[..|tail|] && Fits(ops) && |Record(ops)| < 1000
    ensures Replay(tail + Record(ops), m) == Some(m)
  {
    RecordHeader(ops);
    TornLength(whole, tail, Record(ops), m);
  }

  /** Nine bytes or more: the torn record swallows `q` bytes of the next one. */
  lemma {:induction false} TornInBody(whole: Bytes, tail: Bytes, rec: Bytes, m: Store)
    requires |whole| >= 13 && whole[..4] == MAGIC && whole[4] == FORMAT
    requires 13 + FromLe(whole[5..9]) == |whole| && 9 <= |tail| < |whole| && tail == whole[..|tail|]
    ensures var q := |whole| - |tail|;
            && (|rec| < q ==> Replay(tail + rec, m) == Some(m))
            && (|rec| >= q + 9 && rec[q..][..4] != MAGIC ==>
                  Replay(tail + rec, m) == Some(m) || Replay(tail + rec, m) == None)
  {
    var buf, q := tail + rec, |whole| - |tail|;
    PrefixHeader(whole, tail);
    assert buf[..4] == tail[..4] && buf[4] == tail[4] && buf[5..9] == tail[5..9];
    if |rec| < q {
      ReplayShort(buf, m);
    } else if |rec| >= q + 9 && rec[q..][..4] != MAGIC {
      assert buf[|whole|..] == rec[q..];
    }
  }

  /** The torn record ends before the probe does not reach, or swallows part of it. */
  lemma {:induction false} TornFarFromEnd(whole: Bytes, tail: Bytes, m: Store, n: nat)
    requires |whole| >= 13 && whole[..4] == MAGIC && whole[4] == FORMAT
    requires 13 + FromLe(whole[5..9]) == |whole| && |tail| < |whole| && tail == whole[..|tail|]
    requires 1 <= |tail| && (|tail| <= 8 || |whole| - |tail| > 28) && n in {0, 1}
    ensures Replay(tail + Record(Probe(n)), m) in {Some(m), None}
  {
    hide Replay, Record, Probe, Fits;
    ProbeRecord(n);
    if |tail| <= 4 {
      assert tail == whole[..4][..|tail|];
      TornInMagic(tail, Probe(n), m);
    } else if |tail| <= 8 {
      TornInLength(whole, tail, Probe(n), m);
    } else {
      TornInBody(whole, tail, Record(Probe(n)), m);
    }
  }

  lemma {:induction false} TornNearEnd(whole: Bytes, tail: Bytes, m: Store, n: nat)
    requires |whole| >= 13 && whole[..4] == MAGIC && whole[4] == FORMAT
    requires 13 + FromLe(whole[5..9]) == |whole| && |tail| < |whole| && tail == whole[..|tail|]
    requires 9 <= |tail| && |whole| - |tail| <= 28 && n in {100, 101}
    ensures Replay(tail + Record(Probe(n)), m) in {Some(m), None}
  {
    ProbeHasNoMagic(n, |whole| - |tail|);
    TornInBody(whole, tail, Record(Probe(n)), m);
  }

  lemma {:induction false} TornFrom(tail: Bytes) returns (whole: Bytes)
    requires Torn(tail) && tail != []
    ensures |whole| >= 13 && whole[..4] == MAGIC && whole[4] == FORMAT
    ensures 13 + FromLe(whole[5..9]) == |whole| && |tail| < |whole| && tail == whole[..|tail|]
  {
    var ops: Batch :| Fits(ops) && |tail| < |Record(ops)| && tail == Record(ops)[..|tail|];
    whole := Record(ops);
    RecordHeader(ops);
  }

  lemma {:induction false} TornLosesProbe(tail: Bytes, m: Store) returns (n: nat)
    requires Torn(tail) && tail != []
    ensures n < 128 && ApplyOps(m, Probe(n)) != m
    ensures Replay(tail + Record(Probe(n)), m) in {Some(m), None}
  {
    var whole := TornFrom(tail);
    if |tail| <= 8 || |whole| - |tail| > 28 {
      n := PickProbe(m, 0, 1);
      TornFarFromEnd(whole, tail, m, n);
    } else {
      n := PickProbe(m, 100, 101);
      TornNearEnd(whole, tail, m, n);
    }
  }

  lemma {:induction false} Assoc(a: Bytes, b: Bytes, c: Bytes)
    ensures a + b + c == a + (b + c)
  {
  }

  lemma {:induction false} RecoverLog(d: Disk, base: Store, batches: seq<Batch>, suffix: Bytes)
    requires Base(d, base) && AllFit(batches) && d.log == Log(batches) + suffix
    ensures Recover(d) == Replay(suffix, ApplyAll(base, batches))
  {
    RecoverBase(d, base);
    ReplayLog(batches, suffix, base);
  }

  lemma {:induction false} RecoverAppended(d: Disk, base: Store, batches: seq<Batch>, tail: Bytes, rec: Bytes)
    requires Base(d, base) && AllFit(batches) && d.log == Log(batches) + tail
    ensures Recover(d.(log := d.log + rec)) == Replay(tail + rec, ApplyAll(base, batches))
  {
    Assoc(Log(batches), tail, rec);
    RecoverLog(d.(log := d.log + rec), base, batches, tail + rec);
  }

  lemma {:induction false} WholeRecovers(d: Disk, base: Store, batches: seq<Batch>)
    requires Base(d, base) && AllFit(batches) && d.log == Log(batches)
    ensures Recover(d) == Some(ApplyAll(base, batches))
  {
    assert d.log == Log(batches) + [];
    RecoverBase(d, base);
    ReplayTornLog(batches, [], base);
  }

  lemma {:induction false} WholeAppendsSafely(d: Disk, base: Store, batches: seq<Batch>)
    requires Base(d, base) && AllFit(batches) && d.log == Log(batches)
    ensures Recover(d) == Some(ApplyAll(base, batches)) && AppendsSafely(d)
  {
    hide Replay, Log, Record, LoadCheckpoint;
    WholeRecovers(d, base, batches);
    forall more: seq<Batch> | AllFit(more)
      ensures Recover(d.(log := d.log + Log(more))) == Some(ApplyAll(Recover(d).value, more))
    {
      LogConcat(batches, more);
      ApplyAllConcat(base, batches, more);
      WholeRecovers(d.(log := d.log + Log(more)), base, batches + more);
    }
  }

  lemma {:induction false} OneRecord(ops: Batch, m: Store)
    ensures Log([ops]) == Record(ops) && ApplyAll(m, [ops]) == ApplyOps(m, ops)
  {
    hide Record, ApplyOps;
    assert [ops][1..] == [];
    assert Log([ops]) == Record(ops) + Log([]);
  }

  lemma {:induction false} TornAppendsUnsafely(d: Disk, base: Store, batches: seq<Batch>, tail: Bytes)
    requires Base(d, base) && AllFit(batches) && d.log == Log(batches) + tail
    requires Torn(tail) && tail != [] && Recover(d) == Some(ApplyAll(base, batches))
    ensures !AppendsSafely(d)
  {
    hide Replay, Record, Log, ApplyOps, ApplyAll, Fits, Probe, Recover, Torn;
    var n := TornLosesProbe(tail, ApplyAll(base, batches));
    ProbeRecord(n);
    var ops := Probe(n);
    RecoverAppended(d, base, batches, tail, Record(ops));
    OneRecord(ops, ApplyAll(base, batches));
    assert AllFit([ops]);
  }

  /** After a crash, further commits are durable exactly when the log is whole records. */
  lemma {:induction false} AppendsSafelyIff(d: Disk, base: Store, batches: seq<Batch>, tail: Bytes)
    requires Base(d, base) && AllFit(batches) && d.log == Log(batches) + tail && Torn(tail)
    ensures Recover(d) == Some(ApplyAll(base, batches))
    ensures AppendsSafely(d) <==> Whole(d.log)
  {
    RecoverLog(d, base, batches, tail);
    TornReplays(tail, ApplyAll(base, batches));
    if Whole(d.log) {
      var batches' :| AllFit(batches') && d.log == Log(batches');
      WholeAppendsSafely(d, base, batches');
    } else {
      assert tail == [] ==> d.log == Log(batches);
      TornAppendsUnsafely(d, base, batches, tail);
    }
  }

  /** One byte of a record left behind, one batch acknowledged after it: the store is lost. */
  lemma {:induction false} TornTailWitness()
    ensures var d := Disk(None, [0x41]);
            Recover(d) == Some(map[]) && Recover(d.(log := d.log + Record(Probe(0)))) == None
  {
    ProbeRecord(0);
    TornInMagic([0x41], Probe(0), map[]);
  }
}
