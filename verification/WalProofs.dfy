/** Replay undoes logging, survives torn and damaged tails, and checkpoints load back. */
module WalProofs {
  import opened ByteStrings
  import opened Crc
  import opened CrcProofs
  import opened Storage
  import opened Wal

  // ----- fields -----

  lemma {:induction false} BlobFront(b: Bytes, s: Bytes)
    requires |b| < U32
    ensures ReadBlob(Blob(b) + s) == Some((b, s))
  {
    var cur := Blob(b) + s;
    assert cur[..4] == Le32(|b|);
    Le32RoundTrip(|b|);
    assert cur[4..4 + |b|] == b && cur[4 + |b|..] == s;
  }

  lemma {:induction false} PutFront(k: Bytes, v: Bytes, s: Bytes)
    requires |k| < U32 && |v| < U32
    ensures ReadOp([OP_PUT] + (Blob(k) + (Blob(v) + s))) == Some((Put(k, v), s))
  {
    BlobFront(k, Blob(v) + s);
    BlobFront(v, s);
  }

  lemma {:induction false} DeleteFront(k: Bytes, s: Bytes)
    requires |k| < U32
    ensures ReadOp([OP_DELETE] + (Blob(k) + s)) == Some((Delete(k), s))
  {
    BlobFront(k, s);
  }

  lemma {:induction false} OpShape(op: BatchOp, s: Bytes)
    ensures op.Put? ==> OpBytes(op) + s == [OP_PUT] + (Blob(op.key) + (Blob(op.value) + s))
    ensures op.Delete? ==> OpBytes(op) + s == [OP_DELETE] + (Blob(op.key) + s)
  {
    match op
    case Put(k, v) => assert (Blob(k) + Blob(v)) + s == Blob(k) + (Blob(v) + s);
    case Delete(_) =>
  }

  lemma {:induction false} OpFront(op: BatchOp, s: Bytes)
    requires OpFits(op)
    ensures ReadOp(OpBytes(op) + s) == Some((op, s))
  {
    OpShape(op, s);
    match op
    case Put(k, v) => PutFront(k, v, s);
    case Delete(k) => DeleteFront(k, s);
  }

  lemma {:induction false} OpsStep(n: nat, cur: Bytes, op: BatchOp, rest: Bytes, acc: Batch)
    requires n > 0 && ReadOp(cur) == Some((op, rest))
    ensures ReadOps(n, cur, acc) == ReadOps(n - 1, rest, acc + [op])
  {
  }

  lemma {:induction false} OpsFront(ops: Batch, acc: Batch)
    requires forall op | op in ops :: OpFits(op)
    ensures ReadOps(|ops|, OpsBytes(ops), acc) == Some(acc + ops)
  {
    hide ReadOp, OpBytes, OpFits;
    if ops == [] {
      assert acc + ops == acc;
    } else {
      OpFront(ops[0], OpsBytes(ops[1..]));
      OpsStep(|ops|, OpsBytes(ops), ops[0], OpsBytes(ops[1..]), acc);
      OpsFront(ops[1..], acc + [ops[0]]);
      assert acc + [ops[0]] + ops[1..] == acc + ops;
    }
  }

  lemma {:induction false} BodyRoundTrip(ops: Batch)
    requires |ops| < U32 && forall op | op in ops :: OpFits(op)
    ensures ReadBody(Body(ops)) == Some(ops)
  {
    var body := Body(ops);
    assert body[1..5] == Le32(|ops|) && body[5..] == OpsBytes(ops);
    Le32RoundTrip(|ops|);
    OpsFront(ops, []);
    assert [] + ops == ops;
  }

  lemma {:induction false} LengthBound(b: Bytes)
    requires |b| == 4
    ensures FromLe(b) < U32
  {
    Widths();
    FromLeBound(b);
  }

  lemma {:induction false} ReadBlobFits(cur: Bytes)
    ensures ReadBlob(cur).Some? ==>
              var (b, rest) := ReadBlob(cur).value; |b| < U32 && 4 + |b| + |rest| == |cur|
  {
    if |cur| >= 4 {
      LengthBound(cur[..4]);
    }
  }

  lemma {:induction false} ReadOpFits(cur: Bytes)
    ensures ReadOp(cur).Some? ==> OpFits(ReadOp(cur).value.0)
  {
    hide ReadBlob;
    if cur != [] {
      ReadBlobFits(cur[1..]);
      if ReadBlob(cur[1..]).Some? {
        ReadBlobFits(ReadBlob(cur[1..]).value.1);
      }
    }
  }

  lemma {:induction false} ReadOpsFit(n: nat, cur: Bytes, acc: Batch, ops: Batch)
    requires ReadOps(n, cur, acc) == Some(ops) && forall op | op in acc :: OpFits(op)
    ensures |ops| == |acc| + n && forall op | op in ops :: OpFits(op)
    decreases n
  {
    hide ReadOp, OpFits;
    if n > 0 {
      ReadOpFits(cur);
      var (op, rest) := ReadOp(cur).value;
      ReadOpsFit(n - 1, rest, acc + [op], ops);
    }
  }

  /** Whatever a body reads as has lengths that fit. */
  lemma {:induction false} ReadBodyFits(body: Bytes, ops: Batch)
    requires ReadBody(body) == Some(ops)
    ensures |ops| < U32 && forall op | op in ops :: OpFits(op)
  {
    hide ReadOps, OpFits;
    LengthBound(body[1..5]);
    ReadOpsFit(FromLe(body[1..5]), body[5..], [], ops);
  }

  /** A body reads back as its operations if and only if their lengths fit. */
  lemma {:induction false} BodyRoundTripIff(ops: Batch)
    ensures ReadBody(Body(ops)) == Some(ops) <==> |ops| < U32 && forall op | op in ops :: OpFits(op)
  {
    hide ReadBody, Body, OpFits;
    if ReadBody(Body(ops)) == Some(ops) {
      ReadBodyFits(Body(ops), ops);
    } else if |ops| < U32 && forall op | op in ops :: OpFits(op) {
      BodyRoundTrip(ops);
    }
  }

  // ----- frames -----

  lemma {:induction false} FrameParts(magic: Bytes, body: Bytes, sum: Bytes, rest: Bytes)
    requires |magic| == |sum| == 4 && |body| < U32
    ensures var buf := Frame(magic, body, sum) + rest; var len := |body|;
            && |buf| == 13 + len + |rest|
            && buf[..4] == magic && buf[4] == FORMAT && FromLe(buf[5..9]) == len
            && buf[9..9 + len] == body && buf[9 + len..9 + len + 4] == sum && buf[9 + len + 4..] == rest
  {
    var buf := Frame(magic, body, sum) + rest;
    assert buf[5..9] == Le32(|body|);
    Le32RoundTrip(|body|);
  }

  /** Replay applies the first record it can read and goes on behind it. */
  lemma {:induction false} ReplayFirst(buf: Bytes, m: Store)
    ensures FirstRecord(buf).Some? ==>
              var (ops, rest) := FirstRecord(buf).value; Replay(buf, m) == Replay(rest, ApplyOps(m, ops))
  {
    hide ReadBody, Checksum, ApplyOps;
  }

  lemma {:induction false} FirstRecordFits(buf: Bytes)
    requires FirstRecord(buf).Some?
    ensures var (ops, rest) := FirstRecord(buf).value;
            && |ops| < U32 && (forall op | op in ops :: OpFits(op))
            && 13 + |rest| <= |buf| < 13 + |rest| + U32
  {
    hide ReadBody, Checksum, OpFits;
    LengthBound(buf[5..9]);
    ReadBodyFits(buf[9..9 + FromLe(buf[5..9])], FirstRecord(buf).value.0);
  }

  /** A record is read back, with what follows it, if and only if its lengths fit the widths they are cast to. */
  lemma {:induction false} RecordRoundTripIff(ops: Batch, rest: Bytes)
    ensures FirstRecord(Record(ops) + rest) == Some((ops, rest)) <==> Fits(ops)
  {
    if Fits(ops) {
      FrameParts(MAGIC, Body(ops), Checksum(Body(ops)), rest);
      BodyRoundTrip(ops);
    }
    assert |Record(ops) + rest| == 13 + |Body(ops)| + |rest|;
    hide FirstRecord, Record, OpFits;
    if FirstRecord(Record(ops) + rest) == Some((ops, rest)) {
      FirstRecordFits(Record(ops) + rest);
    }
  }

  /** Replay applies a record that fits and goes on behind it. */
  lemma {:induction false} ReplayRecord(ops: Batch, rest: Bytes, m: Store)
    requires Fits(ops)
    ensures Replay(Record(ops) + rest, m) == Replay(rest, ApplyOps(m, ops))
  {
    hide Record, Replay, FirstRecord, ApplyOps, Fits;
    RecordRoundTripIff(ops, rest);
    ReplayFirst(Record(ops) + rest, m);
  }

  lemma {:induction false} LogConcat(s: seq<Batch>, t: seq<Batch>)
    ensures Log(s + t) == Log(s) + Log(t)
  {
    if s == [] {
      assert s + t == t;
    } else {
      assert (s + t)[1..] == s[1..] + t;
      LogConcat(s[1..], t);
    }
  }

  lemma {:induction false} ApplyAllConcat(m: Store, s: seq<Batch>, t: seq<Batch>)
    ensures ApplyAll(m, s + t) == ApplyAll(ApplyAll(m, s), t)
    decreases s
  {
    if s == [] {
      assert s + t == t;
    } else {
      assert (s + t)[1..] == s[1..] + t;
      ApplyAllConcat(ApplyOps(m, s[0]), s[1..], t);
    }
  }

  ghost predicate AllFit(batches: seq<Batch>) {
    forall b | b in batches :: Fits(b)
  }

  /** Whole records replay to the fold of their batches; replay continues with what follows. */
  lemma {:induction false} ReplayLog(batches: seq<Batch>, tail: Bytes, m: Store)
    requires AllFit(batches)
    ensures Replay(Log(batches) + tail, m) == Replay(tail, ApplyAll(m, batches))
    decreases batches
  {
    if batches == [] {
      assert Log(batches) + tail == tail;
    } else {
      assert Log(batches) + tail == Record(batches[0]) + (Log(batches[1..]) + tail);
      ReplayRecord(batches[0], Log(batches[1..]) + tail, m);
      ReplayLog(batches[1..], tail, ApplyOps(m, batches[0]));
    }
  }

  /** A strict prefix of a record: what a crash inside an append leaves behind. */
  ghost predicate Torn(tail: Bytes) {
    tail == [] || exists ops: Batch :: Fits(ops) && |tail| < |Record(ops)| && tail == Record(ops)[..|tail|]
  }

  lemma {:induction false} PrefixHeader(whole: Bytes, part: Bytes)
    requires 9 <= |part| <= |whole| && part == whole[..|part|]
    ensures part[..4] == whole[..4] && part[4] == whole[4] && part[5..9] == whole[5..9]
  {
  }

  lemma {:induction false} RecordHeader(ops: Batch)
    requires Fits(ops)
    ensures var rec := Record(ops); var len := |Body(ops)|;
            |rec| == 13 + len && rec[..4] == MAGIC && rec[4] == FORMAT && FromLe(rec[5..9]) == len
  {
    FrameParts(MAGIC, Body(ops), Checksum(Body(ops)), []);
    assert Record(ops) + [] == Record(ops);
  }

  lemma {:induction false} ReplayShort(buf: Bytes, m: Store)
    requires |buf| >= 9 && buf[..4] == MAGIC && buf[4] == FORMAT
    requires 13 + FromLe(buf[5..9]) > |buf|
    ensures Replay(buf, m) == Some(m)
  {
  }

  lemma {:induction false} TornReplays(tail: Bytes, m: Store)
    requires Torn(tail)
    ensures Replay(tail, m) == Some(m)
  {
    if |tail| >= 9 {
      var ops: Batch :| Fits(ops) && |tail| < |Record(ops)| && tail == Record(ops)[..|tail|];
      RecordHeader(ops);
      PrefixHeader(Record(ops), tail);
      ReplayShort(tail, m);
    }
  }

  /**
   * Replaying any batches followed by any strict prefix of one more record applies exactly
   * those batches: no part of the unfinished one.
   */
  lemma {:induction false} ReplayTornLog(batches: seq<Batch>, tail: Bytes, m: Store)
    requires AllFit(batches) && Torn(tail)
    ensures Replay(Log(batches) + tail, m) == Some(ApplyAll(m, batches))
  {
    ReplayLog(batches, tail, m);
    TornReplays(tail, ApplyAll(m, batches));
  }

  /**
   * A record whose body was changed within four consecutive bytes stops replay there,
   * whatever follows it.
   */
  lemma {:induction false} ReplayDamagedLog(batches: seq<Batch>, ops: Batch, pre: Bytes, u: Bytes, v: Bytes,
      post: Bytes,
                         rest: Bytes, m: Store)
    requires AllFit(batches) && Fits(ops)
    requires Body(ops) == pre + u + post && |u| == |v| <= 4 && u != v
    ensures Replay(Log(batches) + (Frame(MAGIC, pre + v + post, Checksum(Body(ops))) + rest), m)
            == Some(ApplyAll(m, batches))
  {
    var damaged := Frame(MAGIC, pre + v + post, Checksum(Body(ops))) + rest;
    ReplayLog(batches, damaged, m);
    FrameParts(MAGIC, pre + v + post, Checksum(Body(ops)), rest);
    BurstDetected(pre, u, v, post);
  }

  // ----- replaying twice -----

  function Flatten(batches: seq<Batch>): Batch {
    if batches == [] then [] else batches[0] + Flatten(batches[1..])
  }

  lemma {:induction false} ApplyAllFlat(m: Store, batches: seq<Batch>)
    ensures ApplyAll(m, batches) == ApplyOps(m, Flatten(batches))
    decreases batches
  {
    if batches != [] {
      ApplyOpsConcat(m, batches[0], Flatten(batches[1..]));
      ApplyAllFlat(ApplyOps(m, batches[0]), batches[1..]);
    }
  }

  /** Replaying a log over its own outcome changes nothing. */
  lemma {:induction false} ApplyAllIdempotent(m: Store, batches: seq<Batch>)
    ensures ApplyAll(ApplyAll(m, batches), batches) == ApplyAll(m, batches)
  {
    ApplyAllFlat(m, batches);
    ApplyAllFlat(ApplyAll(m, batches), batches);
    ApplyIdempotent(m, Flatten(batches));
  }

  /** Replaying a log, torn tail and all, over its own outcome changes nothing. */
  lemma {:induction false} ReplayTwice(batches: seq<Batch>, tail: Bytes, m: Store)
    requires AllFit(batches) && Torn(tail)
    ensures Replay(Log(batches) + tail, m).Some?
    ensures var m' := Replay(Log(batches) + tail, m).value; Replay(Log(batches) + tail, m') == Some(m')
  {
    hide Replay, Log, Torn;
    ReplayTornLog(batches, tail, m);
    ReplayTornLog(batches, tail, ApplyAll(m, batches));
    ApplyAllIdempotent(m, batches);
  }

  // ----- checkpoints -----

  function PutRows(acc: Store, rows: seq<Row>): Store
    decreases rows
  {
    if rows == [] then acc else PutRows(acc[rows[0].0 := rows[0].1], rows[1..])
  }

  lemma {:induction false} RowsFront(rows: seq<Row>, acc: Store)
    requires forall r | r in rows :: |r.0| < U32 && |r.1| < U32
    ensures ReadRows(|rows|, RowsBytes(rows), acc) == Some(PutRows(acc, rows))
    decreases rows
  {
    hide ReadBlob, Blob;
    if rows != [] {
      var k, v, rest := rows[0].0, rows[0].1, RowsBytes(rows[1..]);
      assert rows[0] in rows;
      assert RowsBytes(rows) == Blob(k) + (Blob(v) + rest);
      BlobFront(k, Blob(v) + rest);
      BlobFront(v, rest);
      RowsFront(rows[1..], acc[k := v]);
    }
  }

  lemma {:induction false} PutRowsSpec(m: Store, keys: seq<Bytes>, acc: Store)
    requires forall k | k in keys :: k in m
    ensures PutRows(acc, RowsOf(m, keys)) == acc + (map k | k in keys :: m[k])
    decreases keys
  {
    if keys == [] {
    } else {
      var k := keys[0];
      assert keys[0] in keys;
      assert RowsOf(m, keys)[1..] == RowsOf(m, keys[1..]);
      PutRowsSpec(m, keys[1..], acc[k := m[k]]);
    }
  }

  lemma {:induction false} RowsSmall(m: Store, keys: seq<Bytes>)
    requires forall k | k in keys :: k in m
    requires forall k | k in m :: |k| < U32 && |m[k]| < U32
    ensures forall r | r in RowsOf(m, keys) :: |r.0| < U32 && |r.1| < U32
  {
    if keys != [] {
      assert keys[0] in keys;
      RowsSmall(m, keys[1..]);
    }
  }

  lemma {:induction false} RowsRestore(m: Store)
    ensures PutRows(map[], Rows(m)) == m
  {
    var keys := SortedKeys(m.Keys);
    SortedKeysSpec(m.Keys);
    PutRowsSpec(m, keys, map[]);
    assert (map k | k in keys :: m[k]) == m;
  }

  lemma {:induction false} RowsLoad(m: Store)
    requires StoreFits(m)
    ensures ReadRows(|m|, RowsBytes(Rows(m)), map[]) == Some(m)
  {
    var keys := SortedKeys(m.Keys);
    SortedKeysSpec(m.Keys);
    SortedKeysCard(m.Keys);
    RowsOfAt(m, keys);
    RowsSmall(m, keys);
    RowsFront(Rows(m), map[]);
    RowsRestore(m);
  }

  lemma {:induction false} BodyFields(offset: nat, n: nat, rows: Bytes)
    requires offset < U64 && n < U32
    ensures var body := Le(offset, 8) + Le32(n) + rows;
            FromLe(body[..8]) == offset && FromLe(body[8..12]) == n && body[12..] == rows
  {
    var body := Le(offset, 8) + Le32(n) + rows;
    assert body[..8] == Le(offset, 8) && body[8..12] == Le32(n);
    Widths();
    LeRoundTrip(offset, 8);
    Le32RoundTrip(n);
  }

  lemma {:induction false} LoadFrame(body: Bytes, m: Store, offset: nat)
    requires 12 <= |body| < U32 && FromLe(body[..8]) == offset
    requires ReadRows(FromLe(body[8..12]), body[12..], map[]) == Some(m)
    ensures LoadCheckpoint(Frame(CKPT_MAGIC, body, Checksum(body))) == Some((m, offset))
  {
    FrameParts(CKPT_MAGIC, body, Checksum(body), []);
    var buf := Frame(CKPT_MAGIC, body, Checksum(body));
    assert buf + [] == buf;
  }

  /** Loading a written checkpoint returns the same map and offset. */
  lemma {:induction false} CheckpointRoundTrip(m: Store, offset: nat)
    requires StoreFits(m) && offset < U64
    ensures LoadCheckpoint(Checkpoint(m, offset)) == Some((m, offset))
  {
    var body := CheckpointBody(m, offset);
    assert |body| == |CheckpointBody(m, 0)|;
    BodyFields(offset, |m|, RowsBytes(Rows(m)));
    RowsLoad(m);
    LoadFrame(body, m, offset);
  }

  // ----- what loads fits -----

  /** The bytes a row takes in a checkpoint. */
  function RowSize(k: Bytes, v: Bytes): nat {
    8 + |k| + |v|
  }

  ghost function Weight(m: Store, keys: set<Bytes>): nat
    requires keys <= m.Keys
    decreases |keys|
  {
    if keys == {} then 0 else
    var k := Least(keys);
    assert |keys - {k}| < |keys|;
    RowSize(k, m[k]) + Weight(m, keys - {k})
  }

  lemma {:induction false} WeightWithout(m: Store, keys: set<Bytes>, k: Bytes)
    requires keys <= m.Keys && k in keys
    ensures Weight(m, keys) == RowSize(k, m[k]) + Weight(m, keys - {k})
    decreases |keys|
  {
    var l := Least(keys);
    assert |keys - {l}| < |keys|;
    if k != l {
      WeightWithout(m, keys - {l}, k);
      assert l in keys - {k} && keys - {l} - {k} == keys - {k} - {l};
      LeastStays(keys, l, k);
    }
  }

  lemma {:induction false} LeastStays(keys: set<Bytes>, l: Bytes, k: Bytes)
    requires keys != {} && l == Least(keys) && k in keys && k != l
    ensures keys - {k} != {} && Least(keys - {k}) == l
  {
    assert l in keys - {k};
    var l' := Least(keys - {k});
    if l' != l {
      assert Less(l, l') && Less(l', l);
      LessAsymmetric(l, l');
    }
  }

  lemma {:induction false} WeightSame(m: Store, m': Store, keys: set<Bytes>)
    requires keys <= m.Keys && keys <= m'.Keys && forall k | k in keys :: m[k] == m'[k]
    ensures Weight(m, keys) == Weight(m', keys)
    decreases |keys|
  {
    if keys != {} {
      var k := Least(keys);
      assert |keys - {k}| < |keys|;
      WeightSame(m, m', keys - {k});
    }
  }

  /** Putting a row adds at most its size. */
  lemma {:induction false} WeightPut(m: Store, k: Bytes, v: Bytes)
    ensures Weight(m[k := v], m[k := v].Keys) <= Weight(m, m.Keys) + RowSize(k, v)
  {
    hide Less;
    var m' := m[k := v];
    WeightWithout(m', m'.Keys, k);
    WeightSame(m, m', m'.Keys - {k});
    if k in m {
      WeightWithout(m, m.Keys, k);
      assert m'.Keys - {k} == m.Keys - {k};
    } else {
      assert m'.Keys - {k} == m.Keys;
    }
  }

  lemma {:induction false} SortedWeight(m: Store, keys: set<Bytes>)
    requires keys <= m.Keys
    ensures (forall k | k in SortedKeys(keys) :: k in m) &&
            |RowsBytes(RowsOf(m, SortedKeys(keys)))| == Weight(m, keys)
    decreases |keys|
  {
    SortedKeysSpec(keys);
    hide Less;
    if keys != {} {
      var k := Least(keys);
      assert |keys - {k}| < |keys|;
      SortedKeysSpec(keys - {k});
      SortedWeight(m, keys - {k});
      var rest := SortedKeys(keys - {k});
      assert ([k] + rest)[1..] == rest;
      assert RowsOf(m, [k] + rest)[1..] == RowsOf(m, rest);
    }
  }

  lemma {:induction false} BodySize(m: Store)
    ensures |CheckpointBody(m, 0)| == 12 + Weight(m, m.Keys)
  {
    hide Less, SortedKeys, RowsOf;
    SortedKeysSpec(m.Keys);
    SortedWeight(m, m.Keys);
  }

  ghost predicate RowsFit(m: Store) {
    forall k | k in m :: |k| < U32 && |m[k]| < U32
  }

  lemma {:induction false} ReadRowsStep(n: nat, cur: Bytes, acc: Store, m: Store)
    returns (k: Bytes, v: Bytes, rest: Bytes)
    requires n > 0 && ReadRows(n, cur, acc) == Some(m)
    ensures |k| < U32 && |v| < U32 && RowSize(k, v) + |rest| == |cur|
    ensures ReadRows(n - 1, rest, acc[k := v]) == Some(m)
  {
    hide ReadBlob;
    ReadBlobFits(cur);
    var mid := ReadBlob(cur).value.1;
    ReadBlobFits(mid);
    k, v, rest := ReadBlob(cur).value.0, ReadBlob(mid).value.0, ReadBlob(mid).value.1;
  }

  lemma {:induction false} ReadRowsFit(n: nat, cur: Bytes, acc: Store, m: Store)
    requires ReadRows(n, cur, acc) == Some(m) && RowsFit(acc)
    ensures RowsFit(m) && |m| <= |acc| + n && Weight(m, m.Keys) <= Weight(acc, acc.Keys) + |cur|
    decreases n
  {
    hide Weight, ReadBlob;
    if n > 0 {
      var k, v, rest := ReadRowsStep(n, cur, acc, m);
      WeightPut(acc, k, v);
      PutCount(acc, k, v);
      ReadRowsFit(n - 1, rest, acc[k := v], m);
    }
  }

  lemma {:induction false} PutCount(m: Store, k: Bytes, v: Bytes)
    ensures |m[k := v]| <= |m| + 1
  {
    assert m[k := v].Keys == m.Keys + {k};
  }

  lemma {:induction false} LoadedFits(buf: Bytes, m: Store, offset: nat)
    requires LoadCheckpoint(buf) == Some((m, offset))
    ensures StoreFits(m)
  {
    hide ReadRows, Weight, CheckpointBody, Checksum;
    LengthBound(buf[5..9]);
    var body := buf[9..9 + FromLe(buf[5..9])];
    LengthBound(body[8..12]);
    ReadRowsFit(FromLe(body[8..12]), body[12..], map[], m);
    EmptyWeight();
    BodySize(m);
  }

  lemma {:induction false} EmptyWeight()
    ensures var none: Store := map[]; Weight(none, none.Keys) == 0
  {
  }

  /** A checkpoint loads back if and only if its lengths fit the widths they are cast to. */
  lemma {:induction false} CheckpointRoundTripIff(m: Store, offset: nat)
    requires offset < U64
    ensures LoadCheckpoint(Checkpoint(m, offset)) == Some((m, offset)) <==> StoreFits(m)
  {
    hide LoadCheckpoint, Checkpoint, StoreFits;
    if LoadCheckpoint(Checkpoint(m, offset)) == Some((m, offset)) {
      LoadedFits(Checkpoint(m, offset), m, offset);
    } else if StoreFits(m) {
      CheckpointRoundTrip(m, offset);
    }
  }
}
