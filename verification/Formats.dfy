/** The keys and rows of the database, and the records of its log, byte by byte. */
module Formats {
  import opened ByteStrings
  import opened Utf8
  import opened Storage
  import opened Crc
  import opened CrcProofs
  import opened Wal
  import opened WalProofs
  import opened Paths
  import opened Keys
  import opened Namespace

  // ----- keys -----

  /** Eight bytes, the most significant first. */
  function BigEndian(n: nat): Bytes {
    [n / 0x100_0000_0000_0000 % 256, n / 0x1_0000_0000_0000 % 256, n / 0x100_0000_0000 % 256, n / 0x1_0000_0000 % 256,
     n / 0x100_0000 % 256, n / 0x1_0000 % 256, n / 0x100 % 256, n % 256]
  }

  lemma {:induction false} BeFour(n: nat, w: nat)
    ensures Be(n, w + 4) ==
            Be(n / 0x1_0000_0000, w) + [n / 0x100_0000 % 256, n / 0x1_0000 % 256, n / 0x100 % 256, n % 256]
  {
    var a, b, c, d := n / 256, n / 256 / 256, n / 256 / 256 / 256, n / 256 / 256 / 256 / 256;
    assert Be(n, w + 4) == Be(a, w + 3) + [n % 256];
    assert Be(a, w + 3) == Be(b, w + 2) + [a % 256];
    assert Be(b, w + 2) == Be(c, w + 1) + [b % 256];
    assert Be(c, w + 1) == Be(d, w) + [c % 256];
    assert b == n / 0x1_0000 && c == n / 0x100_0000 && d == n / 0x1_0000_0000;
  }

  lemma {:induction false} Be8(n: nat)
    ensures Be(n, 8) == BigEndian(n)
  {
    BeFour(n, 4);
    var m := n / 0x1_0000_0000;
    BeFour(m, 0);
    assert m / 0x100_0000 == n / 0x100_0000_0000_0000 && m / 0x1_0000 == n / 0x1_0000_0000_0000;
    assert m / 0x100 == n / 0x100_0000_0000;
  }

  /** The keys of the database, as text around their ids. */
  lemma {:induction false} KeyTexts(id: u64, name: string, ty: string)
    ensures ROOT == 1
    ensures META_NEXT_ID == ToUtf8("meta/next_id")
    ensures META_VERSION == ToUtf8("meta/type_index_version")
    ensures NodeKey(id) == ToUtf8("node/") + BigEndian(id)
    ensures ChildKey(id, name) == ToUtf8("child/") + BigEndian(id) + ToUtf8("/" + name)
    ensures ChildPrefix(id) == ToUtf8("child/") + BigEndian(id) + ToUtf8("/")
    ensures TypeKey(ty, id) == ToUtf8("idx/t/" + ty + "/") + BigEndian(id)
    ensures TypePrefix(ty) == ToUtf8("idx/t/" + ty + "/")
  {
    hide ToUtf8, Be, BigEndian;
    Be8(id);
    Words();
    assert ToUtf8("/" + name) == ToUtf8("/") + ToUtf8(name) by { ToUtf8Concat("/", name); }
    ToUtf8Concat("idx/t/" + ty, "/");
    ToUtf8Concat("idx/t/", ty);
  }

  lemma {:induction false} Words()
    ensures META_NEXT_ID == ToUtf8("meta/next_id")
    ensures META_VERSION == ToUtf8("meta/type_index_version")
    ensures NODE == ToUtf8("node/") && CHILD == ToUtf8("child/") && INDEX == ToUtf8("idx/t/") && [SLASH] == ToUtf8("/")
  {
    hide ToUtf8;
    Ascii("meta/next_id", META_NEXT_ID);
    Ascii("meta/type_index_version", META_VERSION);
    Ascii("node/", NODE);
    Ascii("child/", CHILD);
    Ascii("idx/t/", INDEX);
    Ascii("/", [SLASH]);
  }

  /** Text of ASCII characters is their codes. */
  lemma {:induction false} Ascii(s: string, b: Bytes)
    requires |s| == |b| && forall i | 0 <= i < |s| :: s[i] as int == b[i] < 128
    ensures ToUtf8(s) == b
  {
    if s != "" {
      Ascii(s[1..], b[1..]);
      assert b == [b[0]] + b[1..];
    }
  }

  // ----- rows -----

  /** What a node row says, and an id row. */
  lemma {:induction false} RowsRead(b: Bytes, enc: Bytes, id: u64)
    ensures DIR_NODE == [0] && ValueNode(enc) == [1] + enc
    ensures ParseNode(b) == Ok(DirRecord) <==> b != [] && b[0] == 0
    ensures ParseNode(b) == Ok(ValueRecord(enc)) <==> b == [1] + enc
    ensures ParseNode(b).Err? ==> ParseNode(b) == Err(Invalid)
    ensures EncodeId(id) == BigEndian(id)
    ensures DecodeId(b) == Some(id) <==> b == BigEndian(id)
  {
    hide Be, BigEndian, FromBe;
    Be8(id);
    IdRoundTrip(id);
    if |b| == 8 {
      BeUnique(b);
    }
    if b != [] {
      assert b == [b[0]] + b[1..];
    }
  }

  lemma {:induction false} BeUnique(b: Bytes)
    ensures Be(FromBe(b), |b|) == b
  {
    if b != [] {
      var init, last := b[..|b| - 1], b[|b| - 1];
      BeUnique(init);
      assert FromBe(b) / 256 == FromBe(init) && FromBe(b) % 256 == last;
      assert b == init + [last];
    }
  }

  // ----- names -----

  /** What `join` takes as a name, and why it refuses others. */
  lemma {:induction false} JoinIs(p: Path, name: string)
    ensures name == "" ==> Join(p, name) == Err(EmptySegment)
    ensures name == "." || name == ".." || '/' in name ==> Join(p, name) == Err(ForbiddenSegment)
    ensures name != "" && name != "." && name != ".." && '/' !in name ==> Join(p, name) == Ok(p + [name])
  {
  }

  // ----- the log -----

  /** An operation is its code, and its key and value behind their lengths. */
  function OpPart(op: BatchOp): Bytes {
    match op
    case Put(k, v) => [1] + (Word32(|k|) + k) + (Word32(|v|) + v)
    case Delete(k) => [2] + (Word32(|k|) + k)
  }

  lemma {:induction false} OpPartIs(op: BatchOp)
    ensures OpBytes(op) == OpPart(op)
  {
    hide Word32;
    Le4(|op.key|);
    if op.Put? {
      Le4(|op.value|);
    }
  }

  lemma {:induction false} OpParts(ops: Wal.Batch)
    ensures OpsBytes(ops) == Concat(seq(|ops|, i requires 0 <= i < |ops| => OpPart(ops[i])))
  {
    hide OpPart, OpBytes;
    var parts := seq(|ops|, i requires 0 <= i < |ops| => OpPart(ops[i]));
    if ops != [] {
      OpParts(ops[1..]);
      assert parts[1..] == seq(|ops[1..]|, i requires 0 <= i < |ops[1..]| => OpPart(ops[1..][i]));
      OpPartIs(ops[0]);
    }
  }

  /** A record: the letters ALEF, version 1, the length of the body, the body, its checksum. */
  lemma {:induction false} RecordLayout(ops: Wal.Batch)
    ensures var body := [1] + (Word32(|ops|) + Concat(seq(|ops|, i requires 0 <= i < |ops| => OpPart(ops[i]))));
            Record(ops) == ToUtf8("ALEF") + ([1] + (Word32(|body|) + (body + Checksum(body))))
  {
    hide Word32, Concat, Checksum, OpPart, OpsBytes, Frame;
    OpParts(ops);
    Le4(|ops|);
    assert Body(ops) == [1] + (Word32(|ops|) + OpsBytes(ops));
    FrameLayout(MAGIC, Body(ops), Checksum(Body(ops)));
    Letters();
  }

  lemma {:induction false} FrameLayout(magic: Bytes, body: Bytes, sum: Bytes)
    ensures Frame(magic, body, sum) == magic + ([1] + (Word32(|body|) + (body + sum)))
  {
    hide Word32;
    Le4(|body|);
  }

  function RowPart(r: Row): Bytes {
    (Word32(|r.0|) + r.0) + (Word32(|r.1|) + r.1)
  }

  lemma {:induction false} RowParts(rows: seq<Row>)
    ensures RowsBytes(rows) == Concat(seq(|rows|, i requires 0 <= i < |rows| => RowPart(rows[i])))
  {
    hide Word32;
    var parts := seq(|rows|, i requires 0 <= i < |rows| => RowPart(rows[i]));
    if rows != [] {
      RowParts(rows[1..]);
      assert parts[1..] == seq(|rows[1..]|, i requires 0 <= i < |rows[1..]| => RowPart(rows[1..][i]));
      Le4(|rows[0].0|);
      Le4(|rows[0].1|);
    }
  }

  /** A checkpoint: the letters CKPT, version 1, the length of the body; log offset, count and rows; the checksum. */
  lemma {:induction false} CheckpointLayout(m: Store, offset: nat)
    ensures var rows := Storage.Rows(m);
            var parts := seq(|rows|, i requires 0 <= i < |rows| => RowPart(rows[i]));
            var body := Word64(offset) + (Word32(|m|) + Concat(parts));
            Checkpoint(m, offset) == ToUtf8("CKPT") + ([1] + (Word32(|body|) + (body + Checksum(body))))
  {
    hide Word32, Word64, Concat, Checksum, RowPart, Storage.Rows, RowsBytes, Frame;
    RowParts(Storage.Rows(m));
    Le8(offset);
    Le4(|m|);
    Letters();
    FrameLayout(CKPT_MAGIC, CheckpointBody(m, offset), Checksum(CheckpointBody(m, offset)));
    assert CheckpointBody(m, offset) == Word64(offset) + (Word32(|m|) + RowsBytes(Storage.Rows(m)));
  }

  // ----- reading the log, whatever its bytes -----

  lemma {:induction false} LeUnique(b: Bytes)
    ensures Le(FromLe(b), |b|) == b
  {
    if b != [] {
      LeUnique(b[1..]);
      assert FromLe(b) / 256 == FromLe(b[1..]) && FromLe(b) % 256 == b[0];
      assert b == [b[0]] + b[1..];
    }
  }

  lemma {:induction false} BlobFound(cur: Bytes)
    requires Wal.ReadBlob(cur).Some?
    ensures var (b, rest) := Wal.ReadBlob(cur).value; cur == Blob(b) + rest
  {
    var (b, rest) := Wal.ReadBlob(cur).value;
    LeUnique(cur[..4]);
    assert cur == cur[..4] + (b + rest);
  }

  lemma {:induction false} OpFound(cur: Bytes)
    requires ReadOp(cur).Some?
    ensures var (op, rest) := ReadOp(cur).value; cur == OpBytes(op) + rest
  {
    hide Blob, Wal.ReadBlob;
    BlobFound(cur[1..]);
    assert cur == [cur[0]] + cur[1..];
    if cur[0] == OP_PUT {
      BlobFound(Wal.ReadBlob(cur[1..]).value.1);
    }
  }

  lemma {:induction false} OpsFound(n: nat, cur: Bytes, acc: Wal.Batch, ops: Wal.Batch)
    requires ReadOps(n, cur, acc) == Some(acc + ops)
    ensures |ops| == n && cur == OpsBytes(ops)
    decreases n
  {
    hide ReadOp, OpBytes;
    if n == 0 {
      assert acc + ops == acc ==> ops == [] by {
        assert |acc + ops| == |acc| + |ops|;
      }
    } else {
      var (op, rest) := ReadOp(cur).value;
      OpFound(cur);
      OpsGrow(n - 1, rest, acc + [op]);
      var all := ReadOps(n - 1, rest, acc + [op]).value;
      assert all == acc + ops && all[..|acc| + 1] == acc + [op];
      assert all[|acc|] == ops[0] == op;
      assert acc + [op] + ops[1..] == acc + ops;
      OpsFound(n - 1, rest, acc + [op], ops[1..]);
    }
  }

  lemma {:induction false} OpsGrow(n: nat, cur: Bytes, acc: Wal.Batch)
    requires ReadOps(n, cur, acc).Some?
    ensures var all := ReadOps(n, cur, acc).value; |all| == |acc| + n && all[..|acc|] == acc
    decreases n
  {
    hide ReadOp;
    if n > 0 {
      var (op, rest) := ReadOp(cur).value;
      OpsGrow(n - 1, rest, acc + [op]);
      var all := ReadOps(n, cur, acc).value;
      assert all[..|acc|] == all[..|acc| + 1][..|acc|];
    }
  }

  /** The only body read as a batch is the one written for it. */
  lemma {:induction false} BodyIff(body: Bytes, ops: Wal.Batch)
    ensures ReadBody(body) == Some(ops) <==> body == Body(ops) && |ops| < U32 && forall op | op in ops :: OpFits(op)
  {
    hide ReadOps, OpsBytes, OpFits, FromLe;
    if ReadBody(body) == Some(ops) {
      ReadBodyFits(body, ops);
      assert [] + ops == ops;
      OpsFound(FromLe(body[1..5]), body[5..], [], ops);
      LeUnique(body[1..5]);
      assert body == [body[0]] + body[1..5] + body[5..];
    }
    if body == Body(ops) && |ops| < U32 && forall op | op in ops :: OpFits(op) {
      BodyRoundTripIff(ops);
    }
  }

  /** The only bytes read as a first record are those written for it. */
  lemma {:induction false} RecordIff(buf: Bytes, ops: Wal.Batch, rest: Bytes)
    ensures FirstRecord(buf) == Some((ops, rest)) <==> buf == Record(ops) + rest && Fits(ops)
  {
    hide ReadBody, Checksum, Body, OpFits, Record, FirstRecord;
    if buf == Record(ops) + rest && Fits(ops) {
      RecordRoundTripIff(ops, rest);
    }
    if FirstRecord(buf) == Some((ops, rest)) {
      RecordFound(buf, ops, rest);
      RecordRoundTripIff(ops, rest);
    }
  }

  lemma {:induction false} RecordFound(buf: Bytes, ops: Wal.Batch, rest: Bytes)
    requires FirstRecord(buf) == Some((ops, rest))
    ensures buf == Record(ops) + rest
  {
    hide ReadBody, Checksum, Body, OpFits, FromLe;
    var len := FromLe(buf[5..9]);
    var body := buf[9..9 + len];
    BodyIff(body, ops);
    LeUnique(buf[5..9]);
    assert |body| == len && Le32(|body|) == buf[5..9];
    assert buf == buf[..4] + [buf[4]] + buf[5..9] + body + buf[9 + len..9 + len + 4] + rest;
  }

  /** What stops a replay without complaint: too few bytes, or a checksum that does not match. */
  predicate Quiet(tail: Bytes) {
    if |tail| < 9 then true
    else
      && tail[..4] == ToUtf8("ALEF") && tail[4] == 1
      && var len := FromLe(tail[5..9]);
         9 + len + 4 > |tail| || Checksum(tail[9..9 + len]) != tail[9 + len..9 + len + 4]
  }

  /**
   * Replay on any bytes: the records in front are applied in order; what is behind the last
   * one is passed over if it is cut off or damaged, and refused otherwise.
   */
  lemma {:induction false} ReplayIs(buf: Bytes, m: Store) returns (batches: seq<Wal.Batch>, tail: Bytes)
    ensures AllFit(batches) && buf == Log(batches) + tail && FirstRecord(tail).None?
    ensures Replay(buf, m) == if Quiet(tail) then Some(ApplyAll(m, batches)) else None
    decreases |buf|
  {
    hide FirstRecord, Replay, Record, ApplyOps, Fits, Quiet;
    if FirstRecord(buf).None? {
      batches, tail := [], buf;
      StopsAtOnce(buf, m);
      assert [] + buf == buf;
    } else {
      var (ops, rest) := FirstRecord(buf).value;
      RecordIff(buf, ops, rest);
      ReplayFirst(buf, m);
      FirstRecordFits(buf);
      batches, tail := ReplayIs(rest, ApplyOps(m, ops));
      assert ([ops] + batches)[1..] == batches;
      assert Log([ops] + batches) + tail == Record(ops) + (Log(batches) + tail);
      batches := [ops] + batches;
    }
  }

  lemma {:induction false} StopsAtOnce(buf: Bytes, m: Store)
    requires FirstRecord(buf).None?
    ensures Replay(buf, m) == if Quiet(buf) then Some(m) else None
  {
    hide Checksum, ReadBody, FromLe, ToUtf8, ApplyOps;
    Letters();
  }

  lemma {:induction false} Letters()
    ensures MAGIC == ToUtf8("ALEF") && CKPT_MAGIC == ToUtf8("CKPT") && FORMAT == 1
  {
    hide ToUtf8;
    Ascii("ALEF", MAGIC);
    Ascii("CKPT", CKPT_MAGIC);
  }

  /** A checkpoint of which up to four consecutive bytes of the body are damaged is refused. */
  lemma {:induction false} DamagedCheckpoint(body: Bytes, pre: Bytes, u: Bytes, v: Bytes, post: Bytes)
    requires body == pre + u + post && |u| == |v| <= 4 && u != v && |body| < U32
    ensures LoadCheckpoint(Frame(CKPT_MAGIC, pre + v + post, Checksum(body))) == None
  {
    hide Checksum, ReadRows, FromLe;
    BurstDetected(pre, u, v, post);
    var damaged := pre + v + post;
    FrameParts(CKPT_MAGIC, damaged, Checksum(body), []);
    assert Frame(CKPT_MAGIC, damaged, Checksum(body)) + [] == Frame(CKPT_MAGIC, damaged, Checksum(body));
  }
}
