/** The write-ahead log and checkpoint formats, and replay, as functions over bytes. */
module Wal {
  import opened ByteStrings
  import opened Crc
  import opened Storage

  const MAGIC: Bytes := [0x41, 0x4C, 0x45, 0x46]
  const CKPT_MAGIC: Bytes := [0x43, 0x4B, 0x50, 0x54]
  const FORMAT: byte := 1
  const REC_COMMIT: byte := 1
  const OP_PUT: byte := 1
  const OP_DELETE: byte := 2

  type Batch = seq<BatchOp>

  // ----- encoding -----

  function OpBytes(op: BatchOp): Bytes {
    match op
    case Put(k, v) => [OP_PUT] + (Blob(k) + Blob(v))
    case Delete(k) => [OP_DELETE] + Blob(k)
  }

  function OpsBytes(ops: Batch): Bytes {
    if ops == [] then [] else OpBytes(ops[0]) + OpsBytes(ops[1..])
  }

  function Body(ops: Batch): Bytes {
    [REC_COMMIT] + Le32(|ops|) + OpsBytes(ops)
  }

  /** Magic, version, body length, body, checksum. */
  function Frame(magic: Bytes, body: Bytes, sum: Bytes): Bytes {
    magic + [FORMAT] + Le32(|body|) + body + sum
  }

  function Record(ops: Batch): Bytes {
    Frame(MAGIC, Body(ops), Checksum(Body(ops)))
  }

  function Log(batches: seq<Batch>): Bytes {
    if batches == [] then [] else Record(batches[0]) + Log(batches[1..])
  }

  function ApplyAll(m: Store, batches: seq<Batch>): Store
    decreases batches
  {
    if batches == [] then m else ApplyAll(ApplyOps(m, batches[0]), batches[1..])
  }

  // ----- reading; `None` is `StorageError::Corrupt` -----

  function ReadBlob(cur: Bytes): (r: Option<(Bytes, Bytes)>)
    ensures r.Some? ==> |r.value.1| < |cur|
  {
    if |cur| < 4 then None else
    var len := FromLe(cur[..4]);
    if |cur| - 4 < len then None else Some((cur[4..4 + len], cur[4 + len..]))
  }

  function ReadOp(cur: Bytes): (r: Option<(BatchOp, Bytes)>)
    ensures r.Some? ==> |r.value.1| < |cur|
  {
    if cur == [] then None
    else if cur[0] == OP_PUT then
      match ReadBlob(cur[1..])
      case None => None
      case Some((k, rest)) =>
        match ReadBlob(rest)
        case None => None
        case Some((v, rest)) => Some((Put(k, v), rest))
    else if cur[0] == OP_DELETE then
      match ReadBlob(cur[1..])
      case None => None
      case Some((k, rest)) => Some((Delete(k), rest))
    else None
  }

  /** `n` operations and nothing behind them. */
  function ReadOps(n: nat, cur: Bytes, acc: Batch): Option<Batch>
    decreases n
  {
    if n == 0 then
      if cur == [] then Some(acc) else None
    else
      match ReadOp(cur)
      case None => None
      case Some((op, rest)) => ReadOps(n - 1, rest, acc + [op])
  }

  function ReadBody(body: Bytes): Option<Batch> {
    if |body| < 5 || body[0] != REC_COMMIT then None
    else ReadOps(FromLe(body[1..5]), body[5..], [])
  }

  /**
   * Replay stops quietly at a torn or damaged record and fails on anything else that
   * is not a record.
   */
  function Replay(buf: Bytes, m: Store): Option<Store>
    decreases |buf|
  {
    if |buf| < 9 then Some(m)
    else if buf[..4] != MAGIC || buf[4] != FORMAT then None
    else
      var len := FromLe(buf[5..9]);
      if 9 + len + 4 > |buf| then Some(m)
      else
        var body := buf[9..9 + len];
        if Checksum(body) != buf[9 + len..9 + len + 4] then Some(m)
        else
          match ReadBody(body)
          case None => None
          case Some(ops) => Replay(buf[9 + len + 4..], ApplyOps(m, ops))
  }

  /** The record at the front of a log, read in full, and what follows it. */
  function FirstRecord(buf: Bytes): Option<(Batch, Bytes)> {
    if |buf| < 9 || buf[..4] != MAGIC || buf[4] != FORMAT then None
    else
      var len := FromLe(buf[5..9]);
      if 9 + len + 4 > |buf| then None
      else
        var body := buf[9..9 + len];
        if Checksum(body) != buf[9 + len..9 + len + 4] then None
        else
          match ReadBody(body)
          case None => None
          case Some(ops) => Some((ops, buf[9 + len + 4..]))
  }

  // ----- checkpoints -----

  function RowsBytes(rows: seq<Row>): Bytes {
    if rows == [] then [] else Blob(rows[0].0) + Blob(rows[0].1) + RowsBytes(rows[1..])
  }

  ghost function CheckpointBody(m: Store, offset: nat): Bytes {
    Le(offset, 8) + Le32(|m|) + RowsBytes(Rows(m))
  }

  ghost function Checkpoint(m: Store, offset: nat): Bytes {
    var body := CheckpointBody(m, offset);
    Frame(CKPT_MAGIC, body, Checksum(body))
  }

  function ReadRows(n: nat, cur: Bytes, acc: Store): Option<Store>
    decreases n
  {
    if n == 0 then
      if cur == [] then Some(acc) else None
    else
      match ReadBlob(cur)
      case None => None
      case Some((k, rest)) =>
        match ReadBlob(rest)
        case None => None
        case Some((v, rest)) => ReadRows(n - 1, rest, acc[k := v])
  }

  function LoadCheckpoint(buf: Bytes): Option<(Store, nat)> {
    if |buf| < 9 || buf[..4] != CKPT_MAGIC || buf[4] != FORMAT then None
    else
      var len := FromLe(buf[5..9]);
      if |buf| < 9 + len + 4 then None
      else
        var body := buf[9..9 + len];
        if Checksum(body) != buf[9 + len..9 + len + 4] || |body| < 12 then None
        else
          match ReadRows(FromLe(body[8..12]), body[12..], map[])
          case None => None
          case Some(m) => Some((m, FromLe(body[..8])))
  }

  // ----- lengths fit the u32 they are cast to -----

  predicate OpFits(op: BatchOp) {
    |op.key| < U32 && (op.Put? ==> |op.value| < U32)
  }

  predicate Fits(ops: Batch) {
    |ops| < U32 && |Body(ops)| < U32 && forall op | op in ops :: OpFits(op)
  }

  ghost predicate StoreFits(m: Store) {
    && |m| < U32 && |CheckpointBody(m, 0)| < U32
    && forall k | k in m :: |k| < U32 && |m[k]| < U32
  }
}
