/** The CRC-32 of the log and the checkpoint, over a 32-bit register. */
module Crc {
  import opened ByteStrings

  const POLY: bv32 := 0xEDB88320
  const START: bv32 := 0xffff_ffff

  /** Register operations by name, so that proofs can treat them as a whole. */
  function Double(y: bv32): bv32 {
    y << 1
  }

  function Half(y: bv32): bv32 {
    y >> 1
  }

  function Xor(x: bv32, y: bv32): bv32 {
    x ^ y
  }

  predicate Odd(y: bv32) {
    y & 1 == 1
  }

  function Not(y: bv32): bv32 {
    !y
  }

  function PushBit(y: bv32, bit: bool): bv32 {
    (y << 1) | (if bit then 1 else 0)
  }

  /** One turn of the inner loop: shift right, folding the polynomial in on a set low bit. */
  function Round(c: bv32): bv32 {
    Xor(Half(c), if Odd(c) then POLY else 0)
  }

  function Rounds(c: bv32, n: nat): bv32
    decreases n, c
  {
    if n == 0 then c else Rounds(Round(c), n - 1)
  }

  function Shl(y: bv32, n: nat): bv32
    decreases n, y
  {
    if n == 0 then y else Double(Shl(y, n - 1))
  }

  /** The low `w` bits of `n` as a register; `u32::from(b)` is `Widen(b, 8)`. */
  function Widen(n: nat, w: nat): bv32
    decreases w, n
  {
    if w == 0 then 0 else PushBit(Widen(n / 2, w - 1), n % 2 == 1)
  }

  function Step(c: bv32, b: byte): bv32 {
    Rounds(Xor(c, Widen(b, 8)), 8)
  }

  function Register(c: bv32, data: Bytes): bv32
    decreases |data|
  {
    if data == [] then c else Register(Step(c, data[0]), data[1..])
  }

  function Crc32(data: Bytes): bv32 {
    Not(Register(START, data))
  }

  /** The low `w` bits of the register as a number. */
  function Low(c: bv32, w: nat): (n: nat)
    decreases w, c
  {
    if w == 0 then 0 else (if Odd(c) then 1 else 0) + 2 * Low(Half(c), w - 1)
  }

  function Pow2(n: nat): nat {
    if n == 0 then 1 else 2 * Pow2(n - 1)
  }

  lemma {:induction false} LowBound(c: bv32, w: nat)
    ensures Low(c, w) < Pow2(w)
    decreases w
  {
    if w > 0 {
      LowBound(Half(c), w - 1);
    }
  }

  function Shr(c: bv32, n: nat): bv32
    decreases n, c
  {
    if n == 0 then c else Shr(Half(c), n - 1)
  }

  function LowByte(c: bv32): byte {
    LowBound(c, 8);
    assert Pow2(8) == 256;
    Low(c, 8)
  }

  /** `u32::to_le_bytes`. */
  function CrcBytes(c: bv32, n: nat): (r: Bytes)
    ensures |r| == n
    decreases n, c
  {
    if n == 0 then [] else [LowByte(c)] + CrcBytes(Shr(c, 8), n - 1)
  }

  function Checksum(data: Bytes): (r: Bytes)
    ensures |r| == 4
  {
    CrcBytes(Crc32(data), 4)
  }

  // ----- the register as the code keeps it -----

  lemma {:induction false} MaskRound(c: bv32)
    ensures (c >> 1) ^ (POLY & (0 - (c & 1))) == Round(c)
  {
  }

  lemma {:induction false} RoundsSnoc(c: bv32, n: nat)
    ensures Rounds(c, n + 1) == Round(Rounds(c, n))
    decreases n
  {
    if n > 0 {
      RoundsSnoc(Round(c), n - 1);
    }
  }

  lemma {:induction false} RegisterSnoc(c: bv32, data: Bytes, b: byte)
    ensures Register(c, data + [b]) == Step(Register(c, data), b)
    decreases |data|
  {
    hide Step;
    if data == [] {
      assert data + [b] == [b];
    } else {
      assert (data + [b])[1..] == data[1..] + [b];
      RegisterSnoc(Step(c, data[0]), data[1..], b);
    }
  }

  /** The inner loop: eight bits, folding by mask instead of branch. */
  method FoldByte(start: bv32, b: byte) returns (crc: bv32)
    ensures crc == Step(start, b)
  {
    hide Round, Widen;
    crc := Xor(start, Widen(b, 8));
    ghost var mixed := crc;
    for k := 0 to 8
      invariant crc == Rounds(mixed, k)
    {
      MaskRound(crc);
      RoundsSnoc(mixed, k);
      var mask: bv32 := 0 - (crc & 1);
      crc := (crc >> 1) ^ (POLY & mask);
    }
  }

  method ComputeCrc32(data: Bytes) returns (crc: bv32)
    ensures crc == Crc32(data)
  {
    hide Step;
    crc := START;
    for i := 0 to |data|
      invariant crc == Register(START, data[..i])
    {
      RegisterSnoc(START, data[..i], data[i]);
      assert data[..i] + [data[i]] == data[..i + 1];
      crc := FoldByte(crc, data[i]);
    }
    assert data[..|data|] == data;
    crc := Not(crc);
  }
}
