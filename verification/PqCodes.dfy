/**
 Packing numbers of 1 to 16 bits into bytes and back: a register that is flushed byte by byte, and the
 two shortcuts for 8 and for 16 bits.
 */
module PqCodes {
  import opened Bits
  import opened Rows

  /** The numbers' low bits, the first number lowest. */
  function Pack(vals: seq<nat>, nbits: nat): nat {
    if vals == [] then 0 else Low(vals[0], nbits) + Pow2(nbits) * Pack(vals[1..], nbits)
  }

  /** The first n fields of a packed number. */
  function Unpack(packed: nat, nbits: nat, n: nat): (r: seq<nat>)
    ensures |r| == n
    decreases n
  {
    if n == 0 then [] else [Low(packed, nbits)] + Unpack(Shr(packed, nbits), nbits, n - 1)
  }

  lemma LowShr(lo: nat, hi: nat, n: nat)
    requires lo < Pow2(n)
    ensures Low(lo + Pow2(n) * hi, n) == lo && Shr(lo + Pow2(n) * hi, n) == hi
  {
    assert lo + Pow2(n) * hi == hi * Pow2(n) + lo;
    DivMod(hi, Pow2(n), lo);
  }

  lemma LowBound(a: nat, n: nat)
    ensures Low(a, n) < Pow2(n)
  {
  }

  lemma LowOfSmall(a: nat, n: nat)
    requires a < Pow2(n)
    ensures Low(a, n) == a
  {
    DivMod(0, Pow2(n), a);
  }

  /** MAIN: packing and unpacking n fields of any width gives each number's low bits back. */
  lemma {:induction false} UnpackOfPack(vals: seq<nat>, nbits: nat)
    ensures forall m :: 0 <= m < |vals| ==> Unpack(Pack(vals, nbits), nbits, |vals|)[m] == Low(vals[m], nbits)
  {
    if vals != [] {
      LowBound(vals[0], nbits);
      LowShr(Low(vals[0], nbits), Pack(vals[1..], nbits), nbits);
      UnpackOfPack(vals[1..], nbits);
    }
  }

  /** Hence the numbers come back exactly when they fit. */
  lemma RoundTripIff(vals: seq<nat>, nbits: nat)
    ensures Unpack(Pack(vals, nbits), nbits, |vals|) == vals <==> forall m :: 0 <= m < |vals| ==> vals[m] < Pow2(nbits)
  {
    UnpackOfPack(vals, nbits);
    var r := Unpack(Pack(vals, nbits), nbits, |vals|);
    forall m | 0 <= m < |vals| ensures r[m] == vals[m] <==> vals[m] < Pow2(nbits) {
      LowBound(vals[m], nbits);
      if vals[m] < Pow2(nbits) { LowOfSmall(vals[m], nbits); }
    }
  }

  lemma {:induction false} PackAppend(vals: seq<nat>, x: nat, nbits: nat)
    ensures Pack(vals + [x], nbits) == Pack(vals, nbits) + Low(x, nbits) * Pow2(Row(|vals|, nbits))
  {
    if vals == [] {
      assert [x][1..] == [];
    } else {
      assert (vals + [x])[1..] == vals[1..] + [x];
      PackAppend(vals[1..], x, nbits);
      Pow2Sum(nbits, Row(|vals| - 1, nbits));
      Shuffle(Pow2(nbits), Pack(vals[1..], nbits), Low(x, nbits), Pow2(Row(|vals| - 1, nbits)));
    }
  }

  lemma Shuffle(a: nat, b: nat, c: nat, d: nat)
    ensures a * (b + c * d) == a * b + c * (a * d)
  {
    assert a * (c * d) == c * (a * d);
  }

  lemma {:induction false} PackBound(vals: seq<nat>, nbits: nat)
    ensures Pack(vals, nbits) < Pow2(Row(|vals|, nbits))
  {
    if vals != [] {
      PackBound(vals[1..], nbits);
      LowBound(vals[0], nbits);
      Pow2Sum(nbits, Row(|vals| - 1, nbits));
      FieldFits(Low(vals[0], nbits), Pow2(nbits), Pack(vals[1..], nbits), Pow2(Row(|vals| - 1, nbits)));
    }
  }

  lemma FieldFits(lo: nat, p: nat, q: nat, r: nat)
    requires lo < p && q < r
    ensures lo + p * q < p * r
  {
    Grows(q + 1, r, p);
    assert p * q == q * p && p * r == r * p && (q + 1) * p == q * p + p;
  }

  lemma ProductFits(a: nat, p: nat, q: nat)
    requires a < p && q > 0
    ensures a * q < p * q
  {
    Grows(a + 1, p, q);
    assert (a + 1) * q == a * q + q;
  }

  // -------------------------------------------------------------------------
  // Where each bit goes
  // -------------------------------------------------------------------------

  /** Bit i of a number, the lowest first. */
  function Bit(a: nat, i: nat): nat {
    if i == 0 then a % 2 else Bit(a / 2, i - 1)
  }

  lemma {:induction false} BitSplit(lo: nat, hi: nat, n: nat, i: nat)
    requires lo < Pow2(n)
    ensures Bit(lo + Pow2(n) * hi, i) == if i < n then Bit(lo, i) else Bit(hi, i - n)
  {
    if n > 0 {
      var p := Pow2(n - 1) * hi;
      var a := lo + 2 * p;
      assert Pow2(n) * hi == 2 * p;
      assert a % 2 == lo % 2 && a / 2 == lo / 2 + p;
      if i > 0 { BitSplit(lo / 2, hi, n - 1, i - 1); }
    }
  }

  lemma LowBit(v: nat, n: nat, i: nat)
    requires i < n
    ensures Bit(Low(v, n), i) == Bit(v, i)
  {
    hide Pow2, Bit;
    Split(v, n);
    BitSplit(Low(v, n), Shr(v, n), n, i);
    assert Low(v, n) + Pow2(n) * Shr(v, n) == v;
  }

  /** Bit j of number m is bit m * nbits + j of the packed number. */
  lemma {:induction false} PackBit(vals: seq<nat>, nbits: nat, m: nat, j: nat)
    requires m < |vals| && j < nbits
    ensures Bit(Pack(vals, nbits), m * nbits + j) == Bit(vals[m], j)
  {
    hide Pow2, Bit, Low;
    LowBound(vals[0], nbits);
    BitSplit(Low(vals[0], nbits), Pack(vals[1..], nbits), nbits, m * nbits + j);
    if m == 0 {
      LowBit(vals[0], nbits, j);
    } else {
      assert m * nbits == (m - 1) * nbits + nbits;
      PackBit(vals[1..], nbits, m - 1, j);
    }
  }

  /** Bit j of byte i is bit 8 * i + j of the bytes' number. */
  lemma {:induction false} ValueBit(bytes: seq<int>, i: nat, j: nat)
    requires Bytes(bytes) && i < |bytes| && j < 8
    ensures Bit(Value(bytes), 8 * i + j) == Bit(bytes[i], j)
  {
    hide Bit;
    Pow2Constants();
    BitSplit(bytes[0], Value(bytes[1..]), 8, 8 * i + j);
    if i > 0 { ValueBit(bytes[1..], i - 1, j); }
  }

  /** MAIN: bit j of number m is found in the code bytes at bit position m * nbits + j, the lowest bit of
      each byte first. */
  lemma CodeBit(code: seq<int>, vals: seq<nat>, nbits: nat, m: nat, j: nat)
    requires Bytes(code) && Value(code) == Pack(vals, nbits) && m < |vals| && j < nbits
    requires m * nbits + j < 8 * |code|
    ensures 0 <= m * nbits + j && Bit(code[(m * nbits + j) / 8], (m * nbits + j) % 8) == Bit(vals[m], j)
  {
    hide Bit, Value, Pack;
    PackBit(vals, nbits, m, j);
    var at := m * nbits + j;
    assert at == 8 * (at / 8) + at % 8;
    ValueBit(code, at / 8, at % 8);
  }

  // -------------------------------------------------------------------------
  // The register
  // -------------------------------------------------------------------------

  /** Small fields do not reach the register's 64 bits. */
  lemma ShiftFits(a: nat, n: nat, w: nat)
    requires a < Pow2(w) && n + w < 64
    ensures Shl64(a, n) == a * Pow2(n)
  {
    hide Pow2;
    Pow2Sum(w, n);
    Pow2Ascends(n + w, 64);
    ProductFits(a, Pow2(w), Pow2(n));
    Pow2Is64();
  }

  lemma Pow2Is64()
    ensures Pow2(64) == 0x1_0000_0000_0000_0000
  {
    Pow2Constants();
    Pow2Sum(16, 16);
    Pow2Sum(32, 32);
  }

  class PQEncoderGeneric {
    const code: array<int>
    const nbits: nat
    var pos: nat
    var reg: nat
    var nBuffered: nat
    ghost var vals: seq<nat>

    /** Bytes written plus bits still in the register are the numbers packed so far. */
    ghost predicate Valid()
      reads this, code
    {
      && 1 <= nbits <= 16 && pos <= code.Length && nBuffered < 8
      && Bytes(code[..pos]) && Value(code[..pos]) + reg * Pow2(8 * pos) == Pack(vals, nbits)
      && reg < Pow2(nBuffered) && 8 * pos + nBuffered == Row(|vals|, nbits)
    }

    constructor (code: array<int>, nbits: nat)
      requires 1 <= nbits <= 16
      ensures Valid() && vals == [] && this.code == code && this.nbits == nbits
    {
      this.code, this.nbits := code, nbits;
      pos, reg, nBuffered, vals := 0, 0, 0, [];
    }

    method Encode(x: nat)
      requires Valid() && Row(|vals| + 1, nbits) <= 8 * code.Length
      modifies this, code
      ensures Valid() && vals == old(vals) + [x]
    {
      hide Pow2, And, Low, Shr, Bytes, Value, Row, Filling, Pack;
      ghost var bits := Row(|vals| + 1, nbits);
      EncodeOr(x);
      while nBuffered >= 8
        invariant Filling(code[..], pos, reg, nBuffered, Pack(vals, nbits), bits) && vals == old(vals) + [x]
        decreases nBuffered
      {
        FlushStep(code[..], pos, reg, nBuffered, Pack(vals, nbits), bits);
        ghost var before := code[..];
        code[pos] := And(reg, 0xff);
        pos := pos + 1;
        reg := Shr(reg, 8);
        nBuffered := nBuffered - 8;
        assert code[..] == before[pos - 1 := code[pos - 1]];
      }
      Flushed(code[..], pos, reg, nBuffered, Pack(vals, nbits), bits);
      assert code[..][..pos] == code[..pos];
    }

    method EncodeOr(x: nat)
      requires Valid() && Row(|vals| + 1, nbits) <= 8 * code.Length
      modifies this`reg, this`nBuffered, this`vals
      ensures vals == old(vals) + [x]
      ensures Filling(code[..], pos, reg, nBuffered, Pack(vals, nbits), Row(|vals|, nbits))
    {
      hide Pow2, And, Or, Low, Shl64, Mask, Bytes, Value, Pack;
      AndMask(x, nbits);
      LowBound(x, nbits);
      ShiftFits(Low(x, nbits), nBuffered, nbits);
      OrDisjoint(reg, Low(x, nbits), nBuffered);
      PackAppend(vals, x, nbits);
      FieldAdded(reg, Low(x, nbits), nBuffered, nbits, pos, Row(|vals|, nbits));
      RowNext(|vals|, |vals| + 1, nbits);
      reg := Or(reg, Shl64(And(x, Mask(nbits)), nBuffered));
      nBuffered := nBuffered + nbits;
      vals := vals + [x];
      assert code[..][..pos] == code[..pos];
    }

    /** The destructor: a last byte if bits are left. */
    method Finish() returns (size: nat)
      requires Valid() && Row(|vals|, nbits) <= 8 * code.Length
      modifies code
      ensures size <= code.Length && size == (Row(|vals|, nbits) + 7) / 8
      ensures Bytes(code[..size]) && Value(code[..size]) == Pack(vals, nbits)
    {
      size := pos;
      if nBuffered > 0 {
        LastByte(code[..pos], reg, nBuffered);
        ghost var before := code[..pos];
        code[pos] := And(reg, 0xff);
        size := pos + 1;
        assert code[..size] == before + [And(reg, 0xff)];
      } else {
        assert reg == 0;
      }
    }
  }

  /** The encoder between two flushes: the register may hold more than a byte. */
  ghost predicate Filling(code: seq<int>, pos: nat, reg: nat, nBuffered: nat, packed: nat, bits: nat) {
    && pos <= |code| && Bytes(code[..pos]) && Value(code[..pos]) + reg * Pow2(8 * pos) == packed
    && reg < Pow2(nBuffered) && 8 * pos + nBuffered == bits <= 8 * |code|
  }

  lemma FieldAdded(reg: nat, x: nat, nb: nat, nbits: nat, pos: nat, bits: nat)
    requires reg < Pow2(nb) && x < Pow2(nbits) && 8 * pos + nb == bits
    ensures (reg + x * Pow2(nb)) * Pow2(8 * pos) == reg * Pow2(8 * pos) + x * Pow2(bits)
    ensures reg + x * Pow2(nb) < Pow2(nb + nbits)
  {
    Pow2Sum(nb, 8 * pos);
    Pow2Sum(nbits, nb);
    Grows(x + 1, Pow2(nbits), Pow2(nb));
    Distribute(reg, x, Pow2(nb), Pow2(8 * pos));
  }

  lemma Distribute(a: nat, x: nat, p: nat, q: nat)
    ensures (a + x * p) * q == a * q + x * (p * q)
  {
    assert (x * p) * q == x * (p * q);
  }

  lemma Flushed(code: seq<int>, pos: nat, reg: nat, nBuffered: nat, packed: nat, bits: nat)
    requires Filling(code, pos, reg, nBuffered, packed, bits)
    ensures pos <= |code| && Bytes(code[..pos]) && Value(code[..pos]) + reg * Pow2(8 * pos) == packed
    ensures reg < Pow2(nBuffered) && 8 * pos + nBuffered == bits
  {
  }

  /** One byte leaves the register. */
  lemma FlushStep(code: seq<int>, pos: nat, reg: nat, nBuffered: nat, packed: nat, bits: nat)
    requires Filling(code, pos, reg, nBuffered, packed, bits) && nBuffered >= 8
    ensures pos < |code|
    ensures Filling(code[pos := And(reg, 0xff)], pos + 1, Shr(reg, 8), nBuffered - 8, packed, bits)
  {
    ByteOut(reg, nBuffered);
    var b := Low(reg, 8);
    var code' := code[pos := b];
    assert code'[..pos + 1] == code[..pos] + [b];
    ValueAppend(code[..pos], b);
    ByteShifted(reg, b, Shr(reg, 8), pos);
  }

  lemma ByteShifted(reg: nat, b: nat, hi: nat, pos: nat)
    requires reg == hi * 256 + b
    ensures reg * Pow2(8 * pos) == b * Pow2(8 * pos) + hi * Pow2(8 * (pos + 1))
  {
    Pow2Constants();
    Pow2Sum(8, 8 * pos);
    Distribute(b, hi, 256, Pow2(8 * pos));
  }

  lemma ByteOut(reg: nat, nb: nat)
    requires reg < Pow2(nb)
    ensures And(reg, 0xff) == Low(reg, 8) < 256 && reg == Shr(reg, 8) * 256 + Low(reg, 8)
    ensures nb >= 8 ==> Shr(reg, 8) < Pow2(nb - 8)
    ensures nb <= 8 ==> Low(reg, 8) == reg
  {
    Pow2Constants();
    AndMask(reg, 8);
    Split(reg, 8);
    if nb >= 8 { Pow2Sum(nb - 8, 8); }
    if nb <= 8 {
      Pow2Ascends(nb, 8);
      LowOfSmall(reg, 8);
    }
  }

  lemma LastByte(bytes: seq<int>, reg: nat, nb: nat)
    requires Bytes(bytes) && reg < Pow2(nb) && nb < 8
    ensures And(reg, 0xff) == reg < 256 && Bytes(bytes + [reg])
    ensures Value(bytes + [reg]) == Value(bytes) + reg * Pow2(8 * |bytes|)
  {
    ByteOut(reg, nb);
    ValueAppend(bytes, reg);
  }

  class PQDecoderGeneric {
    const code: seq<int>
    const nbits: nat
    const mask: nat
    var pos: nat
    var reg: nat
    var nBuffered: nat

    ghost predicate Valid()
      reads this
    {
      1 <= nbits <= 16 && mask == Mask(nbits) && pos <= |code| && Bytes(code) && reg < Pow2(nBuffered) && nBuffered < 8
    }

    /** What is still to be decoded, as a number. */
    ghost function Rest(): nat
      reads this
      requires Valid()
    {
      Pending(code, pos, reg, nBuffered)
    }

    ghost function BitsLeft(): int
      reads this
    {
      nBuffered + 8 * (|code| - pos)
    }

    constructor (code: seq<int>, nbits: nat)
      requires 1 <= nbits <= 16 && Bytes(code)
      ensures Valid() && this.nbits == nbits && Rest() == Value(code) && BitsLeft() == 8 * |code|
    {
      this.code, this.nbits := code, nbits;
      OneShifted(nbits);
      mask := Shl64(1, nbits) - 1;
      pos, reg, nBuffered := 0, 0, 0;
      new;
      assert code[0..] == code;
    }

    method Decode() returns (v: nat)
      requires Valid() && BitsLeft() >= nbits
      modifies this
      ensures Valid() && v == Low(old(Rest()), nbits) && Rest() == Shr(old(Rest()), nbits)
      ensures BitsLeft() == old(BitsLeft()) - nbits
    {
      ghost var rest := Rest();
      while nBuffered < nbits
        invariant nBuffered < nbits + 8 && pos <= |code| && BitsLeft() == old(BitsLeft()) && reg < Pow2(nBuffered)
        invariant Pending(code, pos, reg, nBuffered) == rest
        decreases nbits - nBuffered
      {
        ByteIn(code, pos, reg, nBuffered);
        reg := Or(reg, Shl64(code[pos], nBuffered));
        pos := pos + 1;
        nBuffered := nBuffered + 8;
      }
      FieldOut(code, pos, reg, nBuffered, nbits);
      v := And(reg, mask);
      reg := Shr(reg, nbits);
      nBuffered := nBuffered - nbits;
    }
  }

  /** The register's bits, then the bytes not read yet. */
  ghost function Pending(code: seq<int>, pos: nat, reg: nat, nBuffered: nat): nat
    requires Bytes(code) && pos <= |code|
  {
    reg + Pow2(nBuffered) * Value(code[pos..])
  }

  lemma OneShifted(nbits: nat)
    requires 1 <= nbits <= 16
    ensures Shl64(1, nbits) == Pow2(nbits)
  {
    assert Pow2(1) == 2;
    ShiftFits(1, nbits, 1);
  }

  lemma ByteIn(code: seq<int>, pos: nat, reg: nat, nb: nat)
    requires Bytes(code) && pos < |code| && reg < Pow2(nb) && nb < 16
    ensures Or(reg, Shl64(code[pos], nb)) == reg + code[pos] * Pow2(nb) < Pow2(nb + 8)
    ensures Pending(code, pos + 1, reg + code[pos] * Pow2(nb), nb + 8) == Pending(code, pos, reg, nb)
  {
    var b := code[pos];
    hide Pow2, Or, Shl64;
    Pow2Constants();
    ShiftFits(b, nb, 8);
    OrDisjoint(reg, b, nb);
    Pow2Sum(8, nb);
    FieldFits(reg, Pow2(nb), b, 256);
    Commute(b, Pow2(nb));
    assert code[pos..][0] == b && code[pos..][1..] == code[pos + 1..];
    ByteRegroup(reg, b, Pow2(nb), Value(code[pos + 1..]));
  }

  lemma Commute(a: nat, b: nat)
    ensures a * b == b * a
  {
  }

  lemma ByteRegroup(reg: nat, b: nat, p: nat, rest: nat)
    ensures reg + b * p + 256 * p * rest == reg + p * (b + 256 * rest)
  {
    assert p * (256 * rest) == 256 * p * rest;
  }

  lemma FieldOut(code: seq<int>, pos: nat, reg: nat, nb: nat, nbits: nat)
    requires Bytes(code) && pos <= |code| && reg < Pow2(nb) && nbits <= nb
    ensures And(reg, Mask(nbits)) == Low(Pending(code, pos, reg, nb), nbits)
    ensures Shr(reg, nbits) < Pow2(nb - nbits)
    ensures Pending(code, pos, Shr(reg, nbits), nb - nbits) == Shr(Pending(code, pos, reg, nb), nbits)
  {
    hide Pow2, And, Mask, Value;
    AndMask(reg, nbits);
    Split(reg, nbits);
    Pow2Sum(nb - nbits, nbits);
    var p, q, rest := Pow2(nbits), Pow2(nb - nbits), Value(code[pos..]);
    var lo, hi := Low(reg, nbits), Shr(reg, nbits);
    QuotientFits(hi, lo, p, q);
    Regroup(lo, hi, p, q, rest);
    LowShr(lo, hi + q * rest, nbits);
  }

  lemma QuotientFits(hi: nat, lo: nat, p: nat, q: nat)
    requires hi * p + lo < q * p
    ensures hi < q
  {
    if hi >= q { Grows(q, hi, p); }
  }

  lemma Regroup(lo: nat, hi: nat, p: nat, q: nat, rest: nat)
    ensures hi * p + lo + (q * p) * rest == lo + p * (hi + q * rest)
  {
    assert (q * p) * rest == p * (q * rest);
  }

  // -------------------------------------------------------------------------
  // The shortcuts for 8 and 16 bits
  // -------------------------------------------------------------------------

  /** With 8 bits the fields are the bytes. */
  lemma {:induction false} ByteFields(code: seq<int>)
    requires Bytes(code)
    ensures forall m :: 0 <= m < |code| ==> Unpack(Value(code), 8, |code|)[m] == code[m]
  {
    if code != [] {
      Pow2Constants();
      LowShr(code[0], Value(code[1..]), 8);
      ByteFields(code[1..]);
    }
  }

  /** With 16 bits they are pairs of bytes. */
  lemma {:induction false} PairFields(code: seq<int>, M: nat)
    requires Bytes(code) && |code| == 2 * M
    ensures forall m :: 0 <= m < M ==> Unpack(Value(code), 16, M)[m] == code[2 * m] + 256 * code[2 * m + 1]
  {
    if M > 0 {
      Pow2Constants();
      var rest := code[1..][1..];
      assert rest == code[2..];
      assert Value(code) == (code[0] + 256 * code[1]) + 65536 * Value(rest);
      LowShr(code[0] + 256 * code[1], Value(rest), 16);
      PairFields(rest, M - 1);
      forall m | 0 <= m < M ensures Unpack(Value(code), 16, M)[m] == code[2 * m] + 256 * code[2 * m + 1] {
        if m > 0 {
          assert rest[2 * (m - 1)] == code[2 * m] && rest[2 * (m - 1) + 1] == code[2 * m + 1];
        }
      }
    }
  }

  lemma OrPair(lo: int, hi: int)
    requires 0 <= lo < 256 && 0 <= hi < 256
    ensures Or(lo, Shl64(hi, 8)) == lo + 256 * hi
  {
    Pow2Constants();
    ShiftFits(hi, 8, 8);
    OrDisjoint(lo, hi, 8);
  }

  /** PQEncoder8: the cast keeps the low byte. */
  method Encode8(vals: seq<nat>, code: array<int>)
    requires |vals| <= code.Length
    modifies code
    ensures Bytes(code[..|vals|]) && Value(code[..|vals|]) == Pack(vals, 8)
  {
    hide Pow2, Low, Pack, Value;
    assert code[..0] == [] && vals[..0] == [];
    NothingPacked(8);
    for m := 0 to |vals|
      invariant Bytes(code[..m]) && Value(code[..m]) == Pack(vals[..m], 8)
    {
      ByteAppended(vals, code[..m], m);
      code[m] := Low(vals[m], 8);
      assert code[..m + 1] == code[..m] + [Low(vals[m], 8)];
    }
    assert vals[..|vals|] == vals;
  }

  lemma NothingPacked(nbits: nat)
    ensures Pack([], nbits) == 0 && Value([]) == 0
  {
  }

  lemma ByteAppended(vals: seq<nat>, bytes: seq<int>, m: nat)
    requires m < |vals| && Bytes(bytes) && |bytes| == m && Value(bytes) == Pack(vals[..m], 8)
    ensures Low(vals[m], 8) < 256
    ensures Value(bytes + [Low(vals[m], 8)]) == Pack(vals[..m + 1], 8)
  {
    Pow2Constants();
    LowBound(vals[m], 8);
    ValueAppend(bytes, Low(vals[m], 8));
    PackAppend(vals[..m], vals[m], 8);
    RowIsProduct(m, 8);
    assert vals[..m + 1] == vals[..m] + [vals[m]];
  }

  /** PQEncoder16: low byte, high byte. */
  method Encode16(vals: seq<nat>, code: array<int>)
    requires 2 * |vals| <= code.Length
    modifies code
    ensures Bytes(code[..2 * |vals|]) && Value(code[..2 * |vals|]) == Pack(vals, 16)
  {
    hide Pow2, And, Shr, Pack, Value;
    assert code[..0] == [] && vals[..0] == [];
    NothingPacked(16);
    for m := 0 to |vals|
      invariant Bytes(code[..2 * m]) && Value(code[..2 * m]) == Pack(vals[..m], 16)
    {
      PairAppended(vals, code[..2 * m], m);
      ghost var before := code[..2 * m];
      code[2 * m] := And(vals[m], 0xff);
      code[2 * m + 1] := And(Shr(vals[m], 8), 0xff);
      assert code[..2 * (m + 1)] == before + [code[2 * m]] + [code[2 * m + 1]];
    }
    assert vals[..|vals|] == vals;
  }

  lemma PairAppended(vals: seq<nat>, bytes: seq<int>, m: nat)
    requires m < |vals| && Bytes(bytes) && |bytes| == 2 * m && Value(bytes) == Pack(vals[..m], 16)
    ensures And(vals[m], 0xff) < 256 && And(Shr(vals[m], 8), 0xff) < 256
    ensures Value(bytes + [And(vals[m], 0xff)] + [And(Shr(vals[m], 8), 0xff)]) == Pack(vals[..m + 1], 16)
  {
    hide Pow2, And, Shr, Low, Pack, Value;
    var x := vals[m];
    Pow2Constants();
    assert Mask(8) == 0xff;
    AndMask(x, 8);
    AndMask(Shr(x, 8), 8);
    LowBound(x, 8);
    LowBound(Shr(x, 8), 8);
    var lo, hi := Low(x, 8), Low(Shr(x, 8), 8);
    TwoBytes(x);
    ValueAppend(bytes, lo);
    ValueAppend(bytes + [lo], hi);
    PackAppend(vals[..m], x, 16);
    RowIsProduct(m, 16);
    Pow2Sum(8, 8 * (2 * m));
    SplitPair(lo, hi, Pow2(16 * m));
    assert vals[..m + 1] == vals[..m] + [x];
  }

  lemma SplitPair(lo: nat, hi: nat, p: nat)
    ensures lo * p + hi * (256 * p) == (lo + 256 * hi) * p
  {
  }

  lemma TwoBytes(x: nat)
    ensures Low(x, 16) == Low(x, 8) + 256 * Low(Shr(x, 8), 8)
  {
    Pow2Constants();
    Split(x, 8);
    Split(Shr(x, 8), 8);
    var q := Shr(Shr(x, 8), 8);
    DivMod(q, 65536, Low(x, 8) + 256 * Low(Shr(x, 8), 8));
  }
}
