/**
 Local vector quantization: a code packs a local centroid and one of its residual codewords. Codebooks
 are arbitrary inputs, arithmetic is exact.
 */
module Lvq {
  import opened Bits
  import opened Rows
  import opened Vectors
  import opened Collections
  import opened PqCodes

  const MaxNbits := 16

  /** Bits needed for n values, at least one; throws when there are none. */
  method BitsForCount(n: int) returns (ok: bool, bits: nat)
    ensures ok <==> n > 0
    ensures ok ==> bits >= 1 && n <= Pow2(bits) && (bits > 1 ==> n > Pow2(bits - 1))
  {
    if !(n > 0) { return false, 0; }
    bits := 0;
    var value := n - 1;
    while value > 0
      invariant 0 <= value && value * Pow2(bits) <= n - 1 < (value + 1) * Pow2(bits)
      invariant bits > 0 && value == 0 ==> n > Pow2(bits - 1)
    {
      Halve(n - 1, value, Pow2(bits));
      bits := bits + 1;
      value := value / 2;
    }
    ok := true;
    if bits < 1 { bits := 1; }
  }

  lemma Halve(x: nat, value: nat, p: nat)
    requires value > 0 && value * p <= x < (value + 1) * p
    ensures value / 2 * (2 * p) <= x < (value / 2 + 1) * (2 * p)
    ensures value == 1 ==> x + 1 > p
  {
    Grows(2 * (value / 2), value, p);
    Grows(value + 1, 2 * (value / 2) + 2, p);
    assert value / 2 * (2 * p) == 2 * (value / 2) * p;
    assert (value / 2 + 1) * (2 * p) == (2 * (value / 2) + 2) * p;
  }

  // -------------------------------------------------------------------------
  // Codes
  // -------------------------------------------------------------------------

  /** The pair in one number: the code above the local id. */
  function Combined(localId: nat, codeId: nat, localNbits: nat, nbits: nat): nat {
    Low(Or(localId, Shl64(codeId, localNbits)), localNbits + nbits)
  }

  method EncodePair(localNbits: nat, nbits: nat, localId: nat, codeId: nat, code: array<int>)
    requires localNbits + nbits < 64 && code.Length == (localNbits + nbits + 7) / 8
    modifies code
    ensures Bytes(code[..]) && Value(code[..]) == Combined(localId, codeId, localNbits, nbits)
  {
    hide Or, And, Shl64, Pow2, Low, Value;
    for i := 0 to code.Length {
      code[i] := 0;
    }
    var combined := Or(localId, Shl64(codeId, localNbits));
    AndMask(combined, localNbits + nbits);
    OneShifted64(localNbits + nbits);
    LowBound(combined, localNbits + nbits);
    Pow2Ascends(localNbits + nbits, 8 * code.Length);
    WriteBytes(And(combined, Shl64(1, localNbits + nbits) - 1), code);
  }

  method WriteBytes(all: nat, code: array<int>)
    requires all < Pow2(8 * code.Length)
    modifies code
    ensures Bytes(code[..]) && Value(code[..]) == all
  {
    hide And, Pow2, Value, Shr;
    var reg: nat := all;
    NothingWritten(reg);
    assert code[..0] == [];
    for i := 0 to code.Length
      invariant Bytes(code[..i]) && Value(code[..i]) + reg * Pow2(8 * i) == all
    {
      ByteWritten(code[..i], reg, all);
      code[i] := And(reg, 0xff);
      reg := Shr(reg, 8);
      assert code[..i + 1] == code[..i] + [code[i]];
    }
    assert code[..code.Length] == code[..];
    AllWritten(code[..], reg, all);
  }

  lemma NothingWritten(reg: nat)
    ensures Value([]) + reg * Pow2(0) == reg
  {
  }

  lemma ByteWritten(bytes: seq<int>, reg: nat, all: nat)
    requires Bytes(bytes) && Value(bytes) + reg * Pow2(8 * |bytes|) == all
    ensures 0 <= And(reg, 0xff) < 256
    ensures Value(bytes + [And(reg, 0xff)]) + Shr(reg, 8) * Pow2(8 * (|bytes| + 1)) == all
  {
    hide Value, Pow2, And;
    Pow2Constants();
    assert Mask(8) == 0xff;
    AndMask(reg, 8);
    Split(reg, 8);
    ValueAppend(bytes, Low(reg, 8));
    ByteShifted(reg, Low(reg, 8), Shr(reg, 8), |bytes|);
  }

  lemma AllWritten(bytes: seq<int>, reg: nat, all: nat)
    requires Bytes(bytes) && Value(bytes) + reg * Pow2(8 * |bytes|) == all < Pow2(8 * |bytes|)
    ensures Value(bytes) == all
  {
    if reg > 0 { Grows(1, reg, Pow2(8 * |bytes|)); }
  }

  lemma OneShifted64(n: nat)
    requires n < 64
    ensures Shl64(1, n) == Pow2(n) && Shl64(1, n) - 1 == Mask(n)
  {
    Pow2Ascends(n + 1, 64);
    Pow2Is64();
    assert Pow2(n + 1) == 2 * Pow2(n);
  }

  /** The pair in a number. */
  function LocalOf(v: nat, localNbits: nat, nbits: nat): nat {
    Low(Low(v, localNbits + nbits), localNbits)
  }

  function CodeOf(v: nat, localNbits: nat, nbits: nat): nat {
    Shr(Low(v, localNbits + nbits), localNbits)
  }

  method DecodePair(localNbits: nat, nbits: nat, code: seq<int>) returns (localId: nat, codeId: nat)
    requires localNbits + nbits < 64 && |code| == (localNbits + nbits + 7) / 8 && Bytes(code)
    ensures localId == LocalOf(Value(code), localNbits, nbits) && codeId == CodeOf(Value(code), localNbits, nbits)
  {
    hide Or, And, Shl64, Pow2, Low, Value, Shr;
    var n := localNbits + nbits;
    var mask := Shl64(1, n) - 1;
    OneShifted64(n);
    OneShifted64(localNbits);
    var reg: nat := 0;
    var i: nat := 0;
    var nBuffered := 0;
    NothingWritten(0);
    assert code[..0] == [];
    while nBuffered < n
      invariant nBuffered == 8 * i && i <= |code| && reg == Value(code[..i])
      decreases n - nBuffered
    {
      ByteRead(code, i);
      reg := Or(reg, Shl64(code[i], nBuffered));
      i := i + 1;
      nBuffered := nBuffered + 8;
    }
    assert code[..i] == code;
    AndMask(reg, n);
    var combined := And(reg, mask);
    AndMask(combined, localNbits);
    var localMask := Shl64(1, localNbits) - 1;
    localId := And(combined, localMask);
    codeId := Shr(combined, localNbits);
  }

  lemma ByteRead(code: seq<int>, i: nat)
    requires Bytes(code) && i < |code| <= 8
    ensures Or(Value(code[..i]), Shl64(code[i], 8 * i)) == Value(code[..i + 1])
  {
    hide Value, Or, Shl64, Pow2;
    var b, lo := code[i], code[..i];
    assert code[..i + 1] == lo + [b];
    ValueAppend(lo, b);
    ValueBound(lo);
    Pow2Constants();
    if 8 * i + 8 < 64 {
      ShiftFits(b, 8 * i, 8);
    } else {
      TopByte(b);
    }
    OrDisjoint(Value(lo), b, 8 * i);
  }

  /** The last byte of a full register. */
  lemma TopByte(b: nat)
    requires b < 256
    ensures Shl64(b, 56) == b * Pow2(56)
  {
    hide Pow2;
    Pow2Is64();
    Pow2Constants();
    Pow2Sum(8, 56);
    ProductFits(b, 256, Pow2(56));
  }

  /** A pair that fits is stored without loss. */
  lemma CombinedFits(localId: nat, codeId: nat, localNbits: nat, nbits: nat)
    requires localNbits + nbits < 64 && localId < Pow2(localNbits) && codeId < Pow2(nbits)
    ensures Combined(localId, codeId, localNbits, nbits) == localId + Pow2(localNbits) * codeId
  {
    hide Pow2, Or, Shl64;
    ShiftFits(codeId, localNbits, nbits);
    OrDisjoint(localId, codeId, localNbits);
    Pow2Sum(localNbits, nbits);
    FieldFits(localId, Pow2(localNbits), codeId, Pow2(nbits));
    Commute(codeId, Pow2(localNbits));
    LowOfSmall(localId + Pow2(localNbits) * codeId, localNbits + nbits);
  }

  lemma DecodedInRange(v: nat, localNbits: nat, nbits: nat)
    ensures LocalOf(v, localNbits, nbits) < Pow2(localNbits) && CodeOf(v, localNbits, nbits) < Pow2(nbits)
    ensures Low(v, localNbits + nbits)
        == LocalOf(v, localNbits, nbits) + Pow2(localNbits) * CodeOf(v, localNbits, nbits)
  {
    hide Pow2;
    var c := Low(v, localNbits + nbits);
    LowBound(v, localNbits + nbits);
    LowBound(c, localNbits);
    Split(c, localNbits);
    Pow2Sum(nbits, localNbits);
    QuotientFits(Shr(c, localNbits), Low(c, localNbits), Pow2(localNbits), Pow2(nbits));
    Commute(Shr(c, localNbits), Pow2(localNbits));
  }

  /** MAIN: decoding an encoded pair gives the pair back exactly when both parts fit their widths. */
  lemma PairRoundTripIff(localId: nat, codeId: nat, localNbits: nat, nbits: nat)
    requires localNbits + nbits < 64
    ensures (var v := Combined(localId, codeId, localNbits, nbits);
             LocalOf(v, localNbits, nbits) == localId && CodeOf(v, localNbits, nbits) == codeId)
       <==> localId < Pow2(localNbits) && codeId < Pow2(nbits)
  {
    hide Pow2, Or, Shl64;
    var v := Combined(localId, codeId, localNbits, nbits);
    DecodedInRange(v, localNbits, nbits);
    if localId < Pow2(localNbits) && codeId < Pow2(nbits) {
      CombinedFits(localId, codeId, localNbits, nbits);
      LowBound(Or(localId, Shl64(codeId, localNbits)), localNbits + nbits);
      LowOfSmall(v, localNbits + nbits);
      LowShr(localId, codeId, localNbits);
    }
  }

  /** The bits of the local id come first, then those of the code. */
  lemma PairBit(code: seq<int>, localId: nat, codeId: nat, localNbits: nat, nbits: nat, at: nat)
    requires localNbits + nbits < 64 && localId < Pow2(localNbits) && codeId < Pow2(nbits)
    requires Bytes(code) && Value(code) == Combined(localId, codeId, localNbits, nbits)
    requires at < localNbits + nbits && at < 8 * |code|
    ensures Bit(code[at / 8], at % 8) == if at < localNbits then Bit(localId, at) else Bit(codeId, at - localNbits)
  {
    hide Bit, Value, Combined, Pow2;
    CombinedFits(localId, codeId, localNbits, nbits);
    BitSplit(localId, codeId, localNbits, at);
    assert at == 8 * (at / 8) + at % 8;
    ValueBit(code, at / 8, at % 8);
  }

  /** MAIN: encoding what was decoded gives the bytes back exactly when their unused bits are zero. */
  lemma BytesRoundTripIff(code: seq<int>, code': seq<int>, localNbits: nat, nbits: nat)
    requires localNbits + nbits < 64 && Bytes(code) && Bytes(code') && |code| == |code'|
    requires Value(code') == Combined(LocalOf(Value(code), localNbits, nbits), CodeOf(Value(code), localNbits, nbits),
        localNbits, nbits)
    ensures code' == code <==> Value(code) < Pow2(localNbits + nbits)
  {
    hide Pow2, Value;
    var v := Value(code);
    DecodedInRange(v, localNbits, nbits);
    CombinedFits(LocalOf(v, localNbits, nbits), CodeOf(v, localNbits, nbits), localNbits, nbits);
    LowBound(v, localNbits + nbits);
    if v < Pow2(localNbits + nbits) {
      LowOfSmall(v, localNbits + nbits);
      ValueInjective(code, code');
    }
  }

  // -------------------------------------------------------------------------
  // The quantizer
  // -------------------------------------------------------------------------

  class LocalVectorQuantizer {
    const d: int
    const nlocal: int
    const nbits: int
    var localNbits: nat
    var ksub: nat
    var codeSize: nat
    var localCentroids: seq<real>
    var residualCodebooks: seq<real>
    var decodedCodebooks: array<real>
    var isTrained: bool

    /** What SetDerivedValues establishes. */
    ghost predicate Valid()
      reads this
    {
      && d > 0 && nlocal > 0 && 1 <= nbits <= MaxNbits && localNbits + nbits < 64
      && nlocal <= Pow2(localNbits) && ksub == Pow2(nbits) && codeSize == (localNbits + nbits + 7) / 8
      && |localCentroids| == Row(nlocal, d)
      && |residualCodebooks| == decodedCodebooks.Length == Row(Row(nlocal, ksub), d)
    }

    /** A trained quantizer's decoded codebook holds centroid plus residual. */
    ghost predicate Built()
      reads this, decodedCodebooks
    {
      d > 0 && nlocal > 0 && forall l, c :: 0 <= l < nlocal && 0 <= c < ksub ==> DecodedAt(decodedCodebooks[..], l, c)
    }

    ghost predicate DecodedAt(decoded: seq<real>, l: nat, c: nat)
      reads this`ksub, this`localCentroids, this`residualCodebooks
      requires d > 0
    {
      && |Sub(localCentroids, l, d)| == |Sub(residualCodebooks, Row(l, ksub) + c, d)| == d
      && Sub(decoded, Row(l, ksub) + c, d)
          == Add(Sub(localCentroids, l, d), Sub(residualCodebooks, Row(l, ksub) + c, d))
    }

    constructor (d: int, nlocal: int, nbits: int)
      ensures this.d == d && this.nlocal == nlocal && this.nbits == nbits && !isTrained && fresh(decodedCodebooks)
    {
      this.d, this.nlocal, this.nbits := d, nlocal, nbits;
      localNbits, ksub, codeSize := 0, 0, 0;
      localCentroids, residualCodebooks, isTrained := [], [], false;
      decodedCodebooks := new real[0];
    }

    method SetDerivedValues() returns (ok: bool)
      modifies this
      ensures ok ==> Valid() && fresh(decodedCodebooks) && isTrained == old(isTrained)
      ensures ok <==> d > 0 && nlocal > 0 && 1 <= nbits <= MaxNbits && nlocal <= Pow2(63 - nbits)
    {
      if !(d > 0) { return false; }
      if !(nlocal > 0) { return false; }
      if !(1 <= nbits <= MaxNbits) { return false; }
      var some, bits := BitsForCount(nlocal);
      localNbits := bits;
      if !(localNbits + nbits < 64) {
        Pow2Ascends(63 - nbits, bits - 1);
        return false;
      }
      Pow2Ascends(bits, 63 - nbits);
      OneShifted(nbits);
      ksub := Shl64(1, nbits);
      codeSize := (localNbits + nbits + 7) / 8;
      localCentroids := seq(Row(nlocal, d), _ => 0.0);
      residualCodebooks := seq(Row(Row(nlocal, ksub), d), _ => 0.0);
      decodedCodebooks := new real[Row(Row(nlocal, ksub), d)];
      ok := true;
    }

    lemma WordsThere(l: nat, c: nat)
      requires Valid() && l < nlocal && c < ksub
      ensures Row(l, ksub) + c < Row(nlocal, ksub)
      ensures Row(Row(l, ksub) + c, d) + d <= Row(Row(nlocal, ksub), d)
      ensures |Sub(localCentroids, l, d)| == |Sub(residualCodebooks, Row(l, ksub) + c, d)| == d
    {
      RowNext(l, nlocal, ksub);
      RowNext(l, nlocal, d);
      RowNext(Row(l, ksub) + c, Row(nlocal, ksub), d);
    }

    /** centroid + residual for every pair. */
    method BuildDecodedCodebooks()
      requires Valid()
      modifies this`decodedCodebooks
      ensures Valid() && Built() && fresh(decodedCodebooks)
    {
      hide Row, Sub, DecodedAt;
      var decoded := new real[Row(Row(nlocal, ksub), d)];
      for l := 0 to nlocal
        invariant Valid() && decodedCodebooks == old(decodedCodebooks)
        invariant forall m, c :: 0 <= m < l && 0 <= c < ksub ==> DecodedAt(decoded[..], m, c)
      {
        for c := 0 to ksub
          invariant Valid() && decodedCodebooks == old(decodedCodebooks)
          invariant forall m, e :: 0 <= m < l && 0 <= e < ksub ==> DecodedAt(decoded[..], m, e)
          invariant forall e :: 0 <= e < c ==> DecodedAt(decoded[..], l, e)
        {
          BuildOne(decoded, l, c);
        }
      }
      decodedCodebooks := decoded;
    }

    method BuildOne(decoded: array<real>, l: nat, c: nat)
      requires Valid() && decoded.Length == Row(Row(nlocal, ksub), d) && l < nlocal && c < ksub
      modifies decoded
      ensures DecodedAt(decoded[..], l, c)
      ensures forall m: nat, e: nat ::
          m < nlocal && e < ksub && old(DecodedAt(decoded[..], m, e)) ==> DecodedAt(decoded[..], m, e)
    {
      hide Row, Sub, DecodedAt, Patch;
      WordsThere(l, c);
      ghost var was := decoded[..];
      var t := Row(l, ksub) + c;
      var word := Add(Sub(localCentroids, l, d), Sub(residualCodebooks, t, d));
      CopyWord(word, decoded, Row(t, d));
      PatchRow(was, t, word, Row(nlocal, ksub), d, t);
      IsDecoded(decoded[..], l, c);
      forall m: nat, e: nat | m < nlocal && e < ksub && DecodedAt(was, m, e) ensures DecodedAt(decoded[..], m, e) {
        WordsThere(m, e);
        PatchRow(was, t, word, Row(nlocal, ksub), d, Row(m, ksub) + e);
        StaysDecoded(was, decoded[..], l, c, m, e);
      }
    }

    lemma IsDecoded(decoded: seq<real>, l: nat, c: nat)
      requires Valid() && l < nlocal && c < ksub
      requires |Sub(localCentroids, l, d)| == |Sub(residualCodebooks, Row(l, ksub) + c, d)| == d
      requires Sub(decoded, Row(l, ksub) + c, d)
          == Add(Sub(localCentroids, l, d), Sub(residualCodebooks, Row(l, ksub) + c, d))
      ensures DecodedAt(decoded, l, c)
    {
    }

    lemma StaysDecoded(was: seq<real>, decoded: seq<real>, l: nat, c: nat, m: nat, e: nat)
      requires Valid() && m < nlocal && e < ksub && DecodedAt(was, m, e)
      requires Row(l, ksub) + c == Row(m, ksub) + e ==> DecodedAt(decoded, l, c)
      requires Row(l, ksub) + c == Row(m, ksub) + e ==> l < nlocal && c < ksub
      requires Row(l, ksub) + c != Row(m, ksub) + e ==>
          Sub(decoded, Row(m, ksub) + e, d) == Sub(was, Row(m, ksub) + e, d)
      ensures DecodedAt(decoded, m, e)
    {
      hide Row, Sub, Valid;
      if Row(l, ksub) + c == Row(m, ksub) + e {
        RowNext(l, l + 1, ksub);
        RowNext(m, m + 1, ksub);
        if l < m { RowsAscend(l + 1, m, ksub); }
        if m < l { RowsAscend(m + 1, l, ksub); }
      }
    }

    /** Training ends with the codebooks k-means produced. */
    method Train(n: nat, niter: int, nredo: int, centroids: seq<real>, residuals: seq<real>) returns (ok: bool)
      requires Valid() && |centroids| == |localCentroids| && |residuals| == |residualCodebooks|
      modifies this
      ensures ok <==> n >= nlocal && niter > 0 && nredo > 0
      ensures ok ==>
          && Valid()
          && Built()
          && isTrained
          && localCentroids == centroids
          && residualCodebooks == residuals
          && codeSize == old(codeSize)
    {
      if !(n >= nlocal) { return false; }
      if !(niter > 0) { return false; }
      if !(nredo > 0) { return false; }
      localCentroids, residualCodebooks := centroids, residuals;
      BuildDecodedCodebooks();
      isTrained := true;
      ok := true;
    }

    function Local(code: seq<int>): nat
      reads this
      requires Bytes(code) && nbits >= 0
    {
      LocalOf(Value(code), localNbits, nbits)
    }

    function Residual(code: seq<int>): nat
      reads this
      requires Bytes(code) && nbits >= 0
    {
      CodeOf(Value(code), localNbits, nbits)
    }

    /** What a code stands for. */
    ghost function Decoded(code: seq<int>): seq<real>
      reads this
      requires Valid() && Bytes(code) && Local(code) < nlocal
    {
      DecodedInRange(Value(code), localNbits, nbits);
      WordsThere(Local(code), Residual(code));
      Add(Sub(localCentroids, Local(code), d), Sub(residualCodebooks, Row(Local(code), ksub) + Residual(code), d))
    }

    /** Component t of what a code stands for, counted from the start of the codebooks. */
    lemma DecodedComponent(code: seq<int>, t: nat) returns (centroid: real, residual: real)
      requires Valid() && Bytes(code) && Local(code) < nlocal && t < d
      ensures At(localCentroids, Local(code) * d + t, centroid)
      ensures At(residualCodebooks, (Local(code) * ksub + Residual(code)) * d + t, residual)
      ensures At(Decoded(code), t, centroid + residual)
    {
      hide Value, Row, Sub, LocalOf, CodeOf;
      var l, c := Local(code), Residual(code);
      DecodedInRange(Value(code), localNbits, nbits);
      WordsThere(l, c);
      RowNext(l, nlocal, d);
      RowIsProduct(l, ksub);
      SubAt(localCentroids, l, d, t);
      SubAt(residualCodebooks, Row(l, ksub) + c, d, t);
      centroid, residual := Sub(localCentroids, l, d)[t], Sub(residualCodebooks, Row(l, ksub) + c, d)[t];
    }

    /** Throws on a local id beyond nlocal; a residual id is always in range. */
    method DecodeCode(code: seq<int>) returns (ok: bool, localId: nat, codeId: nat)
      requires Valid() && |code| == codeSize && Bytes(code)
      ensures ok <==> Local(code) < nlocal
      ensures localId == Local(code) && codeId == Residual(code) < ksub
    {
      localId, codeId := DecodePair(localNbits, nbits, code);
      DecodedInRange(Value(code), localNbits, nbits);
      ok := 0 <= localId < nlocal && 0 <= codeId < ksub;
    }

    method Decode(code: seq<int>, x: array<real>) returns (ok: bool)
      requires Valid() && |code| == codeSize && Bytes(code) && x.Length == d
      modifies x
      ensures ok <==> isTrained && Local(code) < nlocal
      ensures ok ==> x[..] == Decoded(code)
    {
      if !isTrained { return false; }
      hide Row, Sub, Value, Pow2, Low, Shr;
      var localId, codeId;
      ok, localId, codeId := DecodeCode(code);
      if !ok { return false; }
      WordsThere(localId, codeId);
      AddInto(Sub(localCentroids, localId, d), Sub(residualCodebooks, Row(localId, ksub) + codeId, d), x);
    }

    /** Distances to all decoded codewords. */
    method ComputeDistanceTable(x: seq<real>, disTable: array<real>) returns (ok: bool)
      requires Valid() && |x| == d && disTable.Length == Row(nlocal, ksub) && disTable != decodedCodebooks
      modifies disTable
      ensures ok == isTrained
      ensures ok ==> disTable[..] == Block(Distances, x, decodedCodebooks[..], d, 0, Row(nlocal, ksub))
    {
      if !isTrained { return false; }
      ghost var was := disTable[..];
      FillBlock(Distances, x, decodedCodebooks[..], d, 0, Row(nlocal, ksub), disTable, 0);
      PatchAll(was, Block(Distances, x, decodedCodebooks[..], d, 0, Row(nlocal, ksub)));
      ok := true;
    }

    method ApplyDistanceTable(disTable: seq<real>, code: seq<int>) returns (ok: bool, dis: real)
      requires Valid() && |disTable| == Row(nlocal, ksub) && |code| == codeSize && Bytes(code)
      ensures ok <==> Local(code) < nlocal
      ensures ok ==>
          && Row(Local(code), ksub) + Residual(code) < |disTable|
          && dis == disTable[Row(Local(code), ksub) + Residual(code)]
    {
      var localId, codeId;
      ok, localId, codeId := DecodeCode(code);
      if !ok { return false, 0.0; }
      WordsThere(localId, codeId);
      dis := disTable[Row(localId, ksub) + codeId];
    }

    /** MAIN: the table entry of a code is the squared distance to what the code decodes to. */
    lemma TableIsDistance(x: seq<real>, code: seq<int>)
      requires Valid() && Built() && |x| == d && Bytes(code) && Local(code) < nlocal
      ensures Row(Local(code), ksub) + Residual(code) < Row(nlocal, ksub)
      ensures Block(Distances, x, decodedCodebooks[..], d, 0,
          Row(nlocal, ksub))[Row(Local(code), ksub) + Residual(code)] == L2(x, Decoded(code))
    {
      hide L2, Value, Pow2, Low, Shr;
      DecodedInRange(Value(code), localNbits, nbits);
      WordsThere(Local(code), Residual(code));
      assert DecodedAt(decodedCodebooks[..], Local(code), Residual(code));
    }

    /** Nearest local centroid, then nearest codeword for the residual. */
    method ComputeCode(x: seq<real>, code: array<int>) returns (ok: bool)
      requires Valid() && |x| == d && code.Length == codeSize
      modifies code
      ensures ok == isTrained
      ensures ok ==> Bytes(code[..]) && Local(code[..]) < nlocal && NearestPair(x, Local(code[..]), Residual(code[..]))
    {
      if !isTrained { return false; }
      hide Value, Combined, LocalOf, CodeOf, NearestPair, Bytes;
      var localId, codeId := NearestIds(x);
      EncodePair(localNbits, nbits, localId, codeId, code);
      PairRoundTripIff(localId, codeId, localNbits, nbits);
      ok := true;
    }

    method NearestIds(x: seq<real>) returns (localId: nat, codeId: nat)
      requires Valid() && |x| == d
      ensures localId < nlocal && codeId < ksub && NearestPair(x, localId, codeId)
    {
      hide Row, Sub, DistanceTo;
      localId := NearestWord(x, localCentroids, d, 0, nlocal);
      RowNext(localId, nlocal, d);
      var residual := Minus(x, Sub(localCentroids, localId, d));
      codeId := NearestWord(residual, residualCodebooks, d, Row(localId, ksub), ksub);
    }

    ghost predicate NearestPair(x: seq<real>, l: nat, c: nat)
      reads this
    {
      && d > 0 && nlocal > 0 && l < nlocal && c < ksub && |x| == |Sub(localCentroids, l, d)|
      && (forall i: nat :: i < nlocal ==> DistanceTo(x, localCentroids, d, l) <= DistanceTo(x, localCentroids, d, i))
      && (forall i: nat :: Row(l, ksub) <= i < Row(l, ksub) + ksub ==>
            DistanceTo(Minus(x, Sub(localCentroids, l, d)), residualCodebooks, d, Row(l, ksub) + c)
              <= DistanceTo(Minus(x, Sub(localCentroids, l, d)), residualCodebooks, d, i))
    }

    /** MAIN: within the chosen local cell no codeword reconstructs x better. */
    lemma EncodingIsBestInCell(x: seq<real>, l: nat, c: nat, other: nat)
      requires Valid() && |x| == d && NearestPair(x, l, c) && other < ksub
      ensures |Sub(localCentroids, l, d)| == |Sub(residualCodebooks, Row(l, ksub) + c, d)|
          == |Sub(residualCodebooks, Row(l, ksub) + other, d)| == d
      ensures L2(x, Add(Sub(localCentroids, l, d), Sub(residualCodebooks, Row(l, ksub) + c, d)))
           <= L2(x, Add(Sub(localCentroids, l, d), Sub(residualCodebooks, Row(l, ksub) + other, d)))
    {
      hide L2;
      WordsThere(l, c);
      WordsThere(l, other);
      L2OfDifference(x, Sub(localCentroids, l, d), Sub(residualCodebooks, Row(l, ksub) + c, d));
      L2OfDifference(x, Sub(localCentroids, l, d), Sub(residualCodebooks, Row(l, ksub) + other, d));
      assert DistanceTo(Minus(x, Sub(localCentroids, l, d)), residualCodebooks, d, Row(l, ksub) + c)
          <= DistanceTo(Minus(x, Sub(localCentroids, l, d)), residualCodebooks, d, Row(l, ksub) + other);
    }
  }

  method AddInto(a: seq<real>, b: seq<real>, x: array<real>)
    requires |a| == |b| == x.Length
    modifies x
    ensures x[..] == Add(a, b)
  {
    for j := 0 to x.Length
      invariant forall i :: 0 <= i < j ==> x[i] == a[i] + b[i]
    {
      x[j] := a[j] + b[j];
    }
    assert x[..] == Add(a, b);
  }
}
