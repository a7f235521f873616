/**
 The product quantizer: codes of M sub-quantizers, distance tables and reconstruction, over exact reals.
 */
module Pq {
  import opened Bits
  import opened Rows
  import opened Vectors
  import opened Collections
  import opened PqCodes

  const MaxNbits := 16

  lemma {:induction false} FieldsFit(packed: nat, nbits: nat, n: nat)
    ensures forall m :: 0 <= m < n ==> Unpack(packed, nbits, n)[m] < Pow2(nbits)
    decreases n
  {
    if n > 0 {
      LowBound(packed, nbits);
      FieldsFit(Shr(packed, nbits), nbits, n - 1);
    }
  }

  class ProductQuantizer {
    const d: int
    const M: int
    const nbits: int
    var dsub: nat
    var ksub: nat
    var codeSize: nat
    var centroids: seq<real>
    var isTrained: bool

    /** What SetDerivedValues establishes. */
    ghost predicate Valid()
      reads this
    {
      && M > 0 && 1 <= nbits <= MaxNbits && dsub > 0 && d == Row(M, dsub)
      && ksub == Pow2(nbits) && codeSize == (Row(M, nbits) + 7) / 8
      && |centroids| == Row(Row(M, ksub), dsub)
    }

    constructor (d: int, M: int, nbits: int)
      ensures this.d == d && this.M == M && this.nbits == nbits && !isTrained
    {
      this.d, this.M, this.nbits := d, M, nbits;
      dsub, ksub, codeSize, centroids, isTrained := 0, 0, 0, [], false;
    }

    /** Throws on a dimension that the sub-quantizers do not divide evenly, or an unsupported width. */
    method SetDerivedValues() returns (ok: bool)
      modifies this
      ensures ok <==> M > 0 && d > 0 && d % M == 0 && 1 <= nbits <= MaxNbits
      ensures ok ==> Valid() && isTrained == old(isTrained)
    {
      if !(M > 0) { return false; }
      if !(d > 0) { return false; }
      if !(d % M == 0) { return false; }
      if !(1 <= nbits <= MaxNbits) { return false; }
      EvenSplit(d, M);
      dsub := Div(d, M);
      ksub := Shl64(1, nbits);
      OneShifted(nbits);
      codeSize := (Row(M, nbits) + 7) / 8;
      centroids := seq(Row(Row(M, ksub), dsub), _ => 0.0);
      ok := true;
    }

    /** The code a byte string stands for. */
    ghost function Codes(code: seq<int>): (c: seq<nat>)
      reads this
      requires Valid() && Bytes(code)
    {
      Unpack(Value(code), nbits, M)
    }

    lemma CodesFit(code: seq<int>)
      requires Valid() && Bytes(code)
      ensures Codebook(centroids, Codes(code), dsub, ksub, M)
    {
      FieldsFit(Value(code), nbits, M);
    }

    /** L2 distances from every sub-vector to all centroids of its sub-quantizer. */
    method ComputeDistanceTable(x: seq<real>, disTable: array<real>) returns (ok: bool)
      requires Valid() && |x| == d && disTable.Length == Row(M, ksub)
      modifies disTable
      ensures ok == isTrained
      ensures ok ==> disTable[..] == Table(Distances, x, centroids, dsub, ksub, M)
    {
      if !isTrained { return false; }
      FillTable(Distances, x, centroids, dsub, ksub, M, disTable, 0);
      assert Patch(old(disTable[..]), 0, Table(Distances, x, centroids, dsub, ksub, M)) == Table(Distances, x,
          centroids, dsub, ksub, M);
      ok := true;
    }

    /** The sum of the entries the code selects, by three ways of reading the code. */
    method ApplyDistanceTable(disTable: seq<real>, code: seq<int>) returns (dis: real)
      requires Valid() && |disTable| == Row(M, ksub) && |code| == codeSize && Bytes(code)
      ensures forall m :: 0 <= m < M ==> Row(m, ksub) + Codes(code)[m] < |disTable|
      ensures dis == Lookup(disTable, Codes(code), ksub, M)
    {
      hide Lookup, Row, Unpack, Value, Codebook, Pow2, Low, Shr;
      ghost var codes := Codes(code);
      CodesFit(code);
      LookupDefined(Distances, [], centroids, codes, dsub, ksub, M);
      if nbits == 8 {
        dis := Apply8(disTable, code);
      } else if nbits == 16 {
        dis := Apply16(disTable, code);
      } else {
        dis := ApplyGeneric(disTable, code);
      }
    }

    method Apply8(disTable: seq<real>, code: seq<int>) returns (dis: real)
      requires Valid() && nbits == 8 && |disTable| == Row(M, ksub) && |code| == codeSize && Bytes(code)
      requires forall m :: 0 <= m < M ==> Row(m, ksub) + Codes(code)[m] < |disTable|
      ensures dis == Lookup(disTable, Codes(code), ksub, M)
    {
      hide Lookup, Row, Unpack, Value, Pow2, Low, Shr;
      ghost var codes := Codes(code);
      SizeOf(M, 8);
      ByteFields(code);
      LookupNext(disTable, codes, ksub, 0);
      dis := 0.0;
      for m := 0 to M
        invariant dis == Lookup(disTable, codes, ksub, m)
      {
        LookupNext(disTable, codes, ksub, m);
        dis := dis + disTable[Row(m, ksub) + code[m]];
      }
    }

    method Apply16(disTable: seq<real>, code: seq<int>) returns (dis: real)
      requires Valid() && nbits == 16 && |disTable| == Row(M, ksub) && |code| == codeSize && Bytes(code)
      requires forall m :: 0 <= m < M ==> Row(m, ksub) + Codes(code)[m] < |disTable|
      ensures dis == Lookup(disTable, Codes(code), ksub, M)
    {
      hide Lookup, Row, Unpack, Value, Pow2, Low, Shr, Or, Shl64;
      ghost var codes := Codes(code);
      SizeOf(M, 16);
      PairFields(code, M);
      LookupNext(disTable, codes, ksub, 0);
      dis := 0.0;
      for m := 0 to M
        invariant dis == Lookup(disTable, codes, ksub, m)
      {
        LookupNext(disTable, codes, ksub, m);
        OrPair(code[2 * m], code[2 * m + 1]);
        var k := Or(code[2 * m], Shl64(code[2 * m + 1], 8));
        dis := dis + disTable[Row(m, ksub) + k];
      }
    }

    method ApplyGeneric(disTable: seq<real>, code: seq<int>) returns (dis: real)
      requires Valid() && |disTable| == Row(M, ksub) && |code| == codeSize && Bytes(code)
      requires forall m :: 0 <= m < M ==> Row(m, ksub) + Codes(code)[m] < |disTable|
      ensures dis == Lookup(disTable, Codes(code), ksub, M)
    {
      hide Lookup, Row, Unpack, Value, Pow2, Low, Shr;
      ghost var codes := Codes(code);
      var dec := new PQDecoderGeneric(code, nbits);
      LookupNext(disTable, codes, ksub, 0);
      EnoughBits(M, nbits, codeSize);
      dis := 0.0;
      for m := 0 to M
        invariant fresh(dec) && dec.Valid() && dec.nbits == nbits
        invariant codes[m..] == Unpack(dec.Rest(), nbits, M - m) && dec.BitsLeft() >= Row(M - m, nbits)
        invariant dis == Lookup(disTable, codes, ksub, m)
      {
        UnpackNext(dec.Rest(), nbits, M - m);
        RowNext(M - m - 1, M - m, nbits);
        ghost var rest := codes[m..];
        var k := dec.Decode();
        assert k == rest[0] == codes[m] && codes[m + 1..] == rest[1..];
        LookupNext(disTable, codes, ksub, m);
        dis := dis + disTable[Row(m, ksub) + k];
      }
    }

    /** MAIN: looking a code up in a query's table gives the squared distance to the decoded vector. */
    lemma TableDistance(x: seq<real>, code: seq<int>)
      requires Valid() && |x| == d && Bytes(code)
      ensures forall m :: 0 <= m < M ==> Row(m, ksub) + Codes(code)[m] < Row(M, ksub)
      ensures |Chosen(centroids, Codes(code), dsub, ksub, M)| == d
      ensures Lookup(Table(Distances, x, centroids, dsub, ksub, M), Codes(code), ksub, M)
          == L2(x, Chosen(centroids, Codes(code), dsub, ksub, M))
    {
      CodesFit(code);
      LookupIsDistance(x, centroids, Codes(code), dsub, ksub, M, M);
      assert x[..Row(M, dsub)] == x;
    }

    /** DecodeImpl: the selected centroids, one after the other. */
    method Decode(code: seq<int>, x: array<real>) returns (ok: bool)
      requires Valid() && |code| == codeSize && Bytes(code) && x.Length == d
      modifies x
      ensures ok == isTrained
      ensures x[..] == if ok then Chosen(centroids, Codes(code), dsub, ksub, M) else old(x[..])
    {
      if !isTrained { return false; }
      CodesFit(code);
      var codes := UnpackCodes(code);
      CopyChosen(centroids, codes, dsub, ksub, M, x);
      ok := true;
    }

    /** Component t of part m of the decoded vector, counted from the start of the codebook. */
    lemma DecodedAt(code: seq<int>, m: nat, t: nat) returns (x: real)
      requires Valid() && Bytes(code) && m < M && t < dsub
      ensures Codes(code)[m] < ksub && At(centroids, (m * ksub + Codes(code)[m]) * dsub + t, x)
      ensures At(Chosen(centroids, Codes(code), dsub, ksub, M), m * dsub + t, x)
    {
      hide Chosen, Unpack, Value, Row;
      CodesFit(code);
      x := ChosenAt(centroids, Codes(code), dsub, ksub, M, m, t);
    }

    /** The three decoders read the same code. */
    method UnpackCodes(code: seq<int>) returns (codes: seq<nat>)
      requires Valid() && |code| == codeSize && Bytes(code)
      ensures codes == Codes(code)
    {
      hide Row, Value, Pow2;
      codes := [];
      if nbits == 8 {
        SizeOf(M, 8);
        ByteFields(code);
        for m := 0 to M
          invariant codes == Codes(code)[..m]
        {
          codes := codes + [code[m]];
        }
      } else if nbits == 16 {
        SizeOf(M, 16);
        PairFields(code, M);
        for m := 0 to M
          invariant codes == Codes(code)[..m]
        {
          OrPair(code[2 * m], code[2 * m + 1]);
          codes := codes + [Or(code[2 * m], Shl64(code[2 * m + 1], 8))];
        }
      } else {
        codes := UnpackGeneric(code);
      }
    }

    method UnpackGeneric(code: seq<int>) returns (codes: seq<nat>)
      requires Valid() && |code| == codeSize && Bytes(code)
      ensures codes == Codes(code)
    {
      hide Row, Unpack, Value, Pow2, Low, Shr;
      codes := [];
      var dec := new PQDecoderGeneric(code, nbits);
      EnoughBits(M, nbits, codeSize);
      for m := 0 to M
        invariant fresh(dec) && dec.Valid() && dec.nbits == nbits
        invariant codes + Unpack(dec.Rest(), nbits, M - m) == Codes(code) && dec.BitsLeft() >= Row(M - m, nbits)
      {
        UnpackNext(dec.Rest(), nbits, M - m);
        RowNext(M - m - 1, M - m, nbits);
        var k := dec.Decode();
        codes := codes + [k];
      }
      UnpackNone(dec.Rest(), nbits);
    }

    /** Each sub-vector by its nearest centroid, packed by the encoder for the width. */
    method ComputeCode(x: seq<real>, code: array<int>) returns (ok: bool, ghost codes: seq<nat>)
      requires Valid() && |x| == d && code.Length == codeSize
      modifies code
      ensures ok == isTrained
      ensures ok ==> Bytes(code[..]) && codes == Codes(code[..]) && NearestCodes(x, centroids, dsub, ksub, codes)
    {
      codes := [];
      if !isTrained { return false, []; }
      hide Row, Unpack, Value, Pow2;
      var ks := NearestAll(x, centroids, dsub, ksub, M);
      PackCodes(ks, code);
      NearestFit(x, centroids, dsub, ksub, ks);
      RoundTripIff(ks, nbits);
      ok, codes := true, ks;
    }

    method PackCodes(vals: seq<nat>, code: array<int>)
      requires Valid() && |vals| == M && code.Length == codeSize
      modifies code
      ensures Bytes(code[..]) && Value(code[..]) == Pack(vals, nbits)
    {
      hide Row, Pack, Value;
      if nbits == 8 {
        SizeOf(M, 8);
        Encode8(vals, code);
        assert code[..|vals|] == code[..];
      } else if nbits == 16 {
        SizeOf(M, 16);
        Encode16(vals, code);
        assert code[..2 * |vals|] == code[..];
      } else {
        var enc := new PQEncoderGeneric(code, nbits);
        EnoughBits(M, nbits, codeSize);
        for m := 0 to M
          invariant fresh(enc) && enc.Valid() && enc.code == code && enc.nbits == nbits && enc.vals == vals[..m]
        {
          RowsAscend(m + 1, M, nbits);
          enc.Encode(vals[m]);
          assert vals[..m + 1] == vals[..m] + [vals[m]];
        }
        assert vals[..M] == vals;
        var size := enc.Finish();
        assert code[..size] == code[..];
      }
    }
  }

  lemma NearestFit(x: seq<real>, words: seq<real>, d: nat, ksub: nat, codes: seq<nat>)
    requires NearestCodes(x, words, d, ksub, codes)
    ensures forall m :: 0 <= m < |codes| ==> codes[m] < ksub
  {
  }

  lemma EvenSplit(d: int, M: int)
    requires d > 0 && M > 0 && d % M == 0
    ensures Div(d, M) > 0 && Row(M, Div(d, M)) == d
  {
    RowIsProduct(M, Div(d, M));
    assert d == d / M * M + d % M;
  }

  lemma SizeOf(M: nat, nbits: nat)
    ensures nbits == 8 ==> (Row(M, nbits) + 7) / 8 == M
    ensures nbits == 16 ==> (Row(M, nbits) + 7) / 8 == 2 * M
  {
    RowIsProduct(M, nbits);
  }

  lemma EnoughBits(M: nat, nbits: nat, size: nat)
    requires size == (Row(M, nbits) + 7) / 8
    ensures Row(M, nbits) <= 8 * size
  {
  }

  lemma LookupNext(table: seq<real>, codes: seq<nat>, ksub: nat, m: nat)
    requires m <= |codes| && forall i :: 0 <= i < |codes| ==> Row(i, ksub) + codes[i] < |table|
    ensures Lookup(table, codes, ksub, 0) == 0.0
    ensures m < |codes| ==>
        Lookup(table, codes, ksub, m + 1) == Lookup(table, codes, ksub, m) + table[Row(m, ksub) + codes[m]]
  {
  }

  lemma UnpackNext(packed: nat, nbits: nat, n: nat)
    requires n > 0
    ensures Unpack(packed, nbits, n) == [Low(packed, nbits)] + Unpack(Shr(packed, nbits), nbits, n - 1)
  {
  }

  lemma UnpackNone(packed: nat, nbits: nat)
    ensures Unpack(packed, nbits, 0) == []
  {
  }
}
