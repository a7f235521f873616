/**
 Distances and inner products over exact reals, and the tables of them that the quantizers fill.
 */
module Vectors {
  import opened Rows
  import opened Collections

  function Square(x: real): real { x * x }

  function Product(x: real, y: real): real { x * y }

  /** Squared Euclidean distance of two vectors of equal length. */
  function L2(a: seq<real>, b: seq<real>): real {
    if a == [] || b == [] then 0.0
    else L2(a[..|a| - 1], b[..|b| - 1]) + Square(a[|a| - 1] - b[|b| - 1])
  }

  function Dot(a: seq<real>, b: seq<real>): real {
    if a == [] || b == [] then 0.0
    else Dot(a[..|a| - 1], b[..|b| - 1]) + Product(a[|a| - 1], b[|b| - 1])
  }

  function Add(a: seq<real>, b: seq<real>): (r: seq<real>)
    requires |a| == |b|
    ensures |r| == |a|
  {
    seq(|a|, i requires 0 <= i < |a| => a[i] + b[i])
  }

  function Minus(a: seq<real>, b: seq<real>): (r: seq<real>)
    requires |a| == |b|
    ensures |r| == |a|
  {
    seq(|a|, i requires 0 <= i < |a| => a[i] - b[i])
  }

  lemma {:induction false} L2Append(a: seq<real>, b: seq<real>, c: seq<real>, d: seq<real>)
    requires |a| == |b| && |c| == |d|
    ensures L2(a + c, b + d) == L2(a, b) + L2(c, d)
  {
    if c == [] {
      assert a + c == a && b + d == b;
    } else {
      L2Append(a, b, c[..|c| - 1], d[..|d| - 1]);
      assert (a + c)[..|a + c| - 1] == a + c[..|c| - 1] && (b + d)[..|b + d| - 1] == b + d[..|d| - 1];
    }
  }

  lemma ProductSign(x: real, y: real)
    ensures x > 0.0 && y > 0.0 ==> Product(x, y) > 0.0
    ensures x < 0.0 && y < 0.0 ==> Product(x, y) > 0.0
    ensures x == 0.0 ==> Product(x, y) == 0.0
  {
  }

  lemma SquareIsProduct(x: real)
    ensures Square(x) == Product(x, x)
  {
  }

  lemma SquareSign(x: real)
    ensures Square(x) >= 0.0 && (Square(x) == 0.0 <==> x == 0.0)
  {
    hide Square, Product;
    SquareIsProduct(x);
    ProductSign(x, x);
  }

  /** A distance: never negative, and zero exactly between equal vectors. */
  lemma {:induction false} L2IsDistance(a: seq<real>, b: seq<real>)
    requires |a| == |b|
    ensures L2(a, b) >= 0.0 && (L2(a, b) == 0.0 <==> a == b)
  {
    if a != [] {
      var n := |a| - 1;
      hide Square;
      L2IsDistance(a[..n], b[..n]);
      SquareSign(a[n] - b[n]);
      assert a == a[..n] + [a[n]] && b == b[..n] + [b[n]];
    }
  }

  /** It adds up, coordinate by coordinate, the squares of the differences. */
  lemma L2Single(x: real, y: real)
    ensures L2([x], [y]) == (x - y) * (x - y) && Dot([x], [y]) == x * y
  {
    assert [x][..0] == [] && [y][..0] == [];
  }

  lemma {:induction false} DotAppend(a: seq<real>, b: seq<real>, c: seq<real>, d: seq<real>)
    requires |a| == |b| && |c| == |d|
    ensures Dot(a + c, b + d) == Dot(a, b) + Dot(c, d)
  {
    if c == [] {
      assert a + c == a && b + d == b;
    } else {
      DotAppend(a, b, c[..|c| - 1], d[..|d| - 1]);
      assert (a + c)[..|a + c| - 1] == a + c[..|c| - 1] && (b + d)[..|b + d| - 1] == b + d[..|d| - 1];
    }
  }

  /** ||q - (c + p)||^2 == ||q - c||^2 + ||p||^2 + 2 <c, p> - 2 <q, p> */
  lemma {:induction false} L2OfSum(q: seq<real>, c: seq<real>, p: seq<real>)
    requires |q| == |c| == |p|
    ensures L2(q, Add(c, p)) == L2(q, c) + Dot(p, p) + 2.0 * Dot(c, p) - 2.0 * Dot(q, p)
  {
    hide L2, Dot, Square, Product;
    if q == [] {
      NothingSummed(q, Add(c, p));
      NothingSummed(q, c);
      NothingSummed(p, p);
      NothingSummed(c, p);
      NothingSummed(q, p);
    } else {
      var n := |q| - 1;
      L2OfSum(q[..n], c[..n], p[..n]);
      assert Add(c, p)[..n] == Add(c[..n], p[..n]);
      LastSquare(q, Add(c, p));
      LastSquare(q, c);
      LastProduct(p, p);
      LastProduct(c, p);
      LastProduct(q, p);
      SquareOfSum(q[n], c[n], p[n]);
    }
  }

  lemma NothingSummed(a: seq<real>, b: seq<real>)
    requires a == []
    ensures L2(a, b) == 0.0 && Dot(a, b) == 0.0
  {
  }

  lemma LastSquare(a: seq<real>, b: seq<real>)
    requires |a| == |b| > 0
    ensures L2(a, b) == L2(a[..|a| - 1], b[..|b| - 1]) + Square(a[|a| - 1] - b[|b| - 1])
  {
  }

  lemma LastProduct(a: seq<real>, b: seq<real>)
    requires |a| == |b| > 0
    ensures Dot(a, b) == Dot(a[..|a| - 1], b[..|b| - 1]) + Product(a[|a| - 1], b[|b| - 1])
  {
  }

  lemma SquareOfSum(q: real, c: real, p: real)
    ensures Square(q - (c + p)) == Square(q - c) + Product(p, p) + 2.0 * Product(c, p) - 2.0 * Product(q, p)
  {
    assert (q - (c + p)) == (q - c) - p;
    assert Square((q - c) - p) == Square(q - c) - 2.0 * ((q - c) * p) + p * p;
    assert (q - c) * p == q * p - c * p;
  }

  /** Moving the coarse centroid to the other side. */
  lemma {:induction false} L2OfDifference(q: seq<real>, c: seq<real>, p: seq<real>)
    requires |q| == |c| == |p|
    ensures L2(Minus(q, c), p) == L2(q, Add(c, p))
  {
    if q != [] {
      var n := |q| - 1;
      L2OfDifference(q[..n], c[..n], p[..n]);
      assert Minus(q, c)[..n] == Minus(q[..n], c[..n]) && Add(c, p)[..n] == Add(c[..n], p[..n]);
    }
  }

  // -------------------------------------------------------------------------
  // Tables
  // -------------------------------------------------------------------------

  /** What a table entry holds for a vector and a codeword. */
  datatype Kind = Distances | Products | Norms

  function Term(kind: Kind, a: seq<real>, p: seq<real>): real {
    match kind
    case Distances => L2(a, p)
    case Products => Dot(a, p)
    case Norms => Dot(p, p)
  }

  /** A vector against n codewords, from the base-th on. */
  function Block(kind: Kind, a: seq<real>, words: seq<real>, d: nat, base: nat, n: nat): (r: seq<real>)
    ensures |r| == n
  {
    seq(n, k requires 0 <= k => Term(kind, a, Sub(words, base + k, d)))
  }

  /** M blocks: sub-vector m of x against the ksub codewords of sub-quantizer m. */
  function Table(kind: Kind, x: seq<real>, words: seq<real>, d: nat, ksub: nat, M: nat): (r: seq<real>)
    ensures |r| == Row(M, ksub)
  {
    if M == 0 then []
    else Table(kind, x, words, d, ksub, M - 1) + Block(kind, Sub(x, M - 1, d), words, d, Row(M - 1, ksub), ksub)
  }

  lemma {:induction false} TableAt(kind: Kind, x: seq<real>, words: seq<real>, d: nat, ksub: nat, M: nat, m: nat,
      k: nat)
    requires m < M && k < ksub
    ensures Row(m, ksub) + k < Row(M, ksub)
    ensures Table(kind, x, words, d, ksub, M)[Row(m, ksub) + k]
        == Term(kind, Sub(x, m, d), Sub(words, Row(m, ksub) + k, d))
  {
    hide Term, Sub, Row;
    RowNext(m, M, ksub);
    if m < M - 1 {
      TableAt(kind, x, words, d, ksub, M - 1, m, k);
    }
  }

  lemma BlockNext(kind: Kind, a: seq<real>, words: seq<real>, d: nat, base: nat, n: nat)
    ensures Block(kind, a, words, d, base, 0) == []
    ensures Block(kind, a, words, d, base, n + 1)
        == Block(kind, a, words, d, base, n) + [Term(kind, a, Sub(words, base + n, d))]
  {
  }

  lemma TableNext(kind: Kind, x: seq<real>, words: seq<real>, d: nat, ksub: nat, m: nat)
    ensures Table(kind, x, words, d, ksub, 0) == []
    ensures Table(kind, x, words, d, ksub, m + 1)
        == Table(kind, x, words, d, ksub, m) + Block(kind, Sub(x, m, d), words, d, Row(m, ksub), ksub)
  {
  }

  /** Norms do not depend on the vector. */
  lemma {:induction false} NormsOnly(x: seq<real>, y: seq<real>, words: seq<real>, d: nat, ksub: nat, M: nat)
    ensures Table(Norms, x, words, d, ksub, M) == Table(Norms, y, words, d, ksub, M)
  {
    if M > 0 {
      NormsOnly(x, y, words, d, ksub, M - 1);
      BlockNorms(Sub(x, M - 1, d), Sub(y, M - 1, d), words, d, Row(M - 1, ksub), ksub);
    }
  }

  lemma BlockNorms(a: seq<real>, b: seq<real>, words: seq<real>, d: nat, base: nat, n: nat)
    ensures Block(Norms, a, words, d, base, n) == Block(Norms, b, words, d, base, n)
  {
    forall k | 0 <= k < n ensures Block(Norms, a, words, d, base, n)[k] == Block(Norms, b, words, d, base, n)[k] {
      assert Term(Norms, a, Sub(words, base + k, d)) == Term(Norms, b, Sub(words, base + k, d));
    }
  }

  /** Writing one row leaves the other rows as they are. */
  lemma PatchRow(v: seq<real>, i: nat, w: seq<real>, n: nat, width: nat, l: nat)
    requires i < n && l < n && |w| == width && |v| == Row(n, width)
    ensures Row(i, width) + width <= |v|
    ensures Sub(Patch(v, Row(i, width), w), l, width) == if l == i then w else Sub(v, l, width)
  {
    RowNext(i, n, width);
    RowNext(l, n, width);
    RowNext(l, l + 1, width);
    if l < i { RowsAscend(l + 1, i, width); }
    if i < l { RowsAscend(i + 1, l, width); }
    hide Row;
    if l != i { PatchElsewhere(v, Row(i, width), w, Row(l, width), Row(l, width) + width); }
  }

  /** fvec_L2sqr_ny, fvec_inner_products_ny, fvec_norms_L2sqr */
  method FillBlock(kind: Kind, a: seq<real>, words: seq<real>, d: nat, base: nat, n: nat, out: array<real>, at: nat)
    requires at + n <= out.Length
    modifies out
    ensures out[..] == Patch(old(out[..]), at, Block(kind, a, words, d, base, n))
  {
    hide Term, Sub, Patch, Block;
    ghost var was := out[..];
    BlockNext(kind, a, words, d, base, 0);
    PatchNothing(was, at);
    for k := 0 to n
      invariant out[..] == Patch(was, at, Block(kind, a, words, d, base, k))
    {
      BlockNext(kind, a, words, d, base, k);
      PatchOne(was, at, Block(kind, a, words, d, base, k), Term(kind, a, Sub(words, base + k, d)));
      out[at + k] := Term(kind, a, Sub(words, base + k, d));
    }
  }

  /** One block after the other. */
  method FillTable(kind: Kind, x: seq<real>, words: seq<real>, d: nat, ksub: nat, M: nat, out: array<real>, at: nat)
    requires at + Row(M, ksub) <= out.Length
    modifies out
    ensures out[..] == Patch(old(out[..]), at, Table(kind, x, words, d, ksub, M))
  {
    hide Block, Sub, Row, Term, Table, Patch;
    ghost var was := out[..];
    TableNext(kind, x, words, d, ksub, 0);
    RowStart(ksub);
    PatchNothing(was, at);
    for m := 0 to M
      invariant at + Row(m, ksub) <= out.Length == |was|
      invariant out[..] == Patch(was, at, Table(kind, x, words, d, ksub, m))
    {
      RowNext(m, M, ksub);
      TableNext(kind, x, words, d, ksub, m);
      PatchMore(was, at, Table(kind, x, words, d, ksub, m), Block(kind, Sub(x, m, d), words, d, Row(m, ksub), ksub));
      FillBlock(kind, Sub(x, m, d), words, d, Row(m, ksub), ksub, out, at + Row(m, ksub));
    }
  }

  /** Sum of the entries a code selects, one from each block. */
  function Lookup(table: seq<real>, codes: seq<nat>, ksub: nat, M: nat): real
    requires M <= |codes| && forall m :: 0 <= m < M ==> Row(m, ksub) + codes[m] < |table|
  {
    if M == 0 then 0.0 else Lookup(table, codes, ksub, M - 1) + table[Row(M - 1, ksub) + codes[M - 1]]
  }

  /** The codewords a code selects, one after the other. */
  function Chosen(words: seq<real>, codes: seq<nat>, d: nat, ksub: nat, M: nat): seq<real>
    requires M <= |codes|
  {
    if M == 0 then [] else Chosen(words, codes, d, ksub, M - 1) + Sub(words, Row(M - 1, ksub) + codes[M - 1], d)
  }

  /** A codebook of M * ksub words of length d, and a code for it. */
  ghost predicate Codebook(words: seq<real>, codes: seq<nat>, d: nat, ksub: nat, M: nat) {
    && |words| == Row(Row(M, ksub), d) && M == |codes|
    && forall m :: 0 <= m < M ==> codes[m] < ksub
  }

  lemma WordLength(words: seq<real>, codes: seq<nat>, d: nat, ksub: nat, M: nat, m: nat)
    requires Codebook(words, codes, d, ksub, M) && m < M
    ensures |codes| == M && codes[m] < ksub
    ensures Row(m, ksub) + codes[m] < Row(M, ksub)
    ensures |Sub(words, Row(m, ksub) + codes[m], d)| == d
  {
    RowNext(m, M, ksub);
    RowNext(Row(m, ksub) + codes[m], Row(M, ksub), d);
  }

  lemma {:induction false} ChosenPart(words: seq<real>, codes: seq<nat>, d: nat, ksub: nat, M: nat, n: nat, m: nat,
      t: nat)
    requires Codebook(words, codes, d, ksub, M) && m < n <= M && t < d
    ensures |codes| == M && |Sub(words, Row(m, ksub) + codes[m], d)| == d
    ensures Row(m, d) + t < |Chosen(words, codes, d, ksub, n)|
    ensures Chosen(words, codes, d, ksub, n)[Row(m, d) + t] == Sub(words, Row(m, ksub) + codes[m], d)[t]
  {
    hide Sub, Row, Chosen;
    WordLength(words, codes, d, ksub, M, m);
    WordLength(words, codes, d, ksub, M, n - 1);
    ChosenLength(words, codes, d, ksub, M, n - 1);
    ChosenNext(words, codes, d, ksub, n - 1);
    if m < n - 1 { ChosenPart(words, codes, d, ksub, M, n - 1, m, t); }
  }

  /** Component t of part m is component t of the codeword the code selects for part m. */
  lemma ChosenAt(words: seq<real>, codes: seq<nat>, d: nat, ksub: nat, M: nat, m: nat, t: nat) returns (x: real)
    requires Codebook(words, codes, d, ksub, M) && m < M && t < d
    ensures |codes| == M && At(words, (m * ksub + codes[m]) * d + t, x)
    ensures At(Chosen(words, codes, d, ksub, M), m * d + t, x)
  {
    hide Sub, Row, Chosen;
    ChosenPart(words, codes, d, ksub, M, M, m, t);
    RowIsProduct(m, d);
    RowIsProduct(m, ksub);
    WordRow(words, codes, d, ksub, M, m);
    SubAt(words, Row(m, ksub) + codes[m], d, t);
    x := Sub(words, Row(m, ksub) + codes[m], d)[t];
  }

  lemma WordRow(words: seq<real>, codes: seq<nat>, d: nat, ksub: nat, M: nat, m: nat)
    requires Codebook(words, codes, d, ksub, M) && m < M
    ensures Row(Row(m, ksub) + codes[m], d) + d <= |words|
  {
    RowNext(m, M, ksub);
    RowNext(Row(m, ksub) + codes[m], Row(M, ksub), d);
  }

  lemma {:induction false} ChosenLength(words: seq<real>, codes: seq<nat>, d: nat, ksub: nat, M: nat, m: nat)
    requires Codebook(words, codes, d, ksub, M) && m <= M
    ensures |Chosen(words, codes, d, ksub, m)| == Row(m, d)
  {
    hide Codebook, Sub, Row;
    RowStart(d);
    if m > 0 {
      RowNext(m - 1, m, d);
      ChosenLength(words, codes, d, ksub, M, m - 1);
      WordLength(words, codes, d, ksub, M, m - 1);
    }
  }

  /** The first m sub-vectors of x. */
  lemma FrontNext(x: seq<real>, m: nat, M: nat, d: nat)
    requires m < M && |x| == Row(M, d)
    ensures Row(m, d) <= Row(m + 1, d) <= |x|
    ensures x[..Row(m + 1, d)] == x[..Row(m, d)] + Sub(x, m, d) && |Sub(x, m, d)| == d
  {
    RowNext(m, M, d);
  }

  lemma LookupDefined(kind: Kind, x: seq<real>, words: seq<real>, codes: seq<nat>, d: nat, ksub: nat, M: nat)
    requires Codebook(words, codes, d, ksub, M)
    ensures forall m :: 0 <= m < M ==> Row(m, ksub) + codes[m] < Row(M, ksub)
  {
    forall m | 0 <= m < M ensures Row(m, ksub) + codes[m] < Row(M, ksub) {
      WordLength(words, codes, d, ksub, M, m);
    }
  }

  lemma L2Nothing()
    ensures L2([], []) == 0.0 && Dot([], []) == 0.0
  {
  }

  /** MAIN: the table lookup is the squared distance to the reconstruction, for every split of the dimensions. */
  lemma {:induction false} LookupIsDistance(x: seq<real>, words: seq<real>, codes: seq<nat>, d: nat, ksub: nat,
      M: nat, m: nat)
    requires Codebook(words, codes, d, ksub, M) && |x| == Row(M, d) && m <= M
    ensures forall i :: 0 <= i < M ==> Row(i, ksub) + codes[i] < Row(M, ksub)
    ensures Row(m, d) <= |x| && |Chosen(words, codes, d, ksub, m)| == Row(m, d)
    ensures Lookup(Table(Distances, x, words, d, ksub, M), codes, ksub, m)
        == L2(x[..Row(m, d)], Chosen(words, codes, d, ksub, m))
  {
    hide Codebook, Sub, Row, Table, L2;
    RowStart(d);
    L2Nothing();
    LookupDefined(Distances, x, words, codes, d, ksub, M);
    ChosenLength(words, codes, d, ksub, M, m);
    RowsAscend(m, M, d);
    if m > 0 {
      LookupIsDistance(x, words, codes, d, ksub, M, m - 1);
      WordLength(words, codes, d, ksub, M, m - 1);
      FrontNext(x, m - 1, M, d);
      TableAt(Distances, x, words, d, ksub, M, m - 1, codes[m - 1]);
      L2Append(x[..Row(m - 1, d)], Chosen(words, codes, d, ksub, m - 1), Sub(x, m - 1, d),
          Sub(words, Row(m - 1, ksub) + codes[m - 1], d));
    }
  }

  /** The same for inner products and for norms. */
  lemma {:induction false} LookupIsProduct(x: seq<real>, words: seq<real>, codes: seq<nat>, d: nat, ksub: nat, M: nat,
      m: nat)
    requires Codebook(words, codes, d, ksub, M) && |x| == Row(M, d) && m <= M
    ensures forall i :: 0 <= i < M ==> Row(i, ksub) + codes[i] < Row(M, ksub)
    ensures Row(m, d) <= |x| && |Chosen(words, codes, d, ksub, m)| == Row(m, d)
    ensures Lookup(Table(Products, x, words, d, ksub, M), codes, ksub, m)
        == Dot(x[..Row(m, d)], Chosen(words, codes, d, ksub, m))
    ensures Lookup(Table(Norms, x, words, d, ksub, M), codes, ksub, m)
        == Dot(Chosen(words, codes, d, ksub, m), Chosen(words, codes, d, ksub, m))
  {
    hide Codebook, Sub, Row, Table, Dot;
    RowStart(d);
    L2Nothing();
    LookupDefined(Products, x, words, codes, d, ksub, M);
    ChosenLength(words, codes, d, ksub, M, m);
    RowsAscend(m, M, d);
    if m > 0 {
      LookupIsProduct(x, words, codes, d, ksub, M, m - 1);
      WordLength(words, codes, d, ksub, M, m - 1);
      FrontNext(x, m - 1, M, d);
      TableAt(Products, x, words, d, ksub, M, m - 1, codes[m - 1]);
      TableAt(Norms, x, words, d, ksub, M, m - 1, codes[m - 1]);
      var front, word := Chosen(words, codes, d, ksub, m - 1), Sub(words, Row(m - 1, ksub) + codes[m - 1], d);
      DotAppend(x[..Row(m - 1, d)], front, Sub(x, m - 1, d), word);
      DotAppend(front, front, word, word);
    }
  }

  /** Distance to codeword i. */
  function DistanceTo(a: seq<real>, words: seq<real>, d: nat, i: nat): real {
    L2(a, Sub(words, i, d))
  }

  /** fvec_L2sqr_ny_nearest: the first nearest of n codewords. */
  method NearestWord(a: seq<real>, words: seq<real>, d: nat, base: nat, n: nat) returns (k: nat)
    requires n > 0
    ensures k < n
    ensures forall i: nat :: base <= i < base + n ==> DistanceTo(a, words, d, base + k) <= DistanceTo(a, words, d, i)
    ensures forall i: nat :: base <= i < base + k ==> DistanceTo(a, words, d, base + k) < DistanceTo(a, words, d, i)
  {
    hide DistanceTo;
    k := 0;
    var best := DistanceTo(a, words, d, base);
    for j := 1 to n
      invariant k < j && best == DistanceTo(a, words, d, base + k)
      invariant forall i: nat :: base <= i < base + j ==> best <= DistanceTo(a, words, d, i)
      invariant forall i: nat :: base <= i < base + k ==> best < DistanceTo(a, words, d, i)
    {
      var dis := DistanceTo(a, words, d, base + j);
      if dis < best { k, best := j, dis; }
    }
  }

  /** Code k is the nearest for sub-vector m. */
  ghost predicate NearestAt(x: seq<real>, words: seq<real>, d: nat, ksub: nat, m: nat, k: nat) {
    k < ksub && forall i: nat :: Row(m, ksub) <= i < Row(m, ksub) + ksub ==>
      DistanceTo(Sub(x, m, d), words, d, Row(m, ksub) + k) <= DistanceTo(Sub(x, m, d), words, d, i)
  }

  /** Every entry of a code is the nearest for its sub-vector. */
  ghost predicate NearestCodes(x: seq<real>, words: seq<real>, d: nat, ksub: nat, codes: seq<nat>) {
    forall m :: 0 <= m < |codes| ==> NearestAt(x, words, d, ksub, m, codes[m])
  }

  /** EncodeOneT without writing the bits. */
  method NearestAll(x: seq<real>, words: seq<real>, d: nat, ksub: nat, M: nat) returns (codes: seq<nat>)
    requires ksub > 0
    ensures |codes| == M && NearestCodes(x, words, d, ksub, codes)
  {
    hide DistanceTo, Row, Sub;
    codes := [];
    for m := 0 to M
      invariant |codes| == m && NearestCodes(x, words, d, ksub, codes)
    {
      var k := NearestWord(Sub(x, m, d), words, d, Row(m, ksub), ksub);
      assert NearestAt(x, words, d, ksub, m, k);
      codes := codes + [k];
    }
  }

  lemma ChosenNext(words: seq<real>, codes: seq<nat>, d: nat, ksub: nat, m: nat)
    requires m <= |codes|
    ensures Chosen(words, codes, d, ksub, 0) == []
    ensures m < |codes| ==> Chosen(words, codes, d, ksub, m + 1) == Chosen(words, codes, d, ksub, m) + Sub(words, Row(m, ksub) + codes[m], d)
  {
  }

  lemma NothingChosen(x: seq<real>, words: seq<real>, codes: seq<nat>, d: nat, ksub: nat)
    ensures Row(0, d) == 0 && L2(x[..Row(0, d)], Chosen(words, codes, d, ksub, 0)) == 0.0
  {
    RowStart(d);
    ChosenNext(words, codes, d, ksub, 0);
  }

  lemma NearestStep(x: seq<real>, words: seq<real>, codes: seq<nat>, other: seq<nat>, d: nat, ksub: nat, M: nat, m: nat)
    requires |x| == Row(M, d) && NearestCodes(x, words, d, ksub, codes) && m < M
    requires Codebook(words, codes, d, ksub, M) && Codebook(words, other, d, ksub, M)
    requires Row(m, d) <= |x| && L2(x[..Row(m, d)], Chosen(words, codes, d, ksub, m))
        <= L2(x[..Row(m, d)], Chosen(words, other, d, ksub, m))
    ensures Row(m + 1, d) <= |x|
    ensures L2(x[..Row(m + 1, d)], Chosen(words, codes, d, ksub, m + 1))
        <= L2(x[..Row(m + 1, d)], Chosen(words, other, d, ksub, m + 1))
  {
    hide L2, Row, Sub, Chosen, Codebook;
    FrontNext(x, m, M, d);
    WordLength(words, codes, d, ksub, M, m);
    WordLength(words, other, d, ksub, M, m);
    ChosenNext(words, codes, d, ksub, m);
    ChosenNext(words, other, d, ksub, m);
    ChosenLength(words, codes, d, ksub, M, m);
    ChosenLength(words, other, d, ksub, M, m);
    L2Append(x[..Row(m, d)], Chosen(words, codes, d, ksub, m), Sub(x, m, d), Sub(words, Row(m, ksub) + codes[m], d));
    L2Append(x[..Row(m, d)], Chosen(words, other, d, ksub, m), Sub(x, m, d), Sub(words, Row(m, ksub) + other[m], d));
    assert NearestAt(x, words, d, ksub, m, codes[m]);
    assert DistanceTo(Sub(x, m, d), words, d, Row(m, ksub) + codes[m]) <= DistanceTo(Sub(x, m, d), words, d,
        Row(m, ksub) + other[m]);
  }

  /** MAIN: choosing the nearest codeword for each sub-vector gives the nearest of all reconstructions. */
  lemma {:induction false} EncodingIsOptimal(x: seq<real>, words: seq<real>, codes: seq<nat>, other: seq<nat>, d: nat,
      ksub: nat, M: nat, m: nat)
    requires |x| == Row(M, d) && NearestCodes(x, words, d, ksub, codes) && m <= M
    requires Codebook(words, codes, d, ksub, M) && Codebook(words, other, d, ksub, M)
    ensures Row(m, d) <= |x|
    ensures L2(x[..Row(m, d)], Chosen(words, codes, d, ksub, m)) <= L2(x[..Row(m, d)], Chosen(words, other, d, ksub, m))
  {
    hide L2, Codebook, NearestCodes, Chosen, Sub, Row;
    if m == 0 {
      NothingChosen(x, words, codes, d, ksub);
      NothingChosen(x, words, other, d, ksub);
    } else {
      EncodingIsOptimal(x, words, codes, other, d, ksub, M, m - 1);
      NearestStep(x, words, codes, other, d, ksub, M, m - 1);
    }
  }

  /** DecodeOneT: the selected codewords are copied one after the other. */
  method CopyChosen(words: seq<real>, codes: seq<nat>, d: nat, ksub: nat, M: nat, x: array<real>)
    requires Codebook(words, codes, d, ksub, M) && x.Length == Row(M, d)
    modifies x
    ensures x[..] == Chosen(words, codes, d, ksub, M)
  {
    hide Chosen, Row, Codebook, Patch, Sub;
    ghost var was := x[..];
    CodeLength(words, codes, d, ksub, M);
    ChosenNext(words, codes, d, ksub, 0);
    RowStart(d);
    PatchNothing(was, 0);
    for m := 0 to M
      invariant |Chosen(words, codes, d, ksub, m)| == Row(m, d) <= x.Length == |was|
      invariant x[..] == Patch(was, 0, Chosen(words, codes, d, ksub, m))
    {
      WordLength(words, codes, d, ksub, M, m);
      RowNext(m, M, d);
      ChosenNext(words, codes, d, ksub, m);
      var word := Sub(words, Row(m, ksub) + codes[m], d);
      PatchMore(was, 0, Chosen(words, codes, d, ksub, m), word);
      CopyWord(word, x, Row(m, d));
    }
    PatchAll(was, Chosen(words, codes, d, ksub, M));
  }

  lemma CodeLength(words: seq<real>, codes: seq<nat>, d: nat, ksub: nat, M: nat)
    requires Codebook(words, codes, d, ksub, M)
    ensures |codes| == M
  {
  }

  method CopyWord(word: seq<real>, x: array<real>, at: nat)
    requires at + |word| <= x.Length
    modifies x
    ensures x[..] == Patch(old(x[..]), at, word)
  {
    hide Patch;
    ghost var was := x[..];
    PatchNothing(was, at);
    assert word[..0] == [];
    for i := 0 to |word|
      invariant x[..] == Patch(was, at, word[..i])
    {
      PatchOne(was, at, word[..i], word[i]);
      assert word[..i + 1] == word[..i] + [word[i]];
      x[at + i] := word[i];
    }
    assert word[..|word|] == word;
  }
}
