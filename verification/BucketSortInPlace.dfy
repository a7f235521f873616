/**
 bucket_sort_inplace_ref: a matrix of bucket numbers is overwritten, cell by cell, with the row
 numbers of the entries of each bucket, by following the cycles of the permutation with one hole.
 */
module BucketSortInPlace {
  import opened Buckets
  import opened BucketSort

  /** rows[i] is the row of cell i in a matrix with ncol columns. */
  function Rows(n: nat, ncol: nat): seq<int>
    requires ncol > 0
  {
    seq(n, i requires 0 <= i => i / ncol)
  }

  /** Row numbers of the cells below `upto` that hold `b` and are not yet taken out. */
  function Rest(vals: seq<nat>, rows: seq<int>, taken: seq<bool>, b: nat, upto: nat): multiset<int>
    requires upto <= |vals| == |rows| == |taken|
  {
    if upto == 0 then multiset{}
    else Rest(vals, rows, taken, b, upto - 1) + if !taken[upto - 1] && vals[upto - 1] == b then multiset{rows[upto - 1]} else multiset{}
  }

  function None(n: nat): seq<bool> {
    seq(n, _ => false)
  }

  /** What the source promises for bucket b: the row numbers of the entries equal to b. */
  function BucketRows(vals: seq<nat>, rows: seq<int>, b: nat): multiset<int>
    requires |vals| == |rows|
  {
    Rest(vals, rows, None(|vals|), b, |vals|)
  }

  lemma {:induction false} RestTake(vals: seq<nat>, rows: seq<int>, taken: seq<bool>, b: nat, upto: nat, p: nat)
    requires upto <= |vals| == |rows| == |taken| && p < |vals| && !taken[p]
    ensures Rest(vals, rows, taken, b, upto)
         == Rest(vals, rows, taken[p := true], b, upto) + if p < upto && vals[p] == b then multiset{rows[p]} else multiset{}
  {
    hide Rest;
    if upto == 0 {
      RestZero(vals, rows, taken, b);
      RestZero(vals, rows, taken[p := true], b);
    } else {
      var q := upto - 1;
      var taken' := taken[p := true];
      RestTake(vals, rows, taken, b, q, p);
      RestStep(vals, rows, taken, b, q);
      RestStep(vals, rows, taken', b, q);
    }
  }

  lemma RestZero(vals: seq<nat>, rows: seq<int>, taken: seq<bool>, b: nat)
    requires |vals| == |rows| == |taken|
    ensures Rest(vals, rows, taken, b, 0) == multiset{}
  {
  }

  lemma RestStep(vals: seq<nat>, rows: seq<int>, taken: seq<bool>, b: nat, q: nat)
    requires q < |vals| == |rows| == |taken|
    ensures Rest(vals, rows, taken, b, q + 1)
         == Rest(vals, rows, taken, b, q) + if !taken[q] && vals[q] == b then multiset{rows[q]} else multiset{}
  {
  }

  lemma {:induction false} RestSize(vals: seq<nat>, rows: seq<int>, b: nat, upto: nat)
    requires upto <= |vals| == |rows|
    ensures |Rest(vals, rows, None(|vals|), b, upto)| == |Pick(vals, Iota(0, upto), b)|
  {
    if upto > 0 {
      RestSize(vals, rows, b, upto - 1);
      PickUpTo(vals, upto - 1, b);
    }
  }

  function At(rows: seq<int>, picks: seq<nat>): seq<int>
    requires forall k :: 0 <= k < |picks| ==> picks[k] < |rows|
  {
    seq(|picks|, k requires 0 <= k < |picks| => rows[picks[k]])
  }

  /** The in-place sort and the reference sort agree: same rows per bucket. */
  lemma {:induction false} RestIsPicked(vals: seq<nat>, rows: seq<int>, b: nat, upto: nat)
    requires upto <= |vals| == |rows|
    ensures forall k :: 0 <= k < |Pick(vals, Iota(0, upto), b)| ==> Pick(vals, Iota(0, upto), b)[k] < |rows|
    ensures Rest(vals, rows, None(|vals|), b, upto) == multiset(At(rows, Pick(vals, Iota(0, upto), b)))
  {
    hide Rest, Pick, At, Iota;
    if upto == 0 {
      RestZero(vals, rows, None(|vals|), b);
      PickNothing(vals, b);
      AtNothing(rows);
    } else {
      RestIsPicked(vals, rows, b, upto - 1);
      PickUpTo(vals, upto - 1, b);
      RestStep(vals, rows, None(|vals|), b, upto - 1);
      AtAppend(rows, Pick(vals, Iota(0, upto - 1), b), upto - 1);
      assert None(|vals|)[upto - 1] == false;
      assert vals[upto - 1] != b ==> Pick(vals, Iota(0, upto), b) == Pick(vals, Iota(0, upto - 1), b);
    }
  }

  lemma PickNothing(vals: seq<nat>, b: nat)
    ensures Pick(vals, Iota(0, 0), b) == []
  {
  }

  lemma AtNothing(rows: seq<int>)
    ensures At(rows, []) == []
  {
  }

  lemma AtAppend(rows: seq<int>, picks: seq<nat>, i: nat)
    requires (forall k :: 0 <= k < |picks| ==> picks[k] < |rows|) && i < |rows|
    ensures multiset(At(rows, picks + [i])) == multiset(At(rows, picks)) + multiset{rows[i]}
  {
    assert At(rows, picks + [i]) == At(rows, picks) + [rows[i]];
  }

  // -------------------------------------------------------------------------
  // The state between two moves
  // -------------------------------------------------------------------------

  /** home[p] is the bucket whose output slice contains position p. */
  ghost predicate Homes(vals: seq<nat>, nb: nat, lims: seq<int>, home: seq<nat>) {
    && |lims| == nb + 1 && lims[0] == 0 && |home| == |vals| == lims[nb]
    && (forall a, b :: 0 <= a <= b <= nb ==> lims[a] <= lims[b])
    && (forall p {:trigger home[p]} :: 0 <= p < |home| ==> home[p] < nb && lims[home[p]] <= p < lims[home[p] + 1])
  }

  /** One value in flight, taken out of the cell it came from; none when row is -1. */
  datatype Flight = Flight(row: int, bucket: nat)

  /** A cell is taken once its bucket's pointer has passed it or it is the hole; else it is untouched. */
  ghost predicate CellOk(val: nat, cell: int, ptr: int, taken: bool, hole: int, p: int) {
    && (taken <==> p < ptr || p == hole)
    && (!taken ==> cell == val)
  }

  ghost predicate Shape(vals: seq<nat>, nb: nat, lims: seq<int>, home: seq<nat>, cells: seq<int>, ptrs: seq<int>,
      taken: seq<bool>, hole: int) {
    && Homes(vals, nb, lims, home)
    && |cells| == |taken| == |vals| && |ptrs| == nb
    && (forall b {:trigger ptrs[b]} :: 0 <= b < nb ==> lims[b] <= ptrs[b] <= lims[b + 1])
    && (forall p :: 0 <= p < |vals| ==> CellOk(vals[p], cells[p], ptrs[home[p]], taken[p], hole, p))
    && (hole >= 0 ==> hole < |vals| && cells[hole] == -1 && ptrs[home[hole]] == hole)
  }

  /** Bucket b accounts for all its rows: written, still to be taken, or in flight. */
  ghost predicate Accounts(vals: seq<nat>, rows: seq<int>, lims: seq<int>, cells: seq<int>, ptr: int,
      taken: seq<bool>, f: Flight, b: nat)
    requires |cells| == |taken| == |vals| == |rows|
  {
    && b < |lims| && 0 <= lims[b] <= ptr <= |cells|
    && multiset(cells[lims[b]..ptr]) + Rest(vals, rows, taken, b, |vals|)
         + (if f.row >= 0 && f.bucket == b then multiset{f.row} else multiset{})
       == BucketRows(vals, rows, b)
  }

  /** A value in flight always finds a free slot in its bucket. */
  lemma RoomForFlight(vals: seq<nat>, rows: seq<int>, lims: seq<int>, cells: seq<int>, ptr: int, taken: seq<bool>,
      f: Flight)
    requires |cells| == |taken| == |vals| == |rows| && f.row >= 0 && f.bucket + 1 < |lims|
    requires |BucketRows(vals, rows, f.bucket)| == lims[f.bucket + 1] - lims[f.bucket]
    requires Accounts(vals, rows, lims, cells, ptr, taken, f, f.bucket)
    ensures ptr < lims[f.bucket + 1]
  {
    var b := f.bucket;
    var m, r := multiset(cells[lims[b]..ptr]), Rest(vals, rows, taken, b, |vals|);
    assert |m| == ptr - lims[b];
    assert |BucketRows(vals, rows, b)| == |m| + |r| + 1;
  }

  /** A full bucket with nothing in flight holds exactly its rows. */
  lemma FullBucket(vals: seq<nat>, rows: seq<int>, lims: seq<int>, cells: seq<int>, taken: seq<bool>, f: Flight, b: nat)
    requires |cells| == |taken| == |vals| == |rows| && f.row < 0 && b + 1 < |lims|
    requires |BucketRows(vals, rows, b)| == lims[b + 1] - lims[b]
    requires Accounts(vals, rows, lims, cells, lims[b + 1], taken, f, b)
    ensures multiset(cells[lims[b]..lims[b + 1]]) == BucketRows(vals, rows, b)
  {
    var m, r := multiset(cells[lims[b]..lims[b + 1]]), Rest(vals, rows, taken, b, |vals|);
    assert |BucketRows(vals, rows, b)| == |m| + |r|;
    assert |r| == 0;
  }

  /** Taking the value out of cell p and leaving a hole. */
  lemma AccountsAfterTake(vals: seq<nat>, rows: seq<int>, lims: seq<int>, cells: seq<int>, cells': seq<int>, ptr: int,
      taken: seq<bool>, f: Flight, b: nat, p: nat)
    requires |cells| == |taken| == |vals| == |rows| && p < |vals| && !taken[p] && f.row < 0
    requires rows[p] >= 0 && b < |lims| && (p < lims[b] || ptr <= p)
    requires Accounts(vals, rows, lims, cells, ptr, taken, f, b) && cells' == cells[p := -1]
    ensures Accounts(vals, rows, lims, cells', ptr, taken[p := true], Flight(rows[p], vals[p]), b)
  {
    RestTake(vals, rows, taken, b, |vals|, p);
    assert cells'[lims[b]..ptr] == cells[lims[b]..ptr];
  }

  /** Writing the value in flight into the next slot of its bucket; the slot held the hole. */
  lemma AccountsAfterClose(vals: seq<nat>, rows: seq<int>, lims: seq<int>, cells: seq<int>, cells': seq<int>,
      ptr: int, taken: seq<bool>, f: Flight, b: nat, p: nat)
    requires |cells| == |taken| == |vals| == |rows| && p < |vals| && f.row >= 0
    requires b < |lims| && if b == f.bucket then p == ptr else p < lims[b] || ptr <= p
    requires Accounts(vals, rows, lims, cells, ptr, taken, f, b) && cells' == cells[p := f.row]
    ensures Accounts(vals, rows, lims, cells', if b == f.bucket then ptr + 1 else ptr, taken, Flight(-1, 0), b)
  {
    var lo := lims[b];
    if b == f.bucket {
      assert cells'[lo..ptr + 1] == cells[lo..ptr] + [f.row];
    } else {
      assert cells'[lo..ptr] == cells[lo..ptr];
    }
  }

  /** The same when the slot held a value, which takes flight in its turn. */
  lemma AccountsAfterMove(vals: seq<nat>, rows: seq<int>, lims: seq<int>, cells: seq<int>, cells': seq<int>, ptr: int,
      taken: seq<bool>, f: Flight, b: nat, p: nat)
    requires |cells| == |taken| == |vals| == |rows| && p < |vals| && f.row >= 0 && !taken[p] && rows[p] >= 0
    requires b < |lims| && if b == f.bucket then p == ptr else p < lims[b] || ptr <= p
    requires Accounts(vals, rows, lims, cells, ptr, taken, f, b) && cells' == cells[p := f.row]
    ensures Accounts(vals, rows, lims, cells', if b == f.bucket then ptr + 1 else ptr, taken[p := true], Flight(rows[p], vals[p]), b)
  {
    AccountsAfterClose(vals, rows, lims, cells, cells', ptr, taken, f, b, p);
    RestTake(vals, rows, taken, b, |vals|, p);
  }

  lemma ShapeAfterTake(vals: seq<nat>, nb: nat, lims: seq<int>, home: seq<nat>, cells: seq<int>, ptrs: seq<int>,
      taken: seq<bool>, p: nat)
    requires Shape(vals, nb, lims, home, cells, ptrs, taken, -1)
    requires p < |vals| && !taken[p] && ptrs[home[p]] == p
    ensures Shape(vals, nb, lims, home, cells[p := -1], ptrs, taken[p := true], p)
  {
  }

  /** The slot a value in flight goes to: the hole, or a cell still holding its own value. */
  lemma NextSlot(vals: seq<nat>, nb: nat, lims: seq<int>, home: seq<nat>, cells: seq<int>, ptrs: seq<int>,
      taken: seq<bool>, hole: int, b: nat)
    requires Shape(vals, nb, lims, home, cells, ptrs, taken, hole) && hole >= 0
    requires b < nb && ptrs[b] < lims[b + 1]
    ensures var p := ptrs[b];
            && 0 <= p < |vals| && home[p] == b
            && (p == hole <==> cells[p] == -1)
            && (p == hole <==> taken[p])
            && (p != hole ==> home[hole] != b && cells[p] == vals[p])
  {
    SlotHome(vals, nb, lims, home, b, ptrs[b]);
    var p := ptrs[b];
    assert CellOk(vals[p], cells[p], ptrs[home[p]], taken[p], hole, p);
  }

  lemma ShapeAfterWrite(vals: seq<nat>, nb: nat, lims: seq<int>, home: seq<nat>, cells: seq<int>, ptrs: seq<int>,
      taken: seq<bool>, hole: int, b: nat, row: int)
    requires Shape(vals, nb, lims, home, cells, ptrs, taken, hole) && hole >= 0
    requires b < nb && ptrs[b] < lims[b + 1]
    ensures var p := ptrs[b];
            && 0 <= p < |vals|
            && Shape(vals, nb, lims, home, cells[p := row], ptrs[b := p + 1], taken[p := true], if p == hole then -1 else hole)
  {
    NextSlot(vals, nb, lims, home, cells, ptrs, taken, hole, b);
    var p := ptrs[b];
    var hole' := if p == hole then -1 else hole;
    forall q | 0 <= q < |vals|
      ensures CellOk(vals[q], cells[p := row][q], ptrs[b := p + 1][home[q]], taken[p := true][q], hole', q)
    {
      assert CellOk(vals[q], cells[q], ptrs[home[q]], taken[q], hole, q);
    }
  }

  lemma SlotHome(vals: seq<nat>, nb: nat, lims: seq<int>, home: seq<nat>, b: nat, p: int)
    requires Homes(vals, nb, lims, home) && b < nb && lims[b] <= p < lims[b + 1]
    ensures p < |vals| && home[p] == b
  {
    var h := home[p];
  }

  /** Slots still to be written; the loop's measure. */
  function Left(lims: seq<int>, ptrs: seq<int>, upto: nat): int
    requires upto <= |ptrs| < |lims|
  {
    if upto == 0 then 0 else Left(lims, ptrs, upto - 1) + lims[upto] - ptrs[upto - 1]
  }

  lemma {:induction false} LeftStep(lims: seq<int>, ptrs: seq<int>, upto: nat, b: nat)
    requires upto <= |ptrs| < |lims| && b < |ptrs|
    requires forall c {:trigger ptrs[c]} :: 0 <= c < |ptrs| ==> ptrs[c] <= lims[c + 1]
    ensures Left(lims, ptrs, upto) >= 0
    ensures Left(lims, ptrs[b := ptrs[b] + 1], upto) == Left(lims, ptrs, upto) - if b < upto then 1 else 0
  {
    if upto > 0 { LeftStep(lims, ptrs, upto - 1, b); }
  }

  function FindHome(lims: seq<int>, nb: nat, p: nat): (b: nat)
    requires nb < |lims| && lims[0] == 0 && p < lims[nb]
    ensures b < nb && lims[b] <= p < lims[b + 1]
  {
    if lims[nb - 1] <= p then nb - 1 else FindHome(lims, nb - 1, p)
  }

  /** Everything the loop keeps between two moves. */
  ghost predicate Moving(vals: seq<nat>, rows: seq<int>, nb: nat, lims: seq<int>, home: seq<nat>, cells: seq<int>,
      ptrs: seq<int>, taken: seq<bool>, hole: int, f: Flight)
    requires |vals| == |rows|
  {
    && Shape(vals, nb, lims, home, cells, ptrs, taken, hole)
    && (forall b {:trigger BucketRows(vals, rows, b)} ::
        0 <= b < nb ==> |BucketRows(vals, rows, b)| == lims[b + 1] - lims[b])
    && (f.row >= 0 <==> hole >= 0)
    && (f.row >= 0 ==> f.bucket < nb)
    && (forall b :: 0 <= b < nb ==> Accounts(vals, rows, lims, cells, ptrs[b], taken, f, b))
  }

  lemma StartCycle(vals: seq<nat>, rows: seq<int>, nb: nat, lims: seq<int>, home: seq<nat>, cells: seq<int>,
      ptrs: seq<int>, taken: seq<bool>, f: Flight, p: nat)
    requires |rows| == |vals| && (forall i :: 0 <= i < |vals| ==> rows[i] >= 0 && vals[i] < nb)
    requires Moving(vals, rows, nb, lims, home, cells, ptrs, taken, -1, f)
    requires p < |vals| && !taken[p] && ptrs[home[p]] == p
    ensures cells[p] == vals[p]
    ensures Moving(vals, rows, nb, lims, home, cells[p := -1], ptrs, taken[p := true], p, Flight(rows[p], vals[p]))
  {
    ShapeAfterTake(vals, nb, lims, home, cells, ptrs, taken, p);
    forall b | 0 <= b < nb
      ensures Accounts(vals, rows, lims, cells[p := -1], ptrs[b], taken[p := true], Flight(rows[p], vals[p]), b)
    {
      Outside(vals, nb, lims, home, ptrs, p, b);
      AccountsAfterTake(vals, rows, lims, cells, cells[p := -1], ptrs[b], taken, f, b, p);
    }
  }

  /** A position at or past its own bucket's pointer lies outside every bucket's written part. */
  lemma Outside(vals: seq<nat>, nb: nat, lims: seq<int>, home: seq<nat>, ptrs: seq<int>, p: nat, b: nat)
    requires Homes(vals, nb, lims, home) && |ptrs| == nb && b < nb && p < |vals|
    requires forall c {:trigger ptrs[c]} :: 0 <= c < nb ==> lims[c] <= ptrs[c] <= lims[c + 1]
    requires ptrs[home[p]] <= p
    ensures p < lims[b] || ptrs[b] <= p
  {
    var h := home[p];
  }

  /** The value in flight lands on the hole: the cycle is closed. */
  lemma CloseCycle(vals: seq<nat>, rows: seq<int>, nb: nat, lims: seq<int>, home: seq<nat>, cells: seq<int>,
      ptrs: seq<int>, taken: seq<bool>, hole: int, f: Flight)
    requires |rows| == |vals|
    requires Moving(vals, rows, nb, lims, home, cells, ptrs, taken, hole, f) && f.row >= 0
    requires ptrs[f.bucket] == hole
    ensures Moving(vals, rows, nb, lims, home, cells[hole := f.row], ptrs[f.bucket := hole + 1], taken, -1,
        Flight(-1, 0))
  {
    hide Accounts, BucketRows, Rest, Start, Homes;
    FlightHasRoom(vals, rows, nb, lims, home, cells, ptrs, taken, hole, f);
    NextSlot(vals, nb, lims, home, cells, ptrs, taken, hole, f.bucket);
    ShapeAfterWrite(vals, nb, lims, home, cells, ptrs, taken, hole, f.bucket, f.row);
    var cells', ptrs' := cells[hole := f.row], ptrs[f.bucket := hole + 1];
    assert taken[hole := true] == taken;
    forall b | 0 <= b < nb ensures Accounts(vals, rows, lims, cells', ptrs'[b], taken, Flight(-1, 0), b) {
      CloseAccount(vals, rows, nb, lims, home, cells, ptrs, taken, hole, f, b);
    }
  }

  lemma CloseAccount(vals: seq<nat>, rows: seq<int>, nb: nat, lims: seq<int>, home: seq<nat>, cells: seq<int>,
      ptrs: seq<int>, taken: seq<bool>, hole: int, f: Flight, b: nat)
    requires |rows| == |vals| && b < nb
    requires Moving(vals, rows, nb, lims, home, cells, ptrs, taken, hole, f) && f.row >= 0
    requires ptrs[f.bucket] == hole
    ensures Accounts(vals, rows, lims, cells[hole := f.row], ptrs[f.bucket := hole + 1][b], taken, Flight(-1, 0), b)
  {
    assert Accounts(vals, rows, lims, cells, ptrs[b], taken, f, b);
    Outside(vals, nb, lims, home, ptrs, hole, b);
    AccountsAfterClose(vals, rows, lims, cells, cells[hole := f.row], ptrs[b], taken, f, b, hole);
  }

  /** It lands on a value, which takes flight. */
  lemma FollowCycle(vals: seq<nat>, rows: seq<int>, nb: nat, lims: seq<int>, home: seq<nat>, cells: seq<int>,
      ptrs: seq<int>, taken: seq<bool>, hole: int, f: Flight, p: nat)
    requires |rows| == |vals| && p < |vals| && rows[p] >= 0 && vals[p] < nb
    requires Moving(vals, rows, nb, lims, home, cells, ptrs, taken, hole, f) && f.row >= 0
    requires ptrs[f.bucket] == p && p != hole
    ensures cells[p] == vals[p]
    ensures Moving(vals, rows, nb, lims, home, cells[p := f.row], ptrs[f.bucket := p + 1], taken[p := true], hole,
        Flight(rows[p], vals[p]))
  {
    hide Shape, Accounts, Rest, BucketRows;
    FlightHasRoom(vals, rows, nb, lims, home, cells, ptrs, taken, hole, f);
    NextSlot(vals, nb, lims, home, cells, ptrs, taken, hole, f.bucket);
    ShapeAfterWrite(vals, nb, lims, home, cells, ptrs, taken, hole, f.bucket, f.row);
    MoveAccounts(vals, rows, nb, lims, home, cells, ptrs, taken, hole, f, p);
  }

  lemma MoveAccounts(vals: seq<nat>, rows: seq<int>, nb: nat, lims: seq<int>, home: seq<nat>, cells: seq<int>,
      ptrs: seq<int>, taken: seq<bool>, hole: int, f: Flight, p: nat)
    requires |rows| == |vals| && p < |vals| && rows[p] >= 0
    requires Moving(vals, rows, nb, lims, home, cells, ptrs, taken, hole, f) && f.row >= 0
    requires !taken[p] && home[p] == f.bucket && ptrs[f.bucket] == p
    ensures var ptrs' := ptrs[f.bucket := p + 1];
            forall b :: 0 <= b < nb ==> Accounts(vals, rows, lims, cells[p := f.row], ptrs'[b], taken[p := true], Flight(rows[p], vals[p]), b)
  {
    var ptrs' := ptrs[f.bucket := p + 1];
    forall b | 0 <= b < nb
      ensures Accounts(vals, rows, lims, cells[p := f.row], ptrs'[b], taken[p := true], Flight(rows[p], vals[p]), b)
    {
      MoveAccount(vals, rows, nb, lims, home, cells, ptrs, taken, hole, f, p, b);
    }
  }

  lemma MoveAccount(vals: seq<nat>, rows: seq<int>, nb: nat, lims: seq<int>, home: seq<nat>, cells: seq<int>,
      ptrs: seq<int>, taken: seq<bool>, hole: int, f: Flight, p: nat, b: nat)
    requires |rows| == |vals| && b < nb && p < |vals| && rows[p] >= 0
    requires Moving(vals, rows, nb, lims, home, cells, ptrs, taken, hole, f) && f.row >= 0
    requires !taken[p] && home[p] == f.bucket && ptrs[f.bucket] == p
    ensures Accounts(vals, rows, lims, cells[p := f.row], ptrs[f.bucket := p + 1][b], taken[p := true],
        Flight(rows[p], vals[p]), b)
  {
    assert Accounts(vals, rows, lims, cells, ptrs[b], taken, f, b);
    Outside(vals, nb, lims, home, ptrs, p, b);
    AccountsAfterMove(vals, rows, lims, cells, cells[p := f.row], ptrs[b], taken, f, b, p);
  }

  lemma FlightHasRoom(vals: seq<nat>, rows: seq<int>, nb: nat, lims: seq<int>, home: seq<nat>, cells: seq<int>,
      ptrs: seq<int>, taken: seq<bool>, hole: int, f: Flight)
    requires |rows| == |vals|
    requires Moving(vals, rows, nb, lims, home, cells, ptrs, taken, hole, f) && f.row >= 0
    ensures 0 <= ptrs[f.bucket] < lims[f.bucket + 1] && ptrs[f.bucket] < |vals|
    ensures cells[ptrs[f.bucket]] == -1 <==> ptrs[f.bucket] == hole
  {
    assert Accounts(vals, rows, lims, cells, ptrs[f.bucket], taken, f, f.bucket);
    RoomForFlight(vals, rows, lims, cells, ptrs[f.bucket], taken, f);
    NextSlot(vals, nb, lims, home, cells, ptrs, taken, hole, f.bucket);
  }

  // -------------------------------------------------------------------------
  // The algorithm
  // -------------------------------------------------------------------------

  lemma {:induction false} RestOfAll(vals: seq<nat>, rows: seq<int>, b: nat, upto: nat)
    requires upto <= |vals| == |rows|
    ensures Rest(vals, rows, None(|vals|), b, upto) <= BucketRows(vals, rows, b)
    decreases |vals| - upto
  {
    if upto < |vals| { RestOfAll(vals, rows, b, upto + 1); }
  }

  /** Before the first move: no cell taken, every bucket's pointer at its start. */
  lemma InitialState(vals: seq<nat>, rows: seq<int>, nb: nat, lims: seq<int>, home: seq<nat>, cells: seq<int>,
      ptrs: seq<int>)
    requires |rows| == |vals| && cells == vals && Homes(vals, nb, lims, home)
    requires forall b :: 0 <= b <= nb ==> lims[b] == Start(vals, b)
    requires |ptrs| == nb && forall b :: 0 <= b < nb ==> ptrs[b] == lims[b]
    ensures Moving(vals, rows, nb, lims, home, cells, ptrs, None(|vals|), -1, Flight(-1, 0))
  {
    hide Shape, Accounts, Rest, BucketRows, Start;
    InitialShape(vals, nb, lims, home, cells, ptrs);
    forall b | 0 <= b < nb
      ensures |BucketRows(vals, rows, b)| == lims[b + 1] - lims[b]
      ensures Accounts(vals, rows, lims, cells, ptrs[b], None(|vals|), Flight(-1, 0), b)
    {
      InitialAccount(vals, rows, nb, lims, home, b);
    }
  }

  lemma InitialShape(vals: seq<nat>, nb: nat, lims: seq<int>, home: seq<nat>, cells: seq<int>, ptrs: seq<int>)
    requires cells == vals && Homes(vals, nb, lims, home)
    requires |ptrs| == nb && forall b :: 0 <= b < nb ==> ptrs[b] == lims[b]
    ensures Shape(vals, nb, lims, home, cells, ptrs, None(|vals|), -1)
  {
    forall p | 0 <= p < |vals| ensures CellOk(vals[p], cells[p], ptrs[home[p]], None(|vals|)[p], -1, p) {
      assert lims[home[p]] <= p;
    }
  }

  lemma InitialAccount(vals: seq<nat>, rows: seq<int>, nb: nat, lims: seq<int>, home: seq<nat>, b: nat)
    requires |rows| == |vals| && b < nb && Homes(vals, nb, lims, home)
    requires lims[b] == Start(vals, b) && lims[b + 1] == Start(vals, b + 1)
    ensures |BucketRows(vals, rows, b)| == lims[b + 1] - lims[b]
    ensures Accounts(vals, rows, lims, vals, lims[b], None(|vals|), Flight(-1, 0), b)
  {
    RestSize(vals, rows, b, |vals|);
    hide Rest, Pick;
    assert lims[0] <= lims[b] <= lims[nb];
    var cells: seq<int> := vals;
    assert cells[lims[b]..lims[b]] == [];
  }

  /** The first cell starts the first cycle: all buckets before its home are empty. */
  lemma FirstCycle(vals: seq<nat>, nb: nat, lims: seq<int>, home: seq<nat>, ptrs: seq<int>)
    requires Homes(vals, nb, lims, home) && |vals| > 0 && nb > 0
    requires |ptrs| == nb && forall b :: 0 <= b < nb ==> ptrs[b] == lims[b]
    ensures CycleCanStart(home, ptrs, None(|vals|), 0)
  {
    assert lims[0] <= lims[home[0]] <= 0;
  }

  ghost function MakeHome(vals: seq<nat>, nb: nat, lims: seq<int>): (home: seq<nat>)
    requires |lims| == nb + 1 && (forall b :: 0 <= b <= nb ==> lims[b] == Start(vals, b)) && |vals| == Start(vals, nb)
    ensures Homes(vals, nb, lims, home)
  {
    forall a, b | 0 <= a <= b <= nb ensures lims[a] <= lims[b] { StartMonotone(vals, a, b); }
    assert lims[0] == Start(vals, 0);
    seq(|vals|, p requires 0 <= p < |vals| => FindHome(lims, nb, p))
  }

  /** A cycle starts at a cell nobody has taken, at its bucket's pointer. */
  ghost predicate CycleCanStart(home: seq<nat>, ptrs: seq<int>, taken: seq<bool>, bucket: nat) {
    && bucket < |ptrs| && 0 <= ptrs[bucket] < |home| == |taken|
    && !taken[ptrs[bucket]] && home[ptrs[bucket]] < |ptrs| && ptrs[home[ptrs[bucket]]] == ptrs[bucket]
  }

  lemma UnfilledBucketCanStart(vals: seq<nat>, rows: seq<int>, nb: nat, lims: seq<int>, home: seq<nat>,
      cells: seq<int>, ptrs: seq<int>, taken: seq<bool>, f: Flight, b: nat)
    requires |rows| == |vals| && b < nb
    requires Moving(vals, rows, nb, lims, home, cells, ptrs, taken, -1, f) && ptrs[b] < lims[b + 1]
    ensures CycleCanStart(home, ptrs, taken, b)
  {
    SlotHome(vals, nb, lims, home, b, ptrs[b]);
    assert CellOk(vals[ptrs[b]], cells[ptrs[b]], ptrs[home[ptrs[b]]], taken[ptrs[b]], -1, ptrs[b]);
  }

  /** The slice of bucket b holds exactly the row numbers of the entries equal to b. */
  ghost predicate Delivered(vals: seq<nat>, rows: seq<int>, lims: seq<int>, cells: seq<int>, b: nat)
    requires |vals| == |rows|
  {
    && b + 1 < |lims| && 0 <= lims[b] <= lims[b + 1] <= |cells|
    && multiset(cells[lims[b]..lims[b + 1]]) == BucketRows(vals, rows, b)
  }

  lemma AllBucketsFull(vals: seq<nat>, rows: seq<int>, nb: nat, lims: seq<int>, home: seq<nat>, cells: seq<int>,
      ptrs: seq<int>, taken: seq<bool>, f: Flight)
    requires |rows| == |vals| && f.row < 0
    requires Moving(vals, rows, nb, lims, home, cells, ptrs, taken, -1, f)
    requires forall b :: 0 <= b < nb ==> ptrs[b] == lims[b + 1]
    ensures forall b :: 0 <= b < nb ==> Delivered(vals, rows, lims, cells, b)
  {
    forall b | 0 <= b < nb ensures Delivered(vals, rows, lims, cells, b) {
      assert Accounts(vals, rows, lims, cells, ptrs[b], taken, f, b);
      FullBucket(vals, rows, lims, cells, taken, f, b);
    }
  }

  /** One turn of the loop. `inRange` is the source's debug assertion `idx < lims[bucket_no + 1]`. */
  method Move(ghost vals: seq<nat>, ncol: nat, nb: nat, ghost home: seq<nat>, ghost taken: seq<bool>, ghost hole: int,
      row: int, bucket: nat, cells: array<int>, ptrs: array<int>, lims: array<int>)
    returns (row': int, bucket': nat, ghost taken': seq<bool>, ghost hole': int, inRange: bool)
    requires ncol > 0 && cells.Length == |vals| && ptrs.Length == nb && lims.Length == nb + 1
    requires cells != ptrs && cells != lims && ptrs != lims
    requires forall i :: 0 <= i < |vals| ==> vals[i] < nb
    requires Moving(vals, Rows(|vals|, ncol), nb, lims[..], home, cells[..], ptrs[..], taken, hole,
        Carried(row, bucket))
    requires bucket < nb && (row < 0 ==> row == hole == -1 && CycleCanStart(home, ptrs[..], taken, bucket))
    modifies cells, ptrs
    ensures Moving(vals, Rows(|vals|, ncol), nb, lims[..], home, cells[..], ptrs[..], taken', hole',
        Carried(row', bucket'))
    ensures bucket' < nb && (row' < 0 ==> row' == hole' == -1) && (row < 0 ==> row' >= 0)
    ensures ptrs[..] == Bumped(old(ptrs[..]), row, bucket)
    ensures row >= 0 ==> old(ptrs[bucket]) < lims[bucket + 1]
    ensures inRange <==> old(ptrs[bucket]) < lims[bucket + 1]
  {
    hide Moving, Rows;
    RowsAt(|vals|, ncol);
    ghost var c0, p0 := cells[..], ptrs[..];
    taken', hole' := OneMove(vals, Rows(|vals|, ncol), nb, lims[..], home, c0, p0, taken, hole, row, bucket);
    var idx := ptrs[bucket];
    if row >= 0 {
      ptrs[bucket] := idx + 1;
    }
    inRange := idx < lims[bucket + 1];
    var nextBucket := cells[idx];
    var from := idx / ncol;
    cells[idx] := row;
    assert cells[..] == c0[idx := row];
    if nextBucket != -1 {
      row', bucket' := from, nextBucket;
    } else {
      row', bucket' := -1, 0;
    }
    assert ptrs[..] == Bumped(p0, row, bucket);
  }

  lemma RowsAt(n: nat, ncol: nat)
    requires ncol > 0
    ensures |Rows(n, ncol)| == n && forall i :: 0 <= i < n ==> Rows(n, ncol)[i] == i / ncol >= 0
  {
  }

  /** The loop variables `row` and `bucket_no`: a row of -1 carries nothing to bucket_no. */
  function Carried(row: int, bucket: nat): Flight {
    if row < 0 then Flight(-1, 0) else Flight(row, bucket)
  }

  function Bumped(ptrs: seq<int>, row: int, bucket: nat): seq<int>
    requires bucket < |ptrs|
  {
    if row >= 0 then ptrs[bucket := ptrs[bucket] + 1] else ptrs
  }

  lemma Sizes(vals: seq<nat>, rows: seq<int>, nb: nat, lims: seq<int>, home: seq<nat>, cells: seq<int>,
      ptrs: seq<int>, taken: seq<bool>, hole: int, f: Flight)
    requires |rows| == |vals| && Moving(vals, rows, nb, lims, home, cells, ptrs, taken, hole, f)
    ensures |ptrs| == nb && |lims| == nb + 1 && |cells| == |taken| == |home| == |vals|
    ensures hole < |vals| && (f.row >= 0 <==> hole >= 0)
    ensures forall b {:trigger ptrs[b]} :: 0 <= b < nb ==> ptrs[b] <= lims[b + 1]
  {
  }

  lemma OneMove(vals: seq<nat>, rows: seq<int>, nb: nat, lims: seq<int>, home: seq<nat>, cells: seq<int>,
      ptrs: seq<int>, taken: seq<bool>, hole: int, row: int, b: nat)
    returns (taken': seq<bool>, hole': int)
    requires |rows| == |vals| && (forall i :: 0 <= i < |vals| ==> rows[i] >= 0 && vals[i] < nb)
    requires Moving(vals, rows, nb, lims, home, cells, ptrs, taken, hole, Carried(row, b)) && b < nb
    requires row < 0 ==> row == hole == -1 && CycleCanStart(home, ptrs, taken, b)
    ensures 0 <= ptrs[b] < |vals| && (row >= 0 ==> ptrs[b] < lims[b + 1])
    ensures var p := ptrs[b];
            && (cells[p] == -1 ==> row >= 0 && hole' == -1)
            && (cells[p] != -1 ==> 0 <= cells[p] < nb)
            && Moving(vals, rows, nb, lims, home, cells[p := row], Bumped(ptrs, row, b), taken', hole',
                      if cells[p] == -1 then Flight(-1, 0) else Flight(rows[p], cells[p]))
  {
    hide Moving;
    var f := Carried(row, b);
    Sizes(vals, rows, nb, lims, home, cells, ptrs, taken, hole, f);
    var p := ptrs[b];
    if row < 0 {
      StartCycle(vals, rows, nb, lims, home, cells, ptrs, taken, f, p);
      taken', hole' := taken[p := true], p;
    } else {
      FlightHasRoom(vals, rows, nb, lims, home, cells, ptrs, taken, hole, f);
      if p == hole {
        CloseCycle(vals, rows, nb, lims, home, cells, ptrs, taken, hole, f);
        taken', hole' := taken, -1;
      } else {
        FollowCycle(vals, rows, nb, lims, home, cells, ptrs, taken, hole, f, p);
        taken', hole' := taken[p := true], hole;
      }
    }
  }

  lemma StartZero(vals: seq<nat>)
    ensures Start(vals, 0) == 0
  {
  }

  /** A write pointer per bucket, at the bucket's start. */
  method WritePointers(ghost vals: seq<nat>, ncol: nat, nb: nat, cells: array<int>, lims: array<int>)
    returns (ptrs: array<int>, ghost home: seq<nat>)
    requires ncol > 0 && cells.Length == |vals| > nb && lims.Length == nb + 1 && cells[..] == vals
    requires forall i :: 0 <= i < |vals| ==> vals[i] < nb
    requires forall b :: 0 <= b <= nb ==> lims[b] == Start(vals, b)
    requires |vals| == Start(vals, nb)
    ensures fresh(ptrs) && ptrs.Length == nb > 0 && ptrs[0] == 0 && lims[1] == Start(vals, 1)
    ensures Moving(vals, Rows(|vals|, ncol), nb, lims[..], home, cells[..], ptrs[..], None(|vals|), -1, Carried(-1, 0))
    ensures CycleCanStart(home, ptrs[..], None(|vals|), 0)
  {
    hide Moving, Homes, CycleCanStart, Start;
    assert vals[0] < nb;
    ghost var L, rows := lims[..], Rows(|vals|, ncol);
    home := MakeHome(vals, nb, L);
    ptrs := new int[nb];
    for i := 0 to nb
      invariant forall b :: 0 <= b < i ==> ptrs[b] == lims[b]
      invariant cells[..] == vals
    {
      ptrs[i] := lims[i];
    }
    InitialState(vals, rows, nb, L, home, cells[..], ptrs[..]);
    FirstCycle(vals, nb, L, home, ptrs[..]);
    assert lims[0] == Start(vals, 0);
    StartZero(vals);
  }

  /** The moves, from the first one to the last. `checks` is the conjunction of the source's debug
      assertion `idx < lims[bucket_no + 1]` over all moves. */
  method FollowCycles(ghost vals: seq<nat>, ncol: nat, nb: nat, cells: array<int>, lims: array<int>)
    returns (checks: bool)
    requires ncol > 0 && cells.Length == |vals| > nb && lims.Length == nb + 1 && cells != lims && cells[..] == vals
    requires forall i :: 0 <= i < |vals| ==> vals[i] < nb
    requires forall b :: 0 <= b <= nb ==> lims[b] == Start(vals, b)
    requires |vals| == Start(vals, nb)
    modifies cells
    ensures forall b :: 0 <= b < nb ==> Delivered(vals, Rows(|vals|, ncol), lims[..], cells[..], b)
    ensures checks <==> Start(vals, 1) > 0
  {
    hide Moving, Left, Start, Rest, BucketRows, Delivered, Shape, Accounts;
    ghost var L, rows := lims[..], Rows(|vals|, ncol);
    var ptrs;
    ghost var home;
    ptrs, home := WritePointers(vals, ncol, nb, cells, lims);
    ghost var taken, hole := None(|vals|), -1;
    var row, initBucket := -1, 0;
    var bucket: nat := 0;
    ghost var started := false;
    checks := true;
    while true
      invariant Moving(vals, rows, nb, L, home, cells[..], ptrs[..], taken, hole, Carried(row, bucket))
      invariant bucket < nb && initBucket <= nb
      invariant row < 0 ==> row == hole == -1 && CycleCanStart(home, ptrs[..], taken, bucket)
      invariant !started ==> row < 0 && bucket == 0 && checks && ptrs[0] == 0
      invariant started ==> (checks <==> Start(vals, 1) > 0) && (row < 0 ==> ptrs[bucket] < lims[bucket + 1])
      invariant forall b :: 0 <= b < initBucket ==> ptrs[b] == lims[b + 1]
      decreases Left(L, ptrs[..], nb), if row < 0 then 1 else 0
    {
      ghost var p0, r0, left := ptrs[..], row, Left(L, ptrs[..], nb);
      Sizes(vals, rows, nb, L, home, cells[..], p0, taken, hole, Carried(row, bucket));
      LeftStep(L, p0, nb, bucket);
      var inRange;
      row, bucket, taken, hole, inRange := Move(vals, ncol, nb, home, taken, hole, row, bucket, cells, ptrs, lims);
      assert Left(L, ptrs[..], nb) == if r0 < 0 then left else left - 1;
      checks := checks && inRange;
      started := true;
      Sizes(vals, rows, nb, L, home, cells[..], ptrs[..], taken, hole, Carried(row, bucket));
      if row < 0 {
        initBucket := NextUnfilled(nb, initBucket, ptrs, lims);
        if initBucket == nb { break; }
        bucket := initBucket;
        UnfilledBucketCanStart(vals, rows, nb, L, home, cells[..], ptrs[..], taken, Flight(-1, 0), bucket);
      }
    }
    AllBucketsFull(vals, rows, nb, L, home, cells[..], ptrs[..], taken, Flight(-1, 0));
  }

  /** First bucket at or after `from` that still has a slot to write. */
  method NextUnfilled(nb: nat, from: nat, ptrs: array<int>, lims: array<int>) returns (b: nat)
    requires from <= nb == ptrs.Length && lims.Length == nb + 1
    ensures from <= b <= nb
    ensures forall c :: from <= c < b ==> ptrs[c] >= lims[c + 1]
    ensures b < nb ==> ptrs[b] < lims[b + 1]
  {
    b := from;
    while b < nb
      invariant from <= b <= nb
      invariant forall c :: from <= c < b ==> ptrs[c] >= lims[c + 1]
    {
      if ptrs[b] < lims[b + 1] { return; }
      b := b + 1;
    }
  }

  /** Bucket sizes of the first i cells: lims[b + 1] counts the cells equal to b. */
  method CountCells(ghost vals: seq<nat>, nb: nat, cells: array<int>, lims: array<int>) returns (ok: bool)
    requires lims.Length == nb + 1 && cells != lims && cells[..] == vals
    modifies lims
    ensures ok <==> forall i :: 0 <= i < |vals| ==> vals[i] < nb
    ensures ok ==> lims[0] == 0 && forall b :: 0 <= b < nb ==> lims[b + 1] == |Bucket(vals, b)|
  {
    for b := 0 to nb + 1
      invariant forall c :: 0 <= c < b ==> lims[c] == 0
    {
      lims[b] := 0;
    }
    for i := 0 to cells.Length
      invariant lims[0] == 0
      invariant forall k :: 0 <= k < i ==> vals[k] < nb
      invariant forall b :: 0 <= b < nb ==> Counted(vals, i, b, lims[..])
    {
      assert cells[i] == vals[i];
      if cells[i] >= nb { return false; }
      ghost var before := lims[..];
      lims[cells[i] + 1] := lims[cells[i] + 1] + 1;
      ghost var next := i + 1;
      forall b | 0 <= b < nb ensures Counted(vals, next, b, lims[..]) {
        PickUpTo(vals, i, b);
        assert Counted(vals, i, b, before);
      }
    }
    forall b | 0 <= b < nb ensures lims[b + 1] == |Bucket(vals, b)| {
      assert Counted(vals, |vals|, b, lims[..]);
    }
    ok := true;
  }

  /** The cells of matrix row r that hold b. */
  ghost function CellsOfRow(vals: seq<nat>, ncol: nat, r: int, b: int, upto: int): set<int> {
    set i | 0 <= i < |vals| && i < upto && vals[i] == b && r * ncol <= i < r * ncol + ncol
  }

  /** Row r is listed for bucket b once for each of its cells that holds b. */
  lemma {:induction false} RestCounts(vals: seq<nat>, ncol: nat, b: nat, upto: nat, r: int)
    requires ncol > 0 && upto <= |vals|
    ensures Rest(vals, Rows(|vals|, ncol), None(|vals|), b, upto)[r] == |CellsOfRow(vals, ncol, r, b, upto)|
  {
    hide Rest, CellsOfRow;
    NoCells(vals, ncol, r, b);
    if upto == 0 {
      RestZero(vals, Rows(|vals|, ncol), None(|vals|), b);
    } else {
      var i := upto - 1;
      RestCounts(vals, ncol, b, i, r);
      RestStep(vals, Rows(|vals|, ncol), None(|vals|), b, i);
      NothingTaken(|vals|, i);
      OneMoreCell(vals, ncol, r, b, i);
    }
  }

  lemma NothingTaken(n: nat, i: nat)
    requires i < n
    ensures |None(n)| == n && !None(n)[i]
  {
  }

  lemma NoCells(vals: seq<nat>, ncol: nat, r: int, b: int)
    ensures CellsOfRow(vals, ncol, r, b, 0) == {}
  {
  }

  lemma OneMoreCell(vals: seq<nat>, ncol: nat, r: int, b: int, i: nat)
    requires ncol > 0 && i < |vals|
    ensures |CellsOfRow(vals, ncol, r, b, i + 1)|
         == |CellsOfRow(vals, ncol, r, b, i)| + if vals[i] == b && i / ncol == r then 1 else 0
  {
    RowOfCell(i, ncol, r);
    var lo := r * ncol;
    var more := if vals[i] == b && lo <= i < lo + ncol then {i} else {};
    assert CellsOfRow(vals, ncol, r, b, i + 1) == CellsOfRow(vals, ncol, r, b, i) + more;
  }

  lemma RowOfCell(i: nat, ncol: nat, r: int)
    requires ncol > 0
    ensures i / ncol == r <==> r * ncol <= i < r * ncol + ncol
  {
    var q := i / ncol;
    assert i == q * ncol + i % ncol;
    if q < r { assert r * ncol == q * ncol + (r - q) * ncol; AtLeastOnce(r - q, ncol); }
    if q > r { assert q * ncol == r * ncol + (q - r) * ncol; AtLeastOnce(q - r, ncol); }
  }

  lemma AtLeastOnce(k: nat, n: nat)
    requires k > 0
    ensures k * n >= n
  {
    assert k * n == (k - 1) * n + n;
  }

  /** Bucket b's slice names each matrix row as often as that row has cells that held b. */
  ghost predicate RowsOfBucket(vals: seq<nat>, ncol: nat, lims: seq<int>, cells: seq<int>, b: nat) {
    && b + 1 < |lims| && 0 <= lims[b] <= lims[b + 1] <= |cells|
    && forall r :: multiset(cells[lims[b]..lims[b + 1]])[r] == |CellsOfRow(vals, ncol, r, b, |vals|)|
  }

  lemma DeliveredMeans(vals: seq<nat>, ncol: nat, lims: seq<int>, cells: seq<int>, b: nat)
    requires ncol > 0 && Delivered(vals, Rows(|vals|, ncol), lims, cells, b)
    ensures RowsOfBucket(vals, ncol, lims, cells, b)
  {
    hide Rest, CellsOfRow;
    forall r ensures multiset(cells[lims[b]..lims[b + 1]])[r] == |CellsOfRow(vals, ncol, r, b, |vals|)| {
      RestCounts(vals, ncol, b, |vals|, r);
    }
  }

  /** MAIN: the sort throws exactly when there are not more cells than buckets or some cell is no
      bucket number, and then leaves the matrix alone. Otherwise it ends, `lims` are the bucket
      limits, each bucket's slice holds exactly the row numbers of the cells equal to it, and the
      debug assertion inside the loop holds throughout exactly when bucket 0 is not empty. */
  method BucketSortInPlaceRef(nrow: nat, ncol: nat, cells: array<int>, nb: nat, lims: array<int>, ghost vals: seq<nat>)
    returns (ok: bool, checks: bool)
    requires cells.Length == nrow * ncol && lims.Length == nb + 1 && cells != lims && cells[..] == vals
    modifies cells, lims
    ensures ok <==> nb < |vals| && forall i :: 0 <= i < |vals| ==> vals[i] < nb
    ensures !ok ==> cells[..] == vals
    ensures ok ==> ncol > 0 && forall b :: 0 <= b <= nb ==> lims[b] == |IndicesBelow(vals, b)|
    ensures ok ==> forall b :: 0 <= b < nb ==> RowsOfBucket(vals, ncol, lims[..], cells[..], b)
    ensures ok ==> (checks <==> 0 in vals)
  {
    if !(nb < cells.Length) { return false, true; }
    ok := CountCells(vals, nb, cells, lims);
    if !ok { return false, true; }
    assert ncol > 0;
    CumulativeSum(vals, nb, lims);
    StartEnd(vals, nb);
    checks := FollowCycles(vals, ncol, nb, cells, lims);
    FirstBucket(vals);
    forall b | 0 <= b <= nb ensures lims[b] == |IndicesBelow(vals, b)| { StartCounts(vals, b); }
    forall b | 0 <= b < nb ensures RowsOfBucket(vals, ncol, lims[..], cells[..], b) {
      DeliveredMeans(vals, ncol, lims[..], cells[..], b);
    }
  }

  lemma FirstBucket(vals: seq<nat>)
    ensures Start(vals, 1) > 0 <==> 0 in vals
  {
    var all := Iota(0, |vals|);
    PickMembers(vals, all, 0);
    var p := Pick(vals, all, 0);
    assert Start(vals, 1) == Start(vals, 0) + |Bucket(vals, 0)| == |p|;
    if |p| > 0 {
      assert p[0] in p;
    }
    if 0 in vals {
      var i :| 0 <= i < |vals| && vals[i] == 0;
      assert all[i] == i;
      assert i in p;
    }
  }
}
