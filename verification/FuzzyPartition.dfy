/**
 Fuzzy partition of uint16 values by bisection on the threshold: between q_min and q_max of the best
 values, with their ids, end up in front. CMax keeps the lowest values, CMin the highest. Vector
 instructions are taken by their meaning lane by lane.
 */
module FuzzyPartition {
  import opened Collections

  datatype Pair = Pair(v: int, id: int)

  /** C::cmp(thresh, v): v is strictly on the side that is kept. */
  predicate Better(isMax: bool, thresh: int, v: int) {
    if isMax then thresh > v else thresh < v
  }

  function Less(vals: seq<int>, t: int): nat {
    if vals == [] then 0 else Less(vals[..|vals| - 1], t) + if vals[|vals| - 1] < t then 1 else 0
  }

  /** How many values are strictly better than the threshold. */
  function NLt(isMax: bool, vals: seq<int>, t: int): int {
    if isMax then Less(vals, t) else |vals| - Less(vals, t + 1)
  }

  function NEq(vals: seq<int>, t: int): int {
    Less(vals, t + 1) - Less(vals, t)
  }

  lemma {:induction false} LessBounds(vals: seq<int>, t: int, u: int)
    requires t <= u
    ensures 0 <= Less(vals, t) <= Less(vals, u) <= |vals|
  {
    if vals != [] { LessBounds(vals[..|vals| - 1], t, u); }
  }

  lemma {:induction false} LessExtremes(vals: seq<int>, lo: int, hi: int)
    requires forall i :: 0 <= i < |vals| ==> lo <= vals[i] <= hi
    ensures Less(vals, lo) == 0 && Less(vals, hi + 1) == |vals|
  {
    if vals != [] { LessExtremes(vals[..|vals| - 1], lo, hi); }
  }

  // -------------------------------------------------------------------------
  // Counting
  // -------------------------------------------------------------------------

  /** The positions of values below t. */
  ghost function Under(vals: seq<int>, t: int): set<int> {
    set i | 0 <= i < |vals| && vals[i] < t
  }

  lemma {:induction false} LessCounts(vals: seq<int>, t: int)
    ensures Less(vals, t) == |Under(vals, t)|
  {
    if vals != [] {
      var n := |vals| - 1;
      LessCounts(vals[..n], t);
      var more := if vals[n] < t then {n} else {};
      assert Under(vals, t) == Under(vals[..n], t) + more;
    } else {
      assert Under(vals, t) == {};
    }
  }

  ghost function PositionsBetter(isMax: bool, vals: seq<int>, t: int): set<int> {
    set i | 0 <= i < |vals| && if isMax then vals[i] < t else vals[i] > t
  }

  ghost function PositionsEqual(vals: seq<int>, t: int): set<int> {
    set i | 0 <= i < |vals| && vals[i] == t
  }

  /** What the two counts count. */
  lemma CountsMean(isMax: bool, vals: seq<int>, t: int)
    ensures NLt(isMax, vals, t) == |PositionsBetter(isMax, vals, t)| && NEq(vals, t) == |PositionsEqual(vals, t)|
  {
    hide Less;
    LessCounts(vals, t);
    LessCounts(vals, t + 1);
    assert Under(vals, t + 1) == Under(vals, t) + PositionsEqual(vals, t);
    if isMax {
      assert PositionsBetter(isMax, vals, t) == Under(vals, t);
    } else {
      var all := Under(vals, t + 1) + PositionsBetter(isMax, vals, t);
      assert all == Upto(|vals|);
    }
  }

  method CountLtAndEq(isMax: bool, vals: array<int>, thresh: int) returns (nLt: int, nEq: int)
    ensures nLt == |PositionsBetter(isMax, vals[..], thresh)| && nEq == |PositionsEqual(vals[..], thresh)|
    ensures nLt == NLt(isMax, vals[..], thresh) && nEq == NEq(vals[..], thresh)
  {
    CountsMean(isMax, vals[..], thresh);
    nLt, nEq := 0, 0;
    for i := 0 to vals.Length
      invariant nLt == NLt(isMax, vals[..i], thresh) && nEq == NEq(vals[..i], thresh)
    {
      assert vals[..i + 1][..i] == vals[..i];
      var v := vals[i];
      if Better(isMax, thresh, v) {
        nLt := nLt + 1;
      } else if v == thresh {
        nEq := nEq + 1;
      }
    }
    assert vals[..vals.Length] == vals[..];
  }

  /** x is the least and y the greatest of the entries of v, or the start values if there are none. */
  ghost predicate Extremes(v: seq<int>, x: int, y: int) {
    if v == [] then x == 0xffff && y == 0
    else x in v && y in v && forall j :: 0 <= j < |v| ==> x <= v[j] <= y
  }

  function Min(a: int, b: int): int { if b < a then b else a }
  function Max(a: int, b: int): int { if b > a then b else a }

  lemma ExtremesAppend(v: seq<int>, x: int, y: int, a: int)
    requires Extremes(v, x, y) && 0 <= a <= 0xffff
    ensures Extremes(v + [a], Min(x, a), Max(y, a))
  {
  }

  /** Entries of lane l among the first `blocks` blocks of 16. */
  function Lane(v: seq<int>, l: nat, blocks: nat): seq<int>
    requires l < 16 && 16 * blocks <= |v|
  {
    if blocks == 0 then [] else Lane(v, l, blocks - 1) + [v[16 * (blocks - 1) + l]]
  }

  /** Sixteen running minima and maxima. */
  method AccumulateLanes(vals: seq<int>) returns (vmin: seq<int>, vmax: seq<int>, blocks: nat)
    requires forall i :: 0 <= i < |vals| ==> 0 <= vals[i] <= 0xffff
    ensures |vmin| == |vmax| == 16 && 16 * blocks <= |vals| < 16 * blocks + 16
    ensures forall l :: 0 <= l < 16 ==> Extremes(Lane(vals, l, blocks), vmin[l], vmax[l])
  {
    vmin, vmax, blocks := seq(16, _ => 0xffff), seq(16, _ => 0), 0;
    hide Min, Max;
    while 16 * blocks + 15 < |vals|
      invariant |vmin| == |vmax| == 16 && 16 * blocks <= |vals|
      invariant forall l :: 0 <= l < 16 ==> Extremes(Lane(vals, l, blocks), vmin[l], vmax[l])
    {
      var block := vals[16 * blocks..16 * blocks + 16];
      BlockJoins(vals, blocks, vmin, vmax, block);
      vmin, vmax, blocks := Least(vmin, block), Greatest(vmax, block), blocks + 1;
    }
  }

  function Least(a: seq<int>, b: seq<int>): (r: seq<int>)
    requires |a| == |b|
    ensures |r| == |a| && forall l :: 0 <= l < |r| ==> r[l] == Min(a[l], b[l])
  {
    seq(|a|, l requires 0 <= l < |a| => Min(a[l], b[l]))
  }

  function Greatest(a: seq<int>, b: seq<int>): (r: seq<int>)
    requires |a| == |b|
    ensures |r| == |a| && forall l :: 0 <= l < |r| ==> r[l] == Max(a[l], b[l])
  {
    seq(|a|, l requires 0 <= l < |a| => Max(a[l], b[l]))
  }

  lemma BlockJoins(vals: seq<int>, blocks: nat, vmin: seq<int>, vmax: seq<int>, block: seq<int>)
    requires |vmin| == |vmax| == 16 && 16 * blocks + 16 <= |vals| && block == vals[16 * blocks..16 * blocks + 16]
    requires forall i :: 0 <= i < |vals| ==> 0 <= vals[i] <= 0xffff
    requires forall l :: 0 <= l < 16 ==> Extremes(Lane(vals, l, blocks), vmin[l], vmax[l])
    ensures forall l ::
        0 <= l < 16 ==> Extremes(Lane(vals, l, blocks + 1), Least(vmin, block)[l], Greatest(vmax, block)[l])
  {
    hide Extremes;
    forall l | 0 <= l < 16 ensures Extremes(Lane(vals, l, blocks + 1), Least(vmin, block)[l],
        Greatest(vmax, block)[l]) {
      ExtremesAppend(Lane(vals, l, blocks), vmin[l], vmax[l], vals[16 * blocks + l]);
    }
  }

  /** All lanes together. */
  method JoinLanes(vals: seq<int>, vmin: seq<int>, vmax: seq<int>, blocks: nat) returns (smin: int, smax: int)
    requires |vmin| == |vmax| == 16 && 16 * blocks <= |vals|
    requires forall l :: 0 <= l < 16 ==> Extremes(Lane(vals, l, blocks), vmin[l], vmax[l])
    ensures Extremes(vals[..16 * blocks], smin, smax)
  {
    hide Extremes;
    smin, smax := vmin[0], vmax[0];
    for l := 1 to 16
      invariant (exists m :: 0 <= m < 16 && smin == vmin[m]) && (exists m :: 0 <= m < 16 && smax == vmax[m])
      invariant forall m :: 0 <= m < l ==> smin <= vmin[m] && vmax[m] <= smax
    {
      smin, smax := Min(smin, vmin[l]), Max(smax, vmax[l]);
    }
    LanesJoined(vals, vmin, vmax, blocks, smin, smax);
  }

  lemma LanesJoined(vals: seq<int>, vmin: seq<int>, vmax: seq<int>, blocks: nat, smin: int, smax: int)
    requires |vmin| == |vmax| == 16 && 16 * blocks <= |vals|
    requires forall l :: 0 <= l < 16 ==> Extremes(Lane(vals, l, blocks), vmin[l], vmax[l])
    requires (exists m :: 0 <= m < 16 && smin == vmin[m]) && (exists m :: 0 <= m < 16 && smax == vmax[m])
    requires forall m :: 0 <= m < 16 ==> smin <= vmin[m] && vmax[m] <= smax
    ensures Extremes(vals[..16 * blocks], smin, smax)
  {
    var a :| 0 <= a < 16 && smin == vmin[a];
    var b :| 0 <= b < 16 && smax == vmax[b];
    if blocks == 0 {
      assert Lane(vals, a, 0) == [] && Lane(vals, b, 0) == [];
    } else {
      LaneMember(vals, a, blocks, smin);
      LaneMember(vals, b, blocks, smax);
      forall j | 0 <= j < 16 * blocks ensures smin <= vals[j] <= smax {
        var l := j % 16;
        InLane(vals, j, blocks);
        assert Extremes(Lane(vals, l, blocks), vmin[l], vmax[l]);
      }
    }
  }

  lemma {:induction false} LaneAt(v: seq<int>, l: nat, blocks: nat, k: nat)
    requires l < 16 && 16 * blocks <= |v|
    ensures |Lane(v, l, blocks)| == blocks
    ensures k < blocks ==> Lane(v, l, blocks)[k] == v[16 * k + l]
  {
    if blocks > 0 { LaneAt(v, l, blocks - 1, k); }
  }

  lemma LaneMember(v: seq<int>, l: nat, blocks: nat, x: int)
    requires l < 16 && 16 * blocks <= |v| && blocks > 0
    ensures Lane(v, l, blocks) != []
    ensures x in Lane(v, l, blocks) ==> x in v[..16 * blocks]
  {
    LaneAt(v, l, blocks, 0);
    if x in Lane(v, l, blocks) {
      var k :| 0 <= k < |Lane(v, l, blocks)| && Lane(v, l, blocks)[k] == x;
      LaneAt(v, l, blocks, k);
      assert v[..16 * blocks][16 * k + l] == x;
    }
  }

  lemma {:induction false} InLane(v: seq<int>, j: nat, blocks: nat)
    requires 16 * blocks <= |v| && j < 16 * blocks
    ensures v[j] in Lane(v, j % 16, blocks)
  {
    if j < 16 * (blocks - 1) {
      InLane(v, j, blocks - 1);
    } else {
      assert j == 16 * (blocks - 1) + j % 16;
    }
  }

  /** Blocks of 16 lanes, then the lanes, then the values left over. */
  method FindMinimax(vals: array<int>) returns (smin: int, smax: int)
    requires forall i :: 0 <= i < vals.Length ==> 0 <= vals[i] <= 0xffff
    ensures Extremes(vals[..], smin, smax)
  {
    var vmin, vmax, blocks := AccumulateLanes(vals[..]);
    smin, smax := JoinLanes(vals[..], vmin, vmax, blocks);
    for i := 16 * blocks to vals.Length
      invariant Extremes(vals[..i], smin, smax)
    {
      ExtremesAppend(vals[..i], smin, smax, vals[i]);
      assert vals[..i + 1] == vals[..i] + [vals[i]];
      smin, smax := Min(smin, vals[i]), Max(smax, vals[i]);
    }
    assert vals[..vals.Length] == vals[..];
  }

  // -------------------------------------------------------------------------
  // Bisection
  // -------------------------------------------------------------------------

  /** Between s0 and s1 lies a threshold that splits off enough values, but not too many. */
  ghost predicate Bracket(isMax: bool, vals: seq<int>, s0: int, s1: int, qMin: nat, qMax: nat) {
    && 0 <= s0 < s1 <= 0x1_0000 && 0 < qMin <= qMax
    && if isMax then Less(vals, s0) < qMin && Less(vals, s1) > qMax
       else |vals| - Less(vals, s0) > qMax && |vals| - Less(vals, s1) < qMin
  }

  function Halved(rounds: nat): int {
    if rounds == 0 then 0x1_0000 else Halved(rounds - 1) / 2
  }

  lemma {:induction false} HalvedIsExact(rounds: nat)
    requires rounds <= 16
    ensures Halved(rounds) >= 1 && (rounds < 16 ==> Halved(rounds) == 2 * Halved(rounds + 1))
    ensures Halved(16) == 1
  {
    assert Halved(1) == 0x8000 && Halved(2) == 0x4000 && Halved(3) == 0x2000 && Halved(4) == 0x1000;
    assert Halved(5) == 0x800 && Halved(6) == 0x400 && Halved(7) == 0x200 && Halved(8) == 0x100;
    assert Halved(9) == 0x80 && Halved(10) == 0x40 && Halved(11) == 0x20 && Halved(12) == 0x10;
    assert Halved(13) == 8 && Halved(14) == 4 && Halved(15) == 2 && Halved(16) == 1;
  }

  /** A threshold and a number of kept values the bisection may stop at. */
  ghost predicate Found(isMax: bool, vals: seq<int>, t: int, q: int, qMin: nat, qMax: nat) {
    qMin <= q <= qMax && 0 <= t <= 0xffff && NLt(isMax, vals, t) <= q <= NLt(isMax, vals, t) + NEq(vals, t)
  }

  /** At most 17 rounds, whatever the values. */
  method Bisect(isMax: bool, vals: array<int>, s0i: int, s1i: int, qMin: nat, qMax: nat)
    returns (thresh: int, q: int, nLt: int, nEq: int, rounds: nat)
    requires Bracket(isMax, vals[..], s0i, s1i + 1, qMin, qMax)
    ensures Found(isMax, vals[..], thresh, q, qMin, qMax) && rounds <= 17 && s0i <= thresh <= s1i
    ensures nLt == NLt(isMax, vals[..], thresh) && nEq == NEq(vals[..], thresh)
  {
    hide Halved, Less;
    ghost var v := vals[..];
    var s0, s1 := s0i, s1i + 1;
    rounds, q, thresh, nLt, nEq := 0, 0, 0, 0, 0;
    HalvedIsExact(0);
    assert Halved(0) == 0x1_0000 by { FullWidth(); }
    while rounds < 200
      invariant s0i <= s0 && s1 <= s1i + 1
      invariant rounds <= 16 && Bracket(isMax, v, s0, s1, qMin, qMax) && s1 - s0 <= Halved(rounds)
      decreases 200 - rounds
    {
      HalvedIsExact(rounds);
      thresh := (s0 + s1) / 2;
      nLt, nEq := CountLtAndEq(isMax, vals, thresh);
      LessBounds(v, thresh, thresh + 1);
      rounds := rounds + 1;
      if nLt <= qMin {
        if nLt + nEq >= qMin {
          q := qMin;
          return;
        } else {
          if isMax { s0 := thresh; } else { s1 := thresh; }
        }
      } else if nLt <= qMax {
        q := nLt;
        return;
      } else {
        if isMax { s1 := thresh; } else { s0 := thresh; }
      }
    }
  }

  lemma FullWidth()
    ensures Halved(0) == 0x1_0000
  {
  }

  // -------------------------------------------------------------------------
  // Compression
  // -------------------------------------------------------------------------

  function Pairs(v: seq<int>, ids: seq<int>): (r: seq<Pair>)
    requires |v| == |ids|
    ensures |r| == |v| && forall i :: 0 <= i < |r| ==> r[i] == Pair(v[i], ids[i])
  {
    seq(|v|, i requires 0 <= i < |v| => Pair(v[i], ids[i]))
  }

  /** What is kept and what is dropped of a list of pairs, and the equal values still wanted. */
  datatype Sifted = Sifted(kept: seq<Pair>, dropped: seq<Pair>, nEq: int)

  function Sift(isMax: bool, p: seq<Pair>, t: int, nEq: int): Sifted {
    if p == [] then Sifted([], [], nEq)
    else
      var s, x := Sift(isMax, p[..|p| - 1], t, nEq), p[|p| - 1];
      if Better(isMax, t, x.v) then s.(kept := s.kept + [x])
      else if s.nEq > 0 && x.v == t then s.(kept := s.kept + [x], nEq := s.nEq - 1)
      else s.(dropped := s.dropped + [x])
  }

  lemma {:induction false} SiftLosesNothing(isMax: bool, p: seq<Pair>, t: int, nEq: int)
    ensures var s := Sift(isMax, p, t, nEq); multiset(s.kept) + multiset(s.dropped) == multiset(p)
  {
    if p != [] {
      hide Sift;
      var front, x := p[..|p| - 1], p[|p| - 1];
      SiftLosesNothing(isMax, front, t, nEq);
      SiftStep(isMax, p, t, nEq);
      var s := Sift(isMax, front, t, nEq);
      OneMore(s.kept, x);
      OneMore(s.dropped, x);
      OneMore(front, x);
      assert front + [x] == p;
    }
  }

  lemma SiftStep(isMax: bool, p: seq<Pair>, t: int, nEq: int)
    requires p != []
    ensures var s, s', x := Sift(isMax, p[..|p| - 1], t, nEq), Sift(isMax, p, t, nEq), p[|p| - 1];
            || (s'.kept == s.kept + [x] && s'.dropped == s.dropped)
            || (s'.kept == s.kept && s'.dropped == s.dropped + [x])
  {
  }

  lemma OneMore(s: seq<Pair>, x: Pair)
    ensures multiset(s + [x]) == multiset(s) + multiset{x}
  {
  }

  ghost predicate Separated(isMax: bool, t: int, kept: seq<Pair>, dropped: seq<Pair>) {
    && (forall i :: 0 <= i < |kept| ==> kept[i].v == t || Better(isMax, t, kept[i].v))
    && (forall i :: 0 <= i < |dropped| ==> !Better(isMax, t, dropped[i].v))
  }

  lemma {:induction false} SiftSeparates(isMax: bool, p: seq<Pair>, t: int, nEq: int)
    ensures var s := Sift(isMax, p, t, nEq); Separated(isMax, t, s.kept, s.dropped)
  {
    if p != [] {
      var s, x := Sift(isMax, p[..|p| - 1], t, nEq), p[|p| - 1];
      SiftSeparates(isMax, p[..|p| - 1], t, nEq);
      if x.v == t || Better(isMax, t, x.v) { assert Separated(isMax, t, s.kept + [x], s.dropped); }
      if !Better(isMax, t, x.v) { assert Separated(isMax, t, s.kept, s.dropped + [x]); }
    }
  }

  lemma {:induction false} SiftSize(isMax: bool, v: seq<int>, ids: seq<int>, t: int, nEq: nat)
    requires |v| == |ids|
    ensures var s := Sift(isMax, Pairs(v, ids), t, nEq);
            && s.nEq == (if NEq(v, t) < nEq then nEq - NEq(v, t) else 0)
            && |s.kept| == NLt(isMax, v, t) + nEq - s.nEq
  {
    if v != [] {
      var n := |v| - 1;
      SiftSize(isMax, v[..n], ids[..n], t, nEq);
      assert Pairs(v, ids)[..n] == Pairs(v[..n], ids[..n]);
      LessBounds(v[..n], t, t + 1);
    }
  }

  /** The first i pairs were sifted in place: wp of them are kept, the rest of the arrays is untouched. */
  ghost predicate InPlace(isMax: bool, p: seq<Pair>, t: int, n0: int, now: seq<Pair>, i: nat, wp: int, nEq: int) {
    && i <= |p| == |now| && p[i..] == now[i..]
    && var s := Sift(isMax, p[..i], t, n0);
       wp == |s.kept| <= i && now[..wp] == s.kept && nEq == s.nEq
  }

  lemma InPlaceStep(isMax: bool, p: seq<Pair>, t: int, n0: int, now: seq<Pair>, i: nat, wp: int, nEq: int)
    requires InPlace(isMax, p, t, n0, now, i, wp, nEq) && i < |p|
    ensures now[i] == p[i] && 0 <= wp < |p|
    ensures var x := now[i];
            if Better(isMax, t, x.v) then InPlace(isMax, p, t, n0, now[wp := x], i + 1, wp + 1, nEq)
            else if nEq > 0 && x.v == t then InPlace(isMax, p, t, n0, now[wp := x], i + 1, wp + 1, nEq - 1)
            else InPlace(isMax, p, t, n0, now, i + 1, wp, nEq)
  {
    assert p[i..][0] == now[i..][0];
    assert p[..i + 1][..i] == p[..i];
    assert p[i + 1..] == p[i..][1..] == now[i..][1..] == now[i + 1..];
    assert now[wp := now[i]][..wp + 1] == now[..wp] + [now[i]];
    assert now[wp := now[i]][i + 1..] == now[i + 1..];
  }

  /** `kept` are the best of `all`, each still with its own id; the threshold lies between them and the rest. */
  ghost predicate KeepsBest(isMax: bool, all: seq<Pair>, kept: seq<Pair>, t: int) {
    exists dropped: seq<Pair> ::
      multiset(kept) + multiset(dropped) == multiset(all) && Separated(isMax, t, kept, dropped)
  }

  /** Handles entry i; `strict` when only strictly better values are looked for. */
  method SiftOne(isMax: bool, vals: array<int>, ids: array<int>, i: nat, wp: nat, thresh: int, nEq: int, strict: bool,
      ghost p: seq<Pair>, ghost n0: int)
    returns (wp': nat, nEq': int)
    requires vals != ids && vals.Length == ids.Length && i < vals.Length && (strict ==> nEq <= 0)
    requires InPlace(isMax, p, thresh, n0, Pairs(vals[..], ids[..]), i, wp, nEq)
    modifies vals, ids
    ensures InPlace(isMax, p, thresh, n0, Pairs(vals[..], ids[..]), i + 1, wp', nEq')
    ensures nEq' <= nEq && (nEq >= 0 ==> nEq' >= 0)
  {
    ghost var now := Pairs(vals[..], ids[..]);
    InPlaceStep(isMax, p, thresh, n0, now, i, wp, nEq);
    wp', nEq' := wp, nEq;
    if Better(isMax, thresh, vals[i]) {
      vals[wp] := vals[i];
      ids[wp] := ids[i];
      wp' := wp + 1;
    } else if !strict && nEq > 0 && vals[i] == thresh {
      vals[wp] := vals[i];
      ids[wp] := ids[i];
      wp' := wp + 1;
      nEq' := nEq - 1;
    }
    assert wp' == wp ==> Pairs(vals[..], ids[..]) == now;
    assert wp' == wp + 1 ==> Pairs(vals[..], ids[..]) == now[wp := now[i]];
  }

  /** Blocks of 16 while equal values are wanted, blocks of 16 for the strictly better ones only, then
      the values left over. */
  method CompressArray(isMax: bool, vals: array<int>, ids: array<int>, thresh: int, n0: nat) returns (wp: nat, nEq: int)
    requires vals != ids && vals.Length == ids.Length
    modifies vals, ids
    ensures var s := Sift(isMax, old(Pairs(vals[..], ids[..])), thresh, n0);
            && wp == |s.kept| <= vals.Length && Pairs(vals[..wp], ids[..wp]) == s.kept && nEq == s.nEq
  {
    hide Sift, InPlace, Pairs, Better;
    ghost var p := Pairs(vals[..], ids[..]);
    var n := vals.Length;
    NothingSifted(isMax, p, thresh, n0);
    var i0;
    i0, wp, nEq := SiftBlocks(isMax, vals, ids, 0, 0, thresh, n0, false, p, n0);
    i0, wp, nEq := SiftBlocks(isMax, vals, ids, i0, wp, thresh, nEq, true, p, n0);
    LastBlock(n, i0);
    for i := n - n % 16 to n
      invariant nEq >= 0 && InPlace(isMax, p, thresh, n0, Pairs(vals[..], ids[..]), i, wp, nEq)
    {
      wp, nEq := SiftOne(isMax, vals, ids, i, wp, thresh, nEq, false, p, n0);
    }
    AllSifted(isMax, p, thresh, n0, vals[..], ids[..], wp, nEq);
    assert vals[..][..wp] == vals[..wp] && ids[..][..wp] == ids[..wp];
  }

  /** One of the two loops over whole blocks: until no equal value is wanted, or, `strict`, to the end. */
  method SiftBlocks(isMax: bool, vals: array<int>, ids: array<int>, from: nat, wp0: nat, thresh: int, nEq0: int,
      strict: bool, ghost p: seq<Pair>, ghost n0: int)
    returns (i0: nat, wp: nat, nEq: int)
    requires vals != ids && vals.Length == ids.Length && from <= vals.Length && from % 16 == 0 && nEq0 >= 0
    requires strict && from + 15 < vals.Length ==> nEq0 == 0
    requires InPlace(isMax, p, thresh, n0, Pairs(vals[..], ids[..]), from, wp0, nEq0)
    modifies vals, ids
    ensures from <= i0 <= vals.Length && i0 % 16 == 0 && nEq >= 0
    ensures i0 + 15 < vals.Length ==> !strict && nEq == 0
    ensures InPlace(isMax, p, thresh, n0, Pairs(vals[..], ids[..]), i0, wp, nEq)
  {
    hide InPlace, Pairs;
    i0, wp, nEq := from, wp0, nEq0;
    while i0 + 15 < vals.Length && (strict || nEq > 0)
      invariant from <= i0 <= vals.Length && i0 % 16 == 0 && nEq >= 0
      invariant strict && i0 + 15 < vals.Length ==> nEq == 0
      invariant InPlace(isMax, p, thresh, n0, Pairs(vals[..], ids[..]), i0, wp, nEq)
    {
      for j := 0 to 16
        invariant nEq >= 0 && (strict ==> nEq == 0)
        invariant InPlace(isMax, p, thresh, n0, Pairs(vals[..], ids[..]), i0 + j, wp, nEq)
      {
        wp, nEq := SiftOne(isMax, vals, ids, i0 + j, wp, thresh, nEq, strict, p, n0);
      }
      i0 := i0 + 16;
    }
  }

  lemma LastBlock(n: nat, i0: nat)
    requires i0 % 16 == 0 && i0 <= n <= i0 + 15
    ensures i0 == n - n % 16
  {
  }

  lemma AllSifted(isMax: bool, p: seq<Pair>, t: int, n0: int, v: seq<int>, ids: seq<int>, wp: int, nEq: int)
    requires |v| == |ids| == |p| && InPlace(isMax, p, t, n0, Pairs(v, ids), |p|, wp, nEq)
    ensures var s := Sift(isMax, p, t, n0);
            0 <= wp == |s.kept| <= |v| && Pairs(v[..wp], ids[..wp]) == s.kept && nEq == s.nEq
  {
    assert p[..|p|] == p;
    assert Pairs(v, ids)[..wp] == Pairs(v[..wp], ids[..wp]);
  }

  lemma NothingSifted(isMax: bool, p: seq<Pair>, t: int, nEq: int)
    ensures InPlace(isMax, p, t, nEq, p, 0, 0, nEq)
  {
  }

  // -------------------------------------------------------------------------
  // The partition
  // -------------------------------------------------------------------------

  /** MAIN: with 1 <= q_min <= q_max < n the threshold is found within 17 of the 200 rounds allowed, the
      repair of a negative count is never needed, and the first qOut entries are that many of the best
      pairs, qOut between q_min and q_max. Otherwise the arrays stay as they are: qOut is 0 for
      q_min == 0 and, even beyond n, q_max for q_max >= n. */
  method SimdPartitionFuzzyWithBounds(isMax: bool, vals: array<int>, ids: array<int>, qMin: nat, qMax: nat, s0i: int,
      s1i: int)
    returns (thresh: int, qOut: int, rounds: nat)
    requires vals != ids && vals.Length == ids.Length && qMin <= qMax
    requires 0 <= s0i && s1i <= 0xffff && forall i :: 0 <= i < vals.Length ==> s0i <= vals[i] <= s1i
    modifies vals, ids
    ensures rounds <= 17
    ensures qMin == 0 || qMax >= vals.Length ==> vals[..] == old(vals[..]) && ids[..] == old(ids[..])
    ensures qMin == 0 ==> thresh == 0 && qOut == 0
    ensures qMin > 0 && qMax >= vals.Length ==> thresh == 0xffff && qOut == qMax
    ensures 0 < qMin && qMax < vals.Length ==>
              && qMin <= qOut <= qMax && s0i <= thresh <= s1i
              && KeepsBest(isMax, old(Pairs(vals[..], ids[..])), Pairs(vals[..qOut], ids[..qOut]), thresh)
  {
    hide KeepsBest, Pairs;
    rounds := 0;
    if qMin == 0 { return 0, 0, 0; }
    if qMax >= vals.Length { return 0xffff, qMax, 0; }
    if s0i == s1i {
      AllEqual(isMax, vals[..], ids[..], s0i, qMin);
      assert vals[..][..qMin] == vals[..qMin] && ids[..][..qMin] == ids[..qMin];
      return s0i, qMin, 0;
    }
    thresh, qOut, rounds := BisectAndCompress(isMax, vals, ids, qMin, qMax, s0i, s1i);
  }

  method BisectAndCompress(isMax: bool, vals: array<int>, ids: array<int>, qMin: nat, qMax: nat, s0i: int, s1i: int)
    returns (thresh: int, q: int, rounds: nat)
    requires vals != ids && vals.Length == ids.Length && 0 < qMin <= qMax < vals.Length
    requires 0 <= s0i && s1i <= 0xffff && forall i :: 0 <= i < vals.Length ==> s0i <= vals[i] <= s1i
    modifies vals, ids
    ensures rounds <= 17 && qMin <= q <= qMax && s0i <= thresh <= s1i
    ensures KeepsBest(isMax, old(Pairs(vals[..], ids[..])), Pairs(vals[..q], ids[..q]), thresh)
  {
    hide KeepsBest, Sift, Found, NLt, NEq, Pairs;
    BoundsBracket(isMax, vals[..], s0i, s1i, qMin, qMax);
    var nLt, nEq;
    thresh, q, nLt, nEq, rounds := Bisect(isMax, vals, s0i, s1i, qMin, qMax);
    SiftedEnough(isMax, vals[..], ids[..], thresh, q, qMin, qMax);
    var nEq1 := q - nLt;
    if nEq1 < 0 {
      assert false;
    } else {
      assert nEq1 <= nEq;
    }
    var wp, left := CompressArray(isMax, vals, ids, thresh, nEq1);
    assert wp == q && left == 0;
  }

  lemma BoundsBracket(isMax: bool, v: seq<int>, s0i: int, s1i: int, qMin: nat, qMax: nat)
    requires 0 < qMin <= qMax < |v| && 0 <= s0i && s1i <= 0xffff && forall i :: 0 <= i < |v| ==> s0i <= v[i] <= s1i
    ensures Bracket(isMax, v, s0i, s1i + 1, qMin, qMax)
  {
    assert s0i <= v[0] <= s1i;
    LessExtremes(v, s0i, s1i);
  }

  lemma SiftedEnough(isMax: bool, v: seq<int>, ids: seq<int>, t: int, q: int, qMin: nat, qMax: nat)
    requires |v| == |ids| && Found(isMax, v, t, q, qMin, qMax)
    ensures 0 <= q - NLt(isMax, v, t) <= NEq(v, t) && qMin <= q <= qMax
    ensures var s := Sift(isMax, Pairs(v, ids), t, q - NLt(isMax, v, t));
            |s.kept| == q && s.nEq == 0 && KeepsBest(isMax, Pairs(v, ids), s.kept, t)
  {
    hide Sift;
    var nEq1, p := q - NLt(isMax, v, t), Pairs(v, ids);
    SiftSize(isMax, v, ids, t, nEq1);
    SiftSeparates(isMax, p, t, nEq1);
    SiftLosesNothing(isMax, p, t, nEq1);
  }

  lemma AllEqual(isMax: bool, v: seq<int>, ids: seq<int>, t: int, q: nat)
    requires |v| == |ids| && q <= |v| && forall i :: 0 <= i < |v| ==> v[i] == t
    ensures KeepsBest(isMax, Pairs(v, ids), Pairs(v[..q], ids[..q]), t)
  {
    var p, dropped := Pairs(v, ids), Pairs(v[q..], ids[q..]);
    assert p == Pairs(v[..q], ids[..q]) + dropped;
    assert Separated(isMax, t, Pairs(v[..q], ids[..q]), dropped);
  }

  /** The bounds are computed first, so nothing is assumed of them. */
  method SimdPartitionFuzzy(isMax: bool, vals: array<int>, ids: array<int>, qMin: nat, qMax: nat)
    returns (thresh: int, qOut: int, rounds: nat)
    requires vals != ids && vals.Length == ids.Length && qMin <= qMax
    requires forall i :: 0 <= i < vals.Length ==> 0 <= vals[i] <= 0xffff
    modifies vals, ids
    ensures rounds <= 17
    ensures qMin == 0 || qMax >= vals.Length ==> vals[..] == old(vals[..]) && ids[..] == old(ids[..])
    ensures qMin == 0 ==> qOut == 0
    ensures qMin > 0 && qMax >= vals.Length ==> qOut == qMax
    ensures 0 < qMin && qMax < vals.Length ==>
              && qMin <= qOut <= qMax
              && KeepsBest(isMax, old(Pairs(vals[..], ids[..])), Pairs(vals[..qOut], ids[..qOut]), thresh)
  {
    var s0i, s1i := FindMinimax(vals);
    ExtremesBound(vals[..], s0i, s1i);
    thresh, qOut, rounds := SimdPartitionFuzzyWithBounds(isMax, vals, ids, qMin, qMax, s0i, s1i);
  }

  lemma ExtremesBound(v: seq<int>, x: int, y: int)
    requires Extremes(v, x, y) && forall i :: 0 <= i < |v| ==> 0 <= v[i] <= 0xffff
    ensures 0 <= x <= 0xffff && 0 <= y <= 0xffff && forall i :: 0 <= i < |v| ==> x <= v[i] <= y
  {
  }

  /** What keeping the best means: no pair left out is strictly better than a kept one. */
  lemma KeptAreBest(isMax: bool, all: seq<Pair>, kept: seq<Pair>, t: int, i: nat, y: Pair)
    requires KeepsBest(isMax, all, kept, t) && i < |kept| && y in multiset(all) - multiset(kept)
    ensures if isMax then kept[i].v <= y.v else kept[i].v >= y.v
  {
    var dropped: seq<Pair> :| multiset(kept) + multiset(dropped) == multiset(all) && Separated(isMax, t, kept, dropped);
    assert multiset(all) - multiset(kept) == multiset(dropped);
    assert y in dropped;
  }
}
