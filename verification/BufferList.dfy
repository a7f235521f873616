/**
 A list of fixed-size buffers that is appended to and copied from as if it were one linear table.
 */
module BufferLists {
  import opened Rows
  import opened Collections
  import opened Bits

  datatype Entry = Entry(id: int, dis: real)

  function Concat(buffers: seq<seq<Entry>>): seq<Entry> {
    if buffers == [] then [] else Concat(buffers[..|buffers| - 1]) + buffers[|buffers| - 1]
  }

  ghost predicate AllOfSize(buffers: seq<seq<Entry>>, size: nat) {
    forall b {:trigger buffers[b]} :: 0 <= b < |buffers| ==> |buffers[b]| == size
  }

  lemma {:induction false} ConcatLength(buffers: seq<seq<Entry>>, size: nat)
    requires AllOfSize(buffers, size)
    ensures |Concat(buffers)| == Row(|buffers|, size)
  {
    if buffers != [] { ConcatLength(buffers[..|buffers| - 1], size); }
  }

  /** Buffer b of the linear table. */
  lemma {:induction false} ConcatBlock(buffers: seq<seq<Entry>>, size: nat, b: nat)
    requires AllOfSize(buffers, size) && b < |buffers|
    ensures Row(b, size) + size <= |Concat(buffers)|
    ensures Concat(buffers)[Row(b, size)..Row(b, size) + size] == buffers[b]
  {
    var n := |buffers| - 1;
    ConcatLength(buffers[..n], size);
    if b < n {
      ConcatBlock(buffers[..n], size, b);
      assert Concat(buffers)[Row(b, size)..Row(b, size) + size] == Concat(buffers[..n])[Row(b, size)..Row(b,
          size) + size];
    }
  }

  /** Entries of two parallel tables. */
  function Zip(ids: seq<int>, dis: seq<real>): (r: seq<Entry>)
    requires |ids| == |dis|
    ensures |r| == |ids| && forall i :: 0 <= i < |r| ==> r[i] == Entry(ids[i], dis[i])
  {
    seq(|ids|, i requires 0 <= i < |ids| => Entry(ids[i], dis[i]))
  }

  class BufferList {
    const bufferSize: nat
    var buffers: seq<seq<Entry>>
    var wp: nat

    ghost predicate Valid()
      reads this
    {
      && 0 < bufferSize && wp <= bufferSize && AllOfSize(buffers, bufferSize)
      && (buffers == [] ==> wp == bufferSize)
    }

    /** Everything added so far, in order. */
    ghost function Contents(): seq<Entry>
      reads this
      requires Valid()
    {
      if buffers == [] then [] else Concat(buffers[..|buffers| - 1]) + buffers[|buffers| - 1][..wp]
    }

    constructor (bufferSize: nat)
      requires bufferSize > 0
      ensures Valid() && Contents() == []
    {
      this.bufferSize := bufferSize;
      buffers := [];
      wp := bufferSize;
    }

    method Add(id: int, dis: real)
      requires Valid()
      modifies this
      ensures Valid() && Contents() == old(Contents()) + [Entry(id, dis)]
    {
      if wp == bufferSize {
        AppendBuffer();
      }
      var last := |buffers| - 1;
      ghost var before := buffers;
      buffers := buffers[last := buffers[last][wp := Entry(id, dis)]];
      wp := wp + 1;
      assert buffers[..last] == before[..last];
      assert buffers[last][..wp] == before[last][..wp - 1] + [Entry(id, dis)];
    }

    method AppendBuffer()
      requires Valid() && wp == bufferSize
      modifies this
      ensures Valid() && wp == 0 && buffers != [] && Contents() == old(Contents())
    {
      ghost var before := buffers;
      buffers := buffers + [seq(bufferSize, _ => Entry(0, 0.0))];
      wp := 0;
      assert buffers[..|buffers| - 1] == before;
      if before != [] {
        assert before[|before| - 1][..bufferSize] == before[|before| - 1];
      }
    }

    /** Copies entries ofs .. ofs + n - 1 of the linear table to the tables from position `at`. */
    method CopyRange(ofs: nat, n: nat, ids: array<int>, dis: array<real>, at: nat)
      requires Valid() && ofs + n <= |Contents()| && ids.Length == dis.Length && at + n <= ids.Length
      modifies ids, dis
      ensures Zip(ids[..], dis[..]) == Patch(old(Zip(ids[..], dis[..])), at, Contents()[ofs..ofs + n])
    {
      hide Contents, Patch, Zip, Row, Valid;
      ghost var was, part := Zip(ids[..], dis[..]), Contents()[ofs..ofs + n];
      var bno: nat, o: nat := Locate(ofs);
      var left: nat, to: nat := n, at;
      PatchNothing(was, at);
      assert part[..0] == [];
      while left > 0
        invariant left <= n && to == at + (n - left)
        invariant left > 0 ==> o < bufferSize && Row(bno, bufferSize) + o == ofs + (n - left)
        invariant Zip(ids[..], dis[..]) == Patch(was, at, part[..n - left])
        decreases left
      {
        var ncopy: nat := if o + left < bufferSize then left else bufferSize - o;
        NextChunk(bno, o, ncopy, ofs, n, n - left);
        CopyOut(bno, o, ncopy, ids, dis, to);
        PatchSlice(was, at, part, n - left, ncopy);
        to := to + ncopy;
        RowNext(bno, bno + 1, bufferSize);
        o := 0;
        bno := bno + 1;
        left := left - ncopy;
      }
      assert part[..n] == part;
    }

    /** The next run of entries lies inside one buffer. */
    lemma NextChunk(bno: nat, o: nat, ncopy: nat, ofs: nat, n: nat, done: nat)
      requires Valid() && ofs + n <= |Contents()| && 0 < ncopy && done + ncopy <= n
      requires o + ncopy <= bufferSize && Row(bno, bufferSize) + o == ofs + done
      ensures bno < |buffers| && |buffers[bno]| == bufferSize
      ensures buffers[bno][o..o + ncopy] == Contents()[ofs..ofs + n][done..done + ncopy]
    {
      hide Contents, AllOfSize, Row;
      LinearTable();
      InBuffer(buffers, bufferSize, wp, bno, o, ncopy, Contents());
      SliceOfSlice(Contents(), ofs, n, done, ncopy);
    }

    lemma LinearTable()
      requires Valid()
      ensures Contents() == if buffers == [] then [] else Concat(buffers[..|buffers| - 1]) + buffers[|buffers| - 1][..wp]
    {
    }

    method Locate(ofs: nat) returns (bno: nat, o: nat)
      requires Valid()
      ensures Row(bno, bufferSize) + o == ofs && o < bufferSize
    {
      bno := Div(ofs, bufferSize);
      Divided(ofs, bufferSize);
      o := ofs - bno * bufferSize;
      RowIsProduct(bno, bufferSize);
    }

    /** The two memcpy calls. */
    method CopyOut(bno: nat, o: nat, ncopy: nat, ids: array<int>, dis: array<real>, to: nat)
      requires bno < |buffers| && o + ncopy <= |buffers[bno]| && ids.Length == dis.Length && to + ncopy <= ids.Length
      modifies ids, dis
      ensures Zip(ids[..], dis[..]) == Patch(old(Zip(ids[..], dis[..])), to, buffers[bno][o..o + ncopy])
    {
      hide Patch, Zip;
      ghost var was, w := Zip(ids[..], dis[..]), buffers[bno][o..o + ncopy];
      PatchNothing(was, to);
      assert w[..0] == [];
      for i := 0 to ncopy
        invariant Zip(ids[..], dis[..]) == Patch(was, to, w[..i])
      {
        PatchOne(was, to, w[..i], w[i]);
        assert w[..i + 1] == w[..i] + [w[i]];
        ZipUpdate(ids[..], dis[..], to + i, w[i]);
        ids[to + i] := buffers[bno][o + i].id;
        dis[to + i] := buffers[bno][o + i].dis;
      }
      assert w[..ncopy] == w;
    }
  }

  lemma Divided(x: nat, d: nat)
    requires d > 0
    ensures Div(x, d) * d <= x < Div(x, d) * d + d
  {
    assert x / d * d + x % d == x;
  }

  lemma SliceOfSlice(all: seq<Entry>, ofs: nat, n: nat, k: nat, m: nat)
    requires ofs + n <= |all| && k + m <= n
    ensures all[ofs..ofs + n][k..k + m] == all[ofs + k..ofs + k + m]
  {
    var u, w := all[ofs..ofs + n], all[ofs + k..ofs + k + m];
    forall i | 0 <= i < m ensures u[k..k + m][i] == w[i] {
      assert u[k + i] == all[ofs + k + i];
    }
  }

  lemma ZipUpdate(ids: seq<int>, dis: seq<real>, i: nat, x: Entry)
    requires |ids| == |dis| && i < |ids|
    ensures Zip(ids[i := x.id], dis[i := x.dis]) == Zip(ids, dis)[i := x]
  {
  }

  lemma PatchSlice(s: seq<Entry>, at: nat, w: seq<Entry>, k: nat, more: nat)
    requires at + |w| <= |s| && k + more <= |w|
    ensures Patch(Patch(s, at, w[..k]), at + k, w[k..k + more]) == Patch(s, at, w[..k + more])
  {
    PatchMore(s, at, w[..k], w[k..k + more]);
    assert w[..k + more] == w[..k] + w[k..k + more];
  }

  /** A run of entries inside one buffer is a slice of the linear table. */
  lemma InBuffer(buffers: seq<seq<Entry>>, size: nat, wp: nat, b: nat, o: nat, n: nat, all: seq<Entry>)
    requires 0 < size && wp <= size && AllOfSize(buffers, size)
    requires all == if buffers == [] then [] else Concat(buffers[..|buffers| - 1]) + buffers[|buffers| - 1][..wp]
    requires o + n <= size && 0 < n && Row(b, size) + o + n <= |all|
    ensures b < |buffers| && |buffers[b]| == size && buffers[b][o..o + n] == all[Row(b, size) + o..Row(b, size) + o + n]
  {
    hide Row, Concat;
    assert buffers != [];
    var last := |buffers| - 1;
    ConcatLength(buffers[..last], size);
    RowNext(last, last + 1, size);
    if b > last { RowsAscend(last + 1, b, size); }
    if b == last {
      assert all[Row(b, size) + o..Row(b, size) + o + n] == buffers[last][o..o + n];
    } else {
      ConcatBlock(buffers[..last], size, b);
      SliceOfSlice(all, Row(b, size), size, o, n);
      PrefixSlice(Concat(buffers[..last]), Concat(buffers[..last]) + buffers[last][..wp], Row(b, size),
          Row(b, size) + size);
    }
  }
}
