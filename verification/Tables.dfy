/**
 Scalar tables of one collection.

 A SQLite table with an INTEGER PRIMARY KEY is a B-tree ordered by that key, so a table
 is modelled as the sequence of its rows in ascending row_id order: `ORDER BY row_id` reads
 the sequence, `COUNT(*)` is its length and `MAX(row_id)` is its last key.
 */
module Tables {

  datatype Option<+T> = None | Some(value: T) {
    function GetOr(default: T): T {
      if Some? then value else default
    }
  }

  /** Bit patterns of float32 components; the server only stores, copies and measures them. */
  type Vector = seq<int>

  /** `payload` stands for text_content, metadata and the two timestamps. */
  datatype Row = Row(rowId: int, docId: string, vector: Vector, payload: string)

  type Table = seq<Row>

  ghost predicate Ascending(t: Table) {
    forall i, j :: 0 <= i < j < |t| ==> t[i].rowId < t[j].rowId
  }

  /** Row ids are exactly 0..|t|-1, so the row with label i is t[i]. */
  ghost predicate Labelled(t: Table) {
    forall i :: 0 <= i < |t| ==> t[i].rowId == i
  }

  ghost predicate DistinctDocs(t: Table) {
    forall i, j :: 0 <= i < j < |t| ==> t[i].docId != t[j].docId
  }

  ghost predicate AllDims(t: Table, dim: nat) {
    forall i :: 0 <= i < |t| ==> |t[i].vector| == dim
  }

  function NextRowId(t: Table): int {
    if t == [] then 0 else t[|t| - 1].rowId + 1
  }

  function Place(t: Table, r: Row): Table {
    if t == [] then [r]
    else if r.rowId < t[0].rowId then [r] + t
    else [t[0]] + Place(t[1..], r)
  }

  predicate Clash(x: Row, y: Row) {
    x.rowId == y.rowId || x.docId == y.docId
  }

  /** One INSERT under PRIMARY KEY(row_id) and UNIQUE(doc_id); None is the IntegrityError. */
  function InsertOne(t: Table, r: Row): Option<Table> {
    if exists x :: x in t && Clash(x, r) then None
    else Some(Place(t, r))
  }

  /** executemany in one transaction: all rows or none. */
  function InsertAll(t: Table, rows: seq<Row>): Option<Table>
    decreases |rows|
  {
    if rows == [] then Some(t)
    else
      var one := InsertOne(t, rows[0]);
      if one.None? then None else InsertAll(one.value, rows[1..])
  }

  lemma {:induction false} PlaceKeepsRows(t: Table, r: Row)
    ensures multiset(Place(t, r)) == multiset(t) + multiset{r}
    ensures |Place(t, r)| == |t| + 1
    ensures forall x :: x in Place(t, r) <==> x in t || x == r
  {
    if t == [] || r.rowId < t[0].rowId {
    } else {
      PlaceKeepsRows(t[1..], r);
      assert t == [t[0]] + t[1..];
    }
  }

  lemma {:induction false} PlaceAscending(t: Table, r: Row)
    requires Ascending(t)
    requires forall x :: x in t ==> x.rowId != r.rowId
    ensures Ascending(Place(t, r))
  {
    if t == [] || r.rowId < t[0].rowId {
    } else {
      PlaceAscending(t[1..], r);
      PlaceKeepsRows(t[1..], r);
      var rest := Place(t[1..], r);
      forall j | 0 <= j < |rest| ensures t[0].rowId < rest[j].rowId {
        assert rest[j] in rest;
      }
    }
  }

  lemma DistinctDocsByRows(t: Table, r: Row)
    requires DistinctDocs(t) && Ascending(t) && Ascending(Place(t, r))
    requires forall x :: x in t ==> x.docId != r.docId
    ensures DistinctDocs(Place(t, r))
  {
    PlaceKeepsRows(t, r);
    var p := Place(t, r);
    forall i, j | 0 <= i < j < |p| ensures p[i].docId != p[j].docId {
      assert p[i] in p && p[j] in p;
      assert p[i].rowId != p[j].rowId;
    }
  }

  /** A row whose key exceeds every stored key goes to the end. */
  lemma {:induction false} PlaceLast(t: Table, r: Row)
    requires forall i :: 0 <= i < |t| ==> t[i].rowId < r.rowId
    ensures Place(t, r) == t + [r]
  {
    if t != [] {
      PlaceLast(t[1..], r);
      assert t == [t[0]] + t[1..];
    }
  }

  /** What a successful batch keeps and what the table then holds. */
  lemma {:induction false} InsertAllSound(t: Table, rows: seq<Row>)
    requires Ascending(t) && DistinctDocs(t)
    requires InsertAll(t, rows).Some?
    ensures var u := InsertAll(t, rows).value;
            && Ascending(u) && DistinctDocs(u)
            && multiset(u) == multiset(t) + multiset(rows)
            && |u| == |t| + |rows|
    decreases |rows|
  {
    if rows != [] {
      var t' := InsertOne(t, rows[0]).value;
      PlaceKeepsRows(t, rows[0]);
      PlaceAscending(t, rows[0]);
      DistinctDocsByRows(t, rows[0]);
      InsertAllSound(t', rows[1..]);
      assert rows == [rows[0]] + rows[1..];
    }
  }

  ghost predicate NoClash(t: Table, rows: seq<Row>) {
    && (forall x, j :: x in t && 0 <= j < |rows| ==> !Clash(x, rows[j]))
    && (forall i, j :: 0 <= i < j < |rows| ==> !Clash(rows[i], rows[j]))
  }

  lemma NoClashTail(t: Table, r: Row, rest: seq<Row>)
    ensures NoClash(t, [r] + rest) <==> (forall x :: x in t ==> !Clash(x, r)) && NoClash(Place(t, r), rest)
  {
    PlaceKeepsRows(t, r);
    var rows := [r] + rest;
    assert rows[0] == r && forall j :: 0 <= j < |rest| ==> rows[j + 1] == rest[j];
    if (forall x :: x in t ==> !Clash(x, r)) && NoClash(Place(t, r), rest) {
      forall i, j | 0 <= i < j < |rows| ensures !Clash(rows[i], rows[j]) {
        if i == 0 { assert rows[0] in Place(t, r); }
      }
    }
    if NoClash(t, rows) {
      forall i, j | 0 <= i < j < |rest| ensures !Clash(rest[i], rest[j]) {
        assert !Clash(rows[i + 1], rows[j + 1]);
      }
      forall x, j | x in Place(t, r) && 0 <= j < |rest| ensures !Clash(x, rest[j]) {
        assert !Clash(rows[0], rows[j + 1]);
        if x in t { assert !Clash(x, rows[j + 1]); }
      }
    }
  }

  /** A batch goes in exactly when no key or document id is repeated in it or in the table. */
  lemma {:induction false} InsertAllSucceeds(t: Table, rows: seq<Row>)
    ensures InsertAll(t, rows).Some? <==> NoClash(t, rows)
    decreases |rows|
  {
    if rows != [] {
      assert rows == [rows[0]] + rows[1..];
      NoClashTail(t, rows[0], rows[1..]);
      if InsertOne(t, rows[0]).Some? {
        InsertAllSucceeds(Place(t, rows[0]), rows[1..]);
      }
    }
  }

  /** Strictly ascending keys drawn from 0..n-1, n of them, are 0..n-1 in order. */
  lemma AscendingInRangeIsLabelled(t: Table)
    requires Ascending(t)
    requires forall i :: 0 <= i < |t| ==> 0 <= t[i].rowId < |t|
    ensures Labelled(t)
  {
    forall i | 0 <= i < |t| ensures t[i].rowId == i {
      AtLeast(t, i);
      AtMost(t, i);
    }
  }

  lemma {:induction false} AtLeast(t: Table, i: nat)
    requires Ascending(t) && i < |t|
    requires forall i :: 0 <= i < |t| ==> 0 <= t[i].rowId < |t|
    ensures i <= t[i].rowId
  {
    if i > 0 { AtLeast(t, i - 1); }
  }

  lemma {:induction false} AtMost(t: Table, i: nat)
    requires Ascending(t) && i < |t|
    requires forall i :: 0 <= i < |t| ==> 0 <= t[i].rowId < |t|
    ensures t[i].rowId <= i
    decreases |t| - i
  {
    if i + 1 < |t| { AtMost(t, i + 1); }
  }

  /** Rows numbered from next_row_id on extend a labelled table in place, as insert does. */
  lemma {:induction false} AppendLabelled(t: Table, rows: seq<Row>)
    requires Labelled(t)
    requires forall j :: 0 <= j < |rows| ==> rows[j].rowId == |t| + j
    requires InsertAll(t, rows).Some?
    ensures InsertAll(t, rows).value == t + rows
    decreases |rows|
  {
    if rows == [] {
    } else {
      PlaceLast(t, rows[0]);
      AppendLabelled(t + [rows[0]], rows[1..]);
      assert t + [rows[0]] + rows[1..] == t + rows;
    }
  }

  /** Loading a table's own rows, in the order it lists them, rebuilds the table. */
  lemma ReloadIsIdentity(t: Table)
    requires Labelled(t) && DistinctDocs(t)
    ensures InsertAll([], t) == Some(t)
  {
    InsertAllSucceeds([], t);
    AppendLabelled([], t);
    assert [] + t == t;
  }

  /** Python's str() of an int. */
  function Str(n: int): string {
    if n < 0 then "-" + Decimal(-n) else Decimal(n)
  }

  function Decimal(n: nat): string {
    if n < 10 then [Digit(n)] else Decimal(n / 10) + [Digit(n % 10)]
  }

  function Digit(d: nat): char
    requires d < 10
  {
    "0123456789"[d]
  }

  /** Python's int() of a string of digits. */
  function Read(s: string): int {
    if s == "" then 0 else 10 * Read(s[..|s| - 1]) + (s[|s| - 1] as int - '0' as int)
  }

  /** s is n in decimal digits without leading zeros. */
  predicate IsDecimal(s: string, n: int) {
    && s != "" && Read(s) == n
    && (forall i :: 0 <= i < |s| ==> '0' <= s[i] <= '9')
    && (|s| > 1 ==> s[0] != '0')
  }

  lemma {:induction false} DecimalReadsBack(n: nat)
    ensures IsDecimal(Decimal(n), n) && (n > 0 ==> Decimal(n)[0] != '0')
  {
    if n < 10 {
      OneDigit(n);
    } else {
      DecimalReadsBack(n / 10);
      OneDigit(n % 10);
      var s := Decimal(n);
      assert s[..|s| - 1] == Decimal(n / 10) && s[|s| - 1] == Digit(n % 10);
    }
  }

  lemma OneDigit(d: nat)
    requires d < 10
    ensures '0' <= Digit(d) <= '9' && Digit(d) as int - '0' as int == d
    ensures Read([Digit(d)]) == d
  {
    assert [Digit(d)][..0] == "";
  }

  /** The id a row without one gets: its row id, written so that it reads back. */
  lemma StrReadsBack(n: nat)
    ensures IsDecimal(Str(n), n)
  {
    DecimalReadsBack(n);
  }
}
