/** The selections of one apply request: what makes them acceptable, and the order they are taken in. */
module Selections {
  import opened Batching
  import opened Numbering
  import opened GuidedMarking
  import opened MarkerScan
  import opened MarkerReader

  const MAX_SELECTIONS: nat := 500

  datatype Selection = Selection(block: nat, start: int, end: int, field: string)

  // A selection and its index in the request.
  datatype Entry = Entry(index: nat, selection: Selection)

  // A cell holds consecutive paragraphs, a row consecutive cells.
  datatype Cell = Cell(first: nat, count: nat)

  datatype Row = Row(table: nat, cells: seq<Cell>)

  datatype Rejection =
    | TooMany
    | FieldUnknown(index: nat)
    | BlockNotFound(index: nat)
    | Empty(index: nat)
    | OutOfRange(index: nat)
    | RowFieldOutsideTable(index: nat)
    | RowsInSeveralRows(index: nat)
    | RowsInSeveralTables(index: nat)
    | SelectionsOverlap(first: nat, second: nat)
    | OverlapsMarker(index: nat)

  // ---------- sorting by start ----------

  predicate Before(a: Entry, b: Entry, down: bool) {
    if down then a.selection.start >= b.selection.start else a.selection.start <= b.selection.start
  }

  function Insert(e: Entry, sorted: seq<Entry>, down: bool): seq<Entry> {
    if sorted == [] || Before(e, sorted[0], down) then [e] + sorted
    else [sorted[0]] + Insert(e, sorted[1..], down)
  }

  // A stable sort, up or down.
  function Sort(entries: seq<Entry>, down: bool): seq<Entry> {
    if entries == [] then [] else Insert(entries[0], Sort(entries[1..], down), down)
  }

  predicate Sorted(entries: seq<Entry>, down: bool) {
    forall i, k :: 0 <= i < k < |entries| ==> Before(entries[i], entries[k], down)
  }

  lemma {:induction false} InsertKeepsAll(e: Entry, sorted: seq<Entry>, down: bool)
    ensures multiset(Insert(e, sorted, down)) == multiset(sorted) + multiset{e}
  {
    if !(sorted == [] || Before(e, sorted[0], down)) {
      InsertKeepsAll(e, sorted[1..], down);
      assert sorted == [sorted[0]] + sorted[1..];
    }
  }

  lemma FromSorted(e: Entry, sorted: seq<Entry>, down: bool)
    requires Sorted(sorted, down) && forall i :: 0 <= i < |sorted| ==> Before(e, sorted[i], down)
    ensures Sorted([e] + sorted, down)
  {
  }

  lemma TailSorted(sorted: seq<Entry>, down: bool)
    requires Sorted(sorted, down) && sorted != []
    ensures Sorted(sorted[1..], down) && forall e :: e in sorted[1..] ==> Before(sorted[0], e, down)
  {
  }

  lemma InsertFurther(e: Entry, sorted: seq<Entry>, down: bool)
    requires sorted != [] && !Before(e, sorted[0], down)
    ensures Insert(e, sorted, down) == [sorted[0]] + Insert(e, sorted[1..], down)
  {
  }

  lemma InsertFirst(e: Entry, sorted: seq<Entry>, down: bool)
    requires Sorted(sorted, down) && (sorted == [] || Before(e, sorted[0], down))
    ensures Insert(e, sorted, down) == [e] + sorted
    ensures forall i :: 0 <= i < |sorted| ==> Before(e, sorted[i], down)
  {
  }

  lemma {:induction false} InsertSorts(e: Entry, sorted: seq<Entry>, down: bool)
    requires Sorted(sorted, down)
    ensures Sorted(Insert(e, sorted, down), down)
  {
    hide Sorted, Insert;
    if sorted == [] || Before(e, sorted[0], down) {
      InsertFirst(e, sorted, down);
      FromSorted(e, sorted, down);
    } else {
      TailSorted(sorted, down);
      InsertSorts(e, sorted[1..], down);
      InsertKeepsAll(e, sorted[1..], down);
      var rest := Insert(e, sorted[1..], down);
      forall k | 0 <= k < |rest|
        ensures Before(sorted[0], rest[k], down)
      {
        assert rest[k] in multiset(rest);
        assert rest[k] == e || rest[k] in sorted[1..];
      }
      FromSorted(sorted[0], rest, down);
      InsertFurther(e, sorted, down);
    }
  }

  lemma {:induction false} SortSorts(entries: seq<Entry>, down: bool)
    ensures Sorted(Sort(entries, down), down)
    ensures multiset(Sort(entries, down)) == multiset(entries)
  {
    if entries != [] {
      SortSorts(entries[1..], down);
      InsertSorts(entries[0], Sort(entries[1..], down), down);
      InsertKeepsAll(entries[0], Sort(entries[1..], down), down);
      assert entries == [entries[0]] + entries[1..];
    }
  }

  // ---------- neighbours tell it all ----------

  predicate Overlap(a: Selection, b: Selection) {
    a.start < b.end && b.start < a.end
  }

  predicate NeighboursApart(entries: seq<Entry>) {
    forall i :: 0 <= i < |entries| - 1 ==> !Overlap(entries[i].selection, entries[i + 1].selection)
  }

  predicate AllApart(entries: seq<Entry>) {
    forall i, k :: 0 <= i < k < |entries| ==> !Overlap(entries[i].selection, entries[k].selection)
  }

  predicate Nonempty(entries: seq<Entry>) {
    forall i :: 0 <= i < |entries| ==> entries[i].selection.start < entries[i].selection.end
  }

  lemma {:induction false} NeighboursFollow(entries: seq<Entry>, i: nat, k: nat)
    requires i < k < |entries| && Sorted(entries, false) && Nonempty(entries) && NeighboursApart(entries)
    ensures entries[i].selection.end <= entries[k].selection.start
    decreases k
  {
    assert !Overlap(entries[k - 1].selection, entries[k].selection);
    assert Before(entries[k - 1], entries[k], false);
    if i < k - 1 {
      NeighboursFollow(entries, i, k - 1);
    }
  }

  // Once sorted, checking neighbours finds an overlap if and only if there is one anywhere.
  lemma NeighboursAreEnough(entries: seq<Entry>)
    requires Nonempty(entries)
    ensures NeighboursApart(Sort(entries, false)) <==> AllApart(entries)
  {
    var sorted := Sort(entries, false);
    SortSorts(entries, false);
    SameApart(entries, sorted);
    SameNonempty(entries, sorted);
    if NeighboursApart(sorted) {
      forall i, k | 0 <= i < k < |sorted|
        ensures !Overlap(sorted[i].selection, sorted[k].selection)
      {
        NeighboursFollow(sorted, i, k);
      }
    }
  }

  lemma SameNonempty(a: seq<Entry>, b: seq<Entry>)
    requires multiset(a) == multiset(b) && Nonempty(a)
    ensures Nonempty(b)
  {
    forall i | 0 <= i < |b|
      ensures b[i].selection.start < b[i].selection.end
    {
      assert b[i] in multiset(a);
    }
  }

  // Apartness does not depend on the order.
  lemma SameApart(a: seq<Entry>, b: seq<Entry>)
    requires multiset(a) == multiset(b) && Nonempty(a)
    ensures AllApart(a) <==> AllApart(b)
  {
    SameNonempty(a, b);
    if AllApart(a) {
      ApartEitherWay(a, b);
    }
    if AllApart(b) {
      ApartEitherWay(b, a);
    }
  }

  // A nonempty range overlaps itself, so an apart list holds every entry once.
  lemma ApartEitherWay(a: seq<Entry>, b: seq<Entry>)
    requires multiset(a) == multiset(b) && Nonempty(a) && AllApart(a)
    ensures AllApart(b)
  {
    forall i, k | 0 <= i < k < |b|
      ensures !Overlap(b[i].selection, b[k].selection)
    {
      assert b[i] in multiset(a) && b[k] in multiset(a);
      var x :| 0 <= x < |a| && a[x] == b[i];
      var y :| 0 <= y < |a| && a[y] == b[k];
      if x == y {
        TwiceIn(b, i, k);
        assert multiset(a)[a[x]] >= 2;
        OnceIn(a, x);
        assert false;
      }
    }
  }

  lemma TwiceIn(b: seq<Entry>, i: nat, k: nat)
    requires i < k < |b| && b[i] == b[k]
    ensures multiset(b)[b[i]] >= 2
  {
    assert b == b[..i] + [b[i]] + b[i + 1..k] + [b[k]] + b[k + 1..];
  }

  lemma {:induction false} OnceIn(a: seq<Entry>, x: nat)
    requires x < |a| && Nonempty(a) && AllApart(a)
    ensures multiset(a)[a[x]] == 1
  {
    assert a == a[..x] + [a[x]] + a[x + 1..];
    assert a[x] !in a[..x] && a[x] !in a[x + 1..] by {
      forall y | 0 <= y < |a| && y != x
        ensures a[y] != a[x]
      {
        assert if y < x then !Overlap(a[y].selection, a[x].selection) else !Overlap(a[x].selection, a[y].selection);
      }
    }
  }

  // ---------- the selections of one block ----------

  // Among the first n selections, those of one block, with their indexes.
  function EntriesOf(selections: seq<Selection>, block: nat, n: nat): seq<Entry>
    requires n <= |selections|
  {
    if n == 0 then []
    else
      EntriesOf(selections, block, n - 1)
      + if selections[n - 1].block == block then [Entry(n - 1, selections[n - 1])] else []
  }

  lemma {:induction false} EntriesAre(selections: seq<Selection>, block: nat, n: nat)
    requires n <= |selections|
    ensures forall e :: e in EntriesOf(selections, block, n)
                   <==> e.index < n && e.selection == selections[e.index] && e.selection.block == block
  {
    if n > 0 {
      EntriesAre(selections, block, n - 1);
    }
  }

  predicate EachOnce(entries: seq<Entry>) {
    forall e :: e in multiset(entries) ==> multiset(entries)[e] == 1
  }

  lemma {:induction false} EntriesAppearOnce(selections: seq<Selection>, block: nat, n: nat)
    requires n <= |selections|
    ensures EachOnce(EntriesOf(selections, block, n))
  {
    if n > 0 {
      EntriesAppearOnce(selections, block, n - 1);
      EntriesAre(selections, block, n - 1);
    }
  }

  // ---------- the first look at each selection ----------

  predicate InRow(row: Row, block: nat) {
    exists c :: 0 <= c < |row.cells| && row.cells[c].first <= block < row.cells[c].first + row.cells[c].count
  }

  function RowOf(rows: seq<Row>, block: nat): (r: Option<nat>)
    ensures r.Some? ==> r.value < |rows| && InRow(rows[r.value], block)
    ensures r.None? ==> forall i :: 0 <= i < |rows| ==> !InRow(rows[i], block)
  {
    RowFrom(rows, block, 0)
  }

  function RowFrom(rows: seq<Row>, block: nat, i: nat): (r: Option<nat>)
    requires i <= |rows|
    ensures r.Some? ==> i <= r.value < |rows| && InRow(rows[r.value], block)
    ensures r.None? ==> forall k :: i <= k < |rows| ==> !InRow(rows[k], block)
    decreases |rows| - i
  {
    if i == |rows| then None
    else if InRow(rows[i], block) then Some(i)
    else RowFrom(rows, block, i + 1)
  }

  // The row of the first row field among the first n selections.
  function FirstRow(selections: seq<Selection>, n: nat, rows: seq<Row>, catalog: Catalog): (r: Option<nat>)
    requires n <= |selections|
    ensures r.Some? ==> r.value < |rows|
  {
    if n == 0 then None
    else
      var earlier := FirstRow(selections, n - 1, rows, catalog);
      if earlier.Some? then earlier
      else if KindOf(selections[n - 1].field, catalog) == Some(RowField) then RowOf(rows, selections[n - 1].block)
      else None
  }

  // Why selection i is refused, after all before it passed.
  function RejectionOf(selections: seq<Selection>, i: nat, texts: seq<string>, rows: seq<Row>, catalog: Catalog): Option<Rejection>
    requires i < |selections|
  {
    var s := selections[i];
    var kind := KindOf(s.field, catalog);
    if kind.None? then Some(FieldUnknown(i))
    else if s.block >= |texts| then Some(BlockNotFound(i))
    else if s.start >= s.end then Some(Empty(i))
    else if s.start < 0 || s.end > |texts[s.block]| then Some(OutOfRange(i))
    else if kind != Some(RowField) then None
    else
      var row := RowOf(rows, s.block);
      var first := FirstRow(selections, i, rows, catalog);
      if row.None? then Some(RowFieldOutsideTable(i))
      else if first.None? || first == row then None
      else if rows[first.value].table == rows[row.value].table then Some(RowsInSeveralRows(i))
      else Some(RowsInSeveralTables(i))
  }

  predicate AllPass(selections: seq<Selection>, texts: seq<string>, rows: seq<Row>, catalog: Catalog) {
    forall i :: 0 <= i < |selections| ==> RejectionOf(selections, i, texts, rows, catalog).None?
  }

  // Every row field of an accepted request is in one row.
  lemma {:induction false} RowFieldsShareTheRow(selections: seq<Selection>, n: nat, i: nat, texts: seq<string>, rows: seq<Row>, catalog: Catalog)
    requires i < n <= |selections| && AllPass(selections, texts, rows, catalog)
    requires KindOf(selections[i].field, catalog) == Some(RowField)
    ensures FirstRow(selections, n, rows, catalog).Some?
    ensures RowOf(rows, selections[i].block) == FirstRow(selections, n, rows, catalog)
  {
    hide RowOf;
    assert RejectionOf(selections, i, texts, rows, catalog).None?;
    if n > i + 1 {
      RowFieldsShareTheRow(selections, n - 1, i, texts, rows, catalog);
    }
  }

  // ---------- what is accepted ----------

  predicate Touches(s: Selection, start: int, end: int) {
    start < s.end && s.start < end
  }

  ghost predicate BlockAccepted(selections: seq<Selection>, block: nat, texts: seq<string>)
    requires block < |texts|
  {
    var entries := EntriesOf(selections, block, |selections|);
    && AllApart(entries)
    && forall e, t :: e in entries && t in Tags(texts[block]) ==> !Touches(e.selection, t.start, t.end)
  }

  // A request is accepted when every selection passes, no two overlap and none touches a marker.
  ghost predicate Accepted(selections: seq<Selection>, texts: seq<string>, rows: seq<Row>, catalog: Catalog) {
    && |selections| <= MAX_SELECTIONS
    && AllPass(selections, texts, rows, catalog)
    && forall b :: 0 <= b < |texts| ==> BlockAccepted(selections, b, texts)
  }

  // What a refusal says is so.
  ghost predicate Justified(error: Rejection, selections: seq<Selection>, texts: seq<string>, rows: seq<Row>, catalog: Catalog) {
    match error
    case TooMany => |selections| > MAX_SELECTIONS
    case SelectionsOverlap(i, k) =>
      && i < |selections| && k < |selections| && i != k
      && selections[i].block == selections[k].block && Overlap(selections[i], selections[k])
      && AllPass(selections, texts, rows, catalog)
    case OverlapsMarker(i) =>
      && AllPass(selections, texts, rows, catalog)
      && i < |selections| && selections[i].block < |texts|
      && exists t :: t in Tags(texts[selections[i].block]) && Touches(selections[i], t.start, t.end)
    case _ =>
      exists i :: && 0 <= i < |selections| && RejectionOf(selections, i, texts, rows, catalog) == Some(error)
                  && forall j :: 0 <= j < i ==> RejectionOf(selections, j, texts, rows, catalog).None?
  }

  // ---------- the marks of one block ----------

  predicate InRange(entries: seq<Entry>, length: nat) {
    forall i :: 0 <= i < |entries| ==> 0 <= entries[i].selection.start < entries[i].selection.end <= length
  }

  function MarkOf(s: Selection, catalog: Catalog): Mark
    requires 0 <= s.start < s.end
  {
    Mark(s.start, s.end, MarkerFor(s.field, catalog), s.field)
  }

  // A selection of the table loop itself writes nothing.
  function MarksOf(entries: seq<Entry>, length: nat, catalog: Catalog): seq<Mark>
    requires InRange(entries, length)
  {
    if entries == [] then []
    else
      (if MarkerFor(entries[0].selection.field, catalog) == "" then [] else [MarkOf(entries[0].selection, catalog)])
      + MarksOf(entries[1..], length, catalog)
  }

  lemma {:induction false} MarksAre(entries: seq<Entry>, length: nat, catalog: Catalog)
    requires InRange(entries, length)
    ensures forall m :: m in MarksOf(entries, length, catalog)
                   <==> exists i :: 0 <= i < |entries| && m == MarkOf(entries[i].selection, catalog) && m.text != ""
  {
    hide MarkerFor;
    if entries != [] {
      MarksAre(entries[1..], length, catalog);
      forall m | exists i :: 0 <= i < |entries| && m == MarkOf(entries[i].selection, catalog) && m.text != ""
        ensures m in MarksOf(entries, length, catalog)
      {
        var i :| 0 <= i < |entries| && m == MarkOf(entries[i].selection, catalog) && m.text != "";
        if i > 0 {
          assert entries[1..][i - 1] == entries[i];
        }
      }
    }
  }

  lemma {:induction false} MarksInOrder(entries: seq<Entry>, from: nat, length: nat, catalog: Catalog)
    requires InRange(entries, length) && from <= length
    requires forall i :: 0 <= i < |entries| ==> from <= entries[i].selection.start
    requires forall i, k :: 0 <= i < k < |entries| ==> entries[i].selection.end <= entries[k].selection.start
    ensures InOrder(MarksOf(entries, length, catalog), from, length)
  {
    hide MarkerFor;
    if entries != [] {
      var rest := MarksOf(entries[1..], length, catalog);
      if MarkerFor(entries[0].selection.field, catalog) == "" {
        MarksInOrder(entries[1..], from, length, catalog);
        assert MarksOf(entries, length, catalog) == rest;
      } else {
        var m := MarkOf(entries[0].selection, catalog);
        MarksInOrder(entries[1..], m.end, length, catalog);
        assert MarksOf(entries, length, catalog) == [m] + rest;
        assert ([m] + rest)[1..] == rest;
      }
    }
  }

  lemma {:induction false} MarksDescend(entries: seq<Entry>, length: nat, catalog: Catalog)
    requires InRange(entries, length) && Sorted(entries, true) && AllApart(entries)
    ensures Descending(MarksOf(entries, length, catalog)) && Disjoint(MarksOf(entries, length, catalog))
  {
    hide MarkerFor, Descending, Disjoint, MarksOf;
    if entries == [] {
      NoMarks(length, catalog);
    } else {
      var rest := MarksOf(entries[1..], length, catalog);
      MarksDescend(entries[1..], length, catalog);
      MarksAre(entries[1..], length, catalog);
      MarksNext(entries, length, catalog);
      var m := MarkOf(entries[0].selection, catalog);
      forall k | 0 <= k < |rest|
        ensures rest[k].start <= m.start && !Overlaps(m, rest[k])
      {
        assert rest[k] in rest;
        var i :| 0 <= i < |entries[1..]| && rest[k] == MarkOf(entries[1..][i].selection, catalog);
        assert Before(entries[0], entries[i + 1], true);
        assert !Overlap(entries[0].selection, entries[i + 1].selection);
      }
      DescendingFrom(m, rest);
    }
  }

  lemma NoMarks(length: nat, catalog: Catalog)
    ensures Descending(MarksOf([], length, catalog)) && Disjoint(MarksOf([], length, catalog))
  {
  }

  lemma MarksNext(entries: seq<Entry>, length: nat, catalog: Catalog)
    requires InRange(entries, length) && entries != []
    ensures MarksOf(entries, length, catalog)
         == if MarkerFor(entries[0].selection.field, catalog) == "" then MarksOf(entries[1..], length, catalog)
            else [MarkOf(entries[0].selection, catalog)] + MarksOf(entries[1..], length, catalog)
  {
    hide MarkerFor;
  }

  lemma DescendingFrom(m: Mark, rest: seq<Mark>)
    requires Descending(rest) && Disjoint(rest)
    requires forall k :: 0 <= k < |rest| ==> rest[k].start <= m.start && !Overlaps(m, rest[k])
    ensures Descending([m] + rest) && Disjoint([m] + rest)
  {
  }
}
