/** What an accepted request does to the text nodes of a part: every block marked at once, and the row
    of its row fields wrapped in its loop's tags. */
module MarkedDocument {
  import opened Batching
  import opened Numbering
  import opened GuidedMarking
  import opened MarkerScan
  import opened MarkerReader
  import opened MarkedPart
  import opened Selections

  function Texts(nodes: seq<seq<string>>): (texts: seq<string>)
    ensures |texts| == |nodes|
  {
    seq(|nodes|, b requires 0 <= b < |nodes| => Flatten(nodes[b]))
  }

  // ---------- what an accepted request does to the nodes ----------

  predicate AllInRange(selections: seq<Selection>, texts: seq<string>) {
    forall b :: 0 <= b < |texts| ==> InRange(Sort(EntriesOf(selections, b, |selections|), false), |texts[b]|)
  }

  function BlockMarks(selections: seq<Selection>, b: nat, texts: seq<string>, catalog: Catalog): seq<Mark>
    requires b < |texts| && AllInRange(selections, texts)
  {
    MarksOf(Sort(EntriesOf(selections, b, |selections|), false), |texts[b]|, catalog)
  }

  function MarkedNodes(nodes: seq<seq<string>>, selections: seq<Selection>, catalog: Catalog): (marked: seq<seq<string>>)
    requires AllInRange(selections, Texts(nodes))
    ensures |marked| == |nodes|
  {
    seq(|nodes|, b requires 0 <= b < |nodes| => Image(nodes[b], 0, BlockMarks(selections, b, Texts(nodes), catalog)))
  }

  lemma EntriesInRange(selections: seq<Selection>, b: nat, texts: seq<string>, rows: seq<Row>, catalog: Catalog)
    requires b < |texts| && AllPass(selections, texts, rows, catalog)
    ensures InRange(EntriesOf(selections, b, |selections|), |texts[b]|)
  {
    hide KindOf, FirstRow, RowOf;
    var entries := EntriesOf(selections, b, |selections|);
    EntriesAre(selections, b, |selections|);
    forall i | 0 <= i < |entries|
      ensures 0 <= entries[i].selection.start < entries[i].selection.end <= |texts[b]|
    {
      assert entries[i] in entries;
      assert RejectionOf(selections, entries[i].index, texts, rows, catalog).None?;
    }
  }

  lemma SortKeepsRange(entries: seq<Entry>, length: nat, down: bool)
    requires InRange(entries, length)
    ensures InRange(Sort(entries, down), length)
  {
    SortSorts(entries, down);
    var sorted := Sort(entries, down);
    forall i | 0 <= i < |sorted|
      ensures 0 <= sorted[i].selection.start < sorted[i].selection.end <= length
    {
      assert sorted[i] in multiset(entries);
    }
  }

  lemma AcceptedIsInRange(selections: seq<Selection>, texts: seq<string>, rows: seq<Row>, catalog: Catalog)
    requires AllPass(selections, texts, rows, catalog)
    ensures AllInRange(selections, texts)
  {
    hide AllPass, InRange, Sort;
    forall b | 0 <= b < |texts|
      ensures InRange(Sort(EntriesOf(selections, b, |selections|), false), |texts[b]|)
    {
      EntriesInRange(selections, b, texts, rows, catalog);
      SortKeepsRange(EntriesOf(selections, b, |selections|), |texts[b]|, false);
    }
  }

  // The marks of a block in reading order, and in the order they are applied.
  lemma MarksBothWays(entries: seq<Entry>, length: nat, catalog: Catalog)
    requires InRange(entries, length) && AllApart(entries)
    ensures InRange(Sort(entries, false), length) && InRange(Sort(entries, true), length)
    ensures var forwards, backwards := MarksOf(Sort(entries, false), length, catalog), MarksOf(Sort(entries, true), length, catalog);
            && InOrder(forwards, 0, length) && Descending(backwards) && Disjoint(backwards)
            && (forall m :: m in backwards <==> m in forwards)
            && (forall m :: m in backwards ==> m.start < m.end)
  {
    hide MarkOf, Overlap, InOrder, Descending, Disjoint, Insert;
    var up, down := Sort(entries, false), Sort(entries, true);
    SortSorts(entries, false);
    SortSorts(entries, true);
    SortKeepsRange(entries, length, false);
    SortKeepsRange(entries, length, true);
    SameApart(entries, up);
    SameApart(entries, down);
    ForwardsInOrder(up, length, catalog);
    MarksDescend(down, length, catalog);
    SameMembers(up, down, length, catalog);
    SameMembers(down, up, length, catalog);
    MarksNonempty(down, length, catalog);
  }

  lemma {:induction false} MarksNonempty(entries: seq<Entry>, length: nat, catalog: Catalog)
    requires InRange(entries, length)
    ensures forall m :: m in MarksOf(entries, length, catalog) ==> m.start < m.end
  {
    hide MarkerFor;
    if entries != [] {
      MarksNonempty(entries[1..], length, catalog);
    }
  }

  lemma ForwardsInOrder(sorted: seq<Entry>, length: nat, catalog: Catalog)
    requires InRange(sorted, length) && Sorted(sorted, false) && AllApart(sorted)
    ensures InOrder(MarksOf(sorted, length, catalog), 0, length)
  {
    hide InOrder, MarksOf;
    forall i, k | 0 <= i < k < |sorted|
      ensures sorted[i].selection.end <= sorted[k].selection.start
    {
      assert !Overlap(sorted[i].selection, sorted[k].selection);
      assert Before(sorted[i], sorted[k], false);
    }
    MarksInOrder(sorted, 0, length, catalog);
  }

  lemma SameMembers(a: seq<Entry>, b: seq<Entry>, length: nat, catalog: Catalog)
    requires InRange(a, length) && InRange(b, length) && multiset(a) == multiset(b)
    ensures forall m :: m in MarksOf(a, length, catalog) ==> m in MarksOf(b, length, catalog)
  {
    hide MarkerFor, MarksOf;
    MarksAre(a, length, catalog);
    MarksAre(b, length, catalog);
    forall m | m in MarksOf(a, length, catalog)
      ensures m in MarksOf(b, length, catalog)
    {
      var i :| 0 <= i < |a| && m == MarkOf(a[i].selection, catalog) && m.text != "";
      assert a[i] in multiset(b);
      var k :| 0 <= k < |b| && b[k] == a[i];
    }
  }

  // Applying a block's marks from the end backwards marks all of them at once.
  lemma BlockMarkedAtOnce(nodes: seq<string>, entries: seq<Entry>, catalog: Catalog)
    requires InRange(entries, |Flatten(nodes)|) && AllApart(entries)
    ensures InRange(Sort(entries, false), |Flatten(nodes)|) && InRange(Sort(entries, true), |Flatten(nodes)|)
    ensures var forwards := MarksOf(Sort(entries, false), |Flatten(nodes)|, catalog);
            var backwards := MarksOf(Sort(entries, true), |Flatten(nodes)|, catalog);
            && (forall m :: m in backwards ==> m.start < m.end)
            && ReplaceAll(nodes, backwards) == Image(nodes, 0, forwards)
            && InOrder(forwards, 0, |Flatten(nodes)|)
            && Flatten(Image(nodes, 0, forwards)) == Substituted(Flatten(nodes), 0, forwards)
  {
    hide MarksOf, Sort, InOrder, Descending, Disjoint, InRange, AllApart;
    MarksBothWays(entries, |Flatten(nodes)|, catalog);
    MarkingIsSubstitution(nodes, MarksOf(Sort(entries, true), |Flatten(nodes)|, catalog), MarksOf(Sort(entries, false), |Flatten(nodes)|, catalog));
  }

  lemma {:induction false} MarksOfOneMore(entries: seq<Entry>, n: nat, length: nat, catalog: Catalog)
    requires n < |entries| && InRange(entries, length)
    ensures MarksOf(entries[..n + 1], length, catalog)
         == MarksOf(entries[..n], length, catalog)
            + if MarkerFor(entries[n].selection.field, catalog) == "" then [] else [MarkOf(entries[n].selection, catalog)]
  {
    hide MarkerFor;
    if n == 0 {
      assert entries[..1] == [entries[0]] && entries[..0] == [];
    } else {
      MarksOfOneMore(entries[1..], n - 1, length, catalog);
      assert entries[..n + 1][1..] == entries[1..][..n] && entries[..n][1..] == entries[1..][..n - 1];
    }
  }

  // ---------- the row that repeats ----------

  predicate Includes(s: string, part: string) {
    part <= s || (s != "" && Includes(s[1..], part))
  }

  predicate ValidRow(row: Row, length: nat) {
    && row.cells != []
    && (forall c :: 0 <= c < |row.cells| ==> row.cells[c].count > 0 && row.cells[c].first + row.cells[c].count <= length)
    && (forall c :: 0 <= c < |row.cells| - 1 ==> row.cells[c].first + row.cells[c].count == row.cells[c + 1].first)
  }

  function LastCell(row: Row): Cell
    requires row.cells != []
  {
    row.cells[|row.cells| - 1]
  }

  // The source's test for a row that repeats already: the tag inside one text node.
  predicate RowHas(nodes: seq<seq<string>>, row: Row, tag: string)
    requires ValidRow(row, |nodes|)
  {
    exists b, k ::
      && row.cells[0].first <= b < LastCell(row).first + LastCell(row).count && b < |nodes|
      && 0 <= k < |nodes[b]| && Includes(nodes[b][k], tag)
  }

  // The paragraph of a cell that holds its first text node, or its last; its first paragraph if none does.
  function FirstWithText(nodes: seq<seq<string>>, cell: Cell, b: nat): (p: nat)
    requires cell.first <= b <= cell.first + cell.count <= |nodes| && cell.count > 0
    requires forall q :: cell.first <= q < b ==> nodes[q] == []
    ensures cell.first <= p < cell.first + cell.count
    ensures forall q :: cell.first <= q < p ==> nodes[q] == []
    ensures nodes[p] == [] ==> p == cell.first && forall q :: cell.first <= q < cell.first + cell.count ==> nodes[q] == []
    decreases cell.first + cell.count - b
  {
    if b == cell.first + cell.count then cell.first
    else if nodes[b] != [] then b
    else FirstWithText(nodes, cell, b + 1)
  }

  function LastWithText(nodes: seq<seq<string>>, cell: Cell, b: nat): (p: nat)
    requires cell.first <= b <= cell.first + cell.count <= |nodes| && cell.count > 0
    requires forall q :: b <= q < cell.first + cell.count ==> nodes[q] == []
    ensures cell.first <= p < cell.first + cell.count
    ensures forall q :: p < q < cell.first + cell.count ==> nodes[q] == []
    ensures nodes[p] == [] ==> p == cell.first
    decreases b
  {
    if b == cell.first then cell.first
    else if nodes[b - 1] != [] then b - 1
    else LastWithText(nodes, cell, b - 1)
  }

  function Prefixed(nodes: seq<seq<string>>, b: nat, tag: string): seq<seq<string>>
    requires b < |nodes|
  {
    nodes[b := if nodes[b] == [] then [tag] else nodes[b][0 := tag + nodes[b][0]]]
  }

  function Suffixed(nodes: seq<seq<string>>, b: nat, tag: string): seq<seq<string>>
    requires b < |nodes|
  {
    var n := |nodes[b]|;
    nodes[b := if n == 0 then [tag] else nodes[b][n - 1 := nodes[b][n - 1] + tag]]
  }

  function RowOpens(nodes: seq<seq<string>>, row: Row): (p: nat)
    requires ValidRow(row, |nodes|)
    ensures p < |nodes|
  {
    FirstWithText(nodes, row.cells[0], row.cells[0].first)
  }

  function RowCloses(nodes: seq<seq<string>>, row: Row): (p: nat)
    requires ValidRow(row, |nodes|)
    ensures p < |nodes|
  {
    LastWithText(nodes, LastCell(row), LastCell(row).first + LastCell(row).count)
  }

  function WrappedNodes(nodes: seq<seq<string>>, row: Row, loop: string): seq<seq<string>>
    requires ValidRow(row, |nodes|)
  {
    if RowHas(nodes, row, Braced("#" + loop)) then nodes
    else
      var withTag := Prefixed(nodes, RowOpens(nodes, row), Braced("#" + loop));
      Suffixed(withTag, RowCloses(withTag, row), Braced("/" + loop))
  }

  ghost predicate OneTableLoop(catalog: Catalog) {
    forall a, b :: a in catalog.loops && b in catalog.loops && catalog.loops[a].kind.TableRow? && catalog.loops[b].kind.TableRow?
      ==> a == b
  }

  // The catalog's table loop.
  function TableLoop(catalog: Catalog): (loop: string)
    requires OneTableLoop(catalog)
  {
    if exists name :: name in catalog.loops && catalog.loops[name].kind.TableRow? then
      var name :| name in catalog.loops && catalog.loops[name].kind.TableRow?;
      name
    else ""
  }

  // The whole request: every block marked, and the row of the row fields wrapped.
  function AppliedNodes(nodes: seq<seq<string>>, selections: seq<Selection>, rows: seq<Row>, catalog: Catalog): seq<seq<string>>
    requires AllInRange(selections, Texts(nodes)) && OneTableLoop(catalog)
    requires forall r :: 0 <= r < |rows| ==> ValidRow(rows[r], |nodes|)
  {
    var marked := MarkedNodes(nodes, selections, catalog);
    match FirstRow(selections, |selections|, rows, catalog)
    case None => marked
    case Some(r) => WrappedNodes(marked, rows[r], TableLoop(catalog))
  }

  lemma {:induction false} FlattenSuffixed(nodes: seq<string>, tag: string)
    requires nodes != []
    ensures Flatten(nodes[|nodes| - 1 := nodes[|nodes| - 1] + tag]) == Flatten(nodes) + tag
  {
    var n := |nodes| - 1;
    if n == 0 {
      assert nodes[0 := nodes[0] + tag] == [nodes[0] + tag];
      assert Flatten([nodes[0] + tag]) == nodes[0] + tag + Flatten([]);
    } else {
      FlattenSuffixed(nodes[1..], tag);
      assert nodes[n := nodes[n] + tag][1..] == nodes[1..][n - 1 := nodes[1..][n - 1] + tag];
    }
  }

  lemma PrefixedText(nodes: seq<seq<string>>, b: nat, tag: string)
    requires b < |nodes|
    ensures Texts(Prefixed(nodes, b, tag)) == Texts(nodes)[b := tag + Texts(nodes)[b]]
  {
    var changed := Prefixed(nodes, b, tag)[b];
    assert Flatten(changed) == tag + Flatten(nodes[b]) by {
      assert changed[1..] == if nodes[b] == [] then [] else nodes[b][1..];
    }
  }

  lemma SuffixedText(nodes: seq<seq<string>>, b: nat, tag: string)
    requires b < |nodes|
    ensures Texts(Suffixed(nodes, b, tag)) == Texts(nodes)[b := Texts(nodes)[b] + tag]
  {
    if nodes[b] != [] {
      FlattenSuffixed(nodes[b], tag);
    } else {
      assert [tag][1..] == [] && Flatten(nodes[b]) == "";
      assert Suffixed(nodes, b, tag)[b] == [tag];
      assert Texts(Suffixed(nodes, b, tag))[b] == Texts(nodes)[b] + tag;
    }
  }
}
