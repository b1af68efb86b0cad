/** What a part reads back as after an accepted request has been applied to its text nodes. */
module MarkedReading {
  import opened Batching
  import opened Numbering
  import opened GuidedMarking
  import opened MarkerScan
  import opened MarkerReader
  import opened MarkThenRead
  import opened MarkedPart
  import opened Selections
  import opened MarkedDocument

  function PartMarks(selections: seq<Selection>, texts: seq<string>, catalog: Catalog): seq<seq<Mark>>
    requires AllInRange(selections, texts)
  {
    seq(|texts|, b requires 0 <= b < |texts| => BlockMarks(selections, b, texts, catalog))
  }

  // The marks of an accepted block are ready to be read back.
  lemma BlockIsMarkable(selections: seq<Selection>, b: nat, texts: seq<string>, rows: seq<Row>, catalog: Catalog)
    requires Accepted(selections, texts, rows, catalog) && b < |texts|
    ensures AllInRange(selections, texts)
    ensures Markable(texts[b], BlockMarks(selections, b, texts, catalog), catalog)
  {
    hide AllPass, InRange, Sort, MarksOf, Fits, KindOf, EntriesOf, AllApart, Tags, InOrder, Touches, MarkOf, MarkerFor;
    var entries := EntriesOf(selections, b, |selections|);
    AcceptedIsInRange(selections, texts, rows, catalog);
    EntriesInRange(selections, b, texts, rows, catalog);
    assert BlockAccepted(selections, b, texts);
    MarksBothWays(entries, |texts[b]|, catalog);
    var sorted := Sort(entries, false);
    SortSorts(entries, false);
    forall m | m in MarksOf(sorted, |texts[b]|, catalog)
      ensures Fits(m, catalog)
      ensures forall t :: t in Tags(texts[b]) ==> t.end <= m.start || m.end <= t.start
    {
      var e := EntryOfMark(sorted, |texts[b]|, m, catalog);
      assert e in multiset(entries);
      EntriesAre(selections, b, |selections|);
      MarkFits(selections, e, m, texts, rows, catalog);
      MarkIsClear(e, m, Tags(texts[b]), catalog);
    }
  }

  lemma EntryOfMark(sorted: seq<Entry>, length: nat, m: Mark, catalog: Catalog) returns (e: Entry)
    requires InRange(sorted, length) && m in MarksOf(sorted, length, catalog)
    ensures e in sorted && 0 <= e.selection.start < e.selection.end <= length
    ensures m == MarkOf(e.selection, catalog) && m.text != ""
  {
    hide MarksOf;
    MarksAre(sorted, length, catalog);
    var i :| 0 <= i < |sorted| && m == MarkOf(sorted[i].selection, catalog) && m.text != "";
    e := sorted[i];
  }

  lemma MarkIsClear(e: Entry, m: Mark, tags: seq<Tag>, catalog: Catalog)
    requires 0 <= e.selection.start < e.selection.end && m == MarkOf(e.selection, catalog)
    requires forall t :: t in tags ==> !Touches(e.selection, t.start, t.end)
    ensures forall t :: t in tags ==> t.end <= m.start || m.end <= t.start
  {
    forall t | t in tags
      ensures t.end <= m.start || m.end <= t.start
    {
      assert !Touches(e.selection, t.start, t.end);
    }
  }

  lemma MarkFits(selections: seq<Selection>, e: Entry, m: Mark, texts: seq<string>, rows: seq<Row>, catalog: Catalog)
    requires AllPass(selections, texts, rows, catalog)
    requires e.index < |selections| && e.selection == selections[e.index]
    requires 0 <= e.selection.start < e.selection.end
    requires m == MarkOf(e.selection, catalog) && m.text != ""
    ensures Fits(m, catalog)
  {
    hide RejectionOf, KindOf, MarkerFor;
    PassedKind(selections, e.index, texts, rows, catalog);
  }

  lemma PassedKind(selections: seq<Selection>, i: nat, texts: seq<string>, rows: seq<Row>, catalog: Catalog)
    requires AllPass(selections, texts, rows, catalog) && i < |selections|
    ensures KindOf(selections[i].field, catalog).Some?
  {
    assert RejectionOf(selections, i, texts, rows, catalog).None?;
  }

  // Flattened, the marked blocks are the old texts with every range replaced by its marker at once.
  lemma MarkedNodesText(nodes: seq<seq<string>>, selections: seq<Selection>, rows: seq<Row>, catalog: Catalog)
    requires Accepted(selections, Texts(nodes), rows, catalog)
    ensures AllInRange(selections, Texts(nodes))
    ensures forall b :: 0 <= b < |nodes| ==> InOrder(BlockMarks(selections, b, Texts(nodes), catalog), 0, |Texts(nodes)[b]|)
    ensures Texts(MarkedNodes(nodes, selections, catalog))
         == MarkedTexts(Texts(nodes), PartMarks(selections, Texts(nodes), catalog))
  {
    hide AllPass, Image, InRange, MarksOf, EntriesOf, Sort, AllApart, InOrder, AllInRange, Substituted;
    var texts := Texts(nodes);
    AcceptedIsInRange(selections, texts, rows, catalog);
    forall b | 0 <= b < |nodes|
      ensures InOrder(BlockMarks(selections, b, texts, catalog), 0, |texts[b]|)
      ensures Flatten(Image(nodes[b], 0, BlockMarks(selections, b, texts, catalog)))
           == Substituted(texts[b], 0, BlockMarks(selections, b, texts, catalog))
    {
      assert BlockAccepted(selections, b, texts);
      EntriesInRange(selections, b, texts, rows, catalog);
      BlockMarkedAtOnce(nodes[b], EntriesOf(selections, b, |selections|), catalog);
      BlockMarksText(selections, b, texts, catalog);
    }
  }

  lemma BlockMarksText(selections: seq<Selection>, b: nat, texts: seq<string>, catalog: Catalog)
    requires b < |texts| && AllInRange(selections, texts)
    ensures InRange(Sort(EntriesOf(selections, b, |selections|), false), |texts[b]|)
    ensures BlockMarks(selections, b, texts, catalog) == MarksOf(Sort(EntriesOf(selections, b, |selections|), false), |texts[b]|, catalog)
  {
  }

  // ---------- with a row that repeats ----------

  // The paragraphs that get the row's loop tags, before and after those tags are written.
  lemma RowEnds(nodes: seq<seq<string>>, row: Row, tag: string)
    requires ValidRow(row, |nodes|)
    ensures var o := RowOpens(nodes, row);
            var c := RowCloses(Prefixed(nodes, o, tag), row);
            && o <= c < |nodes|
            && row.cells[0].first <= o && c < LastCell(row).first + LastCell(row).count
            && forall b: nat :: InRow(row, b) && !(o <= b <= c) ==> b < |nodes| && nodes[b] == []
  {
    var o := RowOpens(nodes, row);
    var withTag := Prefixed(nodes, o, tag);
    var c := RowCloses(withTag, row);
    hide RowOpens, RowCloses, Prefixed;
    CellsInOrder(row, |nodes|, 0);
    RowOpensIs(nodes, row);
    RowClosesIs(withTag, row);
    PrefixedOthers(nodes, o, tag);
    forall b: nat | InRow(row, b) && !(o <= b <= c)
      ensures b < |nodes| && nodes[b] == []
    {
      var k :| 0 <= k < |row.cells| && row.cells[k].first <= b < row.cells[k].first + row.cells[k].count;
      CellsInOrder(row, |nodes|, k);
    }
  }

  lemma RowOpensIs(nodes: seq<seq<string>>, row: Row)
    requires ValidRow(row, |nodes|)
    ensures var o := RowOpens(nodes, row);
            && row.cells[0].first <= o < row.cells[0].first + row.cells[0].count
            && forall q :: row.cells[0].first <= q < o ==> nodes[q] == []
  {
  }

  lemma RowClosesIs(nodes: seq<seq<string>>, row: Row)
    requires ValidRow(row, |nodes|)
    ensures var c := RowCloses(nodes, row);
            && LastCell(row).first <= c < LastCell(row).first + LastCell(row).count <= |nodes|
            && forall q :: c < q < LastCell(row).first + LastCell(row).count ==> nodes[q] == []
  {
  }

  lemma PrefixedOthers(nodes: seq<seq<string>>, b: nat, tag: string)
    requires b < |nodes|
    ensures |Prefixed(nodes, b, tag)| == |nodes| && Prefixed(nodes, b, tag)[b] != []
    ensures forall q :: 0 <= q < |nodes| && q != b ==> Prefixed(nodes, b, tag)[q] == nodes[q]
  {
  }

  lemma {:induction false} CellsInOrder(row: Row, length: nat, c: nat)
    requires ValidRow(row, length) && c < |row.cells|
    ensures row.cells[0].first <= row.cells[c].first
    ensures row.cells[c].first + row.cells[c].count <= LastCell(row).first + LastCell(row).count <= length
    ensures c < |row.cells| - 1 ==> row.cells[c].first + row.cells[c].count <= LastCell(row).first
    decreases |row.cells| - c
  {
    CellsFromFirst(row, length, c);
    if c < |row.cells| - 1 {
      CellsInOrder(row, length, c + 1);
    }
  }

  lemma {:induction false} CellsFromFirst(row: Row, length: nat, c: nat)
    requires ValidRow(row, length) && c < |row.cells|
    ensures row.cells[0].first <= row.cells[c].first
  {
    if c > 0 {
      CellsFromFirst(row, length, c - 1);
    }
  }

  // Where the wrapped row starts and ends.
  function RowStart(marked: seq<seq<string>>, row: Row): nat
    requires ValidRow(row, |marked|)
  {
    RowOpens(marked, row)
  }

  function RowEnd(marked: seq<seq<string>>, row: Row, loop: string): nat
    requires ValidRow(row, |marked|)
  {
    RowCloses(Prefixed(marked, RowOpens(marked, row), Braced("#" + loop)), row) + 1
  }

  lemma WrappedText(marked: seq<seq<string>>, row: Row, loop: string)
    requires ValidRow(row, |marked|) && !RowHas(marked, row, Braced("#" + loop))
    ensures var o, c := RowStart(marked, row), RowEnd(marked, row, loop);
            && o < c <= |marked|
            && Texts(WrappedNodes(marked, row, loop))
               == Texts(marked)[..o] + Looped(Texts(marked)[o..c], loop) + Texts(marked)[c..]
  {
    hide Braced, Includes;
    var o, c := RowStart(marked, row), RowEnd(marked, row, loop);
    RowEnds(marked, row, Braced("#" + loop));
    PrefixedText(marked, o, Braced("#" + loop));
    SuffixedText(Prefixed(marked, o, Braced("#" + loop)), c - 1, Braced("/" + loop));
    UpdateBothEnds(Texts(marked), o, c, loop);
  }

  lemma UpdateBothEnds(texts: seq<string>, o: nat, c: nat, loop: string)
    requires o < c <= |texts|
    ensures var first := texts[o := Braced("#" + loop) + texts[o]];
            first[c - 1 := first[c - 1] + Braced("/" + loop)] == texts[..o] + Looped(texts[o..c], loop) + texts[c..]
  {
    hide Braced;
    var first := texts[o := Braced("#" + loop) + texts[o]];
    assert first[o..c] == Opened(texts[o..c], loop);
  }

  // The selections of row fields are in the wrapped paragraphs.
  lemma RowFieldsInside(nodes: seq<seq<string>>, selections: seq<Selection>, i: nat, rows: seq<Row>, r: nat, loop: string, catalog: Catalog)
    requires forall k :: 0 <= k < |rows| ==> ValidRow(rows[k], |nodes|)
    requires Accepted(selections, Texts(nodes), rows, catalog) && AllInRange(selections, Texts(nodes))
    requires FirstRow(selections, |selections|, rows, catalog) == Some(r) && i < |selections|
    requires KindOf(selections[i].field, catalog) == Some(RowField)
    ensures var marked := MarkedNodes(nodes, selections, catalog);
            ValidRow(rows[r], |marked|) && RowStart(marked, rows[r]) <= selections[i].block < RowEnd(marked, rows[r], loop)
  {
    hide AllPass, KindOf, FirstRow, Image, RowOpens, RowCloses, BlockMarks, AllInRange, Includes, Prefixed;
    var marked := MarkedNodes(nodes, selections, catalog);
    var b := selections[i].block;
    RowFieldsShareTheRow(selections, |selections|, i, Texts(nodes), rows, catalog);
    PassedRange(selections, i, Texts(nodes), rows, catalog);
    assert nodes[b] != [];
    ImageLength(nodes[b], 0, BlockMarks(selections, b, Texts(nodes), catalog));
    RowEnds(marked, rows[r], Braced("#" + loop));
    assert InRow(rows[r], b);
  }

  lemma PassedRange(selections: seq<Selection>, i: nat, texts: seq<string>, rows: seq<Row>, catalog: Catalog)
    requires AllPass(selections, texts, rows, catalog) && i < |selections|
    ensures selections[i].block < |texts| && |texts[selections[i].block]| > 0
  {
    hide KindOf, RowOf, FirstRow;
    assert RejectionOf(selections, i, texts, rows, catalog).None?;
  }

  lemma {:induction false} ImageLength(nodes: seq<string>, from: nat, marks: seq<Mark>)
    ensures |Image(nodes, from, marks)| == |nodes|
  {
    if nodes != [] {
      ImageLength(nodes[1..], from + |nodes[0]|, marks);
    }
  }

  // ---------- what a marked part reads as ----------

  lemma PartIsMarkable(selections: seq<Selection>, texts: seq<string>, rows: seq<Row>, catalog: Catalog)
    requires Accepted(selections, texts, rows, catalog)
    ensures AllInRange(selections, texts)
    ensures AllMarkable(texts, PartMarks(selections, texts, catalog), catalog)
  {
    hide Accepted, Markable, AllInRange, BlockMarks;
    AcceptedTexts(selections, texts, rows, catalog);
    forall b | 0 <= b < |texts|
      ensures Markable(texts[b], BlockMarks(selections, b, texts, catalog), catalog)
    {
      BlockIsMarkable(selections, b, texts, rows, catalog);
    }
  }

  lemma AcceptedTexts(selections: seq<Selection>, texts: seq<string>, rows: seq<Row>, catalog: Catalog)
    requires Accepted(selections, texts, rows, catalog)
    ensures AllInRange(selections, texts)
  {
    hide AllPass, BlockAccepted, AllInRange;
    AcceptedIsInRange(selections, texts, rows, catalog);
  }

  // Whether an accepted request writes the loop's tags, and around which paragraphs.
  datatype Wrap = NoRow | Repeats(row: nat) | Wraps(row: nat, first: nat, end: nat)

  function WrapOf(nodes: seq<seq<string>>, selections: seq<Selection>, rows: seq<Row>, catalog: Catalog): (wrap: Wrap)
    requires AllInRange(selections, Texts(nodes)) && OneTableLoop(catalog)
    requires forall r :: 0 <= r < |rows| ==> ValidRow(rows[r], |nodes|)
  {
    var marked, loop := MarkedNodes(nodes, selections, catalog), TableLoop(catalog);
    match FirstRow(selections, |selections|, rows, catalog)
    case None => NoRow
    case Some(r) =>
      if RowHas(marked, rows[r], Braced("#" + loop)) then Repeats(r)
      else Wraps(r, RowStart(marked, rows[r]), RowEnd(marked, rows[r], loop))
  }

  // Mark then read, when no row is wrapped: there is no row field, or the row repeats already. The old
  // markers are at shifted offsets with the fields they had, and every selection's marker reads by the
  // loops open at its place.
  lemma MarkThenReadPart(nodes: seq<seq<string>>, selections: seq<Selection>, rows: seq<Row>, catalog: Catalog)
    requires WellFormed(catalog) && OneTableLoop(catalog)
    requires forall r :: 0 <= r < |rows| ==> ValidRow(rows[r], |nodes|)
    requires Accepted(selections, Texts(nodes), rows, catalog)
    ensures AllInRange(selections, Texts(nodes))
    ensures !WrapOf(nodes, selections, rows, catalog).Wraps? ==>
              ReadPart(Texts(AppliedNodes(nodes, selections, rows, catalog)), [], catalog)
              == MergedPart(ReadPart(Texts(nodes), [], catalog),
                            PartAsRead(PartMarks(selections, Texts(nodes), catalog), Texts(nodes), [], catalog))
    ensures WrapOf(nodes, selections, rows, catalog).NoRow? ==>
              PartAsRead(PartMarks(selections, Texts(nodes), catalog), Texts(nodes), [], catalog)
              == PartMarks(selections, Texts(nodes), catalog)
  {
    hide Accepted, AllMarkable, ReadPart, MergedPart, MarkedNodes, MarkedTexts, WellFormed, OneTableLoop, ValidRow, AllInRange, BlockMarks,
         KindOf, FirstRow, RowHas, RowStart, RowEnd, Braced;
    var texts := Texts(nodes);
    MarkedNodesText(nodes, selections, rows, catalog);
    PartIsMarkable(selections, texts, rows, catalog);
    var marks := PartMarks(selections, texts, catalog);
    MarkedPartReads(texts, marks, [], catalog);
    if FirstRow(selections, |selections|, rows, catalog).None? {
      NothingElseRead(nodes, selections, rows, catalog);
    }
  }

  // Without row fields every mark reads as its own field, wherever it stands.
  lemma NothingElseRead(nodes: seq<seq<string>>, selections: seq<Selection>, rows: seq<Row>, catalog: Catalog)
    requires WellFormed(catalog) && OneTableLoop(catalog)
    requires Accepted(selections, Texts(nodes), rows, catalog) && AllInRange(selections, Texts(nodes))
    requires FirstRow(selections, |selections|, rows, catalog).None?
    ensures var texts := Texts(nodes);
            PartAsRead(PartMarks(selections, texts, catalog), texts, [], catalog) == PartMarks(selections, texts, catalog)
  {
    hide Accepted, WellFormed, AllInRange, BlockMarks, KindOf, FirstRow, Tags, OpenPart, MarkerFor, ReadBack, PartAsRead;
    var texts := Texts(nodes);
    var marks := PartMarks(selections, texts, catalog);
    forall b | 0 <= b < |texts|
      ensures PartAsRead(marks, texts, [], catalog)[b] == marks[b]
    {
      PartAsReadAt(marks, texts, [], b, catalog);
      forall k | 0 <= k < |marks[b]|
        ensures forall open :: ReadBack(marks[b][k].field, open, catalog) == marks[b][k].field
      {
        var i := SelectionOfMark(selections, b, k, texts, rows, catalog);
        NoRowFields(selections, i, texts, rows, catalog);
        forall open
          ensures ReadBack(marks[b][k].field, open, catalog) == marks[b][k].field
        {
          PassedKindOf(selections, i, texts, rows, catalog);
          ReadBackIff(marks[b][k].field, open, catalog);
        }
      }
    }
  }

  lemma NoRowFields(selections: seq<Selection>, i: nat, texts: seq<string>, rows: seq<Row>, catalog: Catalog)
    requires Accepted(selections, texts, rows, catalog) && FirstRow(selections, |selections|, rows, catalog).None?
    requires i < |selections|
    ensures KindOf(selections[i].field, catalog) != Some(RowField)
  {
    hide AllPass, KindOf, FirstRow;
    if KindOf(selections[i].field, catalog) == Some(RowField) {
      RowFieldsShareTheRow(selections, |selections|, i, texts, rows, catalog);
      assert false;
    }
  }

  lemma PassedKindOf(selections: seq<Selection>, i: nat, texts: seq<string>, rows: seq<Row>, catalog: Catalog)
    requires Accepted(selections, texts, rows, catalog) && i < |selections|
    ensures KindOf(selections[i].field, catalog).Some?
  {
    hide AllPass, KindOf;
    PassedKind(selections, i, texts, rows, catalog);
  }

  // The selection a mark was written for.
  lemma SelectionOfMark(selections: seq<Selection>, b: nat, k: nat, texts: seq<string>, rows: seq<Row>, catalog: Catalog) returns (i: nat)
    requires Accepted(selections, texts, rows, catalog) && AllInRange(selections, texts)
    requires b < |texts| && k < |BlockMarks(selections, b, texts, catalog)|
    ensures i < |selections| && selections[i].block == b
    ensures BlockMarks(selections, b, texts, catalog)[k].field == selections[i].field && MarkerFor(selections[i].field, catalog) != ""
  {
    hide MarksOf, Sort, EntriesOf, MarkerFor, Accepted;
    BlockMarksText(selections, b, texts, catalog);
    var entries := EntriesOf(selections, b, |selections|);
    SortSorts(entries, false);
    var m := BlockMarks(selections, b, texts, catalog)[k];
    assert m in MarksOf(Sort(entries, false), |texts[b]|, catalog);
    var e := EntryOfMark(Sort(entries, false), |texts[b]|, m, catalog);
    assert e in multiset(entries);
    EntriesAre(selections, b, |selections|);
    i := e.index;
  }

  // The mark a selection is written as.
  lemma MarkOfSelection(selections: seq<Selection>, i: nat, texts: seq<string>, rows: seq<Row>, catalog: Catalog) returns (k: nat)
    requires Accepted(selections, texts, rows, catalog) && AllInRange(selections, texts)
    requires i < |selections| && MarkerFor(selections[i].field, catalog) != ""
    ensures var s := selections[i];
            && s.block < |texts| && 0 <= s.start < s.end <= |texts[s.block]|
            && k < |BlockMarks(selections, s.block, texts, catalog)|
            && BlockMarks(selections, s.block, texts, catalog)[k] == MarkOf(s, catalog)
  {
    hide MarksOf, Sort, EntriesOf, MarkerFor, AllPass, KindOf;
    var b := selections[i].block;
    PassedRange(selections, i, texts, rows, catalog);
    BlockMarksText(selections, b, texts, catalog);
    var entries := EntriesOf(selections, b, |selections|);
    var sorted := Sort(entries, false);
    SortSorts(entries, false);
    EntriesAre(selections, b, |selections|);
    var e := Entry(i, selections[i]);
    assert e in entries && e in multiset(sorted);
    var n :| 0 <= n < |sorted| && sorted[n] == e;
    MarksAre(sorted, |texts[b]|, catalog);
    var m := MarkOf(e.selection, catalog);
    assert m in MarksOf(sorted, |texts[b]|, catalog);
    k :| 0 <= k < |MarksOf(sorted, |texts[b]|, catalog)| && MarksOf(sorted, |texts[b]|, catalog)[k] == m;
  }

  lemma MarkedTextsSplit(texts: seq<string>, marks: seq<seq<Mark>>, o: nat, c: nat)
    requires |marks| == |texts| && o <= c <= |texts|
    requires forall b :: 0 <= b < |texts| ==> InOrder(marks[b], 0, |texts[b]|)
    ensures MarkedTexts(texts, marks)[..o] == MarkedTexts(texts[..o], marks[..o])
    ensures MarkedTexts(texts, marks)[o..c] == MarkedTexts(texts[o..c], marks[o..c])
    ensures MarkedTexts(texts, marks)[c..] == MarkedTexts(texts[c..], marks[c..])
  {
  }

  lemma MarkableSplit(texts: seq<string>, marks: seq<seq<Mark>>, o: nat, c: nat, catalog: Catalog)
    requires AllMarkable(texts, marks, catalog) && o <= c <= |texts|
    ensures |marks| == |texts|
    ensures AllMarkable(texts[..o], marks[..o], catalog) && AllMarkable(texts[o..c], marks[o..c], catalog)
    ensures AllMarkable(texts[c..], marks[c..], catalog)
    ensures forall b :: 0 <= b < |texts| ==> InOrder(marks[b], 0, |texts[b]|)
  {
    assert forall b :: 0 <= b < |texts| ==> Markable(texts[b], marks[b], catalog);
  }

  lemma {:induction false} TableLoopExists(selections: seq<Selection>, n: nat, rows: seq<Row>, catalog: Catalog)
    requires n <= |selections| && FirstRow(selections, n, rows, catalog).Some?
    requires WellFormed(catalog) && OneTableLoop(catalog)
    ensures TableLoop(catalog) in catalog.loops && catalog.loops[TableLoop(catalog)].kind.TableRow?
  {
    hide RowOf, WellFormed;
    if FirstRow(selections, n - 1, rows, catalog).Some? {
      TableLoopExists(selections, n - 1, rows, catalog);
    } else {
      var field := selections[n - 1].field;
      assert KindOf(field, catalog) == Some(RowField);
      var loop := if field in catalog.loops then field else field[..IndexOf(field, '.').value];
      assert loop in catalog.loops && catalog.loops[loop].kind.TableRow?;
    }
  }

  // What a wrapped row's request gives, text by text.
  lemma WrappedPartText(nodes: seq<seq<string>>, selections: seq<Selection>, rows: seq<Row>, catalog: Catalog)
    requires WellFormed(catalog) && OneTableLoop(catalog)
    requires forall r :: 0 <= r < |rows| ==> ValidRow(rows[r], |nodes|)
    requires Accepted(selections, Texts(nodes), rows, catalog) && AllInRange(selections, Texts(nodes))
    requires WrapOf(nodes, selections, rows, catalog).Wraps?
    ensures var texts, marks, loop := Texts(nodes), PartMarks(selections, Texts(nodes), catalog), TableLoop(catalog);
            var Wraps(_, o, c) := WrapOf(nodes, selections, rows, catalog);
            && o < c <= |texts| && loop in catalog.loops
            && AllMarkable(texts, marks, catalog)
            && AllMarkable(texts[..o], marks[..o], catalog) && AllMarkable(texts[o..c], marks[o..c], catalog)
            && AllMarkable(texts[c..], marks[c..], catalog)
            && Texts(AppliedNodes(nodes, selections, rows, catalog))
               == MarkedTexts(texts[..o], marks[..o]) + Looped(MarkedTexts(texts[o..c], marks[o..c]), loop)
                  + MarkedTexts(texts[c..], marks[c..])
  {
    hide Accepted, AllMarkable, MarkedNodes, WellFormed, OneTableLoop, ValidRow, AllInRange, BlockMarks, KindOf,
         FirstRow, RowStart, RowEnd, RowHas, WrappedNodes, Looped, Substituted, InOrder, Braced, MarkedTexts;
    var texts, marks, loop := Texts(nodes), PartMarks(selections, Texts(nodes), catalog), TableLoop(catalog);
    var Wraps(r, o, c) := WrapOf(nodes, selections, rows, catalog);
    TableLoopExists(selections, |selections|, rows, catalog);
    var marked := MarkedNodes(nodes, selections, catalog);
    MarkedNodesText(nodes, selections, rows, catalog);
    PartIsMarkable(selections, texts, rows, catalog);
    WrappedText(marked, rows[r], loop);
    MarkableSplit(texts, marks, o, c, catalog);
    MarkedTextsSplit(texts, marks, o, c);
  }

  // Mark then read, when a row is wrapped. Before its first text as above; in the row everything reads
  // with the loop opened before it, and after the row with what the closing tag leaves open.
  lemma MarkThenReadPartWithRow(nodes: seq<seq<string>>, selections: seq<Selection>, rows: seq<Row>, catalog: Catalog)
    requires WellFormed(catalog) && OneTableLoop(catalog)
    requires forall r :: 0 <= r < |rows| ==> ValidRow(rows[r], |nodes|)
    requires Accepted(selections, Texts(nodes), rows, catalog) && AllInRange(selections, Texts(nodes))
    requires WrapOf(nodes, selections, rows, catalog).Wraps?
    ensures var texts, marks, loop := Texts(nodes), PartMarks(selections, Texts(nodes), catalog), TableLoop(catalog);
            var Wraps(_, o, c) := WrapOf(nodes, selections, rows, catalog);
            && o < c <= |texts|
            && (forall b :: 0 <= b < |texts| ==> InOrder(marks[b], 0, |texts[b]|))
            && var before, row, after := texts[..o], texts[o..c], texts[c..];
               var inside, past := OpenPart(before, []) + [loop], OpenPast(before, row, loop, []);
               ReadPart(Texts(AppliedNodes(nodes, selections, rows, catalog)), [], catalog)
               == MergedPart(ReadPart(before, [], catalog), PartAsRead(marks[..o], before, [], catalog))
                  + RowMarkers(MergedPart(ReadPart(row, inside, catalog), PartAsRead(marks[o..c], row, inside, catalog)), loop,
                               MarkedTexts(row, marks[o..c]))
                  + MergedPart(ReadPart(after, past, catalog), PartAsRead(marks[c..], after, past, catalog))
  {
    hide Accepted, ReadPart, OpenPart, MergedPart, MarkedNodes, WellFormed, OneTableLoop, ValidRow, AllInRange, BlockMarks, KindOf,
         FirstRow, RowStart, RowEnd, RowHas, WrappedNodes, AppliedNodes, RowMarkers, Looped, Substituted, InOrder, Braced, MarkedTexts,
         AllMarkable, PartAsRead, OpenPast;
    var texts, marks, loop := Texts(nodes), PartMarks(selections, Texts(nodes), catalog), TableLoop(catalog);
    WrappedPartText(nodes, selections, rows, catalog);
    var Wraps(_, o, c) := WrapOf(nodes, selections, rows, catalog);
    MarkableSplit(texts, marks, 0, 0, catalog);
    MarkedPartWithRowReads(texts[..o], texts[o..c], texts[c..], marks[..o], marks[o..c], marks[c..], loop, [], catalog);
  }

  // ---------- one selection ----------

  function OpeningTag(wrap: Wrap, loop: string, b: nat): string {
    if wrap.Wraps? && b == wrap.first then Braced("#" + loop) else ""
  }

  function ClosingTag(wrap: Wrap, loop: string, b: nat): string {
    if wrap.Wraps? && b + 1 == wrap.end then Braced("/" + loop) else ""
  }

  predicate WrapInside(wrap: Wrap, length: nat) {
    wrap.Wraps? ==> wrap.first < wrap.end <= length
  }

  // The loops open where a paragraph starts, past the loop's tags if they are written before it.
  function LoopsBefore(texts: seq<string>, wrap: Wrap, loop: string, b: nat): seq<string>
    requires b < |texts| && WrapInside(wrap, |texts|)
  {
    if !wrap.Wraps? || b < wrap.first then OpenPart(texts[..b], [])
    else if b < wrap.end then OpenPart(texts[wrap.first..b], OpenPart(texts[..wrap.first], []) + [loop])
    else OpenPart(texts[wrap.end..b], OpenPast(texts[..wrap.first], texts[wrap.first..wrap.end], loop, []))
  }

  // The loops open at a place of the part as it was, were the row wrapped already.
  function LoopsHere(texts: seq<string>, wrap: Wrap, loop: string, b: nat, at: int): seq<string>
    requires b < |texts| && WrapInside(wrap, |texts|)
  {
    OpenAt(Tags(texts[b]), at, LoopsBefore(texts, wrap, loop, b))
  }

  lemma {:induction false} ReadPartAt(texts: seq<string>, open: seq<string>, b: nat, catalog: Catalog)
    requires b < |texts|
    ensures ReadPart(texts, open, catalog)[b] == Read(Tags(texts[b]), OpenPart(texts[..b], open), catalog)
  {
    hide Tags, OpenAfter, Read;
    if b > 0 {
      ReadPartAt(texts[1..], OpenAfter(Tags(texts[0]), open), b - 1, catalog);
      assert texts[..b][1..] == texts[1..][..b - 1];
    }
  }

  lemma LoopedAt(texts: seq<string>, loop: string, j: nat)
    requires j < |texts|
    ensures |Looped(texts, loop)| == |texts|
    ensures Looped(texts, loop)[j]
         == (if j == 0 then Braced("#" + loop) else "") + texts[j] + if j + 1 == |texts| then Braced("/" + loop) else ""
    ensures j + 1 < |texts| ==> Looped(texts, loop)[..j + 1] == Opened(texts[..j + 1], loop)
  {
    hide Braced;
  }

  lemma MarkedPrefix(texts: seq<string>, marks: seq<seq<Mark>>, b: nat, open: seq<string>, catalog: Catalog)
    requires WellFormed(catalog) && AllMarkable(texts, marks, catalog) && b <= |texts|
    ensures MarkedTexts(texts, marks)[..b] == MarkedTexts(texts[..b], marks[..b])
    ensures OpenPart(MarkedTexts(texts, marks)[..b], open) == OpenPart(texts[..b], open)
  {
    hide OpenPart, ReadPart, Substituted, WellFormed, AllMarkable;
    MarkableSplit(texts, marks, b, b, catalog);
    MarkedTextsSplit(texts, marks, b, b);
    MarkedPartReads(texts[..b], marks[..b], open, catalog);
  }

  // Inside the row, past its first paragraph.
  lemma RowPrefix(texts: seq<string>, marks: seq<seq<Mark>>, b: nat, loop: string, open: seq<string>, catalog: Catalog)
    requires WellFormed(catalog) && loop in catalog.loops && AllMarkable(texts, marks, catalog) && 0 < b < |texts|
    ensures OpenPart(Looped(MarkedTexts(texts, marks), loop)[..b], open) == OpenPart(texts[..b], open + [loop])
  {
    hide OpenPart, ReadPart, Substituted, AllMarkable, Looped, Opened;
    MarkableSplit(texts, marks, b, b, catalog);
    var marked := MarkedTexts(texts, marks);
    LoopedAt(marked, loop, b - 1);
    MarkedPrefix(texts, marks, b, open + [loop], catalog);
    OpenedReads(marked[..b], loop, open, catalog);
  }

  // What stands in a paragraph of the result, and the loops open where its own text starts.
  lemma FinalParagraph(nodes: seq<seq<string>>, selections: seq<Selection>, rows: seq<Row>, b: nat, a: string, catalog: Catalog)
    requires WellFormed(catalog) && OneTableLoop(catalog) && b < |nodes|
    requires forall r :: 0 <= r < |rows| ==> ValidRow(rows[r], |nodes|)
    requires Accepted(selections, Texts(nodes), rows, catalog) && AllInRange(selections, Texts(nodes))
    ensures var texts, marks, loop := Texts(nodes), PartMarks(selections, Texts(nodes), catalog), TableLoop(catalog);
            var wrap, final := WrapOf(nodes, selections, rows, catalog), Texts(AppliedNodes(nodes, selections, rows, catalog));
            && WrapInside(wrap, |texts|) && |final| == |texts|
            && InOrder(marks[b], 0, |texts[b]|)
            && final[b] == OpeningTag(wrap, loop, b) + Substituted(texts[b], 0, marks[b]) + ClosingTag(wrap, loop, b)
            && OpenAfter(Tags(OpeningTag(wrap, loop, b) + a), OpenPart(final[..b], []))
               == OpenAfter(Tags(a), LoopsBefore(texts, wrap, loop, b))
  {
    hide Accepted, AllMarkable, ReadPart, OpenPart, MarkedNodes, WellFormed, OneTableLoop, ValidRow, AllInRange, BlockMarks, Tags,
         OpenAfter, Substituted, InOrder, MarkedTexts, Looped, WrapOf, OpeningTag, ClosingTag, AppliedNodes, OpenPast;
    var wrap := WrapOf(nodes, selections, rows, catalog);
    if wrap.Wraps? {
      WrappedPartText(nodes, selections, rows, catalog);
      var texts, marks, loop := Texts(nodes), PartMarks(selections, Texts(nodes), catalog), TableLoop(catalog);
      var o, c := wrap.first, wrap.end;
      assert texts == texts[..o] + texts[o..c] + texts[c..] && marks == marks[..o] + marks[o..c] + marks[c..];
      WrappedParagraphText(texts[..o], texts[o..c], texts[c..], marks[..o], marks[o..c], marks[c..], wrap.row, b, loop, catalog);
      WrappedParagraphLoops(texts[..o], texts[o..c], texts[c..], marks[..o], marks[o..c], marks[c..], wrap.row, b, loop, a, catalog);
    } else {
      NoTags(wrap, TableLoop(catalog), b);
      PlainParagraph(nodes, selections, rows, b, a, catalog);
    }
  }

  lemma NoTags(wrap: Wrap, loop: string, b: nat)
    requires !wrap.Wraps?
    ensures OpeningTag(wrap, loop, b) == "" && ClosingTag(wrap, loop, b) == ""
  {
  }

  lemma PlainParagraph(nodes: seq<seq<string>>, selections: seq<Selection>, rows: seq<Row>, b: nat, a: string, catalog: Catalog)
    requires WellFormed(catalog) && OneTableLoop(catalog) && b < |nodes|
    requires forall r :: 0 <= r < |rows| ==> ValidRow(rows[r], |nodes|)
    requires Accepted(selections, Texts(nodes), rows, catalog) && AllInRange(selections, Texts(nodes))
    requires !WrapOf(nodes, selections, rows, catalog).Wraps?
    ensures var texts, marks := Texts(nodes), PartMarks(selections, Texts(nodes), catalog);
            var final := Texts(AppliedNodes(nodes, selections, rows, catalog));
            && |final| == |texts| && InOrder(marks[b], 0, |texts[b]|)
            && final[b] == "" + Substituted(texts[b], 0, marks[b]) + ""
            && OpenAfter(Tags("" + a), OpenPart(final[..b], [])) == OpenAfter(Tags(a), OpenPart(texts[..b], []))
  {
    hide Accepted, AllMarkable, ReadPart, OpenPart, MarkedNodes, WellFormed, OneTableLoop, ValidRow, AllInRange, BlockMarks, Tags,
         OpenAfter, FirstRow, RowHas, RowStart, RowEnd, Braced, Substituted, InOrder;
    var texts, marks := Texts(nodes), PartMarks(selections, Texts(nodes), catalog);
    MarkedNodesText(nodes, selections, rows, catalog);
    PartIsMarkable(selections, texts, rows, catalog);
    MarkedPrefix(texts, marks, b, [], catalog);
    assert "" + a == a;
  }

  // A wrapped row's paragraphs, one after the other.
  lemma WrappedParagraphText(before: seq<string>, row: seq<string>, after: seq<string>,
                             marksBefore: seq<seq<Mark>>, marksRow: seq<seq<Mark>>, marksAfter: seq<seq<Mark>>,
                             r: nat, b: nat, loop: string, catalog: Catalog)
    requires row != [] && b < |before + row + after|
    requires AllMarkable(before, marksBefore, catalog) && AllMarkable(row, marksRow, catalog) && AllMarkable(after, marksAfter, catalog)
    ensures var texts, marks, wrap := before + row + after, marksBefore + marksRow + marksAfter, Wraps(r, |before|, |before + row|);
            var final := MarkedTexts(before, marksBefore) + Looped(MarkedTexts(row, marksRow), loop) + MarkedTexts(after, marksAfter);
            && |final| == |texts| == |marks| && InOrder(marks[b], 0, |texts[b]|)
            && final[b] == OpeningTag(wrap, loop, b) + Substituted(texts[b], 0, marks[b]) + ClosingTag(wrap, loop, b)
  {
    hide Looped, Substituted, Braced, AllFit, Clear;
    var o, c := |before|, |before + row|;
    LoopedAt(MarkedTexts(row, marksRow), loop, if o <= b < c then b - o else 0);
  }

  // The loops open where the paragraph starts, past the opening tag if it is there.
  lemma WrappedParagraphLoops(before: seq<string>, row: seq<string>, after: seq<string>,
                              marksBefore: seq<seq<Mark>>, marksRow: seq<seq<Mark>>, marksAfter: seq<seq<Mark>>,
                              r: nat, b: nat, loop: string, a: string, catalog: Catalog)
    requires WellFormed(catalog) && loop in catalog.loops && row != [] && b < |before + row + after|
    requires AllMarkable(before, marksBefore, catalog) && AllMarkable(row, marksRow, catalog) && AllMarkable(after, marksAfter, catalog)
    ensures var texts, wrap := before + row + after, Wraps(r, |before|, |before + row|);
            var final := MarkedTexts(before, marksBefore) + Looped(MarkedTexts(row, marksRow), loop) + MarkedTexts(after, marksAfter);
            && |final| == |texts|
            && OpenAfter(Tags(OpeningTag(wrap, loop, b) + a), OpenPart(final[..b], []))
               == OpenAfter(Tags(a), LoopsBefore(texts, wrap, loop, b))
  {
    hide ReadPart, OpenPart, OpenPast, WellFormed, Looped, Tags, OpenAfter, Substituted, Braced, Read, AllFit, Clear, MarkedTexts;
    var texts := before + row + after;
    var o, c := |before|, |before + row|;
    assert texts[..o] == before && texts[o..c] == row && "" + a == a;
    MarkedLengths(before, marksBefore, catalog);
    MarkedLengths(row, marksRow, catalog);
    MarkedLengths(after, marksAfter, catalog);
    var x, y, z := MarkedTexts(before, marksBefore), Looped(MarkedTexts(row, marksRow), loop), MarkedTexts(after, marksAfter);
    LoopedAt(MarkedTexts(row, marksRow), loop, 0);
    if b < o {
      MarkedPrefix(before, marksBefore, b, [], catalog);
      assert (x + y + z)[..b] == x[..b] && before[..b] == texts[..b];
    } else {
      MarkedPrefix(before, marksBefore, o, [], catalog);
      assert x[..o] == x && before[..o] == before;
      if b < c {
        assert (x + y + z)[..b] == x + y[..b - o] && row[..b - o] == texts[o..b];
        ReadPartOfTwo(x, y[..b - o], [], catalog);
        if b > o {
          RowPrefix(row, marksRow, b - o, loop, OpenPart(before, []), catalog);
        } else {
          RowStartsOpen(loop, a, y[..0], texts[o..b], OpenPart(before, []), catalog);
        }
      } else {
        assert (x + y + z)[..b] == x + y + z[..b - c] && after[..b - c] == texts[c..b];
        AfterRowLoops(before, row, after, marksRow, marksAfter, x, b - c, loop, catalog);
      }
    }
  }

  lemma MarkedLengths(texts: seq<string>, marks: seq<seq<Mark>>, catalog: Catalog)
    requires AllMarkable(texts, marks, catalog)
    ensures |MarkedTexts(texts, marks)| == |texts|
  {
  }

  lemma AfterRowLoops(before: seq<string>, row: seq<string>, after: seq<string>, marksRow: seq<seq<Mark>>, marksAfter: seq<seq<Mark>>,
                      x: seq<string>, n: nat, loop: string, catalog: Catalog)
    requires WellFormed(catalog) && loop in catalog.loops && row != [] && n <= |after|
    requires AllMarkable(row, marksRow, catalog) && AllMarkable(after, marksAfter, catalog)
    requires OpenPart(x, []) == OpenPart(before, [])
    ensures |MarkedTexts(after, marksAfter)| == |after|
    ensures OpenPart(x + Looped(MarkedTexts(row, marksRow), loop) + MarkedTexts(after, marksAfter)[..n], [])
         == OpenPart(after[..n], OpenPast(before, row, loop, []))
  {
    hide ReadPart, OpenPart, OpenPast, WellFormed, Looped, Substituted, AllFit, Clear;
    var y, z := Looped(MarkedTexts(row, marksRow), loop), MarkedTexts(after, marksAfter);
    RowReads(row, marksRow, loop, OpenPart(before, []), catalog);
    MarkedPrefix(after, marksAfter, n, OpenPast(before, row, loop, []), catalog);
    ReadPartOfTwo(x + y, z[..n], [], catalog);
    ReadPartOfTwo(x, y, [], catalog);
    PastIs(before, row, loop, []);
  }

  lemma PastIs(before: seq<string>, row: seq<string>, loop: string, open: seq<string>)
    ensures OpenPast(before, row, loop, open) == RemoveLast(OpenPart(row, OpenPart(before, open) + [loop]), loop)
  {
  }

  lemma RowStartsOpen(loop: string, a: string, nothing: seq<string>, none: seq<string>, open: seq<string>, catalog: Catalog)
    requires WellFormed(catalog) && loop in catalog.loops && nothing == [] && none == []
    ensures OpenAfter(Tags(Braced("#" + loop) + a), OpenPart(nothing, open)) == OpenAfter(Tags(a), OpenPart(none, open + [loop]))
  {
    OpenedText(a, loop, open, catalog);
  }

  // Where the k-th mark of a paragraph stands in the result.
  function Place(marks: seq<Mark>, k: nat, wrap: Wrap, loop: string, b: nat): int
    requires k < |marks|
  {
    |OpeningTag(wrap, loop, b)| + NewStart(marks, k)
  }

  // For every accepted request and every selection that writes a marker: it stands at its place in the
  // result, the loops open there are those of the part as it was with the row wrapped, and it reads back as
  // its field if and only if it is not a row field or the table loop is the innermost one of them.
  lemma SelectionReadsIff(nodes: seq<seq<string>>, selections: seq<Selection>, i: nat, rows: seq<Row>, catalog: Catalog) returns (k: nat)
    requires WellFormed(catalog) && OneTableLoop(catalog)
    requires forall r :: 0 <= r < |rows| ==> ValidRow(rows[r], |nodes|)
    requires Accepted(selections, Texts(nodes), rows, catalog) && AllInRange(selections, Texts(nodes))
    requires i < |selections| && MarkerFor(selections[i].field, catalog) != ""
    ensures var s, texts, loop := selections[i], Texts(nodes), TableLoop(catalog);
            var wrap, final := WrapOf(nodes, selections, rows, catalog), Texts(AppliedNodes(nodes, selections, rows, catalog));
            && s.block < |texts| == |final| && 0 <= s.start < s.end && WrapInside(wrap, |texts|)
            && var marks := BlockMarks(selections, s.block, texts, catalog);
               && k < |marks| && marks[k] == MarkOf(s, catalog)
               && var at, text := Place(marks, k, wrap, loop, s.block), marks[k].text;
                  && 0 <= at && at + |text| <= |final[s.block]| && final[s.block][at..at + |text|] == text
                  && var open := LoopsHere(texts, wrap, loop, s.block, s.start);
                     && OpenAt(Tags(final[s.block]), at, OpenPart(final[..s.block], [])) == open
                     && (ReadsHere(ReadPart(final, [], catalog)[s.block], at, at + |text|, s.field)
                         <==> (KindOf(s.field, catalog) == Some(RowField) ==> Innermost(open, catalog) == Some(loop)))
  {
    hide Accepted, ReadPart, OpenPart, MarkedNodes, WellFormed, OneTableLoop, ValidRow, AllInRange, BlockMarks, Tags, KindOf, MarkerFor,
         OpenAfter, OpenAt, WrapOf, OpeningTag, ClosingTag, AppliedNodes, LoopsBefore, Innermost, ReadsHere, Read, Substituted, NewStart;
    var texts, loop, s := Texts(nodes), TableLoop(catalog), selections[i];
    k := MarkOfSelection(selections, i, texts, rows, catalog);
    var b := s.block;
    var marks := BlockMarks(selections, b, texts, catalog);
    var wrap, final := WrapOf(nodes, selections, rows, catalog), Texts(AppliedNodes(nodes, selections, rows, catalog));
    BlockIsMarkable(selections, b, texts, rows, catalog);
    var before, rest := AroundMark(texts[b], 0, marks, k);
    FinalParagraph(nodes, selections, rows, b, before, catalog);
    MarkInFinal(texts[b], marks, k, OpeningTag(wrap, loop, b), before, rest, ClosingTag(wrap, loop, b), OpenPart(final[..b], []),
                LoopsBefore(texts, wrap, loop, b), catalog);
    ReadPartAt(final, [], b, catalog);
    PassedKindOf(selections, i, texts, rows, catalog);
    if KindOf(s.field, catalog) == Some(RowField) {
      RowFieldLoop(s.field, catalog);
    }
    ReadBackIff(s.field, LoopsHere(texts, wrap, loop, b, s.start), catalog);
  }

  lemma MarkInFinal(text: string, marks: seq<Mark>, k: nat, opening: string, before: string, rest: string, closing: string,
                    base: seq<string>, here: seq<string>, catalog: Catalog)
    requires WellFormed(catalog) && Markable(text, marks, catalog) && k < |marks|
    requires marks[k].start <= |text| && InOrder(marks[..k], 0, marks[k].start)
    requires before == Substituted(text[..marks[k].start], 0, marks[..k])
    requires OpenAfter(Tags(opening + before), base) == OpenAfter(Tags(before), here)
    ensures var m, at := marks[k], |opening| + |before|;
            var final := opening + (before + m.text + rest) + closing;
            var open := OpenAt(Tags(text), m.start, here);
            && final[at..at + |m.text|] == m.text
            && OpenAt(Tags(final), at, base) == open
            && (ReadsHere(Read(Tags(final), base, catalog), at, at + |m.text|, m.field) <==> ReadBack(m.field, open, catalog) == m.field)
  {
    hide OpenAfter, OpenAt, Tags, ReadsHere, Read, ReadBack, Substituted, WellFormed, Fits;
    var m := marks[k];
    LoopsBeforeMark(text, marks, k, before, here, catalog);
    assert m in marks;
    MarkReadsInPlace(opening + before, m, rest + closing, m.field, base, catalog);
    assert opening + (before + m.text + rest) + closing == (opening + before) + m.text + (rest + closing);
  }

  lemma RowFieldLoop(field: string, catalog: Catalog)
    requires WellFormed(catalog) && OneTableLoop(catalog)
    requires KindOf(field, catalog) == Some(RowField) && MarkerFor(field, catalog) != ""
    ensures IndexOf(field, '.').Some? && field[..IndexOf(field, '.').value] == TableLoop(catalog)
  {
    hide KindOf, MarkerFor, WellFormed;
    var loop, inner := RowFieldParts(field, catalog);
    assert field[..|loop|] == loop;
    assert TableLoop(catalog) == loop;
  }
}
