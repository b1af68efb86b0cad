/** The table rows a request leaves out: which can be, and what that changes for the rest of the part. */
module RemovedRows {
  import opened Batching
  import opened Numbering
  import opened GuidedMarking
  import opened MarkerScan
  import opened MarkerReader
  import opened MarkThenRead
  import opened MarkedPart
  import opened Selections
  import opened MarkedDocument
  import opened MarkedReading

  datatype RowRejection =
    | NoSuchBlock(block: nat)
    | OutsideTable(block: nat)
    | HasMarker(block: nat)
    | LastOfTable(block: nat)

  // The rows the blocks name.
  function Named(removed: seq<nat>, rows: seq<Row>): (named: set<nat>)
    ensures forall r :: r in named ==> r < |rows|
  {
    set b | b in removed && RowOf(rows, b).Some? :: RowOf(rows, b).value
  }

  // A paragraph with a marker already, or with a selection.
  predicate HasMark(texts: seq<string>, selections: seq<Selection>, b: nat)
    requires b < |texts|
  {
    Tags(texts[b]) != [] || exists i :: 0 <= i < |selections| && selections[i].block == b
  }

  predicate RowIsMarked(texts: seq<string>, selections: seq<Selection>, rows: seq<Row>, r: nat) {
    exists b :: 0 <= b < |texts| && RowOf(rows, b) == Some(r) && HasMark(texts, selections, b)
  }

  predicate WholeTable(rows: seq<Row>, named: set<nat>, r: nat)
    requires r < |rows|
  {
    forall other :: 0 <= other < |rows| && rows[other].table == rows[r].table ==> other in named
  }

  // Every block names a row, no named row has a marker or is all that is left of its table.
  ghost predicate Removable(removed: seq<nat>, selections: seq<Selection>, texts: seq<string>, rows: seq<Row>) {
    && |removed| <= 500
    && (forall b :: b in removed ==> b < |texts| && RowOf(rows, b).Some?)
    && (forall r :: r in Named(removed, rows) ==>
          !RowIsMarked(texts, selections, rows, r) && !WholeTable(rows, Named(removed, rows), r))
  }

  // What a refusal says is so.
  ghost predicate JustifiedRow(error: RowRejection, removed: seq<nat>, selections: seq<Selection>, texts: seq<string>, rows: seq<Row>) {
    && error.block in removed
    && match error
       case NoSuchBlock(b) => b >= |texts|
       case OutsideTable(b) => b < |texts| && RowOf(rows, b).None?
       case HasMarker(b) => RowOf(rows, b).Some? && RowIsMarked(texts, selections, rows, RowOf(rows, b).value)
       case LastOfTable(b) => RowOf(rows, b).Some? && WholeTable(rows, Named(removed, rows), RowOf(rows, b).value)
  }

  // ---------- the check ----------

  // The rows to leave out, each with the block that named it first.
  method RowsNamed(removed: seq<nat>, texts: seq<string>, rows: seq<Row>)
    returns (error: Option<RowRejection>, order: seq<nat>, namedBy: map<nat, nat>)
    ensures error.None? ==> forall b :: b in removed ==> b < |texts| && RowOf(rows, b).Some?
    ensures error.None? ==> (set r | r in order) == Named(removed, rows)
    ensures error.None? ==> forall r :: r in order ==> r in namedBy && namedBy[r] in removed && RowOf(rows, namedBy[r]) == Some(r)
    ensures error.Some? ==> error.value.block in removed
                            && match error.value
                               case NoSuchBlock(b) => b >= |texts|
                               case OutsideTable(b) => b < |texts| && RowOf(rows, b).None?
                               case _ => false
  {
    hide RowOf;
    error, order, namedBy := None, [], map[];
    for n := 0 to |removed|
      invariant forall b :: b in removed[..n] ==> b < |texts| && RowOf(rows, b).Some?
      invariant forall r :: r in order <==> r in namedBy
      invariant (set r | r in order) == Named(removed[..n], rows)
      invariant forall r :: r in order ==> namedBy[r] in removed && RowOf(rows, namedBy[r]) == Some(r)
    {
      var b := removed[n];
      assert removed[..n + 1] == removed[..n] + [b] && b in removed;
      if b >= |texts| {
        error := Some(NoSuchBlock(b));
        return;
      }
      var row := RowOf(rows, b);
      if row.None? {
        error := Some(OutsideTable(b));
        return;
      }
      OneMoreNamed(removed[..n], b, rows);
      ghost var before := order;
      if row.value !in namedBy {
        order := order + [row.value];
        namedBy := namedBy[row.value := b];
      }
      assert forall r :: r in order <==> r in before || r == row.value;
    }
    assert removed[..|removed|] == removed;
  }

  lemma OneMoreNamed(removed: seq<nat>, b: nat, rows: seq<Row>)
    requires RowOf(rows, b).Some?
    ensures Named(removed + [b], rows) == Named(removed, rows) + {RowOf(rows, b).value}
  {
    hide RowOf;
    assert b in removed + [b];
    assert forall x :: x in removed + [b] <==> x in removed || x == b;
  }

  // The check in the source's order: every block first, then the named rows one after the other.
  method RowsToRemove(removed: seq<nat>, selections: seq<Selection>, texts: seq<string>, existing: seq<seq<Marker>>, rows: seq<Row>)
    returns (error: Option<RowRejection>, named: set<nat>)
    requires |removed| <= MAX_SELECTIONS && |existing| == |texts|
    requires forall b :: 0 <= b < |texts| ==> (existing[b] == [] <==> Tags(texts[b]) == [])
    ensures error.None? <==> Removable(removed, selections, texts, rows)
    ensures error.None? ==> named == Named(removed, rows)
    ensures error.Some? ==> JustifiedRow(error.value, removed, selections, texts, rows)
  {
    hide RowOf, Tags, RowIsMarked, WholeTable;
    var order: seq<nat>, namedBy: map<nat, nat>;
    error, order, namedBy := RowsNamed(removed, texts, rows);
    named := set r | r in order;
    if error.Some? {
      return;
    }
    assert forall i :: 0 <= i < |order| ==> order[i] in named;
    for k := 0 to |order|
      invariant error.None? && named == Named(removed, rows) && forall i :: 0 <= i < |order| ==> order[i] in named
      invariant forall i :: 0 <= i < k ==> !RowIsMarked(texts, selections, rows, order[i]) && !WholeTable(rows, named, order[i])
    {
      var r := order[k];
      var marked := IsMarked(selections, texts, existing, rows, r);
      if marked {
        error := Some(HasMarker(namedBy[r]));
        return;
      }
      var whole := IsWhole(rows, named, r);
      if whole {
        error := Some(LastOfTable(namedBy[r]));
        return;
      }
    }
  }

  method IsMarked(selections: seq<Selection>, texts: seq<string>, existing: seq<seq<Marker>>, rows: seq<Row>, r: nat) returns (marked: bool)
    requires |existing| == |texts|
    requires forall b :: 0 <= b < |texts| ==> (existing[b] == [] <==> Tags(texts[b]) == [])
    ensures marked == RowIsMarked(texts, selections, rows, r)
  {
    hide RowOf, Tags;
    for i := 0 to |selections|
      invariant forall k :: 0 <= k < i && selections[k].block < |texts| ==> RowOf(rows, selections[k].block) != Some(r)
    {
      if selections[i].block < |texts| && RowOf(rows, selections[i].block) == Some(r) {
        assert HasMark(texts, selections, selections[i].block);
        return true;
      }
    }
    for b := 0 to |texts|
      invariant forall k :: 0 <= k < b && RowOf(rows, k) == Some(r) ==> existing[k] == []
    {
      if existing[b] != [] && RowOf(rows, b) == Some(r) {
        assert HasMark(texts, selections, b);
        return true;
      }
    }
    marked := false;
  }

  method IsWhole(rows: seq<Row>, named: set<nat>, r: nat) returns (whole: bool)
    requires r < |rows|
    ensures whole == WholeTable(rows, named, r)
  {
    for other := 0 to |rows|
      invariant forall k :: 0 <= k < other && rows[k].table == rows[r].table ==> k in named
    {
      if rows[other].table == rows[r].table && other !in named {
        return false;
      }
    }
    whole := true;
  }

  // ---------- what is left ----------

  // A paragraph is left out with its row.
  predicate Kept(rows: seq<Row>, named: set<nat>, b: nat) {
    RowOf(rows, b).None? || RowOf(rows, b).value !in named
  }

  function Keep<T>(items: seq<T>, rows: seq<Row>, named: set<nat>): seq<T> {
    if items == [] then []
    else
      var n := |items| - 1;
      Keep(items[..n], rows, named) + if Kept(rows, named, n) then [items[n]] else []
  }

  // Removing the rows one paragraph after the other.
  method RemoveParagraphs(nodes: seq<seq<string>>, rows: seq<Row>, named: set<nat>) returns (left: seq<seq<string>>)
    ensures left == Keep(nodes, rows, named)
  {
    hide RowOf;
    left := [];
    for b := 0 to |nodes|
      invariant left == Keep(nodes[..b], rows, named)
    {
      assert nodes[..b + 1][..b] == nodes[..b];
      if RowOf(rows, b).None? || RowOf(rows, b).value !in named {
        left := left + [nodes[b]];
      }
    }
    assert nodes[..|nodes|] == nodes;
  }

  lemma {:induction false} KeepTexts(nodes: seq<seq<string>>, rows: seq<Row>, named: set<nat>)
    ensures Texts(Keep(nodes, rows, named)) == Keep(Texts(nodes), rows, named)
  {
    hide RowOf, Flatten;
    if nodes == [] {
      assert Texts(nodes) == [];
    } else {
      var n := |nodes| - 1;
      KeepTexts(nodes[..n], rows, named);
      assert Texts(nodes)[..n] == Texts(nodes[..n]);
      var before := Keep(nodes[..n], rows, named);
      assert Texts(before + [nodes[n]]) == Texts(before) + [Flatten(nodes[n])];
    }
  }

  // Paragraphs without markers can go: every other one reads as it did.
  lemma {:induction false} KeepReads(texts: seq<string>, rows: seq<Row>, named: set<nat>, open: seq<string>, catalog: Catalog)
    requires forall b :: 0 <= b < |texts| && !Kept(rows, named, b) ==> Tags(texts[b]) == []
    ensures ReadPart(Keep(texts, rows, named), open, catalog) == Keep(ReadPart(texts, open, catalog), rows, named)
    ensures OpenPart(Keep(texts, rows, named), open) == OpenPart(texts, open)
  {
    hide RowOf, Tags, Read, OpenAfter, ReadPart, OpenPart, Kept;
    if texts == [] {
      NothingToRead(open, catalog);
    } else {
      var n := |texts| - 1;
      var front, last := texts[..n], texts[n];
      assert texts == front + [last];
      KeepReads(front, rows, named, open, catalog);
      ReadPartOfTwo(front, [last], open, catalog);
      OneParagraph(last, OpenPart(front, open), catalog);
      var found := ReadPart(texts, open, catalog);
      assert found[..n] == ReadPart(front, open, catalog);
      assert found[n] == Read(Tags(last), OpenPart(front, open), catalog);
      ReadPartOfTwo(Keep(front, rows, named), [last], open, catalog);
      if !Kept(rows, named, n) {
        NoTagsOpenNothing(OpenPart(front, open));
        assert Keep(texts, rows, named) == Keep(front, rows, named);
        assert Keep(found, rows, named) == Keep(found[..n], rows, named);
      } else {
        assert Keep(texts, rows, named) == Keep(front, rows, named) + [last];
        assert Keep(found, rows, named) == Keep(found[..n], rows, named) + [found[n]];
      }
    }
  }

  lemma NothingToRead(open: seq<string>, catalog: Catalog)
    ensures ReadPart([], open, catalog) == [] && OpenPart([], open) == open
  {
  }

  lemma OneParagraph(text: string, open: seq<string>, catalog: Catalog)
    ensures ReadPart([text], open, catalog) == [Read(Tags(text), open, catalog)]
    ensures OpenPart([text], open) == OpenAfter(Tags(text), open)
  {
    hide Tags, Read, OpenAfter;
    assert [text][1..] == [];
  }

  lemma NoTagsOpenNothing(open: seq<string>)
    ensures OpenAfter([], open) == open
  {
  }

  // ---------- rows left out of an accepted request ----------

  // A paragraph is in one row at most.
  ghost predicate RowsApart(rows: seq<Row>) {
    forall r, s, b: nat :: 0 <= r < |rows| && 0 <= s < |rows| && InRow(rows[r], b) && InRow(rows[s], b) ==> r == s
  }

  lemma {:induction false} FirstRowHasField(selections: seq<Selection>, n: nat, rows: seq<Row>, catalog: Catalog) returns (i: nat)
    requires n <= |selections| && FirstRow(selections, n, rows, catalog).Some?
    ensures i < n && RowOf(rows, selections[i].block) == FirstRow(selections, n, rows, catalog)
  {
    hide RowOf, KindOf;
    if FirstRow(selections, n - 1, rows, catalog).Some? {
      i := FirstRowHasField(selections, n - 1, rows, catalog);
    } else {
      i := n - 1;
    }
  }

  lemma EndsAreInRow(nodes: seq<seq<string>>, row: Row, loop: string)
    requires ValidRow(row, |nodes|)
    ensures InRow(row, RowStart(nodes, row)) && RowEnd(nodes, row, loop) > 0 && InRow(row, RowEnd(nodes, row, loop) - 1)
  {
    var o := RowOpens(nodes, row);
    var withTag := Prefixed(nodes, o, Braced("#" + loop));
    RowOpensIs(nodes, row);
    RowClosesIs(withTag, row);
    var first, last := 0, |row.cells| - 1;
    assert row.cells[first].first <= o < row.cells[first].first + row.cells[first].count;
    var c := RowCloses(withTag, row);
    assert row.cells[last].first <= c < row.cells[last].first + row.cells[last].count;
  }

  // Neither of the loop's tags is written into a row that is left out.
  lemma NoTagsInRemoved(nodes: seq<seq<string>>, selections: seq<Selection>, removed: seq<nat>, rows: seq<Row>, b: nat, catalog: Catalog)
    requires WellFormed(catalog) && OneTableLoop(catalog) && RowsApart(rows) && b < |nodes|
    requires forall r :: 0 <= r < |rows| ==> ValidRow(rows[r], |nodes|)
    requires Accepted(selections, Texts(nodes), rows, catalog) && AllInRange(selections, Texts(nodes))
    requires Removable(removed, selections, Texts(nodes), rows) && !Kept(rows, Named(removed, rows), b)
    ensures var wrap := WrapOf(nodes, selections, rows, catalog);
            OpeningTag(wrap, TableLoop(catalog), b) == "" && ClosingTag(wrap, TableLoop(catalog), b) == ""
  {
    hide Accepted, WellFormed, OneTableLoop, AllInRange, BlockMarks, FirstRow, RowOf, RowHas, RowStart, RowEnd, MarkedNodes, Braced, Tags, InRow;
    var wrap := WrapOf(nodes, selections, rows, catalog);
    if wrap.Wraps? {
      var r := wrap.row;
      var i := FirstRowHasField(selections, |selections|, rows, catalog);
      AcceptedBlock(selections, i, Texts(nodes), rows, catalog);
      assert HasMark(Texts(nodes), selections, selections[i].block);
      assert RowIsMarked(Texts(nodes), selections, rows, r);
      EndsAreInRow(MarkedNodes(nodes, selections, catalog), rows[r], TableLoop(catalog));
      assert InRow(rows[RowOf(rows, b).value], b);
    }
  }

  lemma AcceptedBlock(selections: seq<Selection>, i: nat, texts: seq<string>, rows: seq<Row>, catalog: Catalog)
    requires Accepted(selections, texts, rows, catalog) && i < |selections|
    ensures selections[i].block < |texts|
  {
    hide AllPass, BlockAccepted;
    PassedRange(selections, i, texts, rows, catalog);
  }

  lemma {:induction false} NoEntries(selections: seq<Selection>, b: nat, n: nat)
    requires n <= |selections| && forall i :: 0 <= i < |selections| ==> selections[i].block != b
    ensures EntriesOf(selections, b, n) == []
  {
    if n > 0 {
      NoEntries(selections, b, n - 1);
    }
  }

  lemma NoMarksWithoutSelections(selections: seq<Selection>, b: nat, texts: seq<string>, catalog: Catalog)
    requires b < |texts| && AllInRange(selections, texts) && forall i :: 0 <= i < |selections| ==> selections[i].block != b
    ensures BlockMarks(selections, b, texts, catalog) == []
  {
    hide AllInRange, MarkerFor;
    NoEntries(selections, b, |selections|);
    BlockMarksText(selections, b, texts, catalog);
    assert Sort([], false) == [];
  }

  // A row that is left out has no marker in the result either.
  lemma RemovedHasNoTags(nodes: seq<seq<string>>, selections: seq<Selection>, removed: seq<nat>, rows: seq<Row>, b: nat, catalog: Catalog)
    requires WellFormed(catalog) && OneTableLoop(catalog) && RowsApart(rows) && b < |nodes|
    requires forall r :: 0 <= r < |rows| ==> ValidRow(rows[r], |nodes|)
    requires Accepted(selections, Texts(nodes), rows, catalog) && AllInRange(selections, Texts(nodes))
    requires Removable(removed, selections, Texts(nodes), rows) && !Kept(rows, Named(removed, rows), b)
    ensures |AppliedNodes(nodes, selections, rows, catalog)| == |nodes|
    ensures Texts(AppliedNodes(nodes, selections, rows, catalog))[b] == Texts(nodes)[b] && Tags(Texts(nodes)[b]) == []
  {
    hide Accepted, WellFormed, OneTableLoop, AllInRange, BlockMarks, RowOf, Tags, WrapOf, OpeningTag, ClosingTag, AppliedNodes, RowsApart, WholeTable,
         ValidRow, OpenPart, LoopsBefore, OpenAfter;
    var texts := Texts(nodes);
    FinalParagraph(nodes, selections, rows, b, "", catalog);
    NoTagsInRemoved(nodes, selections, removed, rows, b, catalog);
    var r := RowOf(rows, b).value;
    assert !RowIsMarked(texts, selections, rows, r);
    assert !HasMark(texts, selections, b);
    NoMarksWithoutSelections(selections, b, texts, catalog);
    assert Substituted(texts[b], 0, []) == texts[b];
    assert "" + texts[b] + "" == texts[b];
  }

  // Leaving rows out changes nothing for the others: every paragraph that stays has the text and the
  // markers it has in the marked part with those rows in it.
  lemma RemovedRowsChangeNothingElse(nodes: seq<seq<string>>, selections: seq<Selection>, removed: seq<nat>, rows: seq<Row>, catalog: Catalog)
    requires WellFormed(catalog) && OneTableLoop(catalog) && RowsApart(rows)
    requires forall r :: 0 <= r < |rows| ==> ValidRow(rows[r], |nodes|)
    requires Accepted(selections, Texts(nodes), rows, catalog) && AllInRange(selections, Texts(nodes))
    requires Removable(removed, selections, Texts(nodes), rows)
    ensures var applied, named := AppliedNodes(nodes, selections, rows, catalog), Named(removed, rows);
            && Texts(Keep(applied, rows, named)) == Keep(Texts(applied), rows, named)
            && ReadPart(Texts(Keep(applied, rows, named)), [], catalog) == Keep(ReadPart(Texts(applied), [], catalog), rows, named)
            && OpenPart(Texts(Keep(applied, rows, named)), []) == OpenPart(Texts(applied), [])
  {
    hide Accepted, WellFormed, OneTableLoop, AllInRange, Tags, AppliedNodes, RowsApart, Removable, ValidRow, ReadPart, OpenPart, Keep, Kept;
    var applied, named := AppliedNodes(nodes, selections, rows, catalog), Named(removed, rows);
    KeepTexts(applied, rows, named);
    if nodes != [] {
      SameLength(nodes, selections, rows, catalog);
    }
    forall b | 0 <= b < |applied| && !Kept(rows, named, b)
      ensures Tags(Texts(applied)[b]) == []
    {
      SameLength(nodes, selections, rows, catalog);
      RemovedHasNoTags(nodes, selections, removed, rows, b, catalog);
    }
    KeepReads(Texts(applied), rows, named, [], catalog);
  }

  lemma SameLength(nodes: seq<seq<string>>, selections: seq<Selection>, rows: seq<Row>, catalog: Catalog)
    requires AllInRange(selections, Texts(nodes)) && OneTableLoop(catalog)
    requires forall r :: 0 <= r < |rows| ==> ValidRow(rows[r], |nodes|)
    ensures |AppliedNodes(nodes, selections, rows, catalog)| == |nodes|
  {
    hide RowHas, MarkedNodes, Braced, FirstRow, RowOpens, RowCloses, AllInRange, OneTableLoop;
  }
}
