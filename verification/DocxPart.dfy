/** One part of a .docx: its paragraphs' text nodes, edited in place by guided marking. */
module DocxPart {
  import opened Batching
  import opened Numbering
  import opened GuidedMarking
  import opened MarkerScan
  import opened MarkerReader
  import opened MarkedPart
  import opened Selections
  import opened MarkedDocument
  import opened RemovedRows
  import opened RequestLaws
  import opened ReaderLaws

  // ---------- editing in place ----------

  lemma ReplaceFromHead(nodes: seq<string>, from: nat, start: nat, end: nat, replacement: string, written: bool, done: seq<string>)
    requires start < end && nodes != []
    ensures var offset := from + |nodes[0]|;
            if offset <= start || from >= end then
              done + ReplaceFrom(nodes, from, start, end, replacement, written)
              == done + [nodes[0]] + ReplaceFrom(nodes[1..], offset, start, end, replacement, written)
            else
              done + ReplaceFrom(nodes, from, start, end, replacement, written)
              == done + [ReplaceIn(nodes[0], from, start, end, replacement, written)]
                 + ReplaceFrom(nodes[1..], offset, start, end, replacement, true)
  {
  }

  lemma ReadPartNext(texts: seq<string>, open: seq<string>, catalog: Catalog)
    requires texts != []
    ensures ReadPart(texts, open, catalog)
         == [Read(Tags(texts[0]), open, catalog)] + ReadPart(texts[1..], OpenAfter(Tags(texts[0]), open), catalog)
  {
  }

  lemma ReadNext(tags: seq<Tag>, open: seq<string>, catalog: Catalog)
    requires tags != []
    ensures Read(tags, open, catalog)
         == [Marker(tags[0].start, tags[0].end, FieldOf(tags[0].body, open, catalog))]
            + Read(tags[1..], OpenNext(tags[0].body, open), catalog)
    ensures OpenAfter(tags, open) == OpenAfter(tags[1..], OpenNext(tags[0].body, open))
  {
  }

  lemma ReadNothing(open: seq<string>, catalog: Catalog)
    ensures Read([], open, catalog) == [] && OpenAfter([], open) == open
  {
  }

  lemma ReplaceIsFromStart(nodes: seq<string>, mark: Mark)
    requires mark.start < mark.end
    ensures Replace(nodes, mark) == ReplaceFrom(nodes, 0, mark.start, mark.end, mark.text, false)
  {
  }

  lemma ReplaceFromNothing(from: nat, start: nat, end: nat, replacement: string, written: bool)
    requires start < end
    ensures ReplaceFrom([], from, start, end, replacement, written) == []
  {
  }

  // Every block that has some of the first n selections, once, with all of those.
  ghost predicate GroupedUpTo(selections: seq<Selection>, n: nat, order: seq<nat>, groups: map<nat, seq<Entry>>)
    requires n <= |selections|
  {
    && (forall b :: b in groups <==> b in order)
    && (forall b :: b in groups ==> groups[b] == EntriesOf(selections, b, n) != [])
    && (forall b: nat :: b !in groups ==> EntriesOf(selections, b, n) == [])
    && (forall i, k :: 0 <= i < k < |order| ==> order[i] != order[k])
  }

  ghost predicate Grouped(selections: seq<Selection>, order: seq<nat>, groups: map<nat, seq<Entry>>) {
    GroupedUpTo(selections, |selections|, order, groups)
  }

  lemma NothingGrouped(selections: seq<Selection>)
    ensures GroupedUpTo(selections, 0, [], map[])
  {
  }

  lemma OneMoreGrouped(selections: seq<Selection>, n: nat, order: seq<nat>, groups: map<nat, seq<Entry>>)
    requires n < |selections| && GroupedUpTo(selections, n, order, groups)
    ensures var b := selections[n].block;
            GroupedUpTo(selections, n + 1, if b in groups then order else order + [b],
                        groups[b := (if b in groups then groups[b] else []) + [Entry(n, selections[n])]])
  {
    hide EntriesOf;
    var b := selections[n].block;
    var after := groups[b := (if b in groups then groups[b] else []) + [Entry(n, selections[n])]];
    forall c: nat
      ensures EntriesOf(selections, c, n + 1) == if c in after then after[c] else []
    {
      EntriesNext(selections, c, n);
    }
  }

  lemma EntriesNext(selections: seq<Selection>, block: nat, n: nat)
    requires n < |selections|
    ensures EntriesOf(selections, block, n + 1)
         == EntriesOf(selections, block, n) + if selections[n].block == block then [Entry(n, selections[n])] else []
  {
  }

  // Why a request is refused: one of its selections, or one of the rows it leaves out.
  datatype Refusal = OfSelections(error: Rejection) | OfRows(row: RowRejection)

  class Part {
    const rows: seq<Row>
    const catalog: Catalog
    // Every paragraph's text nodes.
    var nodes: seq<seq<string>>

    ghost predicate Valid()
      reads this
    {
      forall r :: 0 <= r < |rows| ==> ValidRow(rows[r], |nodes|)
    }

    constructor (nodes: seq<seq<string>>, rows: seq<Row>, catalog: Catalog)
      requires forall r :: 0 <= r < |rows| ==> ValidRow(rows[r], |nodes|)
      ensures Valid() && this.nodes == nodes && this.rows == rows && this.catalog == catalog
    {
      this.nodes, this.rows, this.catalog := nodes, rows, catalog;
    }

    // Writes the marker in the node that holds the range's first character; the following ones only lose
    // the selected part.
    method ReplaceRange(b: nat, mark: Mark)
      requires b < |nodes| && mark.start < mark.end
      modifies this
      ensures nodes == old(nodes)[b := Replace(old(nodes)[b], mark)]
    {
      hide ReplaceFrom, Replace;
      var offset: nat := 0;
      var written := false;
      ghost var before := nodes[b];
      ReplaceIsFromStart(before, mark);
      for k := 0 to |nodes[b]|
        invariant |nodes| == |old(nodes)| && |nodes[b]| == |before| && forall i :: 0 <= i < |nodes| && i != b ==> nodes[i] == old(nodes)[i]
        invariant nodes[b][k..] == before[k..]
        invariant nodes[b][..k] + ReplaceFrom(before[k..], offset, mark.start, mark.end, mark.text, written) == Replace(before, mark)
      {
        var value := nodes[b][k];
        assert value == nodes[b][k..][0] == before[k..][0];
        var from := offset;
        assert before[k..][1..] == before[k + 1..] == nodes[b][k..][1..];
        ReplaceFromHead(before[k..], from, mark.start, mark.end, mark.text, written, nodes[b][..k]);
        offset := offset + |value|;
        if !(offset <= mark.start || from >= mark.end) {
          var cut := Max(mark.start - from, 0);
          var keep := Min(mark.end - from, |value|);
          SetNode(b, k, value[..cut] + (if written then "" else mark.text) + value[keep..]);
          written := true;
        }
        assert nodes[b][..k + 1] == nodes[b][..k] + [nodes[b][k]];
      }
      assert nodes[b][..|before|] == nodes[b] && before[|before|..] == [];
      ReplaceFromNothing(offset, mark.start, mark.end, mark.text, written);
      assert nodes[b] == Replace(before, mark);
    }

    method SetNode(b: nat, k: nat, text: string)
      requires b < |nodes| && k < |nodes[b]|
      modifies this
      ensures nodes == old(nodes)[b := old(nodes)[b][k := text]]
      ensures nodes[b][..k] == old(nodes)[b][..k] && nodes[b][k + 1..] == old(nodes)[b][k + 1..] && nodes[b][k] == text
    {
      nodes := nodes[b := nodes[b][k := text]];
    }

    // The markers of every paragraph, read in order with the loops left open so far.
    method ExistingMarkers() returns (markers: seq<seq<Marker>>)
      ensures markers == ReadPart(Texts(nodes), [], catalog)
      ensures exists opens :: PartReadRightly(Texts(nodes), [], catalog, opens, markers)
    {
      hide Read, OpenAfter, Tags, ReadPart, Flatten, PartReadRightly;
      ghost var opens := PartReadsRightly(Texts(nodes), [], catalog);
      markers := [];
      var open: seq<string> := [];
      ghost var texts := Texts(nodes);
      for b := 0 to |nodes|
        invariant |markers| == b
        invariant markers + ReadPart(texts[b..], open, catalog) == ReadPart(texts, [], catalog)
      {
        var tags := Tags(Flatten(nodes[b]));
        var found: seq<Marker>;
        ghost var before := open;
        found, open := ReadParagraph(tags, open);
        assert texts[b..][1..] == texts[b + 1..] && texts[b..][0] == Flatten(nodes[b]);
        ReadPartNext(texts[b..], before, catalog);
        markers := markers + [found];
      }
      assert texts[|nodes|..] == [];
    }

    method ReadParagraph(tags: seq<Tag>, open: seq<string>) returns (found: seq<Marker>, after: seq<string>)
      ensures found == Read(tags, open, catalog) && after == OpenAfter(tags, open)
    {
      hide Innermost, RemoveLast, Trim, Read, OpenAfter;
      found, after := [], open;
      for i := 0 to |tags|
        invariant found + Read(tags[i..], after, catalog) == Read(tags, open, catalog)
        invariant OpenAfter(tags[i..], after) == OpenAfter(tags, open)
      {
        assert tags[i..][1..] == tags[i + 1..] && tags[i..][0] == tags[i];
        ReadNext(tags[i..], after, catalog);
        var tag := Trim(tags[i].body);
        var field;
        ghost var before := after;
        if Opens(tag) || Closes(tag) {
          field := LoopName(tag);
          if Opens(tag) {
            after := after + [field];
          } else {
            after := RemoveLast(after, field);
          }
        } else {
          var loop := Innermost(after, catalog);
          if loop.Some? && tag in catalog.loops[loop.value].fields {
            field := if catalog.loops[loop.value].kind.InlineList? then loop.value else loop.value + "." + tag;
          } else {
            field := tag;
          }
        }
        assert field == FieldOf(tags[i].body, before, catalog) && after == OpenNext(tags[i].body, before);
        found := found + [Marker(tags[i].start, tags[i].end, field)];
      }
      assert tags[|tags|..] == [];
      ReadNothing(after, catalog);
    }

    // All the selections of one block, from the end backwards.
    method MarkBlock(b: nat, group: seq<Entry>)
      requires b < |nodes| && InRange(group, |Flatten(nodes[b])|) && AllApart(group)
      modifies this
      ensures InRange(Sort(group, false), |Flatten(old(nodes)[b])|)
      ensures nodes == old(nodes)[b := Image(old(nodes)[b], 0, MarksOf(Sort(group, false), |Flatten(old(nodes)[b])|, catalog))]
    {
      hide Image, Replace, Sort, InOrder, Substituted, MarksOf, MarkerFor, AllApart;
      var sorted := Sort(group, true);
      ghost var before, length := nodes[b], |Flatten(nodes[b])|;
      BlockMarkedAtOnce(before, group, catalog);
      ghost var done: seq<Mark> := [];
      MarksOfNothing(length, catalog);
      for i := 0 to |sorted|
        invariant b < |nodes| && InRange(sorted[..i], length) && done == MarksOf(sorted[..i], length, catalog)
        invariant forall m :: m in done ==> m.start < m.end
        invariant nodes == old(nodes)[b := ReplaceAll(before, done)]
      {
        MarksOfOneMore(sorted, i, length, catalog);
        MarksNonempty(sorted[..i + 1], length, catalog);
        var selection := sorted[i].selection;
        var replacement := MarkerFor(selection.field, catalog);
        if replacement != "" {
          var mark := MarkOf(selection, catalog);
          ReplaceRange(b, mark);
          assert (done + [mark])[..|done|] == done;
          done := done + [mark];
        }
      }
      assert sorted[..|sorted|] == sorted;
    }

    // The checks on each selection by itself and on the row of the row fields.
    method FirstPass(selections: seq<Selection>, texts: seq<string>) returns (error: Option<Rejection>, tableRow: Option<nat>)
      ensures error.None? ==> AllPass(selections, texts, rows, catalog) && tableRow == FirstRow(selections, |selections|, rows, catalog)
      ensures error.Some? ==> Justified(error.value, selections, texts, rows, catalog) && !AllPass(selections, texts, rows, catalog)
      ensures error.None? <==> AllInOrder(selections, |selections|, texts, rows, catalog)
      ensures error.Some? ==> Explains(error.value, selections, texts, rows, catalog)
    {
      hide KindOf, RowOf, AllInOrder, Explains;
      AllPassIff(selections, texts, rows, catalog);
      tableRow := None;
      for i := 0 to |selections|
        invariant tableRow == FirstRow(selections, i, rows, catalog)
        invariant forall j :: 0 <= j < i ==> RejectionOf(selections, j, texts, rows, catalog).None?
      {
        var s := selections[i];
        var kind := KindOf(s.field, catalog);
        error := None;
        if kind.None? {
          error := Some(FieldUnknown(i));
        } else if s.block >= |texts| {
          error := Some(BlockNotFound(i));
        } else if s.start >= s.end {
          error := Some(Empty(i));
        } else if s.start < 0 || s.end > |texts[s.block]| {
          error := Some(OutOfRange(i));
        } else if kind == Some(RowField) {
          var row := RowOf(rows, s.block);
          if row.None? {
            error := Some(RowFieldOutsideTable(i));
          } else if tableRow.None? {
            tableRow := row;
          } else if tableRow != row {
            var sameTable := rows[tableRow.value].table == rows[row.value].table;
            error := Some(if sameTable then RowsInSeveralRows(i) else RowsInSeveralTables(i));
          }
        }
        if error.Some? {
          assert RejectionOf(selections, i, texts, rows, catalog) == error;
          JustifiedExplains(error.value, selections, texts, rows, catalog);
          return;
        }
      }
      error := None;
    }

    // The selections of each block, blocks in order of first appearance.
    method GroupByBlock(selections: seq<Selection>) returns (order: seq<nat>, groups: map<nat, seq<Entry>>)
      ensures Grouped(selections, order, groups)
    {
      hide EntriesOf;
      order, groups := [], map[];
      NothingGrouped(selections);
      for n := 0 to |selections|
        invariant GroupedUpTo(selections, n, order, groups)
      {
        OneMoreGrouped(selections, n, order, groups);
        var b := selections[n].block;
        if b !in groups {
          order := order + [b];
        }
        groups := groups[b := (if b in groups then groups[b] else []) + [Entry(n, selections[n])]];
      }
    }

    // Overlaps inside one block: neighbours once sorted, then the markers it already has.
    method CheckBlock(b: nat, group: seq<Entry>, markers: seq<Marker>) returns (error: Option<Rejection>)
      requires Nonempty(group) && EachOnce(group)
      ensures error.None? <==> AllApart(group) && forall e, t :: e in group && t in markers ==> !Touches(e.selection, t.start, t.end)
      ensures error.Some? ==>
                || (exists d, e :: d in group && e in group && d != e && Overlap(d.selection, e.selection)
                                   && error == Some(SelectionsOverlap(d.index, e.index)))
                || (exists e, t :: e in group && t in markers && Touches(e.selection, t.start, t.end) && error == Some(OverlapsMarker(e.index)))
    {
      hide Sort;
      var sorted := Sort(group, false);
      NeighboursAreEnough(group);
      SortSorts(group, false);
      for i := 0 to |sorted|
        invariant forall k :: 0 <= k < i - 1 ==> !Overlap(sorted[k].selection, sorted[k + 1].selection)
      {
        if i > 0 && Overlap(sorted[i - 1].selection, sorted[i].selection) {
          error := Some(SelectionsOverlap(sorted[i - 1].index, sorted[i].index));
          NeighboursDiffer(group, sorted, i);
          return;
        }
      }
      for j := 0 to |markers|
        invariant forall e, k :: e in group && 0 <= k < j ==> !Touches(e.selection, markers[k].start, markers[k].end)
      {
        for i := 0 to |group|
          invariant forall k :: 0 <= k < i ==> !Touches(group[k].selection, markers[j].start, markers[j].end)
        {
          if Touches(group[i].selection, markers[j].start, markers[j].end) {
            error := Some(OverlapsMarker(group[i].index));
            assert group[i] in group && markers[j] in markers;
            return;
          }
        }
      }
      error := None;
    }

    // Every block's selections against each other and against the markers it has.
    method CheckBlocks(selections: seq<Selection>, order: seq<nat>, groups: map<nat, seq<Entry>>, texts: seq<string>,
                       existing: seq<seq<Marker>>)
      returns (error: Option<Rejection>)
      requires texts == Texts(nodes) && existing == ReadPart(texts, [], catalog)
      requires AllPass(selections, texts, rows, catalog) && Grouped(selections, order, groups)
      ensures error.None? <==> forall b :: 0 <= b < |texts| ==> BlockAccepted(selections, b, texts)
      ensures error.Some? ==> Justified(error.value, selections, texts, rows, catalog)
    {
      hide AllPass, BlockAccepted, ReadPart, EntriesOf, Justified, AllApart, Nonempty, EachOnce, SamePlaces, Touches, Overlap, Tags;
      GroupsAreSound(selections, order, groups, texts, rows, catalog);
      for i := 0 to |order|
        invariant forall k :: 0 <= k < i ==> BlockAccepted(selections, order[k], texts)
      {
        var b := order[i];
        PartPlaces(texts, [], b, catalog);
        error := CheckBlock(b, groups[b], existing[b]);
        CheckedBlock(selections, b, texts, existing[b], rows, catalog, error);
        if error.Some? {
          return;
        }
      }
      OthersAreAccepted(selections, order, groups, texts);
      error := None;
    }

    method MarkBlocks(selections: seq<Selection>, order: seq<nat>, groups: map<nat, seq<Entry>>)
      requires AllPass(selections, Texts(nodes), rows, catalog) && Grouped(selections, order, groups)
      requires forall b :: 0 <= b < |nodes| ==> BlockAccepted(selections, b, Texts(nodes))
      modifies this
      ensures AllInRange(selections, Texts(old(nodes))) && nodes == MarkedNodes(old(nodes), selections, catalog)
    {
      hide AllPass, BlockAccepted, Image, InRange, AllApart, EntriesOf, Sort, Nonempty, EachOnce, MarkedNodes, BlockMarks, AllInRange;
      ghost var texts := Texts(nodes);
      GroupsAreSound(selections, order, groups, texts, rows, catalog);
      AcceptedIsInRange(selections, texts, rows, catalog);
      for i := 0 to |order|
        invariant |nodes| == |texts|
        invariant forall b :: 0 <= b < |texts| ==>
                    nodes[b] == if b in order[..i] then Image(old(nodes)[b], 0, BlockMarks(selections, b, texts, catalog)) else old(nodes)[b]
      {
        var b := order[i];
        assert order[..i + 1] == order[..i] + [b];
        assert b !in order[..i];
        BlockIsReady(selections, b, texts, rows, catalog);
        MarkBlock(b, groups[b]);
        BlockMarksAre(selections, b, texts, catalog);
      }
      assert order[..|order|] == order;
      AllBlocksMarked(old(nodes), nodes, selections, order, groups, catalog);
    }

    // Validates everything, then changes: a refused request leaves the part as it was. The rows to leave
    // out go last.
    method ApplySelections(selections: seq<Selection>, removed: seq<nat>) returns (refusal: Option<Refusal>)
      requires Valid() && OneTableLoop(catalog)
      modifies this
      ensures refusal.None? <==> Acceptable(selections, Texts(old(nodes)), rows, catalog)
                                 && Removable(removed, selections, Texts(old(nodes)), rows)
      ensures refusal.Some? ==> nodes == old(nodes)
                                && match refusal.value
                                   case OfSelections(error) =>
                                     if error == TooMany then |selections| > 500 || |removed| > 500
                                     else Explains(error, selections, Texts(nodes), rows, catalog)
                                   case OfRows(error) => JustifiedRow(error, removed, selections, Texts(nodes), rows)
      ensures refusal.None? ==> AllInRange(selections, Texts(old(nodes)))
                                && nodes == Keep(AppliedNodes(old(nodes), selections, rows, catalog), rows, Named(removed, rows))
    {
      hide AllPass, BlockAccepted, FirstRow, ReadPart, AllInRange, Image, RejectionOf, Touches, Overlap, Tags, RowOf, RowIsMarked, WholeTable, Named,
           Keep, JustifiedRow, Explains, Acceptable, AllInOrder;
      AcceptedIff(selections, Texts(nodes), rows, catalog);
      if |selections| > MAX_SELECTIONS || |removed| > MAX_SELECTIONS {
        return Some(OfSelections(TooMany));
      }
      var error, tableRow := FirstPass(selections, Texts(nodes));
      if error.Some? {
        return Some(OfSelections(error.value));
      }
      var existing := ExistingMarkers();
      SamePlacesEverywhere(Texts(nodes), existing, catalog);
      var rowError, named := RowsToRemove(removed, selections, Texts(nodes), existing, rows);
      if rowError.Some? {
        return Some(OfRows(rowError.value));
      }
      var order, groups := GroupByBlock(selections);
      error := CheckBlocks(selections, order, groups, Texts(nodes), existing);
      if error.Some? {
        JustifiedExplains(error.value, selections, Texts(nodes), rows, catalog);
        return Some(OfSelections(error.value));
      }
      MarkBlocks(selections, order, groups);
      if tableRow.Some? {
        WrapRow(rows[tableRow.value], TableLoop(catalog));
      }
      nodes := RemoveParagraphs(nodes, rows, named);
      refusal := None;
    }

    // The row's loop tags: before its first cell's first text, after its last cell's last text.
    method WrapRow(row: Row, loop: string)
      requires ValidRow(row, |nodes|)
      modifies this
      ensures nodes == WrappedNodes(old(nodes), row, loop)
    {
      hide Includes, Braced, RowHas, RowOpens, RowCloses, Prefixed, Suffixed;
      var repeats := RowRepeats(row, Braced("#" + loop));
      if repeats {
        return;
      }
      var first := FirstText(row);
      PutBefore(first, Braced("#" + loop));
      var last := LastText(row);
      PutAfter(last, Braced("/" + loop));
    }

    // Whether some text node of the row has the tag.
    method RowRepeats(row: Row, tag: string) returns (repeats: bool)
      requires ValidRow(row, |nodes|)
      ensures repeats == RowHas(nodes, row, tag)
    {
      hide Includes, Braced;
      RowSpan(row, |nodes|, 0);
      var last := LastCell(row);
      for b := row.cells[0].first to last.first + last.count
        invariant forall p, k :: row.cells[0].first <= p < b && 0 <= k < |nodes[p]| ==> !Includes(nodes[p][k], tag)
      {
        for k := 0 to |nodes[b]|
          invariant forall j :: 0 <= j < k ==> !Includes(nodes[b][j], tag)
        {
          if Includes(nodes[b][k], tag) {
            return true;
          }
        }
      }
      repeats := false;
    }

    method FirstText(row: Row) returns (b: nat)
      requires ValidRow(row, |nodes|)
      ensures b == RowOpens(nodes, row)
    {
      var cell := row.cells[0];
      var p := cell.first;
      while p < cell.first + cell.count && nodes[p] == []
        invariant cell.first <= p <= cell.first + cell.count
        invariant forall q :: cell.first <= q < p ==> nodes[q] == []
        invariant FirstWithText(nodes, cell, p) == RowOpens(nodes, row)
      {
        p := p + 1;
      }
      b := if p == cell.first + cell.count then cell.first else p;
    }

    method LastText(row: Row) returns (b: nat)
      requires ValidRow(row, |nodes|)
      ensures b == RowCloses(nodes, row)
    {
      var cell := LastCell(row);
      var p := cell.first + cell.count;
      while p > cell.first && nodes[p - 1] == []
        invariant cell.first <= p <= cell.first + cell.count
        invariant forall q :: p <= q < cell.first + cell.count ==> nodes[q] == []
        invariant LastWithText(nodes, cell, p) == RowCloses(nodes, row)
      {
        p := p - 1;
      }
      b := if p == cell.first then cell.first else p - 1;
    }

    method PutBefore(b: nat, tag: string)
      requires b < |nodes|
      modifies this
      ensures nodes == Prefixed(old(nodes), b, tag) && |nodes| == |old(nodes)|
    {
      if nodes[b] == [] {
        nodes := nodes[b := [""]];
        assert tag + "" == tag && nodes[b][0 := tag + ""] == [tag];
      }
      nodes := nodes[b := nodes[b][0 := tag + nodes[b][0]]];
    }

    method PutAfter(b: nat, tag: string)
      requires b < |nodes|
      modifies this
      ensures nodes == Suffixed(old(nodes), b, tag)
    {
      if nodes[b] == [] {
        nodes := nodes[b := [""]];
        assert "" + tag == tag && nodes[b][0 := "" + tag] == [tag];
      }
      var n := |nodes[b]| - 1;
      nodes := nodes[b := nodes[b][n := nodes[b][n] + tag]];
    }
  }

  lemma {:induction false} RowSpan(row: Row, length: nat, c: nat)
    requires ValidRow(row, length) && c < |row.cells|
    ensures row.cells[c].first < LastCell(row).first + LastCell(row).count <= length
    decreases |row.cells| - c
  {
    if c < |row.cells| - 1 {
      RowSpan(row, length, c + 1);
    }
  }

  predicate SamePlaces(markers: seq<Marker>, tags: seq<Tag>) {
    |markers| == |tags| && forall i :: 0 <= i < |tags| ==> markers[i].start == tags[i].start && markers[i].end == tags[i].end
  }

  lemma {:induction false} ReadPlaces(tags: seq<Tag>, open: seq<string>, catalog: Catalog)
    ensures SamePlaces(Read(tags, open, catalog), tags)
  {
    hide FieldOf, OpenNext;
    if tags != [] {
      ReadPlaces(tags[1..], OpenNext(tags[0].body, open), catalog);
    }
  }

  lemma SamePlacesEverywhere(texts: seq<string>, existing: seq<seq<Marker>>, catalog: Catalog)
    requires existing == ReadPart(texts, [], catalog)
    ensures forall b :: 0 <= b < |texts| ==> (existing[b] == [] <==> Tags(texts[b]) == [])
  {
    hide ReadPart, Tags;
    forall b | 0 <= b < |texts|
      ensures existing[b] == [] <==> Tags(texts[b]) == []
    {
      PartPlaces(texts, [], b, catalog);
    }
  }

  lemma {:induction false} PartPlaces(texts: seq<string>, open: seq<string>, b: nat, catalog: Catalog)
    requires b < |texts|
    ensures SamePlaces(ReadPart(texts, open, catalog)[b], Tags(texts[b]))
  {
    hide Read, Tags, OpenAfter;
    var next := OpenAfter(Tags(texts[0]), open);
    if b == 0 {
      ReadPlaces(Tags(texts[0]), open, catalog);
    } else {
      PartPlaces(texts[1..], next, b - 1, catalog);
    }
  }

  lemma GroupsAreSound(selections: seq<Selection>, order: seq<nat>, groups: map<nat, seq<Entry>>, texts: seq<string>, rows: seq<Row>, catalog: Catalog)
    requires AllPass(selections, texts, rows, catalog)
    requires Grouped(selections, order, groups)
    ensures forall k :: 0 <= k < |order| ==>
              order[k] in groups && order[k] < |texts| && Nonempty(groups[order[k]]) && EachOnce(groups[order[k]])
  {
    hide RejectionOf;
    forall k | 0 <= k < |order|
      ensures order[k] in groups && order[k] < |texts| && Nonempty(groups[order[k]]) && EachOnce(groups[order[k]])
    {
      var b := order[k];
      EntriesAre(selections, b, |selections|);
      EntriesAppearOnce(selections, b, |selections|);
      assert groups[b][0] in groups[b];
      PassedIsSound(selections, groups[b][0].index, texts, rows, catalog);
      forall i | 0 <= i < |groups[b]|
        ensures groups[b][i].selection.start < groups[b][i].selection.end
      {
        assert groups[b][i] in groups[b];
        PassedIsSound(selections, groups[b][i].index, texts, rows, catalog);
      }
    }
  }

  lemma PassedIsSound(selections: seq<Selection>, i: nat, texts: seq<string>, rows: seq<Row>, catalog: Catalog)
    requires AllPass(selections, texts, rows, catalog) && i < |selections|
    ensures KindOf(selections[i].field, catalog).Some? && selections[i].block < |texts|
    ensures 0 <= selections[i].start < selections[i].end <= |texts[selections[i].block]|
  {
    hide KindOf, RowOf, FirstRow;
    assert RejectionOf(selections, i, texts, rows, catalog).None?;
  }

  // What the check of one block says about the request.
  lemma CheckedBlock(selections: seq<Selection>, b: nat, texts: seq<string>, markers: seq<Marker>, rows: seq<Row>, catalog: Catalog, error: Option<Rejection>)
    requires b < |texts| && SamePlaces(markers, Tags(texts[b])) && AllPass(selections, texts, rows, catalog)
    requires var group := EntriesOf(selections, b, |selections|);
             && (error.None? <==> AllApart(group) && forall e, t :: e in group && t in markers ==> !Touches(e.selection, t.start, t.end))
             && (error.Some? ==>
                   || (exists d, e :: d in group && e in group && d != e && Overlap(d.selection, e.selection)
                                      && error == Some(SelectionsOverlap(d.index, e.index)))
                   || (exists e, t :: e in group && t in markers && Touches(e.selection, t.start, t.end)
                                      && error == Some(OverlapsMarker(e.index))))
    ensures error.None? <==> BlockAccepted(selections, b, texts)
    ensures error.Some? ==> Justified(error.value, selections, texts, rows, catalog)
  {
    hide AllPass, Tags, AllApart, EntriesOf, Touches, Overlap;
    EntriesAre(selections, b, |selections|);
    var group := EntriesOf(selections, b, |selections|);
    forall e | e in group
      ensures (exists m :: m in markers && Touches(e.selection, m.start, m.end))
         <==> exists t :: t in Tags(texts[b]) && Touches(e.selection, t.start, t.end)
    {
      SameTouches(e.selection, markers, Tags(texts[b]));
    }
  }

  lemma SameTouches(s: Selection, markers: seq<Marker>, tags: seq<Tag>)
    requires SamePlaces(markers, tags)
    ensures (exists m :: m in markers && Touches(s, m.start, m.end)) <==> exists t :: t in tags && Touches(s, t.start, t.end)
  {
    if m :| m in markers && Touches(s, m.start, m.end) {
      var i :| 0 <= i < |markers| && markers[i] == m;
      assert tags[i] in tags;
    }
    if t :| t in tags && Touches(s, t.start, t.end) {
      var i :| 0 <= i < |tags| && tags[i] == t;
      assert markers[i] in markers;
    }
  }

  lemma OthersAreAccepted(selections: seq<Selection>, order: seq<nat>, groups: map<nat, seq<Entry>>, texts: seq<string>)
    requires Grouped(selections, order, groups)
    requires forall k :: 0 <= k < |order| ==> order[k] < |texts| && BlockAccepted(selections, order[k], texts)
    ensures forall b :: 0 <= b < |texts| ==> BlockAccepted(selections, b, texts)
  {
  }

  lemma BlockIsReady(selections: seq<Selection>, b: nat, texts: seq<string>, rows: seq<Row>, catalog: Catalog)
    requires b < |texts| && AllPass(selections, texts, rows, catalog) && BlockAccepted(selections, b, texts)
    ensures InRange(EntriesOf(selections, b, |selections|), |texts[b]|) && AllApart(EntriesOf(selections, b, |selections|))
  {
    EntriesInRange(selections, b, texts, rows, catalog);
  }

  lemma BlockMarksAre(selections: seq<Selection>, b: nat, texts: seq<string>, catalog: Catalog)
    requires b < |texts| && AllInRange(selections, texts)
    ensures InRange(Sort(EntriesOf(selections, b, |selections|), false), |texts[b]|)
    ensures BlockMarks(selections, b, texts, catalog) == MarksOf(Sort(EntriesOf(selections, b, |selections|), false), |texts[b]|, catalog)
  {
  }

  lemma AllBlocksMarked(before: seq<seq<string>>, after: seq<seq<string>>, selections: seq<Selection>, order: seq<nat>, groups: map<nat, seq<Entry>>, catalog: Catalog)
    requires |before| == |after| && AllInRange(selections, Texts(before))
    requires Grouped(selections, order, groups)
    requires forall b :: 0 <= b < |before| ==>
               after[b] == if b in order then Image(before[b], 0, BlockMarks(selections, b, Texts(before), catalog)) else before[b]
    ensures after == MarkedNodes(before, selections, catalog)
  {
    hide Image, InRange, AllInRange;
    forall b | 0 <= b < |before|
      ensures after[b] == Image(before[b], 0, BlockMarks(selections, b, Texts(before), catalog))
    {
      if b !in order {
        ImageOfNothing(before[b], 0);
        BlockMarksAre(selections, b, Texts(before), catalog);
      }
    }
  }

  lemma NeighboursDiffer(group: seq<Entry>, sorted: seq<Entry>, i: nat)
    requires EachOnce(group) && multiset(sorted) == multiset(group) && 0 < i < |sorted|
    ensures sorted[i - 1] in group && sorted[i] in group && sorted[i - 1] != sorted[i]
  {
    assert sorted[i - 1] in multiset(group) && sorted[i] in multiset(group);
    if sorted[i - 1] == sorted[i] {
      TwiceIn(sorted, i - 1, i);
      assert false;
    }
  }

  lemma MarksOfNothing(length: nat, catalog: Catalog)
    ensures MarksOf([], length, catalog) == []
  {
  }
}
