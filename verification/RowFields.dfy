/** Where the row fields of an accepted request read back, by the tags their row has. */
module RowFields {
  import opened Batching
  import opened Numbering
  import opened GuidedMarking
  import opened MarkerScan
  import opened MarkerReader
  import opened MarkThenRead
  import opened MarkedPart
  import opened Selections
  import opened MarkedDocument
  import opened MarkedReading
  import opened RowLoops

  // ---------- rows whose own tags leave the loop alone ----------

  predicate SteadyBefore(tags: seq<Tag>, at: int, catalog: Catalog) {
    forall t :: t in tags && t.start < at ==> SteadyTag(t.body, catalog)
  }

  predicate SteadyUpTo(texts: seq<string>, from: nat, b: nat, at: int, catalog: Catalog)
    requires b < |texts|
  {
    && (forall q :: from <= q < b ==> Steady(Tags(texts[q]), catalog))
    && SteadyBefore(Tags(texts[b]), at, catalog)
  }

  lemma {:induction false} SteadyBeforeKeeps(tags: seq<Tag>, at: int, open: seq<string>, catalog: Catalog)
    requires SteadyBefore(tags, at, catalog)
    ensures Innermost(OpenAt(tags, at, open), catalog) == Innermost(open, catalog)
  {
    hide SteadyTag, OpenNext, Innermost;
    if tags != [] && tags[0].start < at {
      SteadyKeepsInnermost(tags[0].body, open, catalog);
      SteadyBeforeKeeps(tags[1..], at, OpenNext(tags[0].body, open), catalog);
    }
  }

  lemma {:induction false} SteadyPartKeeps(texts: seq<string>, open: seq<string>, catalog: Catalog)
    requires forall q :: 0 <= q < |texts| ==> Steady(Tags(texts[q]), catalog)
    ensures Innermost(OpenPart(texts, open), catalog) == Innermost(open, catalog)
  {
    hide Steady, Tags, OpenAfter, Innermost;
    if texts != [] {
      SteadyTagsKeepInnermost(Tags(texts[0]), open, catalog);
      SteadyPartKeeps(texts[1..], OpenAfter(Tags(texts[0]), open), catalog);
    }
  }

  // In a row that gets wrapped, a row field reads as itself when no tag of the row before it opens or
  // closes a loop.
  lemma SteadyRowReads(texts: seq<string>, wrap: Wrap, loop: string, b: nat, at: int, catalog: Catalog)
    requires wrap.Wraps? && WrapInside(wrap, |texts|) && wrap.first <= b < wrap.end && loop in catalog.loops
    requires SteadyUpTo(texts, wrap.first, b, at, catalog)
    ensures Innermost(LoopsHere(texts, wrap, loop, b, at), catalog) == Some(loop)
  {
    hide Steady, Tags, OpenPart, OpenAt, SteadyBefore, Innermost;
    var open := OpenPart(texts[..wrap.first], []);
    InnermostPushed(loop, open, catalog);
    SteadyPartKeeps(texts[wrap.first..b], open + [loop], catalog);
    SteadyBeforeKeeps(Tags(texts[b]), at, LoopsBefore(texts, wrap, loop, b), catalog);
  }

  // In a row that repeats already, when the last tag before it that opens or closes a loop is the row's own
  // opening tag, the j-th of paragraph q.
  lemma RepeatedRowReads(texts: seq<string>, wrap: Wrap, loop: string, q: nat, j: nat, b: nat, at: int, catalog: Catalog)
    requires !wrap.Wraps? && b < |texts| && loop in catalog.loops
    requires q < b && j < |Tags(texts[q])| && OpensLoop(Tags(texts[q])[j].body, loop)
    requires Steady(Tags(texts[q])[j + 1..], catalog) && SteadyUpTo(texts, q + 1, b, at, catalog)
    ensures Innermost(LoopsHere(texts, wrap, loop, b, at), catalog) == Some(loop)
  {
    hide Steady, Tags, OpenPart, OpenAt, SteadyBefore, Innermost, OpenAfter, OpensLoop, OpenNext;
    var tags := Tags(texts[q]);
    var here := OpenPart(texts[..q], []);
    assert texts[..b] == texts[..q] + [texts[q]] + texts[q + 1..b];
    ReadPartOfTwo(texts[..q] + [texts[q]], texts[q + 1..b], [], catalog);
    ReadPartOfTwo(texts[..q], [texts[q]], [], catalog);
    OpenPartOfOne(texts[q], here);
    assert tags == tags[..j] + [tags[j]] + tags[j + 1..];
    ReadOfTwo(tags[..j] + [tags[j]], tags[j + 1..], here, catalog);
    ReadOfTwo(tags[..j], [tags[j]], here, catalog);
    OpeningTagOpens(tags[j], loop, OpenAfter(tags[..j], here));
    InnermostPushed(loop, OpenAfter(tags[..j], here), catalog);
    SteadyTagsKeepInnermost(tags[j + 1..], OpenAfter(tags[..j], here) + [loop], catalog);
    SteadyPartKeeps(texts[q + 1..b], OpenPart([texts[q]], here), catalog);
    SteadyBeforeKeeps(Tags(texts[b]), at, OpenPart(texts[..b], []), catalog);
  }

  lemma {:induction false} OpenAtPast(before: seq<Tag>, rest: seq<Tag>, at: int, open: seq<string>)
    requires forall t :: t in before ==> t.start < at
    ensures OpenAt(before + rest, at, open) == OpenAt(rest, at, OpenAfter(before, open))
  {
    hide OpenNext;
    if before == [] {
      assert before + rest == rest;
    } else {
      assert (before + rest)[1..] == before[1..] + rest;
      OpenAtPast(before[1..], rest, at, OpenNext(before[0].body, open));
    }
  }

  // The same when that tag is in the paragraph itself.
  lemma RepeatedHereReads(texts: seq<string>, wrap: Wrap, loop: string, j: nat, b: nat, at: int, catalog: Catalog)
    requires !wrap.Wraps? && b < |texts| && loop in catalog.loops
    requires j < |Tags(texts[b])| && OpensLoop(Tags(texts[b])[j].body, loop)
    requires forall t :: t in Tags(texts[b])[..j + 1] ==> t.start < at
    requires SteadyBefore(Tags(texts[b])[j + 1..], at, catalog)
    ensures Innermost(LoopsHere(texts, wrap, loop, b, at), catalog) == Some(loop)
  {
    hide Tags, OpenPart, OpenAt, SteadyBefore, Innermost, OpenAfter, OpensLoop, OpenNext;
    var tags, open := Tags(texts[b]), OpenPart(texts[..b], []);
    assert tags == tags[..j + 1] + tags[j + 1..] && tags[..j + 1] == tags[..j] + [tags[j]];
    OpenAtPast(tags[..j + 1], tags[j + 1..], at, open);
    ReadOfTwo(tags[..j], [tags[j]], open, catalog);
    OpeningTagOpens(tags[j], loop, OpenAfter(tags[..j], open));
    InnermostPushed(loop, OpenAfter(tags[..j], open), catalog);
    SteadyBeforeKeeps(tags[j + 1..], at, OpenAfter(tags[..j + 1], open), catalog);
  }

  lemma OpenPartOfOne(text: string, open: seq<string>)
    ensures OpenPart([text], open) == OpenAfter(Tags(text), open)
  {
    hide Tags, OpenAfter;
    assert [text][1..] == [];
  }

  lemma OpeningTagOpens(t: Tag, loop: string, open: seq<string>)
    requires OpensLoop(t.body, loop)
    ensures OpenAfter([t], open) == open + [loop]
  {
    assert [t][1..] == [];
  }

  // Every row field of an accepted request whose row is wrapped lies between the loop's tags.
  lemma RowFieldsAreWrapped(nodes: seq<seq<string>>, selections: seq<Selection>, rows: seq<Row>, i: nat, catalog: Catalog)
    requires WellFormed(catalog) && OneTableLoop(catalog) && i < |selections|
    requires forall k :: 0 <= k < |rows| ==> ValidRow(rows[k], |nodes|)
    requires Accepted(selections, Texts(nodes), rows, catalog) && AllInRange(selections, Texts(nodes))
    requires KindOf(selections[i].field, catalog) == Some(RowField)
    ensures var wrap := WrapOf(nodes, selections, rows, catalog);
            !wrap.NoRow? && (wrap.Wraps? ==> wrap.first <= selections[i].block < wrap.end)
  {
    hide Accepted, WellFormed, OneTableLoop, AllInRange, BlockMarks, FirstRow, RowHas, RowStart, RowEnd, MarkedNodes, KindOf, Braced, ValidRow;
    HasRow(selections, i, Texts(nodes), rows, catalog);
    RowFieldsInside(nodes, selections, i, rows, FirstRow(selections, |selections|, rows, catalog).value, TableLoop(catalog), catalog);
  }

  lemma HasRow(selections: seq<Selection>, i: nat, texts: seq<string>, rows: seq<Row>, catalog: Catalog)
    requires Accepted(selections, texts, rows, catalog) && i < |selections| && KindOf(selections[i].field, catalog) == Some(RowField)
    ensures FirstRow(selections, |selections|, rows, catalog).Some?
  {
    hide AllPass, BlockAccepted, FirstRow, KindOf;
    RowFieldsShareTheRow(selections, |selections|, i, texts, rows, catalog);
  }

  // So every row field of a request that wraps its row reads back as its field when the row's own tags
  // before it open and close no loop: an ordinary row, without markers of the loop.
  lemma SteadyRowFieldReads(nodes: seq<seq<string>>, selections: seq<Selection>, rows: seq<Row>, i: nat, catalog: Catalog) returns (k: nat)
    requires WellFormed(catalog) && OneTableLoop(catalog) && i < |selections|
    requires forall r :: 0 <= r < |rows| ==> ValidRow(rows[r], |nodes|)
    requires Accepted(selections, Texts(nodes), rows, catalog) && AllInRange(selections, Texts(nodes))
    requires KindOf(selections[i].field, catalog) == Some(RowField) && MarkerFor(selections[i].field, catalog) != ""
    requires var wrap, b := WrapOf(nodes, selections, rows, catalog), selections[i].block;
             wrap.Wraps? && b < |nodes| && SteadyUpTo(Texts(nodes), wrap.first, b, selections[i].start, catalog)
    ensures var b, texts, final := selections[i].block, Texts(nodes), Texts(AppliedNodes(nodes, selections, rows, catalog));
            var marks := BlockMarks(selections, b, texts, catalog);
            && k < |marks| && marks[k].field == selections[i].field && |final| == |nodes|
            && var at := Place(marks, k, WrapOf(nodes, selections, rows, catalog), TableLoop(catalog), b);
               ReadsHere(ReadPart(final, [], catalog)[b], at, at + |marks[k].text|, selections[i].field)
  {
    hide Accepted, WellFormed, OneTableLoop, AllInRange, BlockMarks, KindOf, MarkerFor, ValidRow, WrapOf, SteadyUpTo, LoopsHere, Innermost, Place,
         OpeningTag, ReadsHere, ReadPart, OpenPart, OpenAt, Tags, AppliedNodes;
    k := SelectionReadsIff(nodes, selections, i, rows, catalog);
    RowFieldsAreWrapped(nodes, selections, rows, i, catalog);
    LoopOfRow(nodes, selections, rows, i, catalog);
    SteadyRowReads(Texts(nodes), WrapOf(nodes, selections, rows, catalog), TableLoop(catalog), selections[i].block, selections[i].start, catalog);
  }

  lemma LoopOfRow(nodes: seq<seq<string>>, selections: seq<Selection>, rows: seq<Row>, i: nat, catalog: Catalog)
    requires WellFormed(catalog) && OneTableLoop(catalog) && i < |selections|
    requires KindOf(selections[i].field, catalog) == Some(RowField) && MarkerFor(selections[i].field, catalog) != ""
    ensures TableLoop(catalog) in catalog.loops
  {
    hide WellFormed, KindOf, MarkerFor;
    var loop, inner := RowFieldParts(selections[i].field, catalog);
    assert TableLoop(catalog) == loop;
  }

  // ---------- a row field that does not read back ----------

  // A one-cell row whose text closes the loop before the year that is marked.
  const CLOSED_BEFORE: seq<seq<string>> := [[Braced("/rows") + "2024"]]
  const YEAR := Selection(0, 7, 11, "rows.year")

  lemma {:induction false} NoTagsInWords(text: string, at: int)
    requires Braceless(text)
    ensures Scan(text, at, None) == []
  {
    if text != "" {
      NoTagsInWords(text[1..], at + 1);
    }
  }

  lemma ClosedBeforeTags()
    ensures Texts(CLOSED_BEFORE) == [Braced("/rows") + "2024"]
    ensures Tags(Braced("/rows") + "2024") == [Tag(0, 7, "/rows")]
  {
    hide Scan;
    ScanOfTwo(Braced("/rows"), "2024", 0, None);
    ScanBraced("/rows", 0, None);
    NoTagsInWords("2024", 7);
    var nodes := CLOSED_BEFORE[0];
    assert nodes[1..] == [] && Flatten(nodes) == Braced("/rows") + "2024" + "";
    assert Texts(CLOSED_BEFORE)[0] == Braced("/rows") + "2024";
    assert Scan(Braced("/rows"), 0, None) + [] == [Tag(0, 7, "/rows")];
  }

  lemma YearIsRowField()
    ensures KindOf("rows.year", LIQUIDATION_FIELDS) == Some(RowField) && MarkerFor("rows.year", LIQUIDATION_FIELDS) == Braced("year")
    ensures IndexOf("rows.year", '.') == Some(4) && OneTableLoop(LIQUIDATION_FIELDS) && TableLoop(LIQUIDATION_FIELDS) == "rows"
  {
    hide Plain, WellFormed, Braced;
    LiquidationIsWellFormed();
    LoopsAreWords();
    assert "rows.year" == "rows" + "." + "year";
    DotPlace("rows.year", "rows", "year");
    DottedIsNoLoop("rows.year", LIQUIDATION_FIELDS);
    RowsIsTheLoop();
  }

  lemma RowsIsTheLoop()
    ensures LIQUIDATION_FIELDS.loops.Keys == {"rows"} && LIQUIDATION_FIELDS.loops["rows"].kind.TableRow?
    ensures "year" in LIQUIDATION_FIELDS.loops["rows"].fields
    ensures OneTableLoop(LIQUIDATION_FIELDS) && TableLoop(LIQUIDATION_FIELDS) == "rows"
  {
    assert LIQUIDATION_FIELDS.loops["rows"].fields[0] == "year";
    assert "rows" in LIQUIDATION_FIELDS.loops;
  }

  lemma YearIsAccepted()
    ensures ValidRow(ONE_CELL, |CLOSED_BEFORE|)
    ensures Accepted([YEAR], Texts(CLOSED_BEFORE), [ONE_CELL], LIQUIDATION_FIELDS)
    ensures FirstRow([YEAR], 1, [ONE_CELL], LIQUIDATION_FIELDS) == Some(0)
    ensures EntriesOf([YEAR], 0, 1) == [Entry(0, YEAR)]
  {
    hide Tags, KindOf, MarkerFor;
    YearIsRowField();
    ClosedBeforeTags();
    var c := 0;
    assert ONE_CELL.cells[c].first <= 0 < ONE_CELL.cells[c].first + ONE_CELL.cells[c].count;
    assert InRow(ONE_CELL, 0);
    assert EntriesOf([YEAR], 0, 0) == [];
    assert FirstRow([YEAR], 0, [ONE_CELL], LIQUIDATION_FIELDS) == None;
    assert RejectionOf([YEAR], 0, Texts(CLOSED_BEFORE), [ONE_CELL], LIQUIDATION_FIELDS).None?;
  }

  lemma YearMark()
    ensures AllInRange([YEAR], Texts(CLOSED_BEFORE))
    ensures BlockMarks([YEAR], 0, Texts(CLOSED_BEFORE), LIQUIDATION_FIELDS) == [Mark(7, 11, Braced("year"), "rows.year")]
  {
    hide Tags, KindOf, MarkerFor, AllPass;
    YearIsRowField();
    YearIsAccepted();
    ClosedBeforeTags();
    AcceptedIsInRange([YEAR], Texts(CLOSED_BEFORE), [ONE_CELL], LIQUIDATION_FIELDS);
    var e := Entry(0, YEAR);
    assert [e][1..] == [];
    assert Sort([e][1..], false) == [];
    assert Sort([e], false) == [e];
    assert MarksOf([e][1..], 11, LIQUIDATION_FIELDS) == [];
  }

  // The text it becomes: the loop closes before the year is read.
  const CLOSED_AFTER: seq<string> := ["#rows", "/rows", "year", "/rows"]

  lemma ClosedAfterText()
    ensures BracedAll(CLOSED_AFTER) == Braced("#rows") + (Braced("/rows") + Braced("year")) + Braced("/rows")
  {
    hide Braced;
    assert CLOSED_AFTER[1..] == ["/rows", "year", "/rows"] && CLOSED_AFTER[1..][1..] == ["year", "/rows"];
    assert CLOSED_AFTER[1..][1..][1..] == ["/rows"] && CLOSED_AFTER[1..][1..][1..][1..] == [];
  }

  lemma ClosedAfterReads()
    ensures Read(Tags(BracedAll(CLOSED_AFTER)), [], LIQUIDATION_FIELDS)
         == [Marker(0, 7, "rows"), Marker(7, 14, "rows"), Marker(14, 20, "year"), Marker(20, 27, "rows")]
  {
    hide Scan, Plain, FieldOf, OpenNext, RemoveLast;
    LoopsAreWords();
    PlainIsBraceless("rows");
    PlainIsBraceless("year");
    assert "#" + "rows" == "#rows" && "/" + "rows" == "/rows";
    ScanBracedAll(CLOSED_AFTER, 0);
    var a, b, c, d := Tag(0, 7, "#rows"), Tag(7, 14, "/rows"), Tag(14, 20, "year"), Tag(20, 27, "/rows");
    assert CLOSED_AFTER[1..] == ["/rows", "year", "/rows"] && CLOSED_AFTER[1..][1..] == ["year", "/rows"];
    assert CLOSED_AFTER[1..][1..][1..] == ["/rows"] && CLOSED_AFTER[1..][1..][1..][1..] == [];
    assert TagList(CLOSED_AFTER, 0) == [a, b, c, d];
    LoopTag("#rows", "rows", [], LIQUIDATION_FIELDS);
    LoopTag("/rows", "rows", ["rows"], LIQUIDATION_FIELDS);
    LoopTag("/rows", "rows", [], LIQUIDATION_FIELDS);
    assert [] + ["rows"] == ["rows"];
    RemovePushed([], "rows");
    InnerOpensNothing("year", []);
    assert FieldOf("year", [], LIQUIDATION_FIELDS) == "year" by {
      NoLoopReads("year");
    }
    FourRead(a, b, c, d, LIQUIDATION_FIELDS);
  }

  lemma FourRead(a: Tag, b: Tag, c: Tag, d: Tag, catalog: Catalog)
    ensures var o1 := OpenNext(a.body, []);
            var o2 := OpenNext(b.body, o1);
            var o3 := OpenNext(c.body, o2);
            Read([a, b, c, d], [], catalog)
            == [Marker(a.start, a.end, FieldOf(a.body, [], catalog)), Marker(b.start, b.end, FieldOf(b.body, o1, catalog)),
                Marker(c.start, c.end, FieldOf(c.body, o2, catalog)), Marker(d.start, d.end, FieldOf(d.body, o3, catalog))]
  {
    hide OpenNext, FieldOf, Read;
    var o1 := OpenNext(a.body, []);
    var o2 := OpenNext(b.body, o1);
    var o3 := OpenNext(c.body, o2);
    ReadCons(a, [b, c, d], [], catalog);
    ReadCons(b, [c, d], o1, catalog);
    ReadCons(c, [d], o2, catalog);
    ReadCons(d, [], o3, catalog);
    assert [a] + [b, c, d] == [a, b, c, d] && [b] + [c, d] == [b, c, d] && [c] + [d] == [c, d] && [d] + [] == [d];
  }

  lemma ReadCons(t: Tag, rest: seq<Tag>, open: seq<string>, catalog: Catalog)
    ensures Read([t] + rest, open, catalog)
         == [Marker(t.start, t.end, FieldOf(t.body, open, catalog))] + Read(rest, OpenNext(t.body, open), catalog)
    ensures Read([], open, catalog) == []
    ensures Read([], OpenNext(t.body, open), catalog) == []
  {
    hide OpenNext, FieldOf;
    assert ([t] + rest)[1..] == rest;
  }

  lemma NoLoopReads(tag: string)
    requires Plain(tag)
    ensures FieldOf(tag, [], LIQUIDATION_FIELDS) == tag
  {
    PlainIsBraceless(tag);
  }

  // The request is accepted and its row is wrapped, and yet the year reads as no field of the loop.
  lemma YearReadsOutsideItsLoop()
    ensures ValidRow(ONE_CELL, |CLOSED_BEFORE|) && OneTableLoop(LIQUIDATION_FIELDS)
    ensures Accepted([YEAR], Texts(CLOSED_BEFORE), [ONE_CELL], LIQUIDATION_FIELDS) && AllInRange([YEAR], Texts(CLOSED_BEFORE))
    ensures Texts(AppliedNodes(CLOSED_BEFORE, [YEAR], [ONE_CELL], LIQUIDATION_FIELDS)) == [BracedAll(CLOSED_AFTER)]
    ensures ReadPart([BracedAll(CLOSED_AFTER)], [], LIQUIDATION_FIELDS)
         == [[Marker(0, 7, "rows"), Marker(7, 14, "rows"), Marker(14, 20, "year"), Marker(20, 27, "rows")]]
  {
    hide Tags, KindOf, MarkerFor, AllPass, Read, BlockMarks, AllInRange, WellFormed, Accepted, RowHas, Braced, MarkedNodes, BracedAll,
         OneTableLoop, WrappedNodes, FirstRow, ValidRow, RowStart, RowEnd, AppliedNodes, ReadPart;
    YearIsRowField();
    YearIsAccepted();
    YearMark();
    YearApplied();
    ClosedAfterPart();
  }

  lemma YearApplied()
    requires ValidRow(ONE_CELL, |CLOSED_BEFORE|) && OneTableLoop(LIQUIDATION_FIELDS) && AllInRange([YEAR], Texts(CLOSED_BEFORE))
    requires Accepted([YEAR], Texts(CLOSED_BEFORE), [ONE_CELL], LIQUIDATION_FIELDS)
    ensures Texts(AppliedNodes(CLOSED_BEFORE, [YEAR], [ONE_CELL], LIQUIDATION_FIELDS)) == [BracedAll(CLOSED_AFTER)]
  {
    hide Tags, BlockMarks, AllInRange, WellFormed, Accepted, Braced, BracedAll, OneTableLoop, ValidRow, AppliedNodes, WrapOf, Substituted,
         OpenPart, OpenAfter, LoopsBefore, OpeningTag, ClosingTag;
    LiquidationIsWellFormed();
    YearIsRowField();
    YearMark();
    ClosedBeforeTags();
    ClosedAfterText();
    YearIsWrapped();
    FinalParagraph(CLOSED_BEFORE, [YEAR], [ONE_CELL], 0, "", LIQUIDATION_FIELDS);
    YearSubstituted();
    YearTags();
    var final := Texts(AppliedNodes(CLOSED_BEFORE, [YEAR], [ONE_CELL], LIQUIDATION_FIELDS));
    assert final == [final[0]];
  }

  lemma YearTags()
    ensures OpeningTag(Wraps(0, 0, 1), "rows", 0) == Braced("#rows") && ClosingTag(Wraps(0, 0, 1), "rows", 0) == Braced("/rows")
  {
    assert "#" + "rows" == "#rows" && "/" + "rows" == "/rows";
  }

  lemma ClosedAfterPart()
    ensures ReadPart([BracedAll(CLOSED_AFTER)], [], LIQUIDATION_FIELDS)
         == [[Marker(0, 7, "rows"), Marker(7, 14, "rows"), Marker(14, 20, "year"), Marker(20, 27, "rows")]]
  {
    hide ReadPart, Read, Tags, BracedAll;
    ClosedAfterReads();
    var text := BracedAll(CLOSED_AFTER);
    ReadPartOfOne(text, [], LIQUIDATION_FIELDS);
  }

  lemma ReadPartOfOne(text: string, open: seq<string>, catalog: Catalog)
    ensures ReadPart([text], open, catalog) == [Read(Tags(text), open, catalog)]
  {
    hide Tags, Read, OpenAfter;
    assert [text][1..] == [];
  }

  lemma YearSubstituted()
    ensures Substituted(Braced("/rows") + "2024", 0, [Mark(7, 11, Braced("year"), "rows.year")]) == Braced("/rows") + Braced("year")
  {
    var m := Mark(7, 11, Braced("year"), "rows.year");
    var text := Braced("/rows") + "2024";
    assert |Braced("/rows")| == 7 && text[0..7] == Braced("/rows");
    assert [m][1..] == [] && text[11..] == "";
  }

  lemma YearIsWrapped()
    requires ValidRow(ONE_CELL, |CLOSED_BEFORE|) && OneTableLoop(LIQUIDATION_FIELDS) && AllInRange([YEAR], Texts(CLOSED_BEFORE))
    ensures WrapOf(CLOSED_BEFORE, [YEAR], [ONE_CELL], LIQUIDATION_FIELDS) == Wraps(0, 0, 1)
  {
    hide Tags, AllPass, BlockMarks, Accepted, Braced, MarkedNodes, OneTableLoop, Includes, WellFormed, FirstRow, RowHas, RowStart, RowEnd, WrapOf;
    LiquidationIsWellFormed();
    YearIsRowField();
    YearIsAccepted();
    WrapIsOfTheOldPart(CLOSED_BEFORE, [YEAR], [ONE_CELL], 0, LIQUIDATION_FIELDS);
    assert "#" + "rows" == "#rows";
    YearRowIsNotSeen();
    YearRowEnds();
  }

  lemma YearRowIsNotSeen()
    requires ValidRow(ONE_CELL, |CLOSED_BEFORE|)
    ensures !RowHas(CLOSED_BEFORE, ONE_CELL, Braced("#rows"))
  {
    hide Tags, Braced, Includes;
    ClosedBeforeTags();
    IncludesBody(Braced("/rows") + "2024", "#rows");
    assert "/rows"[0] != "#rows"[0];
    assert |CLOSED_BEFORE[0]| == 1 && CLOSED_BEFORE[0][0] == Braced("/rows") + "2024";
    assert !HasBody([Tag(0, 7, "/rows")], "#rows");
  }

  lemma YearRowEnds()
    requires ValidRow(ONE_CELL, |CLOSED_BEFORE|)
    ensures RowStart(CLOSED_BEFORE, ONE_CELL) == 0 && RowEnd(CLOSED_BEFORE, ONE_CELL, "rows") == 1
  {
    hide Braced;
    assert "#" + "rows" == "#rows";
    RowEnds(CLOSED_BEFORE, ONE_CELL, Braced("#rows"));
  }
}
