/** A whole part read back after marking: loops span paragraphs, so the open loops run through all of
    them, and a table row that repeats puts its loop's tags around its own paragraphs. */
module MarkedPart {
  import opened Batching
  import opened Numbering
  import opened GuidedMarking
  import opened MarkerScan
  import opened MarkerReader
  import opened MarkThenRead

  function ReadPart(texts: seq<string>, open: seq<string>, catalog: Catalog): (found: seq<seq<Marker>>)
    ensures |found| == |texts|
  {
    if texts == [] then []
    else
      [Read(Tags(texts[0]), open, catalog)] + ReadPart(texts[1..], OpenAfter(Tags(texts[0]), open), catalog)
  }

  function OpenPart(texts: seq<string>, open: seq<string>): seq<string> {
    if texts == [] then open else OpenPart(texts[1..], OpenAfter(Tags(texts[0]), open))
  }

  lemma {:induction false} ReadPartOfTwo(a: seq<string>, b: seq<string>, open: seq<string>, catalog: Catalog)
    ensures ReadPart(a + b, open, catalog) == ReadPart(a, open, catalog) + ReadPart(b, OpenPart(a, open), catalog)
    ensures OpenPart(a + b, open) == OpenPart(b, OpenPart(a, open))
  {
    hide Read, OpenAfter, Tags;
    if a == [] {
      assert a + b == b;
    } else {
      assert (a + b)[1..] == a[1..] + b;
      ReadPartOfTwo(a[1..], b, OpenAfter(Tags(a[0]), open), catalog);
    }
  }

  // ---------- marking without loop tags ----------

  ghost predicate AllMarkable(texts: seq<string>, marks: seq<seq<Mark>>, catalog: Catalog) {
    |marks| == |texts| && forall b :: 0 <= b < |texts| ==> Markable(texts[b], marks[b], catalog)
  }

  function MarkedTexts(texts: seq<string>, marks: seq<seq<Mark>>): seq<string>
    requires |marks| == |texts| && forall b :: 0 <= b < |texts| ==> InOrder(marks[b], 0, |texts[b]|)
  {
    seq(|texts|, b requires 0 <= b < |texts| => Substituted(texts[b], 0, marks[b]))
  }

  function MergedPart(found: seq<seq<Marker>>, marks: seq<seq<Mark>>): (merged: seq<seq<Marker>>)
    ensures |merged| == |found|
  {
    seq(|found|, b requires 0 <= b < |found| => if b < |marks| then MergedMarkers(found[b], marks[b], 0) else found[b])
  }

  // The marks of every paragraph, each with the field it is read under.
  function PartAsRead(marks: seq<seq<Mark>>, texts: seq<string>, open: seq<string>, catalog: Catalog): (read: seq<seq<Mark>>)
    requires |marks| == |texts|
    ensures |read| == |marks|
  {
    if texts == [] then []
    else
      [AsRead(marks[0], Tags(texts[0]), open, catalog)]
      + PartAsRead(marks[1..], texts[1..], OpenAfter(Tags(texts[0]), open), catalog)
  }

  // The old markers move, each mark reads by the loops open at its place, and the loops stay as they were.
  lemma {:induction false} MarkedPartReads(texts: seq<string>, marks: seq<seq<Mark>>, open: seq<string>, catalog: Catalog)
    requires WellFormed(catalog) && AllMarkable(texts, marks, catalog)
    ensures ReadPart(MarkedTexts(texts, marks), open, catalog)
         == MergedPart(ReadPart(texts, open, catalog), PartAsRead(marks, texts, open, catalog))
    ensures OpenPart(MarkedTexts(texts, marks), open) == OpenPart(texts, open)
  {
    hide WellFormed, Read, OpenAfter, Tags, Substituted, MergedMarkers, AllFit, Clear, AsRead;
    if texts != [] {
      var next := OpenAfter(Tags(texts[0]), open);
      ReadOfParagraph(texts[0], marks[0], open, catalog);
      MarkedPartReads(texts[1..], marks[1..], next, catalog);
      var marked := MarkedTexts(texts, marks);
      assert marked[1..] == MarkedTexts(texts[1..], marks[1..]);
      var found, read := ReadPart(texts, open, catalog), PartAsRead(marks, texts, open, catalog);
      assert found[1..] == ReadPart(texts[1..], next, catalog);
      assert read[1..] == PartAsRead(marks[1..], texts[1..], next, catalog);
      assert MergedPart(found, read) == [MergedMarkers(found[0], read[0], 0)] + MergedPart(found[1..], read[1..]);
    }
  }

  lemma {:induction false} PartAsReadAt(marks: seq<seq<Mark>>, texts: seq<string>, open: seq<string>, b: nat, catalog: Catalog)
    requires |marks| == |texts| && b < |texts|
    ensures PartAsRead(marks, texts, open, catalog)[b] == AsRead(marks[b], Tags(texts[b]), OpenPart(texts[..b], open), catalog)
  {
    hide Tags, OpenAfter, AsRead;
    if b > 0 {
      PartAsReadAt(marks[1..], texts[1..], OpenAfter(Tags(texts[0]), open), b - 1, catalog);
      assert texts[..b][1..] == texts[1..][..b - 1];
    }
  }

  // ---------- a row that repeats ----------

  // {#loop} before the row's first text, {/loop} after its last.
  function Opened(texts: seq<string>, loop: string): seq<string>
    requires texts != []
  {
    texts[0 := Braced("#" + loop) + texts[0]]
  }

  function Closed(texts: seq<string>, loop: string): seq<string>
    requires texts != []
  {
    texts[|texts| - 1 := texts[|texts| - 1] + Braced("/" + loop)]
  }

  function Looped(texts: seq<string>, loop: string): seq<string>
    requires texts != []
  {
    Closed(Opened(texts, loop), loop)
  }

  function OpenedMarkers(row: seq<seq<Marker>>, loop: string): seq<seq<Marker>>
    requires row != []
  {
    row[0 := [Marker(0, |loop| + 3, loop)] + MovedMarkers(row[0], |loop| + 3)]
  }

  function ClosedMarkers(row: seq<seq<Marker>>, loop: string, at: nat): seq<seq<Marker>>
    requires row != []
  {
    row[|row| - 1 := row[|row| - 1] + [Marker(at, at + |loop| + 3, loop)]]
  }

  lemma OpenedText(text: string, loop: string, open: seq<string>, catalog: Catalog)
    requires Plain(loop)
    ensures var tags := Tags(Braced("#" + loop) + text);
            && Read(tags, open, catalog)
            == [Marker(0, |loop| + 3, loop)] + MovedMarkers(Read(Tags(text), open + [loop], catalog), |loop| + 3)
            && OpenAfter(tags, open) == OpenAfter(Tags(text), open + [loop])
  {
    hide Plain, Scan, FieldOf;
    PlainIsBraceless(loop);
    var tag := "#" + loop;
    ScanOfTwo(Braced(tag), text, 0, None);
    ScanBraced(tag, 0, None);
    BracedLength(tag);
    ScanMoved(text, 0, None, |loop| + 3);
    ReadMoved(Tags(text), |loop| + 3, open + [loop], catalog);
    assert tag[1..] == loop;
    var first := [Tag(0, |loop| + 3, tag)];
    assert Tags(Braced(tag) + text) == first + MoveAll(Tags(text), |loop| + 3);
    ReadOfTwo(first, MoveAll(Tags(text), |loop| + 3), open, catalog);
    LoopTag(tag, loop, open, catalog);
  }

  lemma ClosedText(text: string, loop: string, open: seq<string>, catalog: Catalog)
    requires Plain(loop)
    ensures var tags := Tags(text + Braced("/" + loop));
            && Read(tags, open, catalog) == Read(Tags(text), open, catalog) + [Marker(|text|, |text| + |loop| + 3, loop)]
            && OpenAfter(tags, open) == RemoveLast(OpenAfter(Tags(text), open), loop)
  {
    hide Plain, Scan, Tags, Read, OpenAfter, RemoveLast;
    var last := [Tag(|text|, |text| + |loop| + 3, "/" + loop)];
    ClosedTags(text, loop);
    ReadOfTwo(Tags(text), last, open, catalog);
    OneLoopTag(last[0], loop, OpenAfter(Tags(text), open), catalog);
  }

  lemma ClosedTags(text: string, loop: string)
    requires Plain(loop)
    ensures Tags(text + Braced("/" + loop)) == Tags(text) + [Tag(|text|, |text| + |loop| + 3, "/" + loop)]
  {
    hide Plain, Scan;
    PlainIsBraceless(loop);
    ScanOfTwo(text, Braced("/" + loop), 0, None);
    ScanBraced("/" + loop, |text|, PendingAfter(text, None));
  }

  lemma OneLoopTag(t: Tag, loop: string, open: seq<string>, catalog: Catalog)
    requires Plain(loop) && t.body == "/" + loop
    ensures Read([t], open, catalog) == [Marker(t.start, t.end, loop)]
    ensures OpenAfter([t], open) == RemoveLast(open, loop)
  {
    hide Plain, FieldOf, OpenNext, RemoveLast;
    LoopTag(t.body, loop, open, catalog);
  }

  lemma LoopTag(tag: string, loop: string, open: seq<string>, catalog: Catalog)
    requires Plain(loop) && (tag == "#" + loop || tag == "/" + loop)
    ensures FieldOf(tag, open, catalog) == loop
    ensures OpenNext(tag, open) == if tag[0] == '#' then open + [loop] else RemoveLast(open, loop)
  {
    hide Plain;
    PlainIsBraceless(loop);
    assert tag[1..] == loop;
  }

  lemma OpenedReads(texts: seq<string>, loop: string, open: seq<string>, catalog: Catalog)
    requires texts != [] && Plain(loop)
    ensures ReadPart(Opened(texts, loop), open, catalog) == OpenedMarkers(ReadPart(texts, open + [loop], catalog), loop)
    ensures OpenPart(Opened(texts, loop), open) == OpenPart(texts, open + [loop])
  {
    hide Plain, Read, OpenAfter, Tags, Braced;
    OpenedText(texts[0], loop, open, catalog);
    assert Opened(texts, loop)[1..] == texts[1..];
  }

  lemma ClosedReads(texts: seq<string>, loop: string, open: seq<string>, catalog: Catalog)
    requires texts != [] && Plain(loop)
    ensures ReadPart(Closed(texts, loop), open, catalog)
         == ClosedMarkers(ReadPart(texts, open, catalog), loop, |texts[|texts| - 1]|)
    ensures OpenPart(Closed(texts, loop), open) == RemoveLast(OpenPart(texts, open), loop)
  {
    hide Plain, Read, OpenAfter, Tags, Braced;
    var n := |texts| - 1;
    var front, last := texts[..n], texts[n];
    ClosedText(last, loop, OpenPart(front, open), catalog);
    assert texts == front + [last];
    assert Closed(texts, loop) == front + [last + Braced("/" + loop)];
    ReadPartOfTwo(front, [last], open, catalog);
    ReadPartOfTwo(front, [last + Braced("/" + loop)], open, catalog);
  }

  // ---------- the loops a row leaves open ----------

  // How many of the open loops have this name.
  function Depth(open: seq<string>, loop: string): nat {
    if open == [] then 0 else Depth(open[..|open| - 1], loop) + if open[|open| - 1] == loop then 1 else 0
  }

  function Max0(n: int): nat {
    if n > 0 then n else 0
  }

  // How many of the loop's closing tags find none of the loop open, `depth` being open before.
  function Unmatched(tags: seq<Tag>, depth: nat, loop: string): nat {
    if tags == [] then 0
    else if ClosesLoop(tags[0].body, loop) && depth == 0 then 1 + Unmatched(tags[1..], 0, loop)
    else Unmatched(tags[1..], DepthNext(tags[0].body, depth, loop), loop)
  }

  predicate OpensLoop(body: string, loop: string) {
    Opens(Trim(body)) && LoopName(Trim(body)) == loop
  }

  predicate ClosesLoop(body: string, loop: string) {
    Closes(Trim(body)) && LoopName(Trim(body)) == loop
  }

  function DepthNext(body: string, depth: nat, loop: string): nat {
    if OpensLoop(body, loop) then depth + 1 else if ClosesLoop(body, loop) then Max0(depth - 1) else depth
  }

  lemma {:induction false} DepthWithout(open: seq<string>, name: string, loop: string)
    ensures Depth(RemoveLast(open, name), loop) == if name == loop then Max0(Depth(open, loop) - 1) else Depth(open, loop)
  {
    if open != [] {
      var n := |open| - 1;
      DepthWithout(open[..n], name, loop);
      var rest := RemoveLast(open[..n], name);
      assert (rest + [open[n]])[..|rest|] == rest;
    }
  }

  lemma DepthOfNext(body: string, open: seq<string>, loop: string)
    ensures Depth(OpenNext(body, open), loop) == DepthNext(body, Depth(open, loop), loop)
  {
    hide Trim;
    var tag := Trim(body);
    if Opens(tag) {
      assert (open + [LoopName(tag)])[..|open|] == open;
    } else if Closes(tag) {
      DepthWithout(open, LoopName(tag), loop);
    }
  }

  // From a depth `extra` higher, a text ends as much higher less its unmatched closing tags.
  lemma {:induction false} DepthsAfter(tags: seq<Tag>, inner: seq<string>, outer: seq<string>, extra: nat, loop: string)
    requires Depth(inner, loop) == Depth(outer, loop) + extra
    ensures Depth(OpenAfter(tags, inner), loop)
         == Depth(OpenAfter(tags, outer), loop) + Max0(extra - Unmatched(tags, Depth(outer, loop), loop))
  {
    hide Depth, OpenNext, Trim;
    if tags != [] {
      var body := tags[0].body;
      DepthOfNext(body, inner, loop);
      DepthOfNext(body, outer, loop);
      var a, b := OpenNext(body, inner), OpenNext(body, outer);
      DepthsAfter(tags[1..], a, b, Depth(a, loop) - Depth(b, loop), loop);
    }
  }

  // The tags of consecutive paragraphs.
  function PartTags(texts: seq<string>): seq<Tag> {
    if texts == [] then [] else Tags(texts[0]) + PartTags(texts[1..])
  }

  lemma {:induction false} OpenPartIs(texts: seq<string>, open: seq<string>, catalog: Catalog)
    ensures OpenPart(texts, open) == OpenAfter(PartTags(texts), open)
  {
    hide Tags, OpenNext;
    if texts != [] {
      OpenPartIs(texts[1..], OpenAfter(Tags(texts[0]), open), catalog);
      ReadOfTwo(Tags(texts[0]), PartTags(texts[1..]), open, catalog);
    }
  }

  lemma DepthPushed(open: seq<string>, name: string, loop: string)
    ensures Depth(open + [name], loop) == Depth(open, loop) + if name == loop then 1 else 0
  {
    assert (open + [name])[..|open|] == open;
  }

  // The tags put around a row leave what is open after it as it was if and only if every closing tag of
  // the row's loop in it closes one opened before, or none of the loop is open after the row anyway.
  lemma RowLeavesLoopsAsTheyWere(row: seq<string>, outer: seq<string>, loop: string, other: string, catalog: Catalog)
    ensures var wrapped, plain := RemoveLast(OpenPart(row, outer + [loop]), loop), OpenPart(row, outer);
            && (other != loop ==> Depth(wrapped, other) == Depth(plain, other))
            && (Depth(wrapped, loop) == Depth(plain, loop)
                <==> Unmatched(PartTags(row), Depth(outer, loop), loop) == 0 || Depth(plain, loop) == 0)
            && (Depth(wrapped, loop) == Depth(plain, loop) || Depth(wrapped, loop) == Depth(plain, loop) - 1)
  {
    hide PartTags, OpenPart, Unmatched, RemoveLast, OpenAfter, Depth;
    OpenPartIs(row, outer, catalog);
    OpenPartIs(row, outer + [loop], catalog);
    DepthPushed(outer, loop, loop);
    DepthPushed(outer, loop, other);
    DepthsAfter(PartTags(row), outer + [loop], outer, 1, loop);
    DepthWithout(OpenPart(row, outer + [loop]), loop, loop);
    if other != loop {
      DepthsAfter(PartTags(row), outer + [loop], outer, 0, other);
      DepthWithout(OpenPart(row, outer + [loop]), loop, other);
    }
  }

  ghost predicate OnlyLoop(catalog: Catalog, loop: string) {
    catalog.loops.Keys == {loop}
  }

  lemma {:induction false} InnermostByDepth(open: seq<string>, loop: string, catalog: Catalog)
    requires OnlyLoop(catalog, loop)
    ensures Innermost(open, catalog) == if Depth(open, loop) > 0 then Some(loop) else None
  {
    if open != [] {
      assert open[|open| - 1] in catalog.loops.Keys <==> open[|open| - 1] == loop;
      InnermostByDepth(open[..|open| - 1], loop, catalog);
    }
  }

  lemma {:induction false} SameDepthReads(tags: seq<Tag>, a: seq<string>, b: seq<string>, loop: string, catalog: Catalog)
    requires OnlyLoop(catalog, loop) && Depth(a, loop) == Depth(b, loop)
    ensures Read(tags, a, catalog) == Read(tags, b, catalog)
    ensures Depth(OpenAfter(tags, a), loop) == Depth(OpenAfter(tags, b), loop)
  {
    hide Depth, OpenNext, Innermost, Trim, OnlyLoop;
    if tags != [] {
      var body := tags[0].body;
      InnermostByDepth(a, loop, catalog);
      InnermostByDepth(b, loop, catalog);
      DepthOfNext(body, a, loop);
      DepthOfNext(body, b, loop);
      SameDepthReads(tags[1..], OpenNext(body, a), OpenNext(body, b), loop, catalog);
    }
  }

  // With one loop in the catalog, only how often it is open matters to what follows.
  lemma {:induction false} SameDepthReadsPart(texts: seq<string>, a: seq<string>, b: seq<string>, loop: string, catalog: Catalog)
    requires OnlyLoop(catalog, loop) && Depth(a, loop) == Depth(b, loop)
    ensures ReadPart(texts, a, catalog) == ReadPart(texts, b, catalog)
  {
    hide Depth, Read, OpenAfter, Tags, OnlyLoop;
    if texts != [] {
      SameDepthReads(Tags(texts[0]), a, b, loop, catalog);
      SameDepthReadsPart(texts[1..], OpenAfter(Tags(texts[0]), a), OpenAfter(Tags(texts[0]), b), loop, catalog);
    }
  }

  lemma InnerTagAlone(inner: string, open: seq<string>, catalog: Catalog)
    requires Plain(inner)
    ensures ReadPart([Braced(inner)], open, catalog) == [[Marker(0, |inner| + 2, FieldOf(inner, open, catalog))]]
  {
    hide Scan, FieldOf;
    PlainIsBraceless(inner);
    ScanBraced(inner, 0, None);
    OneTagRead(Tag(0, |inner| + 2, inner), inner, open, catalog);
    assert [Braced(inner)][1..] == [];
  }

  lemma ClosingTagAlone(loop: string, after: seq<string>, open: seq<string>, catalog: Catalog)
    requires Plain(loop)
    ensures ReadPart([Braced("/" + loop)] + after, open, catalog)[1..] == ReadPart(after, RemoveLast(open, loop), catalog)
  {
    hide Plain, Read;
    ClosedTags("", loop);
    assert "" + Braced("/" + loop) == Braced("/" + loop) && Tags("") == [];
    var tag := Tag(0, |loop| + 3, "/" + loop);
    assert Tags(Braced("/" + loop)) == [tag];
    OneLoopTag(tag, loop, open, catalog);
    assert ([Braced("/" + loop)] + after)[1..] == after;
  }

  // Where the loop is open once more often, some text reads differently.
  lemma {:induction false} DepthShows(a: seq<string>, b: seq<string>, loop: string, catalog: Catalog) returns (after: seq<string>)
    requires WellFormed(catalog) && OnlyLoop(catalog, loop) && Depth(b, loop) == Depth(a, loop) + 1
    requires catalog.loops[loop].kind.TableRow? && catalog.loops[loop].fields != []
    ensures ReadPart(after, a, catalog) != ReadPart(after, b, catalog)
    decreases Depth(b, loop)
  {
    hide Depth, ReadPart, FieldOf, OnlyLoop, Innermost, Plain, RemoveLast, Braced;
    OnlyLoopIsPlain(catalog, loop);
    if Depth(a, loop) == 0 {
      var inner := catalog.loops[loop].fields[0];
      after := [Braced(inner)];
      InnermostByDepth(a, loop, catalog);
      InnermostByDepth(b, loop, catalog);
      RowFieldOf(loop, inner, a, catalog);
      RowFieldOf(loop, inner, b, catalog);
      InnerTagAlone(inner, a, catalog);
      InnerTagAlone(inner, b, catalog);
      assert ReadPart(after, a, catalog)[0][0] != ReadPart(after, b, catalog)[0][0];
    } else {
      DepthWithout(a, loop, loop);
      DepthWithout(b, loop, loop);
      var rest := DepthShows(RemoveLast(a, loop), RemoveLast(b, loop), loop, catalog);
      after := [Braced("/" + loop)] + rest;
      ClosingTagAlone(loop, rest, a, catalog);
      ClosingTagAlone(loop, rest, b, catalog);
    }
  }

  lemma OnlyLoopIsPlain(catalog: Catalog, loop: string)
    requires WellFormed(catalog) && OnlyLoop(catalog, loop)
    ensures loop in catalog.loops && Plain(loop)
    ensures forall field :: field in catalog.loops[loop].fields ==> Plain(field)
  {
    hide Plain;
    assert loop in catalog.loops.Keys;
  }

  // So every text after the row reads as it did before the row was wrapped, if and only if every closing
  // tag of the loop in the row closes one opened before, or none of the loop was open after the row.
  lemma AfterRowReadsAsBeforeIff(row: seq<string>, outer: seq<string>, loop: string, catalog: Catalog)
    requires WellFormed(catalog) && OnlyLoop(catalog, loop)
    requires catalog.loops[loop].kind.TableRow? && catalog.loops[loop].fields != []
    ensures (forall after :: ReadPart(after, RemoveLast(OpenPart(row, outer + [loop]), loop), catalog)
                             == ReadPart(after, OpenPart(row, outer), catalog))
       <==> Unmatched(PartTags(row), Depth(outer, loop), loop) == 0 || Depth(OpenPart(row, outer), loop) == 0
  {
    hide Depth, ReadPart, OpenPart, RemoveLast, Unmatched, PartTags, WellFormed, OnlyLoop;
    var wrapped, plain := RemoveLast(OpenPart(row, outer + [loop]), loop), OpenPart(row, outer);
    RowLeavesLoopsAsTheyWere(row, outer, loop, loop, catalog);
    if Depth(wrapped, loop) == Depth(plain, loop) {
      forall after
        ensures ReadPart(after, wrapped, catalog) == ReadPart(after, plain, catalog)
      {
        SameDepthReadsPart(after, wrapped, plain, loop, catalog);
      }
    } else {
      var after := DepthShows(wrapped, plain, loop, catalog);
    }
  }

  // ---------- marking with a row that repeats ----------

  // The markers of a repeated row: its loop's tags around what its own paragraphs read inside the loop.
  function RowMarkers(row: seq<seq<Marker>>, loop: string, texts: seq<string>): seq<seq<Marker>>
    requires row != [] && texts != []
  {
    ClosedMarkers(OpenedMarkers(row, loop), loop, |Opened(texts, loop)[|texts| - 1]|)
  }

  lemma RowReads(texts: seq<string>, marks: seq<seq<Mark>>, loop: string, open: seq<string>, catalog: Catalog)
    requires WellFormed(catalog) && loop in catalog.loops && texts != [] && AllMarkable(texts, marks, catalog)
    ensures var marked := MarkedTexts(texts, marks);
            && ReadPart(Looped(marked, loop), open, catalog)
            == RowMarkers(MergedPart(ReadPart(texts, open + [loop], catalog), PartAsRead(marks, texts, open + [loop], catalog)), loop, marked)
            && OpenPart(Looped(marked, loop), open) == RemoveLast(OpenPart(texts, open + [loop]), loop)
  {
    hide ReadPart, OpenPart, MergedPart, OpenedMarkers, ClosedMarkers, RemoveLast, Substituted, PartAsRead;
    var marked := MarkedTexts(texts, marks);
    MarkedPartReads(texts, marks, open + [loop], catalog);
    OpenedReads(marked, loop, open, catalog);
    ClosedReads(Opened(marked, loop), loop, open, catalog);
  }

  // The loops open after a wrapped row.
  function OpenPast(before: seq<string>, row: seq<string>, loop: string, open: seq<string>): seq<string> {
    RemoveLast(OpenPart(row, OpenPart(before, open) + [loop]), loop)
  }

  // Mark, then read. Before the row every paragraph reads as it did, its old markers moved; in the row and
  // after it, as it does with the row's loop opened and closed around it; every mark by the loops open at
  // its place.
  lemma MarkedPartWithRowReads(before: seq<string>, row: seq<string>, after: seq<string>,
                               marksBefore: seq<seq<Mark>>, marksRow: seq<seq<Mark>>, marksAfter: seq<seq<Mark>>,
                               loop: string, open: seq<string>, catalog: Catalog)
    requires WellFormed(catalog) && loop in catalog.loops && row != []
    requires AllMarkable(before, marksBefore, catalog) && AllMarkable(row, marksRow, catalog) && AllMarkable(after, marksAfter, catalog)
    ensures var inside, past := OpenPart(before, open) + [loop], OpenPast(before, row, loop, open);
            && ReadPart(MarkedTexts(before, marksBefore) + Looped(MarkedTexts(row, marksRow), loop) + MarkedTexts(after, marksAfter),
                        open, catalog)
               == MergedPart(ReadPart(before, open, catalog), PartAsRead(marksBefore, before, open, catalog))
                  + RowMarkers(MergedPart(ReadPart(row, inside, catalog), PartAsRead(marksRow, row, inside, catalog)), loop,
                               MarkedTexts(row, marksRow))
                  + MergedPart(ReadPart(after, past, catalog), PartAsRead(marksAfter, after, past, catalog))
  {
    hide ReadPart, OpenPart, MergedPart, Opened, Closed, RowMarkers, PartAsRead, RemoveLast;
    var here := OpenPart(before, open);
    var a, r, c := MarkedTexts(before, marksBefore), MarkedTexts(row, marksRow), MarkedTexts(after, marksAfter);
    MarkedPartReads(before, marksBefore, open, catalog);
    RowReads(row, marksRow, loop, here, catalog);
    MarkedPartReads(after, marksAfter, OpenPast(before, row, loop, open), catalog);
    var wrapped := Looped(r, loop);
    ReadPartOfTwo(a, wrapped, open, catalog);
    ReadPartOfTwo(a + wrapped, c, open, catalog);
  }
}
