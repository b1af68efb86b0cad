/** Reading a marked part back: every marker that was there is found again at its shifted place with the
    field it had, and every mark reads as the field it was written for. */
module MarkThenRead {
  import opened Batching
  import opened Numbering
  import opened GuidedMarking
  import opened MarkerScan
  import opened MarkerReader

  // ---------- one mark reads as its field ----------

  function Label(tags: seq<Tag>, field: string): seq<Marker> {
    if tags == [] then [] else [Marker(tags[0].start, tags[0].end, field)] + Label(tags[1..], field)
  }

  ghost predicate ReadsAs(text: string, field: string, open: seq<string>, catalog: Catalog) {
    forall at: int ::
      && Read(Scan(text, at, None), open, catalog) == Label(Scan(text, at, None), field)
      && OpenAfter(Scan(text, at, None), open) == open
  }

  lemma ScalarReads(field: string, open: seq<string>, catalog: Catalog)
    requires WellFormed(catalog) && field in catalog.scalars
    ensures Balanced(MarkerFor(field, catalog)) && ReadsAs(MarkerFor(field, catalog), field, open, catalog)
  {
    hide Scan, ReadsAs, Balanced;
    ScalarMarker(field, catalog);
    ScanBraced(field, 0, None);
    forall at: int
      ensures Scan(Braced(field), at, None) == [Tag(at, at + |field| + 2, field)]
    {
      ScanBraced(field, at, None);
    }
    ScalarTag(field, open, catalog);
    OneTag(field, |field| + 2, field, open, catalog);
  }

  lemma ScalarMarker(field: string, catalog: Catalog)
    requires WellFormed(catalog) && field in catalog.scalars
    ensures Plain(field) && Braceless(field) && MarkerFor(field, catalog) == Braced(field)
  {
    PlainIsBraceless(field);
  }

  lemma ScalarTag(field: string, open: seq<string>, catalog: Catalog)
    requires WellFormed(catalog) && field in catalog.scalars
    ensures FieldOf(field, open, catalog) == field && OpenNext(field, open) == open
  {
    PlainIsBraceless(field);
  }

  lemma DotPlace(field: string, loop: string, inner: string)
    requires field == loop + "." + inner && Plain(loop)
    ensures IndexOf(field, '.') == Some(|loop|) && field[..|loop|] == loop && field[|loop| + 1..] == inner
  {
    FirstIndex(field, '.', |loop|);
  }

  lemma {:induction false} FirstIndex(s: string, c: char, i: nat)
    requires i < |s| && s[i] == c && forall k :: 0 <= k < i ==> s[k] != c
    ensures IndexOf(s, c) == Some(i)
  {
    if i > 0 {
      FirstIndex(s[1..], c, i - 1);
    }
  }

  // The tag of a table loop's inner field reads as the innermost open loop says.
  lemma RowFieldReads(loop: string, inner: string, open: seq<string>, catalog: Catalog)
    requires WellFormed(catalog) && loop in catalog.loops && catalog.loops[loop].kind.TableRow?
    requires inner in catalog.loops[loop].fields
    ensures MarkerFor(loop + "." + inner, catalog) == Braced(inner) && Balanced(Braced(inner))
    ensures forall field :: ReadsAs(Braced(inner), field, open, catalog) <==> FieldOf(inner, open, catalog) == field
  {
    hide Scan, ReadsAs, Balanced, FieldOf, Innermost, Plain, Braced;
    DotPlace(loop + "." + inner, loop, inner);
    PlainIsBraceless(inner);
    ScanBraced(inner, 0, None);
    forall at: int
      ensures Scan(Braced(inner), at, None) == [Tag(at, at + |inner| + 2, inner)]
    {
      ScanBraced(inner, at, None);
    }
    InnerOpensNothing(inner, open);
    forall field
      ensures ReadsAs(Braced(inner), field, open, catalog) <==> FieldOf(inner, open, catalog) == field
    {
      OneTag(inner, |inner| + 2, field, open, catalog);
    }
  }

  lemma InnerOpensNothing(inner: string, open: seq<string>)
    requires Plain(inner)
    ensures OpenNext(inner, open) == open
  {
    PlainIsBraceless(inner);
  }

  // A table loop's inner field reads back as itself exactly when its loop is the innermost one open.
  lemma RowFieldReadsIff(loop: string, inner: string, open: seq<string>, catalog: Catalog)
    requires WellFormed(catalog) && loop in catalog.loops && catalog.loops[loop].kind.TableRow?
    requires inner in catalog.loops[loop].fields
    ensures var field := loop + "." + inner;
            && MarkerFor(field, catalog) == Braced(inner) && Balanced(Braced(inner))
            && (ReadsAs(Braced(inner), field, open, catalog) <==> Innermost(open, catalog) == Some(loop))
  {
    hide ReadsAs, Balanced, FieldOf, Innermost, Plain, Braced, MarkerFor, WellFormed;
    RowFieldReads(loop, inner, open, catalog);
    RowFieldOf(loop, inner, open, catalog);
  }

  lemma OneTag(inner: string, length: nat, field: string, open: seq<string>, catalog: Catalog)
    requires length == |inner| + 2
    requires forall at: int :: Scan(Braced(inner), at, None) == [Tag(at, at + length, inner)]
    ensures ReadsAs(Braced(inner), field, open, catalog)
       <==> FieldOf(inner, open, catalog) == field && OpenNext(inner, open) == open
  {
    hide Scan, FieldOf, OpenNext, Read, Label, OpenAfter, Braced;
    var text := Braced(inner);
    forall at: int
      ensures Read(Scan(text, at, None), open, catalog) == [Marker(at, at + length, FieldOf(inner, open, catalog))]
      ensures Label(Scan(text, at, None), field) == [Marker(at, at + length, field)]
      ensures OpenAfter(Scan(text, at, None), open) == OpenNext(inner, open)
    {
      assert Scan(text, at, None) == [Tag(at, at + length, inner)];
      OneTagRead(Tag(at, at + length, inner), field, open, catalog);
    }
    if ReadsAs(text, field, open, catalog) {
      assert Read(Scan(text, 0, None), open, catalog)[0] == Label(Scan(text, 0, None), field)[0];
      assert OpenAfter(Scan(text, 0, None), open) == open;
    }
  }

  lemma OneTagRead(t: Tag, field: string, open: seq<string>, catalog: Catalog)
    ensures Read([t], open, catalog) == [Marker(t.start, t.end, FieldOf(t.body, open, catalog))]
    ensures Label([t], field) == [Marker(t.start, t.end, field)]
    ensures OpenAfter([t], open) == OpenNext(t.body, open)
  {
    assert [t][1..] == [];
  }

  lemma RowFieldOf(loop: string, inner: string, open: seq<string>, catalog: Catalog)
    requires WellFormed(catalog) && loop in catalog.loops && catalog.loops[loop].kind.TableRow?
    requires inner in catalog.loops[loop].fields
    ensures FieldOf(inner, open, catalog) == loop + "." + inner <==> Innermost(open, catalog) == Some(loop)
  {
    PlainIsBraceless(inner);
    var field := loop + "." + inner;
    DotPlace(field, loop, inner);
    assert IndexOf(inner, '.').None?;
    match Innermost(open, catalog)
    case None =>
    case Some(other) =>
      assert IndexOf(other, '.').None?;
      if FieldOf(inner, open, catalog) == other + "." + inner {
        DotPlace(other + "." + inner, other, inner);
      }
  }

  lemma {:induction false} InnerTagsRead(names: seq<string>, at: int, loop: string, open: seq<string>, catalog: Catalog)
    requires WellFormed(catalog) && loop in catalog.loops && catalog.loops[loop].kind.InlineList?
    requires forall i :: 0 <= i < |names| ==> names[i] in catalog.loops[loop].fields
    requires Innermost(open, catalog) == Some(loop)
    ensures Read(TagList(names, at), open, catalog) == Label(TagList(names, at), loop)
    ensures OpenAfter(TagList(names, at), open) == open
  {
    hide FieldOf, OpenNext, WellFormed, Innermost;
    if names != [] {
      var rest := TagList(names[1..], at + |names[0]| + 2);
      InnerField(names[0], loop, open, catalog);
      InnerTagsRead(names[1..], at + |names[0]| + 2, loop, open, catalog);
      assert TagList(names, at)[1..] == rest;
    }
  }

  lemma InnerField(name: string, loop: string, open: seq<string>, catalog: Catalog)
    requires WellFormed(catalog) && loop in catalog.loops && catalog.loops[loop].kind.InlineList?
    requires name in catalog.loops[loop].fields && Innermost(open, catalog) == Some(loop)
    ensures FieldOf(name, open, catalog) == loop && OpenNext(name, open) == open
  {
    PlainIsBraceless(name);
  }

  lemma {:induction false} LabelOfTwo(a: seq<Tag>, b: seq<Tag>, field: string)
    ensures Label(a + b, field) == Label(a, field) + Label(b, field)
  {
    if a == [] {
      assert a + b == b;
    } else {
      assert (a + b)[1..] == a[1..] + b;
      LabelOfTwo(a[1..], b, field);
    }
  }

  lemma LoopTagReads(loop: string, at: int, open: seq<string>, catalog: Catalog)
    requires Plain(loop)
    ensures Read(TagList(["#" + loop], at), open, catalog) == Label(TagList(["#" + loop], at), loop)
    ensures OpenAfter(TagList(["#" + loop], at), open) == open + [loop]
    ensures Read(TagList(["/" + loop], at), open, catalog) == Label(TagList(["/" + loop], at), loop)
    ensures OpenAfter(TagList(["/" + loop], at), open) == RemoveLast(open, loop)
  {
    hide Plain, Scan;
    PlainIsBraceless(loop);
    assert ("#" + loop)[1..] == loop && ("/" + loop)[1..] == loop;
    assert TagList([], at + |loop| + 3) == [];
  }

  // All the tags of an inline list's marker read as the list, and it leaves the open loops as they were.
  lemma ListReads(field: string, open: seq<string>, catalog: Catalog)
    requires WellFormed(catalog) && field in catalog.loops && catalog.loops[field].kind.InlineList?
    ensures Balanced(MarkerFor(field, catalog)) && ReadsAs(MarkerFor(field, catalog), field, open, catalog)
  {
    hide MarkerFor;
    var fields := catalog.loops[field].fields;
    ListReadsAt(field, fields, 0, open, catalog);
    forall at: int
      ensures Read(Scan(MarkerFor(field, catalog), at, None), open, catalog) == Label(Scan(MarkerFor(field, catalog), at, None), field)
      ensures OpenAfter(Scan(MarkerFor(field, catalog), at, None), open) == open
    {
      ListReadsAt(field, fields, at, open, catalog);
    }
  }

  lemma ListReadsAt(field: string, fields: seq<string>, at: int, open: seq<string>, catalog: Catalog)
    requires WellFormed(catalog) && field in catalog.loops && catalog.loops[field].kind.InlineList?
    requires fields == catalog.loops[field].fields
    ensures Balanced(MarkerFor(field, catalog))
    ensures Read(Scan(MarkerFor(field, catalog), at, None), open, catalog) == Label(Scan(MarkerFor(field, catalog), at, None), field)
    ensures OpenAfter(Scan(MarkerFor(field, catalog), at, None), open) == open
  {
    hide Scan, Plain, TagList, Label, Read, OpenAfter, RemoveLast, Balanced;
    ListMarkerIs(field, catalog);
    ListMarkerTags(field, fields, at);
    var first, last := ["#" + field], ["/" + field];
    var at1 := at + |BracedAll(first)|;
    var at2 := at + |BracedAll(first + fields)|;
    TagListOfTwo(first + fields, last, at);
    TagListOfTwo(first, fields, at);
    var a, b, c := TagList(first, at), TagList(fields, at1), TagList(last, at2);
    assert TagList(ListTags(field, fields), at) == a + b + c;
    LoopTagReads(field, at, open, catalog);
    LoopTagReads(field, at2, open + [field], catalog);
    InnermostPushed(field, open, catalog);
    InnerTagsRead(fields, at1, field, open + [field], catalog);
    ReadOfTwo(a + b, c, open, catalog);
    ReadOfTwo(a, b, open, catalog);
    LabelOfTwo(a + b, c, field);
    LabelOfTwo(a, b, field);
    RemovePushed(open, field);
  }

  lemma ListMarkerIs(field: string, catalog: Catalog)
    requires WellFormed(catalog) && field in catalog.loops && catalog.loops[field].kind.InlineList?
    ensures MarkerFor(field, catalog) == Braced("#" + field) + BracedAll(catalog.loops[field].fields) + Braced("/" + field)
    ensures forall i :: 0 <= i < |catalog.loops[field].fields| ==> Plain(catalog.loops[field].fields[i])
    ensures Plain(field)
  {
  }

  lemma InnermostPushed(field: string, open: seq<string>, catalog: Catalog)
    requires field in catalog.loops
    ensures Innermost(open + [field], catalog) == Some(field)
  {
  }

  lemma RemovePushed(open: seq<string>, name: string)
    ensures RemoveLast(open + [name], name) == open
  {
  }

  // ---------- one paragraph ----------

  // The markers of a marked paragraph: the old ones moved, each mark's own with the mark's field.
  function MergedMarkers(found: seq<Marker>, marks: seq<Mark>, shift: int): seq<Marker>
    decreases |found| + |marks|
  {
    if marks == [] then MovedMarkers(found, shift)
    else if found != [] && found[0].start < marks[0].start then
      [Marker(found[0].start + shift, found[0].end + shift, found[0].field)] + MergedMarkers(found[1..], marks, shift)
    else
      Label(Scan(marks[0].text, marks[0].start + shift, None), marks[0].field)
      + MergedMarkers(found, marks[1..], shift + |marks[0].text| - (marks[0].end - marks[0].start))
  }

  function MovedMarkers(markers: seq<Marker>, shift: int): seq<Marker> {
    if markers == [] then []
    else [Marker(markers[0].start + shift, markers[0].end + shift, markers[0].field)] + MovedMarkers(markers[1..], shift)
  }

  lemma {:induction false} ReadMoved(tags: seq<Tag>, shift: int, open: seq<string>, catalog: Catalog)
    ensures Read(MoveAll(tags, shift), open, catalog) == MovedMarkers(Read(tags, open, catalog), shift)
    ensures OpenAfter(MoveAll(tags, shift), open) == OpenAfter(tags, open)
  {
    hide FieldOf, OpenNext;
    if tags != [] {
      ReadMoved(tags[1..], shift, OpenNext(tags[0].body, open), catalog);
      assert Read(tags, open, catalog)[1..] == Read(tags[1..], OpenNext(tags[0].body, open), catalog);
    }
  }

  // ---------- what a mark reads as ----------

  ghost predicate HasTags(text: string) {
    forall at: int :: Scan(text, at, None) != []
  }

  lemma BracedHasTags(name: string)
    requires Plain(name)
    ensures HasTags(Braced(name))
  {
    hide Scan;
    PlainIsBraceless(name);
    forall at: int
      ensures Scan(Braced(name), at, None) != []
    {
      ScanBraced(name, at, None);
    }
  }

  lemma ListHasTags(field: string, catalog: Catalog)
    requires WellFormed(catalog) && field in catalog.loops && catalog.loops[field].kind.InlineList?
    ensures HasTags(MarkerFor(field, catalog))
  {
    hide Scan, MarkerFor;
    ListMarkerIs(field, catalog);
    forall at: int
      ensures Scan(MarkerFor(field, catalog), at, None) != []
    {
      ListMarkerTags(field, catalog.loops[field].fields, at);
    }
  }

  // The field the marker written for `field` is read under, with these loops open at its place.
  function ReadBack(field: string, open: seq<string>, catalog: Catalog): string {
    match IndexOf(field, '.')
    case Some(dot) => FieldOf(field[dot + 1..], open, catalog)
    case None => field
  }

  // A mark written by guided marking for a field of the catalog.
  predicate Fits(mark: Mark, catalog: Catalog) {
    mark.text == MarkerFor(mark.field, catalog) != "" && KindOf(mark.field, catalog).Some?
  }

  lemma DottedIsNoLoop(field: string, catalog: Catalog)
    requires WellFormed(catalog) && IndexOf(field, '.').Some?
    ensures field !in catalog.loops && field !in catalog.scalars
  {
    assert field in catalog.loops ==> Plain(field);
    assert field in catalog.scalars ==> Plain(field);
  }

  // A row field that writes a marker: its loop and the inner field.
  lemma RowFieldParts(field: string, catalog: Catalog) returns (loop: string, inner: string)
    requires WellFormed(catalog) && KindOf(field, catalog) == Some(RowField) && MarkerFor(field, catalog) != ""
    ensures field == loop + "." + inner && IndexOf(field, '.') == Some(|loop|) && field[|loop| + 1..] == inner
    ensures loop in catalog.loops && catalog.loops[loop].kind.TableRow? && inner in catalog.loops[loop].fields
  {
    hide Plain, WellFormed;
    if IndexOf(field, '.').Some? {
      DottedIsNoLoop(field, catalog);
      loop := field[..IndexOf(field, '.').value];
      inner := field[|loop| + 1..];
    }
  }

  lemma NamesArePlain(loop: string, inner: string, catalog: Catalog)
    requires WellFormed(catalog) && loop in catalog.loops && inner in catalog.loops[loop].fields
    ensures Plain(loop) && Plain(inner)
  {
  }

  lemma PlainFieldHasNoDot(field: string, catalog: Catalog)
    requires WellFormed(catalog) && (field in catalog.scalars || field in catalog.loops)
    ensures IndexOf(field, '.').None?
  {
    assert Plain(field);
  }

  lemma OtherKindIs(field: string, catalog: Catalog)
    requires KindOf(field, catalog).Some? && KindOf(field, catalog) != Some(RowField)
    ensures KindOf(field, catalog) == Some(ScalarField) ==> field in catalog.scalars
    ensures KindOf(field, catalog) == Some(ListField) ==> field in catalog.loops && catalog.loops[field].kind.InlineList?
    ensures KindOf(field, catalog) in [Some(ScalarField), Some(ListField)]
  {
  }

  // Wherever it stands, a mark reads as ReadBack says and leaves the open loops as they are.
  lemma FitsReads(mark: Mark, open: seq<string>, catalog: Catalog)
    requires WellFormed(catalog) && Fits(mark, catalog)
    ensures Balanced(mark.text) && ReadsAs(mark.text, ReadBack(mark.field, open, catalog), open, catalog)
    ensures HasTags(mark.text)
  {
    hide ReadsAs, Balanced, Plain, WellFormed, KindOf, MarkerFor, FieldOf, HasTags;
    if KindOf(mark.field, catalog) == Some(RowField) {
      var loop, inner := RowFieldParts(mark.field, catalog);
      RowFieldReads(loop, inner, open, catalog);
      NamesArePlain(loop, inner, catalog);
      BracedHasTags(inner);
    } else {
      OtherKindIs(mark.field, catalog);
      PlainFieldHasNoDot(mark.field, catalog);
      if KindOf(mark.field, catalog) == Some(ScalarField) {
        ScalarReads(mark.field, open, catalog);
        ScalarMarker(mark.field, catalog);
        BracedHasTags(mark.field);
      } else {
        ListReads(mark.field, open, catalog);
        ListHasTags(mark.field, catalog);
      }
    }
  }

  // A mark reads as its own field, unless it is a row field whose loop is not the innermost one open.
  lemma ReadBackIff(field: string, open: seq<string>, catalog: Catalog)
    requires WellFormed(catalog) && KindOf(field, catalog).Some? && MarkerFor(field, catalog) != ""
    ensures ReadBack(field, open, catalog) == field
       <==> (KindOf(field, catalog) == Some(RowField)
             ==> IndexOf(field, '.').Some? && Innermost(open, catalog) == Some(field[..IndexOf(field, '.').value]))
  {
    hide Plain, WellFormed, KindOf, MarkerFor, FieldOf, Innermost;
    if KindOf(field, catalog) == Some(RowField) {
      var loop, inner := RowFieldParts(field, catalog);
      RowFieldOf(loop, inner, open, catalog);
      assert field[..|loop|] == loop;
    } else {
      OtherKindIs(field, catalog);
      PlainFieldHasNoDot(field, catalog);
    }
  }

  ghost predicate AllFit(marks: seq<Mark>, catalog: Catalog) {
    forall m :: m in marks ==> Fits(m, catalog)
  }

  // The loops open at a place of a text, by the tags that start before it.
  function OpenAt(tags: seq<Tag>, at: int, open: seq<string>): seq<string> {
    if tags == [] || tags[0].start >= at then open else OpenAt(tags[1..], at, OpenNext(tags[0].body, open))
  }

  // Each mark with the field it is read under, by the loops open at its place.
  function AsRead(marks: seq<Mark>, tags: seq<Tag>, open: seq<string>, catalog: Catalog): (read: seq<Mark>)
    ensures |read| == |marks|
  {
    seq(|marks|, i requires 0 <= i < |marks| =>
      marks[i].(field := ReadBack(marks[i].field, OpenAt(tags, marks[i].start, open), catalog)))
  }

  predicate StartsAscend(marks: seq<Mark>) {
    forall i, k :: 0 <= i < k < |marks| ==> marks[i].start <= marks[k].start
  }

  lemma MergedNoMarks(found: seq<Marker>, shift: int)
    ensures MergedMarkers(found, [], shift) == MovedMarkers(found, shift)
  {
  }

  // A tag that comes before the next mark.
  lemma TagFirst(tags: seq<Tag>, marks: seq<Mark>, shift: int, open: seq<string>, catalog: Catalog)
    requires marks != [] && tags != [] && tags[0].start < marks[0].start
    ensures var next, field := OpenNext(tags[0].body, open), FieldOf(tags[0].body, open, catalog);
            && Read(Merged(tags, marks, shift), open, catalog)
            == [Marker(tags[0].start + shift, tags[0].end + shift, field)] + Read(Merged(tags[1..], marks, shift), next, catalog)
            && OpenAfter(Merged(tags, marks, shift), open) == OpenAfter(Merged(tags[1..], marks, shift), next)
            && OpenAfter(tags, open) == OpenAfter(tags[1..], next)
  {
    hide FieldOf, OpenNext, Scan;
    var rest := Merged(tags[1..], marks, shift);
    assert Merged(tags, marks, shift) == [Move(tags[0], shift)] + rest;
    assert ([Move(tags[0], shift)] + rest)[1..] == rest;
  }

  lemma MarkerFirst(tags: seq<Tag>, marks: seq<Mark>, shift: int, open: seq<string>, catalog: Catalog)
    requires marks != [] && tags != [] && tags[0].start < marks[0].start
    ensures MergedMarkers(Read(tags, open, catalog), marks, shift)
         == [Marker(tags[0].start + shift, tags[0].end + shift, FieldOf(tags[0].body, open, catalog))]
            + MergedMarkers(Read(tags[1..], OpenNext(tags[0].body, open), catalog), marks, shift)
  {
    hide FieldOf, OpenNext, Scan;
    var found := Read(tags[1..], OpenNext(tags[0].body, open), catalog);
    assert Read(tags, open, catalog)[1..] == found;
  }

  // A mark that comes before the next tag.
  lemma MarkFirst(tags: seq<Tag>, marks: seq<Mark>, read: seq<Mark>, field: string, shift: int, open: seq<string>, catalog: Catalog)
    requires marks != [] && !(tags != [] && tags[0].start < marks[0].start)
    ensures var own := Scan(marks[0].text, marks[0].start + shift, None);
            var rest := shift + |marks[0].text| - (marks[0].end - marks[0].start);
            && Merged(tags, marks, shift) == own + Merged(tags, marks[1..], rest)
            && MergedMarkers(Read(tags, open, catalog), [marks[0].(field := field)] + read, shift)
            == Label(own, field) + MergedMarkers(Read(tags, open, catalog), read, rest)
  {
    hide FieldOf, OpenNext, Scan, Label;
    assert ([marks[0].(field := field)] + read)[1..] == read;
  }

  // Past a tag before all of them, the marks read by the loops open after it.
  lemma AsReadPastTag(marks: seq<Mark>, tags: seq<Tag>, open: seq<string>, catalog: Catalog)
    requires marks != [] && tags != [] && tags[0].start < marks[0].start && StartsAscend(marks)
    ensures AsRead(marks, tags, open, catalog) == AsRead(marks, tags[1..], OpenNext(tags[0].body, open), catalog)
  {
    hide ReadBack, OpenNext;
  }

  lemma AsReadFirst(marks: seq<Mark>, tags: seq<Tag>, open: seq<string>, catalog: Catalog)
    requires marks != [] && !(tags != [] && tags[0].start < marks[0].start)
    ensures AsRead(marks, tags, open, catalog)
         == [marks[0].(field := ReadBack(marks[0].field, open, catalog))] + AsRead(marks[1..], tags, open, catalog)
  {
    hide ReadBack;
  }

  // Old tags and marks interleaved: the old ones read as they did, each mark by the loops open at its place.
  lemma {:induction false} ReadOfMerged(tags: seq<Tag>, marks: seq<Mark>, shift: int, open: seq<string>, catalog: Catalog)
    requires WellFormed(catalog) && AllFit(marks, catalog) && StartsAscend(marks)
    ensures Read(Merged(tags, marks, shift), open, catalog)
         == MergedMarkers(Read(tags, open, catalog), AsRead(marks, tags, open, catalog), shift)
    ensures OpenAfter(Merged(tags, marks, shift), open) == OpenAfter(tags, open)
    decreases |tags| + |marks|
  {
    hide FieldOf, OpenNext, WellFormed, Fits, Scan, Balanced, Read, OpenAfter, Merged, MergedMarkers, AsRead, ReadBack;
    if marks == [] {
      ReadMoved(tags, shift, open, catalog);
      MergedNothing(tags, shift);
      MergedNoMarks(Read(tags, open, catalog), shift);
      assert AsRead(marks, tags, open, catalog) == [];
    } else if tags != [] && tags[0].start < marks[0].start {
      var read := AsRead(marks, tags, open, catalog);
      AsReadPastTag(marks, tags, open, catalog);
      ReadOfMerged(tags[1..], marks, shift, OpenNext(tags[0].body, open), catalog);
      SamePlace(marks, tags, open, catalog);
      TagFirst(tags, marks, shift, open, catalog);
      MarkerFirst(tags, read, shift, open, catalog);
    } else {
      var m := marks[0];
      var rest := shift + |m.text| - (m.end - m.start);
      FitsReads(m, open, catalog);
      AsReadFirst(marks, tags, open, catalog);
      MarkFirst(tags, marks, AsRead(marks[1..], tags, open, catalog), ReadBack(m.field, open, catalog), shift, open, catalog);
      ReadOfMerged(tags, marks[1..], rest, open, catalog);
      ReadOfTwo(Scan(m.text, m.start + shift, None), Merged(tags, marks[1..], rest), open, catalog);
    }
  }

  lemma SamePlace(marks: seq<Mark>, tags: seq<Tag>, open: seq<string>, catalog: Catalog)
    requires marks != []
    ensures AsRead(marks, tags, open, catalog)[0].start == marks[0].start
  {
  }

  // What one paragraph's text and marks have to be: the ranges in order, none over a marker that is there.
  ghost predicate Markable(text: string, marks: seq<Mark>, catalog: Catalog) {
    InOrder(marks, 0, |text|) && Clear(Tags(text), marks) && AllFit(marks, catalog)
  }

  lemma {:induction false} InOrderAscends(marks: seq<Mark>, from: nat, length: nat)
    requires InOrder(marks, from, length)
    ensures StartsAscend(marks) && forall m :: m in marks ==> from <= m.start
  {
    InOrderBounds(marks, from, length);
    if marks != [] {
      InOrderAscends(marks[1..], marks[0].end, length);
      forall i, k | 0 <= i < k < |marks|
        ensures marks[i].start <= marks[k].start
      {
        if i == 0 {
          assert marks[k] in marks[1..];
        } else {
          assert marks[1..][i - 1].start <= marks[1..][k - 1].start;
        }
      }
    }
  }

  // Reading a marked paragraph: the markers it had, moved, and each mark under the field the loops open
  // at its place give it. The marks change no loop.
  lemma ReadOfParagraph(text: string, marks: seq<Mark>, open: seq<string>, catalog: Catalog)
    requires WellFormed(catalog) && Markable(text, marks, catalog)
    ensures Read(Tags(Substituted(text, 0, marks)), open, catalog)
         == MergedMarkers(Read(Tags(text), open, catalog), AsRead(marks, Tags(text), open, catalog), 0)
    ensures OpenAfter(Tags(Substituted(text, 0, marks)), open) == OpenAfter(Tags(text), open)
  {
    hide Fits, WellFormed, Balanced, Tags, AsRead;
    forall m | m in marks
      ensures Balanced(m.text)
    {
      FitsReads(m, [], catalog);
    }
    TagsOfSubstituted(text, marks);
    InOrderAscends(marks, 0, |text|);
    ReadOfMerged(Tags(text), marks, 0, open, catalog);
  }

  // ---------- one mark in the text it was written into ----------

  // All the markers between two offsets, and there is one, read as this field.
  predicate ReadsHere(found: seq<Marker>, from: int, to: int, field: string) {
    && (exists k :: 0 <= k < |found| && from <= found[k].start < to)
    && (forall k :: 0 <= k < |found| && from <= found[k].start < to ==> found[k].field == field)
  }

  lemma {:induction false} ReadStarts(tags: seq<Tag>, open: seq<string>, catalog: Catalog)
    ensures |Read(tags, open, catalog)| == |tags|
    ensures forall i :: 0 <= i < |tags| ==> Read(tags, open, catalog)[i].start == tags[i].start
  {
    hide FieldOf, OpenNext;
    if tags != [] {
      ReadStarts(tags[1..], OpenNext(tags[0].body, open), catalog);
    }
  }

  lemma {:induction false} LabelFields(tags: seq<Tag>, field: string)
    ensures |Label(tags, field)| == |tags|
    ensures forall i :: 0 <= i < |tags| ==> Label(tags, field)[i].start == tags[i].start && Label(tags, field)[i].field == field
  {
    if tags != [] {
      LabelFields(tags[1..], field);
    }
  }

  lemma {:induction false} OpenAtEnd(before: seq<Tag>, rest: seq<Tag>, at: int, open: seq<string>)
    requires forall t :: t in before ==> t.start < at
    requires rest != [] ==> rest[0].start >= at
    ensures OpenAt(before + rest, at, open) == OpenAfter(before, open)
  {
    hide OpenNext;
    if before == [] {
      assert before + rest == rest;
    } else {
      assert (before + rest)[1..] == before[1..] + rest;
      OpenAtEnd(before[1..], rest, at, OpenNext(before[0].body, open));
    }
  }

  lemma ReadsBetween(before: seq<Tag>, own: seq<Tag>, rest: seq<Tag>, from: int, to: int, mine: string, field: string,
                     open: seq<string>, catalog: Catalog)
    requires forall t :: t in before ==> t.start < from
    requires forall t :: t in own ==> from <= t.start < to
    requires forall t :: t in rest ==> to <= t.start
    requires own != [] && Read(own, OpenAfter(before, open), catalog) == Label(own, mine)
    ensures ReadsHere(Read(before + own + rest, open, catalog), from, to, field) <==> mine == field
  {
    hide Read, OpenAfter, Label;
    ReadOfTwo(before + own, rest, open, catalog);
    ReadOfTwo(before, own, open, catalog);
    var tags := before + own + rest;
    var found := Read(tags, open, catalog);
    ReadStarts(tags, open, catalog);
    LabelFields(own, mine);
    ReadStarts(before, open, catalog);
    assert forall k :: 0 <= k < |before| ==> tags[k] in before;
    assert forall k :: |before + own| <= k < |tags| ==> tags[k] in rest;
    forall k | 0 <= k < |found| && from <= found[k].start < to
      ensures found[k].field == mine
    {
      assert found[k].start == tags[k].start;
      assert found[k] == Label(own, mine)[k - |before|];
    }
    assert tags[|before|] == own[0] && own[0] in own;
  }

  // Reading a text with a mark written into it: the mark's own tags read by the loops open at its place.
  lemma MarkReadsInPlace(a: string, m: Mark, rest: string, field: string, open: seq<string>, catalog: Catalog)
    requires WellFormed(catalog) && Fits(m, catalog)
    ensures var tags := Tags(a + m.text + rest);
            && OpenAt(tags, |a|, open) == OpenAfter(Tags(a), open)
            && (ReadsHere(Read(tags, open, catalog), |a|, |a| + |m.text|, field)
                <==> ReadBack(m.field, OpenAt(tags, |a|, open), catalog) == field)
  {
    hide Scan, Fits, WellFormed, Balanced, Read, OpenAfter, OpenAt, Label, ReadsHere, ReadBack;
    var end := |a| + |m.text|;
    var before, own, after := Tags(a), Scan(m.text, |a|, None), Scan(rest, end, None);
    var here := OpenAfter(before, open);
    FitsReads(m, here, catalog);
    MarkedTail(a, m.text, rest, 0);
    ScanBounds(a, 0, None);
    ScanBounds(m.text, |a|, None);
    ScanStartsInside(m.text, |a|);
    ScanStartsInside(rest, end);
    assert before + own + after == before + (own + after);
    assert (own + after)[0] == own[0] && own[0] in own;
    OpenAtEnd(before, own + after, |a|, open);
    ReadsBetween(before, own, after, |a|, end, ReadBack(m.field, here, catalog), field, open, catalog);
  }

  // Where the k-th mark's text starts once all are written.
  function NewStart(marks: seq<Mark>, k: nat): int
    requires k < |marks|
  {
    if k == 0 then marks[0].start
    else NewStart(marks[1..], k - 1) + |marks[0].text| - (marks[0].end - marks[0].start)
  }

  // The marked text before and after one of its marks. What was before it opens the loops it did.
  lemma {:induction false} AroundMark(text: string, from: nat, marks: seq<Mark>, k: nat) returns (a: string, b: string)
    requires InOrder(marks, from, |text|) && k < |marks|
    ensures Substituted(text, from, marks) == a + marks[k].text + b && |a| == NewStart(marks, k) - from
    ensures InOrder(marks[..k], from, marks[k].start) && marks[k].start <= |text|
    ensures a == Substituted(text[..marks[k].start], from, marks[..k])
    decreases k
  {
    if k == 0 {
      a, b := text[from..marks[0].start], Substituted(text, marks[0].end, marks[1..]);
      assert text[..marks[0].start][from..] == a;
    } else {
      var m := marks[0];
      var rest: string;
      rest, b := AroundMark(text, m.end, marks[1..], k - 1);
      a := text[from..m.start] + m.text + rest;
      assert marks[..k][1..] == marks[1..][..k - 1];
      assert text[..marks[k].start][from..m.start] == text[from..m.start];
      assert a + marks[k].text + b == text[from..m.start] + m.text + (rest + marks[k].text + b);
    }
  }

  // The tags of a text up to a range none of them overlaps are those that start before it.
  lemma TagsBefore(text: string, start: nat, end: nat, open: seq<string>)
    requires start < end <= |text|
    requires forall t :: t in Tags(text) ==> t.end <= start || end <= t.start
    ensures OpenAt(Tags(text), start, open) == OpenAfter(Tags(text[..start]), open)
    ensures forall t :: t in Tags(text[..start]) ==> t in Tags(text)
  {
    hide Scan, OpenAt, OpenAfter;
    var a, s, b := text[..start], text[start..end], text[end..];
    assert text == a + s + b;
    TagsAroundRange(a, s, b, 0);
    ScanBounds(a, 0, None);
    ScanStartsInside(b, end);
    assert Scan(b, end, None) != [] ==> Scan(b, end, None)[0] in Scan(b, end, None);
    OpenAtEnd(Tags(a), Scan(b, end, None), start, open);
  }

  // The marks before a mark change no loop: at its place those of the old text are open.
  lemma LoopsBeforeMark(text: string, marks: seq<Mark>, k: nat, a: string, open: seq<string>, catalog: Catalog)
    requires WellFormed(catalog) && Markable(text, marks, catalog) && k < |marks|
    requires marks[k].start <= |text| && InOrder(marks[..k], 0, marks[k].start)
    requires a == Substituted(text[..marks[k].start], 0, marks[..k])
    ensures OpenAfter(Tags(a), open) == OpenAt(Tags(text), marks[k].start, open)
  {
    hide Tags, OpenAt, OpenAfter, Fits, WellFormed, Substituted, Read, AsRead, MergedMarkers;
    InOrderBounds(marks, 0, |text|);
    assert marks[k] in marks;
    TagsBefore(text, marks[k].start, marks[k].end, open);
    assert forall m :: m in marks[..k] ==> m in marks;
    ReadOfParagraph(text[..marks[k].start], marks[..k], open, catalog);
  }

  // ---------- loops that stay as they are ----------

  // The tag neither opens nor closes a loop of the catalog.
  predicate SteadyTag(body: string, catalog: Catalog) {
    var tag := Trim(body);
    Opens(tag) || Closes(tag) ==> LoopName(tag) !in catalog.loops
  }

  predicate Steady(tags: seq<Tag>, catalog: Catalog) {
    forall t :: t in tags ==> SteadyTag(t.body, catalog)
  }

  lemma {:induction false} InnermostWithout(open: seq<string>, name: string, catalog: Catalog)
    requires name !in catalog.loops
    ensures Innermost(RemoveLast(open, name), catalog) == Innermost(open, catalog)
  {
    if open != [] {
      var n := |open| - 1;
      InnermostWithout(open[..n], name, catalog);
      assert (RemoveLast(open[..n], name) + [open[n]])[..|RemoveLast(open[..n], name)|] == RemoveLast(open[..n], name);
    }
  }

  lemma SteadyKeepsInnermost(body: string, open: seq<string>, catalog: Catalog)
    requires SteadyTag(body, catalog)
    ensures Innermost(OpenNext(body, open), catalog) == Innermost(open, catalog)
  {
    var tag := Trim(body);
    if Opens(tag) {
      assert (open + [LoopName(tag)])[..|open|] == open;
    } else if Closes(tag) {
      InnermostWithout(open, LoopName(tag), catalog);
    }
  }

  lemma {:induction false} SteadyTagsKeepInnermost(tags: seq<Tag>, open: seq<string>, catalog: Catalog)
    requires Steady(tags, catalog)
    ensures Innermost(OpenAfter(tags, open), catalog) == Innermost(open, catalog)
    ensures forall at :: Innermost(OpenAt(tags, at, open), catalog) == Innermost(open, catalog)
  {
    hide SteadyTag, OpenNext, Innermost;
    if tags != [] {
      SteadyKeepsInnermost(tags[0].body, open, catalog);
      SteadyTagsKeepInnermost(tags[1..], OpenNext(tags[0].body, open), catalog);
    }
  }
}
