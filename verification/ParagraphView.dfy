/** A paragraph on screen: its fragments cut at the marks, nothing lost and every offset true. */
module ParagraphView {
  import opened Batching
  import opened GuidedMarking
  import opened Selections

  datatype Fragment = Fragment(text: string, bold: bool, italic: bool)

  // A piece of a fragment and the offset of its first character in the block's text.
  datatype Segment = Segment(text: string, bold: bool, italic: bool, start: nat)

  datatype Piece =
    | TextPiece(segments: seq<Segment>)
    | MarkPiece(mark: Entry, text: string, segments: seq<Segment>)

  function TextOf(fragments: seq<Fragment>): string {
    if fragments == [] then "" else fragments[0].text + TextOf(fragments[1..])
  }

  // ---------- the fragments between two offsets ----------

  function SegmentsFrom(fragments: seq<Fragment>, from: nat, start: nat, end: nat): seq<Segment>
    requires start <= end
  {
    if fragments == [] then []
    else
      var f := fragments[0];
      var offset := from + |f.text|;
      if offset <= start || from >= end then SegmentsFrom(fragments[1..], offset, start, end)
      else
        var cut, keep := Max(start - from, 0), Min(end - from, |f.text|);
        [Segment(f.text[cut..keep], f.bold, f.italic, from + cut)] + SegmentsFrom(fragments[1..], offset, start, end)
  }

  method SegmentsBetween(fragments: seq<Fragment>, start: nat, end: nat) returns (segments: seq<Segment>)
    requires start <= end
    ensures segments == SegmentsFrom(fragments, 0, start, end)
  {
    segments := [];
    var offset: nat := 0;
    for k := 0 to |fragments|
      invariant segments + SegmentsFrom(fragments[k..], offset, start, end) == SegmentsFrom(fragments, 0, start, end)
    {
      assert fragments[k..][1..] == fragments[k + 1..] && fragments[k..][0] == fragments[k];
      var f := fragments[k];
      var from := offset;
      offset := offset + |f.text|;
      if !(offset <= start || from >= end) {
        var cut, keep := Max(start - from, 0), Min(end - from, |f.text|);
        segments := segments + [Segment(f.text[cut..keep], f.bold, f.italic, from + cut)];
      }
    }
    assert fragments[|fragments|..] == [];
  }

  function Spelled(segments: seq<Segment>): string {
    if segments == [] then "" else segments[0].text + Spelled(segments[1..])
  }

  // The segment spells the text at its own offset, in the style its fragment has there.
  ghost predicate InPlace(segment: Segment, fragments: seq<Fragment>, from: nat) {
    && from <= segment.start && segment.start - from + |segment.text| <= |TextOf(fragments)|
    && segment.text == TextOf(fragments)[segment.start - from..segment.start - from + |segment.text|]
    && forall q :: segment.start - from <= q < segment.start - from + |segment.text|
                 ==> StyleAt(fragments, q) == (segment.bold, segment.italic)
  }

  function StyleAt(fragments: seq<Fragment>, p: nat): (bool, bool) {
    if fragments == [] then (false, false)
    else if p < |fragments[0].text| then (fragments[0].bold, fragments[0].italic)
    else StyleAt(fragments[1..], p - |fragments[0].text|)
  }

  // The segments between two offsets spell exactly the text between them.
  lemma {:induction false} SegmentsSpellTheRange(fragments: seq<Fragment>, from: nat, start: nat, end: nat)
    requires start <= end
    ensures Spelled(SegmentsFrom(fragments, from, start, end)) == Between(TextOf(fragments), start - from, end - from)
  {
    hide SegmentsFrom, Spelled, Between;
    if fragments == [] {
      NothingSpelled(from, start, end);
    } else {
      var f, rest := fragments[0], fragments[1..];
      var offset := from + |f.text|;
      SegmentsSpellTheRange(rest, offset, start, end);
      SpelledHead(fragments, from, start, end);
      BetweenOfTwo(f.text, TextOf(rest), start - from, end - from);
    }
  }

  lemma NothingSpelled(from: nat, start: nat, end: nat)
    requires start <= end
    ensures Spelled(SegmentsFrom([], from, start, end)) == "" && Between("", start - from, end - from) == ""
  {
  }

  // The characters of a text between two offsets, which may lie outside it.
  function Between(text: string, lo: int, hi: int): string {
    var a, b := Max(lo, 0), Min(hi, |text|);
    if a <= b then text[a..b] else ""
  }

  lemma BetweenOfTwo(a: string, b: string, lo: int, hi: int)
    requires lo <= hi
    ensures Between(a + b, lo, hi) == Between(a, lo, hi) + Between(b, lo - |a|, hi - |a|)
  {
  }

  lemma SpelledHead(fragments: seq<Fragment>, from: nat, start: nat, end: nat)
    requires start <= end && fragments != []
    ensures Spelled(SegmentsFrom(fragments, from, start, end))
         == Between(fragments[0].text, start - from, end - from)
            + Spelled(SegmentsFrom(fragments[1..], from + |fragments[0].text|, start, end))
  {
    var f, rest := fragments[0], fragments[1..];
    var offset := from + |f.text|;
    var tail := SegmentsFrom(rest, offset, start, end);
    if !(offset <= start || from >= end) {
      var cut, keep := Max(start - from, 0), Min(end - from, |f.text|);
      var segment := Segment(f.text[cut..keep], f.bold, f.italic, from + cut);
      assert SegmentsFrom(fragments, from, start, end) == [segment] + tail;
      assert ([segment] + tail)[1..] == tail;
    }
  }

  // Inside the text, the range itself.
  lemma SegmentsSpellInside(fragments: seq<Fragment>, start: nat, end: nat)
    requires start <= end <= |TextOf(fragments)|
    ensures Spelled(SegmentsFrom(fragments, 0, start, end)) == TextOf(fragments)[start..end]
  {
    hide SegmentsFrom, Spelled, TextOf;
    SegmentsSpellTheRange(fragments, 0, start, end);
  }

  lemma InPlaceBehind(segment: Segment, fragments: seq<Fragment>, from: nat)
    requires fragments != [] && InPlace(segment, fragments[1..], from + |fragments[0].text|)
    ensures InPlace(segment, fragments, from)
  {
    var f, rest := fragments[0], fragments[1..];
    var lo := segment.start - from;
    assert TextOf(fragments) == f.text + TextOf(rest);
    assert TextOf(fragments)[lo..lo + |segment.text|] == TextOf(rest)[lo - |f.text|..lo - |f.text| + |segment.text|];
    forall q | lo <= q < lo + |segment.text|
      ensures StyleAt(fragments, q) == (segment.bold, segment.italic)
    {
      assert StyleAt(rest, q - |f.text|) == (segment.bold, segment.italic);
    }
  }

  lemma {:induction false} SegmentsAreInPlace(fragments: seq<Fragment>, from: nat, start: nat, end: nat)
    requires start <= end
    ensures forall i :: 0 <= i < |SegmentsFrom(fragments, from, start, end)|
              ==> InPlace(SegmentsFrom(fragments, from, start, end)[i], fragments, from)
  {
    hide InPlace;
    if fragments != [] {
      var f, rest := fragments[0], fragments[1..];
      var offset := from + |f.text|;
      SegmentsAreInPlace(rest, offset, start, end);
      var tail := SegmentsFrom(rest, offset, start, end);
      forall i | 0 <= i < |tail|
        ensures InPlace(tail[i], fragments, from)
      {
        InPlaceBehind(tail[i], fragments, from);
      }
      if !(offset <= start || from >= end) {
        CutIsInPlace(fragments, from, Max(start - from, 0), Min(end - from, |f.text|));
      }
    }
  }

  lemma CutIsInPlace(fragments: seq<Fragment>, from: nat, cut: nat, keep: nat)
    requires fragments != [] && cut <= keep <= |fragments[0].text|
    ensures var f := fragments[0]; InPlace(Segment(f.text[cut..keep], f.bold, f.italic, from + cut), fragments, from)
  {
    assert TextOf(fragments) == fragments[0].text + TextOf(fragments[1..]);
    assert TextOf(fragments)[cut..keep] == fragments[0].text[cut..keep];
  }

  // ---------- the pieces of a paragraph ----------

  function Pieces(fragments: seq<Fragment>, text: string, marks: seq<Entry>, cursor: nat): seq<Piece>
    requires InRange(marks, |text|) && cursor <= |text|
  {
    if marks == [] then TextUntil(fragments, cursor, |text|)
    else
      var m := marks[0].selection;
      TextUntil(fragments, cursor, m.start)
      + [MarkPiece(marks[0], text[m.start..m.end], SegmentsFrom(fragments, 0, m.start, m.end))]
      + Pieces(fragments, text, marks[1..], Max(cursor, m.end))
  }

  function TextUntil(fragments: seq<Fragment>, cursor: nat, until: nat): seq<Piece> {
    if until <= cursor then [] else [TextPiece(SegmentsFrom(fragments, 0, cursor, until))]
  }

  // The marks of a block in order, with the text between them; marks elsewhere do not count.
  method BlockPieces(block: nat, fragments: seq<Fragment>, text: string, marks: seq<Entry>) returns (pieces: seq<Piece>)
    requires InRange(Own(marks, block), |text|)
    ensures InRange(Sort(Own(marks, block), false), |text|)
    ensures pieces == Pieces(fragments, text, Sort(Own(marks, block), false), 0)
  {
    hide SegmentsFrom, Sort, Own, Pieces, TextUntil;
    var own := Sort(Own(marks, block), false);
    SortedInRange(Own(marks, block), |text|);
    pieces := [];
    var cursor: nat := 0;
    for i := 0 to |own|
      invariant cursor <= |text| && InRange(own[i..], |text|)
      invariant pieces + Pieces(fragments, text, own[i..], cursor) == Pieces(fragments, text, own, 0)
    {
      assert own[i..][1..] == own[i + 1..] && own[i..][0] == own[i];
      PiecesNext(fragments, text, own[i..], cursor);
      var m := own[i].selection;
      var before := PushText(fragments, cursor, m.start);
      var segments := SegmentsBetween(fragments, m.start, m.end);
      pieces := pieces + before + [MarkPiece(own[i], text[m.start..m.end], segments)];
      cursor := Max(cursor, m.end);
    }
    PiecesEnd(fragments, text, own[|own|..], cursor);
    var rest := PushText(fragments, cursor, |text|);
    pieces := pieces + rest;
  }

  // The text up to an offset, if there is any.
  method PushText(fragments: seq<Fragment>, cursor: nat, until: nat) returns (pieces: seq<Piece>)
    ensures pieces == TextUntil(fragments, cursor, until)
  {
    if until <= cursor {
      return [];
    }
    var segments := SegmentsBetween(fragments, cursor, until);
    pieces := [TextPiece(segments)];
  }

  lemma PiecesNext(fragments: seq<Fragment>, text: string, marks: seq<Entry>, cursor: nat)
    requires InRange(marks, |text|) && cursor <= |text| && marks != []
    ensures InRange(marks[1..], |text|)
    ensures Pieces(fragments, text, marks, cursor)
         == TextUntil(fragments, cursor, marks[0].selection.start)
            + [MarkPiece(marks[0], text[marks[0].selection.start..marks[0].selection.end],
                         SegmentsFrom(fragments, 0, marks[0].selection.start, marks[0].selection.end))]
            + Pieces(fragments, text, marks[1..], Max(cursor, marks[0].selection.end))
  {
    hide SegmentsFrom, TextUntil;
  }

  lemma PiecesEnd(fragments: seq<Fragment>, text: string, marks: seq<Entry>, cursor: nat)
    requires marks == [] && cursor <= |text|
    ensures Pieces(fragments, text, marks, cursor) == TextUntil(fragments, cursor, |text|)
  {
    hide TextUntil;
  }

  function Own(marks: seq<Entry>, block: nat): seq<Entry> {
    if marks == [] then [] else (if marks[0].selection.block == block then [marks[0]] else []) + Own(marks[1..], block)
  }

  lemma SortedInRange(entries: seq<Entry>, length: nat)
    requires InRange(entries, length)
    ensures InRange(Sort(entries, false), length)
  {
    SortSorts(entries, false);
    var sorted := Sort(entries, false);
    forall i | 0 <= i < |sorted|
      ensures 0 <= sorted[i].selection.start < sorted[i].selection.end <= length
    {
      assert sorted[i] in multiset(entries);
    }
  }

  function SpelledAll(pieces: seq<Piece>): string {
    if pieces == [] then "" else Spelled(pieces[0].segments) + SpelledAll(pieces[1..])
  }

  lemma {:induction false} SpelledAllOfTwo(a: seq<Piece>, b: seq<Piece>)
    ensures SpelledAll(a + b) == SpelledAll(a) + SpelledAll(b)
  {
    if a == [] {
      assert a + b == b;
    } else {
      assert (a + b)[1..] == a[1..] + b;
      SpelledAllOfTwo(a[1..], b);
    }
  }

  lemma OnePiece(p: Piece)
    ensures SpelledAll([p]) == Spelled(p.segments)
  {
    assert [p][1..] == [];
  }

  lemma TextUntilSpells(fragments: seq<Fragment>, cursor: nat, until: nat)
    requires cursor <= until <= |TextOf(fragments)|
    ensures SpelledAll(TextUntil(fragments, cursor, until)) == TextOf(fragments)[cursor..until]
  {
    hide SegmentsFrom;
    if cursor < until {
      SegmentsSpellInside(fragments, cursor, until);
      OnePiece(TextPiece(SegmentsFrom(fragments, 0, cursor, until)));
    }
  }

  lemma {:induction false} PiecesSpellTheRest(fragments: seq<Fragment>, marks: seq<Entry>, cursor: nat)
    requires InRange(marks, |TextOf(fragments)|) && cursor <= |TextOf(fragments)|
    requires forall i :: 0 <= i < |marks| ==> cursor <= marks[i].selection.start
    requires forall i, k :: 0 <= i < k < |marks| ==> marks[i].selection.end <= marks[k].selection.start
    ensures SpelledAll(Pieces(fragments, TextOf(fragments), marks, cursor)) == TextOf(fragments)[cursor..]
    decreases |marks|
  {
    hide SegmentsFrom, TextUntil, SpelledAll, TextOf;
    var text := TextOf(fragments);
    if marks == [] {
      TextUntilSpells(fragments, cursor, |text|);
    } else {
      var m := marks[0].selection;
      TextUntilSpells(fragments, cursor, m.start);
      SegmentsSpellInside(fragments, m.start, m.end);
      PiecesSpellTheRest(fragments, marks[1..], m.end);
      var before := TextUntil(fragments, cursor, m.start);
      var piece := MarkPiece(marks[0], text[m.start..m.end], SegmentsFrom(fragments, 0, m.start, m.end));
      var rest := Pieces(fragments, text, marks[1..], m.end);
      SpelledAllOfTwo(before + [piece], rest);
      SpelledAllOfTwo(before, [piece]);
      OnePiece(piece);
      assert text[cursor..m.start] + text[m.start..m.end] + text[m.end..] == text[cursor..];
    }
  }

  // For marks that do not overlap, the pieces' segments spell the paragraph, nothing lost or repeated.
  lemma ViewIsLossless(block: nat, fragments: seq<Fragment>, marks: seq<Entry>)
    requires InRange(Own(marks, block), |TextOf(fragments)|) && AllApart(Own(marks, block))
    ensures InRange(Sort(Own(marks, block), false), |TextOf(fragments)|)
    ensures SpelledAll(Pieces(fragments, TextOf(fragments), Sort(Own(marks, block), false), 0)) == TextOf(fragments)
  {
    hide Pieces, Sort, SpelledAll, TextOf;
    var own := Own(marks, block);
    var sorted := Sort(own, false);
    SortedInRange(own, |TextOf(fragments)|);
    SortSorts(own, false);
    SameApart(own, sorted);
    forall i, k | 0 <= i < k < |sorted|
      ensures sorted[i].selection.end <= sorted[k].selection.start
    {
      assert !Overlap(sorted[i].selection, sorted[k].selection);
      assert Before(sorted[i], sorted[k], false);
    }
    PiecesSpellTheRest(fragments, sorted, 0);
    assert TextOf(fragments)[0..] == TextOf(fragments);
  }

  // Every mark's segments spell the mark's own range.
  lemma {:induction false} MarkSegmentsSpellTheMark(fragments: seq<Fragment>, marks: seq<Entry>, cursor: nat, p: Piece)
    requires InRange(marks, |TextOf(fragments)|) && cursor <= |TextOf(fragments)|
    requires p in Pieces(fragments, TextOf(fragments), marks, cursor)
    ensures p.MarkPiece? ==> p.mark in marks && Spelled(p.segments) == p.text
                             && 0 <= p.mark.selection.start <= p.mark.selection.end <= |TextOf(fragments)|
                             && p.text == TextOf(fragments)[p.mark.selection.start..p.mark.selection.end]
    ensures forall i :: 0 <= i < |p.segments| ==> InPlace(p.segments[i], fragments, 0)
    decreases |marks|
  {
    hide SegmentsFrom, InPlace, Spelled, TextOf;
    var text := TextOf(fragments);
    var until := if marks == [] then |text| else marks[0].selection.start;
    if cursor < until {
      SegmentsAreInPlace(fragments, 0, cursor, until);
    }
    if marks != [] {
      var m := marks[0].selection;
      SegmentsAreInPlace(fragments, 0, m.start, m.end);
      SegmentsSpellInside(fragments, m.start, m.end);
      if p in Pieces(fragments, text, marks[1..], Max(cursor, m.end)) {
        MarkSegmentsSpellTheMark(fragments, marks[1..], Max(cursor, m.end), p);
      }
    }
  }
}
