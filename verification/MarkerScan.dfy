/** Finding the {markers} of a paragraph's text, and what guided marking does to them: the markers that
    were there stay, at shifted offsets, and the new ones appear where the selections were. */
module MarkerScan {
  import opened Batching
  import opened Numbering
  import opened GuidedMarking

  // One {tag}: its place in the text and what the braces enclose.
  datatype Tag = Tag(start: int, end: int, body: string)

  // The matches of \{([^{}]*)\} from left to right. `pending` is what follows the last brace read when
  // that brace opens; `at` is the offset of text[0].
  function Scan(text: string, at: int, pending: Option<string>): seq<Tag> {
    if text == "" then []
    else match text[0]
      case '{' => Scan(text[1..], at + 1, Some(""))
      case '}' =>
        (if pending.Some? then [Tag(at - |pending.value| - 1, at + 1, pending.value)] else [])
        + Scan(text[1..], at + 1, None)
      case c => Scan(text[1..], at + 1, Grown(pending, c))
  }

  function Grown(pending: Option<string>, c: char): Option<string> {
    if pending.Some? then Some(pending.value + [c]) else None
  }

  function PendingAfter(text: string, pending: Option<string>): Option<string> {
    if text == "" then pending
    else match text[0]
      case '{' => PendingAfter(text[1..], Some(""))
      case '}' => PendingAfter(text[1..], None)
      case c => PendingAfter(text[1..], Grown(pending, c))
  }

  function Tags(text: string): seq<Tag> {
    Scan(text, 0, None)
  }

  // ---------- the scan finds exactly the matches ----------

  predicate Brace(c: char) {
    c == '{' || c == '}'
  }

  predicate Braceless(s: string) {
    forall i :: 0 <= i < |s| ==> !Brace(s[i])
  }

  // What the regular expression asks of a match.
  predicate IsMatch(text: string, t: Tag) {
    && 0 <= t.start && t.start + 2 <= t.end <= |text|
    && text[t.start] == '{' && text[t.end - 1] == '}'
    && t.body == text[t.start + 1..t.end - 1] && Braceless(t.body)
  }

  // `pending` tells what stands before position i.
  predicate Stands(text: string, i: nat, pending: Option<string>)
    requires i <= |text|
  {
    match pending
    case None => forall k :: 0 <= k < i && text[k] == '{' ==> !Braceless(text[k + 1..i])
    case Some(body) =>
      && |body| < i && text[i - |body| - 1] == '{'
      && body == text[i - |body|..i] && Braceless(body)
  }

  lemma StandsNext(text: string, i: nat, pending: Option<string>)
    requires i < |text| && Stands(text, i, pending)
    ensures Stands(text, i + 1,
                   if text[i] == '{' then Some("") else if text[i] == '}' then None else Grown(pending, text[i]))
  {
    if text[i] == '}' {
      forall k | 0 <= k < i + 1 && text[k] == '{'
        ensures !Braceless(text[k + 1..i + 1])
      {
        assert text[k + 1..i + 1][i - k - 1] == '}';
      }
    } else if text[i] != '{' && pending.None? {
      forall k | 0 <= k < i + 1 && text[k] == '{'
        ensures !Braceless(text[k + 1..i + 1])
      {
        var j :| 0 <= j < |text[k + 1..i]| && Brace(text[k + 1..i][j]);
        assert text[k + 1..i + 1][j] == text[k + 1..i][j];
      }
    }
  }

  // A match that ends at a closing brace is the pending one.
  lemma ClosedMatch(text: string, i: nat, pending: Option<string>, t: Tag)
    requires i < |text| && Stands(text, i, pending) && IsMatch(text, t) && t.end == i + 1
    ensures pending.Some? && t == Tag(i - |pending.value| - 1, i + 1, pending.value)
  {
    NoBraceBetween(text, t.start + 1, i);
    if pending.Some? {
      NoBraceBetween(text, i - |pending.value|, i);
    }
  }

  lemma NoBraceBetween(text: string, lo: nat, hi: nat)
    requires lo <= hi <= |text| && Braceless(text[lo..hi])
    ensures forall k :: lo <= k < hi ==> !Brace(text[k])
  {
    forall k | lo <= k < hi
      ensures !Brace(text[k])
    {
      assert text[lo..hi][k - lo] == text[k];
    }
  }

  lemma OpenMatch(text: string, i: nat, body: string)
    requires i < |text| && Stands(text, i, Some(body)) && text[i] == '}'
    ensures IsMatch(text, Tag(i - |body| - 1, i + 1, body))
  {
  }

  lemma {:induction false} ScanFromIsExact(text: string, i: nat, pending: Option<string>, t: Tag)
    requires i <= |text| && Stands(text, i, pending)
    ensures t in Scan(text[i..], i, pending) <==> IsMatch(text, t) && i < t.end
    decreases |text| - i
  {
    hide Stands, Braceless;
    if i < |text| {
      var next := if text[i] == '{' then Some("") else if text[i] == '}' then None else Grown(pending, text[i]);
      StandsNext(text, i, pending);
      ScanFromIsExact(text, i + 1, next, t);
      assert text[i..][1..] == text[i + 1..];
      if text[i] == '}' {
        if IsMatch(text, t) && t.end == i + 1 {
          ClosedMatch(text, i, pending, t);
        }
        if pending.Some? {
          OpenMatch(text, i, pending.value);
        }
      }
    }
  }

  // The scan finds a tag exactly where the regular expression matches.
  lemma ScanIsExact(text: string, t: Tag)
    ensures t in Tags(text) <==> IsMatch(text, t)
  {
    ScanFromIsExact(text, 0, None, t);
    assert text[0..] == text;
  }

  // ---------- how scans of pieces combine ----------

  lemma {:induction false} ScanOfTwo(a: string, b: string, at: int, pending: Option<string>)
    ensures Scan(a + b, at, pending) == Scan(a, at, pending) + Scan(b, at + |a|, PendingAfter(a, pending))
    ensures PendingAfter(a + b, pending) == PendingAfter(b, PendingAfter(a, pending))
  {
    if a == "" {
      assert a + b == b;
    } else {
      assert (a + b)[1..] == a[1..] + b;
      var next := if a[0] == '{' then Some("") else if a[0] == '}' then None else Grown(pending, a[0]);
      ScanOfTwo(a[1..], b, at + 1, next);
    }
  }

  function Move(t: Tag, shift: int): Tag {
    Tag(t.start + shift, t.end + shift, t.body)
  }

  function MoveAll(tags: seq<Tag>, shift: int): seq<Tag> {
    if tags == [] then [] else [Move(tags[0], shift)] + MoveAll(tags[1..], shift)
  }

  lemma {:induction false} MoveAllOfTwo(a: seq<Tag>, b: seq<Tag>, shift: int)
    ensures MoveAll(a + b, shift) == MoveAll(a, shift) + MoveAll(b, shift)
  {
    if a == [] {
      assert a + b == b;
    } else {
      assert (a + b)[1..] == a[1..] + b;
      MoveAllOfTwo(a[1..], b, shift);
    }
  }

  function Next(pending: Option<string>, c: char): Option<string> {
    if c == '{' then Some("") else if c == '}' then None else Grown(pending, c)
  }

  function Closing(c: char, at: int, pending: Option<string>): seq<Tag> {
    if c == '}' && pending.Some? then [Tag(at - |pending.value| - 1, at + 1, pending.value)] else []
  }

  lemma ScanNext(text: string, at: int, pending: Option<string>)
    requires text != ""
    ensures Scan(text, at, pending) == Closing(text[0], at, pending) + Scan(text[1..], at + 1, Next(pending, text[0]))
  {
  }

  lemma ClosingMoved(c: char, at: int, pending: Option<string>, shift: int)
    ensures Closing(c, at + shift, pending) == MoveAll(Closing(c, at, pending), shift)
  {
  }

  lemma {:induction false} ScanMoved(text: string, at: int, pending: Option<string>, shift: int)
    ensures Scan(text, at + shift, pending) == MoveAll(Scan(text, at, pending), shift)
  {
    hide Scan, MoveAll, Closing, Next;
    if text == "" {
      NothingMoved(text, at, pending, shift);
    } else {
      var next := Next(pending, text[0]);
      var head, tail := Closing(text[0], at, pending), Scan(text[1..], at + 1, next);
      ScanMoved(text[1..], at + 1, next, shift);
      ScanNext(text, at, pending);
      ScanNext(text, at + shift, pending);
      ClosingMoved(text[0], at, pending, shift);
      MoveAllOfTwo(head, tail, shift);
    }
  }

  lemma NothingMoved(text: string, at: int, pending: Option<string>, shift: int)
    requires text == ""
    ensures Scan(text, at + shift, pending) == MoveAll(Scan(text, at, pending), shift)
  {
  }

  lemma {:induction false} ScanBounds(text: string, at: int, pending: Option<string>)
    ensures forall t :: t in Scan(text, at, pending) ==> t.start < t.end && at < t.end <= at + |text|
  {
    if text != "" {
      var next := if text[0] == '{' then Some("") else if text[0] == '}' then None else Grown(pending, text[0]);
      ScanBounds(text[1..], at + 1, next);
    }
  }

  lemma {:induction false} ScanStartsInside(text: string, at: int)
    ensures forall t :: t in Scan(text, at, None) ==> at <= t.start
  {
    ScanStartsAfter(text, at, at, None);
  }

  lemma {:induction false} ScanStartsAfter(text: string, at: int, bound: int, pending: Option<string>)
    requires bound <= at && (pending.Some? ==> bound <= at - |pending.value| - 1)
    ensures forall t :: t in Scan(text, at, pending) ==> bound <= t.start
  {
    if text != "" {
      var next := if text[0] == '{' then Some("") else if text[0] == '}' then None else Grown(pending, text[0]);
      ScanStartsAfter(text[1..], at + 1, bound, next);
    }
  }

  // An opening brace before the piece that closes no tag in it might as well not be there.
  lemma {:induction false} PendingIsHarmless(text: string, at: int, bound: int, pending: Option<string>)
    requires pending.Some? ==> at - |pending.value| - 1 < bound
    requires forall t :: t in Scan(text, at, pending) ==> bound <= t.start
    ensures Scan(text, at, pending) == Scan(text, at, None)
  {
    if text != "" && pending.Some? {
      var closed := Tag(at - |pending.value| - 1, at + 1, pending.value);
      assert text[0] == '}' ==> closed in Scan(text, at, pending);
      if !Brace(text[0]) {
        PendingIsHarmless(text[1..], at + 1, bound, Grown(pending, text[0]));
      }
    }
  }

  // ---------- the tags after marking ----------

  // A marker opens with a brace and leaves none open, so nothing around it can reach across.
  predicate Balanced(marker: string) {
    marker != "" && marker[0] == '{' && PendingAfter(marker, None).None?
  }

  lemma BalancedAnywhere(marker: string, at: int, pending: Option<string>)
    requires Balanced(marker)
    ensures Scan(marker, at, pending) == Scan(marker, at, None)
    ensures PendingAfter(marker, pending).None?
  {
  }

  predicate Clear(tags: seq<Tag>, marks: seq<Mark>) {
    forall t, m :: t in tags && m in marks ==> t.end <= m.start || m.end <= t.start
  }

  // The tags that were there, moved by what the marks before them add or take, and the tags of each
  // mark where its range was.
  function Merged(tags: seq<Tag>, marks: seq<Mark>, shift: int): seq<Tag>
    decreases |tags| + |marks|
  {
    if marks == [] then MoveAll(tags, shift)
    else if tags != [] && tags[0].start < marks[0].start then
      [Move(tags[0], shift)] + Merged(tags[1..], marks, shift)
    else
      Scan(marks[0].text, marks[0].start + shift, None)
      + Merged(tags, marks[1..], shift + |marks[0].text| - (marks[0].end - marks[0].start))
  }

  lemma MergedNothing(tags: seq<Tag>, shift: int)
    ensures Merged(tags, [], shift) == MoveAll(tags, shift)
  {
  }

  lemma {:induction false} MergedFront(before: seq<Tag>, after: seq<Tag>, marks: seq<Mark>, shift: int)
    requires marks != []
    requires forall t :: t in before ==> t.start < marks[0].start
    requires forall t :: t in after ==> marks[0].start <= t.start
    ensures Merged(before + after, marks, shift)
         == MoveAll(before, shift) + Scan(marks[0].text, marks[0].start + shift, None)
            + Merged(after, marks[1..], shift + |marks[0].text| - (marks[0].end - marks[0].start))
  {
    hide Scan;
    if before == [] {
      assert before + after == after;
    } else {
      assert (before + after)[1..] == before[1..] + after;
      MergedFront(before[1..], after, marks, shift);
    }
  }

  lemma HasMember(tags: seq<Tag>)
    ensures tags == [] || exists t :: t in tags
  {
    if tags != [] {
      assert tags[0] in tags;
    }
  }

  // The tags of a text around a range that no tag overlaps.
  lemma TagsAroundRange(a: string, s: string, b: string, at: int)
    requires s != ""
    requires forall t :: t in Scan(a + s + b, at, None) ==> t.end <= at + |a| || at + |a| + |s| <= t.start
    ensures Scan(a + s + b, at, None) == Scan(a, at, None) + Scan(b, at + |a| + |s|, None)
  {
    hide Scan, PendingAfter;
    var end := at + |a| + |s|;
    var open, late := PendingAfter(a, None), PendingAfter(a + s, None);
    ScanOfTwo(a + s, b, at, None);
    ScanOfTwo(a, s, at, None);
    var inside, beyond := Scan(s, at + |a|, open), Scan(b, end, late);
    assert Scan(a + s + b, at, None) == Scan(a, at, None) + inside + beyond;
    ScanBounds(s, at + |a|, open);
    assert inside == [] by {
      assert forall t :: t in inside ==> t in Scan(a + s + b, at, None);
      HasMember(inside);
    }
    ScanBounds(b, end, late);
    forall t | t in beyond
      ensures end <= t.start
    {
      assert t in Scan(a + s + b, at, None);
    }
    PendingIsHarmless(b, end, end, late);
  }

  lemma MarkedTail(a: string, marker: string, rest: string, at: int)
    requires Balanced(marker)
    ensures Scan(a + marker + rest, at, None)
         == Scan(a, at, None) + Scan(marker, at + |a|, None) + Scan(rest, at + |a| + |marker|, None)
  {
    hide Scan, PendingAfter, Balanced;
    ScanOfTwo(a + marker, rest, at, None);
    ScanOfTwo(a, marker, at, None);
    BalancedAnywhere(marker, at + |a|, PendingAfter(a, None));
  }

  // Scanning the marked text finds the old tags at shifted offsets and each mark's tags in its place.
  lemma {:induction false} ScanOfSubstituted(text: string, from: nat, marks: seq<Mark>, shift: int)
    requires InOrder(marks, from, |text|) && from <= |text|
    requires forall m :: m in marks ==> Balanced(m.text)
    requires Clear(Scan(text[from..], from, None), marks)
    ensures Scan(Substituted(text, from, marks), from + shift, None) == Merged(Scan(text[from..], from, None), marks, shift)
    decreases |marks|
  {
    hide Scan, Balanced, Merged, MoveAll;
    if marks == [] {
      ScanMoved(text[from..], from, None, shift);
      MergedNothing(Scan(text[from..], from, None), shift);
    } else {
      var m := marks[0];
      InOrderBounds(marks[1..], m.end, |text|);
      var a, s, b := text[from..m.start], text[m.start..m.end], text[m.end..];
      assert text[from..] == a + s + b;
      assert m in marks;
      var before, after := Scan(a, from, None), Scan(b, m.end, None);
      TagsAroundRange(a, s, b, from);
      ScanBounds(a, from, None);
      ScanStartsInside(b, m.end);
      MergedFront(before, after, marks, shift);
      var rest := Substituted(text, m.end, marks[1..]);
      MarkedTail(a, m.text, rest, from + shift);
      ScanMoved(a, from, None, shift);
      assert Clear(after, marks[1..]);
      ScanOfSubstituted(text, m.end, marks[1..], shift + |m.text| - (m.end - m.start));
    }
  }

  lemma TagsOfSubstituted(text: string, marks: seq<Mark>)
    requires InOrder(marks, 0, |text|) && Clear(Tags(text), marks)
    requires forall m :: m in marks ==> Balanced(m.text)
    ensures Tags(Substituted(text, 0, marks)) == Merged(Tags(text), marks, 0)
  {
    assert text[0..] == text;
    ScanOfSubstituted(text, 0, marks, 0);
  }
}
