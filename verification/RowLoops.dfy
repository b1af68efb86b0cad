/** When a row is wrapped in its loop's tags, what that adds to it, and where its row fields read back. */
module RowLoops {
  import opened Batching
  import opened Numbering
  import opened GuidedMarking
  import opened MarkerScan
  import opened MarkerReader
  import opened MarkThenRead
  import opened MarkedPart
  import opened Selections
  import opened MarkedDocument
  import opened MarkedReading

  // ---------- a tag in a text ----------

  predicate StandsAt(s: string, part: string, k: nat) {
    k + |part| <= |s| && s[k..k + |part|] == part
  }

  lemma {:induction false} IncludesIs(s: string, part: string)
    ensures Includes(s, part) <==> exists k: nat :: StandsAt(s, part, k)
  {
    if part <= s {
      assert StandsAt(s, part, 0);
    } else if s != "" {
      IncludesIs(s[1..], part);
      if k: nat :| StandsAt(s, part, k) {
        assert k > 0;
        assert s[1..][k - 1..k - 1 + |part|] == s[k..k + |part|];
        assert StandsAt(s[1..], part, k - 1);
      }
      if k: nat :| StandsAt(s[1..], part, k) {
        assert s[k + 1..k + 1 + |part|] == s[1..][k..k + |part|];
        assert StandsAt(s, part, k + 1);
      }
    }
  }

  lemma BracedIsMatch(s: string, name: string, k: nat)
    requires Braceless(name)
    ensures StandsAt(s, Braced(name), k) <==> IsMatch(s, Tag(k, k + |name| + 2, name))
  {
    hide Braceless;
    var end := k + |name| + 2;
    if end <= |s| {
      assert s[k..end] == [s[k]] + s[k + 1..end - 1] + [s[end - 1]];
      assert s[k..end][0] == s[k] && s[k..end][1..|name| + 1] == s[k + 1..end - 1] && s[k..end][|name| + 1] == s[end - 1];
      assert Braced(name)[0] == '{' && Braced(name)[1..|name| + 1] == name && Braced(name)[|name| + 1] == '}';
    }
  }

  // A text includes a tag exactly when the reader finds it there.
  lemma TagIncludedIff(s: string, name: string)
    requires Braceless(name)
    ensures Includes(s, Braced(name)) <==> exists t :: t in Tags(s) && t.body == name
  {
    hide Tags, Includes, Braceless, StandsAt, Braced;
    IncludesIs(s, Braced(name));
    if k: nat :| StandsAt(s, Braced(name), k) {
      BracedIsMatch(s, name, k);
      ScanIsExact(s, Tag(k, k + |name| + 2, name));
    }
    if t :| t in Tags(s) && t.body == name {
      ScanIsExact(s, t);
      assert t == Tag(t.start, t.start + |name| + 2, name);
      BracedIsMatch(s, name, t.start);
    }
  }

  // ---------- how often a row's texts open and close its loop ----------

  // The tags that open the loop, or close it.
  function Uses(tags: seq<Tag>, loop: string, opening: bool): nat {
    if tags == [] then 0
    else
      (if (if opening then OpensLoop(tags[0].body, loop) else ClosesLoop(tags[0].body, loop)) then 1 else 0)
      + Uses(tags[1..], loop, opening)
  }

  function PartUses(texts: seq<string>, loop: string, opening: bool): nat {
    if texts == [] then 0 else Uses(Tags(texts[0]), loop, opening) + PartUses(texts[1..], loop, opening)
  }

  lemma {:induction false} UsesOfTwo(a: seq<Tag>, b: seq<Tag>, loop: string, opening: bool)
    ensures Uses(a + b, loop, opening) == Uses(a, loop, opening) + Uses(b, loop, opening)
  {
    hide OpensLoop, ClosesLoop;
    if a == [] {
      assert a + b == b;
    } else {
      assert (a + b)[1..] == a[1..] + b;
      UsesOfTwo(a[1..], b, loop, opening);
    }
  }

  lemma {:induction false} UsesMoved(tags: seq<Tag>, shift: int, loop: string, opening: bool)
    ensures Uses(MoveAll(tags, shift), loop, opening) == Uses(tags, loop, opening)
  {
    hide OpensLoop, ClosesLoop;
    if tags != [] {
      UsesMoved(tags[1..], shift, loop, opening);
    }
  }

  lemma {:induction false} PartUsesOfTwo(a: seq<string>, b: seq<string>, loop: string, opening: bool)
    ensures PartUses(a + b, loop, opening) == PartUses(a, loop, opening) + PartUses(b, loop, opening)
  {
    hide Uses, Tags;
    if a == [] {
      assert a + b == b;
    } else {
      assert (a + b)[1..] == a[1..] + b;
      PartUsesOfTwo(a[1..], b, loop, opening);
    }
  }

  lemma LoopTagUses(t: Tag, loop: string, opening: bool)
    requires Plain(loop)
    ensures t.body == "#" + loop ==> Uses([t], loop, opening) == if opening then 1 else 0
    ensures t.body == "/" + loop ==> Uses([t], loop, opening) == if opening then 0 else 1
  {
    hide Plain;
    PlainIsBraceless(loop);
    assert ("#" + loop)[1..] == loop && ("/" + loop)[1..] == loop && [t][1..] == [];
  }

  lemma OpenedUses(text: string, loop: string, opening: bool)
    requires Plain(loop)
    ensures Uses(Tags(Braced("#" + loop) + text), loop, opening) == Uses(Tags(text), loop, opening) + if opening then 1 else 0
  {
    hide Plain, Scan, Uses;
    PlainIsBraceless(loop);
    var tag := "#" + loop;
    ScanOfTwo(Braced(tag), text, 0, None);
    ScanBraced(tag, 0, None);
    BracedLength(tag);
    ScanMoved(text, 0, None, |loop| + 3);
    var first := [Tag(0, |loop| + 3, tag)];
    assert Tags(Braced(tag) + text) == first + MoveAll(Tags(text), |loop| + 3);
    UsesOfTwo(first, MoveAll(Tags(text), |loop| + 3), loop, opening);
    UsesMoved(Tags(text), |loop| + 3, loop, opening);
    LoopTagUses(first[0], loop, opening);
  }

  lemma ClosedUses(text: string, loop: string, opening: bool)
    requires Plain(loop)
    ensures Uses(Tags(text + Braced("/" + loop)), loop, opening) == Uses(Tags(text), loop, opening) + if opening then 0 else 1
  {
    hide Plain, Tags, Uses;
    ClosedTags(text, loop);
    var last := Tag(|text|, |text| + |loop| + 3, "/" + loop);
    UsesOfTwo(Tags(text), [last], loop, opening);
    LoopTagUses(last, loop, opening);
  }

  // The tags around a row are one more of each.
  lemma LoopedUses(texts: seq<string>, loop: string, opening: bool)
    requires texts != [] && Plain(loop)
    ensures PartUses(Looped(texts, loop), loop, opening) == PartUses(texts, loop, opening) + 1
  {
    hide Plain, Tags, Uses, Braced;
    var start := Opened(texts, loop);
    OpenedUses(texts[0], loop, opening);
    assert start[1..] == texts[1..];
    var n := |texts| - 1;
    var front, last := start[..n], start[n];
    ClosedUses(last, loop, opening);
    assert start == front + [last] && Looped(texts, loop) == front + [last + Braced("/" + loop)];
    PartUsesOfTwo(front, [last], loop, opening);
    PartUsesOfTwo(front, [last + Braced("/" + loop)], loop, opening);
    OneTextUses(last, loop, opening);
    OneTextUses(last + Braced("/" + loop), loop, opening);
  }

  lemma OneTextUses(text: string, loop: string, opening: bool)
    ensures PartUses([text], loop, opening) == Uses(Tags(text), loop, opening)
  {
    assert [text][1..] == [];
  }

  // ---------- a row that repeats already ----------

  function RowTexts(nodes: seq<seq<string>>, row: Row): seq<string>
    requires ValidRow(row, |nodes|)
  {
    CellsInOrder(row, |nodes|, 0);
    Texts(nodes)[row.cells[0].first..LastCell(row).first + LastCell(row).count]
  }

  lemma {:induction false} TagInFlat(nodes: seq<string>, k: nat, name: string)
    requires k < |nodes| && Braceless(name) && Includes(nodes[k], Braced(name))
    ensures exists t :: t in Tags(Flatten(nodes)) && t.body == name
  {
    hide Tags, Includes, Braced;
    InFlat(nodes, k, Braced(name));
    TagIncludedIff(Flatten(nodes), name);
  }

  lemma {:induction false} InFlat(nodes: seq<string>, k: nat, part: string)
    requires k < |nodes| && Includes(nodes[k], part)
    ensures Includes(Flatten(nodes), part)
  {
    hide Includes;
    IncludesIs(nodes[k], part);
    IncludesIs(Flatten(nodes), part);
    if k == 0 {
      var i: nat :| StandsAt(nodes[0], part, i);
      assert Flatten(nodes)[i..i + |part|] == nodes[0][i..i + |part|];
      assert StandsAt(Flatten(nodes), part, i);
    } else {
      InFlat(nodes[1..], k - 1, part);
      IncludesIs(Flatten(nodes[1..]), part);
      var i: nat :| StandsAt(Flatten(nodes[1..]), part, i);
      assert Flatten(nodes)[|nodes[0]| + i..|nodes[0]| + i + |part|] == Flatten(nodes[1..])[i..i + |part|];
      assert StandsAt(Flatten(nodes), part, |nodes[0]| + i);
    }
  }

  lemma {:induction false} UsedWhereFound(tags: seq<Tag>, t: Tag, loop: string)
    requires t in tags && Plain(loop) && t.body == "#" + loop
    ensures Uses(tags, loop, true) > 0
  {
    hide OpensLoop, ClosesLoop, Plain;
    if tags[0] == t {
      LoopTagUses(t, loop, true);
      UsesOfTwo([t], tags[1..], loop, true);
      assert tags == [t] + tags[1..];
    } else {
      UsedWhereFound(tags[1..], t, loop);
    }
  }

  lemma {:induction false} PartUsedWhereFound(texts: seq<string>, b: nat, loop: string)
    requires b < |texts| && Uses(Tags(texts[b]), loop, true) > 0
    ensures PartUses(texts, loop, true) > 0
  {
    hide Uses, Tags;
    if b > 0 {
      PartUsedWhereFound(texts[1..], b - 1, loop);
    }
  }

  // The source's test sees only tags the reader sees too.
  lemma SeenIsRead(nodes: seq<seq<string>>, row: Row, loop: string)
    requires ValidRow(row, |nodes|) && Plain(loop) && RowHas(nodes, row, Braced("#" + loop))
    ensures PartUses(RowTexts(nodes, row), loop, true) > 0
  {
    hide Tags, Includes, Plain, Braced, Uses, PartUses;
    PlainIsBraceless(loop);
    CellsInOrder(row, |nodes|, 0);
    var b, k :| && row.cells[0].first <= b < LastCell(row).first + LastCell(row).count && b < |nodes|
                && 0 <= k < |nodes[b]| && Includes(nodes[b][k], Braced("#" + loop));
    TagInFlat(nodes[b], k, "#" + loop);
    var t :| t in Tags(Flatten(nodes[b])) && t.body == "#" + loop;
    UsedWhereFound(Tags(Flatten(nodes[b])), t, loop);
    PartUsedWhereFound(RowTexts(nodes, row), b - row.cells[0].first, loop);
  }

  // For every row: it is left as it is if and only if one text node holds the whole opening tag; otherwise
  // its texts get one more opening and one more closing tag. So a row that repeats already is wrapped a
  // second time exactly when Word split its opening tag, or it is not written as the source writes it.
  lemma WrappedUnlessSeen(nodes: seq<seq<string>>, row: Row, loop: string, opening: bool)
    requires ValidRow(row, |nodes|) && Plain(loop)
    ensures |WrappedNodes(nodes, row, loop)| == |nodes|
    ensures WrappedNodes(nodes, row, loop) == nodes <==> RowHas(nodes, row, Braced("#" + loop))
    ensures PartUses(RowTexts(WrappedNodes(nodes, row, loop), row), loop, opening)
         == PartUses(RowTexts(nodes, row), loop, opening) + if RowHas(nodes, row, Braced("#" + loop)) then 0 else 1
    ensures RowHas(nodes, row, Braced("#" + loop)) ==> PartUses(RowTexts(nodes, row), loop, true) > 0
  {
    hide Includes, Braced, RowHas, Plain, PartUses, RowStart, RowEnd, WrappedNodes, Looped;
    if RowHas(nodes, row, Braced("#" + loop)) {
      SeenIsRead(nodes, row, loop);
      LeftAsItIs(nodes, row, loop);
    } else {
      WrappedText(nodes, row, loop);
      RowSpans(nodes, row, loop);
      var texts, o, c := Texts(nodes), RowStart(nodes, row), RowEnd(nodes, row, loop);
      var s, e := row.cells[0].first, LastCell(row).first + LastCell(row).count;
      var wrapped := Looped(texts[o..c], loop);
      LoopedLength(texts[o..c], loop);
      var after := texts[..o] + wrapped + texts[c..];
      assert after[s..e] == texts[s..o] + wrapped + texts[c..e];
      assert texts[s..e] == texts[s..o] + texts[o..c] + texts[c..e];
      UsesAround(texts[s..o], texts[o..c], texts[c..e], loop, opening);
      UsesAround(texts[s..o], texts[o..c], texts[c..e], loop, !opening);
    }
  }

  lemma LeftAsItIs(nodes: seq<seq<string>>, row: Row, loop: string)
    requires ValidRow(row, |nodes|) && RowHas(nodes, row, Braced("#" + loop))
    ensures WrappedNodes(nodes, row, loop) == nodes
  {
  }

  lemma LoopedLength(texts: seq<string>, loop: string)
    requires texts != []
    ensures |Looped(texts, loop)| == |texts|
  {
  }

  lemma UsesAround(before: seq<string>, row: seq<string>, after: seq<string>, loop: string, opening: bool)
    requires row != [] && Plain(loop)
    ensures PartUses(before + Looped(row, loop) + after, loop, opening) == PartUses(before + row + after, loop, opening) + 1
  {
    hide PartUses, Plain, Looped;
    PartUsesOfTwo(before + Looped(row, loop), after, loop, opening);
    PartUsesOfTwo(before, Looped(row, loop), loop, opening);
    PartUsesOfTwo(before + row, after, loop, opening);
    PartUsesOfTwo(before, row, loop, opening);
    LoopedUses(row, loop, opening);
  }

  lemma RowSpans(nodes: seq<seq<string>>, row: Row, loop: string)
    requires ValidRow(row, |nodes|)
    ensures row.cells[0].first <= RowStart(nodes, row) < RowEnd(nodes, row, loop) <= LastCell(row).first + LastCell(row).count <= |nodes|
  {
    CellsInOrder(row, |nodes|, 0);
    RowEnds(nodes, row, Braced("#" + loop));
  }

  // ---------- a repeated row the source does not recognise ----------

  lemma {:induction false} TooShortToInclude(s: string, part: string)
    requires |s| < |part|
    ensures !Includes(s, part)
  {
    if s != "" {
      TooShortToInclude(s[1..], part);
    }
  }

  const SPLIT_ROW: seq<seq<string>> := [["{#ro", "ws}", "{/rows}"]]
  const ONE_CELL := Row(0, [Cell(0, 1)])

  lemma SplitTagText()
    ensures Flatten(SPLIT_ROW[0]) == Braced("#rows") + Braced("/rows")
  {
    var nodes := SPLIT_ROW[0];
    assert nodes[1..] == ["ws}", "{/rows}"] && nodes[1..][1..] == ["{/rows}"] && nodes[1..][1..][1..] == [];
    assert Flatten(nodes) == "{#ro" + ("ws}" + ("{/rows}" + ""));
    assert "{#ro" + "ws}" == Braced("#rows") && "{/rows}" + "" == Braced("/rows");
    assert Flatten(nodes) == ("{#ro" + "ws}") + ("{/rows}" + "");
  }

  lemma SplitTagIsNotSeen()
    ensures ValidRow(ONE_CELL, |SPLIT_ROW|) && !RowHas(SPLIT_ROW, ONE_CELL, Braced("#rows"))
  {
    var tag := Braced("#rows");
    assert |tag| == 7 && tag[1] == '#';
    TooShortToInclude("{#ro", tag);
    TooShortToInclude("ws}", tag);
    assert !(tag <= "{/rows}") && "{/rows}"[1..] == "/rows}";
    TooShortToInclude("/rows}", tag);
  }

  // A row that repeats already, its opening tag split over two text nodes, is wrapped a second time.
  lemma SplitTagIsWrappedAgain()
    ensures ValidRow(ONE_CELL, |SPLIT_ROW|) && Texts(SPLIT_ROW) == [Braced("#rows") + Braced("/rows")]
    ensures Texts(WrappedNodes(SPLIT_ROW, ONE_CELL, "rows"))
         == [Braced("#rows") + Braced("#rows") + Braced("/rows") + Braced("/rows")]
  {
    hide Includes, Braced, Flatten;
    var tag, end := Braced("#rows"), Braced("/rows");
    assert "#" + "rows" == "#rows" && "/" + "rows" == "/rows";
    SplitTagText();
    SplitTagIsNotSeen();
    assert RowOpens(SPLIT_ROW, ONE_CELL) == 0 && RowCloses(Prefixed(SPLIT_ROW, 0, tag), ONE_CELL) == 0;
    PrefixedText(SPLIT_ROW, 0, tag);
    SuffixedText(Prefixed(SPLIT_ROW, 0, tag), 0, end);
    assert tag + (tag + end) + end == tag + tag + end + end;
  }

  // ---------- marking neither adds nor hides the loop's opening tag ----------

  predicate HasBody(tags: seq<Tag>, name: string) {
    exists t :: t in tags && t.body == name
  }

  lemma {:induction false} MovedBodies(tags: seq<Tag>, shift: int, name: string)
    ensures HasBody(MoveAll(tags, shift), name) <==> HasBody(tags, name)
  {
    if tags != [] {
      MovedBodies(tags[1..], shift, name);
      assert HasBody(tags, name) <==> tags[0].body == name || HasBody(tags[1..], name) by {
        assert tags == [tags[0]] + tags[1..];
      }
      var moved := MoveAll(tags, shift);
      assert moved == [Move(tags[0], shift)] + MoveAll(tags[1..], shift);
      assert moved[0] in moved;
    }
  }

  lemma BodiesAnywhere(text: string, at: int, name: string)
    ensures HasBody(Scan(text, at, None), name) <==> HasBody(Tags(text), name)
  {
    hide Scan, MoveAll;
    ScanMoved(text, 0, None, at);
    MovedBodies(Tags(text), at, name);
  }

  lemma BodiesOfTwo(a: seq<Tag>, b: seq<Tag>, name: string)
    ensures HasBody(a + b, name) <==> HasBody(a, name) || HasBody(b, name)
  {
    assert forall t :: t in a + b <==> t in a || t in b;
  }

  lemma NoTagsInNothing(at: int, name: string)
    ensures Scan("", at, None) == [] && !HasBody([], name)
  {
  }

  // The markers keep clear of the tags of a node and bring none of this name: what is left of the node has
  // such a tag exactly when the node had one.
  lemma {:induction false} NodeKeepsTag(node: string, from: nat, marks: seq<Mark>, lo: nat, length: nat, name: string)
    requires InOrder(marks, lo, length) && Clear(Scan(node, from, None), marks)
    requires forall m :: m in marks ==> Balanced(m.text) && !HasBody(Tags(m.text), name)
    ensures HasBody(Tags(EmitNode(node, from, marks)), name) <==> HasBody(Tags(node), name)
    decreases |marks|, 0
  {
    hide Scan, EmitNode, Balanced, HasBody, Emit;
    InOrderBounds(marks, lo, length);
    if node == "" {
      EmitNothing(node, from, marks);
    } else if marks == [] {
      EmitNodeUntouched(node, from, marks);
    } else {
      var m, rest := marks[0], marks[1..];
      assert marks == [m] + rest && m in marks;
      InOrderBounds(rest, m.end, length);
      if m.end <= from {
        EmitNodePast(node, from, m, rest);
        NodeKeepsTag(node, from, rest, m.end, length, name);
      } else if from + |node| <= m.start {
        EmitNodeUntouched(node, from, marks);
      } else {
        NodeCutKeepsTag(node, from, m, rest, length, name);
      }
    }
  }

  lemma NodeCutKeepsTag(node: string, from: nat, m: Mark, rest: seq<Mark>, length: nat, name: string)
    requires m.start < m.end && InOrder(rest, m.end, length) && Clear(Scan(node, from, None), [m] + rest)
    requires forall x :: x in [m] + rest ==> Balanced(x.text) && !HasBody(Tags(x.text), name)
    requires node != "" && m.start < from + |node| && from < m.end
    ensures HasBody(Tags(EmitNode(node, from, [m] + rest)), name) <==> HasBody(Tags(node), name)
    decreases |rest|, 1
  {
    hide Scan, EmitNode, Balanced, HasBody, Emit;
    var cut, keep := Max(m.start - from, 0), Min(m.end - from, |node|);
    InOrderBounds(rest, m.end, length);
    NodeWithMark(node, from, cut, keep, m, rest);
    var a, s, b := node[..cut], node[cut..keep], node[keep..];
    assert node == a + s + b && m in [m] + rest;
    TagsAroundRange(a, s, b, from);
    var tail := EmitNode(b, from + keep, rest);
    forall t, x | t in Scan(b, from + keep, None) && x in rest
      ensures t.end <= x.start || x.end <= t.start
    {
      assert t in Scan(node, from, None) && x in [m] + rest;
    }
    assert forall x :: x in rest ==> x in [m] + rest;
    NodeKeepsTag(b, from + keep, rest, m.end, length, name);
    BodiesOfTwo(Scan(a, from, None), Scan(b, from + keep, None), name);
    BodiesAnywhere(node, from, name);
    BodiesAnywhere(a, from, name);
    BodiesAnywhere(b, from + keep, name);
    if m.start < from {
      NoTagsInNothing(from, name);
      assert a == "" && a + "" + tail == tail;
    } else {
      MarkedTail(a, m.text, tail, 0);
      BodiesOfTwo(Tags(a) + Scan(m.text, |a|, None), Scan(tail, |a| + |m.text|, None), name);
      BodiesOfTwo(Tags(a), Scan(m.text, |a|, None), name);
      BodiesAnywhere(m.text, |a|, name);
      BodiesAnywhere(tail, |a| + |m.text|, name);
    }
  }

  lemma {:induction false} NoLoopTagListed(names: seq<string>, at: int, name: string)
    requires name !in names
    ensures !HasBody(TagList(names, at), name)
  {
    if names != [] {
      NoLoopTagListed(names[1..], at + |names[0]| + 2, name);
      var rest := TagList(names[1..], at + |names[0]| + 2);
      assert forall t :: t in TagList(names, at) ==> t.body == names[0] || t in rest;
    }
  }

  // No marker opens the table loop.
  lemma MarkHasNoLoopTag(m: Mark, loop: string, catalog: Catalog)
    requires WellFormed(catalog) && Fits(m, catalog) && loop in catalog.loops && catalog.loops[loop].kind.TableRow?
    ensures !HasBody(Tags(m.text), "#" + loop)
  {
    hide Scan, HasBody, Plain, Balanced, TagList, KindOf, MarkerFor, WellFormed;
    var opening := "#" + loop;
    if KindOf(m.field, catalog) == Some(RowField) {
      var name, inner := RowFieldParts(m.field, catalog);
      RowFieldReads(name, inner, [], catalog);
      NamesArePlain(name, inner, catalog);
      PlainTagIsOther(inner, opening);
    } else {
      OtherKindIs(m.field, catalog);
      if KindOf(m.field, catalog) == Some(ScalarField) {
        ScalarMarker(m.field, catalog);
        PlainTagIsOther(m.field, opening);
      } else {
        ListMarkerIs(m.field, catalog);
        ListMarkerTags(m.field, catalog.loops[m.field].fields, 0);
        ListTagsAreOther(m.field, catalog.loops[m.field].fields, loop);
        NoLoopTagListed(ListTags(m.field, catalog.loops[m.field].fields), 0, opening);
      }
    }
  }

  lemma PlainTagIsOther(name: string, opening: string)
    requires Plain(name) && opening != "" && opening[0] == '#'
    ensures !HasBody(Tags(Braced(name)), opening)
  {
    hide Scan;
    PlainIsBraceless(name);
    ScanBraced(name, 0, None);
  }

  lemma ListTagsAreOther(field: string, fields: seq<string>, loop: string)
    requires field != loop && forall i :: 0 <= i < |fields| ==> Plain(fields[i])
    ensures "#" + loop !in ListTags(field, fields)
  {
    var opening := "#" + loop;
    assert ("#" + field)[1..] == field && opening[1..] == loop && ("/" + field)[0] == '/';
    assert forall i :: 0 <= i < |fields| ==> fields[i][0] != '#';
  }

  lemma {:induction false} ImageAt(nodes: seq<string>, from: nat, marks: seq<Mark>, k: nat)
    requires k < |nodes|
    ensures |Image(nodes, from, marks)| == |nodes|
    ensures Image(nodes, from, marks)[k] == EmitNode(nodes[k], from + |Flatten(nodes[..k])|, marks)
  {
    hide EmitNode;
    ImageLength(nodes, from, marks);
    if k == 0 {
      assert nodes[..0] == [] && Flatten([]) == "";
    } else {
      ImageAt(nodes[1..], from + |nodes[0]|, marks, k - 1);
      assert nodes[..k][1..] == nodes[1..][..k - 1];
    }
  }

  lemma {:induction false} NodeInFlat(nodes: seq<string>, k: nat)
    requires k < |nodes|
    ensures |Flatten(nodes[..k])| + |nodes[k]| <= |Flatten(nodes)|
    ensures Flatten(nodes)[|Flatten(nodes[..k])|..|Flatten(nodes[..k])| + |nodes[k]|] == nodes[k]
  {
    FlattenOfTwo(nodes[..k], nodes[k..]);
    assert nodes == nodes[..k] + nodes[k..] && nodes[k..][0] == nodes[k];
    assert Flatten(nodes[k..])[..|nodes[k]|] == nodes[k];
  }

  lemma {:induction false} FlattenOfTwo(a: seq<string>, b: seq<string>)
    ensures Flatten(a + b) == Flatten(a) + Flatten(b)
  {
    if a == [] {
      assert a + b == b;
    } else {
      assert (a + b)[1..] == a[1..] + b;
      FlattenOfTwo(a[1..], b);
    }
  }

  // The tags of a node are tags of the paragraph.
  lemma NodeTagsArePartOf(flat: string, node: string, from: nat, t: Tag)
    requires from + |node| <= |flat| && flat[from..from + |node|] == node
    requires t in Scan(node, from, None)
    ensures t in Tags(flat)
  {
    hide Scan, Braceless;
    ScanMoved(node, 0, None, from);
    var own := UnMoved(Tags(node), from, t);
    ScanIsExact(node, own);
    MatchMoves(flat, node, from, own);
    ScanIsExact(flat, t);
  }

  lemma MatchMoves(flat: string, node: string, from: nat, own: Tag)
    requires from + |node| <= |flat| && flat[from..from + |node|] == node
    requires IsMatch(node, own)
    ensures IsMatch(flat, Move(own, from))
  {
    hide Braceless;
    var end := from + |node|;
    assert flat[from..end][own.start] == flat[from + own.start] && flat[from..end][own.end - 1] == flat[from + own.end - 1];
    assert flat[from..end][own.start + 1..own.end - 1] == flat[from + own.start + 1..from + own.end - 1];
  }

  lemma {:induction false} UnMoved(tags: seq<Tag>, shift: int, t: Tag) returns (own: Tag)
    requires t in MoveAll(tags, shift)
    ensures own in tags && t == Move(own, shift)
  {
    if t == Move(tags[0], shift) {
      own := tags[0];
    } else {
      own := UnMoved(tags[1..], shift, t);
    }
  }

  lemma MarkedNodeKeepsTag(nodes: seq<string>, marks: seq<Mark>, k: nat, loop: string, catalog: Catalog)
    requires WellFormed(catalog) && loop in catalog.loops && catalog.loops[loop].kind.TableRow?
    requires Markable(Flatten(nodes), marks, catalog) && k < |nodes|
    ensures |Image(nodes, 0, marks)| == |nodes|
    ensures Includes(Image(nodes, 0, marks)[k], Braced("#" + loop)) <==> Includes(nodes[k], Braced("#" + loop))
  {
    hide Scan, Includes, Braced, Plain, Balanced, EmitNode, InOrder, Image, Fits, HasBody, WellFormed;
    var flat, opening := Flatten(nodes), "#" + loop;
    var from := |Flatten(nodes[..k])|;
    ImageAt(nodes, 0, marks, k);
    NodeInFlat(nodes, k);
    TableLoopIsPlain(loop, catalog);
    forall m | m in marks
      ensures Balanced(m.text) && !HasBody(Tags(m.text), opening)
    {
      FitsReads(m, [], catalog);
      MarkHasNoLoopTag(m, loop, catalog);
    }
    forall t, m | t in Scan(nodes[k], from, None) && m in marks
      ensures t.end <= m.start || m.end <= t.start
    {
      NodeTagsArePartOf(flat, nodes[k], from, t);
    }
    NodeKeepsTag(nodes[k], from, marks, 0, |flat|, opening);
    IncludesBody(nodes[k], opening);
    IncludesBody(EmitNode(nodes[k], from, marks), opening);
  }

  lemma IncludesBody(s: string, name: string)
    requires Braceless(name)
    ensures Includes(s, Braced(name)) <==> HasBody(Tags(s), name)
  {
    hide Tags, Includes;
    TagIncludedIff(s, name);
  }

  lemma TableLoopIsPlain(loop: string, catalog: Catalog)
    requires WellFormed(catalog) && loop in catalog.loops
    ensures Plain(loop) && Braceless("#" + loop)
  {
    PlainIsBraceless(loop);
  }

  lemma {:induction false} SameFirst(a: seq<seq<string>>, b: seq<seq<string>>, cell: Cell, p: nat)
    requires |a| == |b| && forall q :: 0 <= q < |a| ==> (a[q] == [] <==> b[q] == [])
    requires cell.first <= p <= cell.first + cell.count <= |a| && cell.count > 0
    requires forall q :: cell.first <= q < p ==> a[q] == []
    ensures FirstWithText(a, cell, p) == FirstWithText(b, cell, p)
    decreases cell.first + cell.count - p
  {
    if p < cell.first + cell.count && a[p] == [] {
      SameFirst(a, b, cell, p + 1);
    }
  }

  lemma {:induction false} SameLast(a: seq<seq<string>>, b: seq<seq<string>>, cell: Cell, p: nat)
    requires |a| == |b| && forall q :: 0 <= q < |a| ==> (a[q] == [] <==> b[q] == [])
    requires cell.first <= p <= cell.first + cell.count <= |a| && cell.count > 0
    requires forall q :: p <= q < cell.first + cell.count ==> a[q] == []
    ensures LastWithText(a, cell, p) == LastWithText(b, cell, p)
    decreases p
  {
    if p > cell.first && a[p - 1] == [] {
      SameLast(a, b, cell, p - 1);
    }
  }

  // Whether an accepted request wraps a row, and where, depends on the part as it was: marking neither
  // hides the opening tag nor makes one, and empties no paragraph of its text nodes.
  lemma WrapIsOfTheOldPart(nodes: seq<seq<string>>, selections: seq<Selection>, rows: seq<Row>, r: nat, catalog: Catalog)
    requires WellFormed(catalog) && OneTableLoop(catalog)
    requires forall k :: 0 <= k < |rows| ==> ValidRow(rows[k], |nodes|)
    requires Accepted(selections, Texts(nodes), rows, catalog) && AllInRange(selections, Texts(nodes))
    requires FirstRow(selections, |selections|, rows, catalog) == Some(r)
    ensures var loop := TableLoop(catalog);
            WrapOf(nodes, selections, rows, catalog)
            == if RowHas(nodes, rows[r], Braced("#" + loop)) then Repeats(r)
               else Wraps(r, RowStart(nodes, rows[r]), RowEnd(nodes, rows[r], loop))
  {
    hide Accepted, WellFormed, OneTableLoop, AllInRange, BlockMarks, FirstRow, Braced, RowHas, RowStart, RowEnd, MarkedNodes;
    TableLoopExists(selections, |selections|, rows, catalog);
    MarkedBlocksKeepTag(nodes, selections, rows, catalog);
    SameHas(nodes, MarkedNodes(nodes, selections, catalog), rows[r], Braced("#" + TableLoop(catalog)));
    SameEnds(nodes, MarkedNodes(nodes, selections, catalog), rows[r], TableLoop(catalog));
  }

  predicate SameTags(a: seq<seq<string>>, b: seq<seq<string>>, tag: string) {
    && |a| == |b|
    && (forall p :: 0 <= p < |a| ==> |a[p]| == |b[p]|)
    && (forall p, k :: 0 <= p < |a| && 0 <= k < |a[p]| ==> (Includes(b[p][k], tag) <==> Includes(a[p][k], tag)))
  }

  lemma MarkedBlocksKeepTag(nodes: seq<seq<string>>, selections: seq<Selection>, rows: seq<Row>, catalog: Catalog)
    requires WellFormed(catalog) && OneTableLoop(catalog)
    requires Accepted(selections, Texts(nodes), rows, catalog) && AllInRange(selections, Texts(nodes))
    requires TableLoop(catalog) in catalog.loops && catalog.loops[TableLoop(catalog)].kind.TableRow?
    ensures SameTags(nodes, MarkedNodes(nodes, selections, catalog), Braced("#" + TableLoop(catalog)))
  {
    hide Accepted, WellFormed, OneTableLoop, AllInRange, BlockMarks, Includes, Braced, Markable, Image;
    var texts, loop := Texts(nodes), TableLoop(catalog);
    forall b | 0 <= b < |nodes|
      ensures |Image(nodes[b], 0, BlockMarks(selections, b, texts, catalog))| == |nodes[b]|
      ensures forall k :: 0 <= k < |nodes[b]| ==>
                (Includes(Image(nodes[b], 0, BlockMarks(selections, b, texts, catalog))[k], Braced("#" + loop))
                 <==> Includes(nodes[b][k], Braced("#" + loop)))
    {
      BlockIsMarkable(selections, b, texts, rows, catalog);
      var marks := BlockMarks(selections, b, texts, catalog);
      ImageLength(nodes[b], 0, marks);
      forall k | 0 <= k < |nodes[b]|
        ensures Includes(Image(nodes[b], 0, marks)[k], Braced("#" + loop)) <==> Includes(nodes[b][k], Braced("#" + loop))
      {
        MarkedNodeKeepsTag(nodes[b], marks, k, loop, catalog);
      }
    }
  }

  lemma SameHas(a: seq<seq<string>>, b: seq<seq<string>>, row: Row, tag: string)
    requires SameTags(a, b, tag) && ValidRow(row, |a|)
    ensures RowHas(a, row, tag) <==> RowHas(b, row, tag)
  {
    hide Includes;
    if RowHas(a, row, tag) {
      var p, k :| && row.cells[0].first <= p < LastCell(row).first + LastCell(row).count && p < |a|
                  && 0 <= k < |a[p]| && Includes(a[p][k], tag);
      assert Includes(b[p][k], tag);
    }
    if RowHas(b, row, tag) {
      var p, k :| && row.cells[0].first <= p < LastCell(row).first + LastCell(row).count && p < |b|
                  && 0 <= k < |b[p]| && Includes(b[p][k], tag);
      assert Includes(a[p][k], tag);
    }
  }

  lemma SameEnds(a: seq<seq<string>>, b: seq<seq<string>>, row: Row, loop: string)
    requires SameTags(a, b, Braced("#" + loop)) && ValidRow(row, |a|)
    ensures RowStart(a, row) == RowStart(b, row) && RowEnd(a, row, loop) == RowEnd(b, row, loop)
  {
    hide Braced, Includes;
    var tag := Braced("#" + loop);
    SameFirst(a, b, row.cells[0], row.cells[0].first);
    var o := RowOpens(a, row);
    var x, y := Prefixed(a, o, tag), Prefixed(b, o, tag);
    assert forall q :: 0 <= q < |x| ==> (x[q] == [] <==> y[q] == []);
    SameLast(x, y, LastCell(row), LastCell(row).first + LastCell(row).count);
  }
}
