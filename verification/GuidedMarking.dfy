/** Writing markers into the text nodes of a paragraph: selected ranges of the flattened text, which
    Word splits over many nodes, replaced from the end backwards. */
module GuidedMarking {
  import opened Batching

  // A range of a paragraph's flattened text, the marker that takes its place and the field it stands for.
  datatype Mark = Mark(start: nat, end: nat, text: string, field: string)

  function Max(a: int, b: int): int {
    if a > b then a else b
  }

  // ---------- what one replacement does to the nodes ----------

  // The source's pass over the text nodes, from absolute offset `from`.
  function ReplaceFrom(nodes: seq<string>, from: nat, start: nat, end: nat, replacement: string, written: bool): seq<string>
    requires start < end
  {
    if nodes == [] then []
    else
      var value := nodes[0];
      var offset := from + |value|;
      if offset <= start || from >= end then
        [value] + ReplaceFrom(nodes[1..], offset, start, end, replacement, written)
      else
        [ReplaceIn(value, from, start, end, replacement, written)]
        + ReplaceFrom(nodes[1..], offset, start, end, replacement, true)
  }

  function ReplaceIn(value: string, from: nat, start: nat, end: nat, replacement: string, written: bool): string
    requires start < from + |value| && from < end
  {
    var cut := Max(start - from, 0);
    var keep := Min(end - from, |value|);
    value[..cut] + (if written then "" else replacement) + value[keep..]
  }

  // ---------- simultaneous substitution, character by character ----------

  predicate Inside(mark: Mark, p: nat) {
    mark.start < p < mark.end
  }

  // What stands for the character at position p: a marker where a range starts, nothing inside a
  // range, the character itself elsewhere.
  function Emit(c: char, marks: seq<Mark>, p: nat): string {
    if marks == [] then [c]
    else if marks[0].start == p then marks[0].text
    else if Inside(marks[0], p) then ""
    else Emit(c, marks[1..], p)
  }

  // The characters of a node that starts at position `from`.
  function EmitNode(node: string, from: nat, marks: seq<Mark>): string {
    if node == "" then "" else Emit(node[0], marks, from) + EmitNode(node[1..], from + 1, marks)
  }

  // Every node keeps what its own characters become.
  function Image(nodes: seq<string>, from: nat, marks: seq<Mark>): seq<string> {
    if nodes == [] then [] else [EmitNode(nodes[0], from, marks)] + Image(nodes[1..], from + |nodes[0]|, marks)
  }

  predicate Overlaps(a: Mark, b: Mark) {
    a.start < b.end && b.start < a.end
  }

  predicate Disjoint(marks: seq<Mark>) {
    forall i, k :: 0 <= i < k < |marks| ==> !Overlaps(marks[i], marks[k])
  }

  // ---------- one replacement is one more mark ----------

  lemma {:induction false} EmitSplit(node: string, k: nat, from: nat, marks: seq<Mark>)
    requires k <= |node|
    ensures EmitNode(node, from, marks) == EmitNode(node[..k], from, marks) + EmitNode(node[k..], from + k, marks)
  {
    if k > 0 {
      EmitSplit(node[1..], k - 1, from + 1, marks);
      assert node[1..][..k - 1] == node[..k][1..] && node[1..][k - 1..] == node[k..];
    } else {
      assert node[k..] == node && node[..k] == "";
    }
  }

  predicate Untouched(marks: seq<Mark>, p: nat) {
    forall m :: m in marks ==> p < m.start || m.end <= p
  }

  lemma {:induction false} EmitUntouched(c: char, marks: seq<Mark>, p: nat)
    requires Untouched(marks, p)
    requires forall m :: m in marks ==> m.start < m.end
    ensures Emit(c, marks, p) == [c]
  {
    if marks != [] {
      assert marks[0] in marks;
      EmitUntouched(c, marks[1..], p);
    }
  }

  lemma {:induction false} EmitNodeUntouched(node: string, from: nat, marks: seq<Mark>)
    requires forall p :: from <= p < from + |node| ==> Untouched(marks, p)
    requires forall m :: m in marks ==> m.start < m.end
    ensures EmitNode(node, from, marks) == node
  {
    if node != "" {
      EmitUntouched(node[0], marks, from);
      EmitNodeUntouched(node[1..], from + 1, marks);
    }
  }

  lemma {:induction false} EmitNodeInside(node: string, from: nat, mark: Mark, marks: seq<Mark>)
    requires mark.start < from && from + |node| <= mark.end
    ensures EmitNode(node, from, [mark] + marks) == ""
  {
    if node != "" {
      EmitNodeInside(node[1..], from + 1, mark, marks);
    }
  }

  lemma {:induction false} EmitNodePast(node: string, from: nat, mark: Mark, marks: seq<Mark>)
    requires mark.start < mark.end <= from
    ensures EmitNode(node, from, [mark] + marks) == EmitNode(node, from, marks)
  {
    if node != "" {
      EmitNodePast(node[1..], from + 1, mark, marks);
      assert ([mark] + marks)[1..] == marks;
    }
  }

  lemma {:induction false} EmitNodeBefore(node: string, from: nat, mark: Mark, marks: seq<Mark>)
    requires from + |node| <= mark.start
    ensures EmitNode(node, from, [mark] + marks) == EmitNode(node, from, marks)
  {
    if node != "" {
      EmitNodeBefore(node[1..], from + 1, mark, marks);
      assert ([mark] + marks)[1..] == marks;
    }
  }

  // The part of a node the new mark covers.
  lemma EmitNodeCovered(node: string, from: nat, mark: Mark, marks: seq<Mark>)
    requires node != "" && mark.start <= from && from + |node| <= mark.end
    ensures EmitNode(node, from, [mark] + marks) == if mark.start == from then mark.text else ""
  {
    EmitNodeInside(node[1..], from + 1, mark, marks);
  }

  predicate After(marks: seq<Mark>, bound: nat) {
    forall m :: m in marks ==> bound <= m.start < m.end
  }

  // A node that starts before the new mark ends: the earlier replacements left its first part alone.
  lemma NodeSoFar(node: string, from: nat, keep: nat, marks: seq<Mark>)
    requires keep <= |node| && After(marks, from + keep)
    ensures EmitNode(node, from, marks) == node[..keep] + EmitNode(node[keep..], from + keep, marks)
  {
    EmitSplit(node, keep, from, marks);
    EmitNodeUntouched(node[..keep], from, marks);
  }

  lemma NodeBeforeMark(node: string, from: nat, mark: Mark, marks: seq<Mark>)
    requires from + |node| <= mark.start < mark.end && After(marks, mark.end)
    ensures EmitNode(node, from, [mark] + marks) == node
  {
    EmitNodeBefore(node, from, mark, marks);
    EmitNodeUntouched(node, from, marks);
  }

  // The part of a node up to where the new mark ends, or up to the node's own end.
  lemma NodeUnderMark(node: string, from: nat, cut: nat, mark: Mark, marks: seq<Mark>)
    requires mark.start < mark.end && After(marks, mark.end) && from + |node| <= mark.end
    requires mark.start < from + |node| && cut == Max(mark.start - from, 0)
    ensures EmitNode(node, from, [mark] + marks) == node[..cut] + if mark.start < from then "" else mark.text
  {
    hide EmitNode;
    EmitSplit(node, cut, from, [mark] + marks);
    if cut > 0 {
      NodeBeforeMark(node[..cut], from, mark, marks);
    } else {
      assert node[cut..] == node;
    }
    if node == "" {
      EmitNothing(node, from, [mark] + marks);
    } else {
      EmitNodeCovered(node[cut..], from + cut, mark, marks);
    }
  }

  lemma NodeWithMark(node: string, from: nat, cut: nat, keep: nat, mark: Mark, marks: seq<Mark>)
    requires mark.start < mark.end && After(marks, mark.end)
    requires mark.start < from + |node| && from < mark.end
    requires cut == Max(mark.start - from, 0) && keep == Min(mark.end - from, |node|)
    ensures EmitNode(node, from, [mark] + marks)
         == node[..cut] + (if mark.start < from then "" else mark.text) + EmitNode(node[keep..], from + keep, marks)
  {
    hide EmitNode;
    EmitSplit(node, keep, from, [mark] + marks);
    NodeUnderMark(node[..keep], from, cut, mark, marks);
    assert node[..keep][..cut] == node[..cut];
    if keep < |node| {
      EmitNodePast(node[keep..], from + keep, mark, marks);
    } else {
      EmitNothing(node[keep..], from + keep, marks);
      EmitNothing(node[keep..], from + keep, [mark] + marks);
    }
  }

  lemma EmitNothing(node: string, from: nat, marks: seq<Mark>)
    requires node == ""
    ensures EmitNode(node, from, marks) == ""
  {
  }

  // Its image after the replacement.
  lemma NodeGetsMark(node: string, from: nat, mark: Mark, marks: seq<Mark>)
    requires mark.start < mark.end && After(marks, mark.end)
    requires mark.start < from + |node| && from < mark.end
    ensures mark.start < from + |EmitNode(node, from, marks)|
    ensures ReplaceIn(EmitNode(node, from, marks), from, mark.start, mark.end, mark.text, mark.start < from)
         == EmitNode(node, from, [mark] + marks)
  {
    hide EmitNode, After, Emit;
    var cut, keep := Max(mark.start - from, 0), Min(mark.end - from, |node|);
    NodeSoFarToMark(node, from, keep, mark, marks);
    NodeWithMark(node, from, cut, keep, mark, marks);
    var tail := EmitNode(node[keep..], from + keep, marks);
    if keep == |node| {
      EmitNothing(node[keep..], from + keep, marks);
    }
    ReplaceInPrefix(node, tail, from, cut, keep, mark);
  }

  lemma ReplaceInPrefix(node: string, tail: string, from: nat, cut: nat, keep: nat, mark: Mark)
    requires mark.start < mark.end && mark.start < from + |node| && from < mark.end
    requires cut == Max(mark.start - from, 0) && keep == Min(mark.end - from, |node|)
    requires keep == |node| ==> tail == ""
    ensures mark.start < from + keep + |tail|
    ensures ReplaceIn(node[..keep] + tail, from, mark.start, mark.end, mark.text, mark.start < from)
         == node[..cut] + (if mark.start < from then "" else mark.text) + tail
  {
    var value := node[..keep] + tail;
    assert value[..cut] == node[..cut];
    assert Min(mark.end - from, |value|) == keep;
    assert value[keep..] == tail;
  }

  lemma NodeSoFarToMark(node: string, from: nat, keep: nat, mark: Mark, marks: seq<Mark>)
    requires keep <= |node| && from + keep <= mark.end && After(marks, mark.end)
    ensures EmitNode(node, from, marks) == node[..keep] + EmitNode(node[keep..], from + keep, marks)
  {
    NodeSoFar(node, from, keep, marks);
  }

  // Nodes that start past the new mark do not change, wherever they are now.
  lemma {:induction false} NodesPast(nodes: seq<string>, from: nat, offset: nat, mark: Mark, marks: seq<Mark>, written: bool)
    requires mark.start < mark.end <= from && mark.end <= offset
    ensures ReplaceFrom(Image(nodes, from, marks), offset, mark.start, mark.end, mark.text, written) == Image(nodes, from, [mark] + marks)
  {
    if nodes != [] {
      var image := Image(nodes, from, marks);
      assert image[1..] == Image(nodes[1..], from + |nodes[0]|, marks);
      EmitNodePast(nodes[0], from, mark, marks);
      NodesPast(nodes[1..], from + |nodes[0]|, offset + |image[0]|, mark, marks, written);
    }
  }

  // Replacing a range that ends before every earlier replacement adds its mark to the image.
  lemma {:induction false} ReplacementAddsMark(nodes: seq<string>, from: nat, mark: Mark, marks: seq<Mark>)
    requires mark.start < mark.end && After(marks, mark.end) && from <= mark.end
    ensures ReplaceFrom(Image(nodes, from, marks), from, mark.start, mark.end, mark.text, mark.start < from)
         == Image(nodes, from, [mark] + marks)
  {
    hide EmitNode, ReplaceIn, After;
    if nodes != [] {
      var node, rest := nodes[0], nodes[1..];
      var image := Image(nodes, from, marks);
      var value := image[0];
      assert image[1..] == Image(rest, from + |node|, marks);
      if from >= mark.end {
        NodesPast(nodes, from, from, mark, marks, mark.start < from);
      } else if from + |node| <= mark.start {
        NodeBeforeMark(node, from, mark, marks);
        NodeSoFarToMark(node, from, |node|, mark, marks);
        EmitNothing(node[|node|..], from + |node|, marks);
        assert value == node;
        ReplacementAddsMark(rest, from + |node|, mark, marks);
      } else {
        NodeGetsMark(node, from, mark, marks);
        LongEnough(node, from, mark, marks);
        if from + |node| <= mark.end {
          ReplacementAddsMark(rest, from + |node|, mark, marks);
        } else {
          NodesPast(rest, from + |node|, from + |value|, mark, marks, true);
        }
      }
    }
  }

  // Up to the end of the new mark the earlier replacements moved nothing.
  lemma LongEnough(node: string, from: nat, mark: Mark, marks: seq<Mark>)
    requires After(marks, mark.end) && from < mark.end
    ensures var value := EmitNode(node, from, marks);
            if from + |node| <= mark.end then value == node else from + |value| >= mark.end
  {
    var keep := Min(mark.end - from, |node|);
    EmitSplit(node, keep, from, marks);
    EmitNodeUntouched(node[..keep], from, marks);
    if keep == |node| {
      assert node[..keep] == node;
    }
  }

  // ---------- from the end backwards is all at once ----------

  function Replace(nodes: seq<string>, mark: Mark): seq<string>
    requires mark.start < mark.end
  {
    ReplaceFrom(nodes, 0, mark.start, mark.end, mark.text, false)
  }

  function ReplaceAll(nodes: seq<string>, marks: seq<Mark>): seq<string>
    requires forall m :: m in marks ==> m.start < m.end
  {
    if marks == [] then nodes
    else Replace(ReplaceAll(nodes, marks[..|marks| - 1]), marks[|marks| - 1])
  }

  predicate Descending(marks: seq<Mark>) {
    forall i, k :: 0 <= i < k < |marks| ==> marks[k].start <= marks[i].start
  }

  // Only one mark can cover a position, so the order of the marks does not matter.
  lemma {:induction false} EmitCovered(c: char, marks: seq<Mark>, p: nat, mark: Mark)
    requires mark in marks && mark.start <= p < mark.end && Disjoint(marks)
    requires forall m :: m in marks ==> m.start < m.end
    ensures Emit(c, marks, p) == if mark.start == p then mark.text else ""
  {
    if marks[0] != mark {
      assert mark in marks[1..];
      EmitCovered(c, marks[1..], p, mark);
      var k :| 0 <= k < |marks| && marks[k] == mark;
      assert !Overlaps(marks[0], marks[k]);
    }
  }

  lemma EmitSame(c: char, a: seq<Mark>, b: seq<Mark>, p: nat)
    requires SameMarks(a, b)
    ensures Emit(c, a, p) == Emit(c, b, p)
  {
    if m :| m in a && m.start <= p < m.end {
      EmitCovered(c, a, p, m);
      EmitCovered(c, b, p, m);
    } else {
      EmitUntouched(c, a, p);
      EmitUntouched(c, b, p);
    }
  }

  predicate SameMarks(a: seq<Mark>, b: seq<Mark>) {
    && (forall m :: m in a ==> m in b)
    && (forall m :: m in b ==> m in a)
    && (forall m :: m in a ==> m.start < m.end)
    && Disjoint(a) && Disjoint(b)
  }

  lemma {:induction false} EmitNodeSame(node: string, from: nat, a: seq<Mark>, b: seq<Mark>)
    requires SameMarks(a, b)
    ensures EmitNode(node, from, a) == EmitNode(node, from, b)
  {
    hide SameMarks, Emit;
    if node != "" {
      EmitSame(node[0], a, b, from);
      EmitNodeSame(node[1..], from + 1, a, b);
    }
  }

  lemma {:induction false} ImageSame(nodes: seq<string>, from: nat, a: seq<Mark>, b: seq<Mark>)
    requires SameMarks(a, b)
    ensures Image(nodes, from, a) == Image(nodes, from, b)
  {
    hide SameMarks, EmitNode;
    if nodes != [] {
      EmitNodeSame(nodes[0], from, a, b);
      ImageSame(nodes[1..], from + |nodes[0]|, a, b);
    }
  }

  lemma {:induction false} ImageOfNothing(nodes: seq<string>, from: nat)
    ensures Image(nodes, from, []) == nodes
  {
    if nodes != [] {
      EmitNodeUntouched(nodes[0], from, []);
      ImageOfNothing(nodes[1..], from + |nodes[0]|);
    }
  }

  lemma LastComesFirst(marks: seq<Mark>, n: nat)
    requires |marks| == n + 1 && Descending(marks) && Disjoint(marks)
    requires forall m :: m in marks ==> m.start < m.end
    ensures After(marks[..n], marks[n].end)
    ensures SameMarks([marks[n]] + marks[..n], marks)
  {
    forall m | m in marks[..n]
      ensures marks[n].end <= m.start < m.end
    {
      var i :| 0 <= i < n && marks[i] == m;
      assert !Overlaps(marks[i], marks[n]);
    }
    var turned := [marks[n]] + marks[..n];
    assert marks == marks[..n] + [marks[n]];
    forall i, k | 0 <= i < k < |turned|
      ensures !Overlaps(turned[i], turned[k])
    {
      if i == 0 {
        assert !Overlaps(marks[k - 1], marks[n]);
      } else {
        assert !Overlaps(marks[i - 1], marks[k - 1]);
      }
    }
  }

  // Replacing disjoint ranges one after the other, the last one first, gives every node the image of
  // its own characters: as if all had been replaced at once.
  lemma {:induction false} BackwardsIsAllAtOnce(nodes: seq<string>, marks: seq<Mark>)
    requires Descending(marks) && Disjoint(marks)
    requires forall m :: m in marks ==> m.start < m.end
    ensures ReplaceAll(nodes, marks) == Image(nodes, 0, marks)
  {
    hide Image, ReplaceFrom, SameMarks, After;
    if marks == [] {
      ImageOfNothing(nodes, 0);
    } else {
      var n := |marks| - 1;
      var front, last := marks[..n], marks[n];
      BackwardsIsAllAtOnce(nodes, front);
      LastComesFirst(marks, n);
      ReplacementAddsMark(nodes, 0, last, front);
      ImageSame(nodes, 0, [last] + front, marks);
    }
  }

  // ---------- the flattened text ----------

  lemma {:induction false} FlattenImage(nodes: seq<string>, from: nat, marks: seq<Mark>)
    ensures Flatten(Image(nodes, from, marks)) == EmitNode(Flatten(nodes), from, marks)
  {
    if nodes != [] {
      var image := Image(nodes, from, marks);
      assert image[1..] == Image(nodes[1..], from + |nodes[0]|, marks);
      FlattenImage(nodes[1..], from + |nodes[0]|, marks);
      var flat := nodes[0] + Flatten(nodes[1..]);
      EmitSplit(flat, |nodes[0]|, from, marks);
      assert flat[..|nodes[0]|] == nodes[0] && flat[|nodes[0]|..] == Flatten(nodes[1..]);
    }
  }

  // The marks one after the other, none before `from` or past the text.
  predicate InOrder(marks: seq<Mark>, from: nat, length: nat) {
    if marks == [] then from <= length
    else from <= marks[0].start < marks[0].end <= length && InOrder(marks[1..], marks[0].end, length)
  }

  // Simultaneous substitution: the text between the ranges stays, each range becomes its marker.
  function Substituted(text: string, from: nat, marks: seq<Mark>): string
    requires InOrder(marks, from, |text|)
    decreases |marks|
  {
    if marks == [] then text[from..]
    else text[from..marks[0].start] + marks[0].text + Substituted(text, marks[0].end, marks[1..])
  }

  lemma {:induction false} InOrderBounds(marks: seq<Mark>, from: nat, length: nat)
    requires InOrder(marks, from, length)
    ensures forall m :: m in marks ==> from <= m.start < m.end <= length
    ensures from <= length
  {
    if marks != [] {
      InOrderBounds(marks[1..], marks[0].end, length);
      assert forall m :: m in marks ==> m == marks[0] || m in marks[1..];
    }
  }

  lemma {:induction false} EmitIsSubstitution(text: string, from: nat, marks: seq<Mark>)
    requires InOrder(marks, from, |text|)
    ensures from <= |text|
    ensures EmitNode(text[from..], from, marks) == Substituted(text, from, marks)
    decreases |marks|
  {
    hide EmitNode;
    InOrderBounds(marks, from, |text|);
    if marks == [] {
      EmitNodeUntouched(text[from..], from, marks);
    } else {
      var mark, rest := marks[0], marks[1..];
      assert marks == [mark] + rest;
      InOrderBounds(rest, mark.end, |text|);
      EmitIsSubstitution(text, mark.end, rest);
      NodeWithMark(text[from..], from, mark.start - from, mark.end - from, mark, rest);
      assert text[from..][..mark.start - from] == text[from..mark.start];
      assert text[from..][mark.end - from..] == text[mark.end..];
    }
  }

  lemma {:induction false} InOrderDisjoint(marks: seq<Mark>, from: nat, length: nat)
    requires InOrder(marks, from, length)
    ensures Disjoint(marks)
  {
    if marks != [] {
      InOrderDisjoint(marks[1..], marks[0].end, length);
      InOrderBounds(marks[1..], marks[0].end, length);
      forall i, k | 0 <= i < k < |marks|
        ensures !Overlaps(marks[i], marks[k])
      {
        if i > 0 {
          assert !Overlaps(marks[1..][i - 1], marks[1..][k - 1]);
        } else {
          assert marks[k] in marks[1..];
        }
      }
    }
  }

  // Guided marking of one paragraph: whatever the order in which the marks were chosen, replacing them
  // from the end backwards is simultaneous substitution in the flattened text.
  lemma MarkingIsSubstitution(nodes: seq<string>, backwards: seq<Mark>, inOrder: seq<Mark>)
    requires InOrder(inOrder, 0, |Flatten(nodes)|) && Descending(backwards) && Disjoint(backwards)
    requires forall m :: m in backwards <==> m in inOrder
    requires forall m :: m in backwards ==> m.start < m.end
    ensures ReplaceAll(nodes, backwards) == Image(nodes, 0, inOrder)
    ensures Flatten(ReplaceAll(nodes, backwards)) == Substituted(Flatten(nodes), 0, inOrder)
  {
    BackwardsIsAllAtOnce(nodes, backwards);
    InOrderDisjoint(inOrder, 0, |Flatten(nodes)|);
    ImageSame(nodes, 0, backwards, inOrder);
    FlattenImage(nodes, 0, inOrder);
    EmitIsSubstitution(Flatten(nodes), 0, inOrder);
    assert Flatten(nodes)[0..] == Flatten(nodes);
  }
}
