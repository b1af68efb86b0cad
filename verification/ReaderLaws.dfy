/** How a tag is read: what it opens or closes and which field it stands for, said of its characters and of
    the loops open before it. */
module ReaderLaws {
  import opened Batching
  import opened Numbering
  import opened GuidedMarking
  import opened MarkerScan
  import opened MarkerReader
  import opened MarkedPart

  predicate AllSpace(s: string) {
    forall i :: 0 <= i < |s| ==> Space(s[i])
  }

  // What is left between the first and the last character that is not white space.
  predicate CoreAt(s: string, a: nat, b: nat) {
    a <= b <= |s| && AllSpace(s[..a]) && AllSpace(s[b..]) && (a < b ==> !Space(s[a]) && !Space(s[b - 1]))
  }

  ghost predicate Core(s: string, core: string) {
    exists a: nat, b: nat :: CoreAt(s, a, b) && core == s[a..b]
  }

  lemma {:induction false} TrimAt(s: string) returns (a: nat, b: nat)
    ensures CoreAt(s, a, b) && Trim(s) == s[a..b]
  {
    hide Space;
    if s == "" {
      a, b := 0, 0;
    } else if Space(s[0]) {
      var x, y := TrimAt(s[1..]);
      a, b := x + 1, y + 1;
      assert s[..a] == [s[0]] + s[1..][..x] && s[b..] == s[1..][y..];
    } else if Space(s[|s| - 1]) {
      var n := |s| - 1;
      a, b := TrimAt(s[..n]);
      assert s[..a] == s[..n][..a] && s[b..] == s[..n][b..] + [s[n]];
    } else {
      a, b := 0, |s|;
    }
  }

  lemma TrimIsCore(s: string)
    ensures forall core :: Core(s, core) <==> core == Trim(s)
  {
    hide Space, Trim;
    var a, b := TrimAt(s);
    forall c: nat, d: nat | CoreAt(s, c, d)
      ensures s[c..d] == s[a..b]
    {
      OneCore(s, a, b, c, d);
    }
  }

  lemma OneCore(s: string, a: nat, b: nat, c: nat, d: nat)
    requires CoreAt(s, a, b) && CoreAt(s, c, d)
    ensures s[a..b] == s[c..d]
  {
    hide Space;
    if a < b {
      NotInSpace(s, c, d, a);
      NotInSpace(s, c, d, b - 1);
    }
    if c < d {
      NotInSpace(s, a, b, c);
      NotInSpace(s, a, b, d - 1);
    }
  }

  lemma NotInSpace(s: string, a: nat, b: nat, i: nat)
    requires CoreAt(s, a, b) && i < |s| && !Space(s[i])
    ensures a <= i < b
  {
    hide Space;
    assert forall j :: 0 <= j < a ==> s[..a][j] == s[j];
    assert forall j :: b <= j < |s| ==> s[b..][j - b] == s[j];
  }

  // ---------- the loops that are open ----------

  // The last of the open loops that the catalog knows.
  predicate InnermostAt(open: seq<string>, catalog: Catalog, k: int) {
    0 <= k < |open| && open[k] in catalog.loops && forall j :: k < j < |open| ==> open[j] !in catalog.loops
  }

  lemma {:induction false} InnermostIs(open: seq<string>, catalog: Catalog)
    ensures Innermost(open, catalog).None? <==> forall k :: 0 <= k < |open| ==> open[k] !in catalog.loops
    ensures forall k :: InnermostAt(open, catalog, k) ==> Innermost(open, catalog) == Some(open[k])
    ensures Innermost(open, catalog).Some? ==> exists k :: InnermostAt(open, catalog, k)
  {
    if open != [] {
      var n := |open| - 1;
      InnermostIs(open[..n], catalog);
      if open[n] in catalog.loops {
        assert InnermostAt(open, catalog, n);
      } else {
        forall k
          ensures InnermostAt(open, catalog, k) <==> InnermostAt(open[..n], catalog, k)
        {
        }
      }
    }
  }

  // The last place of a name.
  predicate LastAt(open: seq<string>, name: string, k: int) {
    0 <= k < |open| && open[k] == name && forall j :: k < j < |open| ==> open[j] != name
  }

  lemma {:induction false} RemoveLastIs(open: seq<string>, name: string)
    ensures name !in open ==> RemoveLast(open, name) == open
    ensures name in open ==> exists k :: LastAt(open, name, k) && RemoveLast(open, name) == open[..k] + open[k + 1..]
  {
    if open != [] {
      var n := |open| - 1;
      assert open == open[..n] + [open[n]];
      if open[n] == name {
        assert LastAt(open, name, n) && open[..n] + open[n + 1..] == open[..n];
      } else {
        RemoveLastIs(open[..n], name);
        if name in open {
          assert name in open[..n];
          var k :| LastAt(open[..n], name, k) && RemoveLast(open[..n], name) == open[..n][..k] + open[..n][k + 1..];
          assert LastAt(open, name, k);
          assert open[..n][..k] + open[..n][k + 1..] + [open[n]] == open[..k] + open[k + 1..];
        }
      }
    }
  }

  // ---------- one tag ----------

  predicate Marks(core: string, c: char) {
    core != "" && core[0] == c
  }

  // A tag without the white space around it, and the name of the loop if it opens or closes one.
  ghost predicate Parts(body: string, core: string, name: string) {
    Core(body, core) && Core(if core == "" then "" else core[1..], name)
  }

  lemma PartsAre(body: string) returns (core: string, name: string)
    ensures core == Trim(body) && name == Trim(if core == "" then "" else core[1..])
    ensures Parts(body, core, name)
  {
    hide Trim, Core;
    core := Trim(body);
    name := Trim(if core == "" then "" else core[1..]);
    TrimIsCore(body);
    TrimIsCore(if core == "" then "" else core[1..]);
  }

  // {#name} opens a loop after the others, {/name} closes the last one of its name if there is one, and any
  // other tag leaves them as they are.
  ghost predicate Moves(core: string, name: string, open: seq<string>, after: seq<string>) {
    if Marks(core, '#') then after == open + [name]
    else if Marks(core, '/') && name in open then exists k :: LastAt(open, name, k) && after == open[..k] + open[k + 1..]
    else after == open
  }

  ghost predicate Leaves(body: string, open: seq<string>, after: seq<string>) {
    exists core, name :: Parts(body, core, name) && Moves(core, name, open, after)
  }

  predicate InnerField(core: string, open: seq<string>, catalog: Catalog, k: int) {
    InnermostAt(open, catalog, k) && core in catalog.loops[open[k]].fields
  }

  // A loop's own tags stand for the loop. A tag that is a field of the innermost open loop stands for the list
  // if that is an inline list, and for the loop's field if it is a table row; any other stands for itself.
  ghost predicate Means(core: string, name: string, open: seq<string>, catalog: Catalog, field: string) {
    if Marks(core, '#') || Marks(core, '/') then field == name
    else if exists k :: InnerField(core, open, catalog, k) then
      exists k :: InnerField(core, open, catalog, k)
                  && field == if catalog.loops[open[k]].kind == InlineList then open[k] else open[k] + "." + core
    else field == core
  }

  ghost predicate StandsFor(body: string, open: seq<string>, catalog: Catalog, field: string) {
    exists core, name :: Parts(body, core, name) && Means(core, name, open, catalog, field)
  }

  lemma TagLeaves(body: string, open: seq<string>)
    ensures Leaves(body, open, OpenNext(body, open))
  {
    hide Trim, RemoveLast, Parts;
    var core, name := PartsAre(body);
    RemoveLastIs(open, name);
    assert Moves(core, name, open, OpenNext(body, open));
  }

  lemma TagStandsFor(body: string, open: seq<string>, catalog: Catalog)
    ensures StandsFor(body, open, catalog, FieldOf(body, open, catalog))
  {
    hide Trim, Innermost, Parts;
    var core, name := PartsAre(body);
    InnermostIs(open, catalog);
    forall k | InnerField(core, open, catalog, k)
      ensures Innermost(open, catalog) == Some(open[k])
    {
    }
    if k :| InnermostAt(open, catalog, k) {
      assert InnerField(core, open, catalog, k) <==> core in catalog.loops[open[k]].fields;
    }
    assert Means(core, name, open, catalog, FieldOf(body, open, catalog));
  }

  // ---------- a whole text ----------

  // Every tag is read in its place, with the loops the tags before it left open.
  ghost predicate ReadRightly(tags: seq<Tag>, open: seq<string>, catalog: Catalog, stacks: seq<seq<string>>,
                              markers: seq<Marker>, after: seq<string>) {
    && |stacks| == |tags| + 1 && stacks[0] == open && stacks[|tags|] == after && |markers| == |tags|
    && forall i :: 0 <= i < |tags| ==>
         && markers[i].start == tags[i].start && markers[i].end == tags[i].end
         && StandsFor(tags[i].body, stacks[i], catalog, markers[i].field)
         && Leaves(tags[i].body, stacks[i], stacks[i + 1])
  }

  lemma {:induction false} TextReadsRightly(tags: seq<Tag>, open: seq<string>, catalog: Catalog) returns (stacks: seq<seq<string>>)
    ensures ReadRightly(tags, open, catalog, stacks, Read(tags, open, catalog), OpenAfter(tags, open))
  {
    hide FieldOf, OpenNext, StandsFor, Leaves;
    if tags == [] {
      stacks := [open];
    } else {
      var rest := TextReadsRightly(tags[1..], OpenNext(tags[0].body, open), catalog);
      TagLeaves(tags[0].body, open);
      TagStandsFor(tags[0].body, open, catalog);
      stacks := [open] + rest;
      assert forall i :: 1 <= i < |tags| ==> stacks[i + 1] == rest[i];
    }
  }

  ghost predicate TextRead(text: string, open: seq<string>, catalog: Catalog, markers: seq<Marker>, after: seq<string>) {
    exists stacks :: ReadRightly(Tags(text), open, catalog, stacks, markers, after)
  }

  // And every text of a part, with the loops the texts before it left open.
  ghost predicate PartReadRightly(texts: seq<string>, open: seq<string>, catalog: Catalog, opens: seq<seq<string>>, found: seq<seq<Marker>>) {
    && |opens| == |texts| + 1 && opens[0] == open && |found| == |texts|
    && forall b :: 0 <= b < |texts| ==> TextRead(texts[b], opens[b], catalog, found[b], opens[b + 1])
  }

  lemma {:induction false} PartReadsRightly(texts: seq<string>, open: seq<string>, catalog: Catalog) returns (opens: seq<seq<string>>)
    ensures PartReadRightly(texts, open, catalog, opens, ReadPart(texts, open, catalog))
  {
    hide Read, OpenAfter, Tags, ReadRightly;
    if texts == [] {
      opens := [open];
    } else {
      var stacks := TextReadsRightly(Tags(texts[0]), open, catalog);
      var rest := PartReadsRightly(texts[1..], OpenAfter(Tags(texts[0]), open), catalog);
      opens := [open] + rest;
      var found := ReadPart(texts, open, catalog);
      assert TextRead(texts[0], open, catalog, found[0], rest[0]);
      forall b | 1 <= b < |texts|
        ensures TextRead(texts[b], opens[b], catalog, found[b], opens[b + 1])
      {
        assert texts[b] == texts[1..][b - 1] && opens[b] == rest[b - 1] && opens[b + 1] == rest[b] && found[b] == found[1..][b - 1];
      }
    }
  }
}
