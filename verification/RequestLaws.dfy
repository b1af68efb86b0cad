/** Which requests are accepted and why one is refused, said of the selections, the catalog, the texts and
    the rows themselves. */
module RequestLaws {
  import opened Batching
  import opened Numbering
  import opened GuidedMarking
  import opened MarkerScan
  import opened MarkerReader
  import opened Selections

  // ---------- the fields of a catalog ----------

  // A table loop's name, a dot and one of its fields; the dot is the first one.
  predicate InnerAt(field: string, dot: int, catalog: Catalog) {
    && field !in catalog.scalars && field !in catalog.loops
    && 0 <= dot < |field| && field[dot] == '.' && (forall k :: 0 <= k < dot ==> field[k] != '.')
    && field[..dot] in catalog.loops && catalog.loops[field[..dot]].kind == TableRow
    && field[dot + 1..] in catalog.loops[field[..dot]].fields
  }

  // A field that has to be in a table row: the table loop itself, or one of its fields.
  predicate TableField(field: string, catalog: Catalog) {
    || (field !in catalog.scalars && field in catalog.loops && catalog.loops[field].kind == TableRow)
    || exists dot :: 0 <= dot < |field| && InnerAt(field, dot, catalog)
  }

  predicate KnownField(field: string, catalog: Catalog) {
    field in catalog.scalars || field in catalog.loops || TableField(field, catalog)
  }

  lemma {:induction false} IndexIsFirst(s: string, c: char, at: nat)
    ensures IndexOf(s, c) == Some(at) <==> at < |s| && s[at] == c && forall k :: 0 <= k < at ==> s[k] != c
  {
    if s != "" && s[0] != c && at > 0 {
      IndexIsFirst(s[1..], c, at - 1);
      assert forall k :: 0 < k < |s| ==> s[k] == s[1..][k - 1];
    }
  }

  lemma KindIs(field: string, catalog: Catalog)
    ensures KindOf(field, catalog).Some? <==> KnownField(field, catalog)
    ensures KindOf(field, catalog) == Some(RowField) <==> TableField(field, catalog)
    ensures KindOf(field, catalog) == Some(ScalarField) <==> field in catalog.scalars
    ensures KindOf(field, catalog) == Some(ListField)
       <==> field !in catalog.scalars && field in catalog.loops && catalog.loops[field].kind == InlineList
  {
    hide IndexOf;
    var dot := IndexOf(field, '.');
    if dot.Some? {
      IndexIsFirst(field, '.', dot.value);
      assert InnerAt(field, dot.value, catalog) <==>
        && field !in catalog.scalars && field !in catalog.loops
        && field[..dot.value] in catalog.loops && catalog.loops[field[..dot.value]].kind == TableRow
        && field[dot.value + 1..] in catalog.loops[field[..dot.value]].fields;
    }
    forall k | 0 <= k < |field| && InnerAt(field, k, catalog)
      ensures dot == Some(k)
    {
      IndexIsFirst(field, '.', k);
    }
  }

  // The marker of a field: its name, a table field's inner name, or a list's fields in its loop's tags;
  // nothing for the table loop.
  lemma MarkerIs(field: string, catalog: Catalog)
    requires WellFormed(catalog)
    ensures field in catalog.scalars ==> MarkerFor(field, catalog) == "{" + field + "}"
    ensures forall dot :: 0 <= dot < |field| && InnerAt(field, dot, catalog) ==> MarkerFor(field, catalog) == "{" + field[dot + 1..] + "}"
    ensures field in catalog.loops && catalog.loops[field].kind == TableRow ==> MarkerFor(field, catalog) == ""
    ensures field in catalog.loops && catalog.loops[field].kind == InlineList ==>
              MarkerFor(field, catalog) == "{#" + field + "}" + BracedAll(catalog.loops[field].fields) + "{/" + field + "}"
  {
    hide IndexOf;
    if dot :| 0 <= dot < |field| && InnerAt(field, dot, catalog) {
      forall k | 0 <= k < |field| && InnerAt(field, k, catalog)
        ensures MarkerFor(field, catalog) == "{" + field[k + 1..] + "}"
      {
        IndexIsFirst(field, '.', k);
      }
    }
    if field in catalog.scalars || field in catalog.loops {
      assert Plain(field);
      assert IndexOf(field, '.').None?;
      assert "{" + ("#" + field) + "}" == "{#" + field + "}" && "{" + ("/" + field) + "}" == "{/" + field + "}";
    }
  }

  // ---------- rows ----------

  // The row of a paragraph: the first that has it.
  predicate RowAt(rows: seq<Row>, block: nat, r: nat) {
    r < |rows| && InRow(rows[r], block) && forall k :: 0 <= k < r ==> !InRow(rows[k], block)
  }

  lemma {:induction false} RowFromIs(rows: seq<Row>, block: nat, i: nat, r: nat)
    requires i <= r < |rows| && InRow(rows[r], block) && forall k :: i <= k < r ==> !InRow(rows[k], block)
    ensures RowFrom(rows, block, i) == Some(r)
    decreases r - i
  {
    hide InRow;
    if i < r {
      RowFromIs(rows, block, i + 1, r);
    }
  }

  lemma {:induction false} RowFromIsLeast(rows: seq<Row>, block: nat, i: nat)
    requires i <= |rows| && RowFrom(rows, block, i).Some?
    ensures forall k :: i <= k < RowFrom(rows, block, i).value ==> !InRow(rows[k], block)
    decreases |rows| - i
  {
    hide InRow;
    if !InRow(rows[i], block) {
      RowFromIsLeast(rows, block, i + 1);
    }
  }

  lemma RowOfIs(rows: seq<Row>, block: nat)
    ensures forall r: nat :: RowOf(rows, block) == Some(r) <==> RowAt(rows, block, r)
    ensures RowOf(rows, block).Some? <==> exists r: nat :: RowAt(rows, block, r)
  {
    hide InRow, RowFrom;
    if RowOf(rows, block).Some? {
      RowFromIsLeast(rows, block, 0);
      assert RowAt(rows, block, RowOf(rows, block).value);
    }
    forall r: nat | RowAt(rows, block, r)
      ensures RowOf(rows, block) == Some(r)
    {
      RowFromIs(rows, block, 0, r);
    }
  }

  // ---------- each selection ----------

  // A selection that is in order by itself.
  ghost predicate InOrderAlone(s: Selection, texts: seq<string>, rows: seq<Row>, catalog: Catalog) {
    && KnownField(s.field, catalog)
    && s.block < |texts|
    && 0 <= s.start < s.end <= |texts[s.block]|
    && (TableField(s.field, catalog) ==> exists r: nat :: RowAt(rows, s.block, r))
  }

  // No two table fields are in different rows.
  ghost predicate OneRow(selections: seq<Selection>, n: nat, rows: seq<Row>, catalog: Catalog)
    requires n <= |selections|
  {
    forall i, k, r: nat, q: nat ::
      (&& 0 <= i < n && 0 <= k < n && TableField(selections[i].field, catalog) && TableField(selections[k].field, catalog)
       && RowAt(rows, selections[i].block, r) && RowAt(rows, selections[k].block, q))
      ==> r == q
  }

  ghost predicate AllInOrder(selections: seq<Selection>, n: nat, texts: seq<string>, rows: seq<Row>, catalog: Catalog)
    requires n <= |selections|
  {
    && (forall i :: 0 <= i < n ==> InOrderAlone(selections[i], texts, rows, catalog))
    && OneRow(selections, n, rows, catalog)
  }

  // An earlier table field is in row q.
  ghost predicate EarlierRow(selections: seq<Selection>, i: nat, rows: seq<Row>, catalog: Catalog, q: nat)
    requires i <= |selections|
  {
    exists k :: 0 <= k < i && TableField(selections[k].field, catalog) && RowAt(rows, selections[k].block, q)
  }

  // What each reason means, once the selections before passed.
  ghost predicate Objects(error: Rejection, selections: seq<Selection>, i: nat, texts: seq<string>, rows: seq<Row>, catalog: Catalog)
    requires i < |selections|
  {
    var s := selections[i];
    match error
    case FieldUnknown(j) => j == i && !KnownField(s.field, catalog)
    case BlockNotFound(j) => j == i && KnownField(s.field, catalog) && s.block >= |texts|
    case Empty(j) => j == i && KnownField(s.field, catalog) && s.block < |texts| && s.start >= s.end
    case OutOfRange(j) =>
      j == i && KnownField(s.field, catalog) && s.block < |texts| && s.start < s.end && (s.start < 0 || s.end > |texts[s.block]|)
    case RowFieldOutsideTable(j) => j == i && InText(s, texts) && TableField(s.field, catalog) && forall r: nat :: !RowAt(rows, s.block, r)
    case RowsInSeveralRows(j) =>
      j == i && InText(s, texts) && TableField(s.field, catalog)
      && exists r: nat, q: nat :: RowAt(rows, s.block, r) && EarlierRow(selections, i, rows, catalog, q) && r != q && q < |rows|
                                  && rows[q].table == rows[r].table
    case RowsInSeveralTables(j) =>
      j == i && InText(s, texts) && TableField(s.field, catalog)
      && exists r: nat, q: nat :: RowAt(rows, s.block, r) && EarlierRow(selections, i, rows, catalog, q) && q < |rows|
                                  && rows[q].table != rows[r].table
    case _ => false
  }

  predicate InText(s: Selection, texts: seq<string>) {
    s.block < |texts| && 0 <= s.start < s.end <= |texts[s.block]|
  }

  // The row of the earlier table fields, which is one.
  lemma {:induction false} FirstRowIs(selections: seq<Selection>, n: nat, texts: seq<string>, rows: seq<Row>, catalog: Catalog)
    requires n <= |selections| && AllInOrder(selections, n, texts, rows, catalog)
    ensures forall q: nat :: FirstRow(selections, n, rows, catalog) == Some(q) <==> EarlierRow(selections, n, rows, catalog, q)
    ensures FirstRow(selections, n, rows, catalog).None? ==> forall k :: 0 <= k < n ==> !TableField(selections[k].field, catalog)
  {
    hide KindOf, RowOf, TableField, KnownField, RowAt;
    if n > 0 {
      var s := selections[n - 1];
      assert AllInOrder(selections, n - 1, texts, rows, catalog);
      FirstRowIs(selections, n - 1, texts, rows, catalog);
      KindIs(s.field, catalog);
      RowOfIs(rows, s.block);
      assert InOrderAlone(s, texts, rows, catalog);
      forall q: nat
        ensures FirstRow(selections, n, rows, catalog) == Some(q) <==> EarlierRow(selections, n, rows, catalog, q)
      {
        if EarlierRow(selections, n, rows, catalog, q) {
          var k :| 0 <= k < n && TableField(selections[k].field, catalog) && RowAt(rows, selections[k].block, q);
          assert k < n - 1 ==> EarlierRow(selections, n - 1, rows, catalog, q);
        }
        if EarlierRow(selections, n - 1, rows, catalog, q) {
          var k :| 0 <= k < n - 1 && TableField(selections[k].field, catalog) && RowAt(rows, selections[k].block, q);
          assert EarlierRow(selections, n, rows, catalog, q);
        }
      }
    }
  }

  // A selection passes exactly when it and those before it are in order.
  lemma PassesIff(selections: seq<Selection>, i: nat, texts: seq<string>, rows: seq<Row>, catalog: Catalog)
    requires i < |selections| && AllInOrder(selections, i, texts, rows, catalog)
    ensures RejectionOf(selections, i, texts, rows, catalog).None? <==> AllInOrder(selections, i + 1, texts, rows, catalog)
  {
    hide KindOf, RowOf, TableField, KnownField, RowAt, FirstRow;
    var s := selections[i];
    KindIs(s.field, catalog);
    RowOfIs(rows, s.block);
    FirstRowIs(selections, i, texts, rows, catalog);
    SameRowNext(selections, i, rows, catalog);
  }

  lemma SameRowNext(selections: seq<Selection>, i: nat, rows: seq<Row>, catalog: Catalog)
    requires i < |selections| && OneRow(selections, i, rows, catalog)
    ensures OneRow(selections, i + 1, rows, catalog)
       <==> (TableField(selections[i].field, catalog) ==>
               forall r: nat, q: nat :: RowAt(rows, selections[i].block, r) && EarlierRow(selections, i, rows, catalog, q) ==> r == q)
  {
    hide TableField;
    var s := selections[i];
    if TableField(s.field, catalog) {
      if OneRow(selections, i + 1, rows, catalog) {
        forall r: nat, q: nat | RowAt(rows, s.block, r) && EarlierRow(selections, i, rows, catalog, q)
          ensures r == q
        {
          var k :| 0 <= k < i && TableField(selections[k].field, catalog) && RowAt(rows, selections[k].block, q);
        }
      }
      if forall r: nat, q: nat :: RowAt(rows, s.block, r) && EarlierRow(selections, i, rows, catalog, q) ==> r == q {
        forall x, k, r: nat, q: nat |
          && 0 <= x <= i && 0 <= k <= i && TableField(selections[x].field, catalog) && TableField(selections[k].field, catalog)
          && RowAt(rows, selections[x].block, r) && RowAt(rows, selections[k].block, q)
          ensures r == q
        {
          assert x < i ==> EarlierRow(selections, i, rows, catalog, r);
          assert k < i ==> EarlierRow(selections, i, rows, catalog, q);
        }
      }
    }
  }

  // A selection is refused with a reason exactly when the reason is so.
  lemma ReasonIff(selections: seq<Selection>, i: nat, texts: seq<string>, rows: seq<Row>, catalog: Catalog, error: Rejection)
    requires i < |selections| && AllInOrder(selections, i, texts, rows, catalog)
    ensures RejectionOf(selections, i, texts, rows, catalog) == Some(error) <==> Objects(error, selections, i, texts, rows, catalog)
  {
    hide KindOf, RowOf, TableField, KnownField, RowAt, FirstRow, EarlierRow;
    var s := selections[i];
    KindIs(s.field, catalog);
    RowOfIs(rows, s.block);
    FirstRowIs(selections, i, texts, rows, catalog);
    TableIsKnown(s.field, catalog);
    EarlierIsRow(selections, i, rows, catalog);
  }

  lemma TableIsKnown(field: string, catalog: Catalog)
    ensures TableField(field, catalog) ==> KnownField(field, catalog)
  {
  }

  lemma EarlierIsRow(selections: seq<Selection>, i: nat, rows: seq<Row>, catalog: Catalog)
    requires i <= |selections|
    ensures forall q: nat :: EarlierRow(selections, i, rows, catalog, q) ==> q < |rows|
    ensures forall b: nat, r: nat :: RowAt(rows, b, r) ==> r < |rows|
  {
  }

  lemma {:induction false} AllPassUpTo(selections: seq<Selection>, n: nat, texts: seq<string>, rows: seq<Row>, catalog: Catalog)
    requires n <= |selections|
    ensures (forall i :: 0 <= i < n ==> RejectionOf(selections, i, texts, rows, catalog).None?)
       <==> AllInOrder(selections, n, texts, rows, catalog)
  {
    hide RejectionOf, InOrderAlone, TableField, RowAt;
    if n > 0 {
      AllPassUpTo(selections, n - 1, texts, rows, catalog);
      if AllInOrder(selections, n - 1, texts, rows, catalog) {
        PassesIff(selections, n - 1, texts, rows, catalog);
      }
      assert AllInOrder(selections, n, texts, rows, catalog) ==> AllInOrder(selections, n - 1, texts, rows, catalog);
    }
  }

  // Every selection passes if and only if each names a field of the catalog, a paragraph and a range of its
  // text, and the table fields are all in one row.
  lemma AllPassIff(selections: seq<Selection>, texts: seq<string>, rows: seq<Row>, catalog: Catalog)
    ensures AllPass(selections, texts, rows, catalog) <==> AllInOrder(selections, |selections|, texts, rows, catalog)
  {
    hide RejectionOf, AllInOrder;
    AllPassUpTo(selections, |selections|, texts, rows, catalog);
  }

  // ---------- the request ----------

  // No two selections of a paragraph share a character, and none shares one with a marker that is there.
  ghost predicate Clears(selections: seq<Selection>, texts: seq<string>) {
    && (forall i, k :: 0 <= i < k < |selections| && selections[i].block == selections[k].block
          ==> selections[i].end <= selections[k].start || selections[k].end <= selections[i].start)
    && (forall i, t :: 0 <= i < |selections| && selections[i].block < |texts| && t in Tags(texts[selections[i].block])
          ==> t.end <= selections[i].start || selections[i].end <= t.start)
  }

  ghost predicate Acceptable(selections: seq<Selection>, texts: seq<string>, rows: seq<Row>, catalog: Catalog) {
    |selections| <= 500 && AllInOrder(selections, |selections|, texts, rows, catalog) && Clears(selections, texts)
  }

  predicate IndexesAscend(entries: seq<Entry>) {
    forall i, k :: 0 <= i < k < |entries| ==> entries[i].index < entries[k].index
  }

  lemma {:induction false} EntriesAscend(selections: seq<Selection>, block: nat, n: nat)
    requires n <= |selections|
    ensures IndexesAscend(EntriesOf(selections, block, n))
  {
    if n > 0 {
      EntriesAscend(selections, block, n - 1);
      EntriesAre(selections, block, n - 1);
      var before := EntriesOf(selections, block, n - 1);
      forall i | 0 <= i < |before|
        ensures before[i].index < n - 1
      {
        assert before[i] in before;
      }
    }
  }

  lemma BlockApartIff(selections: seq<Selection>, block: nat)
    ensures AllApart(EntriesOf(selections, block, |selections|))
       <==> ApartIn(selections, block)
  {
    hide EntriesOf, Overlap;
    var entries := EntriesOf(selections, block, |selections|);
    EntriesAre(selections, block, |selections|);
    EntriesAscend(selections, block, |selections|);
    if AllApart(entries) {
      forall i, k | 0 <= i < k < |selections| && selections[i].block == selections[k].block == block
        ensures !Overlap(selections[i], selections[k])
      {
        assert Entry(i, selections[i]) in entries && Entry(k, selections[k]) in entries;
        var x :| 0 <= x < |entries| && entries[x] == Entry(i, selections[i]);
        var y :| 0 <= y < |entries| && entries[y] == Entry(k, selections[k]);
        assert y < x ==> entries[y].index < entries[x].index;
      }
    }
    if ApartIn(selections, block) {
      forall x, y | 0 <= x < y < |entries|
        ensures !Overlap(entries[x].selection, entries[y].selection)
      {
        assert entries[x] in entries && entries[y] in entries;
      }
    }
  }

  predicate ApartIn(selections: seq<Selection>, block: nat) {
    forall i, k :: 0 <= i < k < |selections| && selections[i].block == selections[k].block == block ==> !Overlap(selections[i], selections[k])
  }

  predicate ClearIn(selections: seq<Selection>, block: nat, tags: seq<Tag>) {
    forall i, t :: 0 <= i < |selections| && selections[i].block == block && t in tags ==> !Touches(selections[i], t.start, t.end)
  }

  predicate EntriesClear(entries: seq<Entry>, tags: seq<Tag>) {
    forall e, t :: e in entries && t in tags ==> !Touches(e.selection, t.start, t.end)
  }

  lemma BlockClearIff(selections: seq<Selection>, block: nat, tags: seq<Tag>)
    ensures EntriesClear(EntriesOf(selections, block, |selections|), tags) <==> ClearIn(selections, block, tags)
  {
    hide EntriesOf, Touches;
    var entries := EntriesOf(selections, block, |selections|);
    EntriesAre(selections, block, |selections|);
    if EntriesClear(entries, tags) {
      forall i, t | 0 <= i < |selections| && selections[i].block == block && t in tags
        ensures !Touches(selections[i], t.start, t.end)
      {
        assert Entry(i, selections[i]) in entries;
      }
    }
  }

  lemma BlockAcceptedIff(selections: seq<Selection>, b: nat, texts: seq<string>)
    requires b < |texts|
    ensures BlockAccepted(selections, b, texts) <==> ApartIn(selections, b) && ClearIn(selections, b, Tags(texts[b]))
  {
    hide EntriesOf, Tags, Touches, Overlap;
    BlockApartIff(selections, b);
    BlockClearIff(selections, b, Tags(texts[b]));
    assert BlockAccepted(selections, b, texts)
      <==> AllApart(EntriesOf(selections, b, |selections|)) && EntriesClear(EntriesOf(selections, b, |selections|), Tags(texts[b]));
  }

  lemma BlocksAcceptedIff(selections: seq<Selection>, texts: seq<string>)
    requires forall i :: 0 <= i < |selections| ==> selections[i].block < |texts|
    ensures (forall b :: 0 <= b < |texts| ==> BlockAccepted(selections, b, texts)) <==> Clears(selections, texts)
  {
    hide EntriesOf, Tags, AllApart, BlockAccepted;
    forall b | 0 <= b < |texts|
      ensures BlockAccepted(selections, b, texts) <==> ApartIn(selections, b) && ClearIn(selections, b, Tags(texts[b]))
    {
      BlockAcceptedIff(selections, b, texts);
    }
    if Clears(selections, texts) {
      forall b | 0 <= b < |texts|
        ensures ApartIn(selections, b) && ClearIn(selections, b, Tags(texts[b]))
      {
      }
    }
    if forall b :: 0 <= b < |texts| ==> BlockAccepted(selections, b, texts) {
      forall i, k | 0 <= i < k < |selections| && selections[i].block == selections[k].block
        ensures selections[i].end <= selections[k].start || selections[k].end <= selections[i].start
      {
        assert ApartIn(selections, selections[i].block);
        assert !Overlap(selections[i], selections[k]);
      }
      forall i, t | 0 <= i < |selections| && selections[i].block < |texts| && t in Tags(texts[selections[i].block])
        ensures t.end <= selections[i].start || selections[i].end <= t.start
      {
        assert ClearIn(selections, selections[i].block, Tags(texts[selections[i].block]));
        assert !Touches(selections[i], t.start, t.end);
      }
    }
  }

  // A request is accepted exactly when it is acceptable.
  lemma AcceptedIff(selections: seq<Selection>, texts: seq<string>, rows: seq<Row>, catalog: Catalog)
    ensures Accepted(selections, texts, rows, catalog) <==> Acceptable(selections, texts, rows, catalog)
  {
    hide AllPass, BlockAccepted, OneRow, Clears, KnownField, TableField, RowAt;
    assert MAX_SELECTIONS == 500;
    AllPassIff(selections, texts, rows, catalog);
    if AllInOrder(selections, |selections|, texts, rows, catalog) {
      forall i | 0 <= i < |selections|
        ensures selections[i].block < |texts|
      {
        assert InOrderAlone(selections[i], texts, rows, catalog);
      }
      BlocksAcceptedIff(selections, texts);
    }
  }

  // What a refusal says is so, and nothing before it was wrong.
  ghost predicate Explains(error: Rejection, selections: seq<Selection>, texts: seq<string>, rows: seq<Row>, catalog: Catalog) {
    match error
    case TooMany => |selections| > 500
    case SelectionsOverlap(i, k) =>
      && AllInOrder(selections, |selections|, texts, rows, catalog)
      && i < |selections| && k < |selections| && i != k && selections[i].block == selections[k].block
      && selections[i].start < selections[k].end && selections[k].start < selections[i].end
    case OverlapsMarker(i) =>
      && AllInOrder(selections, |selections|, texts, rows, catalog)
      && i < |selections| && selections[i].block < |texts|
      && exists t :: t in Tags(texts[selections[i].block]) && selections[i].start < t.end && t.start < selections[i].end
    case _ =>
      exists i :: && 0 <= i < |selections| && AllInOrder(selections, i, texts, rows, catalog)
                  && Objects(error, selections, i, texts, rows, catalog)
  }

  lemma JustifiedExplains(error: Rejection, selections: seq<Selection>, texts: seq<string>, rows: seq<Row>, catalog: Catalog)
    requires Justified(error, selections, texts, rows, catalog)
    ensures Explains(error, selections, texts, rows, catalog)
  {
    hide AllPass, AllInOrder, RejectionOf, Objects, Tags;
    AllPassIff(selections, texts, rows, catalog);
    match error
    case TooMany =>
    case SelectionsOverlap(_, _) =>
    case OverlapsMarker(_) =>
    case _ =>
      var i :| && 0 <= i < |selections| && RejectionOf(selections, i, texts, rows, catalog) == Some(error)
               && forall j :: 0 <= j < i ==> RejectionOf(selections, j, texts, rows, catalog).None?;
      AllPassUpTo(selections, i, texts, rows, catalog);
      ReasonIff(selections, i, texts, rows, catalog, error);
  }
}
