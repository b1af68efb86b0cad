/** The field each {marker} stands for, read with a stack of open loops, and the markers guided marking
    writes: what is written for a field reads back as that field. */
module MarkerReader {
  import opened Batching
  import opened Numbering
  import opened GuidedMarking
  import opened MarkerScan

  datatype LoopKind = TableRow | InlineList

  datatype Loop = Loop(kind: LoopKind, fields: seq<string>)

  // A document type's fields: plain ones, and loops with the fields that only exist inside them.
  datatype Catalog = Catalog(scalars: set<string>, loops: map<string, Loop>)

  datatype FieldKind = ScalarField | RowField | ListField

  // ---------- names ----------

  // White space as String.prototype.trim sees it.
  predicate Space(c: char) {
    var code := c as int;
    || 0x9 <= code <= 0xD || code == 0x20 || code == 0xA0 || code == 0x1680 || 0x2000 <= code <= 0x200A
    || code == 0x2028 || code == 0x2029 || code == 0x202F || code == 0x205F || code == 0x3000 || code == 0xFEFF
  }

  function Trim(s: string): string {
    if s == "" then ""
    else if Space(s[0]) then Trim(s[1..])
    else if Space(s[|s| - 1]) then Trim(s[..|s| - 1])
    else s
  }

  function IndexOf(s: string, c: char): (at: Option<nat>)
    ensures at.Some? ==> at.value < |s| && s[at.value] == c && c !in s[..at.value]
    ensures at.None? ==> c !in s
  {
    if s == "" then None
    else if s[0] == c then Some(0)
    else match IndexOf(s[1..], c)
      case None => None
      case Some(i) => Some(i + 1)
  }

  // Catalog names are plain words.
  predicate Plain(name: string) {
    && name != ""
    && forall i :: 0 <= i < |name| ==> !Brace(name[i]) && !Space(name[i]) && name[i] !in ['.', '#', '/']
  }

  ghost predicate WellFormed(catalog: Catalog) {
    && (forall name :: name in catalog.scalars ==> Plain(name) && name !in catalog.loops)
    && (forall name :: name in catalog.loops ==> Plain(name))
    && (forall name, field :: name in catalog.loops && field in catalog.loops[name].fields
          ==> Plain(field) && field !in catalog.scalars)
  }

  // What the published catalog says of a key: a plain field, a loop, or a table loop's inner field.
  function KindOf(field: string, catalog: Catalog): Option<FieldKind> {
    if field in catalog.scalars then Some(ScalarField)
    else if field in catalog.loops then
      Some(if catalog.loops[field].kind.TableRow? then RowField else ListField)
    else match IndexOf(field, '.')
      case None => None
      case Some(dot) =>
        var loop := field[..dot];
        if && loop in catalog.loops && catalog.loops[loop].kind.TableRow?
           && field[dot + 1..] in catalog.loops[loop].fields
        then Some(RowField) else None
  }

  function Braced(name: string): string {
    "{" + name + "}"
  }

  function BracedAll(names: seq<string>): string {
    if names == [] then "" else Braced(names[0]) + BracedAll(names[1..])
  }

  // The marker written for a field; nothing for the table loop itself, whose row repeats instead.
  function MarkerFor(field: string, catalog: Catalog): string {
    match IndexOf(field, '.')
    case Some(dot) => Braced(field[dot + 1..])
    case None =>
      if field in catalog.loops && catalog.loops[field].kind.InlineList? then
        Braced("#" + field) + BracedAll(catalog.loops[field].fields) + Braced("/" + field)
      else if field in catalog.loops then ""
      else Braced(field)
  }

  // ---------- reading one tag ----------

  function Innermost(open: seq<string>, catalog: Catalog): (loop: Option<string>)
    ensures loop.Some? ==> loop.value in catalog.loops && loop.value in open
  {
    if open == [] then None
    else if open[|open| - 1] in catalog.loops then Some(open[|open| - 1])
    else Innermost(open[..|open| - 1], catalog)
  }

  function RemoveLast(open: seq<string>, name: string): seq<string> {
    if open == [] then []
    else if open[|open| - 1] == name then open[..|open| - 1]
    else RemoveLast(open[..|open| - 1], name) + [open[|open| - 1]]
  }

  predicate Opens(tag: string) {
    tag != "" && tag[0] == '#'
  }

  predicate Closes(tag: string) {
    tag != "" && tag[0] == '/'
  }

  function LoopName(tag: string): string
    requires tag != ""
  {
    Trim(tag[1..])
  }

  function OpenNext(body: string, open: seq<string>): seq<string> {
    var tag := Trim(body);
    if Opens(tag) then open + [LoopName(tag)]
    else if Closes(tag) then RemoveLast(open, LoopName(tag))
    else open
  }

  function FieldOf(body: string, open: seq<string>, catalog: Catalog): string {
    var tag := Trim(body);
    if Opens(tag) || Closes(tag) then LoopName(tag)
    else match Innermost(open, catalog)
      case Some(loop) =>
        if tag !in catalog.loops[loop].fields then tag
        else if catalog.loops[loop].kind.InlineList? then loop
        else loop + "." + tag
      case None => tag
  }

  // ---------- reading a text ----------

  datatype Marker = Marker(start: int, end: int, field: string)

  function Read(tags: seq<Tag>, open: seq<string>, catalog: Catalog): seq<Marker> {
    if tags == [] then []
    else
      [Marker(tags[0].start, tags[0].end, FieldOf(tags[0].body, open, catalog))]
      + Read(tags[1..], OpenNext(tags[0].body, open), catalog)
  }

  function OpenAfter(tags: seq<Tag>, open: seq<string>): seq<string> {
    if tags == [] then open else OpenAfter(tags[1..], OpenNext(tags[0].body, open))
  }

  lemma {:induction false} ReadOfTwo(a: seq<Tag>, b: seq<Tag>, open: seq<string>, catalog: Catalog)
    ensures Read(a + b, open, catalog) == Read(a, open, catalog) + Read(b, OpenAfter(a, open), catalog)
    ensures OpenAfter(a + b, open) == OpenAfter(b, OpenAfter(a, open))
  {
    hide FieldOf, OpenNext;
    if a == [] {
      assert a + b == b;
    } else {
      assert (a + b)[1..] == a[1..] + b;
      ReadOfTwo(a[1..], b, OpenNext(a[0].body, open), catalog);
    }
  }

  // ---------- the catalogs in use ----------

  const LIQUIDATION_FIELDS := Catalog(
    {"resolutionNumber", "cadastralCode", "propertyName", "owners", "startYear", "endYear", "totalAmount",
     "capitalAmount", "interestAmount"},
    map["rows" := Loop(TableRow, ["year", "concept", "interest", "capital"])])

  const PAYMENT_ORDER_FIELDS := Catalog(
    {"paymentOrderNumber", "issueDate", "cadastralCode", "propertyName", "owners", "startYear", "endYear",
     "capitalAmount"},
    map["liquidations" := Loop(InlineList, ["number", "separator"])])

  lemma Word(name: string)
    requires name != "" && forall i :: 0 <= i < |name| ==> 'A' <= name[i] <= 'z'
    ensures Plain(name)
  {
  }

  lemma ScalarsAreWords()
    ensures forall name :: name in LIQUIDATION_FIELDS.scalars + PAYMENT_ORDER_FIELDS.scalars ==> Plain(name)
  {
    hide Plain;
    Word("resolutionNumber");
    Word("cadastralCode");
    Word("propertyName");
    Word("owners");
    Word("startYear");
    Word("endYear");
    Word("totalAmount");
    Word("capitalAmount");
    Word("interestAmount");
    Word("paymentOrderNumber");
    Word("issueDate");
  }

  lemma LoopsAreWords()
    ensures Plain("rows") && Plain("liquidations")
    ensures forall field :: field in ["year", "concept", "interest", "capital", "number", "separator"] ==> Plain(field)
  {
    hide Plain;
    Word("rows");
    Word("year");
    Word("concept");
    Word("interest");
    Word("capital");
    Word("liquidations");
    Word("number");
    Word("separator");
  }

  lemma NamesAreApart()
    ensures forall name :: name in ["rows", "year", "concept", "interest", "capital"] ==> name !in LIQUIDATION_FIELDS.scalars
    ensures forall name :: name in ["liquidations", "number", "separator"] ==> name !in PAYMENT_ORDER_FIELDS.scalars
  {
    forall name | name in ["rows", "year", "concept", "interest", "capital"]
      ensures name !in LIQUIDATION_FIELDS.scalars
    {
      assert |name| in [4, 7, 8] && name[0] in ['r', 'y', 'c', 'i'] && name[|name| - 1] in ['s', 'r', 't', 'l'];
    }
    forall name | name in ["liquidations", "number", "separator"]
      ensures name !in PAYMENT_ORDER_FIELDS.scalars
    {
      assert name[0] in ['l', 'n', 's'] && name[|name| - 1] in ['s', 'r'];
    }
  }

  lemma LiquidationIsWellFormed()
    ensures WellFormed(LIQUIDATION_FIELDS)
  {
    hide Plain;
    ScalarsAreWords();
    LoopsAreWords();
    NamesAreApart();
    forall name | name in LIQUIDATION_FIELDS.loops
      ensures name == "rows"
    {
    }
    assert LIQUIDATION_FIELDS.loops["rows"].fields == ["year", "concept", "interest", "capital"];
  }

  lemma CatalogsAreWellFormed()
    ensures WellFormed(LIQUIDATION_FIELDS) && WellFormed(PAYMENT_ORDER_FIELDS)
  {
    hide Plain;
    LiquidationIsWellFormed();
    ScalarsAreWords();
    LoopsAreWords();
    NamesAreApart();
    forall name | name in PAYMENT_ORDER_FIELDS.loops
      ensures name == "liquidations"
    {
    }
    assert PAYMENT_ORDER_FIELDS.loops["liquidations"].fields == ["number", "separator"];
  }

  // ---------- what a marker's own tags are ----------

  lemma {:induction false} TrimLeavesWords(s: string)
    requires forall i :: 0 <= i < |s| ==> !Space(s[i])
    ensures Trim(s) == s
  {
  }

  lemma {:induction false} PendingWord(name: string, rest: string, at: int, seen: string)
    requires Braceless(name)
    ensures Scan(name + rest, at, Some(seen)) == Scan(rest, at + |name|, Some(seen + name))
    ensures PendingAfter(name + rest, Some(seen)) == PendingAfter(rest, Some(seen + name))
  {
    if name == "" {
      assert name + rest == rest && seen + name == seen;
    } else {
      assert (name + rest)[1..] == name[1..] + rest;
      assert (seen + [name[0]]) + name[1..] == seen + name;
      PendingWord(name[1..], rest, at + 1, seen + [name[0]]);
    }
  }

  lemma ScanBraced(name: string, at: int, pending: Option<string>)
    requires Braceless(name)
    ensures Scan(Braced(name), at, pending) == [Tag(at, at + |name| + 2, name)]
    ensures PendingAfter(Braced(name), pending).None?
    ensures Balanced(Braced(name))
  {
    assert Braced(name)[1..] == name + "}";
    assert "" + name == name;
    PendingWord(name, "}", at + 1, "");
    assert "}"[1..] == "";
  }

  predicate AllBraceless(names: seq<string>) {
    forall i :: 0 <= i < |names| ==> Braceless(names[i])
  }

  function TagList(names: seq<string>, at: int): seq<Tag> {
    if names == [] then []
    else [Tag(at, at + |names[0]| + 2, names[0])] + TagList(names[1..], at + |names[0]| + 2)
  }

  lemma {:induction false} ScanBracedAll(names: seq<string>, at: int)
    requires AllBraceless(names)
    ensures Scan(BracedAll(names), at, None) == TagList(names, at)
    ensures PendingAfter(BracedAll(names), None).None?
  {
    if names != [] {
      ScanBraced(names[0], at, None);
      ScanOfTwo(Braced(names[0]), BracedAll(names[1..]), at, None);
      ScanBracedAll(names[1..], at + |Braced(names[0])|);
    }
  }

  lemma BracedLength(name: string)
    ensures |Braced(name)| == |name| + 2
  {
  }

  lemma TagListOfNone(at: int)
    ensures TagList([], at) == [] && BracedAll([]) == ""
  {
  }

  lemma TagListCons(name: string, rest: seq<string>, at: int)
    ensures TagList([name] + rest, at) == [Tag(at, at + |name| + 2, name)] + TagList(rest, at + |name| + 2)
    ensures BracedAll([name] + rest) == Braced(name) + BracedAll(rest)
  {
    assert ([name] + rest)[1..] == rest;
  }

  lemma {:induction false} TagListOfTwo(a: seq<string>, b: seq<string>, at: int)
    ensures TagList(a + b, at) == TagList(a, at) + TagList(b, at + |BracedAll(a)|)
    ensures BracedAll(a + b) == BracedAll(a) + BracedAll(b)
  {
    hide Braced, TagList, BracedAll;
    if a == [] {
      assert a + b == b;
      TagListOfNone(at);
    } else {
      var name, rest := a[0], a[1..];
      assert a == [name] + rest && a + b == [name] + (rest + b);
      TagListCons(name, rest, at);
      TagListCons(name, rest + b, at);
      TagListOfTwo(rest, b, at + |name| + 2);
      BracedLength(name);
    }
  }

  // The tags of an inline list's marker, in order.
  function ListTags(loop: string, fields: seq<string>): seq<string> {
    ["#" + loop] + fields + ["/" + loop]
  }

  lemma PlainIsBraceless(name: string)
    requires Plain(name)
    ensures Braceless(name) && Braceless("#" + name) && Braceless("/" + name)
    ensures Trim(name) == name && Trim("#" + name) == "#" + name && Trim("/" + name) == "/" + name
    ensures !Opens(name) && !Closes(name)
  {
    TrimLeavesWords(name);
    TrimLeavesWords("#" + name);
    TrimLeavesWords("/" + name);
  }

  lemma ListMarkerTags(loop: string, fields: seq<string>, at: int)
    requires Plain(loop) && forall i :: 0 <= i < |fields| ==> Plain(fields[i])
    ensures var text := Braced("#" + loop) + BracedAll(fields) + Braced("/" + loop);
            Balanced(text) && Scan(text, at, None) == TagList(ListTags(loop, fields), at)
  {
    hide Scan, Plain, Braceless, TagList;
    PlainIsBraceless(loop);
    var all := ListTags(loop, fields);
    forall i | 0 <= i < |all|
      ensures Braceless(all[i])
    {
      if 0 < i < |all| - 1 {
        PlainIsBraceless(fields[i - 1]);
      }
    }
    ListText(loop, fields);
    ScanBracedAll(all, at);
    ScanBraced("#" + loop, at, None);
  }

  lemma ListText(loop: string, fields: seq<string>)
    ensures BracedAll(ListTags(loop, fields)) == Braced("#" + loop) + BracedAll(fields) + Braced("/" + loop)
  {
    TagListOfTwo(["#" + loop] + fields, ["/" + loop], 0);
    TagListOfTwo(["#" + loop], fields, 0);
    assert BracedAll(["#" + loop]) == Braced("#" + loop);
    assert BracedAll(["/" + loop]) == Braced("/" + loop);
  }
}
