/** Reading the rows of a tax roll sheet: each data row is loaded or refused with one reason, and the
    first otherwise valid row of a period wins. Cells come already read as text or numbers. */
module TaxRollFile {
  import opened Numbering
  import opened Settlements
  import opened TaxRoll
  import opened TaxRollImport

  datatype Coordinate = NoCoordinate | NotANumber | Degrees(value: real)

  datatype Cells = Cells(
    blank: bool,
    code: string,
    period: Option<int>,
    taxId: string,
    documentType: Option<string>,
    unrecognizedLabel: bool,
    appraisal: Option<real>,
    amounts: seq<Option<real>>,
    total: Option<real>,
    ruralDistrict: string,
    neighborhood: string,
    latitude: Coordinate,
    longitude: Coordinate,
    ownerName: string,
    propertyName: string,
    landUse: Option<string>)

  datatype Issue =
    | MissingCadastralCode
    | InvalidPeriod
    | PeriodOutOfRange
    | MissingOwnerDocument
    | NonNumericValue
    | InvalidCoordinate
    | DuplicateKey(firstRow: nat)

  datatype Note = MissingOwner | UnrecognizedDocumentType | UnrecognizedLandUse

  datatype Invalid = Invalid(row: nat, issue: Issue)

  datatype Warning = Warning(row: nat, note: Note)

  datatype Parsed = Parsed(valid: seq<Row>, invalid: seq<Invalid>, warnings: seq<Warning>)

  const PROPERTY_TAX_START_YEAR := 1980

  predicate InDegrees(c: Coordinate, limit: real) {
    match c
    case NoCoordinate => true
    case NotANumber => false
    case Degrees(value) => -limit <= value <= limit
  }

  // What is wrong with a row by itself, first reason first.
  function OwnIssue(cells: Cells, currentYear: int): Option<Issue> {
    if cells.code == "" then Some(MissingCadastralCode)
    else if cells.period.None? then Some(InvalidPeriod)
    else if !(PROPERTY_TAX_START_YEAR <= cells.period.value <= currentYear) then Some(PeriodOutOfRange)
    else if cells.taxId == "" then Some(MissingOwnerDocument)
    else if cells.appraisal.None? || cells.total.None? || None in cells.amounts then Some(NonNumericValue)
    else if !InDegrees(cells.latitude, 90.0) || !InDegrees(cells.longitude, 180.0) then Some(InvalidCoordinate)
    else None
  }

  function Text(s: string): Option<string> {
    if s == "" then None else Some(s)
  }

  function Value(c: Coordinate): Option<real> {
    if c.Degrees? then Some(c.value) else None
  }

  function Amounts(amounts: seq<Option<real>>): seq<real> {
    seq(|amounts|, i requires 0 <= i < |amounts| => if amounts[i].Some? then amounts[i].value else 0.0)
  }

  predicate Loadable(cells: Cells, currentYear: int) {
    !cells.blank && OwnIssue(cells, currentYear).None?
  }

  function RowFrom(cells: Cells, currentYear: int): Row
    requires Loadable(cells, currentYear)
  {
    Row(cells.code, cells.taxId, cells.documentType, Text(cells.ownerName), cells.propertyName, cells.period.value,
        Extras(Text(cells.ruralDistrict), Text(cells.neighborhood), Value(cells.latitude), Value(cells.longitude), cells.landUse),
        cells.appraisal.value, Amounts(cells.amounts), cells.total.value)
  }

  function Notes(cells: Cells, row: nat): seq<Warning> {
    (if cells.ownerName == "" then [Warning(row, MissingOwner)] else [])
    + (if cells.unrecognizedLabel then [Warning(row, UnrecognizedDocumentType)] else [])
    + (if cells.landUse.None? then [Warning(row, UnrecognizedLandUse)] else [])
  }

  // The first loadable row with a key, by its place in the sheet's data.
  function FirstWith(sheet: seq<Cells>, currentYear: int, key: Period): (first: Option<nat>)
    ensures first.Some? ==> && first.value < |sheet| && Loadable(sheet[first.value], currentYear)
                            && KeyOf(RowFrom(sheet[first.value], currentYear)) == key
                            && forall k :: 0 <= k < first.value && Loadable(sheet[k], currentYear) ==> KeyOf(RowFrom(sheet[k], currentYear)) != key
    ensures first.None? ==> forall k :: 0 <= k < |sheet| && Loadable(sheet[k], currentYear) ==> KeyOf(RowFrom(sheet[k], currentYear)) != key
  {
    if sheet == [] then None
    else
      var n := |sheet| - 1;
      var earlier := FirstWith(sheet[..n], currentYear, key);
      if earlier.Some? then earlier
      else if Loadable(sheet[n], currentYear) && KeyOf(RowFrom(sheet[n], currentYear)) == key then Some(n)
      else None
  }

  // What the row loop does with the n-th row of the data. Row numbers count from the header, row 1.
  function Step(before: Parsed, cells: Cells, n: nat, currentYear: int, earlier: seq<Cells>): Parsed {
    if cells.blank then before
    else if !Loadable(cells, currentYear)
    then before.(invalid := before.invalid + [Invalid(n + 2, OwnIssue(cells, currentYear).value)])
    else
      var row := RowFrom(cells, currentYear);
      var first := FirstWith(earlier, currentYear, KeyOf(row));
      if first.Some? then before.(invalid := before.invalid + [Invalid(n + 2, DuplicateKey(first.value + 2))])
      else Parsed(before.valid + [row], before.invalid, before.warnings + Notes(cells, n + 2))
  }

  function Parse(sheet: seq<Cells>, currentYear: int): Parsed {
    if sheet == [] then Parsed([], [], [])
    else
      var n := |sheet| - 1;
      Step(Parse(sheet[..n], currentYear), sheet[n], n, currentYear, sheet[..n])
  }

  lemma ParseNext(sheet: seq<Cells>, n: nat, currentYear: int)
    requires n < |sheet|
    ensures Parse(sheet[..n + 1], currentYear) == Step(Parse(sheet[..n], currentYear), sheet[n], n, currentYear, sheet[..n])
  {
    hide Step;
    assert sheet[..n + 1][..n] == sheet[..n] && sheet[..n + 1][n] == sheet[n];
  }

  lemma FirstNext(sheet: seq<Cells>, n: nat, currentYear: int, key: Period)
    requires n < |sheet|
    ensures FirstWith(sheet[..n + 1], currentYear, key)
         == if FirstWith(sheet[..n], currentYear, key).Some? then FirstWith(sheet[..n], currentYear, key)
            else if Loadable(sheet[n], currentYear) && KeyOf(RowFrom(sheet[n], currentYear)) == key then Some(n)
            else None
  {
    hide OwnIssue, RowFrom;
    assert sheet[..n + 1][..n] == sheet[..n] && sheet[..n + 1][n] == sheet[n];
  }

  // The row that took each key, kept by the row loop.
  ghost predicate Takes(firstRowByKey: map<Period, nat>, sheet: seq<Cells>, currentYear: int) {
    && (forall key :: key in firstRowByKey <==> FirstWith(sheet, currentYear, key).Some?)
    && (forall key :: key in firstRowByKey ==> firstRowByKey[key] == FirstWith(sheet, currentYear, key).value + 2)
  }

  lemma TakesNext(firstRowByKey: map<Period, nat>, sheet: seq<Cells>, n: nat, currentYear: int)
    requires n < |sheet| && Takes(firstRowByKey, sheet[..n], currentYear)
    ensures Takes(if Loadable(sheet[n], currentYear) && KeyOf(RowFrom(sheet[n], currentYear)) !in firstRowByKey
                  then firstRowByKey[KeyOf(RowFrom(sheet[n], currentYear)) := n + 2] else firstRowByKey,
                  sheet[..n + 1], currentYear)
  {
    hide FirstWith, RowFrom, OwnIssue;
    var after := if Loadable(sheet[n], currentYear) && KeyOf(RowFrom(sheet[n], currentYear)) !in firstRowByKey
                 then firstRowByKey[KeyOf(RowFrom(sheet[n], currentYear)) := n + 2] else firstRowByKey;
    forall key
      ensures key in after <==> FirstWith(sheet[..n + 1], currentYear, key).Some?
      ensures key in after ==> after[key] == FirstWith(sheet[..n + 1], currentYear, key).value + 2
    {
      FirstNext(sheet, n, currentYear, key);
    }
  }

  lemma NothingParsed(currentYear: int)
    ensures Parse([], currentYear) == Parsed([], [], []) && Takes(map[], [], currentYear)
  {
  }

  function DataRows(sheet: seq<Cells>): nat {
    if sheet == [] then 0 else DataRows(sheet[..|sheet| - 1]) + if sheet[|sheet| - 1].blank then 0 else 1
  }

  // Every data row is either loaded or refused, once.
  lemma {:induction false} EveryRowIsAccountedFor(sheet: seq<Cells>, currentYear: int)
    ensures var parsed := Parse(sheet, currentYear);
            |parsed.valid| + |parsed.invalid| == DataRows(sheet)
  {
    hide OwnIssue;
    if sheet != [] {
      EveryRowIsAccountedFor(sheet[..|sheet| - 1], currentYear);
    }
  }

  // The rows that reach the load have distinct periods, and each is the first loadable row of its
  // period: later ones are reported, never used.
  lemma {:induction false} FirstRowWins(sheet: seq<Cells>, currentYear: int, key: Period)
    ensures var valid := Parse(sheet, currentYear).valid;
            var first := FirstWith(sheet, currentYear, key);
            && (forall i, k :: 0 <= i < k < |valid| ==> KeyOf(valid[i]) != KeyOf(valid[k]))
            && LastRow(valid, key) == if first.Some? then Some(RowFrom(sheet[first.value], currentYear)) else None
  {
    hide OwnIssue, RowFrom, Notes, FirstWith, LastRow, Parse;
    if sheet == [] {
      NothingParsed(currentYear);
      NoRows(currentYear, key);
    } else {
      var n := |sheet| - 1;
      assert sheet[..n + 1] == sheet;
      FirstRowWins(sheet[..n], currentYear, key);
      ParseNext(sheet, n, currentYear);
      FirstNext(sheet, n, currentYear, key);
      var before := Parse(sheet[..n], currentYear).valid;
      if Loadable(sheet[n], currentYear) {
        var row := RowFrom(sheet[n], currentYear);
        FirstRowWins(sheet[..n], currentYear, KeyOf(row));
        LastOfOneMore(before, row, key);
        NoneHas(before, KeyOf(row));
      }
    }
  }

  lemma NoRows(currentYear: int, key: Period)
    ensures FirstWith([], currentYear, key).None? && LastRow([], key).None?
  {
  }

  lemma LastOfOneMore(rows: seq<Row>, row: Row, key: Period)
    ensures LastRow(rows + [row], key) == if KeyOf(row) == key then Some(row) else LastRow(rows, key)
  {
    assert (rows + [row])[..|rows|] == rows;
  }

  lemma NoneHas(rows: seq<Row>, key: Period)
    ensures LastRow(rows, key).None? ==> forall i :: 0 <= i < |rows| ==> KeyOf(rows[i]) != key
  {
  }

  // A row is refused as a duplicate exactly when it is loadable and an earlier loadable row has its
  // period; the report names that row.
  lemma {:induction false} DuplicatesAreReported(sheet: seq<Cells>, currentYear: int, n: nat)
    requires n < |sheet|
    ensures (exists first :: Invalid(n + 2, DuplicateKey(first)) in Parse(sheet, currentYear).invalid)
       <==> && Loadable(sheet[n], currentYear)
            && exists k :: 0 <= k < n && Loadable(sheet[k], currentYear)
                           && KeyOf(RowFrom(sheet[k], currentYear)) == KeyOf(RowFrom(sheet[n], currentYear))
  {
    hide RowFrom, Notes;
    var m := |sheet| - 1;
    var before := Parse(sheet[..m], currentYear);
    InvalidAreEarlier(sheet[..m], currentYear);
    if n < m {
      DuplicatesAreReported(sheet[..m], currentYear, n);
    }
  }

  lemma {:induction false} InvalidAreEarlier(sheet: seq<Cells>, currentYear: int)
    ensures forall i :: i in Parse(sheet, currentYear).invalid ==> 2 <= i.row < |sheet| + 2
  {
    hide OwnIssue, RowFrom, Notes;
    if sheet != [] {
      InvalidAreEarlier(sheet[..|sheet| - 1], currentYear);
    }
  }

  // ---------- one row of the sheet ----------

  predicate GoodCoordinate(c: Coordinate, limit: real) {
    c == NoCoordinate || (c.Degrees? && -limit <= c.value <= limit)
  }

  // A row that can be loaded, if its period is not taken.
  predicate GoodCells(cells: Cells, currentYear: int) {
    && !cells.blank && cells.code != "" && cells.taxId != ""
    && cells.period.Some? && 1980 <= cells.period.value <= currentYear
    && cells.appraisal.Some? && cells.total.Some?
    && (forall i :: 0 <= i < |cells.amounts| ==> cells.amounts[i].Some?)
    && GoodCoordinate(cells.latitude, 90.0) && GoodCoordinate(cells.longitude, 180.0)
  }

  predicate SamePeriod(a: Cells, b: Cells) {
    a.code == b.code && a.period == b.period
  }

  // A text cell as an optional value: nothing when it is empty.
  predicate Optionally(value: Option<string>, text: string) {
    if text == "" then value == None else value == Some(text)
  }

  predicate OptionalDegrees(value: Option<real>, c: Coordinate) {
    if c.Degrees? then value == Some(c.value) else value == None
  }

  // The loaded row holds what its own cells say, each in its place.
  predicate Describes(cells: Cells, row: Row) {
    && row.code == cells.code && row.taxId == cells.taxId && cells.period == Some(row.period)
    && row.documentType == cells.documentType && row.propertyName == cells.propertyName
    && Optionally(row.ownerName, cells.ownerName)
    && Optionally(row.extras.ruralDistrict, cells.ruralDistrict) && Optionally(row.extras.neighborhood, cells.neighborhood)
    && OptionalDegrees(row.extras.latitude, cells.latitude) && OptionalDegrees(row.extras.longitude, cells.longitude)
    && row.extras.landUse == cells.landUse
    && cells.appraisal == Some(row.appraisal) && cells.total == Some(row.total)
    && |row.amounts| == |cells.amounts| && forall i :: 0 <= i < |cells.amounts| ==> cells.amounts[i] == Some(row.amounts[i])
  }

  lemma GoodIsLoadable(cells: Cells, currentYear: int)
    ensures GoodCells(cells, currentYear) <==> Loadable(cells, currentYear)
    ensures GoodCells(cells, currentYear) ==> Describes(cells, RowFrom(cells, currentYear))
  {
    assert None in cells.amounts <==> exists i :: 0 <= i < |cells.amounts| && cells.amounts[i].None?;
  }

  // ---------- the rows that are loaded ----------

  // The first good row of its period.
  predicate First(sheet: seq<Cells>, n: nat, currentYear: int) {
    && n < |sheet| && GoodCells(sheet[n], currentYear)
    && forall k :: 0 <= k < n && GoodCells(sheet[k], currentYear) ==> !SamePeriod(sheet[k], sheet[n])
  }

  lemma FirstIs(sheet: seq<Cells>, n: nat, currentYear: int)
    requires n < |sheet| && GoodCells(sheet[n], currentYear) && Loadable(sheet[n], currentYear)
    ensures First(sheet, n, currentYear) <==> FirstWith(sheet[..n], currentYear, KeyOf(RowFrom(sheet[n], currentYear))).None?
    ensures var first := FirstWith(sheet[..n], currentYear, KeyOf(RowFrom(sheet[n], currentYear)));
            first.Some? ==> first.value < n && First(sheet, first.value, currentYear) && SamePeriod(sheet[first.value], sheet[n])
  {
    hide FirstWith, GoodCells, Loadable, RowFrom;
    var first := FirstWith(sheet[..n], currentYear, KeyOf(RowFrom(sheet[n], currentYear)));
    GoodIsLoadable(sheet[n], currentYear);
    forall k | 0 <= k < n
      ensures sheet[..n][k] == sheet[k]
      ensures GoodCells(sheet[k], currentYear) <==> Loadable(sheet[k], currentYear)
      ensures GoodCells(sheet[k], currentYear) ==>
                (SamePeriod(sheet[k], sheet[n]) <==> KeyOf(RowFrom(sheet[k], currentYear)) == KeyOf(RowFrom(sheet[n], currentYear)))
    {
      GoodIsLoadable(sheet[k], currentYear);
    }
  }

  predicate Ascending(places: seq<nat>) {
    forall i, k :: 0 <= i < k < |places| ==> places[i] < places[k]
  }

  // The loaded rows are the first good rows of their periods, in the order of the sheet, and hold what
  // those rows' own cells say.
  ghost predicate Loads(sheet: seq<Cells>, currentYear: int, places: seq<nat>, valid: seq<Row>) {
    && |places| == |valid| && Ascending(places)
    && (forall n: nat :: n in places <==> First(sheet, n, currentYear))
    && (forall k :: 0 <= k < |places| ==> places[k] < |sheet| && Describes(sheet[places[k]], valid[k]))
  }

  lemma {:induction false} LoadedRows(sheet: seq<Cells>, currentYear: int) returns (places: seq<nat>)
    ensures Loads(sheet, currentYear, places, Parse(sheet, currentYear).valid)
  {
    hide First, Describes, GoodCells, Loadable, Notes, FirstWith, OwnIssue, RowFrom, Parse;
    if sheet == [] {
      NothingParsed(currentYear);
      NoFirst(currentYear);
      places := [];
    } else {
      var n := |sheet| - 1;
      assert sheet[..n + 1] == sheet;
      var before := LoadedRows(sheet[..n], currentYear);
      ParseNext(sheet, n, currentYear);
      GoodIsLoadable(sheet[n], currentYear);
      FirstsSoFar(sheet, n, currentYear);
      places := before;
      if GoodCells(sheet[n], currentYear) {
        FirstIs(sheet, n, currentYear);
        if First(sheet, n, currentYear) {
          places := before + [n];
        }
      }
      LastMayBeFirst(sheet, n, currentYear);
      assert forall k :: 0 <= k < |before| ==> before[k] in before && sheet[..n][before[k]] == sheet[before[k]];
    }
  }

  lemma NoFirst(currentYear: int)
    ensures forall n: nat :: !First([], n, currentYear)
  {
  }

  lemma FirstsSoFar(sheet: seq<Cells>, n: nat, currentYear: int)
    requires n <= |sheet|
    ensures forall k: nat :: First(sheet[..n], k, currentYear) <==> k < n && First(sheet, k, currentYear)
  {
    hide GoodCells;
    forall k: nat
      ensures First(sheet[..n], k, currentYear) <==> k < n && First(sheet, k, currentYear)
    {
      assert forall j :: 0 <= j < n ==> sheet[..n][j] == sheet[j];
    }
  }

  lemma LastMayBeFirst(sheet: seq<Cells>, n: nat, currentYear: int)
    requires |sheet| == n + 1
    ensures forall k: nat :: First(sheet, k, currentYear) ==> k <= n
    ensures First(sheet, n, currentYear) ==> GoodCells(sheet[n], currentYear)
  {
  }

  // ---------- the rows that are refused ----------

  // What is wrong with a row, the first thing in this order.
  predicate WrongWith(cells: Cells, currentYear: int, issue: Issue) {
    var located := cells.code != "";
    var dated := located && cells.period.Some?;
    var inRange := dated && 1980 <= cells.period.value <= currentYear;
    var owned := inRange && cells.taxId != "";
    var numeric := owned && cells.appraisal.Some? && cells.total.Some? && forall i :: 0 <= i < |cells.amounts| ==> cells.amounts[i].Some?;
    match issue
    case MissingCadastralCode => !located
    case InvalidPeriod => located && !dated
    case PeriodOutOfRange => dated && !inRange
    case MissingOwnerDocument => inRange && !owned
    case NonNumericValue => owned && !numeric
    case InvalidCoordinate => numeric && (!GoodCoordinate(cells.latitude, 90.0) || !GoodCoordinate(cells.longitude, 180.0))
    case DuplicateKey(_) => false
  }

  lemma OwnIssueIs(cells: Cells, currentYear: int)
    ensures forall issue :: OwnIssue(cells, currentYear) == Some(issue) <==> WrongWith(cells, currentYear, issue)
  {
    assert None in cells.amounts <==> exists i :: 0 <= i < |cells.amounts| && cells.amounts[i].None?;
  }

  // A data row is refused with a reason exactly when the reason is so: something wrong with it, or a
  // period that an earlier first row has.
  predicate Refused(sheet: seq<Cells>, n: nat, currentYear: int, issue: Issue) {
    && n < |sheet| && !sheet[n].blank
    && (WrongWith(sheet[n], currentYear, issue)
        || (issue.DuplicateKey? && GoodCells(sheet[n], currentYear) && 2 <= issue.firstRow
            && issue.firstRow - 2 < n && First(sheet, issue.firstRow - 2, currentYear) && SamePeriod(sheet[issue.firstRow - 2], sheet[n])))
  }

  lemma {:induction false} RefusedRows(sheet: seq<Cells>, currentYear: int)
    ensures forall i :: i in Parse(sheet, currentYear).invalid <==> i.row >= 2 && Refused(sheet, i.row - 2, currentYear, i.issue)
  {
    hide First, GoodCells, Loadable, Notes, FirstWith, OwnIssue, RowFrom, Parse, WrongWith, Refused;
    if sheet == [] {
      NothingParsed(currentYear);
      NoneRefused(currentYear);
    } else {
      var n := |sheet| - 1;
      assert sheet[..n + 1] == sheet;
      RefusedRows(sheet[..n], currentYear);
      ParseNext(sheet, n, currentYear);
      RefusedSoFar(sheet, n, currentYear);
      RefusedHere(sheet, n, currentYear);
    }
  }

  lemma NoneRefused(currentYear: int)
    ensures forall n: nat, issue :: !Refused([], n, currentYear, issue)
  {
  }

  lemma RefusedSoFar(sheet: seq<Cells>, n: nat, currentYear: int)
    requires |sheet| == n + 1
    ensures forall k: nat, issue :: k != n ==> (Refused(sheet, k, currentYear, issue) <==> Refused(sheet[..n], k, currentYear, issue))
    ensures forall issue :: !Refused(sheet[..n], n, currentYear, issue)
  {
    hide GoodCells, WrongWith, First;
    FirstsSoFar(sheet, n, currentYear);
  }

  lemma RefusedHere(sheet: seq<Cells>, n: nat, currentYear: int)
    requires |sheet| == n + 1
    ensures forall i :: i in Step(Parsed([], [], []), sheet[n], n, currentYear, sheet[..n]).invalid
                   <==> i.row == n + 2 && Refused(sheet, n, currentYear, i.issue)
    ensures forall before :: Step(before, sheet[n], n, currentYear, sheet[..n]).invalid
                             == before.invalid + Step(Parsed([], [], []), sheet[n], n, currentYear, sheet[..n]).invalid
  {
    hide GoodCells, WrongWith, First, FirstWith, RowFrom, Notes, OwnIssue;
    GoodIsLoadable(sheet[n], currentYear);
    OwnIssueIs(sheet[n], currentYear);
    if GoodCells(sheet[n], currentYear) {
      FirstIs(sheet, n, currentYear);
      OneFirst(sheet, n, currentYear);
    }
  }

  // Two first rows never have one period.
  lemma OneFirst(sheet: seq<Cells>, n: nat, currentYear: int)
    requires n < |sheet|
    ensures forall i: nat, k: nat :: (First(sheet, i, currentYear) && First(sheet, k, currentYear)
                                      && SamePeriod(sheet[i], sheet[n]) && SamePeriod(sheet[k], sheet[n])) ==> i == k
  {
    hide GoodCells;
  }

  // What a loaded row is loaded with a warning about.
  predicate Doubtful(cells: Cells, note: Note) {
    match note
    case MissingOwner => cells.ownerName == ""
    case UnrecognizedDocumentType => cells.unrecognizedLabel
    case UnrecognizedLandUse => cells.landUse == None
  }

  // A row is warned about exactly when it is loaded and the doubt is real; refused rows carry no warning.
  lemma {:induction false} WarnedRows(sheet: seq<Cells>, currentYear: int)
    ensures forall w :: w in Parse(sheet, currentYear).warnings
                   <==> w.row >= 2 && First(sheet, w.row - 2, currentYear) && Doubtful(sheet[w.row - 2], w.note)
  {
    hide First, GoodCells, Loadable, Notes, FirstWith, OwnIssue, RowFrom, Parse, Doubtful;
    if sheet == [] {
      NothingParsed(currentYear);
      NoFirst(currentYear);
    } else {
      var n := |sheet| - 1;
      assert sheet[..n + 1] == sheet;
      WarnedRows(sheet[..n], currentYear);
      ParseNext(sheet, n, currentYear);
      GoodIsLoadable(sheet[n], currentYear);
      FirstsSoFar(sheet, n, currentYear);
      LastMayBeFirst(sheet, n, currentYear);
      if GoodCells(sheet[n], currentYear) {
        FirstIs(sheet, n, currentYear);
      }
      NotesAre(sheet[n], n + 2);
      assert forall k :: 0 <= k < n ==> sheet[..n][k] == sheet[k];
    }
  }

  lemma NotesAre(cells: Cells, row: nat)
    ensures forall w :: w in Notes(cells, row) <==> w.row == row && Doubtful(cells, w.note)
  {
  }

  // ---------- the row loop ----------

  method ParseRows(sheet: seq<Cells>, currentYear: int) returns (parsed: Parsed, dataRows: nat)
    ensures parsed == Parse(sheet, currentYear)
    ensures exists places :: Loads(sheet, currentYear, places, parsed.valid)
    ensures forall i :: i in parsed.invalid <==> i.row >= 2 && Refused(sheet, i.row - 2, currentYear, i.issue)
    ensures forall w :: w in parsed.warnings
                   <==> w.row >= 2 && First(sheet, w.row - 2, currentYear) && Doubtful(sheet[w.row - 2], w.note)
    ensures dataRows == 0 <==> forall k :: 0 <= k < |sheet| ==> sheet[k].blank
  {
    hide OwnIssue, Notes, RowFrom, Parse, FirstWith, First, Refused, Doubtful, Loads;
    var valid: seq<Row>, invalid: seq<Invalid>, warnings: seq<Warning> := [], [], [];
    var firstRowByKey: map<Period, nat> := map[];
    dataRows := 0;
    NothingParsed(currentYear);
    for n := 0 to |sheet|
      invariant Parsed(valid, invalid, warnings) == Parse(sheet[..n], currentYear)
      invariant Takes(firstRowByKey, sheet[..n], currentYear)
      invariant dataRows == 0 <==> forall k :: 0 <= k < n ==> sheet[k].blank
    {
      ParseNext(sheet, n, currentYear);
      TakesNext(firstRowByKey, sheet, n, currentYear);
      var cells := sheet[n];
      if !cells.blank {
        dataRows := dataRows + 1;
        var issue := OwnIssue(cells, currentYear);
        if issue.Some? {
          invalid := invalid + [Invalid(n + 2, issue.value)];
        } else {
          var row := RowFrom(cells, currentYear);
          if KeyOf(row) in firstRowByKey {
            invalid := invalid + [Invalid(n + 2, DuplicateKey(firstRowByKey[KeyOf(row)]))];
          } else {
            firstRowByKey := firstRowByKey[KeyOf(row) := n + 2];
            warnings := warnings + Notes(cells, n + 2);
            valid := valid + [row];
          }
        }
      }
    }
    assert sheet[..|sheet|] == sheet;
    parsed := Parsed(valid, invalid, warnings);
    ghost var places := LoadedRows(sheet, currentYear);
    RefusedRows(sheet, currentYear);
    WarnedRows(sheet, currentYear);
  }
}
