/** pages/1_Dashboard.py: the attendance matrix. Rows are events, newest
    first; columns are cadets, alphabetical; each cell is P, A or E. */
module Dashboard {
  import opened Common
  import opened Ordering
  import opened Store
  import Auth

  // ---------------------------------------------------------------------
  // Statuses

  /** The code of a trimmed, lower-cased status: "present" is P, "excused"
      and "waived" are E, "absent" and every other text is A. */
  function StatusCode(s: string): (r: string)
    ensures r == "P" || r == "A" || r == "E"
    ensures r == "P" <==> s == "present"
    ensures r == "E" <==> s in ["excused", "waived"]
  {
    if s == "present" then "P"
    else if s == "absent" then "A"
    else if s == "excused" || s == "waived" then "E"
    else "A"
  }

  /** _normalize_status: the stored status trimmed and lower-cased, then
      coded; a missing or empty status is A. */
  function NormalizeStatus(status: Option<string>): (r: string)
    ensures r == "P" || r == "A" || r == "E"
    ensures r == "P" <==> status.Some? && Lower(Strip(status.value)) == "present"
    ensures r == "E" <==> status.Some? && Lower(Strip(status.value)) in ["excused", "waived"]
  {
    if status.None? || status.value == "" then
      StripKeeps("");
      "A"
    else StatusCode(Lower(Strip(status.value)))
  }

  /** Statuses that differ only in letter case normalise alike. */
  lemma NormalizeIgnoresCase(a: string, b: string)
    requires Lower(a) == Lower(b)
    ensures NormalizeStatus(Some(a)) == NormalizeStatus(Some(b))
  {
    NormalizeIsCode(a);
    NormalizeIsCode(b);
    StripLower(a);
    StripLower(b);
  }

  /** The empty status takes the same code as any other: A. */
  lemma NormalizeIsCode(a: string)
    ensures NormalizeStatus(Some(a)) == StatusCode(Lower(Strip(a)))
  {
    if a == "" {
      StripKeeps("");
      assert Lower(Strip(a)) == "";
    }
  }

  /** Surrounding white space does not change a status. */
  lemma NormalizeIgnoresPadding(a: string)
    ensures NormalizeStatus(Some(a)) == NormalizeStatus(Some(Strip(a)))
  {
    var t := Strip(a);
    StripKeeps(t);
    assert Lower(Strip(t)) == Lower(Strip(a));
    NormalizeIsCode(a);
    NormalizeIsCode(t);
  }

  /** The grid's own codes are not statuses: normalising P or E again gives A. */
  lemma NormalizeNotIdempotent(status: Option<string>)
    ensures NormalizeStatus(Some(NormalizeStatus(status))) == "A"
  {
    var c := NormalizeStatus(status);
    assert |c| == 1 && !IsSpace(c[0]);
    OneLetterIsAbsent(c);
  }

  /** No status is one letter long, so a one-letter text normalises to A. */
  lemma OneLetterIsAbsent(c: string)
    requires |c| == 1 && !IsSpace(c[0])
    ensures NormalizeStatus(Some(c)) == "A"
  {
    StripKeeps(c);
  }

  // ---------------------------------------------------------------------
  // Columns: cadets

  /** A user's "first last", trimmed, or "Unknown" when that is blank. */
  function UserName(u: Doc): (r: string)
    ensures r != [] && !IsSpace(r[0]) && !IsSpace(r[|r| - 1])
  {
    var full := Strip(FieldText(u, "first_name") + " " + FieldText(u, "last_name"));
    if full == "" then "Unknown" else full
  }

  /** A user with a first and a last name shows as "first last". */
  lemma UserNameJoinsNames(u: Doc, first: string, last: string)
    requires Get(u, "first_name") == Some(Str(first)) && Get(u, "last_name") == Some(Str(last))
    requires first != [] && !IsSpace(first[0]) && !IsSpace(first[|first| - 1])
    requires last != [] && !IsSpace(last[0]) && !IsSpace(last[|last| - 1])
    ensures UserName(u) == first + " " + last
  {
    var full := first + " " + last;
    assert full[0] == first[0] && full[|full| - 1] == last[|last| - 1];
    StripKeeps(full);
  }

  /** A projection: the listed fields of d only. */
  function Project(d: Doc, keep: set<string>): (r: Doc)
    ensures forall k :: k in r <==> k in d && k in keep
    ensures forall k :: k in r ==> r[k] == d[k]
  {
    map k | k in d && k in keep :: d[k]
  }

  /** The user fields the page's users query returns besides `_id`. */
  const UserProjection: set<string> := {"name"}

  /** The user a cadet document refers to, when it resolves. */
  function CadetUser(s: DbState, cadet: Doc): (r: Option<Entry>)
    ensures r.Some? ==> RefOf(cadet, "user_id").Some? && r.value in Tab(s, Users) &&
                        r.value.id == RefOf(cadet, "user_id").value
    ensures r.None? && s.connected && RefOf(cadet, "user_id").Some? ==>
              forall e :: e in Tab(s, Users) ==> e.id != RefOf(cadet, "user_id").value
  {
    match RefOf(cadet, "user_id")
    case None => None
    case Some(uid) => ById(s, Users, uid)
  }

  /** A cadet's column name as the page computes it: from the user read
      through the projection, which leaves out the name fields. */
  function ColumnNameAsWritten(s: DbState, cadet: Doc): string {
    match CadetUser(s, cadet)
    case None => "Unknown"
    case Some(u) => UserName(Project(u.doc, UserProjection))
  }

  /** As written, every column is "Unknown". */
  lemma ColumnNameAsWrittenIsUnknown(s: DbState, cadet: Doc)
    ensures ColumnNameAsWritten(s, cadet) == "Unknown"
  {
    if CadetUser(s, cadet).Some? {
      var p := Project(CadetUser(s, cadet).value.doc, UserProjection);
      assert FieldText(p, "first_name") + " " + FieldText(p, "last_name") == " ";
    }
  }

  /** A cadet's column name: the user's "first last", or "Unknown" when the
      user does not resolve or has no name. */
  function ColumnName(s: DbState, cadet: Doc): (r: string)
    ensures CadetUser(s, cadet).None? ==> r == "Unknown"
    ensures CadetUser(s, cadet).Some? ==> r == UserName(CadetUser(s, cadet).value.doc)
  {
    match CadetUser(s, cadet)
    case None => "Unknown"
    case Some(u) => UserName(u.doc)
  }

  /** A cadet whose user has a first and a last name: the page as written
      shows "Unknown", the intended page shows "first last". */
  lemma ProjectionHidesNames(s: DbState, cadet: Doc, first: string, last: string)
    requires CadetUser(s, cadet).Some?
    requires Get(CadetUser(s, cadet).value.doc, "first_name") == Some(Str(first))
    requires Get(CadetUser(s, cadet).value.doc, "last_name") == Some(Str(last))
    requires first != [] && !IsSpace(first[0]) && !IsSpace(first[|first| - 1])
    requires last != [] && !IsSpace(last[0]) && !IsSpace(last[|last| - 1])
    ensures ColumnName(s, cadet) == first + " " + last
    ensures ColumnNameAsWritten(s, cadet) == "Unknown"
    ensures ColumnName(s, cadet) != ColumnNameAsWritten(s, cadet)
  {
    UserNameJoinsNames(CadetUser(s, cadet).value.doc, first, last);
    ColumnNameAsWrittenIsUnknown(s, cadet);
    SpacedNameIsKnown(first, last);
  }

  /** A name joined with a space is never the placeholder "Unknown". */
  lemma SpacedNameIsKnown(first: string, last: string)
    ensures first + " " + last != "Unknown"
  {
    var full := first + " " + last;
    assert full[|first|] == ' ';
    assert ' ' !in "Unknown";
  }

  /** One column of the matrix. */
  datatype Column = Column(cadetId: Id, name: string)

  /** The columns before sorting, in the cadets' natural order. */
  function Columns(s: DbState): (r: seq<Column>)
    ensures |r| == |Every(s, Cadets)|
    ensures forall i :: 0 <= i < |r| ==>
              r[i] == Column(Every(s, Cadets)[i].id, ColumnName(s, Every(s, Cadets)[i].doc))
  {
    var t := Every(s, Cadets);
    seq(|t|, i requires 0 <= i < |t| => Column(t[i].id, ColumnName(s, t[i].doc)))
  }

  /** The sort key of a column: its name lower-cased. */
  function ColumnPairs(cols: seq<Column>): (r: seq<(Key, Column)>)
    ensures |r| == |cols|
    ensures forall i :: 0 <= i < |cols| ==> r[i] == (Text(Lower(cols[i].name)), cols[i])
  {
    seq(|cols|, i requires 0 <= i < |cols| => (Text(Lower(cols[i].name)), cols[i]))
  }

  /** The columns sorted by lower-cased name. */
  function SortedColumns(s: DbState): seq<Column> {
    Values(SortByKey(ColumnPairs(Columns(s)), false))
  }

  /** Every decorated column carries its own lower-cased name as key, and
      sorting keeps that. */
  lemma SortedColumnKeys(cols: seq<Column>)
    ensures var sorted := SortByKey(ColumnPairs(cols), false);
            forall i :: 0 <= i < |sorted| ==> sorted[i].0 == Text(Lower(sorted[i].1.name))
  {
    var p := ColumnPairs(cols);
    var sorted: seq<(Key, Column)> := SortByKey(p, false);
    SortByKeySorted(p, false);
    forall i | 0 <= i < |sorted|
      ensures sorted[i].0 == Text(Lower(sorted[i].1.name))
    {
      assert sorted[i] in multiset(p);
      var m :| 0 <= m < |p| && p[m] == sorted[i];
    }
  }

  /** The columns are in case-insensitive alphabetical order. */
  lemma ColumnsAlphabetical(s: DbState)
    ensures var c := SortedColumns(s);
            forall i, j :: 0 <= i < j < |c| ==> LexLe(Lower(c[i].name), Lower(c[j].name))
  {
    var p := ColumnPairs(Columns(s));
    var sorted: seq<(Key, Column)> := SortByKey(p, false);
    SortByKeySorted(p, false);
    SortedColumnKeys(Columns(s));
    var c := SortedColumns(s);
    forall i, j | 0 <= i < j < |c|
      ensures LexLe(Lower(c[i].name), Lower(c[j].name))
    {
      assert Precedes(sorted[i].0, sorted[j].0, false);
    }
  }

  /** The sorted columns are the cadets' columns rearranged. */
  lemma ColumnsPermuted(s: DbState)
    ensures multiset(SortedColumns(s)) == multiset(Columns(s))
  {
    var p := ColumnPairs(Columns(s));
    SortByKeySorted(p, false);
    ValuesMultiset(SortByKey(p, false), p);
    assert Values(p) == Columns(s);
  }

  /** Columns whose names are equal up to case keep the cadets' order. */
  lemma ColumnsStable(s: DbState, name: string)
    ensures var k := Text(Lower(name));
            WithKey(SortByKey(ColumnPairs(Columns(s)), false), k) == WithKey(ColumnPairs(Columns(s)), k)
  {
    SortByKeyStable(ColumnPairs(Columns(s)), Text(Lower(name)), false);
  }

  // ---------------------------------------------------------------------
  // Rows: events

  /** The event fields the page's events query returns besides `_id`. */
  const EventProjection: set<string> := {"start_date", "event_name"}

  /** _event_sort_key: the start date when it is a datetime, otherwise its
      text (empty when it is missing or falsy). */
  function EventKey(d: Doc): (r: Key)
    ensures TimeOf(d, "start_date").Some? ==> r == Stamp(TimeOf(d, "start_date").value.stamp)
    ensures TimeOf(d, "start_date").None? ==> r.Text?
  {
    match TimeOf(d, "start_date")
    case Some(m) => Stamp(m.stamp)
    case None => Text(if "start_date" in d && Truthy(d["start_date"]) then Show(d["start_date"]) else "")
  }

  /** `str(x)[:10]` */
  function Take10(x: string): (r: string)
    ensures |r| <= 10 && r <= x
  {
    if |x| <= 10 then x else x[..10]
  }

  /** The date part of a row label. */
  function DateText(d: Doc): string {
    match TimeOf(d, "start_date")
    case Some(m) => m.day
    case None => if "start_date" in d && Truthy(d["start_date"]) then Take10(Show(d["start_date"])) else "Unknown date"
  }

  /** `event.get("event_name") or event.get("name")`, when either is truthy. */
  function EventTitle(d: Doc): (r: Option<Value>)
    ensures r.Some? ==> Truthy(r.value)
  {
    if "event_name" in d && Truthy(d["event_name"]) then Some(d["event_name"])
    else if "name" in d && Truthy(d["name"]) then Some(d["name"])
    else None
  }

  /** "date<separator>title", or the date alone when there is no title. */
  function LabelWith(d: Doc, separator: string): string {
    match EventTitle(d)
    case Some(v) => DateText(d) + separator + Show(v)
    case None => DateText(d)
  }

  /** The separator as the file spells it: the UTF-8 bytes of an em dash
      read back as Windows-1252. */
  const SeparatorAsWritten: string := " \U{e2}\U{20ac}\U{201d} "

  /** The separator the waiver review page uses: an em dash. */
  const Separator: string := " \U{2014} "

  /** _format_event_row_label as written. */
  function RowLabelAsWritten(d: Doc): string {
    LabelWith(d, SeparatorAsWritten)
  }

  /** _format_event_row_label with the intended em dash. */
  function RowLabel(d: Doc): (r: string)
    ensures EventTitle(d).None? ==> r == DateText(d)
    ensures EventTitle(d).Some? ==> r == DateText(d) + " \U{2014} " + Show(EventTitle(d).value)
  {
    LabelWith(d, Separator)
  }

  /** The three UTF-8 bytes of a character in U+0800..U+FFFF. */
  function Utf8(c: char): (r: seq<int>)
    requires 0x800 <= c as int <= 0xFFFF
    ensures |r| == 3
  {
    var n := c as int;
    [0xE0 + n / 4096, 0x80 + (n / 64) % 64, 0x80 + n % 64]
  }

  /** Windows-1252 decoding of one byte (None for its five unassigned bytes). */
  function Cp1252(b: int): (r: Option<char>)
    requires 0 <= b < 256
  {
    if b < 0x80 || b >= 0xA0 then Some(b as char)
    else
      var table: seq<int> := [
        0x20AC, 0, 0x201A, 0x0192, 0x201E, 0x2026, 0x2020, 0x2021,
        0x02C6, 0x2030, 0x0160, 0x2039, 0x0152, 0, 0x017D, 0,
        0, 0x2018, 0x2019, 0x201C, 0x201D, 0x2022, 0x2013, 0x2014,
        0x02DC, 0x2122, 0x0161, 0x203A, 0x0153, 0, 0x017E, 0x0178];
      if table[b - 0x80] == 0 then None else Some(table[b - 0x80] as char)
  }

  /** The as-written separator is the em dash encoded as UTF-8 and decoded as
      Windows-1252, so every titled row label differs from the intended one. */
  lemma SeparatorIsMisdecodedEmDash(d: Doc)
    ensures var bytes := Utf8('\U{2014}');
            [Cp1252(bytes[0]).value, Cp1252(bytes[1]).value, Cp1252(bytes[2]).value] ==
            SeparatorAsWritten[1..4]
    ensures EventTitle(d).Some? ==> RowLabelAsWritten(d) != RowLabel(d)
  {
    var bytes := Utf8('\U{2014}');
    assert bytes == [0xE2, 0x80, 0x94];
    if EventTitle(d).Some? {
      var date := DateText(d);
      assert RowLabelAsWritten(d)[|date| + 1] == '\U{e2}';
      assert RowLabel(d)[|date| + 1] == '\U{2014}';
    }
  }

  /** One row of the matrix. */
  datatype Row = Row(eventId: Id, caption: string)

  /** The rows before sorting, each with its sort key, in the events' natural order. */
  function RowPairs(s: DbState): (r: seq<(Key, Row)>)
    ensures |r| == |Every(s, Events)|
    ensures forall i :: 0 <= i < |r| ==>
              var e := Every(s, Events)[i];
              r[i] == (EventKey(e.doc), Row(e.id, RowLabel(Project(e.doc, EventProjection))))
  {
    var t := Every(s, Events);
    seq(|t|, i requires 0 <= i < |t| =>
      (EventKey(Project(t[i].doc, EventProjection)), Row(t[i].id, RowLabel(Project(t[i].doc, EventProjection)))))
  }

  /** The rows sorted by start date, newest first. */
  function SortedRows(s: DbState): seq<Row> {
    Values(SortByKey(RowPairs(s), true))
  }

  /** The rows are newest first, are the events' rows rearranged, and rows
      with the same start date keep the events' order. */
  lemma RowsNewestFirst(s: DbState, k: Key)
    ensures var p := SortByKey(RowPairs(s), true);
            forall i, j :: 0 <= i < j < |p| ==> KeyLe(p[j].0, p[i].0)
    ensures multiset(SortedRows(s)) == multiset(Values(RowPairs(s)))
    ensures WithKey(SortByKey(RowPairs(s), true), k) == WithKey(RowPairs(s), k)
  {
    SortByKeySorted(RowPairs(s), true);
    SortByKeyStable(RowPairs(s), k, true);
    ValuesMultiset(SortByKey(RowPairs(s), true), RowPairs(s));
  }

  /** The ids of the rows, in order. */
  function RowIds(rows: seq<Row>): (r: seq<Id>)
    ensures |r| == |rows| && forall i :: 0 <= i < |rows| ==> r[i] == rows[i].eventId
  {
    seq(|rows|, i requires 0 <= i < |rows| => rows[i].eventId)
  }

  /** The ids of the columns, in order. */
  function ColumnIds(cols: seq<Column>): (r: seq<Id>)
    ensures |r| == |cols| && forall i :: 0 <= i < |cols| ==> r[i] == cols[i].cadetId
  {
    seq(|cols|, i requires 0 <= i < |cols| => cols[i].cadetId)
  }

  // ---------------------------------------------------------------------
  // Cells

  /** The attendance records of the listed events (`$in`), in natural order. */
  function RecordsFor(t: Table, eventIds: seq<Id>): (r: Table)
    ensures forall e :: e in r <==> e in t && RefOf(e.doc, "event_id").Some? && RefOf(e.doc, "event_id").value in eventIds
  {
    if t == [] then []
    else
      var ev := RefOf(t[0].doc, "event_id");
      if ev.Some? && ev.value in eventIds then [t[0]] + RecordsFor(t[1..], eventIds)
      else RecordsFor(t[1..], eventIds)
  }

  /** The key a record is filed under: its event_id and cadet_id, either possibly missing. */
  type Pair = (Option<Value>, Option<Value>)

  function PairOf(d: Doc): Pair {
    (Get(d, "event_id"), Get(d, "cadet_id"))
  }

  /** The status a record contributes. */
  function RecordStatus(d: Doc): (r: string)
    ensures r == "P" || r == "A" || r == "E"
    ensures r == "P" <==> "status" in d && d["status"].Str? && Lower(Strip(d["status"].s)) == "present"
    ensures r == "E" <==> "status" in d && d["status"].Str? && Lower(Strip(d["status"].s)) in ["excused", "waived"]
  {
    NormalizeStatus(TextOf(d, "status"))
  }

  /** The pair each record is filed under, in order. */
  function Filed(rs: Table): (r: seq<Option<Pair>>)
    ensures |r| == |rs| && forall i :: 0 <= i < |rs| ==> r[i] == Some(PairOf(rs[i].doc))
  {
    seq(|rs|, i requires 0 <= i < |rs| => Some(PairOf(rs[i].doc)))
  }

  /** The status each record contributes, in order. */
  function Statuses(rs: Table): (r: seq<string>)
    ensures |r| == |rs| && forall i :: 0 <= i < |rs| ==> r[i] == RecordStatus(rs[i].doc)
  {
    seq(|rs|, i requires 0 <= i < |rs| => RecordStatus(rs[i].doc))
  }

  /** status_by_pair after reading the records in order: each record
      overwrites what an earlier one filed under the same pair. */
  function StatusByPair(rs: Table): map<Pair, string> {
    LastWins(Filed(rs), Statuses(rs))
  }

  /** A pair is filed iff some record has it. */
  lemma StatusByPairDomain(rs: Table, k: Pair)
    ensures k in StatusByPair(rs) <==> exists i :: 0 <= i < |rs| && PairOf(rs[i].doc) == k
  {
    var keys := Filed(rs);
    LastWinsKeys(keys, Statuses(rs), k);
    if exists i :: 0 <= i < |rs| && PairOf(rs[i].doc) == k {
      var i :| 0 <= i < |rs| && PairOf(rs[i].doc) == k;
      assert keys[i] == Some(k);
    }
  }

  /** A filed pair holds the status of the last record that has it. */
  lemma StatusByPairLastWins(rs: Table, k: Pair, i: nat)
    requires i < |rs| && PairOf(rs[i].doc) == k
    requires forall j :: i < j < |rs| ==> PairOf(rs[j].doc) != k
    ensures k in StatusByPair(rs) && StatusByPair(rs)[k] == RecordStatus(rs[i].doc)
  {
    LastWinsValue(Filed(rs), Statuses(rs), k, i);
  }

  /** Every filed status is a code of the grid. */
  lemma StatusByPairCodes(rs: Table, k: Pair)
    requires k in StatusByPair(rs)
    ensures StatusByPair(rs)[k] in ["P", "A", "E"]
  {
    LastWinsFrom(Filed(rs), Statuses(rs), k);
  }

  /** The loop at the attendance lookup. */
  method BuildStatusByPair(records: Table) returns (m: map<Pair, string>)
    ensures m == StatusByPair(records)
  {
    ghost var keys := Filed(records);
    ghost var vals := Statuses(records);
    m := map[];
    for i := 0 to |records|
      invariant m == LastWins(keys[..i], vals[..i])
    {
      LastWinsStep(keys, vals, i);
      m := m[PairOf(records[i].doc) := RecordStatus(records[i].doc)];
    }
    assert keys[..|records|] == keys && vals[..|records|] == vals;
  }

  /** A cell: the status filed for (event, cadet), "A" when none is. */
  function Cell(m: map<Pair, string>, eventId: Id, cadetId: Id): string {
    var k: Pair := (Some(Ref(eventId)), Some(Ref(cadetId)));
    if k in m then m[k] else "A"
  }

  /** A pair with no record is absent, and a pair with records shows the
      last record's status. */
  lemma CellFromRecords(rs: Table, eventId: Id, cadetId: Id)
    ensures (forall i :: 0 <= i < |rs| ==> PairOf(rs[i].doc) != (Some(Ref(eventId)), Some(Ref(cadetId)))) ==>
              Cell(StatusByPair(rs), eventId, cadetId) == "A"
    ensures forall i :: 0 <= i < |rs| && PairOf(rs[i].doc) == (Some(Ref(eventId)), Some(Ref(cadetId))) &&
                        (forall j :: i < j < |rs| ==> PairOf(rs[j].doc) != (Some(Ref(eventId)), Some(Ref(cadetId)))) ==>
                        Cell(StatusByPair(rs), eventId, cadetId) == RecordStatus(rs[i].doc)
    ensures Cell(StatusByPair(rs), eventId, cadetId) in ["P", "A", "E"]
  {
    var k: Pair := (Some(Ref(eventId)), Some(Ref(cadetId)));
    StatusByPairDomain(rs, k);
    if k in StatusByPair(rs) {
      StatusByPairCodes(rs, k);
    }
    forall i | 0 <= i < |rs| && PairOf(rs[i].doc) == k && (forall j :: i < j < |rs| ==> PairOf(rs[j].doc) != k)
      ensures Cell(StatusByPair(rs), eventId, cadetId) == RecordStatus(rs[i].doc)
    {
      StatusByPairLastWins(rs, k, i);
    }
  }

  /** The nested loops that build the grid: one row per event, one cell per
      cadet. */
  method BuildGrid(eventIds: seq<Id>, cadetIds: seq<Id>, m: map<Pair, string>) returns (grid: seq<seq<string>>)
    ensures |grid| == |eventIds|
    ensures forall i :: 0 <= i < |grid| ==> |grid[i]| == |cadetIds|
    ensures forall i, j :: 0 <= i < |eventIds| && 0 <= j < |cadetIds| ==>
              grid[i][j] == Cell(m, eventIds[i], cadetIds[j])
  {
    grid := [];
    for i := 0 to |eventIds|
      invariant |grid| == i
      invariant forall a :: 0 <= a < i ==> |grid[a]| == |cadetIds|
      invariant forall a, b :: 0 <= a < i && 0 <= b < |cadetIds| ==> grid[a][b] == Cell(m, eventIds[a], cadetIds[b])
    {
      var row: seq<string> := [];
      for j := 0 to |cadetIds|
        invariant |row| == j
        invariant forall b :: 0 <= b < j ==> row[b] == Cell(m, eventIds[i], cadetIds[b])
      {
        row := row + [Cell(m, eventIds[i], cadetIds[j])];
      }
      grid := grid + [row];
    }
  }

  // ---------------------------------------------------------------------
  // The page

  /** What the page shows. */
  datatype View =
    | RedirectToLogin
    | Forbidden
    | NotConfigured
    | NoCadets
    | NoEvents
    | Unorderable
    | Matrix(rows: seq<Row>, columns: seq<Column>, grid: seq<seq<string>>)

  /** The page: the role gate, the stops for a missing database, no cadets
      and no events, then the matrix. Unorderable is the TypeError sorting
      raises when some start dates are datetimes and others are not. */
  method Render(session: Auth.Session, s: DbState) returns (v: View)
    ensures v.RedirectToLogin? <==> Auth.RequireRole(session, Auth.Reviewers).RedirectToLogin?
    ensures v.Forbidden? <==> Auth.RequireRole(session, Auth.Reviewers).Forbidden?
    ensures v.NotConfigured? <==> Auth.RequireRole(session, Auth.Reviewers).Admitted? && !s.connected
    ensures v.NoCadets? <==> Auth.RequireRole(session, Auth.Reviewers).Admitted? && s.connected && Tab(s, Cadets) == []
    ensures v.NoEvents? <==> Auth.RequireRole(session, Auth.Reviewers).Admitted? && s.connected &&
                             Tab(s, Cadets) != [] && Tab(s, Events) == []
    ensures v.Unorderable? <==> Auth.RequireRole(session, Auth.Reviewers).Admitted? && s.connected &&
                                Tab(s, Cadets) != [] && Tab(s, Events) != [] && !Homogeneous(RowPairs(s))
    ensures v.Matrix? ==>
              && v.rows == SortedRows(s)
              && v.columns == SortedColumns(s)
              && |v.rows| == |Tab(s, Events)| && |v.columns| == |Tab(s, Cadets)|
              && |v.grid| == |v.rows|
              && (forall i :: 0 <= i < |v.grid| ==> |v.grid[i]| == |v.columns|)
              && forall i, j :: 0 <= i < |v.rows| && 0 <= j < |v.columns| ==>
                   v.grid[i][j] == Cell(StatusByPair(RecordsFor(Tab(s, AttendanceRecords), RowIds(v.rows))),
                                        v.rows[i].eventId, v.columns[j].cadetId)
  {
    var gate := Auth.RequireRole(session, Auth.Reviewers);
    if gate.RedirectToLogin? {
      return RedirectToLogin;
    }
    if gate.Forbidden? {
      return Forbidden;
    }
    if !s.connected {
      return NotConfigured;
    }
    if Every(s, Cadets) == [] {
      return NoCadets;
    }
    var columns := SortedColumns(s);
    if Every(s, Events) == [] {
      return NoEvents;
    }
    var pairs := RowPairs(s);
    if !Homogeneous(pairs) {
      return Unorderable;
    }
    var rows := SortedRows(s);
    var records := RecordsFor(Every(s, AttendanceRecords), RowIds(rows));
    var m := BuildStatusByPair(records);
    var grid := BuildGrid(RowIds(rows), ColumnIds(columns), m);
    v := Matrix(rows, columns, grid);
  }
}
