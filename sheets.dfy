/** The sheet adapter: the worksheet is a header row and data rows of text cells. Looking a
    place up by name reads a snapshot of the sheet (a table) and either projects the first
    matching row onto the card columns or makes a fresh card with a minted ID. Writing a card
    back finds its row by ID and merges the card over the row's cells, or appends a new row. */
module Sheets {
  import opened Wrappers
  import opened Strings
  import opened Dict

  /** The columns of a card, in the order the card's dict has them. */
  const CARD_COLUMNS: seq<string> :=
    ["name", "type", "photos", "google_map", "phone_numbers", "Whatsapp", "hours_of_operation", "ID"]

  /** New IDs count on from the number of data rows plus this offset. */
  const ID_OFFSET: nat := 310

  lemma CardColumnsDistinct()
    ensures NoDuplicates(CARD_COLUMNS)
  {
  }

  /** The cell in column j of a row; a row is short of its trailing empty cells. */
  function Cell(row: seq<string>, j: nat): string {
    if j < |row| then row[j] else ""
  }

  /** The position of the first column with header h. */
  function ColumnIndex(headers: seq<string>, h: string): (j: nat)
    requires h in headers
    ensures j < |headers| && headers[j] == h
    ensures forall i :: 0 <= i < j ==> headers[i] != h
  {
    if headers[0] == h then 0 else 1 + ColumnIndex(headers[1..], h)
  }

  /** The index of the first row satisfying p. */
  function FirstWhere(rows: seq<seq<string>>, p: seq<string> -> bool): (r: Option<nat>)
    ensures r.Some? ==> r.value < |rows| && p(rows[r.value])
    ensures r.Some? ==> forall k :: 0 <= k < r.value ==> !p(rows[k])
    ensures r.None? ==> forall k :: 0 <= k < |rows| ==> !p(rows[k])
  {
    if rows == [] then None
    else if p(rows[0]) then Some(0)
    else match FirstWhere(rows[1..], p)
      case None => None
      case Some(i) => Some(i + 1)
  }

  /** "№" followed by the decimal number of data rows plus the offset. */
  function MintedId(rowCount: nat): string {
    "№" + NatToString(rowCount + ID_OFFSET)
  }

  /** Tables of different sizes mint different IDs. */
  lemma MintedIdInjective(a: nat, b: nat)
    ensures MintedId(a) == MintedId(b) ==> a == b
  {
    if MintedId(a) == MintedId(b) {
      assert MintedId(a)[1..] == NatToString(a + ID_OFFSET);
      assert MintedId(b)[1..] == NatToString(b + ID_OFFSET);
      NatToStringInjective(a + ID_OFFSET, b + ID_OFFSET);
    }
  }

  /** The sheet as a data frame: the header row and the data rows, every cell a string. */
  datatype Table = Table(headers: seq<string>, rows: seq<seq<string>>)

  /** The projection onto the card columns raises KeyError when one is missing. */
  datatype SearchError = MissingColumn

  /** Every card column except ID, which a created card brings along. */
  predicate HasCardColumns(headers: seq<string>) {
    forall i :: 0 <= i < 7 ==> CARD_COLUMNS[i] in headers
  }

  /** The rows whose name cell is n. */
  predicate NameIs(t: Table, n: string, row: seq<string>) {
    RecordGet(t.headers, row, "name") == Some(n)
  }

  /** A found row projected onto the card columns. */
  function ProjectRow(t: Table, row: seq<string>): (card: Fields)
    requires HasCardColumns(t.headers) && "ID" in t.headers
    ensures Keys(card) == CARD_COLUMNS
  {
    seq(|CARD_COLUMNS|, i requires 0 <= i < |CARD_COLUMNS| =>
      (CARD_COLUMNS[i], Some(Cell(row, ColumnIndex(t.headers, CARD_COLUMNS[i])))))
  }

  /** The card of a name the table does not have: every field None except the name and the new ID. */
  function NewCard(t: Table, n: string): (card: Fields)
    ensures Keys(card) == CARD_COLUMNS
  {
    seq(|CARD_COLUMNS|, i requires 0 <= i < |CARD_COLUMNS| =>
      (CARD_COLUMNS[i], if i == 0 then Some(n) else if i == 7 then Some(MintedId(|t.rows|)) else None))
  }

  /** search_name_in_df: the card of the first row named n, or a new card; the flag says
      whether the card was created. */
  function SearchName(t: Table, n: string): (r: Result<(Fields, bool), SearchError>)
    ensures r.Ok? ==> Keys(r.value.0) == CARD_COLUMNS && DistinctKeys(r.value.0)
  {
    CardColumnsDistinct();
    if "name" !in t.headers then Err(MissingColumn)
    else
      var m := FirstWhere(t.rows, row => NameIs(t, n, row));
      if m.Some? then
        if HasCardColumns(t.headers) && "ID" in t.headers
        then Ok((ProjectRow(t, t.rows[m.value]), false))
        else Err(MissingColumn)
      else if HasCardColumns(t.headers) then Ok((NewCard(t, n), true))
      else Err(MissingColumn)
  }

  /** A table with a row named n yields its first such row, every card column holding that
      row's cell, and the flag false. */
  lemma SearchFindsFirst(t: Table, n: string, i: nat)
    requires HasCardColumns(t.headers) && "ID" in t.headers
    requires i < |t.rows| && NameIs(t, n, t.rows[i])
    requires forall k :: 0 <= k < i ==> !NameIs(t, n, t.rows[k])
    ensures SearchName(t, n).Ok? && !SearchName(t, n).value.1
    ensures forall c :: c in CARD_COLUMNS ==>
      Get(SearchName(t, n).value.0, c) == Some(Some(Cell(t.rows[i], ColumnIndex(t.headers, c))))
  {
    var m := FirstWhere(t.rows, row => NameIs(t, n, row));
    assert m == Some(i);
    var card := SearchName(t, n).value.0;
    assert card == ProjectRow(t, t.rows[i]);
    forall c | c in CARD_COLUMNS
      ensures Get(card, c) == Some(Some(Cell(t.rows[i], ColumnIndex(t.headers, c))))
    {
      var j :| 0 <= j < |CARD_COLUMNS| && CARD_COLUMNS[j] == c;
      GetAt(card, j);
    }
  }

  /** A table without a row named n yields a created card holding n and the minted ID, every
      other field None. */
  lemma SearchCreates(t: Table, n: string)
    requires HasCardColumns(t.headers)
    requires forall k :: 0 <= k < |t.rows| ==> !NameIs(t, n, t.rows[k])
    ensures SearchName(t, n).Ok? && SearchName(t, n).value.1
    ensures var card := SearchName(t, n).value.0;
      Get(card, "name") == Some(Some(n)) && Get(card, "ID") == Some(Some(MintedId(|t.rows|))) &&
      forall c :: c in CARD_COLUMNS && c != "name" && c != "ID" ==> Get(card, c) == Some(None)
  {
    var card := SearchName(t, n).value.0;
    assert card == NewCard(t, n);
    GetAt(card, 0);
    GetAt(card, 7);
    forall c | c in CARD_COLUMNS && c != "name" && c != "ID"
      ensures Get(card, c) == Some(None)
    {
      var j :| 0 <= j < |CARD_COLUMNS| && CARD_COLUMNS[j] == c;
      GetAt(card, j);
    }
  }

  /** The lookup fails exactly when a card column other than ID is missing, or when a row
      matches and the ID column is missing. */
  lemma SearchFails(t: Table, n: string)
    ensures SearchName(t, n).Err? <==>
      !HasCardColumns(t.headers) ||
      ("ID" !in t.headers && exists k :: 0 <= k < |t.rows| && NameIs(t, n, t.rows[k]))
  {
    if HasCardColumns(t.headers) {
      assert CARD_COLUMNS[0] == "name";
      var m := FirstWhere(t.rows, row => NameIs(t, n, row));
      if m.Some? {
        assert NameIs(t, n, t.rows[m.value]);
      }
    }
  }

  /** No trailing empty cell: the form in which the sheet reports a row. */
  predicate Trimmed(row: seq<string>) {
    row == [] || row[|row| - 1] != ""
  }

  /** A row as the sheet reports it: without its trailing empty cells. */
  function Trim(row: seq<string>): (t: seq<string>)
    ensures Trimmed(t) && |t| <= |row| && t == row[..|t|]
    ensures forall j: nat :: Cell(t, j) == Cell(row, j)
  {
    if row == [] || row[|row| - 1] != "" then row else Trim(row[..|row| - 1])
  }

  /** The data rows as the sheet reports them: without trailing empty rows. */
  function DropEmptyTail(rows: seq<seq<string>>): (r: seq<seq<string>>)
    ensures |r| <= |rows| && r == rows[..|r|]
    ensures r == [] || r[|r| - 1] != []
    ensures forall k :: |r| <= k < |rows| ==> rows[k] == []
  {
    if rows == [] || rows[|rows| - 1] != [] then rows else DropEmptyTail(rows[..|rows| - 1])
  }

  /** Every data row is trimmed and no wider than the header row, and the last one is not empty. */
  predicate RowsFit(width: nat, rows: seq<seq<string>>) {
    (forall i :: 0 <= i < |rows| ==> Trimmed(rows[i]) && |rows[i]| <= width) &&
    (rows == [] || rows[|rows| - 1] != [])
  }

  /** row.get(h) of a record: the padded cell, or None when there is no such column. */
  function RecordGet(headers: seq<string>, row: seq<string>, h: string): Option<string> {
    if h in headers then Some(Cell(row, ColumnIndex(headers, h))) else None
  }

  /** str(row.get("ID")). */
  function RecordId(headers: seq<string>, row: seq<string>): string {
    Str(RecordGet(headers, row, "ID"))
  }

  /** str(organization.get("ID")). */
  function OrgId(org: Fields): string {
    Str(Lookup(org, "ID"))
  }

  /** The data row the write targets: the first whose ID reads as the card's ID. */
  function TargetRow(headers: seq<string>, rows: seq<seq<string>>, id: string): Option<nat> {
    FirstWhere(rows, row => RecordId(headers, row) == id)
  }

  /** The values the update sends: the card's value for each header it has (None included),
      otherwise the current cell. */
  function UpdateValues(headers: seq<string>, org: Fields, current: seq<string>): (vs: seq<Option<string>>)
    ensures |vs| == |headers|
  {
    seq(|headers|, j requires 0 <= j < |headers| =>
      if Has(org, headers[j]) then Get(org, headers[j]).value else Some(Cell(current, j)))
  }

  /** The values the insert sends: organization.get(header, ""). */
  function InsertValues(headers: seq<string>, org: Fields): (vs: seq<Option<string>>)
    ensures |vs| == |headers|
  {
    seq(|headers|, j requires 0 <= j < |headers| =>
      if Has(org, headers[j]) then Get(org, headers[j]).value else Some(""))
  }

  /** How the sheet applies a row of values from column A: a None value is skipped and leaves
      the cell as it was. */
  function Apply(current: seq<string>, vs: seq<Option<string>>): (row: seq<string>)
    ensures |row| == |vs|
  {
    seq(|vs|, j requires 0 <= j < |vs| => if vs[j].Some? then vs[j].value else Cell(current, j))
  }

  /** After the update every column shows the card's value where the card has a string for its
      header, and its old cell otherwise. */
  lemma UpdateCells(headers: seq<string>, org: Fields, current: seq<string>, j: nat)
    requires |current| <= |headers|
    ensures var row := Trim(Apply(current, UpdateValues(headers, org, current)));
      Cell(row, j) == if j < |headers| && Lookup(org, headers[j]).Some?
        then Lookup(org, headers[j]).value else Cell(current, j)
  {
    var row := Trim(Apply(current, UpdateValues(headers, org, current)));
    assert Cell(row, j) == Cell(Apply(current, UpdateValues(headers, org, current)), j);
  }

  /** The snapshot an update returns: header to old cell, as far as the old row reaches. */
  function Prior(headers: seq<string>, current: seq<string>): (p: Fields)
    ensures |p| == if |headers| < |current| then |headers| else |current|
  {
    Zip(headers, seq(|current|, j requires 0 <= j < |current| => Some(current[j])))
  }

  /** Writing back the snapshot an update returned leaves the row as it was. */
  lemma WriteBackPrior(headers: seq<string>, current: seq<string>)
    requires NoDuplicates(headers) && Trimmed(current) && |current| <= |headers|
    ensures Trim(Apply(current, UpdateValues(headers, Prior(headers, current), current))) == current
  {
    var p := Prior(headers, current);
    var vs := UpdateValues(headers, p, current);
    var full := Apply(current, vs);
    ZipDistinct(headers, seq(|current|, j requires 0 <= j < |current| => Some(current[j])));
    forall j | 0 <= j < |headers|
      ensures full[j] == Cell(current, j)
    {
      if j < |current| {
        GetAt(p, j);
      }
    }
    var t := Trim(full);
    assert |t| <= |full|;
    if |current| > 0 {
      assert Cell(t, |current| - 1) == current[|current| - 1];
    }
    forall j | 0 <= j < |current|
      ensures j < |t| && t[j] == current[j]
    {
      assert Cell(t, j) == Cell(full, j);
    }
    if |t| > |current| {
      assert Cell(t, |t| - 1) == Cell(full, |t| - 1);
    }
  }

  /** A1 notation for a whole row: "A{row}:{chr(64 + width)}{row}". */
  function RangeFor(row: nat, width: nat): string
    requires 1 <= width <= 26
  {
    "A" + NatToString(row) + ":" + [(64 + width) as char] + NatToString(row)
  }

  /** The position of the first c in s. */
  function FirstIndex(s: string, c: char): (r: Option<nat>)
    ensures r.Some? ==> r.value < |s| && s[r.value] == c && forall k :: 0 <= k < r.value ==> s[k] != c
    ensures r.None? ==> c !in s
  {
    if s == [] then None
    else if s[0] == c then Some(0)
    else match FirstIndex(s[1..], c)
      case None => None
      case Some(i) => Some(i + 1)
  }

  predicate AllDigits(s: string) {
    |s| > 0 && forall i :: 0 <= i < |s| ==> IsDigit(s[i])
  }

  /** How the sheet reads a one-row range "A{r}:{L}{r'}": the first row, the number of columns
      A..L, and the last row. */
  function ParseRowRange(s: string): Option<(nat, nat, nat)> {
    if |s| < 2 || s[0] != 'A' then None
    else match FirstIndex(s, ':')
      case None => None
      case Some(k) =>
        if k + 2 < |s| && AllDigits(s[1..k]) && 'A' <= s[k + 1] <= 'Z' && AllDigits(s[k + 2..])
        then Some((ParseNat(s[1..k]), s[k + 1] as int - 64, ParseNat(s[k + 2..])))
        else None
  }

  /** The range of a write reads back as that one row, across exactly as many columns as there
      are headers. */
  lemma {:induction false} RangeForParses(row: nat, width: nat)
    requires 1 <= width <= 26
    ensures ParseRowRange(RangeFor(row, width)) == Some((row, width, row))
  {
    var d := NatToString(row);
    var s := RangeFor(row, width);
    var k := 1 + |d|;
    assert s == "A" + d + ":" + [(64 + width) as char] + d;
    assert s[1..k] == d && s[k] == ':' && s[k + 1] == (64 + width) as char && s[k + 2..] == d;
    forall i | 0 <= i < k
      ensures s[i] != ':'
    {
      if i > 0 {
        assert s[i] == d[i - 1];
      }
    }
    assert FirstIndex(s, ':') == Some(k);
    ParseNatToString(row);
  }

  /** The sheet row a write goes to: the matching data row (data rows start at sheet row 2),
      or the row after the last one. */
  function WriteRow(headers: seq<string>, rows: seq<seq<string>>, org: Fields): nat {
    match TargetRow(headers, rows, OrgId(org))
    case Some(i) => i + 2
    case None => |rows| + 2
  }

  /** The A1 range a write sends, or None when chr(64 + width) is no column letter. */
  function WriteRange(headers: seq<string>, rows: seq<seq<string>>, org: Fields): Option<string> {
    if 1 <= |headers| <= 26 then Some(RangeFor(WriteRow(headers, rows, org), |headers|)) else None
  }

  /** The range of a write covers exactly the target row, across every header: the matching
      data row, or the first row after the data. */
  lemma WriteRangeCoversRow(headers: seq<string>, rows: seq<seq<string>>, org: Fields)
    ensures WriteRange(headers, rows, org).Some? <==> 1 <= |headers| <= 26
    ensures WriteRange(headers, rows, org).Some? ==>
      var row := if TargetRow(headers, rows, OrgId(org)).Some?
        then TargetRow(headers, rows, OrgId(org)).value + 2 else |rows| + 2;
      ParseRowRange(WriteRange(headers, rows, org).value) == Some((row, |headers|, row))
  {
    if 1 <= |headers| <= 26 {
      RangeForParses(WriteRow(headers, rows, org), |headers|);
    }
  }

  /** What the sheet returns for a write. */
  datatype WriteResult = Updated(prior: Fields) | Inserted(written: Fields) | Failed

  /** A write of `org` on a sheet with these headers and data rows: what it returns and the data
      rows afterwards. A missing service, or a range whose last column is not a letter (no
      headers, or more than 26), fails and writes nothing. */
  function WriteOutcome(headers: seq<string>, rows: seq<seq<string>>, org: Fields, serviceUp: bool)
    : (o: (WriteResult, seq<seq<string>>))
    ensures o.0.Failed? <==> !serviceUp || WriteRange(headers, rows, org).None?
    ensures o.0.Failed? <==> !serviceUp || !(1 <= |headers| <= 26)
    ensures o.0.Failed? ==> o.1 == rows
    ensures RowsFit(|headers|, rows) ==> RowsFit(|headers|, o.1)
  {
    if !serviceUp || WriteRange(headers, rows, org).None? then (Failed, rows)
    else match TargetRow(headers, rows, OrgId(org))
      case Some(i) =>
        (Updated(Prior(headers, rows[i])),
         DropEmptyTail(rows[i := Trim(Apply(rows[i], UpdateValues(headers, org, rows[i])))]))
      case None =>
        var vs := InsertValues(headers, org);
        (Inserted(Zip(headers, vs)), DropEmptyTail(rows + [Trim(Apply([], vs))]))
  }

  /** The first row satisfying p is the one FirstWhere finds. */
  lemma FirstWhereIs(rows: seq<seq<string>>, p: seq<string> -> bool, i: nat)
    requires i < |rows| && p(rows[i])
    requires forall k :: 0 <= k < i ==> !p(rows[k])
    ensures FirstWhere(rows, p) == Some(i)
  {
  }

  /** The row an update with a non-empty card ID leaves behind still carries that ID, and no
      row before it does. */
  lemma UpdatedRowFound(headers: seq<string>, rows: seq<seq<string>>, org: Fields, id: string, i: nat)
    requires RowsFit(|headers|, rows) && "ID" in headers
    requires Lookup(org, "ID") == Some(id) && id != ""
    requires i < |rows| && forall k :: 0 <= k < i ==> RecordId(headers, rows[k]) != id
    ensures var after := DropEmptyTail(rows[i := Trim(Apply(rows[i], UpdateValues(headers, org, rows[i])))]);
      TargetRow(headers, after, id) == Some(i)
  {
    var j := ColumnIndex(headers, "ID");
    var row := Trim(Apply(rows[i], UpdateValues(headers, org, rows[i])));
    UpdateCells(headers, org, rows[i], j);
    var upd := rows[i := row];
    var after := DropEmptyTail(upd);
    assert upd[i] != [];
    assert after[i] == row && RecordId(headers, row) == id;
    forall k | 0 <= k < i
      ensures RecordId(headers, after[k]) != id
    {
      assert after[k] == rows[k];
    }
    FirstWhereIs(after, row => RecordId(headers, row) == id, i);
  }

  /** The row an insert with a non-empty card ID appends carries that ID and follows every
      row that did not. */
  lemma InsertedRowFound(headers: seq<string>, rows: seq<seq<string>>, org: Fields, id: string)
    requires RowsFit(|headers|, rows) && "ID" in headers
    requires Lookup(org, "ID") == Some(id) && id != ""
    requires forall k :: 0 <= k < |rows| ==> RecordId(headers, rows[k]) != id
    ensures var after := DropEmptyTail(rows + [Trim(Apply([], InsertValues(headers, org)))]);
      TargetRow(headers, after, id) == Some(|rows|)
  {
    var j := ColumnIndex(headers, "ID");
    var vs := InsertValues(headers, org);
    var row := Trim(Apply([], vs));
    assert Cell(row, j) == Cell(Apply([], vs), j) == id;
    var ext := rows + [row];
    var after := DropEmptyTail(ext);
    assert ext[|rows|] != [];
    assert after[|rows|] == row && RecordId(headers, row) == id;
    forall k | 0 <= k < |rows|
      ensures RecordId(headers, after[k]) != id
    {
      assert after[k] == rows[k];
    }
    FirstWhereIs(after, row => RecordId(headers, row) == id, |rows|);
  }

  /** A write with a non-empty ID leaves a row that a second write of the same card finds: the
      updated row, or the appended one. Saving a created card twice updates it the second time. */
  lemma WrittenRowFound(headers: seq<string>, rows: seq<seq<string>>, org: Fields, id: string)
    requires RowsFit(|headers|, rows)
    requires 1 <= |headers| <= 26 && "ID" in headers
    requires Lookup(org, "ID") == Some(id) && id != ""
    ensures var o := WriteOutcome(headers, rows, org, true);
      TargetRow(headers, o.1, id) ==
        Some(if o.0.Updated? then TargetRow(headers, rows, id).value else |rows|)
  {
    assert OrgId(org) == id;
    match TargetRow(headers, rows, id)
    case Some(i) =>
      UpdatedRowFound(headers, rows, org, id, i);
    case None =>
      InsertedRowFound(headers, rows, org, id);
  }

  /** The worksheet: its header row and its data rows (sheet rows 2, 3, ...), each row as the
      sheet reports it. */
  class Sheet {
    var headers: seq<string>
    var rows: seq<seq<string>>

    ghost predicate Valid()
      reads this
    {
      Trimmed(headers) && NoDuplicates(headers) && RowsFit(|headers|, rows)
    }

    /** A worksheet with the given header row and no data yet. */
    constructor (hs: seq<string>)
      requires Trimmed(hs) && NoDuplicates(hs)
      ensures Valid() && headers == hs && rows == []
    {
      headers := hs;
      rows := [];
    }

    /** The worksheet read as a data frame. */
    function AsTable(): Table
      reads this
    {
      Table(headers, rows)
    }

    /** write_on_google_sheets. `serviceUp` is false when the sheet cannot be reached. */
    method Write(org: Fields, serviceUp: bool) returns (r: WriteResult)
      requires Valid()
      modifies this
      ensures Valid() && headers == old(headers)
      ensures (r, rows) == WriteOutcome(headers, old(rows), org, serviceUp)
    {
      var id := OrgId(org);
      var i := 0;
      while i < |rows| && RecordId(headers, rows[i]) != id
        invariant 0 <= i <= |rows|
        invariant forall k :: 0 <= k < i ==> RecordId(headers, rows[k]) != id
      {
        i := i + 1;
      }
      assert TargetRow(headers, rows, id) == if i < |rows| then Some(i) else None;
      assert WriteRow(headers, rows, org) == i + 2;
      var range := if 1 <= |headers| <= 26 then Some(RangeFor(i + 2, |headers|)) else None;
      assert range == WriteRange(headers, rows, org);
      ghost var outcome := WriteOutcome(headers, rows, org, serviceUp);
      if !serviceUp || range.None? {
        return Failed;
      }
      if i < |rows| {
        var current := rows[i];
        var row := Trim(Apply(current, UpdateValues(headers, org, current)));
        rows := DropEmptyTail(rows[i := row]);
        r := Updated(Prior(headers, current));
      } else {
        var vs := InsertValues(headers, org);
        rows := DropEmptyTail(rows + [Trim(Apply([], vs))]);
        r := Inserted(Zip(headers, vs));
      }
      assert (r, rows) == outcome;
    }
  }
}
