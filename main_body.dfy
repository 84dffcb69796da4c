/** The output assembly of checkit/main_body.py: which input lines are
    barcodes, the check that a file holds barcodes at all, putting the
    records found back into input order, and the rows written to the
    output spreadsheet. Reading and writing files is left to the caller:
    the input arrives as its lines (or its CSV rows) and the output is the
    list of rows handed to the CSV writer. */
module MainBody {
  import opened Errors
  import opened PyStr
  import opened ItemRecords
  import TindClient
  import TindQuery

  type Holding = TindClient.Holding

  // ---------------------------------------------------------------------------
  // Reading the input

  const NoBarcodePrefix: string := "nobarcode"

  /** `is_barcode(text)`: non-empty, and all digits or starting with
      "nobarcode". */
  predicate IsBarcode(text: string)
  {
    text != "" && (IsDigits(text) || StartsWith(text, NoBarcodePrefix))
  }

  /** The emptiness test in `is_barcode` is implied by the other two: a
      barcode is exactly an all-digit string or a "nobarcode..." string. */
  lemma BarcodeForms(text: string)
    ensures IsBarcode(text) <==> IsDigits(text) || StartsWith(text, NoBarcodePrefix)
  {
  }

  /** `line.strip().strip(',')`: surrounding whitespace goes first, then
      surrounding commas. */
  function CleanLine(line: string): (r: string)
    ensures |r| <= |line|
    ensures r == "" || (r[0] != ',' && r[|r| - 1] != ',')
  {
    StripChars(Strip(line), {','})
  }

  /** `f.readline()` for the `i`-th line; past the end of the file it gives "". */
  function ReadLine(lines: seq<string>, i: nat): string
  {
    if i < |lines| then lines[i] else ""
  }

  /** `file_contains_barcodes`: the first cleaned line, or the second one
      when the first is neither all digits nor "nobarcode..." (a header),
      must be a barcode. */
  predicate FileContainsBarcodes(lines: seq<string>)
  {
    var line := CleanLine(ReadLine(lines, 0));
    if !IsDigits(line) && !StartsWith(line, NoBarcodePrefix) then
      IsBarcode(CleanLine(ReadLine(lines, 1)))
    else
      IsBarcode(line)
  }

  /** The file passes exactly when one of its first two cleaned lines is a
      barcode: a header line is skipped, and a barcode on the first line
      decides at once. */
  lemma {:induction false} FileContainsBarcodesIff(lines: seq<string>)
    ensures FileContainsBarcodes(lines)
            <==> IsBarcode(CleanLine(ReadLine(lines, 0))) || IsBarcode(CleanLine(ReadLine(lines, 1)))
  {
    BarcodeForms(CleanLine(ReadLine(lines, 0)));
  }

  /** An empty file does not contain barcodes. */
  lemma EmptyFileHasNoBarcodes()
    ensures !FileContainsBarcodes([])
  {
    assert ReadLine([], 0) == "" && ReadLine([], 1) == "";
    assert CleanLine("") == "";
  }

  /** The barcode list of `_do_main_work` as the code builds it:
      `[row[0] for row in csv.reader(f) if is_barcode(row[0])]`. A blank line
      is an empty CSV row, and `row[0]` on it raises IndexError. */
  function ReadBarcodesAsWritten(rows: seq<seq<string>>): (r: Result<seq<string>>)
    ensures r.Err? <==> exists i :: 0 <= i < |rows| && rows[i] == []
    ensures r.Err? ==> r.error == IndexError
  {
    if rows == [] then Ok([])
    else if rows[0] == [] then Err(IndexError)
    else
      var rest := ReadBarcodesAsWritten(rows[1..]);
      assert forall i :: 0 < i < |rows| ==> rows[i] == rows[1..][i - 1];
      if rest.Err? then rest
      else if IsBarcode(rows[0][0]) then Ok([rows[0][0]] + rest.value)
      else rest
  }

  /** A file whose last line is blank makes the read fail. */
  lemma BlankRowBreaksRead()
    ensures ReadBarcodesAsWritten([["12345"], []]) == Err(IndexError)
  {
    assert [["12345"], []][1] == [];
  }

  /** The barcode list with blank rows skipped: the first cell of every
      non-empty row that is a barcode, in file order. */
  function ReadBarcodes(rows: seq<seq<string>>): (r: seq<string>)
    ensures |r| <= |rows|
    ensures forall k :: 0 <= k < |r| ==> IsBarcode(r[k])
  {
    if rows == [] then []
    else if rows[0] != [] && IsBarcode(rows[0][0]) then [rows[0][0]] + ReadBarcodes(rows[1..])
    else ReadBarcodes(rows[1..])
  }

  /** On a file without blank rows the code as written and the corrected
      read agree. */
  lemma {:induction false} ReadBarcodesAgree(rows: seq<seq<string>>)
    requires forall i :: 0 <= i < |rows| ==> rows[i] != []
    ensures ReadBarcodesAsWritten(rows) == Ok(ReadBarcodes(rows))
  {
    if rows != [] {
      ReadBarcodesAgree(rows[1..]);
    }
  }

  /** A string is read as a barcode exactly when it is a barcode and begins
      some row. */
  lemma {:induction false} ReadBarcodesMembership(rows: seq<seq<string>>, b: string)
    ensures b in ReadBarcodes(rows) <==> IsBarcode(b) && exists i :: 0 <= i < |rows| && rows[i] != [] && rows[i][0] == b
  {
    if rows != [] {
      ReadBarcodesMembership(rows[1..], b);
      if exists i :: 0 <= i < |rows| && rows[i] != [] && rows[i][0] == b {
        var i :| 0 <= i < |rows| && rows[i] != [] && rows[i][0] == b;
        if i > 0 {
          assert rows[1..][i - 1] == rows[i];
        }
      }
      if exists i :: 0 <= i < |rows[1..]| && rows[1..][i] != [] && rows[1..][i][0] == b {
        var i :| 0 <= i < |rows[1..]| && rows[1..][i] != [] && rows[1..][i][0] == b;
        assert rows[i + 1] == rows[1..][i];
      }
    }
  }

  // ---------------------------------------------------------------------------
  // Putting the records back into input order

  /** `next((r for r in records if r.item_barcode == barcode), None)`. */
  function FirstWithBarcode(records: seq<ItemRecord>, barcode: string): (r: Option<ItemRecord>)
    ensures r.None? <==> forall j :: 0 <= j < |records| ==> records[j].itemBarcode != barcode
    ensures r.Some? ==> exists k :: 0 <= k < |records| && records[k] == r.value
                                    && r.value.itemBarcode == barcode
                                    && forall j :: 0 <= j < k ==> records[j].itemBarcode != barcode
  {
    if records == [] then None
    else if records[0].itemBarcode == barcode then Some(records[0])
    else
      var r := FirstWithBarcode(records[1..], barcode);
      assert forall j :: 0 < j < |records| ==> records[j] == records[1..][j - 1];
      if r.None? then r
      else
        var k :| 0 <= k < |records[1..]| && records[1..][k] == r.value && r.value.itemBarcode == barcode
                 && forall j :: 0 <= j < k ==> records[1..][j].itemBarcode != barcode;
        assert records[k + 1] == r.value;
        r
  }

  /** The `records_sorted` loop: one entry per input barcode, the first
      record found for it or None. */
  method ReorderRecords(barcodes: seq<string>, records: seq<ItemRecord>)
    returns (sorted: seq<Option<ItemRecord>>)
    ensures |sorted| == |barcodes|
    ensures forall i :: 0 <= i < |barcodes| ==> sorted[i] == FirstWithBarcode(records, barcodes[i])
  {
    sorted := [];
    for i := 0 to |barcodes|
      invariant |sorted| == i
      invariant forall j :: 0 <= j < i ==> sorted[j] == FirstWithBarcode(records, barcodes[j])
    {
      var rec := FirstWithBarcode(records, barcodes[i]);
      sorted := sorted + [rec];
    }
  }

  /** An entry of the reordered list that is a record carries the barcode
      it stands for. */
  lemma ReorderedBarcode(records: seq<ItemRecord>, barcode: string)
    ensures var r := FirstWithBarcode(records, barcode);
            r.Some? ==> r.value.itemBarcode == barcode && r.value in records
  {
  }

  // ---------------------------------------------------------------------------
  // Output rows

  /** A spreadsheet cell: text, or the number of copies. */
  datatype Cell = Text(text: string) | Count(n: nat)

  type SheetRow = seq<Cell>

  /** The columns of OUTPUT_COLUMNS, in order. */
  datatype Column =
    | BarcodeColumn | StatusColumn | CallNumberColumn | CopyNumberColumn | LocationCodeColumn
    | LocationNameColumn | TindIdColumn | ItemTypeColumn | HoldingsTotalColumn

  const Columns: seq<Column> := [
    BarcodeColumn, StatusColumn, CallNumberColumn, CopyNumberColumn, LocationCodeColumn,
    LocationNameColumn, TindIdColumn, ItemTypeColumn, HoldingsTotalColumn]

  function ColumnTitle(c: Column): string
  {
    match c
    case BarcodeColumn => "Barcode"
    case StatusColumn => "Status"
    case CallNumberColumn => "Call number"
    case CopyNumberColumn => "Copy number"
    case LocationCodeColumn => "Location code"
    case LocationNameColumn => "Location name"
    case TindIdColumn => "TIND id"
    case ItemTypeColumn => "Item type"
    case HoldingsTotalColumn => "Holdings total"
  }

  /** The value function of a column, on a record that has its `item_status`. */
  function ColumnValue(c: Column, rec: ItemRecord, copies: seq<Holding>): Cell
    requires rec.itemStatus.Some?
  {
    match c
    case BarcodeColumn => Text(rec.itemBarcode)
    case StatusColumn => Text(rec.itemStatus.value)
    case CallNumberColumn => Text(rec.itemCallNumber)
    case CopyNumberColumn => Text(rec.itemCopyNumber)
    case LocationCodeColumn => Text(rec.itemLocationCode)
    case LocationNameColumn => Text(rec.itemLocationName)
    case TindIdColumn => Text(rec.itemTindId)
    case ItemTypeColumn => Text(rec.itemType)
    case HoldingsTotalColumn => Count(|copies|)
  }

  /** The header row: the column titles, in column order. */
  function Header(): (h: SheetRow)
    ensures |h| == |Columns| == 9
    ensures forall i :: 0 <= i < |Columns| ==> h[i] == Text(ColumnTitle(Columns[i]))
    ensures h[0] == Text("Barcode") && h[1] == Text("Status") && h[8] == Text("Holdings total")
  {
    seq(|Columns|, i requires 0 <= i < |Columns| => Text(ColumnTitle(Columns[i])))
  }

  /** `row_for_record`: every column's value, in column order. */
  function RowForRecord(rec: ItemRecord, copies: seq<Holding>): (row: SheetRow)
    requires rec.itemStatus.Some?
    ensures |row| == |Columns|
    ensures forall i :: 0 <= i < |Columns| ==> row[i] == ColumnValue(Columns[i], rec, copies)
  {
    seq(|Columns|, i requires 0 <= i < |Columns| => ColumnValue(Columns[i], rec, copies))
  }

  /** Under each title of the header, a record row holds the field that
      title names; the last column counts the copies. */
  lemma RowForRecordCells(rec: ItemRecord, copies: seq<Holding>)
    requires rec.itemStatus.Some?
    ensures var row := RowForRecord(rec, copies);
            && |row| == |Header()|
            && row[0] == Text(rec.itemBarcode) && row[1] == Text(rec.itemStatus.value)
            && row[2] == Text(rec.itemCallNumber) && row[3] == Text(rec.itemCopyNumber)
            && row[4] == Text(rec.itemLocationCode) && row[5] == Text(rec.itemLocationName)
            && row[6] == Text(rec.itemTindId) && row[7] == Text(rec.itemType)
            && row[8] == Count(|copies|)
  {
  }

  const NotAvailable: string := "n/a"

  /** `row_for_missing`: the barcode, then "n/a" in every other column. */
  function RowForMissing(barcode: string): (row: SheetRow)
    ensures |row| == |Columns|
    ensures row[0] == Text(barcode)
    ensures forall i :: 1 <= i < |row| ==> row[i] == Text(NotAvailable)
  {
    [Text(barcode)] + seq(|Columns| - 1, _ => Text(NotAvailable))
  }

  const OnShelf: string := "on shelf"

  /** A copy gets a row of its own when it is at the record's location,
      has another barcode, and is not on the shelf. */
  predicate IsOtherCopy(rec: ItemRecord, c: Holding)
  {
    c.location == rec.itemLocationName && c.barcode != rec.itemBarcode && c.status != OnShelf
  }

  /** The copies that get a row of their own, in the order of `copies`. */
  function OtherCopies(rec: ItemRecord, copies: seq<Holding>): (others: seq<Holding>)
    ensures |others| <= |copies|
    ensures forall c :: c in others <==> c in copies && IsOtherCopy(rec, c)
  {
    if copies == [] then []
    else
      var c := copies[0];
      var rest := OtherCopies(rec, copies[1..]);
      assert copies == [c] + copies[1..];
      if IsOtherCopy(rec, c) then [c] + rest else rest
  }

  /** Filtering a non-empty list: its first copy, if it qualifies, then the
      rest filtered. */
  lemma OtherCopiesUnfold(rec: ItemRecord, copies: seq<Holding>)
    requires copies != []
    ensures OtherCopies(rec, copies)
            == (if IsOtherCopy(rec, copies[0]) then [copies[0]] else []) + OtherCopies(rec, copies[1..])
  {
  }

  /** Dropping the first element of a concatenation with a non-empty left
      part. */
  lemma ConsAppend<T>(a: seq<T>, b: seq<T>)
    requires a != []
    ensures (a + b)[0] == a[0] && (a + b)[1..] == a[1..] + b
  {
  }

  /** The comprehension keeps the order of the copies: filtering a
      concatenation filters each part. */
  lemma {:induction false} OtherCopiesAppend(rec: ItemRecord, a: seq<Holding>, b: seq<Holding>)
    ensures OtherCopies(rec, a + b) == OtherCopies(rec, a) + OtherCopies(rec, b)
  {
    if a == [] {
      assert a + b == b;
    } else {
      var head := if IsOtherCopy(rec, a[0]) then [a[0]] else [];
      var x, y := OtherCopies(rec, a[1..]), OtherCopies(rec, b);
      OtherCopiesAppend(rec, a[1..], b);
      OtherCopiesUnfold(rec, a);
      ConsAppend(a, b);
      OtherCopiesUnfold(rec, a + b);
      TindQuery.ConcatAssoc(head, x, y);
    }
  }

  /** One entry per qualifying copy: each qualifying copy occurs as often as
      in `copies`, and no other copy occurs. */
  lemma {:induction false} OtherCopiesCount(rec: ItemRecord, copies: seq<Holding>, c: Holding)
    ensures multiset(OtherCopies(rec, copies))[c] == if IsOtherCopy(rec, c) then multiset(copies)[c] else 0
  {
    if copies != [] {
      OtherCopiesCount(rec, copies[1..], c);
      assert copies == [copies[0]] + copies[1..];
      assert multiset(copies) == multiset{copies[0]} + multiset(copies[1..]);
    }
  }

  /** The copy of the record made for another copy, as the code writes it:
      the barcode changes and the status goes to the attribute `status`,
      which no column reads. */
  function ExtraRecordAsWritten(rec: ItemRecord, held: Holding): (other: ItemRecord)
    ensures other.itemBarcode == held.barcode && other.status == Some(held.status)
    ensures other.itemStatus == rec.itemStatus
  {
    rec.(itemBarcode := held.barcode, status := Some(held.status))
  }

  /** As written, the extra row is the primary row with only the barcode
      changed: its Status column repeats the primary item's status. */
  lemma ExtraRowRepeatsPrimaryStatus(rec: ItemRecord, held: Holding, copies: seq<Holding>)
    requires rec.itemStatus.Some?
    ensures RowForRecord(ExtraRecordAsWritten(rec, held), copies)
            == RowForRecord(rec, copies)[0 := Text(held.barcode)]
  {
  }

  /** An on-loan copy listed under an on-shelf item is shown as on shelf. */
  lemma ExtraRowHidesCopyStatus()
    ensures var rec := NewItemRecord().(itemBarcode := "35047019", itemLocationName := "SFL",
                                       itemStatus := Some(OnShelf));
            var held := TindClient.Holding("35047020", "c.2", "on loan", "SFL");
            RowForRecord(ExtraRecordAsWritten(rec, held), [held])[1] == Text(OnShelf)
  {
  }

  /** The copy of the record made for another copy, with that copy's
      barcode and status in the columns that show them. */
  function ExtraRecord(rec: ItemRecord, held: Holding): (other: ItemRecord)
    ensures other.itemBarcode == held.barcode && other.itemStatus == Some(held.status)
  {
    rec.(itemBarcode := held.barcode, itemStatus := Some(held.status))
  }

  /** The extra row differs from the primary row in the Barcode and Status
      columns only, and shows the other copy's barcode and status there. */
  lemma ExtraRowShowsCopy(rec: ItemRecord, held: Holding, copies: seq<Holding>)
    requires rec.itemStatus.Some?
    ensures RowForRecord(ExtraRecord(rec, held), copies)
            == RowForRecord(rec, copies)[0 := Text(held.barcode)][1 := Text(held.status)]
  {
  }

  /** Which record an extra row is made from: the one the code builds at
      main_body.py:195 (`ExtraRecordAsWritten`), or the corrected one
      (`ExtraRecord`). */
  datatype Variant = AsWritten | Corrected

  /** The record written for another copy under the given variant. */
  function ExtraFor(v: Variant, rec: ItemRecord, held: Holding): ItemRecord
  {
    if v.AsWritten? then ExtraRecordAsWritten(rec, held) else ExtraRecord(rec, held)
  }

  /** The rows for the other copies, one per copy, in order. As written each
      is the record's own row with the copy's barcode; corrected, it also
      shows the copy's status. */
  function ExtraRows(v: Variant, rec: ItemRecord, others: seq<Holding>, copies: seq<Holding>): (rows: seq<SheetRow>)
    requires rec.itemStatus.Some?
    ensures |rows| == |others|
    ensures forall k :: 0 <= k < |others| ==> |rows[k]| == |Columns| && rows[k][0] == Text(others[k].barcode)
    ensures v.AsWritten? ==>
              forall k :: 0 <= k < |others| ==> rows[k] == RowForRecord(rec, copies)[0 := Text(others[k].barcode)]
    ensures v.Corrected? ==>
              forall k :: 0 <= k < |others| ==>
                rows[k] == RowForRecord(rec, copies)[0 := Text(others[k].barcode)][1 := Text(others[k].status)]
  {
    seq(|others|, k requires 0 <= k < |others| => RowForRecord(ExtraFor(v, rec, others[k]), copies))
  }

  /** The copies known for a record: `holdings.get(rec, [])`, with the
      holdings keyed by the record's barcode (what its hash and equality
      use). */
  function CopiesOf(rec: ItemRecord, holdings: map<string, seq<Holding>>): seq<Holding>
  {
    if rec.itemBarcode in holdings then holdings[rec.itemBarcode] else []
  }

  /** What a record needs to be written: `filled_record` sets its status. */
  predicate Writable(sorted: seq<Option<ItemRecord>>)
  {
    forall i :: 0 <= i < |sorted| && sorted[i].Some? ==> sorted[i].value.itemStatus.Some?
  }

  /** The rows written for one input barcode. */
  function BlockFor(v: Variant, barcode: string, rec: Option<ItemRecord>, holdings: map<string, seq<Holding>>)
    : (block: seq<SheetRow>)
    requires rec.Some? ==> rec.value.itemStatus.Some?
    ensures |block| >= 1
    ensures rec.None? ==> block == [RowForMissing(barcode)]
    ensures rec.Some? ==> |block| == 1 + |OtherCopies(rec.value, CopiesOf(rec.value, holdings))|
    ensures rec.Some? ==> block[0] == RowForRecord(rec.value, CopiesOf(rec.value, holdings))
  {
    if rec.None? then [RowForMissing(barcode)]
    else
      var copies := CopiesOf(rec.value, holdings);
      [RowForRecord(rec.value, copies)] + ExtraRows(v, rec.value, OtherCopies(rec.value, copies), copies)
  }

  /** Concatenation of a list of row blocks. */
  function Concat(blocks: seq<seq<SheetRow>>): seq<SheetRow>
  {
    if blocks == [] then [] else Concat(blocks[..|blocks| - 1]) + blocks[|blocks| - 1]
  }

  /** The blocks of the first `n` input barcodes. */
  function Blocks(v: Variant, barcodes: seq<string>, sorted: seq<Option<ItemRecord>>,
                  holdings: map<string, seq<Holding>>, n: nat): (bs: seq<seq<SheetRow>>)
    requires n <= |barcodes| == |sorted| && Writable(sorted)
    ensures |bs| == n
    ensures forall i :: 0 <= i < n ==> bs[i] == BlockFor(v, barcodes[i], sorted[i], holdings)
  {
    seq(n, i requires 0 <= i < n => BlockFor(v, barcodes[i], sorted[i], holdings))
  }

  /** The whole sheet: the header, then each input barcode's block in input
      order. */
  function OutputRows(v: Variant, barcodes: seq<string>, sorted: seq<Option<ItemRecord>>,
                      holdings: map<string, seq<Holding>>): seq<SheetRow>
    requires |barcodes| == |sorted| && Writable(sorted)
  {
    [Header()] + Concat(Blocks(v, barcodes, sorted, holdings, |barcodes|))
  }

  /** Every block starts with a row for its own barcode, as long as the
      record in the slot is the one found for it. */
  lemma BlockStartsWithBarcode(v: Variant, barcode: string, rec: Option<ItemRecord>, holdings: map<string, seq<Holding>>)
    requires rec.Some? ==> rec.value.itemStatus.Some? && rec.value.itemBarcode == barcode
    ensures var block := BlockFor(v, barcode, rec, holdings);
            |block| >= 1 && |block[0]| == |Columns| && block[0][0] == Text(barcode)
  {
  }

  /** The sheet has the header first and at least one row per input
      barcode; blocks of missing barcodes are exactly one row. */
  lemma {:induction false} OutputShape(v: Variant, barcodes: seq<string>, sorted: seq<Option<ItemRecord>>,
                                       holdings: map<string, seq<Holding>>)
    requires |barcodes| == |sorted| && Writable(sorted)
    ensures var rows := OutputRows(v, barcodes, sorted, holdings);
            rows[0] == Header() && |rows| >= 1 + |barcodes|
    ensures (forall i :: 0 <= i < |sorted| ==> sorted[i].None?) ==>
              |OutputRows(v, barcodes, sorted, holdings)| == 1 + |barcodes|
  {
    var bs := Blocks(v, barcodes, sorted, holdings, |barcodes|);
    forall i | 0 <= i < |bs|
      ensures |bs[i]| >= 1 && (sorted[i].None? ==> |bs[i]| == 1)
    {
    }
    ConcatLengths(bs);
  }

  /** The length of a concatenation, bounded below by the number of blocks
      when none is empty, and equal to it when each has one row. */
  lemma {:induction false} ConcatLengths(blocks: seq<seq<SheetRow>>)
    ensures (forall i :: 0 <= i < |blocks| ==> |blocks[i]| >= 1) ==> |Concat(blocks)| >= |blocks|
    ensures (forall i :: 0 <= i < |blocks| ==> |blocks[i]| == 1) ==> |Concat(blocks)| == |blocks|
  {
    if blocks != [] {
      ConcatLengths(blocks[..|blocks| - 1]);
    }
  }

  /** Two lists of rows that agree everywhere except possibly in the Status
      column (column 1). */
  predicate SameButStatus(a: seq<SheetRow>, b: seq<SheetRow>)
  {
    |a| == |b|
    && forall i :: 0 <= i < |a| ==>
         |a[i]| == |b[i]| && forall c :: 0 <= c < |a[i]| && c != 1 ==> a[i][c] == b[i][c]
  }

  /** The block the code writes for a barcode and the corrected one have the
      same rows, the same record row first, and differ at most in the Status
      column of the extra rows. */
  lemma BlockVariants(barcode: string, rec: Option<ItemRecord>, holdings: map<string, seq<Holding>>)
    requires rec.Some? ==> rec.value.itemStatus.Some?
    ensures var w, c := BlockFor(AsWritten, barcode, rec, holdings), BlockFor(Corrected, barcode, rec, holdings);
            SameButStatus(w, c) && w[0] == c[0]
  {
  }

  lemma SameButStatusAppend(a1: seq<SheetRow>, b1: seq<SheetRow>, a2: seq<SheetRow>, b2: seq<SheetRow>)
    requires SameButStatus(a1, b1) && SameButStatus(a2, b2)
    ensures SameButStatus(a1 + a2, b1 + b2)
  {
    forall i | 0 <= i < |a1 + a2|
      ensures |(a1 + a2)[i]| == |(b1 + b2)[i]|
      ensures forall c :: 0 <= c < |(a1 + a2)[i]| && c != 1 ==> (a1 + a2)[i][c] == (b1 + b2)[i][c]
    {
      if i >= |a1| {
        assert (a1 + a2)[i] == a2[i - |a1|] && (b1 + b2)[i] == b2[i - |a1|];
      }
    }
  }

  /** Blocks that pairwise differ at most in the Status column concatenate
      to sheets that do too. */
  lemma {:induction false} ConcatSameButStatus(ws: seq<seq<SheetRow>>, cs: seq<seq<SheetRow>>)
    requires |ws| == |cs| && forall i :: 0 <= i < |ws| ==> SameButStatus(ws[i], cs[i])
    ensures SameButStatus(Concat(ws), Concat(cs))
  {
    if ws != [] {
      var n := |ws| - 1;
      ConcatSameButStatus(ws[..n], cs[..n]);
      SameButStatusAppend(Concat(ws[..n]), Concat(cs[..n]), ws[n], cs[n]);
    }
  }

  /** The sheet the code writes and the corrected sheet have the same rows
      and differ at most in the Status column; both start with the header,
      and each barcode's block has the same record row in both, so only the
      extra rows can differ: the fault at main_body.py:195 changes nothing
      else. */
  lemma {:induction false} SheetVariants(barcodes: seq<string>, sorted: seq<Option<ItemRecord>>,
                                         holdings: map<string, seq<Holding>>)
    requires |barcodes| == |sorted| && Writable(sorted)
    ensures SameButStatus(OutputRows(AsWritten, barcodes, sorted, holdings),
                          OutputRows(Corrected, barcodes, sorted, holdings))
    ensures OutputRows(AsWritten, barcodes, sorted, holdings)[0]
            == OutputRows(Corrected, barcodes, sorted, holdings)[0] == Header()
    ensures forall i :: 0 <= i < |barcodes| ==>
              var w, c := Blocks(AsWritten, barcodes, sorted, holdings, |barcodes|)[i],
                          Blocks(Corrected, barcodes, sorted, holdings, |barcodes|)[i];
              SameButStatus(w, c) && w[0] == c[0]
  {
    var ws := Blocks(AsWritten, barcodes, sorted, holdings, |barcodes|);
    var cs := Blocks(Corrected, barcodes, sorted, holdings, |barcodes|);
    forall i | 0 <= i < |ws|
      ensures SameButStatus(ws[i], cs[i]) && ws[i][0] == cs[i][0]
    {
      BlockVariants(barcodes[i], sorted[i], holdings);
    }
    ConcatSameButStatus(ws, cs);
    SameButStatusAppend([Header()], [Header()], Concat(ws), Concat(cs));
  }

  /** The writing loop of `_do_main_work`: the header, then each input
      barcode's block. */
  method WriteSheet(v: Variant, barcodes: seq<string>, sorted: seq<Option<ItemRecord>>,
                    holdings: map<string, seq<Holding>>)
    returns (sheet: seq<SheetRow>)
    requires |barcodes| == |sorted| && Writable(sorted)
    ensures sheet == OutputRows(v, barcodes, sorted, holdings)
  {
    sheet := [Header()];
    for idx := 0 to |sorted|
      invariant sheet == [Header()] + Concat(Blocks(v, barcodes, sorted, holdings, idx))
    {
      ghost var done := Blocks(v, barcodes, sorted, holdings, idx + 1);
      assert done[..idx] == Blocks(v, barcodes, sorted, holdings, idx);
      var block := WriteBlock(v, barcodes[idx], sorted[idx], holdings);
      assert block == done[idx];
      ghost var prefix := Concat(done[..idx]);
      assert Concat(done) == prefix + block;
      TindQuery.ConcatAssoc([Header()], prefix, block);
      sheet := sheet + block;
    }
  }

  /** The rows of one input barcode: the missing-row, or the record's row
      followed by one row per other copy, each made from a copy of the
      record, which stays as it was. */
  method WriteBlock(v: Variant, barcode: string, rec: Option<ItemRecord>, holdings: map<string, seq<Holding>>)
    returns (block: seq<SheetRow>)
    requires rec.Some? ==> rec.value.itemStatus.Some?
    ensures block == BlockFor(v, barcode, rec, holdings)
  {
    if rec.None? {
      return [RowForMissing(barcode)];
    }
    var record := rec.value;
    var copies := CopiesOf(record, holdings);
    block := [RowForRecord(record, copies)];
    var others := OtherCopies(record, copies);
    for j := 0 to |others|
      invariant block == [RowForRecord(record, copies)] + ExtraRows(v, record, others[..j], copies)
    {
      var other := ExtraFor(v, record, others[j]);
      assert ExtraRows(v, record, others[..j + 1], copies)
             == ExtraRows(v, record, others[..j], copies) + [RowForRecord(other, copies)];
      block := block + [RowForRecord(other, copies)];
    }
    assert others[..|others|] == others;
  }

  // ---------------------------------------------------------------------------
  // Output file name

  const CsvSuffix: string := ".csv"

  /** The output name gets ".csv" appended unless it already ends with it. */
  function OutputName(name: string): (r: string)
    ensures EndsWith(r, CsvSuffix)
    ensures r == name <==> EndsWith(name, CsvSuffix)
    ensures r != name ==> r == name + CsvSuffix
  {
    if EndsWith(name, CsvSuffix) then name
    else
      var r := name + CsvSuffix;
      assert r[|r| - |CsvSuffix|..] == CsvSuffix;
      r
  }

  /** Naming is idempotent. */
  lemma OutputNameIdempotent(name: string)
    ensures OutputName(OutputName(name)) == OutputName(name)
  {
  }
}
