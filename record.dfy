/** The item record of checkit/record.py: its fields, the constructor that
    blanks them, identity (equality and hashing by class and barcode),
    ordering by `repr`, and the attribute-to-title table. */
module ItemRecords {
  import opened Errors
  import opened PyStr

  const ClassName: string := "ItemRecord"

  /** One item record. `className` is the Python class the object belongs to
      (equality compares it). The last three fields are attributes the class
      does not declare: `filled_record` adds `item_status` and `holds_count`,
      and the output writer adds `status`; None means "not set on this object". */
  datatype ItemRecord = ItemRecord(
    className: string,
    itemBarcode: string,
    itemTitle: string,
    itemAuthor: string,
    itemType: string,
    itemCallNumber: string,
    itemCopyNumber: string,
    itemTindId: string,
    itemDetailsUrl: string,
    itemRecordUrl: string,
    itemLocationName: string,
    itemLocationCode: string,
    itemHoldsCount: string,
    itemLoanStatus: string,
    itemLoanPeriod: string,
    dateCreated: string,
    dateModified: string,
    itemStatus: Option<string>,
    holdsCount: Option<string>,
    status: Option<string>)

  /** The attribute names the constructor initialises, in its order. */
  const InitialisedAttributes: seq<string> := [
    "item_barcode", "item_title", "item_author", "item_type", "item_call_number",
    "item_copy_number", "item_tind_id", "item_details_url", "item_record_url",
    "item_location_name", "item_location_code", "item_holds_count", "item_loan_status",
    "item_loan_period", "date_created", "date_modified"]

  /** Reads attribute `name` of `r` (Python's getattr); None when it is not set. */
  function Attribute(r: ItemRecord, name: string): Option<string>
  {
    match name
    case "item_barcode" => Some(r.itemBarcode)
    case "item_title" => Some(r.itemTitle)
    case "item_author" => Some(r.itemAuthor)
    case "item_type" => Some(r.itemType)
    case "item_call_number" => Some(r.itemCallNumber)
    case "item_copy_number" => Some(r.itemCopyNumber)
    case "item_tind_id" => Some(r.itemTindId)
    case "item_details_url" => Some(r.itemDetailsUrl)
    case "item_record_url" => Some(r.itemRecordUrl)
    case "item_location_name" => Some(r.itemLocationName)
    case "item_location_code" => Some(r.itemLocationCode)
    case "item_holds_count" => Some(r.itemHoldsCount)
    case "item_loan_status" => Some(r.itemLoanStatus)
    case "item_loan_period" => Some(r.itemLoanPeriod)
    case "date_created" => Some(r.dateCreated)
    case "date_modified" => Some(r.dateModified)
    case "item_status" => r.itemStatus
    case "holds_count" => r.holdsCount
    case "status" => r.status
    case _ => None
  }

  /** `ItemRecord()`: every declared attribute is the empty string and the
      undeclared ones are not set. */
  function NewItemRecord(): (r: ItemRecord)
    ensures r.className == ClassName
    ensures forall i :: 0 <= i < |InitialisedAttributes| ==> Attribute(r, InitialisedAttributes[i]) == Some("")
    ensures Attribute(r, "item_status") == None && Attribute(r, "holds_count") == None
    ensures Attribute(r, "status") == None
  {
    ItemRecord(ClassName, "", "", "", "", "", "", "", "", "", "", "", "", "", "", "", "",
               None, None, None)
  }

  /** `repr(r)`: '<' + class name + ' ' + barcode + '>'. */
  function Repr(r: ItemRecord): string
  {
    "<" + r.className + " " + r.itemBarcode + ">"
  }

  /** `a == b`: same class and same barcode; no other field matters. */
  predicate Eq(a: ItemRecord, b: ItemRecord)
  {
    a.className == b.className && a.itemBarcode == b.itemBarcode
  }

  /** `a != b`. */
  predicate Ne(a: ItemRecord, b: ItemRecord)
  {
    !Eq(a, b)
  }

  /** The value `hash(r)` is computed from: the barcode alone. */
  function HashKey(r: ItemRecord): string
  {
    r.itemBarcode
  }

  /** `a < b` and `a <= b` compare the `repr` strings. */
  predicate Less(a: ItemRecord, b: ItemRecord)
  {
    StrLess(Repr(a), Repr(b))
  }

  predicate LessEq(a: ItemRecord, b: ItemRecord)
  {
    StrLess(Repr(a), Repr(b)) || Repr(a) == Repr(b)
  }

  /** Equality is an equivalence, `!=` is its negation, and equal records have
      the same hash whatever the hash function. */
  lemma EqIsIdentityOnClassAndBarcode(a: ItemRecord, b: ItemRecord, c: ItemRecord, hash: string -> int)
    ensures Eq(a, a)
    ensures Eq(a, b) ==> Eq(b, a)
    ensures Eq(a, b) && Eq(b, c) ==> Eq(a, c)
    ensures Ne(a, b) <==> !Eq(a, b)
    ensures Eq(a, b) ==> hash(HashKey(a)) == hash(HashKey(b))
  {
  }

  /** Any two records of one class with the same barcode are equal,
      whatever their other fields hold. */
  lemma EqIgnoresOtherFields(a: ItemRecord, b: ItemRecord)
    requires a.className == b.className && a.itemBarcode == b.itemBarcode
    ensures Eq(a, b) && Eq(b, a)
  {
  }

  /** For records of one class, `<` orders by barcode, provided neither
      barcode is a proper prefix of the other. */
  lemma {:induction false} LessIsBarcodeOrder(a: ItemRecord, b: ItemRecord)
    requires a.className == b.className
    requires !ProperPrefix(a.itemBarcode, b.itemBarcode) && !ProperPrefix(b.itemBarcode, a.itemBarcode)
    ensures Less(a, b) <==> StrLess(a.itemBarcode, b.itemBarcode)
    ensures LessEq(a, b) <==> StrLess(a.itemBarcode, b.itemBarcode) || a.itemBarcode == b.itemBarcode
  {
    var p := "<" + a.className + " ";
    assert Repr(a) == p + (a.itemBarcode + ">");
    assert Repr(b) == p + (b.itemBarcode + ">");
    StrLessCommonPrefix(p, a.itemBarcode + ">", b.itemBarcode + ">");
    StrLessCommonSuffix(a.itemBarcode, b.itemBarcode, '>');
    if Repr(a) == Repr(b) {
      assert a.itemBarcode == Repr(a)[|p|..|Repr(a)| - 1];
    }
  }

  /** The exception: '>' sorts after every digit, so a record whose barcode
      extends another's by a digit sorts BEFORE it. */
  lemma PrefixBarcodeSortsAfter()
    ensures var short := NewItemRecord().(itemBarcode := "12");
            var long := NewItemRecord().(itemBarcode := "123");
            StrLess(short.itemBarcode, long.itemBarcode) && Less(long, short) && !Less(short, long)
  {
    var short := NewItemRecord().(itemBarcode := "12");
    var long := NewItemRecord().(itemBarcode := "123");
    var p := "<ItemRecord ";
    assert Repr(short) == p + "12>";
    assert Repr(long) == p + "123>";
    StrLessCommonPrefix(p, "12>", "123>");
    StrLessCommonPrefix(p, "123>", "12>");
    assert "12>"[1..] == "2>" && "123>"[1..] == "23>";
    assert "2>"[1..] == ">" && "23>"[1..] == "3>";
  }

  /** `_ATTRIBUTE_TITLES`. */
  const AttributeTitles: map<string, string> := map[
    "item_barcode" := "Barcode",
    "item_title" := "Title",
    "item_author" := "Author",
    "item_type" := "Item type",
    "item_call_number" := "Call number",
    "item_copy_number" := "Copy number",
    "item_tind_id" := "TIND id",
    "item_details_url" := "Details page",
    "item_record_url" := "Item record page",
    "item_location_name" := "Location name",
    "item_location_code" := "Location code",
    "item_holds_count" := "Hold requests",
    "item_loan_status" := "Loan status",
    "item_loan_period" := "Loan period",
    "date_created" := "Date created",
    "date_modified" := "Date modified"]

  /** `ItemRecord.field_title(name)`: the title of a known attribute, else None. */
  function FieldTitle(name: string): (t: Option<string>)
    ensures t.Some? <==> name in InitialisedAttributes
    ensures t.Some? ==> t.value != ""
  {
    if name in AttributeTitles then Some(AttributeTitles[name]) else None
  }
}
