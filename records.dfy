/** The older record class of checkit/records.py: its constructor, identity by
    (barcode, requester name, date requested) and ordering by `repr`, which
    uses the TIND id. The constructor never sets `requester_name` or
    `date_requested`, so the operations that read them can fail with an
    AttributeError; Python's `and` only reads them when the earlier
    comparisons held. */
module BaseRecords {
  import opened PyStr

  /** A value, or the AttributeError raised by reading an attribute that was
      never set. */
  datatype Outcome<+T> = Value(value: T) | AttributeError(name: string)

  datatype BaseRecord = BaseRecord(
    itemTitle: string,
    itemAuthor: string,
    itemType: string,
    itemCallNumber: string,
    itemCopyNumber: string,
    itemTindId: string,
    itemBarcode: string,
    itemDetailsUrl: string,
    itemRecordUrl: string,
    itemLocationName: string,
    itemLocationCode: string,
    itemHoldsCount: string,
    itemLoanStatus: string,
    itemLoanPeriod: string,
    dateCreated: string,
    dateModified: string,
    requesterName: Outcome<string>,
    dateRequested: Outcome<string>)

  /** `BaseRecord()`: the listed fields are '', the requester name and the
      request date are not set. */
  function NewBaseRecord(): (r: BaseRecord)
    ensures r.itemTitle == r.itemAuthor == r.itemType == r.itemCallNumber == r.itemCopyNumber == ""
    ensures r.itemTindId == r.itemBarcode == r.itemDetailsUrl == r.itemRecordUrl == ""
    ensures r.itemLocationName == r.itemLocationCode == r.itemHoldsCount == r.itemLoanStatus == ""
    ensures r.itemLoanPeriod == r.dateCreated == r.dateModified == ""
    ensures r.requesterName.AttributeError? && r.dateRequested.AttributeError?
  {
    BaseRecord("", "", "", "", "", "", "", "", "", "", "", "", "", "", "", "",
               AttributeError("requester_name"), AttributeError("date_requested"))
  }

  /** `a == b`: barcode, then requester name, then request date, stopping at
      the first difference; reading an unset attribute raises. */
  function Eq(a: BaseRecord, b: BaseRecord): (r: Outcome<bool>)
    ensures r == Value(true) <==>
              a.itemBarcode == b.itemBarcode
              && a.requesterName.Value? && b.requesterName.Value? && a.requesterName == b.requesterName
              && a.dateRequested.Value? && b.dateRequested.Value? && a.dateRequested == b.dateRequested
    ensures a.itemBarcode != b.itemBarcode ==> r == Value(false)
    ensures r.AttributeError? <==>
              a.itemBarcode == b.itemBarcode
              && (a.requesterName.AttributeError? || b.requesterName.AttributeError?
                  || (a.requesterName == b.requesterName
                      && (a.dateRequested.AttributeError? || b.dateRequested.AttributeError?)))
  {
    if a.itemBarcode != b.itemBarcode then Value(false)
    else if a.requesterName.AttributeError? then AttributeError(a.requesterName.name)
    else if b.requesterName.AttributeError? then AttributeError(b.requesterName.name)
    else if a.requesterName != b.requesterName then Value(false)
    else if a.dateRequested.AttributeError? then AttributeError(a.dateRequested.name)
    else if b.dateRequested.AttributeError? then AttributeError(b.dateRequested.name)
    else Value(a.dateRequested == b.dateRequested)
  }

  /** `a != b`: the negation of `==`, with the same AttributeError. */
  function Ne(a: BaseRecord, b: BaseRecord): (r: Outcome<bool>)
    ensures r.Value? <==> Eq(a, b).Value?
    ensures r.Value? ==> r.value == !Eq(a, b).value
  {
    match Eq(a, b)
    case Value(e) => Value(!e)
    case AttributeError(n) => AttributeError(n)
  }

  /** The string `hash(r)` is computed from: barcode + requester name + date. */
  function HashKey(r: BaseRecord): (k: Outcome<string>)
    ensures k.Value? <==> r.requesterName.Value? && r.dateRequested.Value?
  {
    if r.requesterName.AttributeError? then r.requesterName
    else if r.dateRequested.AttributeError? then r.dateRequested
    else Value(r.itemBarcode + r.requesterName.value + r.dateRequested.value)
  }

  /** Records that compare equal hash equal, whatever the string hash. */
  lemma EqualRecordsHashEqual(a: BaseRecord, b: BaseRecord, hash: string -> int)
    requires Eq(a, b) == Value(true)
    ensures HashKey(a).Value? && HashKey(b).Value?
    ensures hash(HashKey(a).value) == hash(HashKey(b).value)
  {
  }

  /** A freshly built record cannot be compared with another of the same
      barcode: `==` raises. */
  lemma FreshRecordsCannotBeCompared(a: BaseRecord)
    requires a.itemBarcode == ""
    ensures Eq(NewBaseRecord(), a) == AttributeError("requester_name")
  {
  }

  /** `repr(r)`: '<BaseRecord ' + TIND id + '>'. */
  function Repr(r: BaseRecord): string
  {
    "<BaseRecord " + r.itemTindId + ">"
  }

  predicate Less(a: BaseRecord, b: BaseRecord)
  {
    StrLess(Repr(a), Repr(b))
  }

  predicate LessEq(a: BaseRecord, b: BaseRecord)
  {
    StrLess(Repr(a), Repr(b)) || Repr(a) == Repr(b)
  }

  /** `<` and `<=` order by TIND id (provided neither id is a proper prefix of
      the other), not by the fields `==` compares. */
  lemma {:induction false} OrderIsByTindId(a: BaseRecord, b: BaseRecord)
    requires !ProperPrefix(a.itemTindId, b.itemTindId) && !ProperPrefix(b.itemTindId, a.itemTindId)
    ensures Less(a, b) <==> StrLess(a.itemTindId, b.itemTindId)
    ensures LessEq(a, b) <==> StrLess(a.itemTindId, b.itemTindId) || a.itemTindId == b.itemTindId
  {
    var p := "<BaseRecord ";
    assert Repr(a) == p + (a.itemTindId + ">");
    assert Repr(b) == p + (b.itemTindId + ">");
    StrLessCommonPrefix(p, a.itemTindId + ">", b.itemTindId + ">");
    StrLessCommonSuffix(a.itemTindId, b.itemTindId, '>');
    if Repr(a) == Repr(b) {
      assert a.itemTindId == Repr(a)[|p|..|Repr(a)| - 1];
    }
  }

  /** Two records with the same TIND id are neither `<` the other, even when
      `==` says they differ. */
  lemma {:induction false} SameTindIdUnordered(a: BaseRecord, b: BaseRecord)
    requires a.itemTindId == b.itemTindId
    ensures !Less(a, b) && !Less(b, a) && LessEq(a, b)
  {
    StrLessIrreflexive(Repr(a));
  }
}
