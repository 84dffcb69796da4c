/** The TIND client of checkit/tind.py: turning JSON records into item
    records, the two caches of the `Tind` object (records by barcode and
    holdings by TIND id), the scraping of a holdings page into `Holding`
    tuples, and the Shibboleth login loop. The service, the HTML parser, the
    keyring, the dialogs and the name parser are oracles. */
module TindClient {
  import opened Errors
  import opened PyStr
  import opened ItemRecords
  import opened TindQuery
  import opened TindNames
  import opened Access
  import opened TindLogin

  // ---------------------------------------------------------------------------
  // filled_record

  const RecordUrlPrefix: string := "https://caltech.tind.io/record/"
  const SiteUrl: string := "https://caltech.tind.io"

  /** How `filled_record` splits the JSON title into (title, author):
      `title_and_author`, that is `s => TitleAndAuthor(s, split)` for the
      name parser `lastName`. It is a parameter here so that the cache
      reasoning does not unfold the title heuristics. */
  type TitleSplit = string -> (string, string)

  /** `filled_record(json)`: a fresh item record with the JSON values copied
      in, the title and author split out of the JSON title, and the two page
      addresses built from the record id and the barcode link. */
  function FilledRecord(j: JsonRecord, split: TitleSplit): (r: ItemRecord)
    ensures r.className == ClassName && r.itemBarcode == j.barcode
  {
    var ta := split(j.title);
    NewItemRecord().(
      itemTitle := ta.0, itemAuthor := ta.1, itemBarcode := j.barcode,
      itemTindId := j.idBibrec, itemCallNumber := j.callNo, itemCopyNumber := j.description,
      itemLocationName := j.locationName, itemLocationCode := j.locationCode,
      itemStatus := Some(j.status), itemLoanPeriod := j.loanPeriod, itemType := j.itemType,
      holdsCount := Some(j.numberOfRequests), dateCreated := j.creationDate,
      dateModified := j.modificationDate,
      itemRecordUrl := RecordUrlPrefix + j.idBibrec,
      itemDetailsUrl := SiteUrl + j.linksBarcode)
  }

  /** The status and the request count land in `item_status` and
      `holds_count`, attributes the class does not declare, while the
      declared `item_loan_status` and `item_holds_count` keep the
      constructor's ''. The record page is the record id under the record
      path, and title and author are the split of the JSON title. */
  lemma FilledRecordFields(j: JsonRecord, split: TitleSplit)
    ensures var r := FilledRecord(j, split);
            && r.itemStatus == Some(j.status) && r.holdsCount == Some(j.numberOfRequests)
            && r.itemLoanStatus == "" && r.itemHoldsCount == "" && r.status == None
            && StartsWith(r.itemRecordUrl, RecordUrlPrefix)
            && Drop(r.itemRecordUrl, |RecordUrlPrefix|) == j.idBibrec
            && (r.itemTitle, r.itemAuthor) == split(j.title)
  {
    var r := FilledRecord(j, split);
    assert r.itemRecordUrl[..|RecordUrlPrefix|] == RecordUrlPrefix;
  }

  /** With the catalog's title heuristics as the splitter, the item title is
      a piece of the JSON title and the author is what `first_author` makes
      of the rest. */
  lemma FilledRecordTitle(j: JsonRecord, lastName: string -> Option<string>)
    ensures var r := FilledRecord(j, s => TitleAndAuthor(s, lastName));
            && (r.itemTitle, r.itemAuthor) == TitleAndAuthor(j.title, lastName)
            && Contains(j.title, r.itemTitle)
  {
    TitleIsPartOfInput(j.title, lastName);
  }

  /** Two filled records are `==` exactly when their JSON barcodes agree. */
  lemma FilledRecordIdentity(j: JsonRecord, k: JsonRecord, split: TitleSplit)
    ensures Eq(FilledRecord(j, split), FilledRecord(k, split)) <==> j.barcode == k.barcode
  {
  }

  /** The records built from a list of JSON records, in order. */
  function Filled(js: seq<JsonRecord>, split: TitleSplit): (rs: seq<ItemRecord>)
    ensures |rs| == |js|
    ensures forall i :: 0 <= i < |js| ==> rs[i] == FilledRecord(js[i], split)
  {
    if js == [] then [] else Filled(js[..|js| - 1], split) + [FilledRecord(js[|js| - 1], split)]
  }

  // ---------------------------------------------------------------------------
  // The caches

  /** `[cache[b] for b in keys if b in cache]`. */
  function CachedPart<V>(cache: map<string, V>, keys: seq<string>): (vs: seq<V>)
    ensures |vs| <= |keys|
  {
    if keys == [] then []
    else
      var b := keys[|keys| - 1];
      CachedPart(cache, keys[..|keys| - 1]) + (if b in cache then [cache[b]] else [])
  }

  /** `[b for b in keys if b not in cache]`: duplicates are kept. */
  function Uncached<V>(cache: map<string, V>, keys: seq<string>): (todo: seq<string>)
    ensures |todo| <= |keys|
  {
    if keys == [] then []
    else
      var b := keys[|keys| - 1];
      Uncached(cache, keys[..|keys| - 1]) + (if b in cache then [] else [b])
  }

  /** The uncached list holds exactly the keys missing from the cache. */
  lemma {:induction false} UncachedMembers<V>(cache: map<string, V>, keys: seq<string>)
    ensures forall b :: b in Uncached(cache, keys) <==> b in keys && b !in cache
    decreases |keys|
  {
    if keys != [] {
      var init, last := keys[..|keys| - 1], keys[|keys| - 1];
      UncachedMembers(cache, init);
      assert keys == init + [last];
      assert Uncached(cache, keys) == Uncached(cache, init) + (if last in cache then [] else [last]);
      forall b
        ensures b in Uncached(cache, keys) <==> b in keys && b !in cache
      {
        assert b in keys <==> b in init || b == last;
      }
    }
  }

  /** Every key lands in exactly one of the two comprehensions. */
  lemma {:induction false} CacheSplitLength<V>(cache: map<string, V>, keys: seq<string>)
    ensures |CachedPart(cache, keys)| + |Uncached(cache, keys)| == |keys|
    decreases |keys|
  {
    if keys != [] {
      CacheSplitLength(cache, keys[..|keys| - 1]);
    }
  }

  /** When every key is cached, the cached part is one value per key, in the
      keys' order. */
  lemma {:induction false} AllCachedPart<V>(cache: map<string, V>, keys: seq<string>)
    requires forall i :: 0 <= i < |keys| ==> keys[i] in cache
    ensures |CachedPart(cache, keys)| == |keys|
    ensures forall i :: 0 <= i < |keys| ==> CachedPart(cache, keys)[i] == cache[keys[i]]
    decreases |keys|
  {
    if keys != [] {
      var init, last := keys[..|keys| - 1], keys[|keys| - 1];
      assert forall i :: 0 <= i < |init| ==> init[i] == keys[i];
      AllCachedPart(cache, init);
      assert CachedPart(cache, keys) == CachedPart(cache, init) + [cache[last]];
    }
  }

  /** The two comprehensions split the keys: the uncached list holds exactly
      the keys missing from the cache, in order and with their repetitions,
      and when nothing is missing the cached part is one value per key, in
      the keys' order. */
  lemma CacheSplit<V>(cache: map<string, V>, keys: seq<string>)
    ensures |CachedPart(cache, keys)| + |Uncached(cache, keys)| == |keys|
    ensures forall b :: b in Uncached(cache, keys) <==> b in keys && b !in cache
    ensures Uncached(cache, keys) == [] <==> forall i :: 0 <= i < |keys| ==> keys[i] in cache
    ensures Uncached(cache, keys) == [] ==>
              forall i :: 0 <= i < |keys| ==> CachedPart(cache, keys)[i] == cache[keys[i]]
  {
    UncachedMembers(cache, keys);
    CacheSplitLength(cache, keys);
    if Uncached(cache, keys) == [] {
      forall i | 0 <= i < |keys|
        ensures keys[i] in cache
      {
        assert keys[i] !in Uncached(cache, keys);
      }
      AllCachedPart(cache, keys);
    } else {
      var x := Uncached(cache, keys)[0];
      assert x in keys && x !in cache;
    }
  }

  /** The cache after `cache[r.item_barcode] = r` for each record in turn. */
  function CacheWith(cache: map<string, ItemRecord>, recs: seq<ItemRecord>): map<string, ItemRecord>
  {
    if recs == [] then cache
    else CacheWith(cache, recs[..|recs| - 1])[recs[|recs| - 1].itemBarcode := recs[|recs| - 1]]
  }

  lemma {:induction false} CacheWithKeys(cache: map<string, ItemRecord>, recs: seq<ItemRecord>)
    ensures forall b :: b in CacheWith(cache, recs) <==>
              b in cache || exists i :: 0 <= i < |recs| && recs[i].itemBarcode == b
    decreases |recs|
  {
    if recs != [] {
      var init, last := recs[..|recs| - 1], recs[|recs| - 1];
      CacheWithKeys(cache, init);
      assert forall i :: 0 <= i < |init| ==> init[i] == recs[i];
      forall b
        ensures b in CacheWith(cache, recs) <==>
                b in cache || exists i :: 0 <= i < |recs| && recs[i].itemBarcode == b
      {
        if b == last.itemBarcode {
          assert recs[|recs| - 1].itemBarcode == b;
        }
      }
    }
  }

  lemma {:induction false} CacheWithUntouched(cache: map<string, ItemRecord>, recs: seq<ItemRecord>)
    ensures forall b :: b in cache && (forall i :: 0 <= i < |recs| ==> recs[i].itemBarcode != b) ==>
              b in CacheWith(cache, recs) && CacheWith(cache, recs)[b] == cache[b]
    decreases |recs|
  {
    if recs != [] {
      var init := recs[..|recs| - 1];
      CacheWithUntouched(cache, init);
      assert forall i :: 0 <= i < |init| ==> init[i] == recs[i];
    }
  }

  lemma {:induction false} CacheWithLastWins(cache: map<string, ItemRecord>, recs: seq<ItemRecord>)
    ensures forall i :: 0 <= i < |recs| && (forall j :: i < j < |recs| ==> recs[j].itemBarcode != recs[i].itemBarcode) ==>
              recs[i].itemBarcode in CacheWith(cache, recs) && CacheWith(cache, recs)[recs[i].itemBarcode] == recs[i]
    decreases |recs|
  {
    if recs != [] {
      var init, last := recs[..|recs| - 1], recs[|recs| - 1];
      CacheWithLastWins(cache, init);
      assert forall k :: 0 <= k < |init| ==> init[k] == recs[k];
      var c := CacheWith(cache, init);
      assert CacheWith(cache, recs) == c[last.itemBarcode := last];
      forall i | 0 <= i < |recs| && (forall j :: i < j < |recs| ==> recs[j].itemBarcode != recs[i].itemBarcode)
        ensures recs[i].itemBarcode in CacheWith(cache, recs) && CacheWith(cache, recs)[recs[i].itemBarcode] == recs[i]
      {
        if i < |init| {
          assert recs[i] == init[i];
          assert recs[|recs| - 1].itemBarcode != recs[i].itemBarcode;
        }
      }
    }
  }

  /** After caching a list of records, the keys are the old ones plus the
      records' barcodes; an entry no record replaces is unchanged; and a
      record is cached under its barcode unless a later record of the list
      has the same barcode (the last one wins). */
  lemma CacheWithContents(cache: map<string, ItemRecord>, recs: seq<ItemRecord>)
    ensures forall b :: b in CacheWith(cache, recs) <==>
              b in cache || exists i :: 0 <= i < |recs| && recs[i].itemBarcode == b
    ensures forall b :: b in cache && (forall i :: 0 <= i < |recs| ==> recs[i].itemBarcode != b) ==>
              CacheWith(cache, recs)[b] == cache[b]
    ensures forall i :: 0 <= i < |recs| && (forall j :: i < j < |recs| ==> recs[j].itemBarcode != recs[i].itemBarcode) ==>
              CacheWith(cache, recs)[recs[i].itemBarcode] == recs[i]
  {
    CacheWithKeys(cache, recs);
    CacheWithUntouched(cache, recs);
    CacheWithLastWins(cache, recs);
  }

  /** No later JSON record has the barcode of record i. */
  predicate LastOfItsBarcode(js: seq<JsonRecord>, i: nat)
    requires i < |js|
  {
    forall j :: i < j < |js| ==> js[j].barcode != js[i].barcode
  }

  /** What `records(barcodes)` returns and the record cache afterwards. */
  function RecordsOutcome(cache: map<string, ItemRecord>, barcodes: seq<string>,
                          ajax: Payload -> AjaxReply, split: TitleSplit)
    : (Result<seq<ItemRecord>>, map<string, ItemRecord>)
  {
    var toGet := Uncached(cache, barcodes);
    if toGet == [] then (Ok(CachedPart(cache, barcodes)), cache)
    else
      var json := Collected(Chunked(toGet, ChunkSize), ajax);
      if json.Err? then (Err(json.error), cache)
      else if json.value == [] then (Err(ServiceFailure), cache)
      else
        var recs := Filled(json.value, split);
        (Ok(CachedPart(cache, barcodes) + recs), CacheWith(cache, recs))
  }

  /** When every barcode is cached the service is not asked: the outcome is
      the same whatever it would answer, the result is the cached record of
      each barcode in input order, and the cache is unchanged. */
  lemma AllCachedNoFetch(cache: map<string, ItemRecord>, barcodes: seq<string>,
                         ajax: Payload -> AjaxReply, other: Payload -> AjaxReply,
                         split: TitleSplit)
    requires forall i :: 0 <= i < |barcodes| ==> barcodes[i] in cache
    ensures RecordsOutcome(cache, barcodes, ajax, split) == RecordsOutcome(cache, barcodes, other, split)
    ensures var (r, c) := RecordsOutcome(cache, barcodes, ajax, split);
            && c == cache && r.Ok? && |r.value| == |barcodes|
            && forall i :: 0 <= i < |barcodes| ==> r.value[i] == cache[barcodes[i]]
  {
    CacheSplit(cache, barcodes);
  }

  /** A failed lookup leaves the cache as it was: the first failing chunk's
      error is passed on, and a fetch that brings back nothing at all is a
      ServiceFailure. */
  lemma RecordsFailure(cache: map<string, ItemRecord>, barcodes: seq<string>,
                       ajax: Payload -> AjaxReply, split: TitleSplit)
    requires Uncached(cache, barcodes) != []
    ensures var json := Collected(Chunked(Uncached(cache, barcodes), ChunkSize), ajax);
            var (r, c) := RecordsOutcome(cache, barcodes, ajax, split);
            && (r.Err? ==> c == cache)
            && (json == Ok([]) ==> r == Err(ServiceFailure))
            && (json.Err? ==> r == Err(json.error))
            && (r.Ok? <==> json.Ok? && json.value != [])
  {
  }

  /** The outcome of a lookup that fetched and got records back. */
  lemma RecordsOutcomeFetched(cache: map<string, ItemRecord>, barcodes: seq<string>,
                              ajax: Payload -> AjaxReply, split: TitleSplit)
    requires Uncached(cache, barcodes) != []
    requires RecordsOutcome(cache, barcodes, ajax, split).0.Ok?
    ensures var json := Collected(Chunked(Uncached(cache, barcodes), ChunkSize), ajax);
            && json.Ok?
            && RecordsOutcome(cache, barcodes, ajax, split).0.value == CachedPart(cache, barcodes) + Filled(json.value, split)
            && RecordsOutcome(cache, barcodes, ajax, split).1 == CacheWith(cache, Filled(json.value, split))
  {
  }

  /** A successful lookup returns the cached records of the input first, in
      input order, then one record per fetched JSON record in the order the
      service sent them. */
  lemma RecordsOrder(cache: map<string, ItemRecord>, barcodes: seq<string>,
                     ajax: Payload -> AjaxReply, split: TitleSplit)
    requires Uncached(cache, barcodes) != []
    requires RecordsOutcome(cache, barcodes, ajax, split).0.Ok?
    ensures var json := Collected(Chunked(Uncached(cache, barcodes), ChunkSize), ajax).value;
            var r := RecordsOutcome(cache, barcodes, ajax, split).0.value;
            var k := |CachedPart(cache, barcodes)|;
            && |r| == k + |json|
            && r[..k] == CachedPart(cache, barcodes)
            && r[k..] == Filled(json, split)
  {
    var json := Collected(Chunked(Uncached(cache, barcodes), ChunkSize), ajax);
    RecordsOutcomeFetched(cache, barcodes, ajax, split);
    var r := RecordsOutcome(cache, barcodes, ajax, split).0.value;
    var cached := CachedPart(cache, barcodes);
    assert r == cached + Filled(json.value, split);
    assert r[..|cached|] == cached;
    assert r[|cached|..] == Filled(json.value, split);
  }

  /** After a successful lookup every fetched record is cached under its own
      barcode (the last of equal barcodes wins), and every entry no fetched
      record replaces is unchanged. */
  lemma RecordsCacheFetched(cache: map<string, ItemRecord>, barcodes: seq<string>,
                            ajax: Payload -> AjaxReply, split: TitleSplit)
    requires Uncached(cache, barcodes) != []
    requires RecordsOutcome(cache, barcodes, ajax, split).0.Ok?
    ensures var json := Collected(Chunked(Uncached(cache, barcodes), ChunkSize), ajax).value;
            var c := RecordsOutcome(cache, barcodes, ajax, split).1;
            && (forall i :: 0 <= i < |json| && LastOfItsBarcode(json, i) ==>
                  json[i].barcode in c && c[json[i].barcode] == FilledRecord(json[i], split))
            && (forall b :: b in cache && (forall i :: 0 <= i < |json| ==> json[i].barcode != b) ==>
                  b in c && c[b] == cache[b])
  {
    var json := Collected(Chunked(Uncached(cache, barcodes), ChunkSize), ajax);
    RecordsOutcomeFetched(cache, barcodes, ajax, split);
    CacheFilled(cache, json.value, split);
  }

  lemma CacheFilled(cache: map<string, ItemRecord>, json: seq<JsonRecord>, split: TitleSplit)
    ensures forall i :: 0 <= i < |json| && LastOfItsBarcode(json, i) ==>
              var c := CacheWith(cache, Filled(json, split));
              json[i].barcode in c && c[json[i].barcode] == FilledRecord(json[i], split)
    ensures forall b :: b in cache && (forall i :: 0 <= i < |json| ==> json[i].barcode != b) ==>
              var c := CacheWith(cache, Filled(json, split));
              b in c && c[b] == cache[b]
  {
    var recs := Filled(json, split);
    CacheWithContents(cache, recs);
    forall i | 0 <= i < |json| && LastOfItsBarcode(json, i)
      ensures forall j :: i < j < |recs| ==> recs[j].itemBarcode != recs[i].itemBarcode
    {
    }
  }

  /** Records of the service's answer are looked up again without a fetch:
      after a successful lookup every input barcode is cached exactly when it
      was cached before or came back from the service. */
  lemma RecordsCacheKeys(cache: map<string, ItemRecord>, barcodes: seq<string>,
                         ajax: Payload -> AjaxReply, split: TitleSplit)
    requires RecordsOutcome(cache, barcodes, ajax, split).0.Ok?
    ensures var json := Collected(Chunked(Uncached(cache, barcodes), ChunkSize), ajax);
            var c := RecordsOutcome(cache, barcodes, ajax, split).1;
            forall b :: b in c <==> b in cache || (json.Ok? && exists i :: 0 <= i < |json.value| && json.value[i].barcode == b)
  {
    var json := Collected(Chunked(Uncached(cache, barcodes), ChunkSize), ajax);
    if Uncached(cache, barcodes) != [] {
      var recs := Filled(json.value, split);
      CacheWithContents(cache, recs);
      forall b | b in CacheWith(cache, recs) && b !in cache
        ensures exists i :: 0 <= i < |json.value| && json.value[i].barcode == b
      {
        var i :| 0 <= i < |recs| && recs[i].itemBarcode == b;
        assert json.value[i].barcode == b;
      }
      forall b | exists i :: 0 <= i < |json.value| && json.value[i].barcode == b
        ensures b in CacheWith(cache, recs)
      {
        var i :| 0 <= i < |json.value| && json.value[i].barcode == b;
        assert recs[i].itemBarcode == b;
      }
    }
  }

  // ---------------------------------------------------------------------------
  // _tind_holdings

  /** One copy of an item: `Holding(barcode, copy, status, location)`. */
  datatype Holding = Holding(barcode: string, copy: string, status: string, location: string)

  /** The cells of one row of an HTML table. */
  type Row = seq<string>

  /** What fetching a holdings page gives: the error `net` reported, the page
      text, and the page's tables as rows of cell texts (the HTML parser is
      not modelled). */
  datatype HoldingsPage = HoldingsPage(error: Option<ErrorKind>, content: string, tables: seq<seq<Row>>)

  const NoCopies: string := "This record has no copies."

  /** The copies listed by the body rows of a holdings table: barcode from
      cell 9, copy from cell 4, status from cell 7 and location from cell 3;
      a row with fewer than ten cells raises IndexError. */
  function RowsToHoldings(rows: seq<Row>): Result<seq<Holding>>
  {
    if forall i :: 0 <= i < |rows| ==> |rows[i]| >= 10 then
      Ok(seq(|rows|, i requires 0 <= i < |rows| && |rows[i]| >= 10 =>
               Holding(rows[i][9], rows[i][4], rows[i][7], rows[i][3])))
    else Err(IndexError)
  }

  /** What `_tind_holdings` makes of a page. */
  function HoldingsResult(page: HoldingsPage): Result<seq<Holding>>
  {
    if page.error == Some(NoContent) then Ok([])
    else if page.error.Some? then Err(page.error.value)
    else if page.content == "" || Find(page.content, NoCopies) >= 0 then Ok([])
    else if |page.tables| < 2 then Ok([])
    else
      var rows := page.tables[1];
      RowsToHoldings(if rows == [] then [] else rows[1..])
  }

  /** No copies are reported for a "no content" answer, an empty page, a page
      saying so, or a page without a second table; any other network error
      is passed on; otherwise one copy per body row of the second table. */
  lemma HoldingsPageCases(page: HoldingsPage)
    ensures page.error == Some(NoContent) ==> HoldingsResult(page) == Ok([])
    ensures page.error.Some? && page.error != Some(NoContent) ==> HoldingsResult(page) == Err(page.error.value)
    ensures page.error.None? && page.content == "" ==> HoldingsResult(page) == Ok([])
    ensures page.error.None? && Contains(page.content, NoCopies) ==> HoldingsResult(page) == Ok([])
    ensures page.error.None? && |page.tables| < 2 ==> HoldingsResult(page) == Ok([])
    ensures page.error.None? && page.content != "" && !Contains(page.content, NoCopies) && |page.tables| >= 2 ==>
              var rows := page.tables[1];
              && (HoldingsResult(page).Ok? <==> forall i :: 1 <= i < |rows| ==> |rows[i]| >= 10)
              && (HoldingsResult(page).Ok? ==>
                    |HoldingsResult(page).value| == if rows == [] then 0 else |rows| - 1)
              && (HoldingsResult(page).Err? ==> HoldingsResult(page) == Err(IndexError))
  {
    if page.error.None? && page.content != "" && !Contains(page.content, NoCopies) && |page.tables| >= 2 {
      var rows := page.tables[1];
      if rows != [] {
        var body := rows[1..];
        assert forall i :: 1 <= i < |rows| ==> rows[i] == body[i - 1];
      }
    }
  }

  /** `_tind_holdings`: scrapes the copies off one holdings page. */
  method TindHoldings(page: HoldingsPage) returns (r: Result<seq<Holding>>)
    ensures r == HoldingsResult(page)
  {
    if page.error == Some(NoContent) {
      return Ok([]);
    } else if page.error.Some? {
      return Err(page.error.value);
    }
    if page.content == "" || Find(page.content, NoCopies) >= 0 {
      return Ok([]);
    }
    var holdings: seq<Holding> := [];
    if |page.tables| >= 2 {
      var rows := page.tables[1];
      var body := if rows == [] then [] else rows[1..];
      var i := 0;
      while i < |body|
        invariant 0 <= i <= |body| && |holdings| == i
        invariant forall j :: 0 <= j < i ==> |body[j]| >= 10
        invariant forall j :: 0 <= j < i ==> holdings[j] == Holding(body[j][9], body[j][4], body[j][7], body[j][3])
      {
        var columns := body[i];
        if |columns| < 10 {
          assert !(|body[i]| >= 10);
          return Err(IndexError);
        }
        holdings := holdings + [Holding(columns[9], columns[4], columns[7], columns[3])];
        i := i + 1;
      }
      assert holdings == seq(|body|, j requires 0 <= j < |body| && |body[j]| >= 10 =>
                               Holding(body[j][9], body[j][4], body[j][7], body[j][3]));
    }
    r := Ok(holdings);
  }

  /** `{id: cache[id] for id in ids if id in cache}`. */
  function CachedOnly(cache: map<string, seq<Holding>>, ids: seq<string>): map<string, seq<Holding>>
  {
    map id | id in ids && id in cache :: cache[id]
  }

  /** The first position in `toGet` whose page fails, or |toGet|. */
  function FirstFailure(toGet: seq<string>, fetch: string -> Result<seq<Holding>>): (k: nat)
    ensures k <= |toGet|
    ensures forall j :: 0 <= j < k ==> fetch(toGet[j]).Ok?
    ensures k < |toGet| ==> fetch(toGet[k]).Err?
  {
    if toGet == [] || fetch(toGet[0]).Err? then 0
    else 1 + FirstFailure(toGet[1..], fetch)
  }

  /** The holdings fetched for a run of ids that all succeed, by id. */
  function Looked(ids: seq<string>, fetch: string -> Result<seq<Holding>>): (m: map<string, seq<Holding>>)
    requires forall j :: 0 <= j < |ids| ==> fetch(ids[j]).Ok?
    ensures forall id :: id in m <==> id in ids
    ensures forall id :: id in m ==> m[id] == fetch(id).value
  {
    if ids == [] then map[]
    else Looked(ids[..|ids| - 1], fetch)[ids[|ids| - 1] := fetch(ids[|ids| - 1]).value]
  }

  /** What `holdings(ids)` returns, the holdings cache afterwards, and the ids
      whose pages were fetched, in order. */
  function HoldingsOutcome(cache: map<string, seq<Holding>>, ids: seq<string>, fetch: string -> Result<seq<Holding>>)
    : (Result<map<string, seq<Holding>>>, map<string, seq<Holding>>, seq<string>)
  {
    var toGet := Uncached(cache, ids);
    var k := FirstFailure(toGet, fetch);
    var stored := cache + Looked(toGet[..k], fetch);
    if k < |toGet| then (Err(fetch(toGet[k]).error), stored, toGet[..k + 1])
    else (Ok(CachedOnly(cache, ids) + Looked(toGet, fetch)), stored, toGet)
  }

  /** A successful `holdings(ids)` fetched every uncached id. */
  lemma HoldingsOutcomeOk(cache: map<string, seq<Holding>>, ids: seq<string>,
                          fetch: string -> Result<seq<Holding>>)
    requires HoldingsOutcome(cache, ids, fetch).0.Ok?
    ensures forall j :: 0 <= j < |Uncached(cache, ids)| ==> fetch(Uncached(cache, ids)[j]).Ok?
    ensures var toGet := Uncached(cache, ids);
            HoldingsOutcome(cache, ids, fetch)
            == (Ok(CachedOnly(cache, ids) + Looked(toGet, fetch)), cache + Looked(toGet, fetch), toGet)
  {
    var toGet := Uncached(cache, ids);
    assert FirstFailure(toGet, fetch) == |toGet|;
    assert toGet[..|toGet|] == toGet;
  }

  /** A failed `holdings(ids)` stopped at the first failing uncached id. */
  lemma HoldingsOutcomeErr(cache: map<string, seq<Holding>>, ids: seq<string>,
                           fetch: string -> Result<seq<Holding>>)
    requires HoldingsOutcome(cache, ids, fetch).0.Err?
    ensures var toGet, k := Uncached(cache, ids), FirstFailure(Uncached(cache, ids), fetch);
            && k < |toGet|
            && HoldingsOutcome(cache, ids, fetch)
               == (Err(fetch(toGet[k]).error), cache + Looked(toGet[..k], fetch), toGet[..k + 1])
  {
  }

  /** A successful `holdings(ids)` has exactly the given ids as keys, each
      with its cached holdings or else its freshly scraped ones; only the
      uncached ids were fetched (an id listed twice is fetched twice); every
      given id is cached afterwards with the value returned, and the entries
      that were cached are unchanged. */
  lemma {:induction false} HoldingsSucceeded(cache: map<string, seq<Holding>>, ids: seq<string>,
                                             fetch: string -> Result<seq<Holding>>)
    requires HoldingsOutcome(cache, ids, fetch).0.Ok?
    ensures var o := HoldingsOutcome(cache, ids, fetch);
            var r, c, fetched := o.0.value, o.1, o.2;
            && (forall id :: id in r <==> id in ids)
            && (forall id :: id in ids ==>
                  r[id] == (if id in cache then cache[id] else fetch(id).value))
            && fetched == Uncached(cache, ids)
            && (forall id :: id in fetched <==> id in ids && id !in cache)
            && (forall id :: id in ids ==> id in c && c[id] == r[id])
            && (forall id :: id in cache ==> id in c && c[id] == cache[id])
  {
    HoldingsOutcomeOk(cache, ids, fetch);
    UncachedMembers(cache, ids);
    var toGet := Uncached(cache, ids);
    var looked := Looked(toGet, fetch);
    var r := CachedOnly(cache, ids) + looked;
    var c := cache + looked;
    forall id | id in ids
      ensures r[id] == (if id in cache then cache[id] else fetch(id).value)
      ensures id in c && c[id] == r[id]
    {
      if id in cache {
        assert id !in looked;
      } else {
        assert id in toGet;
      }
    }
    forall id | id in cache
      ensures id in c && c[id] == cache[id]
    {
      assert id !in toGet;
    }
    forall id
      ensures id in r <==> id in ids
    {
      if id in ids && id !in cache {
        assert id in toGet;
      }
    }
    ghost var o := HoldingsOutcome(cache, ids, fetch);
    assert o.0.value == r && o.1 == c && o.2 == toGet;
    assert forall id :: id in o.0.value <==> id in ids;
    assert forall id :: id in ids ==> o.0.value[id] == (if id in cache then cache[id] else fetch(id).value);
    assert forall id :: id in ids ==> id in o.1 && o.1[id] == o.0.value[id];
    assert forall id :: id in cache ==> id in o.1 && o.1[id] == cache[id];
  }

  /** A failed `holdings(ids)` fetches a prefix of the uncached ids and raises
      the error of the last one fetched; the entries that were cached are
      unchanged. */
  lemma {:induction false} HoldingsFailed(cache: map<string, seq<Holding>>, ids: seq<string>,
                                          fetch: string -> Result<seq<Holding>>)
    requires HoldingsOutcome(cache, ids, fetch).0.Err?
    ensures var (r, c, fetched) := HoldingsOutcome(cache, ids, fetch);
            && fetched != [] && |fetched| <= |Uncached(cache, ids)| && fetched == Uncached(cache, ids)[..|fetched|]
            && r == Err(fetch(fetched[|fetched| - 1]).error)
            && (forall id :: id in cache ==> id in c && c[id] == cache[id])
  {
    HoldingsOutcomeErr(cache, ids, fetch);
    UncachedMembers(cache, ids);
  }

  /** After a failed `holdings(ids)`, every id fetched before the failing one
      is cached with its scraped holdings, and the failing one is not. The
      last part rests on `fetch` answering an id the same way each time. */
  lemma {:induction false} HoldingsFailedKeepsEarlier(cache: map<string, seq<Holding>>, ids: seq<string>,
                                                      fetch: string -> Result<seq<Holding>>)
    requires HoldingsOutcome(cache, ids, fetch).0.Err?
    ensures var (r, c, fetched) := HoldingsOutcome(cache, ids, fetch);
            && fetched != [] && fetched[|fetched| - 1] !in c
            && (forall j :: 0 <= j < |fetched| - 1 ==>
                  fetched[j] in c && c[fetched[j]] == fetch(fetched[j]).value)
  {
    HoldingsOutcomeErr(cache, ids, fetch);
    UncachedMembers(cache, ids);
    var toGet := Uncached(cache, ids);
    var k := FirstFailure(toGet, fetch);
    var fetched := toGet[..k + 1];
    var last := toGet[k];
    assert last in toGet;
    forall j | 0 <= j < k
      ensures toGet[j] != last
    {
      assert fetch(toGet[j]).Ok?;
    }
    assert last !in toGet[..k];
    forall j | 0 <= j < |fetched| - 1
      ensures fetched[j] in toGet[..k]
    {
      assert fetched[j] == toGet[..k][j];
    }
  }

  /** An uncached id listed twice is fetched twice. */
  lemma DuplicateIdFetchedTwice(cache: map<string, seq<Holding>>, id: string, fetch: string -> Result<seq<Holding>>)
    requires id !in cache && fetch(id).Ok?
    ensures HoldingsOutcome(cache, [id, id], fetch).2 == [id, id]
  {
    var ids := [id, id];
    assert ids[..1] == [id] && ids[..0] == [];
    assert Uncached(cache, ids) == [id, id];
    assert FirstFailure([id], fetch) == 1;
  }

  /** A map with the ids as keys and their fetched holdings as values is `Looked`. */
  lemma LookedIs(m: map<string, seq<Holding>>, ids: seq<string>, fetch: string -> Result<seq<Holding>>)
    requires forall j :: 0 <= j < |ids| ==> fetch(ids[j]).Ok?
    requires forall id :: id in m <==> id in ids
    requires forall id :: id in m ==> m[id] == fetch(id).value
    ensures m == Looked(ids, fetch)
  {
  }

  lemma MergeUpdate<K, V>(a: map<K, V>, b: map<K, V>, k: K, v: V)
    ensures a + b[k := v] == (a + b)[k := v]
  {
  }

  // ---------------------------------------------------------------------------
  // The Tind object

  /** `Tind`: the record cache (by barcode) and the holdings cache (by TIND
      id). Creating one also logs in; see `TindSession`. */
  class Tind {
    var cache: map<string, ItemRecord>
    var holdingsCache: map<string, seq<Holding>>

    constructor ()
      ensures cache == map[] && holdingsCache == map[]
    {
      cache := map[];
      holdingsCache := map[];
    }

    /** `records(barcodes)`: the cached records, then the records fetched for
        the uncached barcodes, which are cached on the way. */
    method Records(barcodes: seq<string>, ajax: Payload -> AjaxReply, split: TitleSplit)
      returns (r: Result<seq<ItemRecord>>)
      modifies this
      ensures (r, cache) == RecordsOutcome(old(cache), barcodes, ajax, split)
      ensures holdingsCache == old(holdingsCache)
    {
      var results := CachedPart(cache, barcodes);
      var toGet := Uncached(cache, barcodes);
      if toGet == [] {
        return Ok(results);
      }
      var json, _ := TindJson(toGet, ajax);
      if json.Err? {
        return Err(json.error);
      }
      if json.value == [] {
        return Err(ServiceFailure);
      }
      var added := CacheRecords(json.value, split);
      results := results + added;
      r := Ok(results);
    }

    /** The loop of `records`: fills in one record per JSON record and caches
        it under its barcode, in order. */
    method CacheRecords(data: seq<JsonRecord>, split: TitleSplit) returns (added: seq<ItemRecord>)
      modifies this
      ensures added == Filled(data, split)
      ensures cache == CacheWith(old(cache), added)
      ensures holdingsCache == old(holdingsCache)
    {
      added := [];
      var i := 0;
      while i < |data|
        invariant 0 <= i <= |data|
        invariant added == Filled(data[..i], split)
        invariant cache == CacheWith(old(cache), added)
        invariant holdingsCache == old(holdingsCache)
      {
        var record := FilledRecord(data[i], split);
        assert data[..i + 1][..i] == data[..i];
        var next := added + [record];
        assert next[..|next| - 1] == added;
        cache := cache[record.itemBarcode := record];
        added := next;
        i := i + 1;
      }
      assert data[..i] == data;
    }

    /** `holdings(ids)`: the cached holdings, then one `_tind_holdings` call
        per uncached id, each result cached as soon as it arrives; the first
        failure is raised. `fetch(id)` is what `_tind_holdings` gives for the
        id (`TindHoldings` of its page), and `fetched` lists the ids asked
        for, in order. */
    method Holdings(ids: seq<string>, fetch: string -> Result<seq<Holding>>)
      returns (r: Result<map<string, seq<Holding>>>, fetched: seq<string>)
      modifies this
      ensures (r, holdingsCache, fetched) == HoldingsOutcome(old(holdingsCache), ids, fetch)
      ensures cache == old(cache)
    {
      var results := CachedOnly(holdingsCache, ids);
      var toGet := Uncached(holdingsCache, ids);
      var found, error;
      found, fetched, error := FetchHoldings(toGet, fetch);
      if error.Some? {
        return Err(error.value), fetched;
      }
      assert toGet[..|toGet|] == toGet;
      r := Ok(results + found);
    }

    /** The loop of `holdings`: fetches the ids in turn, caching each result,
        and stops at the first failure, whose error it reports. */
    method FetchHoldings(toGet: seq<string>, fetch: string -> Result<seq<Holding>>)
      returns (found: map<string, seq<Holding>>, fetched: seq<string>, error: Option<ErrorKind>)
      modifies this
      ensures var k := FirstFailure(toGet, fetch);
              && found == Looked(toGet[..k], fetch)
              && holdingsCache == old(holdingsCache) + found
              && (k < |toGet| ==> fetched == toGet[..k + 1] && error == Some(fetch(toGet[k]).error))
              && (k == |toGet| ==> fetched == toGet && error == None)
      ensures cache == old(cache)
    {
      ghost var k := FirstFailure(toGet, fetch);
      found := map[];
      fetched := [];
      var i := 0;
      while i < |toGet|
        invariant 0 <= i <= k && fetched == toGet[..i]
        invariant forall id :: id in found <==> id in toGet[..i]
        invariant forall id :: id in found ==> found[id] == fetch(id).value
        invariant holdingsCache == old(holdingsCache) + found
        invariant cache == old(cache)
      {
        var id := toGet[i];
        fetched := fetched + [id];
        var h := fetch(id);
        assert toGet[..i + 1] == toGet[..i] + [id];
        if h.Err? {
          assert i == k;
          LookedIs(found, toGet[..i], fetch);
          return found, fetched, Some(h.error);
        }
        MergeUpdate(old(holdingsCache), found, id, h.value);
        found := found[id := h.value];
        holdingsCache := holdingsCache[id := h.value];
        i := i + 1;
      }
      assert toGet[..i] == toGet;
      LookedIs(found, toGet, fetch);
      error := None;
    }

    /** `_tind_session`: logs in through Shibboleth, asking `access` for
        credentials in each round, and returns the last round's session
        once the SAML form has been posted back. The remembered credentials
        of `access` and the keyring writes end up as `SessionOutcome`
        says. */
    method TindSession(access: AccessHandler, shib: ShibStep -> ShibReply,
                       keyring: nat -> (Option<string> -> KeyringEntry),
                       dialog: nat -> ((string, Option<string>, Option<string>) -> DialogAnswer),
                       confirms: seq<bool>, handshake: string -> Handshake)
      returns (r: Result<Session>, saved: seq<KeyringEntry>)
      modifies access
      ensures (r, access.user, access.pswd, saved)
              == SessionOutcome(old(access.user), old(access.pswd), access.useKeyring, shib, keyring, dialog, confirms, handshake)
    {
      ghost var total := Login(0, access.user, access.pswd, access.useKeyring, shib, keyring, dialog, confirms);
      SessionOutcomeOf(access.user, access.pswd, access.useKeyring, shib, keyring, dialog, confirms, handshake);
      saved := [];
      var round := 0;
      var content;
      ghost var rest := total;
      while true
        invariant rest == Login(round, access.user, access.pswd, access.useKeyring, shib, keyring, dialog, confirms)
        invariant total == rest.(saved := saved + rest.saved)
        decreases |confirms| - round
      {
        ghost var u, p := access.user, access.pswd;
        ghost var earlier := saved;
        var end, write := LoginAttempt(access, round, shib, keyring(round), dialog(round));
        ghost var rr := RoundResult(end, access.user, access.pswd, write);
        LoginContinues(round, u, p, access.useKeyring, shib, keyring, dialog, confirms, rr, total, earlier);
        saved := saved + Writes(write);
        if end.Aborted? {
          return Err(end.error), saved;
        } else if end.LoggedIn? {
          content := end.content;
          break;
        } else if !(round < |confirms| && confirms[round]) {
          return Err(UserCancelled), saved;
        }
        assert rr.user == access.user && rr.pswd == access.pswd && earlier + Writes(rr.saved) == saved;
        ghost var next := Login(round + 1, access.user, access.pswd, access.useKeyring, shib, keyring, dialog, confirms);
        assert total == next.(saved := saved + next.saved);
        assert 0 <= |confirms| - round;
        round := round + 1;
        rest := next;
      }
      r := HandshakeResult(handshake(content), round);
    }

    /** One pass of the login loop: the login page, the credentials from
        `access`, the two SAML steps and the success test. */
    method LoginAttempt(access: AccessHandler, round: nat, shib: ShibStep -> ShibReply,
                        keyring: Option<string> -> KeyringEntry,
                        dialog: (string, Option<string>, Option<string>) -> DialogAnswer)
      returns (end: RoundEnd, write: Option<KeyringEntry>)
      modifies access
      ensures RoundResult(end, access.user, access.pswd, write)
              == LoginRound(round, old(access.user), old(access.pswd), access.useKeyring, shib, keyring, dialog)
    {
      write := None;
      var page := TindRequest(shib(LoginPage(round)));
      if page.Err? {
        return Aborted(page.error), write;
      }
      var user, pswd, cancel;
      user, pswd, cancel, write := access.NameAndPassword(DialogTitle, None, None, keyring, dialog);
      if cancel {
        return Aborted(UserCancelled), write;
      }
      if !Truthy(user) || !Truthy(pswd) {
        return Aborted(UserCancelled), write;
      }
      var step1 := TindRequest(shib(SamlStep1(round, user.value, pswd.value)));
      if step1.Err? {
        return Aborted(step1.error), write;
      }
      var step2 := TindRequest(shib(SamlStep2(round, user.value, pswd.value)));
      if step2.Err? {
        return Aborted(step2.error), write;
      }
      if LoginSucceeded(step2.value) {
        end := LoggedIn(step2.value);
      } else {
        end := Rejected;
      }
    }
  }
}
