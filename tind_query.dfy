/** The catalog search of checkit/tind.py: cutting the barcode list into
    chunks (`grouper`), turning a chunk into a search expression and an AJAX
    payload, checking the service's JSON reply (`_tind_ajax`) and collecting
    the replies chunk by chunk (`_tind_json`). The AJAX call itself is an
    oracle from payload to reply. */
module TindQuery {
  import opened Errors
  import opened PyStr

  /** Barcodes per search request: the service refuses OR expressions of
      more than about 1024 terms. */
  const ChunkSize: nat := 1000

  // ---------------------------------------------------------------------------
  // grouper

  /** The chunks `grouper(xs, n)` yields: consecutive slices of n elements,
      the last one possibly shorter. With n == 0 the first slice is empty and
      nothing is yielded. */
  function Chunked<T>(xs: seq<T>, n: nat): seq<seq<T>>
    decreases |xs|
  {
    if n == 0 || xs == [] then []
    else if |xs| <= n then [xs]
    else [xs[..n]] + Chunked(xs[n..], n)
  }

  function Flatten<T>(xss: seq<seq<T>>): seq<T>
  {
    if xss == [] then [] else xss[0] + Flatten(xss[1..])
  }

  /** For n > 0: the chunks are non-empty, at most n long, all but the last
      exactly n long, there are ceil(|xs| / n) of them (the fewest chunks of n
      that hold |xs| elements), and together they are `xs` again. */
  lemma {:induction false} ChunkedShape<T>(xs: seq<T>, n: nat)
    requires n > 0
    ensures var c := Chunked(xs, n);
            && Flatten(c) == xs
            && (c == [] <==> xs == [])
            && (forall i :: 0 <= i < |c| ==> 0 < |c[i]| <= n)
            && (forall i :: 0 <= i < |c| - 1 ==> |c[i]| == n)
            && (|c| - 1) * n < |xs| <= |c| * n
    decreases |xs|
  {
    var c := Chunked(xs, n);
    if xs == [] {
    } else if |xs| <= n {
      assert Flatten(c) == xs + Flatten([]);
      assert (|c| - 1) * n == 0 && |c| * n == n;
    } else {
      var rest := Chunked(xs[n..], n);
      ChunkedShape(xs[n..], n);
      assert c == [xs[..n]] + rest;
      assert c[1..] == rest;
      assert forall i :: 1 <= i < |c| ==> c[i] == rest[i - 1];
      assert xs == xs[..n] + xs[n..];
      assert (|rest| - 1) * n == |rest| * n - n;
      assert |c| * n == |rest| * n + n;
    }
  }

  /** 2500 barcodes make exactly three requests of at most 1000 barcodes. */
  lemma TwentyFiveHundredBarcodes(xs: seq<string>)
    requires |xs| == 2500
    ensures |Chunked(xs, ChunkSize)| == 3
    ensures forall i :: 0 <= i < 3 ==> 0 < |Chunked(xs, ChunkSize)[i]| <= ChunkSize
  {
    ChunkedShape(xs, ChunkSize);
  }

  /** `grouper`: slices `xs` into chunks of `n` until a slice comes out empty. */
  method Grouper<T>(xs: seq<T>, n: nat) returns (chunks: seq<seq<T>>)
    ensures chunks == Chunked(xs, n)
  {
    chunks := [];
    var pos := 0;
    while true
      invariant 0 <= pos <= |xs|
      invariant chunks + Chunked(xs[pos..], n) == Chunked(xs, n)
      decreases |xs| - pos
    {
      var end := if pos + n <= |xs| then pos + n else |xs|;
      var chunk := xs[pos..end];
      if chunk == [] {
        return;
      }
      var rest := xs[pos..];
      if |rest| > n {
        assert rest[..n] == chunk && rest[n..] == xs[end..];
      } else {
        assert rest == chunk && xs[end..] == [];
      }
      assert Chunked(rest, n) == [chunk] + Chunked(xs[end..], n);
      assert chunks + Chunked(rest, n) == (chunks + [chunk]) + Chunked(xs[end..], n);
      chunks := chunks + [chunk];
      pos := end;
    }
  }

  // ---------------------------------------------------------------------------
  // Search expression and payload

  /** One chunk's search expression: the bare code for a chunk of one,
      otherwise the codes joined by " OR " in parentheses. */
  function SearchExpr(codes: seq<string>): string
  {
    if |codes| == 1 then codes[0] else "(" + Join(" OR ", codes) + ")"
  }

  /** Python's `s.split(sep)` for a non-empty separator. */
  function SplitOn(s: string, sep: string): seq<string>
    requires sep != ""
    decreases |s|
  {
    var k := Find(s, sep);
    if k < 0 then [s] else [s[..k]] + SplitOn(s[k + |sep|..], sep)
  }

  /** How a search expression names its codes: a parenthesised expression is
      split at " OR ", anything else is one code. */
  function Disjuncts(expr: string): seq<string>
  {
    if |expr| >= 2 && expr[0] == '(' && expr[|expr| - 1] == ')' then SplitOn(expr[1..|expr| - 1], " OR ")
    else [expr]
  }

  /** The codes may be joined safely: none holds a space or a '('. */
  predicate PlainCodes(codes: seq<string>)
  {
    forall i :: 0 <= i < |codes| ==> ' ' !in codes[i] && '(' !in codes[i]
  }

  lemma NoSpaceNoSeparator(x: string, rest: string)
    requires ' ' !in x
    ensures forall j :: 0 <= j < |x| ==> !OccursAt(x + rest, " OR ", j)
  {
    forall j | 0 <= j < |x|
      ensures !OccursAt(x + rest, " OR ", j)
    {
      assert (x + rest)[j] == x[j];
      if j + 4 <= |x + rest| {
        assert (x + rest)[j..j + 4][0] == x[j];
      }
    }
  }

  /** Splitting a join of space-free codes at " OR " gives the codes back. */
  lemma {:induction false} SplitJoin(codes: seq<string>)
    requires codes != [] && PlainCodes(codes)
    ensures SplitOn(Join(" OR ", codes), " OR ") == codes
    decreases |codes|
  {
    var x := codes[0];
    if |codes| == 1 {
      NoSpaceNoSeparator(x, "");
      assert x + "" == x;
      assert !Contains(x, " OR ");
    } else {
      var rest := Join(" OR ", codes[1..]);
      var s := x + " OR " + rest;
      assert Join(" OR ", codes) == s;
      assert s == x + (" OR " + rest);
      NoSpaceNoSeparator(x, " OR " + rest);
      assert OccursAt(s, " OR ", |x|);
      var k := Find(s, " OR ");
      assert k == |x|;
      assert s[..k] == x;
      assert s[k + 4..] == rest;
      SplitJoin(codes[1..]);
      assert codes == [x] + codes[1..];
    }
  }

  /** The search expression of a non-empty chunk of plain codes names exactly
      those codes, in order. */
  lemma {:induction false} SearchExprNamesItsCodes(codes: seq<string>)
    requires codes != [] && PlainCodes(codes)
    ensures Disjuncts(SearchExpr(codes)) == codes
  {
    if |codes| == 1 {
      assert codes[0] == "" || codes[0][0] != '(';
    } else {
      var e := SearchExpr(codes);
      assert e[1..|e| - 1] == Join(" OR ", codes);
      SplitJoin(codes);
    }
  }

  datatype Column = Column(data: string, name: string, searchable: bool, orderable: bool,
                           searchValue: string, searchRegex: bool)

  datatype SortOrder = SortOrder(column: nat, dir: string)

  /** The JSON body of a search request. */
  datatype Payload = Payload(columns: seq<Column>, order: seq<SortOrder>, searchRegex: bool,
                             searchValue: string, length: nat, draw: nat, start: nat,
                             tableName: string)

  /** `_tind_ajax_payload(field, expr)`. */
  function AjaxPayload(field: string, expr: string): Payload
  {
    Payload([Column(field, field, true, true, "", false)], [SortOrder(0, "asc")], false,
            field + ":" + expr, 1000, 1, 0, "crcITEM")
  }

  /** The payload `_tind_json` sends for one chunk. */
  function ChunkPayload(codes: seq<string>): Payload
  {
    AjaxPayload("barcode", SearchExpr(codes))
  }

  /** A chunk's payload searches the barcode field for exactly the chunk's
      codes, sorted ascending on that field, with a page long enough for the
      whole chunk (so the default page size cannot truncate the result). */
  lemma {:induction false} ChunkPayloadSearchesChunk(codes: seq<string>)
    requires codes != [] && PlainCodes(codes) && |codes| <= ChunkSize
    ensures var p := ChunkPayload(codes);
            && StartsWith(p.searchValue, "barcode:")
            && Disjuncts(p.searchValue[|"barcode:"|..]) == codes
            && p.length >= |codes|
            && |p.order| == 1 && p.order[0].dir == "asc" && p.order[0].column < |p.columns|
            && p.columns[p.order[0].column].data == "barcode"
  {
    var p := ChunkPayload(codes);
    assert p.searchValue[|"barcode:"|..] == SearchExpr(codes);
    SearchExprNamesItsCodes(codes);
  }

  // ---------------------------------------------------------------------------
  // _tind_ajax and _tind_json

  /** One item record in the service's JSON reply, the keys `filled_record`
      reads. All values are taken as strings. */
  datatype JsonRecord = JsonRecord(
    barcode: string,
    title: string,
    idBibrec: string,
    callNo: string,
    description: string,
    locationName: string,
    locationCode: string,
    status: string,
    loanPeriod: string,
    itemType: string,
    numberOfRequests: string,
    creationDate: string,
    modificationDate: string,
    linksBarcode: string)

  /** What the AJAX call gives back: the error `net` reported, if any, and the
      decoded JSON object (None for a missing key). */
  datatype AjaxReply = AjaxReply(error: Option<ErrorKind>, recordsTotal: Option<int>,
                                 data: Option<seq<JsonRecord>>)

  /** `_tind_ajax`: the records of one reply, or the exception it raises. */
  function TindAjax(reply: AjaxReply): Result<seq<JsonRecord>>
  {
    if reply.error == Some(NoContent) then Ok([])
    else if reply.error.Some? then Err(reply.error.value)
    else if reply.recordsTotal.None? || reply.data.None? then Err(InternalError)
    else if |reply.data.value| != reply.recordsTotal.value then Err(ServiceFailure)
    else Ok(reply.data.value)
  }

  /** A "no content" reply means no matches; any other error is passed on; a
      reply without `recordsTotal` or `data` is an internal error; and the
      records come back unchanged exactly when there are as many as the reply
      announces, a ServiceFailure otherwise. */
  lemma AjaxReplyHandling(reply: AjaxReply)
    ensures reply.error == Some(NoContent) ==> TindAjax(reply) == Ok([])
    ensures reply.error.Some? && reply.error != Some(NoContent) ==> TindAjax(reply) == Err(reply.error.value)
    ensures reply.error.None? && (reply.recordsTotal.None? || reply.data.None?) ==>
              TindAjax(reply) == Err(InternalError)
    ensures reply.error.None? && reply.recordsTotal.Some? && reply.data.Some? ==>
              (TindAjax(reply) == Ok(reply.data.value) <==> |reply.data.value| == reply.recordsTotal.value)
              && (TindAjax(reply) == Err(ServiceFailure) <==> |reply.data.value| != reply.recordsTotal.value)
  {
  }

  /** The service's example: a reply announcing 5 records but carrying 4 is a
      ServiceFailure. */
  lemma CountMismatchFails(data: seq<JsonRecord>)
    requires |data| == 4
    ensures TindAjax(AjaxReply(None, Some(5), Some(data))) == Err(ServiceFailure)
  {
  }

  /** The reply to one chunk's request. */
  function ChunkReply(codes: seq<string>, ajax: Payload -> AjaxReply): Result<seq<JsonRecord>>
  {
    TindAjax(ajax(ChunkPayload(codes)))
  }

  /** What `_tind_json` makes of the chunks: their records concatenated in
      chunk order, or the first chunk's failure. */
  function Collected(chunks: seq<seq<string>>, ajax: Payload -> AjaxReply): Result<seq<JsonRecord>>
    decreases |chunks|
  {
    if chunks == [] then Ok([])
    else Then(Collected(chunks[..|chunks| - 1], ajax), ChunkReply(chunks[|chunks| - 1], ajax))
  }

  /** `data += reply`: the first failure wins. */
  function Then(sofar: Result<seq<JsonRecord>>, reply: Result<seq<JsonRecord>>): Result<seq<JsonRecord>>
  {
    if sofar.Err? then sofar
    else if reply.Err? then Err(reply.error)
    else Ok(sofar.value + reply.value)
  }

  /** Collection succeeds exactly when every chunk's reply is good. */
  lemma {:induction false} CollectedOkIff(chunks: seq<seq<string>>, ajax: Payload -> AjaxReply)
    ensures Collected(chunks, ajax).Ok? <==> forall i :: 0 <= i < |chunks| ==> ChunkReply(chunks[i], ajax).Ok?
    decreases |chunks|
  {
    if chunks != [] {
      var init := chunks[..|chunks| - 1];
      CollectedOkIff(init, ajax);
      assert forall i :: 0 <= i < |init| ==> init[i] == chunks[i];
    }
  }

  /** A failed collection reports the error of the first chunk that failed. */
  lemma {:induction false} CollectedErrIsFirstFailure(chunks: seq<seq<string>>, ajax: Payload -> AjaxReply)
    requires Collected(chunks, ajax).Err?
    ensures exists i :: 0 <= i < |chunks| && ChunkReply(chunks[i], ajax) == Collected(chunks, ajax)
                        && forall j :: 0 <= j < i ==> ChunkReply(chunks[j], ajax).Ok?
    decreases |chunks|
  {
    var init := chunks[..|chunks| - 1];
    assert forall i :: 0 <= i < |init| ==> init[i] == chunks[i];
    if Collected(init, ajax).Err? {
      CollectedErrIsFirstFailure(init, ajax);
    } else {
      CollectedOkIff(init, ajax);
      var i := |chunks| - 1;
      assert ChunkReply(chunks[i], ajax) == Collected(chunks, ajax);
    }
  }

  /** Collecting two runs of chunks one after the other concatenates their
      records in that order. */
  lemma {:induction false} CollectedAppend(a: seq<seq<string>>, b: seq<seq<string>>, ajax: Payload -> AjaxReply)
    requires Collected(a, ajax).Ok? && Collected(b, ajax).Ok?
    ensures Collected(a + b, ajax) == Ok(Collected(a, ajax).value + Collected(b, ajax).value)
    decreases |b|
  {
    if b == [] {
      assert a + b == a;
      assert Collected(a, ajax).value + [] == Collected(a, ajax).value;
    } else {
      var b0 := b[..|b| - 1];
      assert (a + b)[..|a + b| - 1] == a + b0;
      assert (a + b)[|a + b| - 1] == b[|b| - 1];
      var last := ChunkReply(b[|b| - 1], ajax);
      assert Collected(b, ajax) == Then(Collected(b0, ajax), last);
      assert Collected(a + b, ajax) == Then(Collected(a + b0, ajax), last);
      assert Collected(b0, ajax).Ok? && last.Ok?;
      CollectedAppend(a, b0, ajax);
      var x, y0, m := Collected(a, ajax).value, Collected(b0, ajax).value, last.value;
      assert Collected(b, ajax) == Ok(y0 + m);
      assert Collected(a + b, ajax) == Ok((x + y0) + m);
      ConcatAssoc(x, y0, m);
      assert Collected(a + b, ajax) == Ok(x + (y0 + m));
      assert Collected(b, ajax).value == y0 + m;
    }
  }

  lemma ConcatAssoc<T>(x: seq<T>, y: seq<T>, z: seq<T>)
    ensures (x + y) + z == x + (y + z)
  {
  }

  /** Once a prefix of the chunks has failed, later chunks change nothing. */
  lemma {:induction false} CollectedErrPersists(chunks: seq<seq<string>>, k: nat, ajax: Payload -> AjaxReply)
    requires k <= |chunks| && Collected(chunks[..k], ajax).Err?
    ensures Collected(chunks, ajax) == Collected(chunks[..k], ajax)
    decreases |chunks| - k
  {
    if k < |chunks| {
      var next := chunks[..k + 1];
      assert next[..|next| - 1] == chunks[..k];
      CollectedErrPersists(chunks, k + 1, ajax);
    } else {
      assert chunks[..k] == chunks;
    }
  }

  lemma CollectedStep(chunks: seq<seq<string>>, i: nat, ajax: Payload -> AjaxReply)
    requires i < |chunks|
    ensures Collected(chunks[..i + 1], ajax) == Then(Collected(chunks[..i], ajax), ChunkReply(chunks[i], ajax))
  {
    var prefix := chunks[..i + 1];
    assert prefix[..|prefix| - 1] == chunks[..i] && prefix[i] == chunks[i];
  }

  /** `_tind_json`: one request per chunk of `ChunkSize` barcodes, stopping at
      the first failure. `sent` lists the payloads in the order sent. */
  method TindJson(barcodes: seq<string>, ajax: Payload -> AjaxReply)
    returns (r: Result<seq<JsonRecord>>, sent: seq<Payload>)
    ensures r == Collected(Chunked(barcodes, ChunkSize), ajax)
    ensures |sent| <= |Chunked(barcodes, ChunkSize)|
    ensures forall i :: 0 <= i < |sent| ==> sent[i] == ChunkPayload(Chunked(barcodes, ChunkSize)[i])
    ensures r.Ok? ==> |sent| == |Chunked(barcodes, ChunkSize)|
    ensures r.Err? ==> |sent| > 0 && r == ChunkReply(Chunked(barcodes, ChunkSize)[|sent| - 1], ajax)
  {
    var chunks := Grouper(barcodes, ChunkSize);
    var data: seq<JsonRecord> := [];
    sent := [];
    var i := 0;
    while i < |chunks|
      invariant 0 <= i <= |chunks| && |sent| == i
      invariant forall j :: 0 <= j < i ==> sent[j] == ChunkPayload(chunks[j])
      invariant Collected(chunks[..i], ajax) == Ok(data)
    {
      var codes := chunks[i];
      var searchExpr := SearchExpr(codes);
      var payload := AjaxPayload("barcode", searchExpr);
      sent := sent + [payload];
      assert forall j :: 0 <= j <= i ==> sent[j] == ChunkPayload(chunks[j]);
      var reply := TindAjax(ajax(payload));
      assert reply == ChunkReply(chunks[i], ajax);
      CollectedStep(chunks, i, ajax);
      if reply.Err? {
        assert Collected(chunks[..i + 1], ajax) == reply;
        CollectedErrPersists(chunks, i + 1, ajax);
        r := reply;
        return;
      }
      assert Collected(chunks[..i + 1], ajax) == Ok(data + reply.value);
      data := data + reply.value;
      i := i + 1;
    }
    assert chunks[..i] == chunks;
    r := Ok(data);
  }
}
