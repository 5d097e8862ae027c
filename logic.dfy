/** The trend clients of trendstory/logic.py: the scraped Google Trends
    endpoint (request body, line scan with two-level JSON decoding, term
    extraction, de-duplication and truncation) and the post-processing of
    the two YouTube Data API responses.

    Network calls and `json.loads` are parameters: `post` stands for
    `session.post(...)`, `decode` for `json.loads` (None when it raises),
    `execute` for a YouTube request's `.execute()`. */
module Logic {
  import opened PyValues
  import opened PyStrings
  import opened PyLists

  // =====================================================================
  // get_google_trends_api: the request

  const TrendsUrl := "https://trends.google.com/_/TrendsUi/data/batchexecute"
  const PayloadHead := "f.req=[[[i0OFE,\"[null,null,'"
  const PayloadTail := "',0,null,48]\"]]]"

  /** The form body posted to the trends endpoint, scoped to the region
      upper-cased. */
  function GooglePayload(regionCode: string): string {
    PayloadHead + Upper(regionCode) + PayloadTail
  }

  /** Reads the region back out of a form body: the text between the fixed
      head and tail, if the body has them. */
  function PayloadGeo(body: string): Option<string> {
    if |body| >= |PayloadHead| + |PayloadTail|
       && body[..|PayloadHead|] == PayloadHead
       && body[|body| - |PayloadTail|..] == PayloadTail
    then Some(body[|PayloadHead|..|body| - |PayloadTail|])
    else None
  }

  /** The body carries exactly the upper-cased region code. */
  lemma PayloadRoundTrip(regionCode: string)
    ensures PayloadGeo(GooglePayload(regionCode)) == Some(Upper(regionCode))
  {
    var body := GooglePayload(regionCode);
    var n := |PayloadHead| + |Upper(regionCode)|;
    assert body[..|PayloadHead|] == PayloadHead;
    assert body[n..] == PayloadTail;
    assert body[|PayloadHead|..n] == Upper(regionCode);
  }

  /** Two regions produce the same request exactly when they agree up to
      letter case. */
  lemma PayloadIdentifiesRegion(a: string, b: string)
    ensures GooglePayload(a) == GooglePayload(b) <==> Upper(a) == Upper(b)
  {
    PayloadRoundTrip(a);
    PayloadRoundTrip(b);
  }

  // =====================================================================
  // extract_json_from_response

  /** A stripped line is tried only if it starts with "[" and ends with "]". */
  predicate IsCandidate(line: string) {
    |line| > 0 && line[0] == '[' && line[|line| - 1] == ']'
  }

  /** The body of the `try`: `outer = json.loads(line)`,
      `inner = json.loads(outer[0][2])`, `inner[1]`. None when any step
      raises (decode error, IndexError, KeyError, TypeError, including
      `json.loads` of something that is not a str). */
  function Attempt(line: string, decode: string -> Option<Json>): Option<Json> {
    match decode(line)
    case None => None
    case Some(outer) =>
      match Subscript(outer, 0)
      case None => None
      case Some(first) =>
        match Subscript(first, 2)
        case Some(JStr(encoded)) =>
          (match decode(encoded)
           case None => None
           case Some(inner) => Subscript(inner, 1))
        case _ => None
  }

  /** What one raw line yields: nothing unless its stripped form is a
      candidate and every step of the attempt succeeds. */
  function LinePayload(line: string, decode: string -> Option<Json>): Option<Json> {
    var stripped := Strip(line);
    if IsCandidate(stripped) then Attempt(stripped, decode) else None
  }

  /** The value the line scan returns: the payload of the first line that
      yields one, None when no line does. */
  function FirstPayload(lines: seq<string>, decode: string -> Option<Json>): Option<Json> {
    if lines == [] then None
    else if LinePayload(lines[0], decode).Some? then LinePayload(lines[0], decode)
    else FirstPayload(lines[1..], decode)
  }

  /** No line yields a payload. */
  predicate NoPayloadLine(lines: seq<string>, decode: string -> Option<Json>) {
    forall i :: 0 <= i < |lines| ==> LinePayload(lines[i], decode) == None
  }

  /** Line i yields a payload and no line before it does. */
  ghost predicate FirstSuccessAt(lines: seq<string>, i: int, decode: string -> Option<Json>) {
    0 <= i < |lines| && LinePayload(lines[i], decode).Some?
    && forall j :: 0 <= j < i ==> LinePayload(lines[j], decode) == None
  }

  /** The scan returns None exactly when no line yields a payload, and
      otherwise the payload of the first line, in text order, that yields
      one; the lines that failed before it are skipped. */
  lemma FirstPayloadIsFirstSuccess(lines: seq<string>, decode: string -> Option<Json>)
    ensures FirstPayload(lines, decode) == None
            <==> forall i :: 0 <= i < |lines| ==> LinePayload(lines[i], decode) == None
    ensures forall i :: FirstSuccessAt(lines, i, decode) ==>
              FirstPayload(lines, decode) == LinePayload(lines[i], decode)
  {
    FirstPayloadNone(lines, decode);
    forall i | FirstSuccessAt(lines, i, decode)
      ensures FirstPayload(lines, decode) == LinePayload(lines[i], decode)
    {
      FirstPayloadAt(lines, i, decode);
    }
  }

  /** The scan finds nothing exactly when no line yields a payload. */
  lemma {:induction false} FirstPayloadNone(lines: seq<string>, decode: string -> Option<Json>)
    ensures FirstPayload(lines, decode) == None
            <==> forall i :: 0 <= i < |lines| ==> LinePayload(lines[i], decode) == None
  {
    if lines != [] {
      var rest := lines[1..];
      FirstPayloadNone(rest, decode);
      if LinePayload(lines[0], decode).Some? {
        assert FirstPayload(lines, decode) == LinePayload(lines[0], decode);
      } else {
        assert FirstPayload(lines, decode) == FirstPayload(rest, decode);
        assert forall i :: 1 <= i < |lines| ==> lines[i] == rest[i - 1];
      }
    }
  }

  /** The scan returns the payload of the first line that yields one. */
  lemma {:induction false} FirstPayloadAt(lines: seq<string>, i: int, decode: string -> Option<Json>)
    requires FirstSuccessAt(lines, i, decode)
    ensures FirstPayload(lines, decode) == LinePayload(lines[i], decode)
  {
    if i > 0 {
      assert forall j :: 0 <= j < i - 1 ==> lines[1..][j] == lines[j + 1];
      assert FirstSuccessAt(lines[1..], i - 1, decode);
      FirstPayloadAt(lines[1..], i - 1, decode);
    }
  }

  /** A line that is not a candidate once stripped cannot affect the
      result, wherever it stands. */
  lemma {:induction false} NonCandidateLineIrrelevant(
    before: seq<string>, line: string, after: seq<string>, decode: string -> Option<Json>)
    requires !IsCandidate(Strip(line))
    ensures FirstPayload(before + [line] + after, decode) == FirstPayload(before + after, decode)
  {
    if before == [] {
      assert before + [line] + after == [line] + after;
      assert ([line] + after)[1..] == after;
      assert before + after == after;
      assert LinePayload(line, decode) == None;
    } else {
      assert (before + [line] + after)[1..] == before[1..] + [line] + after;
      assert (before + after)[1..] == before[1..] + after;
      NonCandidateLineIrrelevant(before[1..], line, after, decode);
    }
  }

  /** `extract_json_from_response(text)`: scans the lines of the response
      in order, stripping each, tries only candidate lines, swallows every
      failure of an attempt and returns the first success, or None. */
  method ExtractJsonFromResponse(text: string, decode: string -> Option<Json>) returns (r: Option<Json>)
    ensures r == FirstPayload(SplitLines(text), decode)
  {
    var lines := SplitLines(text);
    var i := 0;
    while i < |lines|
      invariant 0 <= i <= |lines|
      invariant FirstPayload(lines[i..], decode) == FirstPayload(lines, decode)
    {
      assert lines[i..][1..] == lines[i + 1..];
      var line := Strip(lines[i]);
      if IsCandidate(line) {
        var attempt := Attempt(line, decode);
        if attempt.Some? {
          return attempt;
        }
      }
      i := i + 1;
    }
    return None;
  }

  // =====================================================================
  // get_google_trends_api: term extraction, de-duplication, truncation

  /** What one item of the payload adds to the comprehension
      `[item[0].lower() for item in data if isinstance(item, list) and item]`:
      nothing for a non-list or an empty list, the lower-cased first field
      when it is a str, and an AttributeError (`.lower()` on a non-str)
      otherwise. */
  function ItemTerm(item: Json): Result<Option<string>> {
    match item
    case JArr(xs) =>
      if xs == [] then Ok(None)
      else (match xs[0]
            case JStr(s) => Ok(Some(Lower(s)))
            case _ => Err(AttributeError))
    case _ => Ok(None)
  }

  /** The comprehension over a list payload, evaluated item by item. */
  function TermsOf(items: seq<Json>): Result<seq<string>> {
    if items == [] then Ok([])
    else
      match ItemTerm(items[0])
      case Err(e) => Err(e)
      case Ok(t) =>
        match TermsOf(items[1..])
        case Err(e) => Err(e)
        case Ok(rest) => Ok((if t.Some? then [t.value] else []) + rest)
  }

  /** No upper-case letter in t. */
  predicate IsLowered(t: string) {
    forall i :: 0 <= i < |t| ==> !IsUpperAscii(t[i])
  }

  /** The comprehension raises exactly when some non-empty list item has a
      first field that is not a str; otherwise its terms are exactly the
      lower-cased first fields of the non-empty list items, each free of
      upper-case letters, at most one per item. */
  lemma {:induction false} TermsOfSpec(items: seq<Json>)
    ensures TermsOf(items).Err? <==> exists k :: 0 <= k < |items| && ItemTerm(items[k]).Err?
    ensures TermsOf(items).Ok? ==>
              && |TermsOf(items).value| <= |items|
              && (forall t :: t in TermsOf(items).value ==> IsLowered(t))
              && (forall t :: t in TermsOf(items).value <==>
                    exists k :: 0 <= k < |items| && ItemTerm(items[k]) == Ok(Some(t)))
  {
    if items != [] {
      TermsOfSpec(items[1..]);
      assert forall k :: 1 <= k < |items| ==> items[k] == items[1..][k - 1];
      if TermsOf(items).Ok? {
        var rest := TermsOf(items[1..]).value;
        forall t | t in TermsOf(items).value
          ensures exists k :: 0 <= k < |items| && ItemTerm(items[k]) == Ok(Some(t))
        {
          if t !in rest {
            assert ItemTerm(items[0]) == Ok(Some(t));
          } else {
            var k :| 0 <= k < |items[1..]| && ItemTerm(items[1..][k]) == Ok(Some(t));
            assert ItemTerm(items[k + 1]) == Ok(Some(t));
          }
        }
        forall t | exists k :: 0 <= k < |items| && ItemTerm(items[k]) == Ok(Some(t))
          ensures t in TermsOf(items).value
        {
          var k :| 0 <= k < |items| && ItemTerm(items[k]) == Ok(Some(t));
          if k > 0 {
            assert ItemTerm(items[1..][k - 1]) == Ok(Some(t));
          }
        }
      }
    }
  }

  /** The comprehension keeps the item order: the terms of a + b are those
      of a followed by those of b, and the first raising item decides the
      exception. */
  lemma {:induction false} TermsOfAppend(a: seq<Json>, b: seq<Json>)
    ensures TermsOf(a + b) ==
              match TermsOf(a)
              case Err(e) => Err(e)
              case Ok(ta) =>
                (match TermsOf(b)
                 case Err(e) => Err(e)
                 case Ok(tb) => Ok(ta + tb))
  {
    if a == [] {
      assert a + b == b;
      if TermsOf(b).Ok? {
        assert [] + TermsOf(b).value == TermsOf(b).value;
      }
    } else {
      assert (a + b)[0] == a[0];
      assert (a + b)[1..] == a[1..] + b;
      TermsOfAppend(a[1..], b);
      if TermsOf(a).Ok? && TermsOf(b).Ok? {
        var t := ItemTerm(a[0]).value;
        var head := if t.Some? then [t.value] else [];
        assert head + (TermsOf(a[1..]).value + TermsOf(b).value)
               == (head + TermsOf(a[1..]).value) + TermsOf(b).value;
      }
    }
  }

  /** The index of the first item whose term is t (|items| when none is). */
  function FirstItem(items: seq<Json>, t: string): (k: nat)
    ensures k <= |items|
    ensures k < |items| ==> ItemTerm(items[k]) == Ok(Some(t))
    ensures forall j :: 0 <= j < k ==> ItemTerm(items[j]) != Ok(Some(t))
  {
    if items == [] then 0
    else if ItemTerm(items[0]) == Ok(Some(t)) then 0
    else
      assert forall j :: 1 <= j < |items| ==> items[j] == items[1..][j - 1];
      1 + FirstItem(items[1..], t)
  }

  /** Terms come out in the order of the first item that produces them. */
  lemma {:induction false} TermsOfFollowsItems(items: seq<Json>)
    requires TermsOf(items).Ok?
    ensures forall t, u ::
              (t in TermsOf(items).value && u in TermsOf(items).value
               && IndexOf(TermsOf(items).value, t) < IndexOf(TermsOf(items).value, u)) ==>
              FirstItem(items, t) < FirstItem(items, u)
  {
    if items != [] {
      var terms := TermsOf(items).value;
      var rest := TermsOf(items[1..]).value;
      TermsOfFollowsItems(items[1..]);
      forall t, u | t in terms && u in terms && IndexOf(terms, t) < IndexOf(terms, u)
        ensures FirstItem(items, t) < FirstItem(items, u)
      {
        if ItemTerm(items[0]) == Ok(None) {
          assert terms == rest;
        } else {
          var t0 := ItemTerm(items[0]).value.value;
          assert terms == [t0] + rest;
          assert u != t0;
          if t != t0 {
            assert terms[1..] == rest;
          }
        }
      }
    }
  }

  /** The distinct terms the items produce. */
  function ItemTerms(items: seq<Json>): set<string> {
    set k | 0 <= k < |items| && ItemTerm(items[k]).Ok? && ItemTerm(items[k]).value.Some? :: ItemTerm(items[k]).value.value
  }

  /** `extract_json_from_response(...) or []` followed by the comprehension.
      A missing or falsy payload gives no terms; iterating a str or a dict
      yields str values, never lists, so it gives none either; a truthy
      number or True is not iterable and raises TypeError. */
  function TrendTerms(data: Option<Json>): (r: Result<seq<string>>)
    ensures data.None? || !Truthy(data.value) ==> r == Ok([])
    ensures data.Some? && data.value.JArr? ==>
              (r.Err? <==> exists k :: 0 <= k < |data.value.items| && ItemTerm(data.value.items[k]).Err?)
    ensures data.Some? && data.value.JArr? && r.Ok? ==> (forall t :: t in r.value <==> t in ItemTerms(data.value.items))
    ensures !(data.Some? && data.value.JArr?) && r.Ok? ==> r.value == []
    ensures r.Err? ==> r.error == AttributeError || r.error == TypeError
    ensures r.Ok? ==> forall t :: t in r.value ==> IsLowered(t)
  {
    match data
    case None => Ok([])
    case Some(v) =>
      if !Truthy(v) then Ok([])
      else
        match v
        case JArr(items) =>
          TermsOfErrors(items);
          TermsOfSpec(items);
          TermsOf(items)
        case JStr(_) => Ok([])
        case JObj(_) => Ok([])
        case _ => Err(TypeError)
  }

  /** `list(dict.fromkeys(terms))[:top_n]`. */
  function TopTerms(terms: seq<string>, topN: int): seq<string> {
    SliceTo(FromKeys(terms), topN)
  }

  /** The returned terms are distinct, each comes from the input, they keep
      the order of first occurrence, and for a non-negative top_n there are
      min(top_n, number of distinct terms) of them. */
  lemma TopTermsSpec(terms: seq<string>, topN: int)
    ensures NoDups(TopTerms(terms, topN))
    ensures TopTerms(terms, topN) <= FromKeys(terms)
    ensures forall t :: t in TopTerms(terms, topN) ==> t in terms
    ensures forall i, j :: 0 <= i < j < |TopTerms(terms, topN)| ==>
              IndexOf(terms, TopTerms(terms, topN)[i]) < IndexOf(terms, TopTerms(terms, topN)[j])
    ensures topN >= 0 ==>
              |TopTerms(terms, topN)| == if topN < |set t | t in terms| then topN else |set t | t in terms|
  {
    var d := FromKeys(terms);
    var r := TopTerms(terms, topN);
    assert forall i :: 0 <= i < |r| ==> r[i] == d[i];
    FromKeysFirstOccurrenceOrder(terms);
    FromKeysLength(terms);
  }

  // =====================================================================
  // get_google_trends_api: the whole client

  /** What `session.post(...)` returns when it does not raise. */
  datatype HttpResponse = HttpResponse(status: int, text: string)

  /** `resp.raise_for_status()`: a 4xx or 5xx status raises HTTPError, a
      RequestException. */
  function RaiseForStatus(resp: HttpResponse): (r: Result<HttpResponse>)
    ensures r.Err? <==> 400 <= resp.status < 600
    ensures r.Err? ==> r.error == RequestException
    ensures r.Ok? ==> r.value == resp
  {
    if 400 <= resp.status < 600 then Err(RequestException) else Ok(resp)
  }

  /** The POST followed by the status check. */
  function Fetch(post: (string, string) -> Result<HttpResponse>, regionCode: string): Result<HttpResponse> {
    match post(TrendsUrl, GooglePayload(regionCode))
    case Err(e) => Err(e)
    case Ok(resp) => RaiseForStatus(resp)
  }

  /** The outcome of `get_google_trends_api(region_code, top_n)`. */
  function GoogleTrends(
    post: (string, string) -> Result<HttpResponse>, decode: string -> Option<Json>,
    regionCode: string, topN: int): Result<seq<string>>
  {
    match Fetch(post, regionCode)
    case Err(RequestException) => Ok([])
    case Err(e) => Err(e)
    case Ok(resp) => TopTermsOf(FirstPayload(SplitLines(resp.text), decode), topN)
  }

  /** `(data or [])`'s terms, de-duplicated and truncated to top_n. */
  function TopTermsOf(data: Option<Json>, topN: int): Result<seq<string>> {
    match TrendTerms(data)
    case Err(e) => Err(e)
    case Ok(terms) => Ok(TopTerms(terms, topN))
  }

  /** The lines of a successful response decide the result through the
      first line that yields a payload, and give no terms when no line
      does; the terms are lower-case, distinct and at most top_n, and an
      error is never a RequestException. */
  lemma ScanTopTermsSpec(lines: seq<string>, decode: string -> Option<Json>, topN: int)
    ensures NoPayloadLine(lines, decode) ==> TopTermsOf(FirstPayload(lines, decode), topN) == Ok([])
    ensures forall i :: FirstSuccessAt(lines, i, decode) ==>
              TopTermsOf(FirstPayload(lines, decode), topN) == PayloadTopTerms(LinePayload(lines[i], decode).value, topN)
    ensures TopTermsOf(FirstPayload(lines, decode), topN).Err? ==>
              TopTermsOf(FirstPayload(lines, decode), topN).error != RequestException
    ensures TopTermsOf(FirstPayload(lines, decode), topN).Ok? ==>
              var terms := TopTermsOf(FirstPayload(lines, decode), topN).value;
              && NoDups(terms)
              && (forall t :: t in terms ==> IsLowered(t))
              && (topN >= 0 ==> |terms| <= topN)
  {
    FirstPayloadIsFirstSuccess(lines, decode);
    forall i | FirstSuccessAt(lines, i, decode)
      ensures TopTermsOf(FirstPayload(lines, decode), topN) == PayloadTopTerms(LinePayload(lines[i], decode).value, topN)
    {
      assert FirstPayload(lines, decode) == Some(LinePayload(lines[i], decode).value);
    }
    TopTermsOfShape(FirstPayload(lines, decode), topN);
  }

  /** The terms kept from a found payload are lower-case, distinct and at
      most top_n, no payload gives none, and an error is never a
      RequestException. */
  lemma TopTermsOfShape(data: Option<Json>, topN: int)
    ensures data.None? ==> TopTermsOf(data, topN) == Ok([])
    ensures TopTermsOf(data, topN).Err? ==> TopTermsOf(data, topN).error != RequestException
    ensures TopTermsOf(data, topN).Ok? ==>
              var terms := TopTermsOf(data, topN).value;
              && NoDups(terms)
              && (forall t :: t in terms ==> IsLowered(t))
              && (topN >= 0 ==> |terms| <= topN)
  {
    if data.None? {
      assert TrendTerms(data) == Ok([]);
      assert TopTerms([], topN) == [];
    }
    if TrendTerms(data).Ok? {
      TopTermsSpec(TrendTerms(data).value, topN);
    }
  }


  /** What the client returns when p is the payload it found: the
      distinct terms of p's items, at most top_n. */
  function PayloadTopTerms(payload: Json, topN: int): Result<seq<string>> {
    match TrendTerms(Some(payload))
    case Err(e) => Err(e)
    case Ok(terms) => Ok(TopTerms(terms, topN))
  }

  /** A falsy payload, a str or a dict give no terms; a truthy number or
      bool raises TypeError; a list raises AttributeError exactly when one
      of its items would, and otherwise gives distinct lower-case terms,
      each produced by some item, ordered by the first item producing them,
      none of them after a term that was cut off, and for a non-negative
      top_n min(top_n, number of distinct terms) of them. */
  lemma PayloadTopTermsSpec(payload: Json, topN: int)
    ensures !Truthy(payload) ==> PayloadTopTerms(payload, topN) == Ok([])
    ensures Truthy(payload) && (payload.JStr? || payload.JObj?) ==> PayloadTopTerms(payload, topN) == Ok([])
    ensures Truthy(payload) && (payload.JNum? || payload.JBool?) ==> PayloadTopTerms(payload, topN) == Err(TypeError)
    ensures payload.JArr? ==>
              (PayloadTopTerms(payload, topN).Err? <==>
                 exists k :: 0 <= k < |payload.items| && ItemTerm(payload.items[k]).Err?)
    ensures payload.JArr? && PayloadTopTerms(payload, topN).Err? ==> PayloadTopTerms(payload, topN).error == AttributeError
    ensures payload.JArr? && PayloadTopTerms(payload, topN).Ok? ==>
              var items := payload.items;
              var terms := PayloadTopTerms(payload, topN).value;
              && NoDups(terms)
              && (forall t :: t in terms ==> t in ItemTerms(items) && IsLowered(t))
              && (forall i, j :: 0 <= i < j < |terms| ==> FirstItem(items, terms[i]) < FirstItem(items, terms[j]))
              && (forall t, i :: t in ItemTerms(items) && t !in terms && 0 <= i < |terms| ==>
                    FirstItem(items, terms[i]) < FirstItem(items, t))
              && (topN >= 0 ==> |terms| == if topN < |ItemTerms(items)| then topN else |ItemTerms(items)|)
  {
    if payload.JArr? {
      TermsOfErrors(payload.items);
    }
    if payload.JArr? && Truthy(payload) && TermsOf(payload.items).Ok? {
      assert TrendTerms(Some(payload)) == TermsOf(payload.items);
      TopItemTermsSpec(payload.items, topN);
    }
  }

  /** PayloadTopTermsSpec for a list payload whose items all succeed. */
  lemma TopItemTermsSpec(items: seq<Json>, topN: int)
    requires TermsOf(items).Ok?
    ensures var terms := TopTerms(TermsOf(items).value, topN);
            && NoDups(terms)
            && (forall t :: t in terms ==> t in ItemTerms(items) && IsLowered(t))
            && (forall i, j :: 0 <= i < j < |terms| ==> FirstItem(items, terms[i]) < FirstItem(items, terms[j]))
            && (forall t, i :: t in ItemTerms(items) && t !in terms && 0 <= i < |terms| ==>
                  FirstItem(items, terms[i]) < FirstItem(items, t))
            && (topN >= 0 ==> |terms| == if topN < |ItemTerms(items)| then topN else |ItemTerms(items)|)
  {
    var all := TermsOf(items).value;
    TermsOfSpec(items);
    TopTermsSpec(all, topN);
    assert (set t | t in all) == ItemTerms(items);
    TopItemTermsOrder(items, topN);
  }

  /** The order half of TopItemTermsSpec: kept terms are ordered by their
      first item, and every dropped term comes after all kept ones. */
  lemma TopItemTermsOrder(items: seq<Json>, topN: int)
    requires TermsOf(items).Ok?
    ensures var terms := TopTerms(TermsOf(items).value, topN);
            && (forall i, j :: 0 <= i < j < |terms| ==> FirstItem(items, terms[i]) < FirstItem(items, terms[j]))
            && (forall t, i :: t in ItemTerms(items) && t !in terms && 0 <= i < |terms| ==>
                  FirstItem(items, terms[i]) < FirstItem(items, t))
  {
    var all := TermsOf(items).value;
    var terms := TopTerms(all, topN);
    var d := FromKeys(all);
    TermsOfSpec(items);
    TopTermsSpec(all, topN);
    TermsOfFollowsItems(items);
    FromKeysFirstOccurrenceOrder(all);
    forall i, j | 0 <= i < j < |terms|
      ensures FirstItem(items, terms[i]) < FirstItem(items, terms[j])
    {
      assert IndexOf(all, terms[i]) < IndexOf(all, terms[j]);
    }
    forall t, i | t in ItemTerms(items) && t !in terms && 0 <= i < |terms|
      ensures FirstItem(items, terms[i]) < FirstItem(items, t)
    {
      assert t in all;
      var p :| 0 <= p < |d| && d[p] == t;
      assert terms[i] == d[i];
      assert IndexOf(all, d[i]) < IndexOf(all, d[p]);
    }
  }

  /** The outcome of the whole client. A transport failure or an error
      status gives no terms instead of an exception, and only an exception
      of that class is absorbed: any other exception from the POST or from
      the comprehension propagates. When the POST succeeds, the result is
      decided by the first line of the response that yields a payload
      (PayloadTopTermsSpec says what it is), and is no terms when no line
      does. The terms returned are lower-case, distinct, and at most top_n. */
  lemma GoogleTrendsSpec(
    post: (string, string) -> Result<HttpResponse>, decode: string -> Option<Json>,
    regionCode: string, topN: int)
    ensures Fetch(post, regionCode) == Err(RequestException) ==> GoogleTrends(post, decode, regionCode, topN) == Ok([])
    ensures Fetch(post, regionCode).Err? && Fetch(post, regionCode).error != RequestException ==>
              GoogleTrends(post, decode, regionCode, topN) == Err(Fetch(post, regionCode).error)
    ensures Fetch(post, regionCode).Ok? ==>
              var lines := SplitLines(Fetch(post, regionCode).value.text);
              && (NoPayloadLine(lines, decode) ==> GoogleTrends(post, decode, regionCode, topN) == Ok([]))
              && (forall i :: FirstSuccessAt(lines, i, decode) ==>
                    GoogleTrends(post, decode, regionCode, topN) == PayloadTopTerms(LinePayload(lines[i], decode).value, topN))
    ensures GoogleTrends(post, decode, regionCode, topN).Err? ==>
              GoogleTrends(post, decode, regionCode, topN).error != RequestException
    ensures GoogleTrends(post, decode, regionCode, topN).Ok? ==>
              var terms := GoogleTrends(post, decode, regionCode, topN).value;
              && NoDups(terms)
              && (forall t :: t in terms ==> IsLowered(t))
              && (topN >= 0 ==> |terms| <= topN)
  {
    var fetched := Fetch(post, regionCode);
    if fetched.Ok? {
      var lines := SplitLines(fetched.value.text);
      assert GoogleTrends(post, decode, regionCode, topN) == TopTermsOf(FirstPayload(lines, decode), topN);
      ScanTopTermsSpec(lines, decode, topN);
    }
  }

  /** `get_google_trends_api(region_code, top_n)`: posts the region-scoped
      body, checks the status, scans the response for the payload and
      returns its distinct lower-cased terms, at most top_n of them. */
  method GetGoogleTrendsApi(
    post: (string, string) -> Result<HttpResponse>, decode: string -> Option<Json>,
    regionCode: string, topN: int) returns (r: Result<seq<string>>)
    ensures r == GoogleTrends(post, decode, regionCode, topN)
  {
    var geo := Upper(regionCode);
    var payload := PayloadHead + geo + PayloadTail;
    var resp := post(TrendsUrl, payload);
    if resp.Ok? {
      resp := RaiseForStatus(resp.value);
    }
    if resp.Err? {
      if resp.error == RequestException {
        return Ok([]);
      }
      return Err(resp.error);
    }
    var data := ExtractJsonFromResponse(resp.value.text, decode);
    var terms := TrendTerms(data);
    if terms.Err? {
      return Err(terms.error);
    }
    r := Ok(TopTerms(terms.value, topN));
  }

  lemma {:induction false} TermsOfErrors(items: seq<Json>)
    ensures TermsOf(items).Err? ==> TermsOf(items).error == AttributeError
  {
    if items != [] {
      TermsOfErrors(items[1..]);
    }
  }

  // =====================================================================
  // get_youtube_trending

  /** The parameters of `yt.videos().list(...)`. */
  datatype VideosListRequest = VideosListRequest(part: string, chart: string, regionCode: string, maxResults: int)

  /** The request for the most popular videos of a region, its code
      upper-cased, capped at max_results. */
  function TrendingRequest(regionCode: string, maxResults: int): VideosListRequest {
    VideosListRequest("snippet", "mostPopular", Upper(regionCode), maxResults)
  }

  /** `item["snippet"]["title"]`. */
  function Title(item: Json): Result<Json> {
    match GetItem(item, "snippet")
    case Err(e) => Err(e)
    case Ok(snippet) => GetItem(snippet, "title")
  }

  /** The titles of a list of items, one per item in the same order; the
      first item without one raises. */
  function TitlesOf(items: seq<Json>): (r: Result<seq<Json>>)
    ensures r.Err? <==> exists k :: 0 <= k < |items| && Title(items[k]).Err?
    ensures r.Ok? ==> |r.value| == |items| && forall k :: 0 <= k < |items| ==> Title(items[k]) == Ok(r.value[k])
  {
    if items == [] then Ok([])
    else
      match Title(items[0])
      case Err(e) => Err(e)
      case Ok(t) =>
        match TitlesOf(items[1..])
        case Err(e) => Err(e)
        case Ok(rest) =>
          assert forall k :: 1 <= k < |items| ==> items[k] == items[1..][k - 1];
          Ok([t] + rest)
  }

  /** `[item["snippet"]["title"] for item in res.get("items", [])]`. Only a
      dict has `.get`; iterating a non-empty str or dict yields str values,
      which cannot be subscripted by "snippet"; None, bools and numbers are
      not iterable. */
  function TrendingTitles(res: Json): (r: Result<seq<Json>>)
    ensures res.JObj? && "items" !in res.fields ==> r == Ok([])
    ensures r.Ok? && res.JObj? && "items" in res.fields && res.fields["items"].JArr? ==>
              && |r.value| == |res.fields["items"].items|
              && forall k :: 0 <= k < |r.value| ==> Title(res.fields["items"].items[k]) == Ok(r.value[k])
    ensures res.JObj? && "items" in res.fields && res.fields["items"].JArr? ==>
              (r.Err? <==> exists k :: 0 <= k < |res.fields["items"].items| && Title(res.fields["items"].items[k]).Err?)
  {
    match res
    case JObj(m) =>
      var items := if "items" in m then m["items"] else JArr([]);
      (match items
       case JArr(xs) => TitlesOf(xs)
       case JStr(s) => if s == [] then Ok([]) else Err(TypeError)
       case JObj(d) => if d == map[] then Ok([]) else Err(TypeError)
       case _ => Err(TypeError))
    case _ => Err(AttributeError)
  }

  /** `get_youtube_trending(api_key, region_code, max_results)`: issues the
      request and returns the titles; any error of the API call propagates. */
  function GetYouTubeTrending(
    execute: VideosListRequest -> Result<Json>, regionCode: string, maxResults: int): (r: Result<seq<Json>>)
    ensures execute(TrendingRequest(regionCode, maxResults)).Err? ==>
              r == Err(execute(TrendingRequest(regionCode, maxResults)).error)
    ensures execute(TrendingRequest(regionCode, maxResults)).Ok? ==>
              r == TrendingTitles(execute(TrendingRequest(regionCode, maxResults)).value)
  {
    match execute(TrendingRequest(regionCode, maxResults))
    case Err(e) => Err(e)
    case Ok(res) => TrendingTitles(res)
  }

  /** The region code is case-insensitive: two codes select the same
      videos request exactly when they agree after upper-casing, and a code
      and its lower-cased form always do. */
  lemma TrendingRequestCaseInsensitive(a: string, b: string, maxResults: int)
    ensures TrendingRequest(a, maxResults) == TrendingRequest(b, maxResults) <==> Upper(a) == Upper(b)
    ensures TrendingRequest(Lower(a), maxResults) == TrendingRequest(a, maxResults)
  {
    UpperOfLower(a);
  }

  // =====================================================================
  // fetch_youtube_regions

  /** One entry of the dict comprehension: `item["snippet"]["gl"]` is
      evaluated first, then `item["snippet"]["name"]`, then the key is
      hashed. */
  function RegionEntry(item: Json): Result<(Json, Json)> {
    match GetItem(item, "snippet")
    case Err(e) => Err(e)
    case Ok(snippet) =>
      match GetItem(snippet, "gl")
      case Err(e) => Err(e)
      case Ok(gl) =>
        match GetItem(snippet, "name")
        case Err(e) => Err(e)
        case Ok(name) => if Hashable(gl) then Ok((gl, name)) else Err(TypeError)
  }

  /** The entries of all items, in order; the first item without one
      raises. */
  function RegionEntries(items: seq<Json>): (r: Result<seq<(Json, Json)>>)
    ensures r.Err? <==> exists k :: 0 <= k < |items| && RegionEntry(items[k]).Err?
    ensures r.Ok? ==> |r.value| == |items| && forall k :: 0 <= k < |items| ==> RegionEntry(items[k]) == Ok(r.value[k])
  {
    if items == [] then Ok([])
    else
      match RegionEntry(items[0])
      case Err(e) => Err(e)
      case Ok(entry) =>
        match RegionEntries(items[1..])
        case Err(e) => Err(e)
        case Ok(rest) =>
          assert forall k :: 1 <= k < |items| ==> items[k] == items[1..][k - 1];
          Ok([entry] + rest)
  }

  /** Inserting the pairs into an empty dict in order. */
  function ToDict(pairs: seq<(Json, Json)>): map<Json, Json> {
    if pairs == [] then map[]
    else ToDict(pairs[..|pairs| - 1])[pairs[|pairs| - 1].0 := pairs[|pairs| - 1].1]
  }

  /** The keys of the dict are the codes of the pairs. */
  lemma {:induction false} ToDictKeys(pairs: seq<(Json, Json)>)
    ensures forall g :: g in ToDict(pairs) <==> exists k :: 0 <= k < |pairs| && pairs[k].0 == g
  {
    if pairs != [] {
      var init := pairs[..|pairs| - 1];
      ToDictKeys(init);
      assert forall k :: 0 <= k < |init| ==> init[k] == pairs[k];
    }
  }

  /** A code maps to the name of the last pair that has it. */
  lemma {:induction false} ToDictLastWins(pairs: seq<(Json, Json)>, k: int)
    requires 0 <= k < |pairs| && IsLastKey(pairs, k)
    ensures pairs[k].0 in ToDict(pairs) && ToDict(pairs)[pairs[k].0] == pairs[k].1
  {
    var last := |pairs| - 1;
    if k < last {
      var init := pairs[..last];
      assert init[k] == pairs[k];
      assert IsLastKey(init, k);
      ToDictLastWins(init, k);
    }
  }

  /** Every code maps to the name of the last pair that has it. */
  lemma ToDictLastWinsAll(pairs: seq<(Json, Json)>)
    ensures forall k :: 0 <= k < |pairs| && IsLastKey(pairs, k) ==>
              pairs[k].0 in ToDict(pairs) && ToDict(pairs)[pairs[k].0] == pairs[k].1
  {
    forall k | 0 <= k < |pairs| && IsLastKey(pairs, k)
      ensures pairs[k].0 in ToDict(pairs) && ToDict(pairs)[pairs[k].0] == pairs[k].1
    {
      ToDictLastWins(pairs, k);
    }
  }

  /** No pair after pair k has the same key. */
  predicate IsLastKey(pairs: seq<(Json, Json)>, k: int)
    requires 0 <= k < |pairs|
  {
    forall j :: k < j < |pairs| ==> pairs[j].0 != pairs[k].0
  }

  /** Item k has an entry, and no later item has an entry with its code. */
  predicate IsLastEntry(items: seq<Json>, k: int)
    requires 0 <= k < |items|
  {
    && RegionEntry(items[k]).Ok?
    && forall j :: k < j < |items| && RegionEntry(items[j]).Ok? ==>
         RegionEntry(items[j]).value.0 != RegionEntry(items[k]).value.0
  }

  /** The dict comprehension of `fetch_youtube_regions` over a list of items:
      built entry by entry, a later item with the same code overwriting the
      name of an earlier one; the first malformed item raises. */
  function RegionMapOf(items: seq<Json>): (r: Result<map<Json, Json>>)
    ensures r.Err? <==> exists k :: 0 <= k < |items| && RegionEntry(items[k]).Err?
    ensures r.Ok? ==> forall g :: g in r.value <==>
              exists k :: 0 <= k < |items| && RegionEntry(items[k]).Ok? && RegionEntry(items[k]).value.0 == g
    ensures r.Ok? ==> forall k :: 0 <= k < |items| && IsLastEntry(items, k) ==>
              RegionEntry(items[k]).value.0 in r.value
              && r.value[RegionEntry(items[k]).value.0] == RegionEntry(items[k]).value.1
  {
    match RegionEntries(items)
    case Err(e) => Err(e)
    case Ok(pairs) =>
      ToDictKeys(pairs);
      ToDictLastWinsAll(pairs);
      assert forall k :: 0 <= k < |items| && IsLastEntry(items, k) ==> IsLastKey(pairs, k);
      Ok(ToDict(pairs))
  }

  /** `fetch_youtube_regions(api_key)` given what the i18nRegions request's
      `.execute()` produced: the map from each item's `snippet.gl` to its
      `snippet.name`. */
  function FetchYouTubeRegions(response: Result<Json>): (r: Result<map<Json, Json>>)
    ensures response.Err? ==> r == Err(response.error)
    ensures response.Ok? && !response.value.JObj? ==> r == Err(AttributeError)
    ensures response.Ok? && response.value.JObj? && "items" !in response.value.fields ==> r == Ok(map[])
    ensures response.Ok? && response.value.JObj? && "items" in response.value.fields
            && response.value.fields["items"].JArr? ==>
              var items := response.value.fields["items"].items;
              && (r.Err? <==> exists k :: 0 <= k < |items| && RegionEntry(items[k]).Err?)
              && (r.Ok? ==> forall g :: g in r.value <==>
                    exists k :: 0 <= k < |items| && RegionEntry(items[k]).Ok? && RegionEntry(items[k]).value.0 == g)
              && (r.Ok? ==> forall k :: 0 <= k < |items| && IsLastEntry(items, k) ==>
                    RegionEntry(items[k]).value.0 in r.value
                    && r.value[RegionEntry(items[k]).value.0] == RegionEntry(items[k]).value.1)
  {
    match response
    case Err(e) => Err(e)
    case Ok(JObj(m)) =>
      (var items := if "items" in m then m["items"] else JArr([]);
       match items
       case JArr(xs) => RegionMapOf(xs)
       case JStr(s) => if s == [] then Ok(map[]) else Err(TypeError)
       case JObj(d) => if d == map[] then Ok(map[]) else Err(TypeError)
       case _ => Err(TypeError))
    case Ok(_) => Err(AttributeError)
  }
}
