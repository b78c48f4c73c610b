/**
 * The DashScope client of the root service (llm_client.py): the API-key
 * check of the constructor, the retry loop around one HTTP request, the
 * validation of the model's JSON reply and the choice of prompt per level.
 *
 * The network is an oracle `server` from the attempt number to what that
 * attempt saw; `json.loads` is an oracle `parse` from text to an optional
 * value, and `float()` on a string is an oracle `parseFloat`. Sleeps are
 * recorded as the list of delays instead of being waited for.
 */
module DashScope {
  import opened Wrappers
  import opened Json
  import PyStr

  /** Everything the client can raise. */
  datatype Error =
    | MissingKey                          // no API key in the argument or the environment
    | StatusError(attempt: nat, status: int)  // a non-200 reply on that attempt
    | NetworkFailure(attempt: nat)        // a requests exception on that attempt
    | NoAttempt                           // `raise None` when the loop never ran
    | MissingText                         // no output.text
    | NotJson                             // json.loads failed, also on the brace slice
    | MissingItems                        // no 'items' key
    | ItemsNotList                        // 'items' is not a list
    | TypeError                           // Python raised TypeError
    | BadConfidence                       // float(confidence) raised
    | UnsupportedLevel(level: string)     // _build_prompt on an unknown level

  /** The configuration kept by the client. */
  datatype Client = Client(apiKey: string, maxRetries: int)

  /** `api_key or os.getenv('DASHSCOPE_API_KEY')`: an empty argument is falsy. */
  function KeyOf(apiKey: Option<string>, envKey: Option<string>): Option<string> {
    if apiKey.Some? && apiKey.value != [] then apiKey else envKey
  }

  /** The constructor: raises unless the argument or the environment holds a non-empty key. */
  function NewClient(apiKey: Option<string>, envKey: Option<string>, maxRetries: int): (r: Result<Client, Error>)
    ensures r.Err? <==> (apiKey.None? || apiKey.value == []) && (envKey.None? || envKey.value == [])
    ensures r.Err? ==> r.error == MissingKey
    ensures r.Ok? ==> r.value.apiKey != [] && r.value.maxRetries == maxRetries
    ensures r.Ok? && apiKey.Some? && apiKey.value != [] ==> r.value.apiKey == apiKey.value
    ensures r.Ok? && (apiKey.None? || apiKey.value == []) ==> envKey.Some? && r.value.apiKey == envKey.value
  {
    var key := KeyOf(apiKey, envKey);
    if key.None? || key.value == [] then Err(MissingKey) else Ok(Client(key.value, maxRetries))
  }

  // ---------------------------------------------------------------------------
  // The retry loop of _make_request_with_retry

  /** What one attempt observed: an HTTP reply with its decoded body, or an exception from requests. */
  datatype Outcome = Reply(status: int, body: Value) | NetworkError

  /** The back-off table `retry_delays`, in seconds. */
  const RetryDelays: seq<nat> := [1, 2]

  /** The wait after a network error on `attempt`: the table entry, the last one once the table runs out. */
  function Delay(attempt: nat): (d: nat)
    ensures d == (if attempt == 0 then 1 else 2)
  {
    RetryDelays[PyStr.Min(attempt, |RetryDelays| - 1)]
  }

  /** A whole run of the loop: what it returned or raised, how many requests it sent, which delays it slept. */
  datatype Run = Run(result: Result<Value, Error>, sent: nat, sleeps: seq<nat>)

  /** Attempt `k` onwards, `last` being the error recorded so far. */
  function Attempts(maxRetries: int, server: nat -> Outcome, k: nat, last: Option<Error>): (r: Run)
    decreases maxRetries + 1 - k
  {
    if k > maxRetries then
      Run(if last.Some? then Err(last.value) else Err(NoAttempt), 0, [])
    else match server(k)
      case Reply(status, body) =>
        if status == 200 then Run(Ok(body), 1, [])
        else if 400 <= status < 500 then Run(Err(StatusError(k, status)), 1, [])
        else
          var rest := Attempts(maxRetries, server, k + 1, Some(StatusError(k, status)));
          Run(rest.result, rest.sent + 1, rest.sleeps)
      case NetworkError =>
        var rest := Attempts(maxRetries, server, k + 1, Some(NetworkFailure(k)));
        Run(rest.result, rest.sent + 1, (if k < maxRetries then [Delay(k)] else []) + rest.sleeps)
  }

  /** The run of the whole loop, from attempt 0 with nothing recorded. */
  function Request(c: Client, server: nat -> Outcome): Run {
    Attempts(c.maxRetries, server, 0, None)
  }

  /** Attempt `i` neither succeeded nor met a client error, so the loop goes on. */
  predicate Retried(server: nat -> Outcome, i: nat) {
    server(i).NetworkError? || (server(i).status != 200 && !(400 <= server(i).status < 500))
  }

  /** The error recorded for a retried attempt. */
  function ErrorOf(server: nat -> Outcome, i: nat): Error {
    if server(i).NetworkError? then NetworkFailure(i) else StatusError(i, server(i).status)
  }

  /** The loop itself; it returns what `Request` describes. */
  method MakeRequestWithRetry(c: Client, server: nat -> Outcome) returns (result: Result<Value, Error>, sent: nat, sleeps: seq<nat>)
    ensures Run(result, sent, sleeps) == Request(c, server)
  {
    var last: Option<Error> := None;
    sent := 0;
    sleeps := [];
    var attempt: nat := 0;
    while attempt <= c.maxRetries
      invariant attempt == sent
      invariant attempt == 0 || attempt <= c.maxRetries + 1
      invariant attempt > 0 ==> last.Some?
      invariant var rest := Attempts(c.maxRetries, server, attempt, last);
        Request(c, server) == Run(rest.result, sent + rest.sent, sleeps + rest.sleeps)
      decreases c.maxRetries + 1 - attempt
    {
      match server(attempt) {
        case Reply(status, body) =>
          sent := sent + 1;
          if status == 200 {
            return Ok(body), sent, sleeps;
          }
          if 400 <= status < 500 {
            return Err(StatusError(attempt, status)), sent, sleeps;
          }
          last := Some(StatusError(attempt, status));
        case NetworkError =>
          sent := sent + 1;
          last := Some(NetworkFailure(attempt));
          if attempt < c.maxRetries {
            sleeps := sleeps + [Delay(attempt)];
          }
      }
      attempt := attempt + 1;
    }
    assert sleeps + [] == sleeps;
    result := if last.Some? then Err(last.value) else Err(NoAttempt);
  }

  /** One retried attempt: it counts as sent, and waits only after a network error that is not the last attempt. */
  lemma AttemptsStep(m: int, server: nat -> Outcome, k: nat, last: Option<Error>)
    requires k <= m && Retried(server, k)
    ensures var rest := Attempts(m, server, k + 1, Some(ErrorOf(server, k)));
      Attempts(m, server, k, last) ==
        Run(rest.result, rest.sent + 1, (if server(k).NetworkError? && k < m then [Delay(k)] else []) + rest.sleeps)
  {
  }

  /** At most `maxRetries + 1` requests from attempt `k` on, and at least one while any is left. */
  lemma {:induction false} AttemptsSent(m: int, server: nat -> Outcome, k: nat, last: Option<Error>)
    requires k <= m + 1
    ensures Attempts(m, server, k, last).sent <= m + 1 - k
    ensures k <= m ==> Attempts(m, server, k, last).sent >= 1
    decreases m + 1 - k
  {
    if k <= m && Retried(server, k) {
      AttemptsStep(m, server, k, last);
      AttemptsSent(m, server, k + 1, Some(ErrorOf(server, k)));
    }
  }

  /** The loop sends at most `max_retries + 1` requests, and none when that is not positive. */
  lemma RequestSent(c: Client, server: nat -> Outcome)
    ensures c.maxRetries >= 0 ==> 1 <= Request(c, server).sent <= c.maxRetries + 1
    ensures c.maxRetries < 0 ==> Request(c, server) == Run(Err(NoAttempt), 0, [])
  {
    if c.maxRetries >= 0 {
      AttemptsSent(c.maxRetries, server, 0, None);
    }
  }

  /** Attempts `k..j-1` were retried and attempt `j` ends the loop: attempt `j` decides the result. */
  lemma {:induction false} AttemptsStopAt(m: int, server: nat -> Outcome, k: nat, j: nat, last: Option<Error>)
    requires k <= j <= m
    requires forall i :: k <= i < j ==> Retried(server, i)
    requires !Retried(server, j)
    ensures Attempts(m, server, k, last).sent == j + 1 - k
    ensures Attempts(m, server, k, last).result ==
      (if server(j).status == 200 then Ok(server(j).body) else Err(StatusError(j, server(j).status)))
    decreases j - k
  {
    if k < j {
      AttemptsStep(m, server, k, last);
      AttemptsStopAt(m, server, k + 1, j, Some(ErrorOf(server, k)));
    }
  }

  /** The first 200 reply is returned as it is, and nothing more is sent. */
  lemma FirstSuccess(c: Client, server: nat -> Outcome, j: nat)
    requires j <= c.maxRetries
    requires forall i :: 0 <= i < j ==> Retried(server, i)
    requires server(j).Reply? && server(j).status == 200
    ensures Request(c, server).result == Ok(server(j).body)
    ensures Request(c, server).sent == j + 1
  {
    AttemptsStopAt(c.maxRetries, server, 0, j, None);
  }

  /** A 4xx reply raises on that attempt and no further request is sent. */
  lemma ClientErrorStops(c: Client, server: nat -> Outcome, j: nat)
    requires j <= c.maxRetries
    requires forall i :: 0 <= i < j ==> Retried(server, i)
    requires server(j).Reply? && 400 <= server(j).status < 500
    ensures Request(c, server).result == Err(StatusError(j, server(j).status))
    ensures Request(c, server).sent == j + 1
  {
    AttemptsStopAt(c.maxRetries, server, 0, j, None);
  }

  lemma {:induction false} AttemptsExhausted(m: int, server: nat -> Outcome, k: nat, last: Option<Error>)
    requires k <= m
    requires forall i :: k <= i <= m ==> Retried(server, i)
    ensures Attempts(m, server, k, last).sent == m + 1 - k
    ensures Attempts(m, server, k, last).result == Err(ErrorOf(server, m))
    decreases m - k
  {
    AttemptsStep(m, server, k, last);
    if k < m {
      AttemptsExhausted(m, server, k + 1, Some(ErrorOf(server, k)));
    }
  }

  /** When every attempt fails, all `max_retries + 1` requests are sent and the last error is raised. */
  lemma AllAttemptsFail(c: Client, server: nat -> Outcome)
    requires c.maxRetries >= 0
    requires forall i :: 0 <= i <= c.maxRetries ==> Retried(server, i)
    ensures Request(c, server).sent == c.maxRetries + 1
    ensures Request(c, server).result == Err(ErrorOf(server, c.maxRetries))
  {
    AttemptsExhausted(c.maxRetries, server, 0, None);
  }

  /** The waits owed to attempts `k..n-1`: a network error on an attempt before the last one waits `Delay`; nothing else waits. */
  function NetworkDelays(m: int, server: nat -> Outcome, k: nat, n: nat): seq<nat>
    decreases n - k
  {
    if n <= k then []
    else (if server(k).NetworkError? && k < m then [Delay(k)] else []) + NetworkDelays(m, server, k + 1, n)
  }

  lemma {:induction false} AttemptsSleeps(m: int, server: nat -> Outcome, k: nat, last: Option<Error>)
    ensures Attempts(m, server, k, last).sleeps == NetworkDelays(m, server, k, k + Attempts(m, server, k, last).sent)
    decreases m + 1 - k
  {
    if k <= m && Retried(server, k) {
      AttemptsStep(m, server, k, last);
      AttemptsSleeps(m, server, k + 1, Some(ErrorOf(server, k)));
    }
  }

  /** The loop sleeps only after network errors, never after a status error, and never after the last attempt. */
  lemma RequestSleeps(c: Client, server: nat -> Outcome)
    ensures Request(c, server).sleeps == NetworkDelays(c.maxRetries, server, 0, Request(c, server).sent)
  {
    AttemptsSleeps(c.maxRetries, server, 0, None);
  }

  lemma {:induction false} NoNetworkNoDelays(m: int, server: nat -> Outcome, k: nat, n: nat)
    requires forall i :: k <= i < n ==> server(i).Reply?
    ensures NetworkDelays(m, server, k, n) == []
    decreases n - k
  {
    if k < n {
      NoNetworkNoDelays(m, server, k + 1, n);
    }
  }

  /** Replies that are 5xx (or any non-200 outside 4xx) are retried at once, with no wait at all. */
  lemma StatusErrorsNoWait(c: Client, server: nat -> Outcome)
    requires forall i :: 0 <= i <= c.maxRetries ==> server(i).Reply?
    ensures Request(c, server).sleeps == []
  {
    RequestSleeps(c, server);
    if c.maxRetries >= 0 {
      AttemptsSent(c.maxRetries, server, 0, None);
    }
    NoNetworkNoDelays(c.maxRetries, server, 0, Request(c, server).sent);
  }

  // ---------------------------------------------------------------------------
  // _parse_response

  /** `key in v` then `v[key]`: `missing` when the test is false, TypeError when Python cannot do the test or the subscript. */
  function Field(v: Value, key: string, missing: Error): (r: Result<Value, Error>)
    ensures r.Ok? <==> Has(v, key)
    ensures r.Ok? ==> r.value == v.fields[key]
    ensures v.Obj? && r.Err? ==> r.error == missing
  {
    match Contains(v, key)
    case None => Err(TypeError)
    case Some(found) =>
      if !found then Err(missing)
      else if v.Obj? then Ok(v.fields[key])
      else Err(TypeError)
  }

  /** The brace slice `text[text.find('{') : text.rfind('}') + 1]`. */
  function Braced(text: string): string {
    var start := PyStr.Find(text, '{');
    var end := PyStr.RFind(text, '}') + 1;
    if start == -1 then [] else PyStr.Slice(text, start, end)
  }

  /** `json.loads(text)`, falling back to the brace slice when the text is not JSON;
      the fallback is tried only when both braces are present. */
  function Decode(text: string, parse: string -> Option<Value>): (r: Result<Value, Error>)
    ensures parse(text).Some? ==> r == Ok(parse(text).value)
    ensures parse(text).None? && ('{' !in text || '}' !in text) ==> r == Err(NotJson)
    ensures parse(text).None? && '{' in text && '}' in text ==>
      r == (if parse(Braced(text)).Some? then Ok(parse(Braced(text)).value) else Err(NotJson))
  {
    match parse(text)
    case Some(v) => Ok(v)
    case None =>
      var start := PyStr.Find(text, '{');
      var end := PyStr.RFind(text, '}') + 1;
      if start != -1 && end != 0 then
        match parse(PyStr.Slice(text, start, end))
        case Some(v) => Ok(v)
        case None => Err(NotJson)
      else Err(NotJson)
  }

  /** With no '{' before `open` and no '}' after `close`, the brace slice runs from `open` through `close`. */
  lemma BracedBetween(text: string, open: nat, close: nat)
    requires open < close < |text| && text[open] == '{' && text[close] == '}'
    requires forall j :: 0 <= j < open ==> text[j] != '{'
    requires forall j :: close < j < |text| ==> text[j] != '}'
    ensures Braced(text) == text[open..close + 1]
  {
    PyStr.FindAt(text, '{', open);
    PyStr.RFindAt(text, '}', close);
    assert PyStr.Min(close + 1, |text|) == close + 1;
    assert PyStr.Slice(text, open, close + 1) == text[open..close + 1];
  }

  /** The brace slice of prose around one JSON object is that object. */
  lemma BracedAround(pre: string, body: string, post: string)
    requires '{' !in pre && '}' !in post
    ensures Braced(pre + ['{'] + body + ['}'] + post) == ['{'] + body + ['}']
  {
    var obj := ['{'] + body + ['}'];
    var text := pre + obj + post;
    assert pre + ['{'] + body + ['}'] + post == text;
    var close := |pre| + 1 + |body|;
    assert forall j :: 0 <= j < |pre| ==> text[j] == pre[j];
    assert forall j :: close < j < |text| ==> text[j] == post[j - close - 1];
    BracedBetween(text, |pre|, close);
    assert text[|pre|..|pre| + |obj|] == obj;
  }

  /** The items list of a reply: output.text must exist and be a string, decode to JSON, and hold a list under 'items'. */
  function ItemsOf(response: Value, parse: string -> Option<Value>): (r: Result<seq<Value>, Error>)
    ensures r.Ok? ==> (Has(response, "output") && Has(response.fields["output"], "text")
      && response.fields["output"].fields["text"].Str?)
    ensures !Has(response, "output") && response.Obj? ==> r == Err(MissingText)
    ensures r.Ok? ==> var d := Decode(response.fields["output"].fields["text"].s, parse);
      d.Ok? && Has(d.value, "items") && d.value.fields["items"] == Arr(r.value)
  {
    match Field(response, "output", MissingText)
    case Err(e) => Err(e)
    case Ok(output) =>
      match Field(output, "text", MissingText)
      case Err(e) => Err(e)
      case Ok(text) =>
        if !text.Str? then Err(TypeError)
        else match Decode(text.s, parse)
          case Err(e) => Err(e)
          case Ok(parsed) =>
            match Field(parsed, "items", MissingItems)
            case Err(e) => Err(e)
            case Ok(items) => if items.Arr? then Ok(items.items) else Err(ItemsNotList)
  }

  /** What `_parse_response` keeps of one item. */
  datatype Item =
    | Place(name: Value, code: Value)                       // province, city, district
    | Clinic(name: Value, website: Value, confidence: real)  // hospital

  /** Python's `float(v)`; `parseFloat` reads a numeric string. */
  function ToFloat(v: Value, parseFloat: string -> Option<real>): Option<real> {
    match v
    case Num(n) => Some(n)
    case Bool(b) => Some(if b then 1.0 else 0.0)
    case Str(s) => parseFloat(s)
    case _ => None
  }

  /** `item.get('confidence', 0.7)` */
  function ConfidenceOf(item: Value): Value {
    if Has(item, "confidence") then item.fields["confidence"] else Num(0.7)
  }

  /** `item.get('website', '')` */
  function WebsiteOf(item: Value): Value {
    if Has(item, "website") then item.fields["website"] else Str("")
  }

  predicate PlaceLevel(level: string) {
    level == "province" || level == "city" || level == "district"
  }

  /** One step of the validation loop: skip, keep, or raise from `float()`. */
  function Keep(level: string, item: Value, parseFloat: string -> Option<real>): Result<Option<Item>, Error> {
    if !Has(item, "name") then Ok(None)
    else if PlaceLevel(level) then Ok(Some(Place(item.fields["name"], GetOrNull(item, "code"))))
    else if level == "hospital" then
      match ToFloat(ConfidenceOf(item), parseFloat)
      case None => Err(BadConfidence)
      case Some(x) => Ok(Some(Clinic(item.fields["name"], WebsiteOf(item), x)))
    else Ok(None)
  }

  /** The loop's result on a prefix of the items. */
  function Validated(level: string, items: seq<Value>, parseFloat: string -> Option<real>): Result<seq<Item>, Error>
    decreases |items|
  {
    if items == [] then Ok([])
    else
      match Validated(level, items[..|items| - 1], parseFloat)
      case Err(e) => Err(e)
      case Ok(done) =>
        match Keep(level, items[|items| - 1], parseFloat)
        case Err(e) => Err(e)
        case Ok(None) => Ok(done)
        case Ok(Some(x)) => Ok(done + [x])
  }

  /** Once an item raises, the rest of the list is not looked at. */
  lemma {:induction false} ValidatedStaysErr(level: string, items: seq<Value>, k: nat, parseFloat: string -> Option<real>)
    requires k <= |items| && Validated(level, items[..k], parseFloat).Err?
    ensures Validated(level, items, parseFloat) == Validated(level, items[..k], parseFloat)
    decreases |items|
  {
    if k < |items| {
      var init := items[..|items| - 1];
      assert init[..k] == items[..k];
      ValidatedStaysErr(level, init, k, parseFloat);
    } else {
      assert items[..k] == items;
    }
  }

  /** The objects that carry a 'name', in their input order. */
  function Named(items: seq<Value>): (r: seq<Value>)
    ensures |r| <= |items|
    ensures forall x :: x in r ==> x in items && Has(x, "name")
    ensures forall i :: 0 <= i < |r| ==> Has(r[i], "name")
    ensures forall x :: x in items && Has(x, "name") ==> x in r
    decreases |items|
  {
    if items == [] then []
    else
      var init := items[..|items| - 1];
      assert forall x :: x in items ==> x in init || x == items[|items| - 1];
      Named(init) + (if Has(items[|items| - 1], "name") then [items[|items| - 1]] else [])
  }

  /** Filtering commutes with concatenation: the kept items of a list keep their relative order. */
  lemma {:induction false} NamedConcat(a: seq<Value>, b: seq<Value>)
    ensures Named(a + b) == Named(a) + Named(b)
    decreases |b|
  {
    if b == [] {
      assert a + b == a;
    } else {
      var b' := b[..|b| - 1];
      assert (a + b)[..|a + b| - 1] == a + b';
      assert (a + b)[|a + b| - 1] == b[|b| - 1];
      NamedConcat(a, b');
    }
  }

  /** For province, city and district the result is the named items, each as {name, code}. */
  lemma {:induction false} ValidatedPlaces(level: string, items: seq<Value>, parseFloat: string -> Option<real>)
    requires PlaceLevel(level)
    ensures var r := Validated(level, items, parseFloat);
      r.Ok? && |r.value| == |Named(items)| &&
      (forall i :: 0 <= i < |r.value| ==>
        r.value[i] == Place(Named(items)[i].fields["name"], GetOrNull(Named(items)[i], "code")))
    decreases |items|
  {
    if items != [] {
      ValidatedPlaces(level, items[..|items| - 1], parseFloat);
    }
  }

  /** For hospitals the call succeeds exactly when every named item's confidence converts;
      the result is then the named items as {name, website, confidence}. */
  lemma {:induction false} ValidatedClinics(items: seq<Value>, parseFloat: string -> Option<real>)
    ensures var r := Validated("hospital", items, parseFloat);
      r.Ok? <==> forall x :: x in Named(items) ==> ToFloat(ConfidenceOf(x), parseFloat).Some?
    ensures var r := Validated("hospital", items, parseFloat);
      r.Ok? ==> (|r.value| == |Named(items)| &&
        forall i :: 0 <= i < |r.value| ==>
          r.value[i] == Clinic(Named(items)[i].fields["name"], WebsiteOf(Named(items)[i]),
                               ToFloat(ConfidenceOf(Named(items)[i]), parseFloat).value))
    decreases |items|
  {
    if items != [] {
      var init := items[..|items| - 1];
      var x := items[|items| - 1];
      ValidatedClinics(init, parseFloat);
      assert Named(items) == Named(init) + (if Has(x, "name") then [x] else []);
    }
  }

  /** Any other level keeps nothing. */
  lemma {:induction false} ValidatedOther(level: string, items: seq<Value>, parseFloat: string -> Option<real>)
    requires !PlaceLevel(level) && level != "hospital"
    ensures Validated(level, items, parseFloat) == Ok([])
    decreases |items|
  {
    if items != [] {
      ValidatedOther(level, items[..|items| - 1], parseFloat);
    }
  }

  /** `_parse_response`: the items list is extracted, then each item is validated in turn. */
  method ParseResponse(response: Value, level: string, parse: string -> Option<Value>,
                       parseFloat: string -> Option<real>) returns (r: Result<seq<Item>, Error>)
    ensures ItemsOf(response, parse).Err? ==> r == Err(ItemsOf(response, parse).error)
    ensures ItemsOf(response, parse).Ok? ==> r == Validated(level, ItemsOf(response, parse).value, parseFloat)
  {
    var extracted := ItemsOf(response, parse);
    if extracted.Err? {
      return Err(extracted.error);
    }
    var items := extracted.value;
    var validated: seq<Item> := [];
    var i := 0;
    while i < |items|
      invariant 0 <= i <= |items|
      invariant Validated(level, items[..i], parseFloat) == Ok(validated)
    {
      assert items[..i + 1][..i] == items[..i];
      var item := items[i];
      if Has(item, "name") {
        if PlaceLevel(level) {
          validated := validated + [Place(item.fields["name"], GetOrNull(item, "code"))];
        } else if level == "hospital" {
          var confidence := ToFloat(ConfidenceOf(item), parseFloat);
          if confidence.None? {
            ValidatedStaysErr(level, items, i + 1, parseFloat);
            return Err(BadConfidence);
          }
          validated := validated + [Clinic(item.fields["name"], WebsiteOf(item), confidence.value)];
        }
      }
      i := i + 1;
    }
    assert items[..i] == items;
    r := Ok(validated);
  }

  /** A successful parse never returns more items than the reply held. */
  lemma ParsedAtMostItems(level: string, items: seq<Value>, parseFloat: string -> Option<real>)
    ensures Validated(level, items, parseFloat).Ok? ==> |Validated(level, items, parseFloat).value| <= |items|
  {
    if PlaceLevel(level) {
      ValidatedPlaces(level, items, parseFloat);
    } else if level == "hospital" {
      ValidatedClinics(items, parseFloat);
    } else {
      ValidatedOther(level, items, parseFloat);
    }
  }

  // ---------------------------------------------------------------------------
  // _build_prompt

  /** A prompt, by what it asks for; the wording is not modelled. */
  datatype Prompt = ProvincesPrompt | ChildrenPrompt(level: string, subject: string)

  /** How an f-string renders the optional input. */
  function Render(input: Option<string>): string {
    if input.Some? then input.value else "None"
  }

  /** The province prompt takes no input; city, district and hospital prompts embed it; any other level raises. */
  function BuildPrompt(level: string, input: Option<string>): (r: Result<Prompt, Error>)
    ensures r.Err? <==> !PlaceLevel(level) && level != "hospital"
    ensures r.Err? ==> r.error == UnsupportedLevel(level)
    ensures level == "province" ==> r == Ok(ProvincesPrompt)
    ensures r.Ok? && level != "province" ==> r.value.ChildrenPrompt? && r.value.level == level
    ensures r.Ok? && level != "province" && input.Some? ==> r.value.subject == input.value
  {
    if level == "province" then Ok(ProvincesPrompt)
    else if level == "city" || level == "district" || level == "hospital" then Ok(ChildrenPrompt(level, Render(input)))
    else Err(UnsupportedLevel(level))
  }
}
