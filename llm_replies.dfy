/**
 * The LLM client of the hospital scanner (code/hospital_scanner/llm_client.py):
 * the API-key check, the status and reply-shape handling of one request,
 * and what the four callers do with the reply text: the name check made
 * before any request, markdown-fence cleanup, slicing out the JSON
 * candidate, and the required-field validation.
 *
 * The HTTP exchange is an input `Outcome`; `json.loads` is an oracle
 * `parse`. Every failure reaches the caller as a ValueError; the `Error`
 * constructors say which check raised it.
 */
module LlmReplies {
  import opened Wrappers
  import opened Json
  import PyStr

  /** Why a call raised. */
  datatype Error =
    | MissingKey              // DASHSCOPE_API_KEY unset or empty
    | AuthFailed              // status 401
    | RateLimited             // status 429
    | ServerFault             // status 500
    | HttpStatus(code: int)   // any other status but 200
    | TransportFailure        // timeout, connection error or other requests exception
    | BodyNotJson             // response.json() failed
    | PyError                 // a TypeError or KeyError raised while probing the reply
    | Unrecognised            // no known reply shape
    | InvalidName             // the name is shorter than 2 characters once trimmed
    | EmptyReply              // the reply is falsy
    | NoJson                  // no opening delimiter in the cleaned reply
    | NotJson                 // json.loads raised
    | NotObject               // the parsed value is not a dict
    | NotList                 // the parsed value is not a list
    | FieldsMissing(gaps: seq<Gap>)
    | WrongType(field: string)
    | BadElement(index: nat)

  /** One entry of `missing_fields`: a key that is absent, or present but empty. */
  datatype Gap = Absent(field: string) | Empty(field: string)

  datatype Client = Client(apiKey: string)

  /** `os.getenv("DASHSCOPE_API_KEY", "")` followed by the emptiness check. */
  function NewClient(envKey: Option<string>): (r: Result<Client, Error>)
    ensures r.Ok? <==> envKey.Some? && envKey.value != []
    ensures r.Ok? ==> r.value.apiKey == envKey.value
    ensures r.Err? ==> r.error == MissingKey
  {
    if envKey.Some? && envKey.value != [] then Ok(Client(envKey.value)) else Err(MissingKey)
  }

  // ---------------------------------------------------------------------------
  // Python's probing operators on a decoded reply

  /** `key in v`; TypeError on values that support no `in`. */
  function In(key: string, v: Value): (r: Result<bool, Error>)
    ensures v.Obj? ==> r == Ok(key in v.fields)
  {
    match Contains(v, key)
    case None => Err(PyError)
    case Some(b) => Ok(b)
  }

  /** `v[key]`: KeyError on a missing key, TypeError on anything but a dict. */
  function Sub(v: Value, key: string): (r: Result<Value, Error>)
    ensures r.Ok? <==> Has(v, key)
    ensures r.Ok? ==> r.value == v.fields[key]
  {
    if Has(v, key) then Ok(v.fields[key]) else Err(PyError)
  }

  /** `len(v)`: defined on strings, lists and dicts. */
  function Len(v: Value): (r: Result<nat, Error>)
    ensures r.Ok? <==> v.Str? || v.Arr? || v.Obj?
  {
    match v
    case Str(s) => Ok(|s|)
    case Arr(items) => Ok(|items|)
    case Obj(fields) => Ok(|fields|)
    case _ => Err(PyError)
  }

  /** `v[0]` on a non-empty value: a list's first item or a string's first character;
      a dict has no key 0 since JSON keys are strings. */
  function First(v: Value): (r: Result<Value, Error>)
    ensures v.Arr? && v.items != [] ==> r == Ok(v.items[0])
  {
    match v
    case Arr(items) => if items != [] then Ok(items[0]) else Err(PyError)
    case Str(s) => if s != [] then Ok(Str([s[0]])) else Err(PyError)
    case _ => Err(PyError)
  }

  // ---------------------------------------------------------------------------
  // _make_request

  /** What the single HTTP exchange gave: a status with the body if it is JSON, or a requests exception. */
  datatype Outcome = Reply(status: int, body: Option<Value>) | Transport

  /** `choice["message"]["content"]` if `"message" in choice and "content" in choice["message"]`,
      with the `len(content)` of the debug log evaluated; None when the shape is incomplete. */
  function MessageContent(choice: Value): Result<Option<Value>, Error> {
    match In("message", choice)
    case Err(e) => Err(e)
    case Ok(false) => Ok(None)
    case Ok(true) =>
      match Sub(choice, "message")
      case Err(e) => Err(e)
      case Ok(message) =>
        match In("content", message)
        case Err(e) => Err(e)
        case Ok(false) => Ok(None)
        case Ok(true) =>
          match Sub(message, "content")
          case Err(e) => Err(e)
          case Ok(content) =>
            match Len(content)
            case Err(e) => Err(e)
            case Ok(_) => Ok(Some(content))
  }

  /** `len(v["choices"]) > 0` and then `v["choices"][0]`'s message content; None when any step says no. */
  function ChoicesContent(v: Value): Result<Option<Value>, Error> {
    match Sub(v, "choices")
    case Err(e) => Err(e)
    case Ok(choices) =>
      match Len(choices)
      case Err(e) => Err(e)
      case Ok(n) =>
        if n == 0 then Ok(None)
        else match First(choices)
          case Err(e) => Err(e)
          case Ok(choice) => MessageContent(choice)
  }

  /** The reply text of a decoded body: output.choices[0].message.content, else output.text,
      else choices[0].message.content, else an error. */
  function ReplyText(result: Value): (r: Result<Value, Error>)
    ensures r.Ok? ==> r.value.Str? || r.value.Arr? || r.value.Obj?
  {
    match In("output", result)
    case Err(e) => Err(e)
    case Ok(hasOutput) =>
      var first: Result<Option<Value>, Error> :=
        if !hasOutput then Ok(None)
        else match Sub(result, "output")
          case Err(e) => Err(e)
          case Ok(output) =>
            if output.Obj? && "choices" in output.fields then ChoicesContent(output) else Ok(None);
      match first
      case Err(e) => Err(e)
      case Ok(Some(content)) => Ok(content)
      case Ok(None) =>
        if hasOutput && result.fields["output"].Obj? && "text" in result.fields["output"].fields then
          var text := result.fields["output"].fields["text"];
          match Len(text)
          case Err(e) => Err(e)
          case Ok(_) => Ok(text)
        else
          match In("choices", result)
          case Err(e) => Err(e)
          case Ok(false) => Err(Unrecognised)
          case Ok(true) =>
            match ChoicesContent(result)
            case Err(e) => Err(e)
            case Ok(Some(content)) => Ok(content)
            case Ok(None) => Err(Unrecognised)
  }

  /** `_make_request`: any status but 200 raises, with 401, 429 and 500 told apart; a 200 body is probed for its text. */
  function MakeRequest(outcome: Outcome): (r: Result<Value, Error>)
    ensures r.Ok? ==> (outcome.Reply? && outcome.status == 200 && outcome.body.Some?
      && r == ReplyText(outcome.body.value))
    ensures outcome.Transport? ==> r == Err(TransportFailure)
    ensures outcome.Reply? && outcome.status != 200 ==>
      r == Err(if outcome.status == 401 then AuthFailed
               else if outcome.status == 429 then RateLimited
               else if outcome.status == 500 then ServerFault
               else HttpStatus(outcome.status))
  {
    match outcome
    case Transport => Err(TransportFailure)
    case Reply(status, body) =>
      if status == 401 then Err(AuthFailed)
      else if status == 429 then Err(RateLimited)
      else if status == 500 then Err(ServerFault)
      else if status != 200 then Err(HttpStatus(status))
      else if body.None? then Err(BodyNotJson)
      else ReplyText(body.value)
  }

  /** A well-formed message object `{"message": {"content": c}}`. */
  predicate Choice(choice: Value, content: string) {
    Has(choice, "message") && choice.fields["message"].Obj?
      && Has(choice.fields["message"], "content") && choice.fields["message"].fields["content"] == Str(content)
  }

  /** A dict whose "choices" list starts with a well-formed message. */
  predicate ChoicesWith(v: Value, content: string) {
    Has(v, "choices") && v.fields["choices"].Arr? && v.fields["choices"].items != []
      && Choice(v.fields["choices"].items[0], content)
  }

  /** output.choices[0].message.content comes first, whatever output.text holds. */
  lemma OutputChoicesFirst(result: Value, content: string)
    requires Has(result, "output") && ChoicesWith(result.fields["output"], content)
    ensures ReplyText(result) == Ok(Str(content))
  {
  }

  /** Without usable output.choices, output.text is taken. */
  lemma OutputTextNext(result: Value, text: string)
    requires Has(result, "output") && result.fields["output"].Obj?
    requires !Has(result.fields["output"], "choices")
    requires Has(result.fields["output"], "text") && result.fields["output"].fields["text"] == Str(text)
    ensures ReplyText(result) == Ok(Str(text))
  {
  }

  /** Without an "output" key the root choices[0].message.content is taken. */
  lemma RootChoicesLast(result: Value, content: string)
    requires result.Obj? && "output" !in result.fields && ChoicesWith(result, content)
    ensures ReplyText(result) == Ok(Str(content))
  {
  }

  /** A dict with neither "output" nor "choices" is not recognised. */
  lemma NeitherShape(result: Value)
    requires result.Obj? && "output" !in result.fields && "choices" !in result.fields
    ensures ReplyText(result) == Err(Unrecognised)
  {
  }

  // ---------------------------------------------------------------------------
  // Reply cleanup

  /** The name check at the start of every caller: at least two characters once trimmed. */
  predicate ValidName(name: string) {
    |PyStr.Strip(name)| >= 2
  }

  /** The cleanup of the reply text, step by step on one local string. */
  method StripFences(reply: string) returns (text: string)
    ensures text == Unfenced(reply)
  {
    text := PyStr.Strip(reply);
    ghost var a := text;
    if PyStr.StartsWith(text, "```json") {
      text := text[7..];
    }
    assert text == DropJsonFence(a);
    ghost var b := text;
    if PyStr.StartsWith(text, "```") {
      text := text[3..];
    }
    assert text == DropFence(b);
    ghost var c := text;
    if PyStr.EndsWith(text, "```") {
      text := text[..|text| - 3];
    }
    assert text == DropClosingFence(c);
    text := PyStr.Strip(text);
  }

  /** A leading "```json" is dropped. */
  function DropJsonFence(a: string): string {
    if PyStr.StartsWith(a, "```json") then a[7..] else a
  }

  /** A leading "```" is dropped. */
  function DropFence(b: string): string {
    if PyStr.StartsWith(b, "```") then b[3..] else b
  }

  /** A trailing "```" is dropped. */
  function DropClosingFence(c: string): string {
    if PyStr.EndsWith(c, "```") then c[..|c| - 3] else c
  }

  /** What the cleanup yields: trim, drop a leading "```json", then a leading "```", then a trailing "```", trim. */
  function Unfenced(reply: string): string {
    PyStr.Strip(DropClosingFence(DropFence(DropJsonFence(PyStr.Strip(reply)))))
  }

  /** The cleaned text is trimmed. */
  lemma UnfencedTrimmed(reply: string)
    ensures PyStr.Strip(Unfenced(reply)) == Unfenced(reply)
  {
    PyStr.StripIdempotent(DropClosingFence(DropFence(DropJsonFence(PyStr.Strip(reply)))));
  }

  /** A reply with no fence at either end is only trimmed. */
  lemma UnfencedPlain(reply: string)
    requires !PyStr.StartsWith(PyStr.Strip(reply), "```")
    requires !PyStr.EndsWith(PyStr.Strip(reply), "```")
    ensures Unfenced(reply) == PyStr.Strip(reply)
  {
    var a := PyStr.Strip(reply);
    assert !PyStr.StartsWith(a, "```json") by {
      if |a| >= 7 {
        assert a[..3] == a[..7][..3];
      }
    }
    PyStr.StripIdempotent(reply);
  }

  /** A block fenced as ```json ... ``` gives back its trimmed body. */
  lemma UnfencedFenced(body: string)
    requires body != [] && body[0] != '`'
    ensures Unfenced("```json" + body + "```") == PyStr.Strip(body)
  {
    var s := "```json" + body + "```";
    PyStr.LStripOfNonSpace(s);
    PyStr.RStripOfNonSpace(s);
    assert PyStr.StartsWith(s, "```json") by {
      assert s[..7] == "```json";
    }
    var b := s[7..];
    assert b == body + "```";
    assert !PyStr.StartsWith(b, "```") by {
      assert b[0] == body[0];
    }
    assert PyStr.EndsWith(b, "```") by {
      assert b[|b| - 3..] == "```";
    }
    assert b[..|b| - 3] == body;
  }

  /** The JSON candidate as the code computes it: from the first `open` through the last `close`.
      The guard `json_end == -1` can never fire, since `rfind(...) + 1` is at least 0. */
  function Candidate(text: string, open: char, close: char): (r: Result<string, Error>)
    ensures r.Err? <==> open !in text
    ensures r.Err? ==> r.error == NoJson
  {
    var start := PyStr.Find(text, open);
    var end := PyStr.RFind(text, close) + 1;
    if start == -1 || end == -1 then Err(NoJson) else Ok(PyStr.Slice(text, start, end))
  }

  /** A missing closing delimiter slips past the guard as an empty candidate. */
  lemma CandidateMissingClose(text: string, open: char, close: char)
    requires open in text && close !in text
    ensures Candidate(text, open, close) == Ok([])
  {
  }

  /** The candidate the guard evidently means: both delimiters present, the first
      opening one before the last closing one. */
  function CandidateChecked(text: string, open: char, close: char): (r: Result<string, Error>)
    ensures r.Err? <==> open !in text || close !in text || PyStr.RFind(text, close) < PyStr.Find(text, open)
    ensures r.Err? ==> r.error == NoJson
    ensures r.Ok? ==> |r.value| >= 1 && r.value[0] == open && r.value[|r.value| - 1] == close
  {
    var start := PyStr.Find(text, open);
    var last := PyStr.RFind(text, close);
    if start == -1 || last == -1 || last < start then Err(NoJson)
    else Ok(text[start..last + 1])
  }

  /** Where both delimiters are present in order, the code's candidate and the checked one agree. */
  lemma CandidateAgrees(text: string, open: char, close: char)
    requires CandidateChecked(text, open, close).Ok?
    ensures Candidate(text, open, close) == CandidateChecked(text, open, close)
  {
  }

  /** Prose around one JSON value: the candidate is exactly that value. */
  lemma CandidateAround(pre: string, body: string, post: string, open: char, close: char)
    requires open !in pre && close !in post
    ensures CandidateChecked(pre + [open] + body + [close] + post, open, close) == Ok([open] + body + [close])
  {
    var obj := [open] + body + [close];
    var text := pre + obj + post;
    assert pre + [open] + body + [close] + post == text;
    var last := |pre| + 1 + |body|;
    assert forall j :: 0 <= j < |pre| ==> text[j] == pre[j];
    assert text[|pre|] == open;
    PyStr.FindAt(text, open, |pre|);
    assert forall j :: last < j < |text| ==> text[j] == post[j - last - 1];
    assert text[last] == close;
    PyStr.RFindAt(text, close, last);
    assert text[|pre|..|pre| + |obj|] == obj;
  }

  /** The reply as cleaned text: it must be truthy, and a string (`len` and `strip` raise on other kinds). */
  function Cleaned(reply: Value): (r: Result<string, Error>)
    ensures r.Ok? <==> reply.Str? && reply.s != []
    ensures r.Ok? ==> r.value == Unfenced(reply.s)
  {
    if !Truthy(reply) then Err(EmptyReply)
    else if !reply.Str? then Err(PyError)
    else Ok(Unfenced(reply.s))
  }

  /** From the reply to the parsed value: cleaned, sliced, parsed. */
  function Decoded(reply: Value, open: char, close: char, parse: string -> Option<Value>): (r: Result<Value, Error>)
    ensures r.Ok? ==> Cleaned(reply).Ok?
    ensures r.Ok? ==> var c := CandidateChecked(Cleaned(reply).value, open, close);
      c.Ok? && parse(c.value) == Some(r.value)
  {
    match Cleaned(reply)
    case Err(e) => Err(e)
    case Ok(text) =>
      match CandidateChecked(text, open, close)
      case Err(e) => Err(e)
      case Ok(candidate) =>
        match parse(candidate)
        case None => Err(NotJson)
        case Some(v) => Ok(v)
  }

  /** Where the checked slice fails but the code's guard lets the text through,
      the code's candidate is the empty string. */
  lemma CandidateEmptyOtherwise(text: string, open: char, close: char)
    requires Candidate(text, open, close).Ok? && CandidateChecked(text, open, close).Err?
    ensures Candidate(text, open, close).value == []
  {
  }

  /** Decoding as written: cleaned, sliced with the code's guard, parsed. */
  function DecodedAsWritten(reply: Value, open: char, close: char, parse: string -> Option<Value>): (r: Result<Value, Error>)
    ensures r.Ok? ==> Cleaned(reply).Ok?
    ensures r.Ok? ==> var c := Candidate(Cleaned(reply).value, open, close);
      c.Ok? && parse(c.value) == Some(r.value)
  {
    match Cleaned(reply)
    case Err(e) => Err(e)
    case Ok(text) =>
      match Candidate(text, open, close)
      case Err(e) => Err(e)
      case Ok(candidate) =>
        match parse(candidate)
        case None => Err(NotJson)
        case Some(v) => Ok(v)
  }

  /** Since `json.loads("")` raises, routing through the checked slice changes
      only which error a bad reply reports: both decodings succeed on the same
      replies, with the same value. */
  lemma DecodedSameOutcome(reply: Value, open: char, close: char, parse: string -> Option<Value>)
    requires parse([]) == None
    ensures DecodedAsWritten(reply, open, close, parse).Ok? <==> Decoded(reply, open, close, parse).Ok?
    ensures Decoded(reply, open, close, parse).Ok? ==>
              DecodedAsWritten(reply, open, close, parse) == Decoded(reply, open, close, parse)
  {
    if Cleaned(reply).Ok? {
      var text := Cleaned(reply).value;
      if CandidateChecked(text, open, close).Ok? {
        CandidateAgrees(text, open, close);
      } else if Candidate(text, open, close).Ok? {
        CandidateEmptyOtherwise(text, open, close);
      }
    }
  }

  // ---------------------------------------------------------------------------
  // Required-field validation

  /** A present value counts as filled: truthy for the hospital analysis, not None for the place lists. */
  predicate Filled(v: Value, truthy: bool) {
    if truthy then Truthy(v) else !v.Null?
  }

  /** `missing_fields` after the loop over the first entries of `fields`. */
  function Missing(result: map<string, Value>, fields: seq<string>, truthy: bool): seq<Gap>
    decreases |fields|
  {
    if fields == [] then []
    else
      var f := fields[|fields| - 1];
      Missing(result, fields[..|fields| - 1], truthy)
        + (if f !in result then [Absent(f)] else if !Filled(result[f], truthy) then [Empty(f)] else [])
  }

  /** The loop that collects `missing_fields`. */
  method MissingFields(result: map<string, Value>, fields: seq<string>, truthy: bool) returns (gaps: seq<Gap>)
    ensures gaps == Missing(result, fields, truthy)
  {
    gaps := [];
    var i := 0;
    while i < |fields|
      invariant 0 <= i <= |fields|
      invariant gaps == Missing(result, fields[..i], truthy)
    {
      assert fields[..i + 1][..i] == fields[..i];
      var f := fields[i];
      if f !in result {
        gaps := gaps + [Absent(f)];
      } else if !Filled(result[f], truthy) {
        gaps := gaps + [Empty(f)];
      }
      i := i + 1;
    }
    assert fields[..i] == fields;
  }

  /** Nothing is missing exactly when every field is present and filled; each gap names one of the fields. */
  lemma {:induction false} MissingIff(result: map<string, Value>, fields: seq<string>, truthy: bool)
    ensures Missing(result, fields, truthy) == [] <==>
      forall f :: f in fields ==> f in result && Filled(result[f], truthy)
    ensures forall g :: g in Missing(result, fields, truthy) ==>
      g.field in fields && (g.Absent? <==> g.field !in result)
    decreases |fields|
  {
    if fields != [] {
      var init := fields[..|fields| - 1];
      MissingIff(result, init, truthy);
      assert fields == init + [fields[|fields| - 1]];
    }
  }

  /** The index of the first item `good` rejects. */
  function FirstBad(items: seq<Value>, good: Value -> bool): (r: Option<nat>)
    ensures r.None? <==> forall i :: 0 <= i < |items| ==> good(items[i])
    ensures r.Some? ==> (r.value < |items| && !good(items[r.value])
      && forall i :: 0 <= i < r.value ==> good(items[i]))
    decreases |items|
  {
    if items == [] then None
    else if !good(items[0]) then Some(0)
    else match FirstBad(items[1..], good)
      case None => None
      case Some(k) => Some(k + 1)
  }

  /** A dict with a truthy 'name'. */
  predicate NamedObject(v: Value) {
    Has(v, "name") && Truthy(v.fields["name"])
  }

  /** The checks on a hospital analysis: a dict, hospital_name/level/departments present and
      truthy, departments a list. */
  function CheckAnalysis(result: Value): (r: Result<map<string, Value>, Error>)
  {
    if !result.Obj? then Err(NotObject)
    else
      var gaps := Missing(result.fields, ["hospital_name", "level", "departments"], true);
      if gaps != [] then Err(FieldsMissing(gaps))
      else if !result.fields["departments"].Arr? then Err(WrongType("departments"))
      else Ok(result.fields)
  }

  /** The checks on a city list: cities/count/province present and not None, cities a list of strings. */
  function CheckCities(result: Value): (r: Result<map<string, Value>, Error>)
  {
    if !result.Obj? then Err(NotObject)
    else
      var gaps := Missing(result.fields, ["cities", "count", "province"], false);
      MissingIff(result.fields, ["cities", "count", "province"], false);
      if gaps != [] then Err(FieldsMissing(gaps))
      else if !result.fields["cities"].Arr? then Err(WrongType("cities"))
      else match FirstBad(result.fields["cities"].items, (v: Value) => v.Str?)
        case Some(i) => Err(BadElement(i))
        case None => Ok(result.fields)
  }

  /** The checks on a district list: items/count/city present and not None, items a list of dicts with a truthy name. */
  function CheckDistricts(result: Value): (r: Result<map<string, Value>, Error>)
  {
    if !result.Obj? then Err(NotObject)
    else
      var gaps := Missing(result.fields, ["items", "count", "city"], false);
      MissingIff(result.fields, ["items", "count", "city"], false);
      if gaps != [] then Err(FieldsMissing(gaps))
      else if !result.fields["items"].Arr? then Err(WrongType("items"))
      else match FirstBad(result.fields["items"].items, NamedObject)
        case Some(i) => Err(BadElement(i))
        case None => Ok(result.fields)
  }

  /** The checks on a hospital list: a list of dicts with a truthy name. */
  function CheckHospitals(result: Value): (r: Result<seq<Value>, Error>)
  {
    if !result.Arr? then Err(NotList)
    else match FirstBad(result.items, NamedObject)
      case Some(i) => Err(BadElement(i))
      case None => Ok(result.items)
  }

  /** A hospital analysis is accepted exactly when it is a dict whose three required fields are truthy and whose departments is a list. */
  lemma AnalysisAccepted(result: Value)
    ensures CheckAnalysis(result).Ok? <==>
      result.Obj? && (forall f :: f in ["hospital_name", "level", "departments"] ==> f in result.fields && Truthy(result.fields[f]))
      && result.fields["departments"].Arr?
  {
    if result.Obj? {
      MissingIff(result.fields, ["hospital_name", "level", "departments"], true);
    }
  }

  /** A city list is accepted exactly when cities/count/province are present and not None and every city is a string. */
  lemma CitiesAccepted(result: Value)
    ensures CheckCities(result).Ok? <==>
      result.Obj? && (forall f :: f in ["cities", "count", "province"] ==> f in result.fields && !result.fields[f].Null?)
      && result.fields["cities"].Arr?
      && forall i :: 0 <= i < |result.fields["cities"].items| ==> result.fields["cities"].items[i].Str?
  {
    if result.Obj? {
      MissingIff(result.fields, ["cities", "count", "province"], false);
    }
  }

  /** A district list is accepted exactly when items/count/city are present and not None and every item is a dict with a truthy name. */
  lemma DistrictsAccepted(result: Value)
    ensures CheckDistricts(result).Ok? <==>
      result.Obj? && (forall f :: f in ["items", "count", "city"] ==> f in result.fields && !result.fields[f].Null?)
      && result.fields["items"].Arr?
      && forall i :: 0 <= i < |result.fields["items"].items| ==> NamedObject(result.fields["items"].items[i])
  {
    if result.Obj? {
      MissingIff(result.fields, ["items", "count", "city"], false);
    }
  }

  /** A hospital list is accepted exactly when it is a list of dicts with truthy names; the first bad item is the one reported. */
  lemma HospitalsAccepted(result: Value)
    ensures CheckHospitals(result).Ok? <==>
      result.Arr? && forall i :: 0 <= i < |result.items| ==> NamedObject(result.items[i])
    ensures CheckHospitals(result).Ok? ==> CheckHospitals(result).value == result.items
    ensures result.Arr? && CheckHospitals(result).Err? ==>
      var i := CheckHospitals(result).error.index;
      i < |result.items| && !NamedObject(result.items[i])
  {
  }

  // ---------------------------------------------------------------------------
  // The four callers

  /** `analyze_hospital_hierarchy` */
  function AnalyzeHospital(name: string, outcome: Outcome, parse: string -> Option<Value>): (r: Result<map<string, Value>, Error>)
  {
    if !ValidName(name) then Err(InvalidName)
    else match MakeRequest(outcome)
      case Err(e) => Err(e)
      case Ok(reply) =>
        match Decoded(reply, '{', '}', parse)
        case Err(e) => Err(e)
        case Ok(v) => CheckAnalysis(v)
  }

  /** `get_cities_by_province` */
  function CitiesOf(province: string, outcome: Outcome, parse: string -> Option<Value>): (r: Result<map<string, Value>, Error>)
  {
    if !ValidName(province) then Err(InvalidName)
    else match MakeRequest(outcome)
      case Err(e) => Err(e)
      case Ok(reply) =>
        match Decoded(reply, '{', '}', parse)
        case Err(e) => Err(e)
        case Ok(v) => CheckCities(v)
  }

  /** `get_districts_by_city` */
  function DistrictsOf(city: string, outcome: Outcome, parse: string -> Option<Value>): (r: Result<map<string, Value>, Error>)
  {
    if !ValidName(city) then Err(InvalidName)
    else match MakeRequest(outcome)
      case Err(e) => Err(e)
      case Ok(reply) =>
        match Decoded(reply, '{', '}', parse)
        case Err(e) => Err(e)
        case Ok(v) => CheckDistricts(v)
  }

  /** `get_hospitals_from_district`: only the district name is checked, and the candidate is a '['..']' slice. */
  function HospitalsOf(district: string, outcome: Outcome, parse: string -> Option<Value>): (r: Result<seq<Value>, Error>)
  {
    if !ValidName(district) then Err(InvalidName)
    else match MakeRequest(outcome)
      case Err(e) => Err(e)
      case Ok(reply) =>
        match Decoded(reply, '[', ']', parse)
        case Err(e) => Err(e)
        case Ok(v) => CheckHospitals(v)
  }

  /** A name shorter than two characters once trimmed is rejected whatever the service would answer:
      no request is made. */
  lemma ShortNameNoRequest(name: string, o1: Outcome, o2: Outcome, parse: string -> Option<Value>)
    requires !ValidName(name)
    ensures AnalyzeHospital(name, o1, parse) == AnalyzeHospital(name, o2, parse) == Err(InvalidName)
    ensures CitiesOf(name, o1, parse) == CitiesOf(name, o2, parse) == Err(InvalidName)
    ensures DistrictsOf(name, o1, parse) == DistrictsOf(name, o2, parse) == Err(InvalidName)
    ensures HospitalsOf(name, o1, parse) == HospitalsOf(name, o2, parse) == Err(InvalidName)
  {
  }

  /** A hospital list is returned only from a 200 reply whose text, cleaned and sliced, parses to a list of named dicts. */
  lemma HospitalsOfOk(district: string, outcome: Outcome, parse: string -> Option<Value>)
    ensures HospitalsOf(district, outcome, parse).Ok? ==>
      ValidName(district) && outcome.Reply? && outcome.status == 200
      && forall i :: 0 <= i < |HospitalsOf(district, outcome, parse).value| ==>
           NamedObject(HospitalsOf(district, outcome, parse).value[i])
  {
    if HospitalsOf(district, outcome, parse).Ok? {
      var reply := MakeRequest(outcome).value;
      HospitalsAccepted(Decoded(reply, '[', ']', parse).value);
    }
  }
}
