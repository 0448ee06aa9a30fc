/** executeRequest: how the connector talks to the CA. The CA itself is a
  * function from the request sent to what comes back. */
module Rest {
  import opened Wrappers
  import opened Domain
  import opened Wire
  import Decimal

  datatype HttpMethod = MethodGet | MethodPost

  datatype Header = Header(name: string, value: string)

  /** A request as resty sends it; the body is the only JSON payload the core posts. */
  datatype HttpRequest = HttpRequest(
    verb: HttpMethod,
    url: string,
    headers: seq<Header>,
    body: Option<NewCertificateRequestBody>)

  /** What the HTTP client reports: a transport-level error (DNS, TLS,
    * timeout), or a response with a status code and a body that may be nil. */
  datatype HttpOutcome =
    | TransportError(cause: string)
    | HttpResponse(statusCode: int, body: Option<string>)

  /** A response executeRequest accepted. */
  datatype Reply = Reply(statusCode: int, body: Option<string>)

  type CaServer = HttpRequest -> HttpOutcome

  const DevKeyHeader := "X-DC-DEVKEY"

  /** The request executeRequest builds: JSON content type, the API key
    * header, POST when there is a body and GET otherwise, and the URL made
    * by appending the path to the configured server URL. */
  function NewRequest(connection: Connection, requestBody: Option<NewCertificateRequestBody>, uriPath: string): (req: HttpRequest)
    ensures req.verb == MethodPost <==> requestBody.Some?
    ensures req.verb == MethodGet <==> requestBody.None?
    ensures req.url == connection.configuration.serverURL + uriPath
    ensures req.headers == [Header("Content-Type", "application/json"), Header(DevKeyHeader, connection.credentials.apiKey)]
    ensures req.body == requestBody
  {
    var headers := [Header("Content-Type", "application/json"), Header(DevKeyHeader, connection.credentials.apiKey)];
    var url := connection.configuration.serverURL + uriPath;
    if requestBody.Some? then HttpRequest(MethodPost, url, headers, requestBody)
    else HttpRequest(MethodGet, url, headers, None)
  }

  /** http.StatusOK, http.StatusCreated, http.StatusAccepted. */
  predicate IsSuccessStatus(code: int)
  {
    code == 200 || code == 201 || code == 202
  }

  /** string(resp.Body()): a nil body reads as the empty string. */
  function BodyText(body: Option<string>): string
  {
    body.GetOr("")
  }

  /** executeRequest with the error text of a rejected response corrected to
    * the verbatim body (see ErrorTextAsWritten for the code as written). */
  function ExecuteRequest(connection: Connection, requestBody: Option<NewCertificateRequestBody>, uriPath: string, ca: CaServer): (r: Result<Reply, string>)
    ensures var outcome := ca(NewRequest(connection, requestBody, uriPath));
      && (r.Success? <==> outcome.HttpResponse? && outcome.statusCode in {200, 201, 202})
      && (outcome.TransportError? ==> r == Failure(outcome.cause))
      && (r.Success? ==> r.value == Reply(outcome.statusCode, outcome.body))
      && (outcome.HttpResponse? && r.Failure? ==> r.error == BodyText(outcome.body))
  {
    match ca(NewRequest(connection, requestBody, uriPath))
    case TransportError(cause) => Failure(cause)
    case HttpResponse(code, body) =>
      if !IsSuccessStatus(code) then Failure(BodyText(body)) else Success(Reply(code, body))
  }

  // The error of a rejected response as rest.go:30 builds it: the body is
  // the format string of fmt.Errorf, with no operands.

  predicate IsFlag(c: char) { c == '#' || c == '0' || c == '+' || c == '-' || c == ' ' }

  /** Characters fmt reads between '%' and the verb. */
  predicate IsSpecChar(c: char) { IsFlag(c) || Decimal.IsDigit(c) || c == '.' }

  function SkipFlags(t: string, i: nat): (j: nat)
    requires i <= |t|
    ensures i <= j <= |t|
    ensures forall k :: i <= k < j ==> IsFlag(t[k])
    decreases |t| - i
  {
    if i < |t| && IsFlag(t[i]) then SkipFlags(t, i + 1) else i
  }

  function SkipDigits(t: string, i: nat): (j: nat)
    requires i <= |t|
    ensures i <= j <= |t|
    ensures forall k :: i <= k < j ==> Decimal.IsDigit(t[k])
    decreases |t| - i
  {
    if i < |t| && Decimal.IsDigit(t[i]) then SkipDigits(t, i + 1) else i
  }

  /** Where the verb of a directive stands in the text after its '%': past
    * the flags, the width, and a precision whose '.' is not the last character. */
  function VerbIndex(t: string): (j: nat)
    ensures j <= |t|
    ensures forall k :: 0 <= k < j ==> IsSpecChar(t[k])
  {
    var w := SkipDigits(t, SkipFlags(t, 0));
    if w + 1 < |t| && t[w] == '.' then SkipDigits(t, w + 1) else w
  }

  /** fmt.Errorf(format) with no operands: "%%" (after any flags) prints '%',
    * a directive with verb c prints "%!c(MISSING)", and a '%' with no verb
    * after it prints "%!(NOVERB)". */
  function GoErrorfNoArgs(format: string): (r: string)
    ensures '%' in r <==> '%' in format
    decreases |format|
  {
    if format == [] then []
    else if format[0] != '%' then [format[0]] + GoErrorfNoArgs(format[1..])
    else
      var t := format[1..];
      var j := VerbIndex(t);
      if j == |t| then "%!(NOVERB)"
      else if t[j] == '%' then "%" + GoErrorfNoArgs(t[j + 1..])
      else "%!" + [t[j]] + "(MISSING)" + GoErrorfNoArgs(t[j + 1..])
  }

  /** The error text of a rejected response as rest.go:30 computes it. */
  function ErrorTextAsWritten(body: Option<string>): (text: string)
    ensures body.None? ==> text == ""
    ensures '%' in text <==> '%' in BodyText(body)
  {
    GoErrorfNoArgs(BodyText(body))
  }

  /** A body with no '%' passes through fmt unchanged. */
  lemma {:induction false} GoErrorfNoPercent(format: string)
    requires '%' !in format
    ensures GoErrorfNoArgs(format) == format
    decreases |format|
  {
    if format != [] {
      assert format[0] in format;
      assert forall c :: c in format[1..] ==> c in format;
      GoErrorfNoPercent(format[1..]);
    }
  }

  function Weight(c: char): int
  {
    if c == '!' then 1 else if c == '%' then -1 else 0
  }

  /** Number of '!' minus number of '%': every directive fmt rewrites raises it. */
  function Balance(s: string): int
    decreases |s|
  {
    if s == [] then 0 else Weight(s[0]) + Balance(s[1..])
  }

  lemma {:induction false} BalanceAppend(a: string, b: string)
    ensures Balance(a + b) == Balance(a) + Balance(b)
    decreases |a|
  {
    if a == [] {
      assert a + b == b;
    } else {
      assert (a + b)[0] == a[0];
      assert (a + b)[1..] == a[1..] + b;
      BalanceAppend(a[1..], b);
    }
  }

  lemma {:induction false} BalanceSpecChars(s: string)
    requires forall k :: 0 <= k < |s| ==> IsSpecChar(s[k])
    ensures Balance(s) == 0
    decreases |s|
  {
    if s != [] {
      BalanceSpecChars(s[1..]);
    }
  }

  lemma {:induction false} BalanceUnmarked(s: string)
    requires '!' !in s && '%' !in s
    ensures Balance(s) == 0
    decreases |s|
  {
    if s != [] {
      assert s[0] in s;
      assert forall c :: c in s[1..] ==> c in s;
      BalanceUnmarked(s[1..]);
    }
  }

  lemma BalanceChar(c: char)
    ensures Balance([c]) == Weight(c)
  {
    assert [c][1..] == [];
  }

  /** The text after a '%' weighs as much as its verb and what follows it. */
  lemma BalanceAfterPercent(t: string, j: nat)
    requires j < |t| && forall k :: 0 <= k < j ==> IsSpecChar(t[k])
    ensures Balance(t) == Weight(t[j]) + Balance(t[j + 1..])
  {
    var spec, rest := t[..j], [t[j]] + t[j + 1..];
    assert t == spec + rest;
    BalanceAppend(spec, rest);
    BalanceAppend([t[j]], t[j + 1..]);
    BalanceChar(t[j]);
    assert forall k :: 0 <= k < |spec| ==> IsSpecChar(spec[k]);
    BalanceSpecChars(spec);
  }

  /** A marker "%!" followed by text free of '!' and '%' weighs nothing. */
  lemma BalanceMarkerThen(tail: string)
    requires '!' !in tail && '%' !in tail
    ensures Balance("%!" + tail) == 0
  {
    BalanceUnmarked(tail);
    BalanceMarker();
    BalanceAppend("%!", tail);
  }

  /** A marker "%!", a verb c, then text free of '!' and '%' weighs as much as c. */
  lemma BalanceMarkerVerbThen(c: char, tail: string)
    requires '!' !in tail && '%' !in tail
    ensures Balance("%!" + [c] + tail) == Weight(c)
  {
    BalanceAppend("%!" + [c], tail);
    BalanceAppend("%!", [c]);
    BalanceChar(c);
    BalanceMarker();
    BalanceUnmarked(tail);
  }

  lemma BalanceMissing(c: char)
    ensures Balance("%!" + [c] + "(MISSING)") == Weight(c)
  {
    BalanceMarkerVerbThen(c, "(MISSING)");
  }

  /** The "%!" that opens every marker weighs nothing. */
  lemma BalanceMarker()
    ensures Balance("%!") == 0
  {
    assert "%!" == ['%'] + ['!'];
    BalanceAppend(['%'], ['!']);
    BalanceChar('%');
    BalanceChar('!');
  }

  lemma BalanceNoVerb()
    ensures Balance("%!(NOVERB)") == 0
  {
    BalanceMarkerThen("(NOVERB)");
  }

  lemma {:induction false} GoErrorfRaisesBalance(format: string)
    ensures Balance(GoErrorfNoArgs(format)) >= Balance(format) + (if '%' in format then 1 else 0)
    decreases |format|
  {
    if format == [] {
    } else if format[0] != '%' {
      GoErrorfRaisesBalance(format[1..]);
      assert GoErrorfNoArgs(format) == [format[0]] + GoErrorfNoArgs(format[1..]);
      BalanceAppend([format[0]], GoErrorfNoArgs(format[1..]));
      assert '%' in format[1..] <==> '%' in format by {
        assert format == [format[0]] + format[1..];
      }
    } else {
      var t := format[1..];
      var j := VerbIndex(t);
      assert Balance(format) == -1 + Balance(t);
      if j == |t| {
        BalanceSpecChars(t);
        BalanceNoVerb();
      } else {
        var rest := t[j + 1..];
        BalanceAfterPercent(t, j);
        GoErrorfRaisesBalance(rest);
        if t[j] == '%' {
          BalanceAppend("%", GoErrorfNoArgs(rest));
        } else {
          BalanceAppend("%!" + [t[j]] + "(MISSING)", GoErrorfNoArgs(rest));
          BalanceMissing(t[j]);
        }
      }
    }
  }

  /** The error text is the body verbatim exactly when the body has no '%'. */
  lemma ErrorTextVerbatimIff(body: Option<string>)
    ensures ErrorTextAsWritten(body) == BodyText(body) <==> '%' !in BodyText(body)
  {
    if '%' in BodyText(body) {
      GoErrorfRaisesBalance(BodyText(body));
    } else {
      GoErrorfNoPercent(BodyText(body));
    }
  }

  /** A body that ends in its only '%' gets "!(NOVERB)" appended. */
  lemma {:induction false} TrailingPercentRewritten(text: string)
    requires '%' !in text
    ensures ErrorTextAsWritten(Some(text + "%")) == text + "%!(NOVERB)"
    decreases |text|
  {
    if text == [] {
      assert [] + "%" == "%";
      assert VerbIndex("%"[1..]) == 0;
    } else {
      assert text[0] in text;
      assert forall c :: c in text[1..] ==> c in text;
      TrailingPercentRewritten(text[1..]);
      assert (text + "%")[0] == text[0];
      assert (text + "%")[1..] == text[1..] + "%";
      assert [text[0]] + (text[1..] + "%!(NOVERB)") == text + "%!(NOVERB)";
    }
  }

  /** A CA body "100%" is reported as "100%!(NOVERB)". */
  lemma PercentBodyRewritten()
    ensures ErrorTextAsWritten(Some("100%")) == "100%!(NOVERB)"
  {
    TrailingPercentRewritten("100");
    assert "100" + "%" == "100%";
    assert "100" + "%!(NOVERB)" == "100%!(NOVERB)";
  }
}
