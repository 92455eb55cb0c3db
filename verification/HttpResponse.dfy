/** `HttpResponse::deserialize` (`src/network/http_response.cpp`). */
module HttpResponse {
  import opened Wrappers
  import opened Text
  import opened OrderedMap

  datatype Code =
    | Ok200 | Created201 | NoContent204 | PartialContent206 | BadRequest400 | Unauthorized401 | Forbidden403
    | NotFound404 | Conflict409 | LengthRequired411 | RangeNotSatisfiable416 | TooManyRequests429
    | InternalServerError500 | ServiceUnavailable503 | SlowDown503 | Unknown

  datatype Version = Http10 | Http11

  datatype Response = Response(headers: seq<Pair>, code: Code, version: Version)

  /** The codes in the order of the enumeration, with the text each is recognised by. */
  const CODES: seq<(Code, string)> := [
    (Ok200, "200 OK"), (Created201, "201 Created"), (NoContent204, "204 No Content"),
    (PartialContent206, "206 Partial Content"), (BadRequest400, "400 Bad Request"),
    (Unauthorized401, "401 Unauthorized"), (Forbidden403, "403 Forbidden"), (NotFound404, "404 Not Found"),
    (Conflict409, "409 Conflict"), (LengthRequired411, "411 Length Required"),
    (RangeNotSatisfiable416, "416 Range Not Satisfiable"), (TooManyRequests429, "429 Too Many Requests"),
    (InternalServerError500, "500 Internal Server Error"), (ServiceUnavailable503, "503 Service Unavailable"),
    (SlowDown503, "503 Slow Down")]

  predicate CheckSuccess(code: Code) {
    code == Ok200 || code == Created201 || code == NoContent204 || code == PartialContent206
  }

  predicate WithoutContent(code: Code) {
    code == NoContent204
  }

  /** The last of the first `n` codes whose text the line starts with. */
  function CodeOf(line: string, n: nat): Code
    requires n <= |CODES|
  {
    if n == 0 then Unknown
    else if StartsWith(line, CODES[n - 1].1) then CODES[n - 1].0
    else CodeOf(line, n - 1)
  }

  function FirstLine(line: string): Result<Response> {
    if !StartsWith(line, "HTTP/1.0") && !StartsWith(line, "HTTP/1.1") then
      Err("Invalid HttpResponse: Needs to be a HTTP type 1.0 or 1.1!")
    else if |line| < 9 then Err("out of range")
    else Ok(Response([], CodeOf(line[9..], |CODES|), if StartsWith(line, "HTTP/1.0") then Http10 else Http11))
  }

  function HeaderLine(line: string, r: Response): Result<Response> {
    match Find(line, ": ")
    case None => Err("Invalid HttpResponse: Headers need key and value!")
    case Some(k) => Ok(r.(headers := Emplace(r.headers, line[..k], line[k + 2..])))
  }

  /** Parses from `at`, with what has been read before; `None` before the first line. */
  function ParseFrom(data: string, at: nat, sofar: Option<Response>): Result<(Response, nat)>
    requires at <= |data|
    decreases |data| - at
  {
    match Find(data, CRLF, at)
    case None => Err("Invalid HttpResponse: Incomplete header!")
    case Some(pos) =>
      var line, next := data[at..pos], pos + 2;
      if line == "" then
        if sofar.Some? then Ok((sofar.value, next)) else Err("Invalid HttpResponse: Missing first line!")
      else
        match (if sofar.Some? then HeaderLine(line, sofar.value) else FirstLine(line))
        case Err(e) => Err(e)
        case Ok(r) => ParseFrom(data, next, Some(r))
  }

  /** The parsed response and the number of bytes the parser consumed. */
  function Parse(data: string): Result<(Response, nat)> {
    ParseFrom(data, 0, None)
  }

  method Deserialize(data: string) returns (r: Result<Response>)
    ensures r == match Parse(data) case Ok((response, _)) => Ok(response) case Err(e) => Err(e)
  {
    hide HeaderLine, FirstLine, At, Find, CodeOf, StartsWith;
    var at := 0;
    var response: Option<Response> := None;
    while true
      invariant at <= |data| && ParseFrom(data, at, response) == Parse(data)
      decreases |data| - at
    {
      var pos := Find(data, CRLF, at);
      if pos.None? {
        return Err("Invalid HttpResponse: Incomplete header!");
      }
      AtBounds(data, CRLF, pos.value);
      var line := data[at..pos.value];
      at := pos.value + 2;
      if line == "" {
        if response.Some? {
          return Ok(response.value);
        }
        return Err("Invalid HttpResponse: Missing first line!");
      }
      var read: Result<Response>;
      if response.None? {
        read := DeserializeFirstLine(line);
      } else {
        read := DeserializeHeader(line, response.value);
      }
      if read.Err? {
        return read;
      }
      response := Some(read.value);
    }
  }

  method DeserializeHeader(line: string, response: Response) returns (r: Result<Response>)
    ensures r == HeaderLine(line, response)
  {
    var keyPos := Find(line, ": ");
    if keyPos.None? {
      return Err("Invalid HttpResponse: Headers need key and value!");
    }
    var key, value := line[..keyPos.value], line[keyPos.value + 2..];
    r := Ok(response.(headers := Emplace(response.headers, key, value)));
  }

  /** A header line is accepted exactly if it holds a separator. */
  lemma HeaderLineOk(line: string, r: Response)
    ensures HeaderLine(line, r).Ok? <==> exists key, value :: SplitsInto(line, key, value)
  {
    if HeaderLine(line, r).Ok? {
      var k := Find(line, ": ").value;
      AtBounds(line, ": ", k);
      forall j: nat ensures At(line[..k], ": ", j) ==> j < k && At(line, ": ", j) {
        if j + 2 <= k {
          assert line[..k][j..j + 2] == line[j..j + 2];
        }
      }
      assert line == line[..k] + ": " + line[k + 2..];
      assert SplitsInto(line, line[..k], line[k + 2..]);
    } else if key, value :| SplitsInto(line, key, value) {
      HeaderLineIs(line, key, value, r.(headers := []));
    }
  }

  /** The key is what stands before the first separator. */
  ghost predicate SplitsInto(line: string, key: string, value: string) {
    line == key + ": " + value && forall j: nat :: !At(key, ": ", j)
  }

  /** What an accepted header line adds: a new key, with all that follows the first separator, and nothing else. */
  lemma HeaderLineIs(line: string, key: string, value: string, r: Response)
    requires SplitsInto(line, key, value) && Sorted(r.headers)
    ensures HeaderLine(line, r).Ok?
    ensures var h := HeaderLine(line, r).value;
            && Sorted(h.headers) && h.code == r.code && h.version == r.version
            && (Has(r.headers, key) ==> h.headers == r.headers)
            && (!Has(r.headers, key) ==> multiset(h.headers) == multiset(r.headers) + multiset{Pair(key, value)})
  {
    var k := |key|;
    assert line[k..k + 2] == ": ";
    forall j: nat | j < k ensures !At(line, ": ", j) {
      if j + 2 <= k {
        assert line[j..j + 2] == key[j..j + 2];
        assert !At(key, ": ", j);
      } else {
        assert line[j..j + 2][1] == line[k] == ':';
      }
    }
    FindIs(line, ": ", 0, k);
    assert line[..k] == key && line[k + 2..] == value;
    hide At, Less, Sorted;
    EmplaceIs(r.headers, key, value);
  }

  /** The headers of a successful parse have different keys, in order. */
  lemma {:induction false} HeadersSorted(data: string, at: nat, sofar: Option<Response>)
    requires at <= |data| && ParseFrom(data, at, sofar).Ok? && (sofar.Some? ==> Sorted(sofar.value.headers))
    ensures Sorted(ParseFrom(data, at, sofar).value.0.headers)
    decreases |data| - at
  {
    hide At, CodeOf;
    var pos := Find(data, CRLF, at).value;
    AtBounds(data, CRLF, pos);
    var line := data[at..pos];
    if line != "" {
      if sofar.Some? {
        var k := Find(line, ": ").value;
        AtBounds(line, ": ", k);
        EmplaceIs(sofar.value.headers, line[..k], line[k + 2..]);
        HeadersSorted(data, pos + 2, Some(HeaderLine(line, sofar.value).value));
      } else {
        HeadersSorted(data, pos + 2, Some(FirstLine(line).value));
      }
    }
  }

  method DeserializeFirstLine(line: string) returns (r: Result<Response>)
    ensures r == FirstLine(line)
  {
    var version := Http11;
    if StartsWith(line, "HTTP/1.0") {
      version := Http10;
    } else if !StartsWith(line, "HTTP/1.1") {
      return Err("Invalid HttpResponse: Needs to be a HTTP type 1.0 or 1.1!");
    }
    if |line| < 9 {
      return Err("out of range");
    }
    var code := Unknown;
    var i := 0;
    while i < |CODES|
      invariant i <= |CODES| && code == CodeOf(line[9..], i)
    {
      if StartsWith(line[9..], CODES[i].1) {
        code := CODES[i].0;
      }
      i := i + 1;
    }
    r := Ok(Response([], code, version));
  }

  /** No code is listed twice, and no code's text is the beginning of another's. */
  lemma CodesDiffer(i: nat, j: nat)
    requires i < |CODES| && j < |CODES| && i != j
    ensures CODES[i].0 != CODES[j].0
    ensures |CODES[i].1| >= 6 && |CODES[j].1| >= 6 && CODES[i].1[..6] != CODES[j].1[..6]
  {
    TextsDiffer(i, j);
    Prefixes(CODES[i].1, CODES[j].1);
  }

  lemma TextsDiffer(i: nat, j: nat)
    requires i < |CODES| && j < |CODES| && i != j
    ensures var a, b := CODES[i].1, CODES[j].1;
            |a| >= 6 && |b| >= 6 && (a[0] != b[0] || a[1] != b[1] || a[2] != b[2] || a[5] != b[5])
  {
  }

  lemma Prefixes(a: string, b: string)
    requires |a| >= 6 && |b| >= 6 && (a[0] != b[0] || a[1] != b[1] || a[2] != b[2] || a[5] != b[5])
    ensures a[..6] != b[..6]
  {
    assert a[..6][0] == a[0] && a[..6][1] == a[1] && a[..6][2] == a[2] && a[..6][5] == a[5];
    assert b[..6][0] == b[0] && b[..6][1] == b[1] && b[..6][2] == b[2] && b[..6][5] == b[5];
  }

  lemma CodeIsKnown(i: nat)
    requires i < |CODES|
    ensures CODES[i].0 != Unknown
  {
  }

  /** At most one code fits a line. */
  lemma OneFits(line: string, i: nat, j: nat)
    requires i < |CODES| && j < |CODES| && StartsWith(line, CODES[i].1) && StartsWith(line, CODES[j].1)
    ensures i == j
  {
    hide *;
    if i != j {
      CodesDiffer(i, j);
      BothFit(line, CODES[i].1, CODES[j].1);
    }
  }

  lemma BothFit(line: string, a: string, b: string)
    requires StartsWith(line, a) && StartsWith(line, b) && |a| >= 6 && |b| >= 6
    ensures a[..6] == b[..6]
  {
    assert a[..6] == line[..6] == b[..6];
  }

  lemma {:induction false} CodeOfIs(line: string, n: nat)
    requires n <= |CODES|
    ensures forall i | 0 <= i < n :: CodeOf(line, n) == CODES[i].0 <==> StartsWith(line, CODES[i].1)
    ensures CodeOf(line, n) == Unknown <==> forall i | 0 <= i < n :: !StartsWith(line, CODES[i].1)
  {
    hide CODES, StartsWith;
    if n > 0 {
      CodeOfIs(line, n - 1);
      CodeIsKnown(n - 1);
      forall i | 0 <= i < n - 1
        ensures CODES[i].0 != CODES[n - 1].0
        ensures !(StartsWith(line, CODES[i].1) && StartsWith(line, CODES[n - 1].1))
      {
        CodesDiffer(n - 1, i);
        if StartsWith(line, CODES[i].1) && StartsWith(line, CODES[n - 1].1) {
          OneFits(line, i, n - 1);
        }
      }
    }
  }

  /**
   A first line is accepted exactly if it starts with one of the two versions and is longer than that; a code is
   reported exactly if the line goes on with its text, and none exactly if it goes on with no code's text.
   */
  lemma FirstLineIs(line: string)
    ensures FirstLine(line).Ok? <==>
              |line| >= 9 && (StartsWith(line, "HTTP/1.0") || StartsWith(line, "HTTP/1.1"))
    ensures FirstLine(line).Ok? ==>
              var r := FirstLine(line).value;
              && r.headers == [] && (r.version == Http10 <==> StartsWith(line, "HTTP/1.0"))
              && (forall i | 0 <= i < |CODES| :: r.code == CODES[i].0 <==> StartsWith(line[9..], CODES[i].1))
              && (r.code == Unknown <==> forall i | 0 <= i < |CODES| :: !StartsWith(line[9..], CODES[i].1))
  {
    if |line| >= 9 {
      CodeOfIs(line[9..], |CODES|);
    }
  }

  /** `getResponseCodeNumber`. */
  function CodeNumber(code: Code): nat {
    match code
    case Ok200 => 200
    case Created201 => 201
    case NoContent204 => 204
    case PartialContent206 => 206
    case BadRequest400 => 400
    case Unauthorized401 => 401
    case Forbidden403 => 403
    case NotFound404 => 404
    case Conflict409 => 409
    case LengthRequired411 => 411
    case RangeNotSatisfiable416 => 416
    case TooManyRequests429 => 429
    case InternalServerError500 => 500
    case ServiceUnavailable503 => 503
    case SlowDown503 => 503
    case Unknown => 0
  }

  predicate IsDigit(c: char) {
    '0' <= c <= '9'
  }

  function Digit(c: char): int {
    c as int - '0' as int
  }

  /** A code's number is what the three digits say with which its text begins. */
  lemma NumberIs(i: nat)
    requires i < |CODES|
    ensures var text := CODES[i].1;
            && |text| >= 3 && IsDigit(text[0]) && IsDigit(text[1]) && IsDigit(text[2])
            && CodeNumber(CODES[i].0) == Digit(text[0]) * 100 + Digit(text[1]) * 10 + Digit(text[2])
  {
  }

  lemma CodeIsListed(code: Code) returns (i: nat)
    requires code != Unknown
    ensures i < |CODES| && CODES[i].0 == code
  {
    i := match code
      case Ok200 => 0
      case Created201 => 1
      case NoContent204 => 2
      case PartialContent206 => 3
      case BadRequest400 => 4
      case Unauthorized401 => 5
      case Forbidden403 => 6
      case NotFound404 => 7
      case Conflict409 => 8
      case LengthRequired411 => 9
      case RangeNotSatisfiable416 => 10
      case TooManyRequests429 => 11
      case InternalServerError500 => 12
      case ServiceUnavailable503 => 13
      case SlowDown503 => 14;
  }

  /**
   A code that is reported is the one the server sent: its number stands in the three digits behind the
   version. It is a success exactly below 300 and comes without content exactly if it is 204.
   */
  lemma CodeIsNumber(line: string)
    requires FirstLine(line).Ok? && FirstLine(line).value.code != Unknown
    ensures |line| >= 12 && IsDigit(line[9]) && IsDigit(line[10]) && IsDigit(line[11])
    ensures var code, number := FirstLine(line).value.code,
                Digit(line[9]) * 100 + Digit(line[10]) * 10 + Digit(line[11]);
            && CodeNumber(code) == number
            && (CheckSuccess(code) <==> number < 300) && (WithoutContent(code) <==> number == 204)
  {
    FirstLineIs(line);
    var i := CodeIsListed(FirstLine(line).value.code);
    NumberIs(i);
    SuccessIs(FirstLine(line).value.code);
    hide CODES, CodeOf, CodeNumber, CheckSuccess, WithoutContent;
    var text := CODES[i].1;
    assert StartsWith(line[9..], text);
    assert text[0] == line[9..][0] && text[1] == line[9..][1] && text[2] == line[9..][2];
  }

  lemma SuccessIs(code: Code)
    requires code != Unknown
    ensures CheckSuccess(code) <==> CodeNumber(code) < 300
    ensures WithoutContent(code) <==> CodeNumber(code) == 204
  {
  }

  /** Each code is reported exactly for its reason phrase, also where two share a number. */
  lemma CodeIsPhrase(line: string)
    requires FirstLine(line).Ok?
    ensures FirstLine(line).value.code == Ok200 <==> StartsWith(line[9..], "200 OK")
    ensures FirstLine(line).value.code == Created201 <==> StartsWith(line[9..], "201 Created")
    ensures FirstLine(line).value.code == NoContent204 <==> StartsWith(line[9..], "204 No Content")
    ensures FirstLine(line).value.code == PartialContent206 <==> StartsWith(line[9..], "206 Partial Content")
    ensures FirstLine(line).value.code == BadRequest400 <==> StartsWith(line[9..], "400 Bad Request")
    ensures FirstLine(line).value.code == Unauthorized401 <==> StartsWith(line[9..], "401 Unauthorized")
    ensures FirstLine(line).value.code == Forbidden403 <==> StartsWith(line[9..], "403 Forbidden")
    ensures FirstLine(line).value.code == NotFound404 <==> StartsWith(line[9..], "404 Not Found")
    ensures FirstLine(line).value.code == Conflict409 <==> StartsWith(line[9..], "409 Conflict")
    ensures FirstLine(line).value.code == LengthRequired411 <==> StartsWith(line[9..], "411 Length Required")
    ensures FirstLine(line).value.code == RangeNotSatisfiable416 <==> StartsWith(line[9..], "416 Range Not Satisfiable")
    ensures FirstLine(line).value.code == TooManyRequests429 <==> StartsWith(line[9..], "429 Too Many Requests")
    ensures FirstLine(line).value.code == InternalServerError500 <==> StartsWith(line[9..], "500 Internal Server Error")
    ensures FirstLine(line).value.code == ServiceUnavailable503 <==> StartsWith(line[9..], "503 Service Unavailable")
    ensures FirstLine(line).value.code == SlowDown503 <==> StartsWith(line[9..], "503 Slow Down")
  {
    FirstLineIs(line);
    hide CodeOf, FirstLine, StartsWith;
    ListIs();
    var code := FirstLine(line).value.code;
    assert forall i | 0 <= i < |CODES| :: code == CODES[i].0 <==> StartsWith(line[9..], CODES[i].1);
  }

  lemma ListIs()
    ensures |CODES| == 15
    ensures CODES[0] == (Ok200, "200 OK")
    ensures CODES[1] == (Created201, "201 Created")
    ensures CODES[2] == (NoContent204, "204 No Content")
    ensures CODES[3] == (PartialContent206, "206 Partial Content")
    ensures CODES[4] == (BadRequest400, "400 Bad Request")
    ensures CODES[5] == (Unauthorized401, "401 Unauthorized")
    ensures CODES[6] == (Forbidden403, "403 Forbidden")
    ensures CODES[7] == (NotFound404, "404 Not Found")
    ensures CODES[8] == (Conflict409, "409 Conflict")
    ensures CODES[9] == (LengthRequired411, "411 Length Required")
    ensures CODES[10] == (RangeNotSatisfiable416, "416 Range Not Satisfiable")
    ensures CODES[11] == (TooManyRequests429, "429 Too Many Requests")
    ensures CODES[12] == (InternalServerError500, "500 Internal Server Error")
    ensures CODES[13] == (ServiceUnavailable503, "503 Service Unavailable")
    ensures CODES[14] == (SlowDown503, "503 Slow Down")
  {
  }

  const HEADER_END := "\r\n\r\n"

  /** No header end lies before the line that starts at `at`, except possibly across its start. */
  ghost predicate NoEndBefore(data: string, at: nat) {
    forall j: nat | j + 2 < at :: !At(data, HEADER_END, j)
  }

  /** A line break inside the data splits a header end into two. */
  lemma HeaderEndAt(data: string, j: nat)
    ensures At(data, HEADER_END, j) <==> At(data, CRLF, j) && At(data, CRLF, j + 2)
  {
    if j + 4 <= |data| {
      var a, b := data[j..j + 2], data[j + 2..j + 4];
      assert data[j..j + 4] == a + b && HEADER_END == CRLF + CRLF;
      assert (a + b)[..2] == a && (a + b)[2..] == b;
      assert (CRLF + CRLF)[..2] == CRLF && (CRLF + CRLF)[2..] == CRLF;
    }
  }

  /** Two line breaks never overlap. */
  lemma BreaksApart(data: string, j: nat)
    requires At(data, CRLF, j)
    ensures !At(data, CRLF, j + 1)
  {
    assert data[j..j + 2][1] == '\n';
    if j + 3 <= |data| {
      assert data[j + 1..j + 3][0] == data[j + 1];
    }
  }

  /** If a line ends at `pos`, no header end starts before it other than at the break before the line. */
  lemma NoEndWithinLine(data: string, at: nat, pos: nat)
    requires Find(data, CRLF, at) == Some(pos) && pos > at
    requires NoEndBefore(data, at) && (at == 0 || (at >= 2 && At(data, CRLF, at - 2)))
    ensures NoEndBefore(data, pos + 2)
  {
    hide At;
    forall j: nat | j + 2 < pos + 2 ensures !At(data, HEADER_END, j) {
      HeaderEndAt(data, j);
      if j + 1 == at {
        BreaksApart(data, at - 2);
      }
    }
  }

  /** The parser stops right after the first header end; every line but the first follows a line break. */
  lemma {:induction false} StopsFrom(data: string, at: nat, sofar: Option<Response>)
    requires at <= |data| && ParseFrom(data, at, sofar).Ok?
    requires if sofar.Some? then at >= 2 && At(data, CRLF, at - 2) else at == 0
    requires NoEndBefore(data, at)
    ensures Find(data, HEADER_END) == Some(ParseFrom(data, at, sofar).value.1 - 4)
    decreases |data| - at
  {
    hide HeaderLine, FirstLine, At;
    var pos := Find(data, CRLF, at).value;
    AtBounds(data, CRLF, pos);
    if data[at..pos] == "" {
      HeaderEndAt(data, at - 2);
      FindIs(data, HEADER_END, 0, at - 2);
    } else {
      var line := data[at..pos];
      var r := if sofar.Some? then HeaderLine(line, sofar.value) else FirstLine(line);
      NoEndWithinLine(data, at, pos);
      StopsFrom(data, pos + 2, Some(r.value));
    }
  }

  /** A successful parse consumes exactly the bytes up to the first header end, which therefore exists. */
  lemma StopsAtFirstHeaderEnd(data: string)
    requires Parse(data).Ok?
    ensures Find(data, HEADER_END) == Some(Parse(data).value.1 - 4)
  {
    StopsFrom(data, 0, None);
  }

  /** Bytes that arrive later do not change a successful parse. */
  lemma {:induction false} StableFrom(data: string, more: string, at: nat, sofar: Option<Response>)
    requires at <= |data| && ParseFrom(data, at, sofar).Ok?
    ensures ParseFrom(data + more, at, sofar) == ParseFrom(data, at, sofar)
    decreases |data| - at
  {
    hide HeaderLine, FirstLine, At;
    var pos := Find(data, CRLF, at).value;
    FindInPrefix(data, more, CRLF, at, pos);
    AtBounds(data, CRLF, pos);
    assert (data + more)[at..pos] == data[at..pos];
    if data[at..pos] != "" {
      var line := data[at..pos];
      var r := if sofar.Some? then HeaderLine(line, sofar.value) else FirstLine(line);
      StableFrom(data, more, pos + 2, Some(r.value));
    }
  }

  lemma AtBounds(data: string, pat: string, i: nat)
    requires At(data, pat, i)
    ensures i + |pat| <= |data|
  {
  }
}
