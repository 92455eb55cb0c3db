/** `HttpRequest::serialize` and `deserialize` (`src/network/http_request.cpp`). */
module HttpRequest {
  import opened Wrappers
  import opened Text
  import opened OrderedMap
  import opened UrlEncoding

  datatype Method = GET | PUT | POST | DELETE

  datatype Type = Http10 | Http11

  datatype Request = Request(queries: seq<Pair>, headers: seq<Pair>, kind: Method, version: Type, path: string)

  function MethodText(m: Method): string {
    match m
    case GET => "GET"
    case PUT => "PUT"
    case POST => "POST"
    case DELETE => "DELETE"
  }

  function TypeText(t: Type): string {
    match t
    case Http10 => "HTTP/1.0"
    case Http11 => "HTTP/1.1"
  }

  function Query(p: Pair): string {
    Encode(p.key) + "=" + Encode(p.value)
  }

  function QueryString(queries: seq<Pair>): string {
    if queries == [] then ""
    else if |queries| == 1 then Query(queries[0])
    else Query(queries[0]) + "&" + QueryString(queries[1..])
  }

  /** The path with its queries. */
  function Target(r: Request): string {
    r.path + if r.queries == [] then "" else "?" + QueryString(r.queries)
  }

  function HeaderText(h: Pair): string {
    h.key + ": " + h.value
  }

  function HeaderLines(headers: seq<Pair>): string {
    if headers == [] then "" else HeaderText(headers[0]) + CRLF + HeaderLines(headers[1..])
  }

  function StartLine(r: Request): string {
    MethodText(r.kind) + " " + Target(r) + " " + TypeText(r.version)
  }

  function Serialized(r: Request): string {
    StartLine(r) + CRLF + HeaderLines(r.headers) + CRLF
  }

  lemma QueryStringStep(queries: seq<Pair>, it: nat)
    requires it < |queries|
    ensures QueryString(queries[it..]) ==
            var rest := QueryString(queries[it + 1..]);
            Query(queries[it]) + if it + 1 < |queries| then "&" + rest else rest
  {
    hide Query;
    assert queries[it..][0] == queries[it] && queries[it..][1..] == queries[it + 1..];
    if it + 1 == |queries| {
      assert queries[it + 1..] == [];
    }
  }

  lemma Appended(before: string, key: string, value: string, rest: string)
    ensures (before + key + "=" + value) + rest == before + ((key + "=" + value) + rest)
    ensures (before + key + "=" + value + "&") + rest == before + ((key + "=" + value) + ("&" + rest))
  {
  }

  method SerializeQueries(queries: seq<Pair>) returns (text: string)
    requires forall q | q in queries :: Bytes(q.key) && Bytes(q.value)
    ensures text == QueryString(queries)
  {
    text := "";
    var it := 0;
    while it < |queries|
      invariant it <= |queries| && text + QueryString(queries[it..]) == QueryString(queries)
    {
      var more := SerializeQuery(text, queries, it);
      it := it + 1;
      text := more;
    }
    assert queries[it..] == [];
  }

  /** One turn of that loop. */
  method SerializeQuery(before: string, queries: seq<Pair>, it: nat) returns (text: string)
    requires it < |queries| && forall q | q in queries :: Bytes(q.key) && Bytes(q.value)
    ensures text + QueryString(queries[it + 1..]) == before + QueryString(queries[it..])
  {
    var q := queries[it];
    assert q in queries;
    hide *;
    var key := EncodeUrlParameters(q.key);
    var value := EncodeUrlParameters(q.value);
    text := before + key + "=" + value;
    if it + 1 != |queries| {
      text := text + "&";
    }
    QueryStringStep(queries, it);
    Appended(before, key, value, QueryString(queries[it + 1..]));
    QueryIs(q);
  }

  lemma QueryIs(q: Pair)
    ensures Query(q) == Encode(q.key) + "=" + Encode(q.value)
  {
  }

  method SerializeHeaders(headers: seq<Pair>) returns (text: string)
    ensures text == HeaderLines(headers)
  {
    text := "";
    for h := 0 to |headers|
      invariant text + HeaderLines(headers[h..]) == HeaderLines(headers)
    {
      ghost var before, rest := text, headers[h + 1..];
      assert headers[h..][0] == headers[h] && headers[h..][1..] == rest;
      text := text + headers[h].key + ": " + headers[h].value + "\r\n";
      assert text == before + (HeaderText(headers[h]) + CRLF);
    }
    assert headers[|headers|..] == [];
  }

  method Serialize(r: Request) returns (text: string)
    requires forall q | q in r.queries :: Bytes(q.key) && Bytes(q.value)
    ensures text == Serialized(r)
  {
    text := MethodText(r.kind);
    text := text + " " + r.path;
    if |r.queries| > 0 {
      text := text + "?";
    }
    var queries := SerializeQueries(r.queries);
    text := text + queries;
    assert text == MethodText(r.kind) + " " + Target(r);
    text := text + " " + TypeText(r.version) + "\r\n";
    var headers := SerializeHeaders(r.headers);
    text := text + headers + "\r\n";
  }

  /** One query: a key without value is kept, one without key is not. */
  function WithQuery(queries: seq<Pair>, query: string): seq<Pair> {
    var (key, value) := match Find(query, "=") case None => (query, "") case Some(k) => (query[..k], query[k + 1..]);
    if |key| > 0 then Emplace(queries, key, value) else queries
  }

  function WithQueries(queries: seq<Pair>, text: string): seq<Pair>
    decreases |text|
  {
    match Find(text, "&")
    case None => WithQuery(queries, text)
    case Some(k) => WithQueries(WithQuery(queries, text[..k]), text[k + 1..])
  }

  /** The method a line starts with, in the order the source tries them. */
  function MethodOf(line: string): Option<Method> {
    if StartsWith(line, "GET") then Some(GET)
    else if StartsWith(line, "POST") then Some(POST)
    else if StartsWith(line, "PUT") then Some(PUT)
    else if StartsWith(line, "DELETE") then Some(DELETE)
    else None
  }

  lemma MethodFits(line: string)
    ensures MethodOf(line).Some? ==> |MethodText(MethodOf(line).value)| <= |line|
  {
  }

  function WithTarget(r: Request, target: string): Request {
    match Find(target, "?")
    case None => r.(path := target)
    case Some(k) => r.(path := target[..k], queries := WithQueries(r.queries, target[k + 1..]))
  }

  function FirstLine(line: string): Result<Request> {
    match MethodOf(line)
    case None => Err("Invalid HttpRequest: Needs to start with request method!")
    case Some(m) =>
      MethodFits(line);
      var rest := line[|MethodText(m)|..];
      match Find(rest, " ", 1)
      case None => Err("Invalid HttpRequest: Could not find path, or missing HTTP type!")
      case Some(pos) =>
        var r, version := WithTarget(Request([], [], m, Http10, ""), rest[1..pos]), rest[pos + 1..];
        if StartsWith(version, "HTTP/1.0") then Ok(r.(version := Http10))
        else if StartsWith(version, "HTTP/1.1") then Ok(r.(version := Http11))
        else Err("Invalid HttpRequest: Needs to be a HTTP type 1.0 or 1.1!")
  }

  function HeaderLine(line: string, r: Request): Result<Request> {
    match Find(line, ": ")
    case None => Err("Invalid HttpRequest: Headers need key and value!")
    case Some(k) => Ok(r.(headers := Emplace(r.headers, line[..k], line[k + 2..])))
  }

  /** Parses the rest of the data, given the request read so far; `None` before the first line. */
  function ParseFrom(data: string, sofar: Option<Request>): Result<Request>
    decreases |data|
  {
    match Find(data, CRLF)
    case None => Err("Invalid HttpRequest: Incomplete header!")
    case Some(pos) =>
      var line, rest := data[..pos], data[pos + 2..];
      if line == "" then
        if sofar.Some? then Ok(sofar.value) else Err("Invalid HttpRequest: Missing first line!")
      else
        match (if sofar.Some? then HeaderLine(line, sofar.value) else FirstLine(line))
        case Err(e) => Err(e)
        case Ok(r) => ParseFrom(rest, Some(r))
  }

  method DeserializeQueries(text: string) returns (queries: seq<Pair>)
    ensures queries == WithQueries([], text)
  {
    queries := [];
    var rest := text;
    while true
      invariant WithQueries(queries, rest) == WithQueries([], text)
      decreases |rest|
    {
      var queryPos := Find(rest, "&");
      var query := if queryPos.None? then rest else rest[..queryPos.value];
      var keyPos := Find(query, "=");
      var key, value := query, "";
      if keyPos.Some? {
        key := query[..keyPos.value];
        value := query[keyPos.value + 1..];
      }
      ghost var before := queries;
      if |key| > 0 {
        queries := Emplace(queries, key, value);
      }
      assert queries == WithQuery(before, query);
      if queryPos.None? {
        break;
      }
      rest := rest[queryPos.value + 1..];
    }
  }

  method DeserializeTarget(r: Request, target: string) returns (request: Request)
    requires r.queries == []
    ensures request == WithTarget(r, target)
  {
    var queriesPos := Find(target, "?");
    if queriesPos.Some? {
      var queries := DeserializeQueries(target[queriesPos.value + 1..]);
      request := r.(path := target[..queriesPos.value], queries := queries);
    } else {
      request := r.(path := target);
    }
  }

  method DeserializeFirstLine(text: string) returns (r: Result<Request>)
    ensures r == FirstLine(text)
  {
    hide WithTarget, Find, MethodOf, MethodText;
    MethodFits(text);
    var kind := MethodOf(text);
    if kind.None? {
      return Err("Invalid HttpRequest: Needs to start with request method!");
    }
    var line := text[|MethodText(kind.value)|..];
    var pos := Find(line, " ", 1);
    if pos.None? {
      return Err("Invalid HttpRequest: Could not find path, or missing HTTP type!");
    }
    var request := DeserializeTarget(Request([], [], kind.value, Http10, ""), line[1..pos.value]);
    line := line[pos.value + 1..];
    if StartsWith(line, "HTTP/1.0") {
      request := request.(version := Http10);
    } else if StartsWith(line, "HTTP/1.1") {
      request := request.(version := Http11);
    } else {
      return Err("Invalid HttpRequest: Needs to be a HTTP type 1.0 or 1.1!");
    }
    r := Ok(request);
  }

  method DeserializeHeader(line: string, request: Request) returns (r: Result<Request>)
    ensures r == HeaderLine(line, request)
  {
    var keyPos := Find(line, ": ");
    if keyPos.None? {
      return Err("Invalid HttpRequest: Headers need key and value!");
    }
    var key, value := line[..keyPos.value], line[keyPos.value + 2..];
    r := Ok(request.(headers := Emplace(request.headers, key, value)));
  }

  method Deserialize(text: string) returns (r: Result<Request>)
    ensures r == ParseFrom(text, None)
  {
    hide FirstLine, HeaderLine;
    var data := text;
    var request: Option<Request> := None;
    while true
      invariant ParseFrom(data, request) == ParseFrom(text, None)
      decreases |data|
    {
      var pos := Find(data, CRLF);
      if pos.None? {
        return Err("Invalid HttpRequest: Incomplete header!");
      }
      var line := data[..pos.value];
      data := data[pos.value + 2..];
      if line == "" {
        if request.Some? {
          break;
        }
        return Err("Invalid HttpRequest: Missing first line!");
      }
      if request.None? {
        var first := DeserializeFirstLine(line);
        if first.Err? {
          return first;
        }
        request := Some(first.value);
      } else {
        var header := DeserializeHeader(line, request.value);
        if header.Err? {
          return header;
        }
        request := Some(header.value);
      }
    }
    r := Ok(request.value);
  }
}
