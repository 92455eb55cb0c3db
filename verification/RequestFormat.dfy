/**
 How the text of a request is read, piece by piece, and what one request looks like
 (`src/network/http_request.cpp`).
 */
module RequestFormat {
  import opened Wrappers
  import opened Text
  import opened OrderedMap
  import opened UrlEncoding
  import opened HttpRequest
  import opened RequestRoundTrip

  /** A query ends its key at the first equals sign; it may have no value, but without a key it is dropped. */
  lemma QueryIsRead(m: seq<Pair>, key: string, value: string)
    requires '=' !in key
    ensures WithQuery(m, key + "=" + value) == if key == "" then m else Emplace(m, key, value)
    ensures WithQuery(m, key) == if key == "" then m else Emplace(m, key, "")
  {
    hide Emplace, Find;
    FindChar(key, '=', value, 0);
    FindNoChar(key, '=');
    var text := key + "=" + value;
    assert text[..|key|] == key && text[|key| + 1..] == value;
  }

  /** Queries are read one by one, from the front. */
  lemma QueriesAreRead(m: seq<Pair>, query: string, rest: string)
    requires '&' !in query
    ensures WithQueries(m, query) == WithQuery(m, query)
    ensures WithQueries(m, query + "&" + rest) == WithQueries(WithQuery(m, query), rest)
  {
    hide WithQuery, Find;
    FindNoChar(query, '&');
    FindChar(query, '&', rest, 0);
    var text := query + "&" + rest;
    assert text[..|query|] == query && text[|query| + 1..] == rest;
  }

  /** The path ends at the first question mark. */
  lemma TargetIsRead(r: Request, path: string, queries: string)
    requires '?' !in path
    ensures WithTarget(r, path) == r.(path := path)
    ensures WithTarget(r, path + "?" + queries) == r.(path := path, queries := WithQueries(r.queries, queries))
  {
    hide WithQueries, Find;
    FindNoChar(path, '?');
    FindChar(path, '?', queries, 0);
    var text := path + "?" + queries;
    assert text[..|path|] == path && text[|path| + 1..] == queries;
  }

  /**
   A first line is a method, one more character, the target up to the next space, and one of the two types
   with anything behind it.
   */
  lemma FirstLineIsRead(kind: Method, any: char, target: string, version: string)
    requires ' ' !in target
    ensures var line := MethodText(kind) + [any] + target + " " + version;
            var r := WithTarget(Request([], [], kind, Http10, ""), target);
            FirstLine(line) ==
            if StartsWith(version, "HTTP/1.0") then Ok(r.(version := Http10))
            else if StartsWith(version, "HTTP/1.1") then Ok(r.(version := Http11))
            else Err("Invalid HttpRequest: Needs to be a HTTP type 1.0 or 1.1!")
  {
    hide WithTarget, Find, MethodOf, MethodText, StartsWith;
    var rest := [any] + target + " " + version;
    var line := MethodText(kind) + [any] + target + " " + version;
    assert line == MethodText(kind) + rest && line[|MethodText(kind)|..] == rest;
    MethodIs(kind, rest);
    assert ([any] + target)[1..] == target;
    FindChar([any] + target, ' ', version, 1);
    assert rest[1..1 + |target|] == target && rest[2 + |target|..] == version;
  }

  /** A line that starts with no method, or has no space behind the target, is refused. */
  lemma FirstLineIsRefused(line: string)
    ensures !("GET" <= line) && !("POST" <= line) && !("PUT" <= line) && !("DELETE" <= line) ==> FirstLine(line).Err?
    ensures (forall kind :: MethodText(kind) <= line ==> ' ' !in line[|MethodText(kind)|..]) ==> FirstLine(line).Err?
  {
    if MethodOf(line).Some? {
      var kind := MethodOf(line).value;
      MethodFits(line);
      MethodStarts(line);
      if ' ' !in line[|MethodText(kind)|..] {
        NoSpace(line[|MethodText(kind)|..]);
      }
    }
  }

  lemma MethodStarts(line: string)
    requires MethodOf(line).Some?
    ensures MethodText(MethodOf(line).value) <= line
  {
  }

  lemma NoSpace(rest: string)
    requires ' ' !in rest
    ensures Find(rest, " ", 1) == None
  {
    forall k: nat ensures !At(rest, " ", k) {
      if k < |rest| {
        assert rest[k..k + 1][0] == rest[k];
      }
    }
  }

  /** A header line is cut at its first separator; the first of equal keys stays, and other lines are refused. */
  lemma HeaderIsRead(key: string, value: string, r: Request)
    requires Free(key, ": ")
    ensures HeaderLine(key + ": " + value, r) == Ok(r.(headers := Emplace(r.headers, key, value)))
    ensures HeaderLine(key, r).Err?
  {
    hide Find, Emplace;
    FindSeparator(key, ": ", value);
    var line := key + ": " + value;
    assert line[..|key|] == key && line[|key| + 2..] == value;
  }

  /** A text without an empty line is no request, and neither is one that starts with it. */
  lemma EndIsNeeded(text: string, rest: string)
    ensures Free(text, CRLF) ==> ParseFrom(text, None).Err? && forall r :: ParseFrom(text, Some(r)).Err?
    ensures ParseFrom(CRLF + rest, None).Err?
  {
    assert (CRLF + rest)[0..2] == CRLF;
    FindIs(CRLF + rest, CRLF, 0, 0);
    hide Find;
  }

  /** The words of the protocol. */
  lemma Words()
    ensures MethodText(GET) == "GET" && MethodText(PUT) == "PUT" && MethodText(POST) == "POST"
    ensures MethodText(DELETE) == "DELETE" && TypeText(Http10) == "HTTP/1.0" && TypeText(Http11) == "HTTP/1.1"
  {
  }

  const QUERIES := [Pair("a", "b"), Pair("c", "/")]
  const HEADERS := [Pair("Host", "x")]

  /** One request as it goes over the wire. */
  lemma Example()
    ensures Serialized(Request(QUERIES, HEADERS, POST, Http11, "/p")) ==
            "POST" + " " + "/p" + "?" + "a=b&c=%2F" + " " + "HTTP/1.1" + "\r\n" + "Host: x\r\n" + "\r\n"
  {
    QueriesAre();
    HeadersAre();
    hide QueryString, HeaderLines;
    assert QUERIES != [];
    Grouped("POST", " ", "/p", "?", "a=b&c=%2F");
  }

  lemma Grouped(a: string, b: string, c: string, d: string, e: string)
    ensures a + b + (c + (d + e)) == a + b + c + d + e
  {
  }

  lemma QueriesAre()
    ensures QueryString(QUERIES) == "a=b&c=%2F"
  {
    Letter('a');
    Letter('b');
    Letter('c');
    Slash();
    hide Encode;
    assert Query(QUERIES[0]) == "a=b" && Query(QUERIES[1]) == "c=%2F";
    hide Query;
    assert QUERIES[1..] == [QUERIES[1]];
    assert QueryString(QUERIES[1..]) == "c=%2F";
  }

  lemma HeadersAre()
    ensures HeaderLines(HEADERS) == "Host: x\r\n"
  {
    assert HEADERS[1..] == [] && HeaderLines([]) == "";
  }

  lemma Letter(c: char)
    requires 'a' <= c <= 'z'
    ensures Encode([c]) == [c]
  {
    EncodeLast("", c);
    assert "" + [c] == [c] && Encode("") == "";
  }

  lemma Slash()
    ensures Encode("/") == "%2F"
  {
    EncodeLast("", '/');
    assert "" + ['/'] == "/" && Encode("") == "";
    HexOne('/', true);
    assert '/' as int == 47 && UPPER[2] == '2' && UPPER[15] == 'F';
  }
}
