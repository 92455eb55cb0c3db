/** What parsing makes of a serialized request (`src/network/http_request.cpp`). */
module RequestRoundTrip {
  import opened Wrappers
  import opened Text
  import opened OrderedMap
  import opened UrlEncoding
  import opened HttpRequest

  /** The pattern occurs nowhere. */
  predicate Free(s: string, pat: string) {
    Find(s, pat).None?
  }

  /** What the fields of a request must be for its text to be an HTTP request with these parts. */
  ghost predicate WellFormed(r: Request) {
    && Sorted(r.queries) && Sorted(r.headers)
    && ' ' !in r.path && '?' !in r.path && Free(r.path, CRLF)
    && (forall q | q in r.queries :: q.key != "" && Bytes(q.key) && Bytes(q.value))
    && (forall h | h in r.headers :: Free(h.key, ": ") && Free(h.key, CRLF) && Free(h.value, CRLF))
  }

  /** The queries with keys and values percent-encoded. */
  function Encoded(queries: seq<Pair>): seq<Pair> {
    if queries == [] then [] else [Pair(Encode(queries[0].key), Encode(queries[0].value))] + Encoded(queries[1..])
  }

  function EmplaceAll(m: seq<Pair>, queries: seq<Pair>): seq<Pair>
    decreases queries
  {
    if queries == [] then m
    else EmplaceAll(Emplace(m, Encode(queries[0].key), Encode(queries[0].value)), queries[1..])
  }

  /** A separator of two different characters ends the text before it. */
  lemma FindSeparator(a: string, pat: string, rest: string)
    requires |pat| == 2 && pat[0] != pat[1] && Free(a, pat)
    ensures Find(a + pat + rest, pat) == Some(|a|)
  {
    var s := a + pat + rest;
    assert s[|a|..|a| + 2] == pat;
    forall j: nat | j < |a| ensures !At(s, pat, j) {
      if j + 2 <= |a| {
        assert s[j..j + 2] == a[j..j + 2] && !At(a, pat, j);
      } else {
        assert s[j..j + 2][1] == pat[0];
      }
    }
    FindIs(s, pat, 0, |a|);
  }

  lemma FindChar(a: string, c: char, rest: string, i: nat)
    requires i <= |a| && c !in a[i..]
    ensures Find(a + [c] + rest, [c], i) == Some(|a|)
  {
    var s := a + [c] + rest;
    assert s[|a|..|a| + 1] == [c];
    forall j: nat | i <= j < |a| ensures !At(s, [c], j) {
      assert s[j..j + 1][0] == a[i..][j - i];
    }
    FindIs(s, [c], i, |a|);
  }

  lemma FindNoChar(a: string, c: char)
    requires c !in a
    ensures Find(a, [c]) == None
  {
    forall k: nat ensures !At(a, [c], k) {
      if k < |a| {
        assert a[k..k + 1][0] == a[k];
      }
    }
  }

  lemma FreeConcat(a: string, b: string)
    requires Free(a, CRLF) && Free(b, CRLF) && (b == "" || b[0] != '\n')
    ensures Free(a + b, CRLF)
  {
    forall j: nat ensures !At(a + b, CRLF, j) {
      if j + 2 <= |a + b| {
        if j + 2 <= |a| {
          assert (a + b)[j..j + 2] == a[j..j + 2] && !At(a, CRLF, j);
        } else if j < |a| {
          assert (a + b)[j..j + 2][1] == b[0];
        } else {
          assert (a + b)[j..j + 2] == b[j - |a|..j - |a| + 2] && !At(b, CRLF, j - |a|);
        }
      }
    }
  }

  lemma FreeWithoutNewline(s: string)
    requires '\n' !in s
    ensures Free(s, CRLF)
  {
    forall j: nat ensures !At(s, CRLF, j) {
      if j + 2 <= |s| {
        assert s[j..j + 2][1] == s[j + 1];
      }
    }
  }

  /** The queries use no character that separates them from anything. */
  lemma {:induction false} QueryAlphabet(queries: seq<Pair>)
    ensures forall c | c in QueryString(queries) :: Unreserved(c) || c == '%' || c == '=' || c == '&'
  {
    if queries != [] {
      EncodedAlphabet(queries[0].key);
      EncodedAlphabet(queries[0].value);
      QueryAlphabet(queries[1..]);
    }
  }

  lemma WithEncodedQuery(m: seq<Pair>, q: Pair)
    requires q.key != ""
    ensures WithQuery(m, Query(q)) == Emplace(m, Encode(q.key), Encode(q.value))
    ensures '&' !in Query(q)
  {
    hide Emplace, Encode;
    EncodedAlphabet(q.key);
    EncodedAlphabet(q.value);
    EncodeLength(q.key);
    FindChar(Encode(q.key), '=', Encode(q.value), 0);
    assert Query(q)[..|Encode(q.key)|] == Encode(q.key);
    assert Query(q)[|Encode(q.key)| + 1..] == Encode(q.value);
  }

  lemma {:induction false} ParseQueries(m: seq<Pair>, queries: seq<Pair>)
    requires queries != [] && forall q | q in queries :: q.key != ""
    ensures WithQueries(m, QueryString(queries)) == EmplaceAll(m, queries)
    decreases queries
  {
    hide WithQuery, Query, Emplace, Encode, Find;
    var q, rest := queries[0], queries[1..];
    WithEncodedQuery(m, q);
    if rest == [] {
      FindNoChar(Query(q), '&');
    } else {
      FindChar(Query(q), '&', QueryString(rest), 0);
      var text := Query(q) + "&" + QueryString(rest);
      assert text == QueryString(queries) && text[..|Query(q)|] == Query(q)
          && text[|Query(q)| + 1..] == QueryString(rest);
      ParseQueries(Emplace(m, Encode(q.key), Encode(q.value)), rest);
    }
  }

  /** The sum of the lengths the queries have in the text. */
  function Weight(queries: seq<Pair>): nat {
    if queries == [] then 0 else |Encode(queries[0].key)| + |Encode(queries[0].value)| + Weight(queries[1..])
  }

  lemma {:induction false} QueryStringLength(queries: seq<Pair>)
    requires queries != []
    ensures |QueryString(queries)| == Weight(queries) + 2 * |queries| - 1
  {
    if |queries| > 1 {
      QueryStringLength(queries[1..]);
    }
  }

  lemma {:induction false} EmplaceWeight(m: seq<Pair>, key: string, value: string)
    requires !Has(m, key)
    ensures Weight(Emplace(m, key, value)) == Weight(m) + |Encode(key)| + |Encode(value)|
    ensures |Emplace(m, key, value)| == |m| + 1
  {
    hide Encode, Less;
    if m != [] {
      var rest := m[1..];
      assert m == [m[0]] + rest;
      HasCons(m[0], rest, key);
      EmplaceWeight(rest, key, value);
      assert ([m[0]] + Emplace(rest, key, value))[1..] == Emplace(rest, key, value);
      assert ([Pair(key, value)] + m)[1..] == m;
    }
  }

  /** The keys differ from each other, once encoded, and from those already there. */
  ghost predicate NewKeys(m: seq<Pair>, queries: seq<Pair>) {
    && (forall i, j | 0 <= i < j < |queries| :: Encode(queries[i].key) != Encode(queries[j].key))
    && (forall i | 0 <= i < |queries| :: !Has(m, Encode(queries[i].key)))
  }

  lemma NewKeysStep(m: seq<Pair>, queries: seq<Pair>)
    requires Sorted(m) && queries != [] && NewKeys(m, queries)
    ensures NewKeys(Emplace(m, Encode(queries[0].key), Encode(queries[0].value)), queries[1..])
  {
    hide Encode, Less, Emplace, Sorted;
    var key, value := Encode(queries[0].key), Encode(queries[0].value);
    var n, rest := Emplace(m, key, value), queries[1..];
    EmplaceIs(m, key, value);
    forall i | 0 <= i < |rest| ensures !Has(n, Encode(rest[i].key)) {
      assert rest[i] == queries[i + 1] && key != Encode(queries[i + 1].key) && !Has(m, Encode(queries[i + 1].key));
      forall k | 0 <= k < |n| ensures n[k].key != Encode(rest[i].key) {
        assert n[k] in n;
        if n[k] in m {
          var l :| 0 <= l < |m| && m[l] == n[k];
        }
      }
    }
  }

  /** Emplacing the encoded queries one by one gives the ordered map of them all. */
  lemma {:induction false} EmplaceAllIs(m: seq<Pair>, queries: seq<Pair>)
    requires Sorted(m) && NewKeys(m, queries)
    ensures Sorted(EmplaceAll(m, queries))
    ensures multiset(EmplaceAll(m, queries)) == multiset(m) + multiset(Encoded(queries))
    ensures Weight(EmplaceAll(m, queries)) == Weight(m) + Weight(Encoded(queries))
    ensures |EmplaceAll(m, queries)| == |m| + |queries|
    decreases queries
  {
    hide Encode, Less, Emplace, Sorted, NewKeys;
    if queries != [] {
      var key, value, rest := Encode(queries[0].key), Encode(queries[0].value), queries[1..];
      assert !Has(m, key) by { FirstIsNew(m, queries); }
      EmplaceIs(m, key, value);
      EmplaceWeight(m, key, value);
      NewKeysStep(m, queries);
      EmplaceAllIs(Emplace(m, key, value), rest);
      assert Encoded(queries)[1..] == Encoded(rest);
    }
  }

  lemma FirstIsNew(m: seq<Pair>, queries: seq<Pair>)
    requires queries != [] && NewKeys(m, queries)
    ensures !Has(m, Encode(queries[0].key))
  {
  }

  /** The keys of a map stay different when they are encoded. */
  lemma KeysStayDifferent(queries: seq<Pair>)
    requires Sorted(queries) && forall q | q in queries :: Bytes(q.key)
    ensures NewKeys([], queries)
  {
    hide Encode, Less;
    forall i, j | 0 <= i < j < |queries| ensures Encode(queries[i].key) != Encode(queries[j].key) {
      LessTotal(queries[i].key, queries[i].key);
      assert queries[i] in queries && queries[j] in queries && Less(queries[i].key, queries[j].key);
      if Encode(queries[i].key) == Encode(queries[j].key) {
        EncodeInjective(queries[i].key, queries[j].key);
      }
    }
  }

  lemma MethodIs(kind: Method, rest: string)
    ensures MethodOf(MethodText(kind) + rest) == Some(kind)
  {
    var line := MethodText(kind) + rest;
    assert line[..|MethodText(kind)|] == MethodText(kind);
    match kind {
      case GET =>
      case PUT => assert line[0] == 'P' && line[1] == 'U' && "GET"[0] == 'G' && "POST"[1] == 'O';
      case POST => assert line[0] == 'P' && "GET"[0] == 'G';
      case DELETE => assert line[0] == 'D' && "GET"[0] == 'G' && "POST"[0] == 'P' && "PUT"[0] == 'P';
    }
  }

  lemma TargetParses(r: Request, blank: Request)
    requires WellFormed(r) && blank.queries == []
    ensures WithTarget(blank, Target(r)) == blank.(path := r.path, queries := EmplaceAll([], r.queries))
  {
    hide WithQueries, Find, QueryString;
    if r.queries == [] {
      assert Target(r) == r.path;
      FindNoChar(r.path, '?');
    } else {
      FindChar(r.path, '?', QueryString(r.queries), 0);
      assert Target(r) == r.path + ['?'] + QueryString(r.queries);
      assert Target(r)[..|r.path|] == r.path && Target(r)[|r.path| + 1..] == QueryString(r.queries);
      ParseQueries([], r.queries);
    }
  }

  /** What stands between the method and the line break, cut at the first space after the target. */
  lemma TargetEnds(r: Request)
    requires WellFormed(r)
    ensures var rest := " " + Target(r) + " " + TypeText(r.version);
            && Find(rest, " ", 1) == Some(1 + |Target(r)|)
            && rest[1..1 + |Target(r)|] == Target(r) && rest[2 + |Target(r)|..] == TypeText(r.version)
  {
    hide Find, QueryString, Sorted, TypeText;
    QueryAlphabet(r.queries);
    assert (" " + Target(r))[1..] == Target(r);
    FindChar(" " + Target(r), ' ', TypeText(r.version), 1);
  }

  lemma TypeIs(version: Type)
    ensures StartsWith(TypeText(version), "HTTP/1.0") <==> version == Http10
    ensures StartsWith(TypeText(version), "HTTP/1.1") <==> version == Http11
  {
    assert "HTTP/1.0"[7] == '0' && "HTTP/1.1"[7] == '1';
  }

  /** The first line gives back method, path and type, and the map of the encoded queries. */
  lemma FirstLineParses(r: Request)
    requires WellFormed(r)
    ensures FirstLine(StartLine(r)) == Ok(Request(EmplaceAll([], r.queries), [], r.kind, r.version, r.path))
    ensures Free(StartLine(r), CRLF)
  {
    hide WithTarget, Find, QueryString, MethodOf, Target, TypeText, WellFormed, MethodText, StartsWith, EmplaceAll,
        Free;
    var rest := " " + Target(r) + " " + TypeText(r.version);
    var line := MethodText(r.kind) + rest;
    assert StartLine(r) == line && line[|MethodText(r.kind)|..] == rest;
    MethodIs(r.kind, rest);
    TargetEnds(r);
    TargetParses(r, Request([], [], r.kind, Http10, ""));
    TypeIs(r.version);
    StartLineIsFree(r);
  }

  lemma StartLineIsFree(r: Request)
    requires WellFormed(r)
    ensures Free(StartLine(r), CRLF)
  {
    hide Find, QueryString;
    QueryAlphabet(r.queries);
    var head := MethodText(r.kind) + " ";
    var tail := (if r.queries == [] then "" else "?" + QueryString(r.queries)) + " " + TypeText(r.version);
    FreeWithoutNewline(tail);
    FreeConcat(r.path, tail);
    FreeWithoutNewline(head);
    HeadIsFree(head, r.path + tail);
    assert StartLine(r) == head + (r.path + tail);
  }

  /** A text that ends in a space can stand before any other. */
  lemma HeadIsFree(head: string, rest: string)
    requires Free(head, CRLF) && Free(rest, CRLF) && head != "" && head[|head| - 1] != '\r'
    ensures Free(head + rest, CRLF)
  {
    forall j: nat ensures !At(head + rest, CRLF, j) {
      if j + 2 <= |head + rest| {
        if j + 2 <= |head| {
          assert (head + rest)[j..j + 2] == head[j..j + 2] && !At(head, CRLF, j);
        } else if j < |head| {
          assert (head + rest)[j..j + 2][0] == head[|head| - 1];
        } else {
          assert (head + rest)[j..j + 2] == rest[j - |head|..j - |head| + 2] && !At(rest, CRLF, j - |head|);
        }
      }
    }
  }

  lemma HeaderParses(h: Pair, r: Request)
    requires Free(h.key, ": ") && Free(h.key, CRLF) && Free(h.value, CRLF)
    ensures HeaderLine(HeaderText(h), r) == Ok(r.(headers := Emplace(r.headers, h.key, h.value)))
    ensures Free(HeaderText(h), CRLF) && HeaderText(h) != ""
  {
    hide Find, Emplace;
    FindSeparator(h.key, ": ", h.value);
    assert HeaderText(h)[..|h.key|] == h.key && HeaderText(h)[|h.key| + 2..] == h.value;
    FreeWithoutNewline(": ");
    FreeConcat(h.key, ": ");
    HeadIsFree(h.key + ": ", h.value);
  }

  /** One line of the text is cut off and read. */
  lemma ParseLine(line: string, rest: string, sofar: Option<Request>, next: Request)
    requires Free(line, CRLF) && line != ""
    requires (if sofar.Some? then HeaderLine(line, sofar.value) else FirstLine(line)) == Ok(next)
    ensures ParseFrom(line + CRLF + rest, sofar) == ParseFrom(rest, Some(next))
  {
    hide Find, HeaderLine, FirstLine;
    FindSeparator(line, CRLF, rest);
    var data := line + CRLF + rest;
    assert data[..|line|] == line && data[|line| + 2..] == rest;
  }

  lemma {:induction false} HeadersParse(r: Request, headers: seq<Pair>)
    requires Sorted(r.headers + headers)
    requires forall h | h in headers :: Free(h.key, ": ") && Free(h.key, CRLF) && Free(h.value, CRLF)
    ensures ParseFrom(HeaderLines(headers) + CRLF, Some(r)) == Ok(r.(headers := r.headers + headers))
    decreases headers
  {
    hide HeaderLine, FirstLine, Emplace, Less, HeaderText, ParseFrom;
    if headers == [] {
      EmptyLineEnds(r);
      assert HeaderLines(headers) + CRLF == CRLF && r.headers + headers == r.headers;
    } else {
      var h, rest := headers[0], headers[1..];
      HeaderParses(h, r);
      forall i | 0 <= i < |r.headers| ensures Less(r.headers[i].key, h.key) {
        assert (r.headers + headers)[i] == r.headers[i] && (r.headers + headers)[|r.headers|] == h;
      }
      EmplaceLast(r.headers, h.key, h.value);
      assert h == Pair(h.key, h.value) && r.headers + headers == (r.headers + [h]) + rest;
      ParseLine(HeaderText(h), HeaderLines(rest) + CRLF, Some(r), r.(headers := r.headers + [h]));
      assert HeaderLines(headers) + CRLF == HeaderText(h) + CRLF + (HeaderLines(rest) + CRLF);
      HeadersParse(r.(headers := r.headers + [h]), rest);
    }
  }

  lemma EmptyLineEnds(r: Request)
    ensures ParseFrom(CRLF, Some(r)) == Ok(r)
  {
    FindIs(CRLF, CRLF, 0, 0);
  }

  /** The request that comes back: as sent, but with the queries encoded. */
  ghost function Returned(r: Request): Request {
    r.(queries := EmplaceAll([], r.queries))
  }

  /**
   Parsing what was serialized gives back method, type, path and headers, and the ordered map of exactly
   the queries with keys and values percent-encoded.
   */
  lemma RoundTrip(r: Request)
    requires WellFormed(r)
    ensures ParseFrom(Serialized(r), None) == Ok(Returned(r))
    ensures Sorted(Returned(r).queries) && multiset(Returned(r).queries) == multiset(Encoded(r.queries))
  {
    hide ParseFrom, HeaderLines, FirstLine, StartLine, Less, Find;
    FirstLineParses(r);
    var rest := HeaderLines(r.headers) + CRLF;
    assert Serialized(r) == StartLine(r) + CRLF + rest;
    assert StartLine(r) != "" by { StartLineIsLong(r); }
    ParseLine(StartLine(r), rest, None, Request(EmplaceAll([], r.queries), [], r.kind, r.version, r.path));
    assert [] + r.headers == r.headers;
    HeadersParse(Request(EmplaceAll([], r.queries), [], r.kind, r.version, r.path), r.headers);
    KeysStayDifferent(r.queries);
    EmplaceAllIs([], r.queries);
  }

  lemma StartLineIsLong(r: Request)
    ensures |StartLine(r)| == |MethodText(r.kind)| + |r.path| + 10
                              + if r.queries == [] then 0 else 1 + |QueryString(r.queries)|
  {
  }

  /** A query that needs no encoding. */
  predicate Plain(q: Pair) {
    AllUnreserved(q.key) && AllUnreserved(q.value)
  }

  lemma {:induction false} EncodedWeight(queries: seq<Pair>)
    ensures Weight(Encoded(queries)) >= Weight(queries)
    ensures Weight(Encoded(queries)) == Weight(queries) <==> forall q | q in queries :: Plain(q)
  {
    hide Encode, AllUnreserved;
    if queries != [] {
      var q, rest := queries[0], queries[1..];
      EncodeTwice(q.key);
      EncodeTwice(q.value);
      EncodedWeight(rest);
      assert Encoded(queries)[0] == Pair(Encode(q.key), Encode(q.value)) && Encoded(queries)[1..] == Encoded(rest);
      assert queries == [q] + rest && q in queries;
      if Plain(q) && forall p | p in rest :: Plain(p) {
        assert forall p | p in queries :: p == q || p in rest;
      }
    }
  }

  lemma {:induction false} PlainQueriesStay(m: seq<Pair>, queries: seq<Pair>)
    requires Sorted(m + queries) && forall q | q in queries :: Plain(q)
    ensures EmplaceAll(m, queries) == m + queries
    decreases queries
  {
    hide Encode, AllUnreserved, Less, Emplace;
    if queries == [] {
      assert m + queries == m;
    } else {
      var q, rest := queries[0], queries[1..];
      assert q in queries && Plain(q);
      EncodeLength(q.key);
      EncodeLength(q.value);
      forall i | 0 <= i < |m| ensures Less(m[i].key, q.key) {
        assert (m + queries)[i] == m[i] && (m + queries)[|m|] == q;
      }
      EmplaceLast(m, q.key, q.value);
      assert q == Pair(q.key, q.value) && m + queries == (m + [q]) + rest;
      PlainQueriesStay(m + [q], rest);
    }
  }

  /**
   Serializing what was parsed gives the same bytes exactly if no query needs encoding, and then the
   request itself came back.
   */
  lemma SameBytesIff(r: Request)
    requires WellFormed(r)
    ensures Serialized(Returned(r)) == Serialized(r) <==> forall q | q in r.queries :: Plain(q)
    ensures (forall q | q in r.queries :: Plain(q)) ==> Returned(r) == r
  {
    hide Encode, AllUnreserved, Less, Emplace, HeaderLines, QueryString;
    if forall q | q in r.queries :: Plain(q) {
      assert [] + r.queries == r.queries;
      PlainQueriesStay([], r.queries);
    } else {
      var s := Returned(r);
      KeysStayDifferent(r.queries);
      EmplaceAllIs([], r.queries);
      EncodedWeight(r.queries);
      QueryStringLength(r.queries);
      QueryStringLength(s.queries);
      StartLineIsLong(r);
      StartLineIsLong(s);
      hide StartLine;
      assert |Serialized(s)| > |Serialized(r)|;
    }
  }

  /** A query with a space is encoded once more each time: the bytes differ. */
  lemma SpaceIsEncodedAgain()
    ensures var r := Request([Pair("k", " ")], [], GET, Http11, "/");
            WellFormed(r) && Serialized(Returned(r)) != Serialized(r)
  {
    var q := Pair("k", " ");
    var r := Request([q], [], GET, Http11, "/");
    assert q in r.queries && q.value[0] in q.value && !Unreserved(q.value[0]);
    FreeWithoutNewline(r.path);
    SameBytesIff(r);
  }
}
