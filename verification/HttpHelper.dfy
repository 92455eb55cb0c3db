/** `HttpHelper::detect` and `HttpHelper::finished` (`src/network/http_helper.cpp`). */
module HttpHelper {
  import opened Wrappers
  import opened Text
  import opened OrderedMap
  import opened HttpResponse

  const U32 := 0x1_0000_0000
  const U64 := 0x1_0000_0000_0000_0000

  datatype Encoding = UnknownEncoding | ContentLength | ChunkedEncoding

  /** `length` and `headerLength` hold whatever was in memory until they are assigned. */
  datatype Info = Info(response: Response, length: nat, headerLength: nat, encoding: Encoding)

  /** The outcome of `finished`: it throws, and then there is no cached info, or it answers. */
  datatype Progress = Throws | Answer(done: bool, info: Info)

  function Digits(s: string): (r: nat)
    ensures r <= |s| && forall i | 0 <= i < r :: IsDigit(s[i])
    ensures r < |s| ==> !IsDigit(s[r])
  {
    if s == "" || !IsDigit(s[0]) then 0 else 1 + Digits(s[1..])
  }

  function Decimal(s: string): nat
    requires forall c | c in s :: IsDigit(c)
  {
    if s == "" then 0
    else
      var last := s[|s| - 1];
      assert last in s && IsDigit(last);
      Decimal(s[..|s| - 1]) * 10 + (last as int - '0' as int)
  }

  /** `from_chars` into a 64-bit number: no digits or too large a number leaves the old value. */
  function FromChars(s: string, before: nat): nat {
    var d := s[..Digits(s)];
    if d == "" || Decimal(d) >= U64 then before else Decimal(d)
  }

  /** The two casts to 32 bits and their sum. */
  function After(end: nat): nat {
    (end % U32 + 4) % U32
  }

  /** `header.find("\r\n\r\n") + 4` in 32 bits. */
  function HeaderLength(header: string): Option<nat> {
    match Find(header, HEADER_END)
    case None => None
    case Some(e) => Some(After(e))
  }

  /** What the loop of `detect` makes of the first `n` headers, in the order of the map. */
  function Scan(header: string, headers: seq<Pair>, n: nat, start: Info): Info
    requires n <= |headers| && HeaderLength(header).Some?
  {
    if n == 0 then start
    else
      var info, h := Scan(header, headers, n - 1, start), headers[n - 1];
      var headerLength := HeaderLength(header).value;
      if h.key == "Transfer-Encoding" && h.value == "chunked" then
        info.(encoding := ChunkedEncoding, headerLength := headerLength)
      else if h.key == "Content-Length" then
        info.(encoding := ContentLength, length := FromChars(h.value, info.length), headerLength := headerLength)
      else info
  }

  /** `garbage` is what the uninitialised members hold. */
  function DetectSpec(header: string, garbage: nat): Result<Info> {
    match Parse(header)
    case Err(e) => Err(e)
    case Ok((response, consumed)) =>
      StopsAtFirstHeaderEnd(header);
      var info := Scan(header, response.headers, |response.headers|, Info(response, garbage, garbage, UnknownEncoding));
      if WithoutContent(response.code) then Ok(info.(headerLength := |header| % U32))
      else if info.encoding == UnknownEncoding then Err("Unsupported HTTP encoding protocol")
      else Ok(info)
  }

  /** The assertions on the header end in the source can never fail: `HeaderLength` is always there. */
  method Detect(header: string, garbage: nat) returns (r: Result<Info>)
    ensures r == DetectSpec(header, garbage)
  {
    var parsed := Deserialize(header);
    if parsed.Err? {
      return Err(parsed.message);
    }
    StopsAtFirstHeaderEnd(header);
    var response := parsed.value;
    var info := Info(response, garbage, garbage, UnknownEncoding);
    var i := 0;
    while i < |response.headers|
      invariant i <= |response.headers| && info == Scan(header, response.headers, i, Info(response, garbage, garbage,
          UnknownEncoding))
    {
      var h := response.headers[i];
      if h.key == "Transfer-Encoding" && h.value == "chunked" {
        var end := Find(header, HEADER_END);
        assert end.Some?;
        info := info.(encoding := ChunkedEncoding, headerLength := After(end.value));
      } else if h.key == "Content-Length" {
        var end := Find(header, HEADER_END);
        assert end.Some?;
        info := info.(encoding := ContentLength, length := FromChars(h.value, info.length),
                      headerLength := After(end.value));
      }
      i := i + 1;
    }
    ScanKeepsResponse(header, response.headers, i, Info(response, garbage, garbage, UnknownEncoding));
    if info.encoding == UnknownEncoding && !WithoutContent(info.response.code) {
      return Err("Unsupported HTTP encoding protocol");
    }
    if WithoutContent(info.response.code) {
      info := info.(headerLength := |header| % U32);
    }
    r := Ok(info);
  }

  lemma {:induction false} ScanKeepsResponse(header: string, headers: seq<Pair>, n: nat, start: Info)
    requires n <= |headers| && HeaderLength(header).Some?
    ensures Scan(header, headers, n, start).response == start.response
    ensures Scan(header, headers, n, start).encoding != UnknownEncoding && start.encoding == UnknownEncoding ==>
              Scan(header, headers, n, start).headerLength == HeaderLength(header).value
  {
    if n > 0 {
      ScanKeepsResponse(header, headers, n - 1, start);
    }
  }

  /** The value of the Content-Length header among the first `n`. */
  function LengthValue(headers: seq<Pair>, n: nat): Option<string>
    requires n <= |headers|
  {
    if n == 0 then None
    else if headers[n - 1].key == "Content-Length" then Some(headers[n - 1].value)
    else LengthValue(headers, n - 1)
  }

  /** The value starts with a number that fits 64 bits. */
  predicate IsNumber(value: string) {
    Digits(value) > 0 && Decimal(value[..Digits(value)]) < U64
  }

  function Number(value: string): nat {
    Decimal(value[..Digits(value)])
  }

  lemma {:induction false} LengthValueIs(headers: seq<Pair>, n: nat)
    requires n <= |headers|
    ensures LengthValue(headers, n).Some? <==> exists i :: 0 <= i < n && headers[i].key == "Content-Length"
  {
    if n > 0 {
      LengthValueIs(headers, n - 1);
    }
  }

  /** The loop of `detect` reads the one Content-Length header there may be, and nothing else decides the length. */
  lemma {:induction false} ScanLength(header: string, headers: seq<Pair>, n: nat, start: Info)
    requires n <= |headers| && HeaderLength(header).Some? && Sorted(headers)
    ensures Scan(header, headers, n, start).length ==
            match LengthValue(headers, n) case None => start.length case Some(v) => FromChars(v, start.length)
    ensures Scan(header, headers, n, start).encoding == ContentLength && start.encoding != ContentLength ==>
              LengthValue(headers, n).Some?
  {
    hide FromChars, Less;
    if n > 0 {
      ScanLength(header, headers, n - 1, start);
      if headers[n - 1].key == "Content-Length" {
        LengthValueIs(headers, n - 1);
        LessTotal("Content-Length", "Content-Length");
      }
    }
  }

  lemma {:induction false} ScanEncoding(header: string, headers: seq<Pair>, n: nat, a: Info, b: Info)
    requires n <= |headers| && HeaderLength(header).Some? && a.encoding == b.encoding
    ensures Scan(header, headers, n, a).encoding == Scan(header, headers, n, b).encoding
  {
    if n > 0 {
      ScanEncoding(header, headers, n - 1, a, b);
    }
  }

  /** The announced length as the text of the header has it. */
  function HeaderValue(header: string): Option<string>
    requires Parse(header).Ok?
  {
    var hs := Parse(header).value.0.headers;
    LengthValue(hs, |hs|)
  }

  /** Whether there is a result, and its encoding, do not depend on what was in memory. */
  lemma SameDetection(header: string, g: nat, g': nat)
    requires DetectSpec(header, g).Ok?
    ensures DetectSpec(header, g').Ok? && DetectSpec(header, g).value.encoding == DetectSpec(header, g').value.encoding
  {
    hide Scan, ParseFrom;
    StopsAtFirstHeaderEnd(header);
    var r := Parse(header).value.0;
    ScanEncoding(header, r.headers, |r.headers|, Info(r, g, g, UnknownEncoding), Info(r, g', g', UnknownEncoding));
  }

  lemma DetectedLength(header: string, garbage: nat)
    requires DetectSpec(header, garbage).Ok? && DetectSpec(header, garbage).value.encoding == ContentLength
    ensures HeaderValue(header).Some?
    ensures DetectSpec(header, garbage).value.length == FromChars(HeaderValue(header).value, garbage)
  {
    hide Scan, ParseFrom, FromChars;
    StopsAtFirstHeaderEnd(header);
    HeadersSorted(header, 0, None);
    var r := Parse(header).value.0;
    ScanLength(header, r.headers, |r.headers|, Info(r, garbage, garbage, UnknownEncoding));
  }

  /**
   The detected length is a function of the header exactly if the header's value starts with a number
   that fits 64 bits, and then it is that number; otherwise it is whatever was in memory.
   */
  lemma LengthIffNumber(header: string, g: nat, g': nat)
    requires DetectSpec(header, g).Ok? && DetectSpec(header, g).value.encoding == ContentLength && g != g'
    ensures HeaderValue(header).Some? && DetectSpec(header, g').Ok?
    ensures var a, b := DetectSpec(header, g).value.length, DetectSpec(header, g').value.length;
            && (a == b <==> IsNumber(HeaderValue(header).value))
            && (a == b ==> a == Number(HeaderValue(header).value))
            && (a != b ==> a == g && b == g')
  {
    hide DetectSpec, HeaderValue;
    SameDetection(header, g, g');
    DetectedLength(header, g);
    DetectedLength(header, g');
  }

  predicate HasKey(headers: seq<Pair>, n: nat, key: string)
    requires n <= |headers|
  {
    exists i :: 0 <= i < n && headers[i].key == key
  }

  lemma {:induction false} ScanEncodingIs(header: string, headers: seq<Pair>, n: nat, start: Info)
    requires n <= |headers| && HeaderLength(header).Some? && Sorted(headers) && start.encoding == UnknownEncoding
    ensures Scan(header, headers, n, start).encoding ==
            if Pair("Transfer-Encoding", "chunked") in headers[..n] then ChunkedEncoding
            else if HasKey(headers, n, "Content-Length") then ContentLength
            else UnknownEncoding
  {
    hide FromChars, HeaderLength, Less;
    if n > 0 {
      ScanEncodingIs(header, headers, n - 1, start);
      assert headers[..n] == headers[..n - 1] + [headers[n - 1]];
      var h := headers[n - 1];
      forall i | 0 <= i < n - 1 ensures !(h.key == "Content-Length" && headers[i].key == "Transfer-Encoding") {
        KeysApart();
      }
    }
  }

  lemma KeysApart()
    ensures !Less("Transfer-Encoding", "Content-Length")
  {
  }

  /**
   How the end of a response is found: none for 204; else by chunks if the header says exactly so, even if there
   is a Content-Length as well; else by Content-Length; and a response with neither is refused.
   */
  lemma EncodingIs(header: string, garbage: nat)
    requires Parse(header).Ok?
    ensures var r := Parse(header).value.0;
            var chunked := Pair("Transfer-Encoding", "chunked") in r.headers;
            var sized := HasKey(r.headers, |r.headers|, "Content-Length");
            && (DetectSpec(header, garbage).Ok? <==> WithoutContent(r.code) || chunked || sized)
            && (DetectSpec(header, garbage).Ok? ==>
                  && DetectSpec(header, garbage).value.response == r
                  && DetectSpec(header, garbage).value.encoding ==
                     if chunked then ChunkedEncoding else if sized then ContentLength else UnknownEncoding)
  {
    hide Scan, ParseFrom;
    StopsAtFirstHeaderEnd(header);
    HeadersSorted(header, 0, None);
    var r := Parse(header).value.0;
    ScanEncodingIs(header, r.headers, |r.headers|, Info(r, garbage, garbage, UnknownEncoding));
    ScanKeepsResponse(header, r.headers, |r.headers|, Info(r, garbage, garbage, UnknownEncoding));
    assert r.headers[..|r.headers|] == r.headers;
  }

  /** `finished` once the header info is there. */
  function FinishedWith(data: string, info: Info): Progress {
    if WithoutContent(info.response.code) then Answer(true, info)
    else match info.encoding
    case ContentLength => Answer(|data| >= (info.headerLength + info.length) % U64, info)
    case ChunkedEncoding =>
      (match Find(data, "0\r\n\r\n")
       case None => Answer(false, info.(length := U64 - 1))
       case Some(k) => Answer(true, info.(length := (k - info.headerLength) % U64)))
    case UnknownEncoding => Throws
  }

  function FinishedSpec(data: string, cached: Option<Info>, garbage: nat): Progress {
    match cached
    case Some(info) => FinishedWith(data, info)
    case None =>
      match DetectSpec(data, garbage)
      case Err(_) => Throws
      case Ok(info) => FinishedWith(data, info)
  }

  method Finished(data: string, cached: Option<Info>, garbage: nat) returns (p: Progress)
    ensures p == FinishedSpec(data, cached, garbage)
  {
    var info := cached;
    if info.None? {
      var detected := Detect(data, garbage);
      if detected.Err? {
        return Throws;
      }
      info := Some(detected.value);
    }
    if WithoutContent(info.value.response.code) {
      return Answer(true, info.value);
    }
    match info.value.encoding {
      case ContentLength =>
        p := Answer(|data| >= (info.value.headerLength + info.value.length) % U64, info.value);
      case ChunkedEncoding =>
        var k := Find(data, "0\r\n\r\n");
        info := Some(info.value.(length := if k.Some? then k.value else U64 - 1));
        var ret := k.Some?;
        if ret {
          info := Some(info.value.(length := (info.value.length - info.value.headerLength) % U64));
        }
        p := Answer(ret, info.value);
      case UnknownEncoding =>
        p := Throws;
    }
  }

  ghost predicate FirstAt(data: string, pat: string, k: nat) {
    At(data, pat, k) && forall j: nat | j < k :: !At(data, pat, j)
  }

  /**
   Without content a response is finished with its header; in chunks it is finished as soon as the last chunk's
   text is somewhere in it, and its length is what lies between the header and that text.
   */
  lemma FinishedOtherwise(data: string, info: Info)
    ensures WithoutContent(info.response.code) ==> FinishedWith(data, info) == Answer(true, info)
    ensures !WithoutContent(info.response.code) && info.encoding == ChunkedEncoding ==>
              var p := FinishedWith(data, info);
              && p.Answer? && (p.done <==> exists k: nat :: At(data, "0\r\n\r\n", k))
              && (forall k: nat | info.headerLength <= k < U64 && FirstAt(data, "0\r\n\r\n", k) ::
                    p.info.length == k - info.headerLength)
  {
    hide At;
    if !WithoutContent(info.response.code) && info.encoding == ChunkedEncoding {
      forall k: nat | FirstAt(data, "0\r\n\r\n", k)
        ensures Find(data, "0\r\n\r\n") == Some(k)
      {
        FindIs(data, "0\r\n\r\n", 0, k);
      }
    }
  }

  /** A response with a complete header that announces its length; memory holds a 64-bit number. */
  predicate Announces(first: string, garbage: nat) {
    && garbage < U64 && DetectSpec(first, garbage).Ok?
    && var info := DetectSpec(first, garbage).value;
       !WithoutContent(info.response.code) && info.encoding == ContentLength
  }

  /** The number of bytes of header and body. */
  function Whole(first: string, info: Info): nat
    requires Parse(first).Ok?
  {
    Parse(first).value.1 + info.length
  }

  /** What `finished` compares the number of bytes with. */
  function Threshold(info: Info): nat {
    (info.headerLength + info.length) % U64
  }

  /** The header length fits 32 bits, and header and body fit 64. */
  predicate Fits(first: string, info: Info)
    requires Parse(first).Ok?
  {
    Parse(first).value.1 < U32 && Whole(first, info) < U64
  }

  /** More bytes do not change what `detect` finds in a complete header. */
  lemma DetectIsStable(first: string, more: string, garbage: nat)
    requires DetectSpec(first, garbage).Ok? && !WithoutContent(DetectSpec(first, garbage).value.response.code)
    ensures DetectSpec(first + more, garbage) == DetectSpec(first, garbage)
  {
    hide Scan, ParseFrom;
    StableFrom(first, more, 0, None);
    StopsAtFirstHeaderEnd(first);
    FindInPrefix(first, more, HEADER_END, 0, Find(first, HEADER_END).value);
    var r := Parse(first).value.0;
    ScanKeepsResponse(first, r.headers, |r.headers|, Info(r, garbage, garbage, UnknownEncoding));
    ScanDependsOnEnd(first, first + more, r.headers, |r.headers|, Info(r, garbage, garbage, UnknownEncoding));
  }

  lemma {:induction false} ScanDependsOnEnd(a: string, b: string, headers: seq<Pair>, n: nat, start: Info)
    requires n <= |headers| && HeaderLength(a).Some? && HeaderLength(a) == HeaderLength(b)
    ensures Scan(a, headers, n, start) == Scan(b, headers, n, start)
  {
    if n > 0 {
      ScanDependsOnEnd(a, b, headers, n - 1, start);
    }
  }

  /**
   With a Content-Length response whose header arrives in the first chunk, `finished` is true exactly when
   there are as many bytes as the threshold says, however the rest is cut into chunks and whether or not
   the info was cached. The threshold is the length of header and body exactly if both sums fit the
   machine's numbers, and otherwise it is lower.
   */
  lemma FinishedIffComplete(first: string, more: string, garbage: nat)
    requires Announces(first, garbage)
    ensures var info := DetectSpec(first, garbage).value;
            && Parse(first).Ok? && Parse(first).value.1 <= |first| && HeaderValue(first).Some?
            && (IsNumber(HeaderValue(first).value) ==> info.length == Number(HeaderValue(first).value))
            && FinishedSpec(first + more, None, garbage) == FinishedSpec(first + more, Some(info), garbage)
               == Answer(|first + more| >= Threshold(info), info)
            && (if Fits(first, info) then Threshold(info) == Whole(first, info)
                else Threshold(info) < Whole(first, info))
            && (Parse(first).value.1 < U32 <= U64 <= Whole(first, info) ==> Threshold(info) < |first|)
  {
    hide Scan, ParseFrom, FromChars;
    DetectIsStable(first, more, garbage);
    DetectedLength(first, garbage);
    FromCharsFits(HeaderValue(first).value, garbage);
    hide HeaderValue;
    StopsAtFirstHeaderEnd(first);
    var r := Parse(first).value.0;
    ScanKeepsResponse(first, r.headers, |r.headers|, Info(r, garbage, garbage, UnknownEncoding));
    AtBounds(first, HEADER_END, Find(first, HEADER_END).value);
    AfterIs(Find(first, HEADER_END).value);
    hide After;
    ThresholdIs(Parse(first).value.1, DetectSpec(first, garbage).value);
  }

  lemma FromCharsFits(value: string, before: nat)
    ensures before < U64 ==> FromChars(value, before) < U64
    ensures IsNumber(value) ==> FromChars(value, before) == Number(value)
  {
  }

  lemma AfterIs(end: nat)
    ensures After(end) == (end + 4) % U32
  {
  }

  lemma ThresholdIs(consumed: nat, info: Info)
    requires info.headerLength == consumed % U32 && info.length < U64
    ensures if consumed < U32 && consumed + info.length < U64 then Threshold(info) == consumed + info.length
            else Threshold(info) < consumed + info.length
    ensures consumed < U32 && consumed + info.length >= U64 ==> Threshold(info) < consumed
  {
  }

  /** `finished` answers rightly for the first chunk with these bytes behind it. */
  ghost predicate JudgedRight(first: string, more: string, garbage: nat)
    requires Announces(first, garbage) && Parse(first).Ok?
  {
    var info := DetectSpec(first, garbage).value;
    FinishedSpec(first + more, None, garbage) == Answer(|first + more| >= Whole(first, info), info)
  }

  /**
   `finished` is right about every way the response can go on if and only if the length of header and body
   fits the machine's numbers, or all of it came with the first chunk.
   */
  lemma FinishedRightIff(first: string, garbage: nat)
    requires Announces(first, garbage)
    ensures Parse(first).Ok?
    ensures var info := DetectSpec(first, garbage).value;
            (forall more :: JudgedRight(first, more, garbage)) <==> Fits(first, info) || |first| >= Whole(first, info)
  {
    hide DetectSpec, Parse, FinishedSpec, Threshold, Whole, Fits, HeaderValue;
    FinishedIffComplete(first, "", garbage);
    var info := DetectSpec(first, garbage).value;
    var whole, t := Whole(first, info), Threshold(info);
    if Fits(first, info) || |first| >= whole {
      forall more ensures JudgedRight(first, more, garbage) {
        FinishedIffComplete(first, more, garbage);
      }
    } else {
      var more := seq(whole - 1 - |first|, _ => ' ');
      FinishedIffComplete(first, more, garbage);
      assert !JudgedRight(first, more, garbage);
    }
  }

  /** If header and body do not fit 64 bits, the response is called complete as soon as its header is there. */
  lemma TruncatedIfTooLong(first: string, garbage: nat)
    requires Announces(first, garbage) && Parse(first).Ok? && Parse(first).value.1 < U32 && |first| < U64
    ensures var info := DetectSpec(first, garbage).value;
            Whole(first, info) >= U64 <==>
            && !Fits(first, info) && FinishedSpec(first, None, garbage) == Answer(true, info)
            && |first| < Whole(first, info)
  {
    hide DetectSpec, Parse, FinishedSpec, Threshold, HeaderValue;
    FinishedIffComplete(first, "", garbage);
    assert first + "" == first;
  }

  // ---------------------------------------------------------------- two headers that are misjudged

  const STATUS := "HTTP/1.1 200 OK"
  const KEY := "Content-Length"

  function Head(value: string): string {
    STATUS + CRLF + (KEY + ": " + value) + CRLF + CRLF
  }

  /** A line without carriage return ends at the line break behind it. */
  lemma LineEnds(before: string, line: string, rest: string)
    requires forall i | 0 <= i < |line| :: line[i] != '\r'
    ensures var d := before + line + CRLF + rest;
            && Find(d, CRLF, |before|) == Some(|before| + |line|) && |before| + |line| + 2 <= |d|
            && d[|before|..|before| + |line|] == line
  {
    hide Find;
    var d, k := before + line + CRLF + rest, |before| + |line|;
    assert d[k..k + 2] == CRLF;
    forall j: nat | |before| <= j < k ensures !At(d, CRLF, j) {
      assert d[j] == line[j - |before|];
      NotAt(d, j);
    }
    FindIs(d, CRLF, |before|, k);
  }

  lemma NotAt(d: string, j: nat)
    requires j < |d| && d[j] != '\r'
    ensures !At(d, CRLF, j)
  {
    assert j + 2 <= |d| ==> d[j..j + 2][0] == d[j];
  }

  lemma StatusLineIs()
    ensures FirstLine(STATUS) == Ok(Response([], Ok200, Http11))
  {
    assert STATUS[..8] == "HTTP/1.1" && STATUS[..8] != "HTTP/1.0" && STATUS[9..] == CODES[0].1;
    FirstLineIs(STATUS);
  }

  lemma LengthLineIs(value: string, s: Response)
    requires s.headers == []
    ensures HeaderLine(KEY + ": " + value, s) == Ok(s.(headers := [Pair(KEY, value)]))
  {
    forall j: nat ensures !At(KEY, ": ", j) {
      NoColon(j);
    }
    assert SplitsInto(KEY + ": " + value, KEY, value);
    HeaderLineIs(KEY + ": " + value, KEY, value, s);
  }

  lemma NoColon(j: nat)
    ensures !At(KEY, ": ", j)
  {
    if j + 2 <= |KEY| {
      assert KEY[j..j + 2][0] == KEY[j] != ':';
    }
  }

  lemma LineStep(d: string, at: nat, line: string, sofar: Option<Response>, r: Response)
    requires at <= |d| && Find(d, CRLF, at) == Some(at + |line|) && at + |line| + 2 <= |d|
    requires d[at..at + |line|] == line != ""
    requires (if sofar.Some? then HeaderLine(line, sofar.value) else FirstLine(line)) == Ok(r)
    ensures ParseFrom(d, at, sofar) == ParseFrom(d, at + |line| + 2, Some(r))
  {
    hide Find, At, FirstLine, HeaderLine;
  }

  lemma LastStep(d: string, at: nat, r: Response)
    requires at <= |d| && Find(d, CRLF, at) == Some(at)
    ensures ParseFrom(d, at, Some(r)) == Ok((r, at + 2))
  {
    hide Find, At, FirstLine, HeaderLine;
  }

  lemma HeadParses(value: string)
    requires forall i | 0 <= i < |value| :: value[i] != '\r'
    ensures Parse(Head(value)) == Ok((Response([Pair(KEY, value)], Ok200, Http11), |Head(value)|))
  {
    hide Find, At, FirstLine, HeaderLine, ParseFrom;
    var d, line := Head(value), KEY + ": " + value;
    var a, b := STATUS + CRLF, STATUS + CRLF + line + CRLF;
    var s := Response([], Ok200, Http11);
    var r := Response([Pair(KEY, value)], Ok200, Http11);
    assert d == [] + STATUS + CRLF + (line + CRLF + CRLF);
    LineEnds([], STATUS, line + CRLF + CRLF);
    assert d == a + line + CRLF + CRLF;
    LineEnds(a, line, CRLF);
    assert d == b + "" + CRLF + "";
    LineEnds(b, "", "");
    StatusLineIs();
    LengthLineIs(value, s);
    LineStep(d, 0, STATUS, None, s);
    LineStep(d, |a|, line, Some(s), r);
    LastStep(d, |b|, r);
  }

  lemma HeadDetected(value: string, garbage: nat)
    requires (forall i | 0 <= i < |value| :: value[i] != '\r') && garbage < U64
    ensures Announces(Head(value), garbage) && Parse(Head(value)).Ok? && Parse(Head(value)).value.1 == |Head(value)|
    ensures DetectSpec(Head(value), garbage).value.length == FromChars(value, garbage)
    ensures CheckSuccess(DetectSpec(Head(value), garbage).value.response.code)
  {
    hide ParseFrom, Find, FromChars;
    HeadParses(value);
    StopsAtFirstHeaderEnd(Head(value));
    hide Head;
    var hs := [Pair(KEY, value)];
    var start := Info(Response(hs, Ok200, Http11), garbage, garbage, UnknownEncoding);
    assert Scan(Head(value), hs, 0, start) == start;
    assert Scan(Head(value), hs, 1, start) ==
           start.(encoding := ContentLength, length := FromChars(value, garbage),
                  headerLength := HeaderLength(Head(value)).value);
  }

  /** With the value x, whether the response is complete depends on what was in memory before. */
  lemma MemoryDecides()
    ensures var p, q := FinishedSpec(Head("x"), None, 0), FinishedSpec(Head("x"), None, 1);
            p.Answer? && q.Answer? && p.done && !q.done
  {
    assert FromChars("x", 0) == 0 && FromChars("x", 1) == 1 by {
      assert !IsDigit("x"[0]);
    }
    assert |Head("x")| < 100;
    HeadDetected("x", 0);
    HeadDetected("x", 1);
    hide *;
    FinishedIffComplete(Head("x"), "", 0);
    FinishedIffComplete(Head("x"), "", 1);
    FitsIf(Head("x"), DetectSpec(Head("x"), 0).value);
    FitsIf(Head("x"), DetectSpec(Head("x"), 1).value);
    assert Head("x") + "" == Head("x");
  }

  lemma FitsIf(first: string, info: Info)
    requires Parse(first).Ok? && Parse(first).value.1 < 100 && info.length < 100
    ensures Fits(first, info) && Whole(first, info) == Parse(first).value.1 + info.length
  {
  }

  /** The largest 64-bit number. */
  const LARGEST := "18446744073709551615"

  lemma {:induction false} AllDigits(s: string)
    requires forall i | 0 <= i < |s| :: IsDigit(s[i])
    ensures Digits(s) == |s|
  {
    if s != "" {
      AllDigits(s[1..]);
    }
  }

  /** Two more digits at the end. */
  lemma TwoMore(s: string, c: char, d: char)
    requires (forall x | x in s :: IsDigit(x)) && IsDigit(c) && IsDigit(d)
    ensures forall x | x in s + [c, d] :: IsDigit(x)
    ensures Decimal(s + [c, d]) == Decimal(s) * 100 + (c as int - '0' as int) * 10 + (d as int - '0' as int)
  {
    assert (s + [c, d])[..|s| + 1] == s + [c] && (s + [c])[..|s|] == s;
  }

  lemma TenMore(s: string, t: string)
    requires |t| == 10 && (forall x | x in s :: IsDigit(x)) && (forall i | 0 <= i < 10 :: IsDigit(t[i]))
    ensures forall x | x in s + t :: IsDigit(x)
    ensures Decimal(s + t) == Decimal(s) * 10000000000 + Pair2(t, 0) * 100000000 + Pair2(t, 2) * 1000000
                              + Pair2(t, 4) * 10000 + Pair2(t, 6) * 100 + Pair2(t, 8)
  {
    hide Decimal, IsDigit;
    TwoMore(s, t[0], t[1]);
    TwoMore(s + t[..2], t[2], t[3]);
    TwoMore(s + t[..4], t[4], t[5]);
    TwoMore(s + t[..6], t[6], t[7]);
    TwoMore(s + t[..8], t[8], t[9]);
    assert s + t[..2] == s + [t[0], t[1]];
    assert s + t[..4] == s + t[..2] + [t[2], t[3]];
    assert s + t[..6] == s + t[..4] + [t[4], t[5]];
    assert s + t[..8] == s + t[..6] + [t[6], t[7]];
    assert s + t == s + t[..8] + [t[8], t[9]];
  }

  function Pair2(t: string, i: nat): int
    requires i + 2 <= |t|
  {
    (t[i] as int - '0' as int) * 10 + (t[i + 1] as int - '0' as int)
  }

  lemma FirstTen(s: string)
    requires forall x | x in s :: IsDigit(x)
    ensures forall x | x in s + "1844674407" :: IsDigit(x)
    ensures Decimal(s + "1844674407") == Decimal(s) * 10000000000 + 1844674407
  {
    hide Decimal;
    TenMore(s, "1844674407");
  }

  lemma LastTen(s: string)
    requires forall x | x in s :: IsDigit(x)
    ensures forall x | x in s + "3709551615" :: IsDigit(x)
    ensures Decimal(s + "3709551615") == Decimal(s) * 10000000000 + 3709551615
  {
    hide Decimal;
    TenMore(s, "3709551615");
  }

  lemma LargestIs()
    ensures forall x | x in LARGEST :: IsDigit(x)
    ensures Digits(LARGEST) == |LARGEST| == 20 && Decimal(LARGEST) == U64 - 1
  {
    hide Decimal, Digits, IsDigit;
    var a, b := "1844674407", "3709551615";
    NoDigits();
    FirstTen("");
    assert "" + a == a;
    LastTen(a);
    assert a + b == LARGEST;
    AllDigits(a + b);
  }

  lemma NoDigits()
    ensures Decimal("") == 0
  {
  }

  /** With the largest 64-bit number as length, the response is called complete when only its header is there. */
  lemma HeaderAloneIsEnough(garbage: nat)
    requires garbage < U64
    ensures var p := FinishedSpec(Head(LARGEST), None, garbage);
            p.Answer? && p.done && p.info.length == U64 - 1 && CheckSuccess(p.info.response.code)
  {
    hide *;
    LargestIs();
    AloneIsEnough(LARGEST, garbage);
  }

  lemma AloneIsEnough(value: string, garbage: nat)
    requires garbage < U64 && |value| == 20 && Digits(value) == 20 && Decimal(value) == U64 - 1
    ensures var p := FinishedSpec(Head(value), None, garbage);
            p.Answer? && p.done && p.info.length == U64 - 1 && CheckSuccess(p.info.response.code)
  {
    assert value[..20] == value;
    hide Decimal, DetectSpec, Parse, FinishedSpec, Announces;
    assert FromChars(value, garbage) == U64 - 1;
    assert |Head(value)| < 100;
    HeadDetected(value, garbage);
    TooLong(Head(value), garbage);
  }

  lemma TooLong(first: string, garbage: nat)
    requires Announces(first, garbage) && Parse(first).Ok? && 0 < Parse(first).value.1 < 100 && |first| < 100
    requires DetectSpec(first, garbage).value.length == U64 - 1
    ensures FinishedSpec(first, None, garbage) == Answer(true, DetectSpec(first, garbage).value)
  {
    hide DetectSpec, Parse, FinishedSpec, Threshold, HeaderValue;
    TruncatedIfTooLong(first, garbage);
  }
}
