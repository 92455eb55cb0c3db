/**
 `hexEncode` and `encodeUrlParameters` (`src/utils/utils.cpp`), the percent-encoding of sections 2.1
 and 2.3 of RFC 3986. A byte is a `char` below 256.
 */
module UrlEncoding {
  predicate Bytes(s: string) {
    forall c | c in s :: c < 256 as char
  }

  predicate IsAlnum(c: char) {
    '0' <= c <= '9' || 'a' <= c <= 'z' || 'A' <= c <= 'Z'
  }

  /** The characters that stand for themselves. */
  predicate Unreserved(c: char) {
    IsAlnum(c) || c == '-' || c == '_' || c == '.' || c == '~'
  }

  predicate AllUnreserved(s: string) {
    forall c | c in s :: Unreserved(c)
  }

  const LOWER := "0123456789abcdef"
  const UPPER := "0123456789ABCDEF"

  function Digit(n: int, upper: bool): char {
    if upper then UPPER[n % 16] else LOWER[n % 16]
  }

  /** Two digits a byte, the high one first. */
  function Hex(s: string, upper: bool): string {
    if s == "" then ""
    else Hex(s[..|s| - 1], upper) + [Digit(s[|s| - 1] as int / 16, upper), Digit(s[|s| - 1] as int, upper)]
  }

  method HexEncode(input: string, upper: bool) returns (output: string)
    requires Bytes(input)
    ensures output == Hex(input, upper)
  {
    output := "";
    for i := 0 to |input|
      invariant output == Hex(input[..i], upper)
    {
      assert input[..i + 1][..i] == input[..i];
      output := output + [Digit(input[i] as int / 16, upper)];
      output := output + [Digit(input[i] as int, upper)];
    }
    assert input[..|input|] == input;
  }

  function EncodeChar(c: char): string {
    if Unreserved(c) then [c] else "%" + Hex([c], true)
  }

  function Encode(s: string): string {
    if s == "" then "" else Encode(s[..|s| - 1]) + EncodeChar(s[|s| - 1])
  }

  method EncodeUrlParameters(encode: string) returns (result: string)
    requires Bytes(encode)
    ensures result == Encode(encode)
  {
    result := "";
    for i := 0 to |encode|
      invariant result == Encode(encode[..i])
    {
      var c := encode[i];
      assert c in encode && encode[..i + 1][..i] == encode[..i];
      if IsAlnum(c) || c == '-' || c == '_' || c == '.' || c == '~' {
        result := result + [c];
      } else {
        result := result + "%";
        var hex := HexEncode([c], true);
        result := result + hex;
      }
    }
    assert encode[..|encode|] == encode;
  }

  /** The reference decoder: reads from the front, without looking at how the encoder works. */
  function Decode(s: string): string
    decreases |s|
  {
    if s == "" then ""
    else if s[0] == '%' && |s| >= 3 then
      [((Value(s[1]) * 16 + Value(s[2])) % 256) as char] + Decode(s[3..])
    else [s[0]] + Decode(s[1..])
  }

  function Value(c: char): (v: nat)
    ensures v < 16
  {
    if '0' <= c <= '9' then c as int - '0' as int
    else if 'A' <= c <= 'F' then c as int - 'A' as int + 10
    else if 'a' <= c <= 'f' then c as int - 'a' as int + 10
    else 0
  }

  lemma ValueOfDigit(n: int)
    ensures Value(Digit(n, true)) == n % 16
    ensures IsAlnum(Digit(n, true))
  {
    var k := n % 16;
    if k < 10 {
      assert UPPER[..10] == "0123456789" && UPPER[k] == "0123456789"[k];
    } else {
      assert UPPER[10..] == "ABCDEF" && UPPER[k] == "ABCDEF"[k - 10];
    }
  }

  /** The 66 bytes that stay as they are. */
  const PLAIN := ["abcdefghijklm", "nopqrstuvwxyz", "ABCDEFGHIJKLM", "NOPQRSTUVWXYZ", "0123456789-_.~"]

  predicate IsPlain(c: char) {
    exists i :: 0 <= i < |PLAIN| && c in PLAIN[i]
  }

  lemma StaysIff(c: char)
    ensures EncodeChar(c) == [c] <==> IsPlain(c)
  {
    EncodeCharIs(c);
    if Unreserved(c) {
      PlainOf(c);
    } else {
      PlainAre();
    }
    hide EncodeChar;
    assert !Unreserved(c) ==> |EncodeChar(c)| != |[c]|;
  }

  lemma PlainOf(c: char)
    requires Unreserved(c)
    ensures IsPlain(c)
  {
    if 'a' <= c <= 'm' {
      assert PLAIN[0][c as int - 'a' as int] == c;
    } else if 'n' <= c <= 'z' {
      assert PLAIN[1][c as int - 'n' as int] == c;
    } else if 'A' <= c <= 'M' {
      assert PLAIN[2][c as int - 'A' as int] == c;
    } else if 'N' <= c <= 'Z' {
      assert PLAIN[3][c as int - 'N' as int] == c;
    } else if '0' <= c <= '9' {
      assert PLAIN[4][c as int - '0' as int] == c;
    } else {
      assert PLAIN[4][10] == '-' && PLAIN[4][11] == '_' && PLAIN[4][12] == '.' && PLAIN[4][13] == '~';
    }
  }

  lemma PlainAre()
    ensures forall c | IsPlain(c) :: Unreserved(c)
  {
    assert forall k | 0 <= k < 13 :: Unreserved(PLAIN[0][k]);
    assert forall k | 0 <= k < 13 :: Unreserved(PLAIN[1][k]);
    assert forall k | 0 <= k < 13 :: Unreserved(PLAIN[2][k]);
    assert forall k | 0 <= k < 13 :: Unreserved(PLAIN[3][k]);
    assert forall k | 0 <= k < 14 :: Unreserved(PLAIN[4][k]);
  }

  /** The reference decoder of hexadecimal text, for either case. */
  function Unhex(s: string): string
    decreases |s|
  {
    if |s| < 2 then "" else [((Value(s[0]) * 16 + Value(s[1])) % 256) as char] + Unhex(s[2..])
  }

  predicate HexDigit(c: char, upper: bool) {
    '0' <= c <= '9' || if upper then 'A' <= c <= 'F' else 'a' <= c <= 'f'
  }

  lemma DigitIs(n: int, upper: bool)
    ensures Value(Digit(n, upper)) == n % 16 && HexDigit(Digit(n, upper), upper)
  {
    var k := n % 16;
    if upper {
      if k < 10 {
        assert UPPER[..10] == "0123456789" && UPPER[k] == "0123456789"[k];
      } else {
        assert UPPER[10..] == "ABCDEF" && UPPER[k] == "ABCDEF"[k - 10];
      }
    } else {
      if k < 10 {
        assert LOWER[..10] == "0123456789" && LOWER[k] == "0123456789"[k];
      } else {
        assert LOWER[10..] == "abcdef" && LOWER[k] == "abcdef"[k - 10];
      }
    }
  }

  lemma {:induction false} UnhexLast(s: string, c: char, d: char)
    requires |s| % 2 == 0
    ensures Unhex(s + [c, d]) == Unhex(s) + [((Value(c) * 16 + Value(d)) % 256) as char]
    decreases |s|
  {
    hide Value;
    if s != "" {
      UnhexLast(s[2..], c, d);
      assert (s + [c, d])[2..] == s[2..] + [c, d];
    } else {
      assert ("" + [c, d])[2..] == "";
    }
  }

  /** Hexadecimal text has digits of the one case asked for, two a byte, and reads back as the bytes. */
  lemma {:induction false} UnhexHex(s: string, upper: bool)
    requires Bytes(s)
    ensures |Hex(s, upper)| == 2 * |s| && Unhex(Hex(s, upper)) == s
    ensures forall i | 0 <= i < 2 * |s| :: HexDigit(Hex(s, upper)[i], upper)
  {
    hide Digit, Value, HexDigit, Unhex;
    if s == "" {
      UnhexNothing();
    } else {
      var init, last := s[..|s| - 1], s[|s| - 1];
      assert last in s && Bytes(init) by {
        assert forall c | c in init :: c in s;
      }
      UnhexHex(init, upper);
      var high, low := Digit(last as int / 16, upper), Digit(last as int, upper);
      DigitIs(last as int / 16, upper);
      DigitIs(last as int, upper);
      Nibbles(last as int);
      UnhexLast(Hex(init, upper), high, low);
      assert Hex(s, upper) == Hex(init, upper) + [high, low];
      hide Hex, Bytes;
      assert s == init + [last];
    }
  }

  lemma UnhexNothing()
    ensures Unhex("") == ""
  {
  }

  lemma HexOne(c: char, upper: bool)
    ensures Hex([c], upper) == [Digit(c as int / 16, upper), Digit(c as int, upper)]
  {
    hide Digit;
    assert [c][..0] == "" && Hex("", upper) == "";
  }

  lemma Nibbles(n: nat)
    requires n < 256
    ensures n / 16 % 16 * 16 + n % 16 == n
  {
  }

  /** What the encoder makes of a byte is three characters that decode to it, or the byte itself. */
  lemma EncodeCharIs(c: char)
    ensures Unreserved(c) ==> EncodeChar(c) == [c] && c != '%'
    ensures !Unreserved(c) ==>
              && |EncodeChar(c)| == 3 && EncodeChar(c)[0] == '%' && IsAlnum(EncodeChar(c)[1])
                 && IsAlnum(EncodeChar(c)[2])
              && EncodeChar(c) == ['%', EncodeChar(c)[1], EncodeChar(c)[2]]
    ensures !Unreserved(c) && c < 256 as char ==> Value(EncodeChar(c)[1]) * 16 + Value(EncodeChar(c)[2]) == c as int
  {
    if !Unreserved(c) {
      hide Digit, Value, Hex, Unreserved, IsAlnum;
      HexOne(c, true);
      ValueOfDigit(c as int / 16);
      ValueOfDigit(c as int);
      if c < 256 as char {
        Nibbles(c as int);
      }
    }
  }

  lemma EncodeLast(init: string, last: char)
    ensures Encode(init + [last]) == Encode(init) + EncodeChar(last)
  {
    assert (init + [last])[..|init|] == init;
  }

  /** Encoding works from either end. */
  lemma {:induction false} EncodeFront(first: char, rest: string)
    ensures Encode([first] + rest) == EncodeChar(first) + Encode(rest)
  {
    hide EncodeChar;
    if rest == "" {
      EncodeLast("", first);
      assert "" + [first] == [first] + rest && Encode("") == "";
    } else {
      var init, last := rest[..|rest| - 1], rest[|rest| - 1];
      EncodeFront(first, init);
      EncodeLast([first] + init, last);
      assert ([first] + init) + [last] == [first] + rest;
    }
  }

  lemma DecodeOne(c: char, rest: string)
    requires c < 256 as char
    ensures Decode(EncodeChar(c) + rest) == [c] + Decode(rest)
  {
    hide EncodeChar, Unreserved, Value, IsAlnum;
    EncodeCharIs(c);
    var e := EncodeChar(c);
    if Unreserved(c) {
      assert ([c] + rest)[1..] == rest;
    } else {
      var s := ['%', e[1], e[2]] + rest;
      assert s[0] == '%' && s[1] == e[1] && s[2] == e[2] && s[3..] == rest;
      assert Decode(s) == [((Value(s[1]) * 16 + Value(s[2])) % 256) as char] + Decode(s[3..]);
    }
  }

  /** Decoding undoes encoding, so the encoding is injective. */
  lemma {:induction false} DecodeEncode(s: string)
    requires Bytes(s)
    ensures Decode(Encode(s)) == s
  {
    if s != "" {
      hide EncodeChar, Unreserved;
      var first, rest := s[0], s[1..];
      assert s == [first] + rest && first in s;
      assert Bytes(rest) by {
        assert forall c | c in rest :: c in s;
      }
      EncodeFront(first, rest);
      EncodeCharIs(first);
      DecodeEncode(rest);
      DecodeOne(first, Encode(rest));
    } else {
      assert Encode(s) == "";
    }
  }

  lemma EncodeInjective(a: string, b: string)
    requires Bytes(a) && Bytes(b) && Encode(a) == Encode(b)
    ensures a == b
  {
    DecodeEncode(a);
    DecodeEncode(b);
  }

  /** Only unreserved characters and percent signs come out, so no separator of a URL does. */
  lemma {:induction false} EncodedAlphabet(s: string)
    ensures forall c | c in Encode(s) :: Unreserved(c) || c == '%'
  {
    if s != "" {
      EncodedAlphabet(s[..|s| - 1]);
      EncodeCharIs(s[|s| - 1]);
    }
  }

  /** The encoding never shrinks, and leaves exactly the strings of unreserved characters alone. */
  lemma {:induction false} EncodeLength(s: string)
    ensures |Encode(s)| >= |s|
    ensures |Encode(s)| == |s| <==> AllUnreserved(s)
    ensures AllUnreserved(s) ==> Encode(s) == s
  {
    if s == "" {
      assert Encode(s) == "";
    } else {
      hide *;
      var init, last := s[..|s| - 1], s[|s| - 1];
      assert s == init + [last];
      EncodeLength(init);
      EncodeCharIs(last);
      EncodeLast(init, last);
      UnreservedLast(init, last);
    }
  }

  lemma UnreservedLast(init: string, last: char)
    ensures AllUnreserved(init + [last]) <==> AllUnreserved(init) && Unreserved(last)
  {
    hide Unreserved;
    assert forall c :: c in init + [last] <==> c in init || c == last;
  }

  /** Encoding twice is encoding once exactly for the strings of unreserved characters. */
  lemma EncodeTwice(s: string)
    ensures |Encode(Encode(s))| >= |Encode(s)|
    ensures |Encode(Encode(s))| == |Encode(s)| <==> AllUnreserved(s)
  {
    EncodeLength(s);
    EncodeLength(Encode(s));
    if AllUnreserved(Encode(s)) && !AllUnreserved(s) {
      EncodedHasPercent(s);
    }
  }

  lemma {:induction false} EncodedHasPercent(s: string)
    requires !AllUnreserved(s)
    ensures '%' in Encode(s)
  {
    var init, last := s[..|s| - 1], s[|s| - 1];
    EncodeCharIs(last);
    if Unreserved(last) {
      assert s == init + [last];
      EncodedHasPercent(init);
    } else {
      assert EncodeChar(last)[0] in EncodeChar(last);
    }
  }
}
