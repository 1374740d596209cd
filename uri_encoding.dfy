/**
 * `encodeURIComponent` and its inverse `decodeURIComponent`, as ECMAScript
 * defines them, over strings of Unicode scalar values: characters of the
 * unreserved set stay as they are, every other character becomes the
 * `%XY` escapes (upper-case hexadecimal) of its UTF-8 bytes.
 */
module UriEncoding {
  import opened Wrappers

  newtype byte = x: int | 0 <= x < 256

  /** The characters `encodeURIComponent` leaves alone. */
  predicate IsUnreserved(c: char)
  {
    ('A' <= c <= 'Z') || ('a' <= c <= 'z') || ('0' <= c <= '9') ||
    c == '-' || c == '_' || c == '.' || c == '!' || c == '~' || c == '*' ||
    c == '\'' || c == '(' || c == ')'
  }

  predicate AllUnreserved(s: string)
  {
    forall i :: 0 <= i < |s| ==> IsUnreserved(s[i])
  }

  // ---------------------------------------------------------------------
  // UTF-8

  /** The UTF-8 bytes of one scalar value: one to four of them, by range. */
  function Utf8(c: char): (bs: seq<byte>)
    ensures 1 <= |bs| <= 4
    ensures |bs| == 1 <==> c as int < 0x80
  {
    var n := c as int;
    if n < 0x80 then
      [n as byte]
    else if n < 0x800 then
      [(0xC0 + n / 0x40) as byte, (0x80 + n % 0x40) as byte]
    else if n < 0x10000 then
      [(0xE0 + n / 0x1000) as byte, (0x80 + n / 0x40 % 0x40) as byte, (0x80 + n % 0x40) as byte]
    else
      [(0xF0 + n / 0x40000) as byte, (0x80 + n / 0x1000 % 0x40) as byte,
       (0x80 + n / 0x40 % 0x40) as byte, (0x80 + n % 0x40) as byte]
  }

  /**
   * How many bytes a sequence starting with `lead` has; 0 for a byte that
   * cannot start one (a continuation byte `10xxxxxx`, or five or more
   * leading one bits).
   */
  function SequenceLength(lead: byte): (n: nat)
    ensures n <= 4
  {
    if lead < 0x80 then 1
    else if lead < 0xC0 then 0
    else if lead < 0xE0 then 2
    else if lead < 0xF0 then 3
    else if lead < 0xF8 then 4
    else 0
  }

  predicate IsContinuation(b: byte)
  {
    0x80 <= b < 0xC0
  }

  /**
   * The scalar value a complete byte sequence encodes, or None when the
   * bytes are not UTF-8: a wrong length for the lead byte, a bad
   * continuation byte, an overlong form, a surrogate, or a value past
   * U+10FFFF.
   */
  function DecodeUtf8(bs: seq<byte>): Option<char>
  {
    if |bs| == 0 || SequenceLength(bs[0]) != |bs| then None
    else if |bs| == 1 then Some(bs[0] as char)
    else if exists i :: 1 <= i < |bs| && !IsContinuation(bs[i]) then None
    else
      var cp :=
        if |bs| == 2 then (bs[0] as int - 0xC0) * 0x40 + (bs[1] as int - 0x80)
        else if |bs| == 3 then
          (bs[0] as int - 0xE0) * 0x1000 + (bs[1] as int - 0x80) * 0x40 + (bs[2] as int - 0x80)
        else
          (bs[0] as int - 0xF0) * 0x40000 + (bs[1] as int - 0x80) * 0x1000
          + (bs[2] as int - 0x80) * 0x40 + (bs[3] as int - 0x80);
      var smallest := if |bs| == 2 then 0x80 else if |bs| == 3 then 0x800 else 0x10000;
      if cp < smallest || cp > 0x10FFFF || (0xD800 <= cp < 0xE000) then None
      else Some(cp as char)
  }

  /** Decoding the UTF-8 bytes of a character gives the character back. */
  lemma Utf8RoundTrip(c: char)
    ensures SequenceLength(Utf8(c)[0]) == |Utf8(c)|
    ensures forall i :: 1 <= i < |Utf8(c)| ==> IsContinuation(Utf8(c)[i])
    ensures DecodeUtf8(Utf8(c)) == Some(c)
  {
    var n := c as int;
    if n < 0x80 {
    } else if n < 0x800 {
      Utf8TwoBytes(c);
    } else if n < 0x10000 {
      Utf8ThreeBytes(c);
    } else {
      Utf8FourBytes(c);
    }
  }

  lemma Utf8TwoBytes(c: char)
    requires 0x80 <= c as int < 0x800
    ensures SequenceLength(Utf8(c)[0]) == 2
    ensures forall i :: 1 <= i < 2 ==> IsContinuation(Utf8(c)[i])
    ensures DecodeUtf8(Utf8(c)) == Some(c)
  {
    var n := c as int;
    var hi, lo := n / 0x40, n % 0x40;
    assert n == hi * 0x40 + lo;
    var bs := Utf8(c);
    assert bs == [(0xC0 + hi) as byte, (0x80 + lo) as byte];
    assert (bs[0] as int - 0xC0) * 0x40 + (bs[1] as int - 0x80) == n;
  }

  lemma Utf8ThreeBytes(c: char)
    requires 0x800 <= c as int < 0x10000
    ensures SequenceLength(Utf8(c)[0]) == 3
    ensures forall i :: 1 <= i < 3 ==> IsContinuation(Utf8(c)[i])
    ensures DecodeUtf8(Utf8(c)) == Some(c)
  {
    var n := c as int;
    var q := n / 0x40;
    var hi, mid, lo := n / 0x1000, q % 0x40, n % 0x40;
    assert n == q * 0x40 + lo;
    assert hi == q / 0x40;
    assert q == hi * 0x40 + mid;
    assert n == hi * 0x1000 + mid * 0x40 + lo;
    var bs := Utf8(c);
    assert bs == [(0xE0 + hi) as byte, (0x80 + mid) as byte, (0x80 + lo) as byte];
    assert (bs[0] as int - 0xE0) * 0x1000 + (bs[1] as int - 0x80) * 0x40 + (bs[2] as int - 0x80) == n;
  }

  lemma Utf8FourBytes(c: char)
    requires 0x10000 <= c as int
    ensures SequenceLength(Utf8(c)[0]) == 4
    ensures forall i :: 1 <= i < 4 ==> IsContinuation(Utf8(c)[i])
    ensures DecodeUtf8(Utf8(c)) == Some(c)
  {
    var n := c as int;
    var q := n / 0x40;
    var p := q / 0x40;
    var top, hi, mid, lo := n / 0x40000, p % 0x40, q % 0x40, n % 0x40;
    assert n == q * 0x40 + lo;
    assert q == p * 0x40 + mid;
    assert p == n / 0x1000;
    assert top == p / 0x40;
    assert p == top * 0x40 + hi;
    assert n == top * 0x40000 + hi * 0x1000 + mid * 0x40 + lo;
    var bs := Utf8(c);
    assert bs == [(0xF0 + top) as byte, (0x80 + hi) as byte, (0x80 + mid) as byte, (0x80 + lo) as byte];
    assert (bs[0] as int - 0xF0) * 0x40000 + (bs[1] as int - 0x80) * 0x1000
      + (bs[2] as int - 0x80) * 0x40 + (bs[3] as int - 0x80) == n;
  }

  // ---------------------------------------------------------------------
  // Percent escapes

  predicate IsHexDigit(c: char)
  {
    ('0' <= c <= '9') || ('A' <= c <= 'F') || ('a' <= c <= 'f')
  }

  /** The upper-case hexadecimal digit for `d`. */
  function HexDigit(d: nat): (c: char)
    requires d < 16
    ensures IsHexDigit(c) && IsUnreserved(c)
    ensures d < 10 ==> '0' <= c <= '9'
    ensures d >= 10 ==> 'A' <= c <= 'F'
  {
    if d < 10 then ('0' as int + d) as char else ('A' as int + d - 10) as char
  }

  /** The value of a hexadecimal digit, either case. */
  function HexValue(c: char): (d: nat)
    requires IsHexDigit(c)
    ensures d < 16
  {
    if '0' <= c <= '9' then c as int - '0' as int
    else if 'A' <= c <= 'F' then c as int - 'A' as int + 10
    else c as int - 'a' as int + 10
  }

  lemma HexRoundTrip(d: nat)
    requires d < 16
    ensures HexValue(HexDigit(d)) == d
  {
  }

  /** `%XY` for one byte. */
  function Escape(b: byte): (r: string)
    ensures |r| == 3 && r[0] == '%' && IsUnreserved(r[1]) && IsUnreserved(r[2])
  {
    ['%', HexDigit(b as int / 16), HexDigit(b as int % 16)]
  }

  function EscapeAll(bs: seq<byte>): (r: string)
    ensures |r| == 3 * |bs|
    ensures r != [] ==> r[0] == '%'
  {
    if bs == [] then [] else Escape(bs[0]) + EscapeAll(bs[1..])
  }

  /** Only the percent sign and hexadecimal digits; the latter are unreserved. */
  lemma {:induction false} EscapeAllAlphabet(bs: seq<byte>)
    ensures forall i :: 0 <= i < |EscapeAll(bs)| ==> IsUnreserved(EscapeAll(bs)[i]) || EscapeAll(bs)[i] == '%'
  {
    if bs != [] {
      EscapeAllAlphabet(bs[1..]);
      var e, rest := Escape(bs[0]), EscapeAll(bs[1..]);
      forall i | 0 <= i < |e + rest| ensures IsUnreserved((e + rest)[i]) || (e + rest)[i] == '%' {
        if i >= 3 { assert (e + rest)[i] == rest[i - 3]; }
      }
    }
  }

  /** The byte written by the escape starting at `s[i]`, if there is one there. */
  function EscapeAt(s: string, i: nat): Option<byte>
  {
    if i + 3 <= |s| && s[i] == '%' && IsHexDigit(s[i + 1]) && IsHexDigit(s[i + 2]) then
      Some((HexValue(s[i + 1]) * 16 + HexValue(s[i + 2])) as byte)
    else
      None
  }

  /** The `n` bytes written by `n` consecutive escapes at the front of `s`. */
  function EscapesAt(s: string, n: nat): (r: Option<seq<byte>>)
    ensures r.Some? ==> |r.value| == n && 3 * n <= |s|
    decreases n
  {
    if n == 0 then Some([])
    else match EscapeAt(s, 0)
      case None => None
      case Some(b) =>
        match EscapesAt(s[3..], n - 1)
        case None => None
        case Some(rest) => Some([b] + rest)
  }

  lemma {:induction false} EscapesRoundTrip(bs: seq<byte>, rest: string)
    ensures EscapesAt(EscapeAll(bs) + rest, |bs|) == Some(bs)
    ensures (EscapeAll(bs) + rest)[3 * |bs|..] == rest
  {
    var s := EscapeAll(bs) + rest;
    if bs != [] {
      var b := bs[0];
      HexRoundTrip(b as int / 16);
      HexRoundTrip(b as int % 16);
      assert EscapeAt(s, 0) == Some(b);
      assert s[3..] == EscapeAll(bs[1..]) + rest;
      EscapesRoundTrip(bs[1..], rest);
      assert [b] + bs[1..] == bs;
    }
  }

  // ---------------------------------------------------------------------
  // The two functions

  function EncodeChar(c: char): (r: string)
    ensures |r| >= 1
    ensures IsUnreserved(c) ==> r == [c]
    ensures !IsUnreserved(c) ==> |r| >= 3 && r[0] == '%'
  {
    if IsUnreserved(c) then [c] else EscapeAll(Utf8(c))
  }

  /** `encodeURIComponent`: never shorter than the input. */
  function Encode(s: string): (r: string)
    ensures |r| >= |s|
  {
    if s == [] then [] else EncodeChar(s[0]) + Encode(s[1..])
  }

  /** What `encodeURIComponent` produces is made only of unreserved characters and `%`. */
  lemma {:induction false} EncodeAlphabet(s: string)
    ensures forall i :: 0 <= i < |Encode(s)| ==> IsUnreserved(Encode(s)[i]) || Encode(s)[i] == '%'
  {
    if s != [] {
      EncodeAlphabet(s[1..]);
      var e, rest := EncodeChar(s[0]), Encode(s[1..]);
      if !IsUnreserved(s[0]) {
        EscapeAllAlphabet(Utf8(s[0]));
      }
      forall i | 0 <= i < |e + rest| ensures IsUnreserved((e + rest)[i]) || (e + rest)[i] == '%' {
        if i >= |e| { assert (e + rest)[i] == rest[i - |e|]; }
      }
    }
  }

  /**
   * `decodeURIComponent`: each escape run is read as one UTF-8 sequence;
   * None where `decodeURIComponent` throws a URIError.
   */
  function Decode(s: string): (r: Option<string>)
    ensures r.Some? ==> |r.value| <= |s|
    decreases |s|
  {
    if s == [] then Some([])
    else if s[0] != '%' then
      match Decode(s[1..])
      case None => None
      case Some(rest) => Some([s[0]] + rest)
    else match EscapeAt(s, 0)
      case None => None
      case Some(lead) =>
        var n := SequenceLength(lead);
        if n == 0 then None
        else match EscapesAt(s, n)
          case None => None
          case Some(bs) =>
            match DecodeUtf8(bs)
            case None => None
            case Some(c) =>
              match Decode(s[3 * n..])
              case None => None
              case Some(rest) => Some([c] + rest)
  }

  /** Encoding distributes over concatenation. */
  lemma {:induction false} EncodeConcat(a: string, b: string)
    ensures Encode(a + b) == Encode(a) + Encode(b)
  {
    if a != [] {
      assert (a + b)[0] == a[0];
      assert (a + b)[1..] == a[1..] + b;
      EncodeConcat(a[1..], b);
      assert Encode(a + b) == EncodeChar(a[0]) + Encode(a[1..] + b);
    } else {
      assert a + b == b;
    }
  }

  /** Encoding leaves a string unchanged exactly when all of it is unreserved. */
  lemma {:induction false} EncodeIdentity(s: string)
    ensures Encode(s) == s <==> AllUnreserved(s)
  {
    if s != [] {
      EncodeIdentity(s[1..]);
      if IsUnreserved(s[0]) {
        assert s == [s[0]] + s[1..];
        assert AllUnreserved(s) <==> AllUnreserved(s[1..]) by {
          if AllUnreserved(s[1..]) {
            forall i | 0 <= i < |s| ensures IsUnreserved(s[i]) {
              if i > 0 { assert s[i] == s[1..][i - 1]; }
            }
          }
        }
      } else {
        assert |Encode(s)| >= 3 + |s[1..]| > |s|;
      }
    }
  }

  lemma DecodeCharFront(c: char, rest: string)
    ensures Decode(EncodeChar(c) + rest) ==
      match Decode(rest) case None => None case Some(t) => Some([c] + t)
  {
    var s := EncodeChar(c) + rest;
    if IsUnreserved(c) {
      assert s[0] == c && c != '%';
      assert s[1..] == rest;
    } else {
      var bs := Utf8(c);
      Utf8RoundTrip(c);
      EscapesRoundTrip(bs, rest);
      EscapesRoundTrip(bs[..1], EscapeAll(bs[1..]) + rest);
      assert bs == bs[..1] + bs[1..];
      EscapeAllConcat(bs[..1], bs[1..]);
      assert EscapeAt(s, 0) == Some(bs[0]);
    }
  }

  lemma {:induction false} EscapeAllConcat(a: seq<byte>, b: seq<byte>)
    ensures EscapeAll(a + b) == EscapeAll(a) + EscapeAll(b)
  {
    if a != [] {
      assert (a + b)[1..] == a[1..] + b;
      EscapeAllConcat(a[1..], b);
    } else {
      assert a + b == b;
    }
  }

  /** Decoding undoes encoding: nothing of the input is lost. */
  lemma {:induction false} DecodeEncode(s: string)
    ensures Decode(Encode(s)) == Some(s)
  {
    if s != [] {
      DecodeEncode(s[1..]);
      DecodeCharFront(s[0], Encode(s[1..]));
      assert [s[0]] + s[1..] == s;
    }
  }

  /** Different strings encode differently. */
  lemma EncodeInjective(a: string, b: string)
    requires Encode(a) == Encode(b)
    ensures a == b
  {
    DecodeEncode(a);
    DecodeEncode(b);
  }

  /** A space is escaped as one byte, in upper-case hexadecimal. */
  lemma EncodeSpace()
    ensures Encode(" ") == "%20"
  {
    var space: seq<byte> := [0x20];
    EncodeSingle(' ');
    assert Utf8(' ') == space;
    assert EscapeAll(space) == Escape(0x20) + [];
  }

  /** A Latin letter with an accent is escaped as its two UTF-8 bytes. */
  lemma EncodeAccent()
    ensures Encode("\U{00E9}") == "%C3%A9"
  {
    var b1, b2: seq<byte> := [0xC3], [0xA9];
    EncodeSingle('\U{00E9}');
    assert Utf8('\U{00E9}') == b1 + b2;
    EscapeAllConcat(b1, b2);
    EscapeOne(0xC3);
    EscapeOne(0xA9);
    assert Escape(0xC3) == "%C3" && Escape(0xA9) == "%A9";
  }

  /** An emoji outside the Basic Multilingual Plane is escaped as its four UTF-8 bytes. */
  lemma EncodeEmoji()
    ensures Encode("\U{1F600}") == "%F0%9F%98%80"
  {
    var b1, b2, b3, b4: seq<byte> := [0xF0], [0x9F], [0x98], [0x80];
    EncodeSingle('\U{1F600}');
    EmojiBytes();
    EscapeAllConcat(b1 + b2, b3 + b4);
    EscapeTwo(0xF0, 0x9F);
    EscapeTwo(0x98, 0x80);
    assert Escape(0xF0) + Escape(0x9F) == "%F0%9F";
    assert Escape(0x98) + Escape(0x80) == "%98%80";
  }

  lemma EmojiBytes()
    ensures Utf8('\U{1F600}') == [0xF0, 0x9F] + [0x98, 0x80]
  {
  }

  /** Escaping two bytes gives their two escapes in order. */
  lemma EscapeTwo(a: byte, b: byte)
    ensures EscapeAll([a, b]) == Escape(a) + Escape(b)
  {
    EscapeAllConcat([a], [b]);
    assert [a] + [b] == [a, b];
    EscapeOne(a);
    EscapeOne(b);
  }

  /** Escaping a single byte gives exactly that byte's escape. */
  lemma EscapeOne(b: byte)
    ensures EscapeAll([b]) == Escape(b)
  {
    assert [b][1..] == [];
  }

  /** A one-character string encodes as its character does. */
  lemma EncodeSingle(c: char)
    ensures Encode([c]) == EncodeChar(c)
  {
    assert [c][1..] == [];
  }
}
