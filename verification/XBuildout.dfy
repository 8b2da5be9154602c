/** The codec for names of buildout sections. */
module XBuildout {
  import opened Common
  import Text
  import opened Utf8

  const UNDERSCORE: Byte := 0x5F

  /** The bytes that buildout allows in a name, but for the underscore. */
  predicate IsAllowed(b: int) {
    0x61 <= b <= 0x7A || 0x41 <= b <= 0x5A || 0x30 <= b <= 0x39 || b == 0x2E || b == 0x2D
  }

  // --- encode ---

  /** A lower-case hexadecimal digit, as `%x` prints it. */
  function HexDigit(n: int): Byte
    requires 0 <= n < 16
  {
    if n < 10 then 0x30 + n else 0x61 + n - 10
  }

  function EscapeByte(c: Byte): seq<Byte> {
    if c == UNDERSCORE then [UNDERSCORE, UNDERSCORE]
    else if IsAllowed(c) then [c]
    else [UNDERSCORE, HexDigit(c / 16), HexDigit(c % 16)]
  }

  function Escape(s: seq<Byte>): seq<Byte> {
    if s == [] then [] else EscapeByte(s[0]) + Escape(s[1..])
  }

  predicate IsAscii(s: seq<Byte>) { forall i | 0 <= i < |s| :: s[i] < 0x80 }

  /** The text with these bytes. */
  function AsciiText(s: seq<Byte>): (r: string)
    requires IsAscii(s)
    ensures |r| == |s|
  {
    seq(|s|, i requires 0 <= i < |s| => s[i] as char)
  }

  lemma AsciiByteIs(b: Byte, tail: seq<Byte>)
    requires b < 0x80
    ensures EncodeChar(b as char) == [b]
    ensures DecodeFirst([b] + tail) == Some((b as char, 1))
  {
  }

  lemma AsciiTextCons(b: Byte, tail: seq<Byte>)
    requires b < 0x80 && IsAscii(tail)
    ensures IsAscii([b] + tail) && AsciiText([b] + tail) == [b as char] + AsciiText(tail)
  {
  }

  lemma {:induction false} AsciiTextIs(s: seq<Byte>)
    requires IsAscii(s)
    ensures Utf8.Decode(s) == Some(AsciiText(s)) && Utf8.Encode(AsciiText(s)) == s
  {
    if s == [] {
      assert AsciiText(s) == "";
    } else {
      var b, tail := s[0], s[1..];
      assert s == [b] + tail;
      AsciiTextIs(tail);
      AsciiTextCons(b, tail);
      AsciiByteIs(b, tail);
      Utf8.EncodeCons(b as char, AsciiText(tail));
      DecodeStep([b], tail, b as char, AsciiText(tail));
    }
  }

  lemma {:induction false} EscapeIsAscii(s: seq<Byte>)
    ensures forall i | 0 <= i < |Escape(s)| :: IsAllowed(Escape(s)[i]) || Escape(s)[i] == UNDERSCORE
  {
    if s != [] { EscapeIsAscii(s[1..]); }
  }

  /** `encode`, on any string. */
  function Encode(s: string): string {
    EscapeIsAscii(Utf8.Encode(s));
    AsciiText(Escape(Utf8.Encode(s)))
  }

  /** `encode` byte by byte; decoding what was emitted cannot fail. */
  method EncodeName(s: string) returns (out: string)
    ensures out == Encode(s)
  {
    var bytes := Utf8.Encode(s);
    var emitted := [];
    for i := 0 to |bytes|
      invariant emitted == Escape(bytes[..i])
    {
      var c := bytes[i];
      assert bytes[..i + 1] == bytes[..i] + [c];
      EscapeConcat(bytes[..i], [c]);
      EscapeOne(c);
      if c == UNDERSCORE {
        emitted := emitted + [UNDERSCORE, UNDERSCORE];
      } else if IsAllowed(c) {
        emitted := emitted + [c];
      } else {
        emitted := emitted + [UNDERSCORE, HexDigit(c / 16), HexDigit(c % 16)];
      }
    }
    assert bytes[..|bytes|] == bytes;
    EscapeIsAscii(bytes);
    AsciiTextIs(emitted);
    out := Utf8.Decode(emitted).value;
  }

  lemma EscapeOne(c: Byte)
    ensures Escape([c]) == EscapeByte(c)
  {
    assert [c][1..] == [] && EscapeByte(c) + [] == EscapeByte(c);
  }

  lemma {:induction false} EscapeConcat(a: seq<Byte>, b: seq<Byte>)
    ensures Escape(a + b) == Escape(a) + Escape(b)
  {
    if a == [] {
      assert a + b == b;
    } else {
      assert (a + b)[1..] == a[1..] + b;
      EscapeConcat(a[1..], b);
    }
  }

  // --- decode ---

  /** The value of a hexadecimal digit of either case, or -1. */
  function HexValue(b: int): int {
    if 0x30 <= b <= 0x39 then b - 0x30
    else if 0x61 <= b <= 0x66 then b - 0x61 + 10
    else if 0x41 <= b <= 0x46 then b - 0x41 + 10
    else -1
  }

  predicate IsBlankByte(b: int) { b == 0x20 || 9 <= b <= 13 }

  /** `bytes([int(x, 16)])` for two bytes: besides two digits, `int` takes one digit with a
      blank on either side, or with a sign before it. */
  function ParseHex(a: Byte, b: Byte): Option<Byte> {
    var x, y := HexValue(a), HexValue(b);
    if x >= 0 && y >= 0 then Some(16 * x + y)
    else if y >= 0 && (IsBlankByte(a) || a == 0x2B) then Some(y)
    else if y == 0 && a == 0x2D then Some(0)
    else if x >= 0 && IsBlankByte(b) then Some(x)
    else None
  }

  /** The loop of `_decode`. */
  function Unescape(s: seq<Byte>): Option<seq<Byte>>
    decreases |s|
  {
    if s == [] then Some([])
    else if s[0] != UNDERSCORE then Emit(s[0], Unescape(s[1..]))
    else if |s| < 2 then None
    else if s[1] == UNDERSCORE then Emit(UNDERSCORE, Unescape(s[2..]))
    else if |s| < 3 then None
    else match ParseHex(s[1], s[2])
      case None => None
      case Some(c) => Emit(c, Unescape(s[3..]))
  }

  function Emit(c: Byte, rest: Option<seq<Byte>>): Option<seq<Byte>> {
    match rest
    case None => None
    case Some(s) => Some([c] + s)
  }

  /** `decode`; None is a ValueError. */
  function Decode(s: string): Option<string> {
    match Unescape(Utf8.Encode(s))
    case None => None
    case Some(bytes) => Utf8.Decode(bytes)
  }

  /** `_decode`, which consumes its input piece by piece. */
  method DecodeName(text: string) returns (r: Option<string>)
    ensures r == Decode(text)
  {
    var s := Utf8.Encode(text);
    var emitted := [];
    ghost var all := Unescape(s);
    assert all.Some? ==> [] + all.value == all.value;
    while |s| > 0
      invariant all == Prepend(emitted, Unescape(s))
      decreases |s|
    {
      var c := s[0];
      s := s[1..];
      if c != UNDERSCORE {
        PrependEmit(emitted, c, Unescape(s));
        emitted := emitted + [c];
      } else if |s| < 1 {
        return None;
      } else if s[0] == UNDERSCORE {
        s := s[1..];
        PrependEmit(emitted, UNDERSCORE, Unescape(s));
        emitted := emitted + [UNDERSCORE];
      } else if |s| < 2 {
        return None;
      } else {
        var x := ParseHex(s[0], s[1]);
        if x.None? {
          return None;
        }
        s := s[2..];
        PrependEmit(emitted, x.value, Unescape(s));
        emitted := emitted + [x.value];
      }
    }
    assert emitted + [] == emitted;
    r := Utf8.Decode(emitted);
  }

  function Prepend(front: seq<Byte>, rest: Option<seq<Byte>>): Option<seq<Byte>> {
    match rest
    case None => None
    case Some(s) => Some(front + s)
  }

  lemma PrependEmit(front: seq<Byte>, c: Byte, rest: Option<seq<Byte>>)
    ensures Prepend(front, Emit(c, rest)) == Prepend(front + [c], rest)
  {
    if rest.Some? { assert front + ([c] + rest.value) == front + [c] + rest.value; }
  }

  // --- What the codec promises ---

  lemma HexRoundTrip(c: Byte)
    ensures ParseHex(HexDigit(c / 16), HexDigit(c % 16)) == Some(c)
    ensures HexDigit(c / 16) != UNDERSCORE
  {
    assert c == 16 * (c / 16) + c % 16;
  }

  lemma UnescapeStep(c: Byte, rest: seq<Byte>)
    ensures Unescape(EscapeByte(c) + rest) == Emit(c, Unescape(rest))
  {
    var s := EscapeByte(c) + rest;
    if c == UNDERSCORE {
      assert s[2..] == rest;
    } else if IsAllowed(c) {
      assert s[1..] == rest;
    } else {
      HexRoundTrip(c);
      assert s[3..] == rest;
    }
  }

  lemma {:induction false} UnescapeEscape(s: seq<Byte>)
    ensures Unescape(Escape(s)) == Some(s)
  {
    if s != [] {
      UnescapeStep(s[0], Escape(s[1..]));
      UnescapeEscape(s[1..]);
      assert s == [s[0]] + s[1..];
    }
  }

  /** Every string is decoded from its encoding. */
  lemma DecodeEncode(s: string)
    ensures Decode(Encode(s)) == Some(s)
  {
    var bytes := Utf8.Encode(s);
    EscapeIsAscii(bytes);
    AsciiTextIs(Escape(bytes));
    UnescapeEscape(bytes);
    Utf8.DecodeEncode(s);
  }

  lemma EncodeInjective(s: string, t: string)
    requires Encode(s) == Encode(t)
    ensures s == t
  {
    DecodeEncode(s);
    DecodeEncode(t);
  }

  /** Encoded names hold only what buildout allows and the underscore. */
  lemma EncodeAlphabet(s: string)
    ensures forall i | 0 <= i < |Encode(s)| :: IsNameChar(Encode(s)[i]) || Encode(s)[i] == '_'
  {
    var bytes := Escape(Utf8.Encode(s));
    EscapeIsAscii(Utf8.Encode(s));
    forall i | 0 <= i < |Encode(s)| ensures IsNameChar(Encode(s)[i]) || Encode(s)[i] == '_' {
      AllowedExactly(bytes[i]);
      assert UNDERSCORE as char == '_';
    }
  }

  lemma EncodeConcat(s: string, t: string)
    ensures Encode(s + t) == Encode(s) + Encode(t)
  {
    Utf8.EncodeConcat(s, t);
    EscapeConcat(Utf8.Encode(s), Utf8.Encode(t));
    EscapeIsAscii(Utf8.Encode(s));
    EscapeIsAscii(Utf8.Encode(t));
    EscapeIsAscii(Utf8.Encode(s + t));
  }

  predicate IsLowerHex(b: int) { 0x30 <= b <= 0x39 || 0x61 <= b <= 0x66 }

  /** Allowed bytes, double underscores, and an underscore with two lower-case digits of a byte
      that is neither allowed nor an underscore. */
  predicate IsCanonical(s: seq<Byte>)
    decreases |s|
  {
    if s == [] then true
    else if s[0] != UNDERSCORE then IsAllowed(s[0]) && IsCanonical(s[1..])
    else if |s| < 2 then false
    else if s[1] == UNDERSCORE then IsCanonical(s[2..])
    else
      |s| >= 3 && IsLowerHex(s[1]) && IsLowerHex(s[2])
      && (var c := 16 * HexValue(s[1]) + HexValue(s[2]); !IsAllowed(c) && c != UNDERSCORE)
      && IsCanonical(s[3..])
  }

  /** The escape of what two characters after an underscore stand for is those characters
      exactly when they are lower-case digits of a byte that must be escaped. */
  lemma HexExactly(a: Byte, b: Byte, c: Byte)
    requires a != UNDERSCORE && ParseHex(a, b) == Some(c)
    ensures EscapeByte(c) == [UNDERSCORE, a, b]
       <==> IsLowerHex(a) && IsLowerHex(b)
            && (var d := 16 * HexValue(a) + HexValue(b); !IsAllowed(d) && d != UNDERSCORE)
  {
    if IsLowerHex(a) && IsLowerHex(b) {
      assert c / 16 == HexValue(a) && c % 16 == HexValue(b);
      assert HexDigit(c / 16) == a && HexDigit(c % 16) == b;
    } else {
      assert IsLowerHex(HexDigit(c / 16)) && IsLowerHex(HexDigit(c % 16));
    }
  }

  lemma SplitEqual(head: seq<Byte>, tail: seq<Byte>, s: seq<Byte>, k: nat)
    requires k <= |s|
    requires |head| == k || head[..Smaller(|head|, k)] != s[..Smaller(|head|, k)]
    ensures head + tail == s <==> head == s[..k] && tail == s[k..]
  {
    if head + tail == s {
      var n := Smaller(|head|, k);
      assert head[..n] == (head + tail)[..n];
      assert (head + tail)[|head|..] == tail;
    }
    assert s == s[..k] + s[k..];
  }

  function Smaller(a: nat, b: nat): nat { if a < b then a else b }

  lemma {:induction false} EscapeUnescape(s: seq<Byte>)
    requires Unescape(s).Some?
    ensures Escape(Unescape(s).value) == s <==> IsCanonical(s)
    decreases |s|
  {
    if s != [] {
      var k := if s[0] != UNDERSCORE then 1 else if s[1] == UNDERSCORE then 2 else 3;
      var rest := s[k..];
      var u, c := Unescape(rest).value, Unescape(s).value[0];
      EscapeUnescape(rest);
      assert Unescape(s) == Some([c] + u);
      assert ([c] + u)[1..] == u;
      var head := EscapeByte(c);
      if k == 3 { HexExactly(s[1], s[2], c); }
      assert s[..k] == if k == 1 then [s[0]] else if k == 2 then [s[0], s[1]] else [s[0], s[1], s[2]];
      if |head| != k {
        var n := Smaller(|head|, k);
        assert head[..n] != s[..n] by {
          if k == 1 { assert head[0] != s[0]; }
          else if |head| == 1 { assert head[0] != s[0]; }
          else { assert head[1] != s[1]; }
        }
      }
      SplitEqual(head, Escape(u), s, k);
    }
  }

  /** Among the strings that decode, exactly the canonical ones are encodings. */
  lemma EncodeDecodeExactly(e: string)
    requires Decode(e).Some?
    ensures Encode(Decode(e).value) == e <==> IsCanonical(Utf8.Encode(e))
  {
    var bytes := Utf8.Encode(e);
    var u := Unescape(bytes).value;
    var s := Decode(e).value;
    EscapeUnescape(bytes);
    Utf8.EncodeDecode(u);
    assert Utf8.Encode(s) == u;
    EscapeIsAscii(u);
    AsciiTextIs(Escape(u));
    Utf8.DecodeEncode(e);
    Utf8.DecodeEncode(Encode(s));
  }

  // --- The tables ---

  /** The characters that buildout allows in a name, but for the underscore. */
  predicate IsNameChar(c: char) { c in Text.LOWER || c in Text.UPPER || c in "0123456789.-" }

  const HEX := "0123456789abcdef"
  const UPPER_HEX := "0123456789ABCDEF"

  lemma AllowedExactly(b: Byte)
    ensures IsAllowed(b) <==> IsNameChar(b as char)
  {
    var others := "0123456789.-";
    Text.LetterExactly(b as char);
    assert 'a' as int == 0x61 && 'z' as int == 0x7A && 'A' as int == 0x41 && 'Z' as int == 0x5A;
    if 0x30 <= b <= 0x39 { assert others[b - 0x30] as int == b; }
    assert others[10] as int == 0x2E && others[11] as int == 0x2D;
    if b as char in others {
      var i :| 0 <= i < |others| && others[i] == b as char;
      assert i < 10 ==> others[i] as int == 0x30 + i;
    }
  }

  /** The text for one byte. */
  function ByteText(b: Byte): string {
    if b == 0x5F then "__"
    else if IsNameChar(b as char) then [b as char]
    else "_" + [HEX[b / 16], HEX[b % 16]]
  }

  function BytesText(s: seq<Byte>): string { if s == [] then "" else ByteText(s[0]) + BytesText(s[1..]) }

  lemma HexDigitIs(n: int)
    requires 0 <= n < 16
    ensures HexDigit(n) as char == HEX[n] && HexDigit(n) < 0x80
  {
    assert HEX[n] as int == if n < 10 then 0x30 + n else 0x61 + n - 10;
  }

  lemma EscapeByteText(b: Byte)
    ensures IsAscii(EscapeByte(b)) && AsciiText(EscapeByte(b)) == ByteText(b)
  {
    AllowedExactly(b);
    HexDigitIs(b / 16);
    HexDigitIs(b % 16);
    assert 0x5F as char == '_';
  }

  lemma AsciiConcat(a: seq<Byte>, b: seq<Byte>)
    requires IsAscii(a) && IsAscii(b)
    ensures IsAscii(a + b) && AsciiText(a + b) == AsciiText(a) + AsciiText(b)
  {
  }

  lemma {:induction false} EscapeText(s: seq<Byte>)
    ensures IsAscii(Escape(s)) && AsciiText(Escape(s)) == BytesText(s)
  {
    if s != [] {
      EscapeText(s[1..]);
      EscapeByteText(s[0]);
      AsciiConcat(EscapeByte(s[0]), Escape(s[1..]));
    }
  }

  /** The encoded text is, for each octet of the string, the character if it is allowed, two
      underscores for an underscore, and otherwise an underscore and two lower-case digits. */
  lemma EncodeText(s: string)
    ensures Encode(s) == BytesText(Utf8.Encode(s))
  {
    EscapeText(Utf8.Encode(s));
  }

  /** The byte is a hexadecimal digit, in lower or upper case, of this value. */
  predicate IsHexOf(b: Byte, v: nat) { v < 16 && (b as char == HEX[v] || b as char == UPPER_HEX[v]) }

  lemma HexValueExactly(b: Byte, v: nat)
    ensures IsHexOf(b, v) <==> HexValue(b) == v
  {
    if v < 16 {
      assert HEX[v] as int == if v < 10 then 0x30 + v else 0x61 + v - 10;
      assert UPPER_HEX[v] as int == if v < 10 then 0x30 + v else 0x41 + v - 10;
    }
  }

  /** Two digits, or one with white space on either side or a sign before it, give their value;
      nothing else is read, and a negative value is rejected. */
  lemma ParseHexExactly(a: Byte, b: Byte, c: Byte)
    ensures ParseHex(a, b) == Some(c) <==>
      || (IsHexOf(a, c / 16) && IsHexOf(b, c % 16))
      || (c < 16 && IsHexOf(b, c) && (a as char in " \t\n\r" || a in [0x0B, 0x0C] || a as char == '+'))
      || (c == 0 && IsHexOf(b, 0) && a as char == '-')
      || (c < 16 && IsHexOf(a, c) && (b as char in " \t\n\r" || b in [0x0B, 0x0C]))
  {
    HexValueExactly(a, c / 16);
    HexValueExactly(b, c % 16);
    HexValueExactly(b, c);
    HexValueExactly(a, c);
    HexValueExactly(b, 0);
    BlankExactly(a);
    BlankExactly(b);
    assert '+' as int == 0x2B && '-' as int == 0x2D;
  }

  lemma BlankExactly(b: Byte)
    ensures IsBlankByte(b) <==> b as char in " \t\n\r" || b in [0x0B, 0x0C]
  {
    var blanks := " \t\n\r";
    assert blanks[0] as int == 0x20 && blanks[1] as int == 9 && blanks[2] as int == 10 && blanks[3] as int == 13;
    if b as char in blanks {
      var i :| 0 <= i < |blanks| && blanks[i] == b as char;
    }
    if b == 0x20 { assert blanks[0] == b as char; }
    if b == 9 { assert blanks[1] == b as char; }
    if b == 10 { assert blanks[2] == b as char; }
    if b == 13 { assert blanks[3] == b as char; }
  }
}
