/** UTF-8 as section 3 of RFC 3629 defines it: strict in both directions. */
module Utf8 {
  import opened Common

  type Byte = b: int | 0 <= b < 256

  function EncodeChar(c: char): (bytes: seq<Byte>)
    ensures 1 <= |bytes| <= 4
  {
    var n := c as int;
    if n < 0x80 then [n]
    else if n < 0x800 then [0xC0 + n / 64, 0x80 + n % 64]
    else if n < 0x10000 then [0xE0 + n / 4096, 0x80 + n / 64 % 64, 0x80 + n % 64]
    else [0xF0 + n / 262144, 0x80 + n / 4096 % 64, 0x80 + n / 64 % 64, 0x80 + n % 64]
  }

  function Encode(s: string): seq<Byte> {
    if s == "" then [] else EncodeChar(s[0]) + Encode(s[1..])
  }

  predicate IsTail(b: Byte) { 0x80 <= b <= 0xBF }

  predicate IsSurrogate(n: int) { 0xD800 <= n <= 0xDFFF }

  // The numbers that two, three and four bytes stand for.

  function Two(a: int, b: int): int { (a - 0xC0) * 64 + (b - 0x80) }

  function Three(a: int, b: int, c: int): int { (a - 0xE0) * 4096 + (b - 0x80) * 64 + (c - 0x80) }

  function Four(a: int, b: int, c: int, d: int): int {
    (a - 0xF0) * 262144 + (b - 0x80) * 4096 + (c - 0x80) * 64 + (d - 0x80)
  }

  predicate IsThree(n: int) { 0x800 <= n < 0x10000 && !IsSurrogate(n) }

  predicate IsFour(n: int) { 0x10000 <= n <= 0x10FFFF }

  /** The first character of a byte sequence and its length, if it is well formed. */
  function DecodeFirst(bytes: seq<Byte>): (r: Option<(char, nat)>)
    requires bytes != []
    ensures r.Some? ==> 1 <= r.value.1 <= |bytes|
  {
    var b: int := bytes[0];
    if b < 0x80 then Some((b as char, 1))
    else if 0xC2 <= b <= 0xDF && |bytes| >= 2 && IsTail(bytes[1]) then Some((Two(b, bytes[1]) as char, 2))
    else if 0xE0 <= b <= 0xEF && |bytes| >= 3 && IsTail(bytes[1]) && IsTail(bytes[2])
            && IsThree(Three(b, bytes[1], bytes[2])) then
      Some((Three(b, bytes[1], bytes[2]) as char, 3))
    else if 0xF0 <= b <= 0xF4 && |bytes| >= 4 && IsTail(bytes[1]) && IsTail(bytes[2]) && IsTail(bytes[3])
            && IsFour(Four(b, bytes[1], bytes[2], bytes[3])) then
      Some((Four(b, bytes[1], bytes[2], bytes[3]) as char, 4))
    else None
  }

  function Decode(bytes: seq<Byte>): Option<string>
    decreases |bytes|
  {
    if bytes == [] then Some("")
    else match DecodeFirst(bytes)
      case None => None
      case Some((c, n)) =>
        match Decode(bytes[n..])
        case None => None
        case Some(rest) => Some([c] + rest)
  }

  lemma DecodeOfChar(c: char, rest: seq<Byte>)
    ensures DecodeFirst(EncodeChar(c) + rest) == Some((c, |EncodeChar(c)|))
  {
    var n := c as int;
    var bytes := EncodeChar(c) + rest;
    if n < 0x80 {
    } else if n < 0x800 {
      assert Two(bytes[0], bytes[1]) == n;
    } else if n < 0x10000 {
      assert n == n / 4096 * 4096 + n / 64 % 64 * 64 + n % 64;
      assert Three(bytes[0], bytes[1], bytes[2]) == n;
    } else {
      FourDigits(n);
      assert Four(bytes[0], bytes[1], bytes[2], bytes[3]) == n;
    }
  }

  lemma FourDigits(n: nat)
    ensures n == n / 262144 * 262144 + n / 4096 % 64 * 4096 + n / 64 % 64 * 64 + n % 64
  {
    assert n == n / 64 * 64 + n % 64;
    assert n / 64 == n / 64 / 64 * 64 + n / 64 % 64 && n / 64 / 64 == n / 4096;
    assert n / 4096 == n / 4096 / 64 * 64 + n / 4096 % 64 && n / 4096 / 64 == n / 262144;
  }

  lemma DecodeStep(head: seq<Byte>, tail: seq<Byte>, c: char, s: string)
    requires head != [] && DecodeFirst(head + tail) == Some((c, |head|)) && Decode(tail) == Some(s)
    ensures Decode(head + tail) == Some([c] + s)
  {
    assert (head + tail)[|head|..] == tail;
  }

  /** Decoding undoes encoding, for every string. */
  lemma {:induction false} DecodeEncode(s: string)
    ensures Decode(Encode(s)) == Some(s)
  {
    if s != "" {
      var head, tail := EncodeChar(s[0]), Encode(s[1..]);
      DecodeOfChar(s[0], tail);
      DecodeEncode(s[1..]);
      DecodeStep(head, tail, s[0], s[1..]);
      assert s == [s[0]] + s[1..];
    }
  }

  lemma EncodeOfFirst(bytes: seq<Byte>)
    requires bytes != [] && DecodeFirst(bytes).Some?
    ensures var (c, n) := DecodeFirst(bytes).value; EncodeChar(c) == bytes[..n]
  {
    var (c, n) := DecodeFirst(bytes).value;
    if n == 2 {
      TwoBytes(bytes[0], bytes[1]);
    } else if n == 3 {
      ThreeBytes(bytes[0], bytes[1], bytes[2]);
    } else if n == 4 {
      FourBytes(bytes[0], bytes[1], bytes[2], bytes[3]);
    }
  }

  lemma TwoBytes(a: int, b: int)
    requires 0xC2 <= a && 0x80 <= b <= 0xBF
    ensures Two(a, b) / 64 == a - 0xC0 && Two(a, b) % 64 == b - 0x80
  {
  }

  lemma ThreeBytes(a: int, b: int, c: int)
    requires 0xE0 <= a && 0x80 <= b <= 0xBF && 0x80 <= c <= 0xBF
    ensures var n := Three(a, b, c);
            n / 4096 == a - 0xE0 && n / 64 % 64 == b - 0x80 && n % 64 == c - 0x80
  {
    var high := (a - 0xE0) * 64 + (b - 0x80);
    assert Three(a, b, c) == high * 64 + (c - 0x80);
    assert Three(a, b, c) / 64 == high;
    assert high / 64 == a - 0xE0 && high % 64 == b - 0x80;
  }

  lemma FourBytes(a: int, b: int, c: int, d: int)
    requires 0xF0 <= a && 0x80 <= b <= 0xBF && 0x80 <= c <= 0xBF && 0x80 <= d <= 0xBF
    ensures var n := Four(a, b, c, d);
            n / 262144 == a - 0xF0 && n / 4096 % 64 == b - 0x80 && n / 64 % 64 == c - 0x80 && n % 64 == d - 0x80
  {
    var high := Three(a - 0x10, b, c);
    ThreeBytes(a - 0x10, b, c);
    assert Four(a, b, c, d) == high * 64 + (d - 0x80);
    assert Four(a, b, c, d) / 64 == high;
    assert Four(a, b, c, d) / 4096 == high / 64 && Four(a, b, c, d) / 262144 == high / 4096;
  }

  lemma EncodeCons(c: char, tail: string)
    ensures Encode([c] + tail) == EncodeChar(c) + Encode(tail)
  {
    assert ([c] + tail)[1..] == tail;
  }

  lemma DecodeUnfolds(bytes: seq<Byte>)
    requires bytes != [] && Decode(bytes).Some?
    ensures DecodeFirst(bytes).Some? && Decode(bytes[DecodeFirst(bytes).value.1..]).Some?
    ensures Decode(bytes).value == [DecodeFirst(bytes).value.0] + Decode(bytes[DecodeFirst(bytes).value.1..]).value
  {
  }

  /** Only the encoding of a string decodes to it. */
  lemma {:induction false} EncodeDecode(bytes: seq<Byte>)
    requires Decode(bytes).Some?
    ensures Encode(Decode(bytes).value) == bytes
    decreases |bytes|
  {
    if bytes != [] {
      DecodeUnfolds(bytes);
      var (c, n) := DecodeFirst(bytes).value;
      EncodeOfFirst(bytes);
      EncodeDecode(bytes[n..]);
      EncodeCons(c, Decode(bytes[n..]).value);
    }
  }

  lemma {:induction false} EncodeConcat(a: string, b: string)
    ensures Encode(a + b) == Encode(a) + Encode(b)
  {
    if a == "" {
      assert a + b == b;
    } else {
      assert (a + b)[1..] == a[1..] + b;
      EncodeConcat(a[1..], b);
    }
  }

  // --- The table of section 3 ---

  /** The number of octets for a character number. */
  predicate HasLength(n: int, length: nat) {
    match length
    case 1 => 0 <= n <= 0x7F
    case 2 => 0x80 <= n <= 0x7FF
    case 3 => 0x800 <= n <= 0xFFFF
    case 4 => 0x10000 <= n <= 0x10FFFF
    case _ => false
  }

  /** The bits of the first octet before those of the character: 0, 110, 1110 or 11110. */
  function Mark(length: nat): int {
    match length case 1 => 0 case 2 => 0xC0 case 3 => 0xE0 case _ => 0xF0
  }

  /** The character number in these octets: what follows the mark, and six bits of each other one. */
  function Bits(bytes: seq<Byte>): int
    requires bytes != []
  {
    var last: int := bytes[|bytes| - 1];
    if |bytes| == 1 then last else 64 * Bits(bytes[..|bytes| - 1]) + (last - 0x80)
  }

  function Scale(length: nat): int { match length case 1 => 1 case 2 => 64 case 3 => 4096 case _ => 262144 }

  /** Octets are those of a character exactly when their number is the one for it, the first one
      has the mark, the others start with 10, and their bits are its number. */
  lemma EncodeCharExactly(c: char, bytes: seq<Byte>)
    ensures bytes == EncodeChar(c) <==>
      && bytes != [] && HasLength(c as int, |bytes|)
      && (forall i | 1 <= i < |bytes| :: IsTail(bytes[i]))
      && Bits(bytes) == Mark(|bytes|) * Scale(|bytes|) + c as int
  {
    var e := EncodeChar(c);
    EncodeCharIs(c);
    if bytes != [] && HasLength(c as int, |bytes|) && (forall i | 1 <= i < |bytes| :: IsTail(bytes[i]))
       && Bits(bytes) == Mark(|bytes|) * Scale(|bytes|) + c as int
    {
      assert |bytes| == |e|;
      SameBits(bytes, e);
    }
  }

  lemma EncodeCharIs(c: char)
    ensures var e := EncodeChar(c);
      && HasLength(c as int, |e|) && (forall i | 1 <= i < |e| :: IsTail(e[i]))
      && Bits(e) == Mark(|e|) * Scale(|e|) + c as int
  {
    var n, e := c as int, EncodeChar(c);
    if |e| == 2 {
      BitsOfMore([e[0]], e[1]);
    } else if |e| == 3 {
      BitsOfMore([e[0]], e[1]);
      BitsOfMore([e[0], e[1]], e[2]);
      assert [e[0]] + [e[1]] == [e[0], e[1]] && [e[0], e[1]] + [e[2]] == e;
      ThreeDigits(n);
    } else if |e| == 4 {
      BitsOfMore([e[0]], e[1]);
      BitsOfMore([e[0], e[1]], e[2]);
      BitsOfMore([e[0], e[1], e[2]], e[3]);
      assert [e[0]] + [e[1]] == [e[0], e[1]] && [e[0], e[1]] + [e[2]] == [e[0], e[1], e[2]];
      assert [e[0], e[1], e[2]] + [e[3]] == e;
      FourDigits(n);
    }
  }

  lemma BitsOfMore(front: seq<Byte>, last: Byte)
    requires front != []
    ensures Bits(front + [last]) == 64 * Bits(front) + ((last as int) - 0x80)
  {
    assert (front + [last])[..|front|] == front;
  }

  lemma ThreeDigits(n: nat)
    ensures n == n / 4096 * 4096 + n / 64 % 64 * 64 + n % 64
  {
    assert n / 64 / 64 == n / 4096;
    assert n / 64 == n / 64 / 64 * 64 + n / 64 % 64;
  }

  /** Octets with the same bits are the same. */
  lemma {:induction false} SameBits(a: seq<Byte>, b: seq<Byte>)
    requires |a| == |b| > 0 && Bits(a) == Bits(b)
    requires (forall i | 1 <= i < |a| :: IsTail(a[i])) && forall i | 1 <= i < |b| :: IsTail(b[i])
    ensures a == b
  {
    var last := |a| - 1;
    if last > 0 {
      assert IsTail(a[last]) && IsTail(b[last]);
      SameBits(a[..last], b[..last]);
      assert a == a[..last] + [a[last]] && b == b[..last] + [b[last]];
    }
  }
}
