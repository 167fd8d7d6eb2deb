/** UTF-8 as section 3 of RFC 3629 defines it, with the strict decoder Python uses: overlong
    forms, surrogates, bad continuation bytes and truncated sequences are refused. */
module Utf8 {
  import opened Text

  type Byte = b: int | 0 <= b < 256

  function EncodeChar(c: char): (bytes: seq<Byte>)
    ensures 1 <= |bytes| <= 4
  {
    var n := c as int;
    if n < 0x80 then [n]
    else if n < 0x800 then [0xC0 + n / 0x40, 0x80 + n % 0x40]
    else if n < 0x1_0000 then [0xE0 + n / 0x1000, 0x80 + n / 0x40 % 0x40, 0x80 + n % 0x40]
    else [0xF0 + n / 0x4_0000, 0x80 + n / 0x1000 % 0x40, 0x80 + n / 0x40 % 0x40, 0x80 + n % 0x40]
  }

  function Encode(s: string): seq<Byte>
  {
    if s == "" then [] else EncodeChar(s[0]) + Encode(s[1..])
  }

  /** The length of the sequence a lead byte announces. */
  function SequenceLength(lead: Byte): nat
  {
    if lead < 0x80 then 1 else if lead < 0xE0 then 2 else if lead < 0xF0 then 3 else 4
  }

  function AsInt(b: Byte): int { b }

  /** The number the payload bits of a sequence of that length spell. */
  function SequenceValue(b: seq<Byte>): int
    requires |b| > 0 && |b| >= SequenceLength(b[0])
  {
    match SequenceLength(b[0])
    case 1 => AsInt(b[0])
    case 2 => (AsInt(b[0]) - 0xC0) * 0x40 + (AsInt(b[1]) - 0x80)
    case 3 => (AsInt(b[0]) - 0xE0) * 0x1000 + (AsInt(b[1]) - 0x80) * 0x40 + (AsInt(b[2]) - 0x80)
    case _ => (AsInt(b[0]) - 0xF0) * 0x4_0000 + (AsInt(b[1]) - 0x80) * 0x1000 + (AsInt(b[2]) - 0x80) * 0x40 + (AsInt(b[3]) - 0x80)
  }

  predicate IsScalar(n: int) { 0 <= n < 0xD800 || 0xE000 <= n < 0x11_0000 }

  /** The first character of a byte string, `None` where strict decoding raises. */
  function DecodeFirst(b: seq<Byte>): (r: Option<char>)
    requires b != []
    ensures r.Some? ==> |EncodeChar(r.value)| <= |b| && b[..|EncodeChar(r.value)|] == EncodeChar(r.value)
  {
    var len := SequenceLength(b[0]);
    if |b| < len || !IsScalar(SequenceValue(b)) then None
    else
      var c := SequenceValue(b) as char;
      if EncodeChar(c) == b[..len] then Some(c) else None
  }

  /** `bytes.decode("utf-8")`. */
  function Decode(b: seq<Byte>): Option<string>
  {
    if b == [] then Some("")
    else match DecodeFirst(b)
      case None => None
      case Some(c) =>
        match Decode(b[|EncodeChar(c)|..])
        case None => None
        case Some(rest) => Some([c] + rest)
  }

  /** The lead byte of an encoded character announces its length, and the payload bits spell it. */
  lemma SequenceOfEncoded(c: char)
    ensures SequenceLength(EncodeChar(c)[0]) == |EncodeChar(c)|
    ensures SequenceValue(EncodeChar(c)) == c as int
  {
    var n := c as int;
    if n >= 0x1_0000 {
      SixBitGroups(n);
    } else if n >= 0x800 {
      SixBitGroups(n);
    }
  }

  lemma SixBitGroups(n: nat)
    ensures n == n / 0x40 * 0x40 + n % 0x40
    ensures n / 0x40 == n / 0x1000 * 0x40 + n / 0x40 % 0x40
    ensures n / 0x1000 == n / 0x4_0000 * 0x40 + n / 0x1000 % 0x40
  {
  }

  lemma DecodeFirstOfEncoded(c: char, rest: seq<Byte>)
    ensures DecodeFirst(EncodeChar(c) + rest) == Some(c)
  {
    var e := EncodeChar(c);
    var b := e + rest;
    SequenceOfEncoded(c);
    assert b[..|e|] == e;
  }

  /** Decoding undoes encoding. */
  lemma {:induction false} DecodeEncode(s: string)
    ensures Decode(Encode(s)) == Some(s)
  {
    if s != "" {
      var e := EncodeChar(s[0]);
      DecodeFirstOfEncoded(s[0], Encode(s[1..]));
      assert Encode(s)[|e|..] == Encode(s[1..]);
      DecodeEncode(s[1..]);
      assert [s[0]] + s[1..] == s;
    }
  }

  lemma {:induction false} EncodeConcat(a: string, b: string)
    ensures Encode(a + b) == Encode(a) + Encode(b)
  {
    if a == "" {
      assert a + b == b;
    } else {
      assert (a + b)[1..] == a[1..] + b;
      EncodeConcat(a[1..], b);
    }
  }

  /** The examples of section 7 of RFC 3629, and one of its section 3 with four bytes. */
  lemma EncodedExamples()
    ensures EncodeChar('A') == [0x41] && EncodeChar('\U{2262}') == [0xE2, 0x89, 0xA2] && EncodeChar('\U{391}') == [0xCE, 0x91]
    ensures EncodeChar('\U{10FFFF}') == [0xF4, 0x8F, 0xBF, 0xBF]
  {
  }
}
