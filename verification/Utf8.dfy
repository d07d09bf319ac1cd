/** UTF-8 as section 3 of RFC 3629 defines it and Python's strict decoder accepts it. */
module Utf8 {
  import opened Sequences
  import opened Wrappers

  type Byte = b: int | 0 <= b < 256
  type Bytes = seq<Byte>

  function EncodeChar(c: char): (b: Bytes)
    ensures 1 <= |b| <= 4
  {
    var n := c as int;
    if n < 0x80 then [n]
    else if n < 0x800 then [0xC0 + n / 64, 0x80 + n % 64]
    else if n < 0x1_0000 then [0xE0 + n / 64 / 64, 0x80 + n / 64 % 64, 0x80 + n % 64]
    else [0xF0 + n / 64 / 64 / 64, 0x80 + n / 64 / 64 % 64, 0x80 + n / 64 % 64, 0x80 + n % 64]
  }

  function Encode(s: string): Bytes {
    if s == [] then [] else EncodeChar(s[0]) + Encode(s[1..])
  }

  predicate Tail(b: Byte) {
    0x80 <= b < 0xC0
  }

  /** The number of bytes the lead byte announces; 0 for a byte that cannot lead. */
  function Length(lead: Byte): nat {
    if lead < 0x80 then 1
    else if lead < 0xC0 then 0
    else if lead < 0xE0 then 2
    else if lead < 0xF0 then 3
    else if lead < 0xF8 then 4
    else 0
  }

  /** The six payload bits of a tail byte. */
  function Low(b: Byte): int {
    b as int - 0x80
  }

  function Payload(b: Bytes): int
    requires b != [] && 1 <= Length(b[0]) <= |b|
  {
    var lead := b[0] as int;
    match Length(lead)
    case 1 => lead
    case 2 => (lead - 0xC0) * 64 + Low(b[1])
    case 3 => ((lead - 0xE0) * 64 + Low(b[1])) * 64 + Low(b[2])
    case _ => (((lead - 0xF0) * 64 + Low(b[1])) * 64 + Low(b[2])) * 64 + Low(b[3])
  }

  /** The least code point that needs a sequence of the given length. */
  function Least(length: nat): int {
    match length
    case 2 => 0x80
    case 3 => 0x800
    case 4 => 0x1_0000
    case _ => 0
  }

  /** The code point of the first sequence, unless it is truncated, overlong, a surrogate or out of range. */
  function DecodeFirst(b: Bytes): Option<char> {
    if b == [] then None
    else
      var k := Length(b[0]);
      if k == 0 || |b| < k || exists i :: 1 <= i < k && !Tail(b[i]) then None
      else
        var n := Payload(b);
        if n < Least(k) || 0xD800 <= n < 0xE000 || n >= 0x11_0000 then None else Some(n as char)
  }

  /** `field.decode("utf-8")`: the text, or nothing for a UnicodeError. */
  function Decode(b: Bytes): Option<string>
    decreases |b|
  {
    if b == [] then Some([])
    else match DecodeFirst(b)
      case None => None
      case Some(c) =>
        match Decode(b[Length(b[0])..])
        case None => None
        case Some(rest) => Some([c] + rest)
  }

  lemma DecodeEncodeChar(c: char, rest: Bytes)
    ensures var b := EncodeChar(c);
            DecodeFirst(b + rest) == Some(c) && Length((b + rest)[0]) == |b|
  {
    var b, n := EncodeChar(c), c as int;
    var whole := b + rest;
    assert forall i :: 0 <= i < |b| ==> whole[i] == b[i];
    assert Length(whole[0]) == |b|;
    assert Payload(whole) == n;
  }

  lemma Digits(h: int, t: int)
    requires 0 <= t < 64
    ensures (h * 64 + t) / 64 == h && (h * 64 + t) % 64 == t
  {
  }

  /** The bytes of a character with a known number of six-bit digits. */
  lemma EncodeDigits(c: char, h: int, x: int, y: int, z: int)
    requires 0 <= x < 64 && 0 <= y < 64 && 0 <= z < 64
    ensures c as int == h * 64 + x && 0x80 <= c as int < 0x800
      ==> EncodeChar(c) == [0xC0 + h, 0x80 + x]
    ensures c as int == (h * 64 + x) * 64 + y && 0x800 <= c as int < 0x1_0000
      ==> EncodeChar(c) == [0xE0 + h, 0x80 + x, 0x80 + y]
    ensures c as int == ((h * 64 + x) * 64 + y) * 64 + z && 0x1_0000 <= c as int
      ==> EncodeChar(c) == [0xF0 + h, 0x80 + x, 0x80 + y, 0x80 + z]
  {
    Digits(h, x);
    Digits(h * 64 + x, y);
    Digits((h * 64 + x) * 64 + y, z);
  }

  lemma EncodeDecodeFirst(b: Bytes)
    requires DecodeFirst(b).Some?
    ensures var k := Length(b[0]);
            1 <= k <= |b| && EncodeChar(DecodeFirst(b).value) == b[..k]
  {
    var lead, k, c := b[0] as int, Length(b[0]), DecodeFirst(b).value;
    assert forall i :: 1 <= i < k ==> Tail(b[i]);
    if k == 2 {
      EncodeDigits(c, lead - 0xC0, Low(b[1]), 0, 0);
    } else if k == 3 {
      EncodeDigits(c, lead - 0xE0, Low(b[1]), Low(b[2]), 0);
    } else if k == 4 {
      EncodeDigits(c, lead - 0xF0, Low(b[1]), Low(b[2]), Low(b[3]));
    }
  }

  /** Decoding gives back every encoded text. */
  lemma {:induction false} DecodeEncode(s: string)
    ensures Decode(Encode(s)) == Some(s)
  {
    if s == [] {
      assert s == [];
    } else {
      var first, rest := EncodeChar(s[0]), Encode(s[1..]);
      DecodeEncodeChar(s[0], rest);
      TakeAppend(first, rest);
      DecodeEncode(s[1..]);
      Uncons(s);
    }
  }

  /** Only one byte string decodes to a given text, so no byte is lost by decoding a path. */
  lemma {:induction false} EncodeDecode(b: Bytes)
    requires Decode(b).Some?
    ensures Encode(Decode(b).value) == b
    decreases |b|
  {
    if b != [] {
      EncodeDecodeFirst(b);
      var k := Length(b[0]);
      EncodeDecode(b[k..]);
      TakeDrop(b, k);
      Cons(DecodeFirst(b).value, Decode(b[k..]).value);
    }
  }

  /** NUL is encoded by the zero byte and by nothing else. */
  lemma {:induction false} EncodeNul(s: string)
    ensures 0 in Encode(s) <==> '\0' in s
  {
    if s != [] {
      EncodeNul(s[1..]);
      assert 0 in EncodeChar(s[0]) <==> s[0] == '\0';
      assert s == [s[0]] + s[1..];
    }
  }

  /** Examples of section 7 of RFC 3629. */
  lemma Examples()
    ensures Encode("\U{0041}\U{2262}\U{0391}\U{002E}") == [0x41, 0xE2, 0x89, 0xA2, 0xCE, 0x91, 0x2E]
    ensures Encode("\U{233B4}") == [0xF0, 0xA3, 0x8E, 0xB4]
  {
    EncodeDigits('\U{2262}', 2, 0x09, 0x22, 0);
    EncodeDigits('\U{0391}', 0x0E, 0x11, 0, 0);
    EncodeDigits('\U{233B4}', 0, 0x23, 0x0E, 0x34);
    EncodeOne('\U{233B4}', "");
    EncodeOne('\U{002E}', "");
    EncodeOne('\U{0391}', "\U{002E}");
    EncodeOne('\U{2262}', "\U{0391}\U{002E}");
    EncodeOne('\U{0041}', "\U{2262}\U{0391}\U{002E}");
  }

  lemma EncodeOne(c: char, rest: string)
    ensures Encode([c] + rest) == EncodeChar(c) + Encode(rest)
  {
    assert ([c] + rest)[1..] == rest;
  }

  // ---------- ASCII ----------

  function AsciiBytes(s: string): Bytes
    requires forall i :: 0 <= i < |s| ==> s[i] < 128 as char
  {
    seq(|s|, i requires 0 <= i < |s| => s[i] as int)
  }

  /** `field.decode("ascii")`. */
  function AsciiText(b: Bytes): Option<string> {
    if exists i :: 0 <= i < |b| && b[i] >= 128 then None
    else Some(seq(|b|, i requires 0 <= i < |b| => b[i] as char))
  }
}
