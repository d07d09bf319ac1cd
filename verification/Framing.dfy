/** Length-framed hashing: what a running hash has absorbed, and why the frames cannot be confused. */
module Framing {
  import opened Sequences
  import opened Utf8
  import opened Ordering

  /** SHA-256 seen from outside: any function to 32-byte digests. */
  type HashFunction = h: Bytes -> Bytes | forall b :: |h(b)| == 32
    witness b => [0, 0, 0, 0, 0, 0, 0, 0, 0, 0, 0, 0, 0, 0, 0, 0, 0, 0, 0, 0, 0, 0, 0, 0, 0, 0, 0, 0, 0, 0, 0, 0]

  const FRAME_LIMIT := 0x1_0000_0000_0000_0000

  function Power256(k: nat): (p: nat)
    ensures p > 0
  {
    if k == 0 then 1 else 256 * Power256(k - 1)
  }

  /** The `j`th base-256 digit of `n`, the lowest being digit 0. */
  function ByteAt(n: nat, j: nat): Byte {
    if j == 0 then n % 256 else ByteAt(n / 256, j - 1)
  }

  /** `n.to_bytes(k, "big")`. */
  function BigEndian(n: nat, k: nat): (b: Bytes)
    ensures |b| == k
  {
    seq(k, i requires 0 <= i < k => ByteAt(n, k - 1 - i))
  }

  lemma {:induction false} DigitsInjective(m: nat, n: nat, k: nat)
    requires m < Power256(k) && n < Power256(k)
    requires forall j :: 0 <= j < k ==> ByteAt(m, j) == ByteAt(n, j)
    ensures m == n
  {
    if k > 0 {
      assert ByteAt(m, 0) == ByteAt(n, 0);
      forall j | 0 <= j < k - 1 ensures ByteAt(m / 256, j) == ByteAt(n / 256, j) {
        assert ByteAt(m, j + 1) == ByteAt(n, j + 1);
      }
      DigitsInjective(m / 256, n / 256, k - 1);
    }
  }

  lemma BigEndianInjective(m: nat, n: nat, k: nat)
    requires m < Power256(k) && n < Power256(k)
    requires BigEndian(m, k) == BigEndian(n, k)
    ensures m == n
  {
    forall j | 0 <= j < k ensures ByteAt(m, j) == ByteAt(n, j) {
      assert BigEndian(m, k)[k - 1 - j] == BigEndian(n, k)[k - 1 - j];
    }
    DigitsInjective(m, n, k);
  }

  /** The number that bytes spell, the first counting most. */
  function Value(b: Bytes): nat {
    if b == [] then 0 else 256 * Value(b[..|b| - 1]) + b[|b| - 1]
  }

  lemma BigEndianStep(n: nat, k: nat)
    requires k > 0
    ensures BigEndian(n, k)[..k - 1] == BigEndian(n / 256, k - 1) && BigEndian(n, k)[k - 1] == n % 256
  {
    var b, rest := BigEndian(n, k), BigEndian(n / 256, k - 1);
    forall i | 0 <= i < k - 1 ensures b[i] == rest[i] {
      assert ByteAt(n, k - 1 - i) == ByteAt(n / 256, k - 2 - i);
    }
    assert b[..k - 1] == rest;
    assert b[k - 1] == ByteAt(n, 0);
  }

  lemma Digit256(n: nat, p: nat)
    requires n < 256 * p
    ensures n / 256 < p && 256 * (n / 256) + n % 256 == n
  {
  }

  lemma {:induction false} BigEndianValue(n: nat, k: nat)
    requires n < Power256(k)
    ensures Value(BigEndian(n, k)) == n
  {
    if k == 0 {
      assert BigEndian(n, k) == [] && Power256(k) == 1;
    } else {
      var b := BigEndian(n, k);
      BigEndianStep(n, k);
      BigEndianValue(n / 256, k - 1);
      Digit256(n, Power256(k - 1));
      assert Value(b) == 256 * Value(b[..k - 1]) + b[k - 1];
    }
  }

  lemma {:induction false} ValueInjective(a: Bytes, b: Bytes)
    requires |a| == |b| && Value(a) == Value(b)
    ensures a == b
  {
    if a != [] {
      var n := |a| - 1;
      ValueInjective(a[..n], b[..n]);
      assert a == a[..n] + [a[n]] && b == b[..n] + [b[n]];
    }
  }

  /** `n.to_bytes(k, "big")` is the one string of `k` bytes that spells `n`. */
  lemma BigEndianExactly(n: nat, k: nat, b: Bytes)
    requires n < Power256(k) && |b| == k
    ensures b == BigEndian(n, k) <==> Value(b) == n
  {
    BigEndianValue(n, k);
    if Value(b) == n {
      ValueInjective(b, BigEndian(n, k));
    }
  }

  function Framed(value: Bytes): Bytes {
    BigEndian(|value|, 8) + value
  }

  predicate Frameable(value: Bytes) {
    |value| < FRAME_LIMIT
  }

  ghost predicate AllFrameable(values: seq<Bytes>) {
    forall i :: 0 <= i < |values| ==> Frameable(values[i])
  }

  /** Eight bytes that spell the length, and then the value. */
  ghost predicate IsFrame(frame: Bytes, value: Bytes) {
    |frame| == 8 + |value| && Value(frame[..8]) == |value| && frame[8..] == value
  }

  /** The frame of a value is the one byte string of that form. */
  lemma FramedExactly(frame: Bytes, value: Bytes)
    requires Frameable(value)
    ensures frame == Framed(value) <==> IsFrame(frame, value)
  {
    assert Power256(8) == FRAME_LIMIT;
    TakeAppend(BigEndian(|value|, 8), value);
    BigEndianValue(|value|, 8);
    if IsFrame(frame, value) {
      BigEndianExactly(|value|, 8, frame[..8]);
      TakeDrop(frame, 8);
    }
  }

  /** A frame tells where it ends: two texts that start with one split the same way. */
  lemma FramedPrefix(v: Bytes, w: Bytes, x: Bytes, y: Bytes)
    requires Frameable(v) && Frameable(w)
    requires Framed(v) + x == Framed(w) + y
    ensures v == w && x == y
  {
    var s := Framed(v) + x;
    assert s[..8] == BigEndian(|v|, 8);
    assert s[..8] == BigEndian(|w|, 8);
    assert Power256(8) == FRAME_LIMIT;
    BigEndianInjective(|v|, |w|, 8);
    TakeAppend(Framed(v), x);
    TakeAppend(Framed(w), y);
    TakeAppend(BigEndian(|v|, 8), v);
    TakeAppend(BigEndian(|w|, 8), w);
  }

  function Frames(values: seq<Bytes>): Bytes {
    if values == [] then [] else Framed(values[0]) + Frames(values[1..])
  }

  /** A known number of frames can be told from whatever follows them. */
  lemma {:induction false} FramesPrefix(a: seq<Bytes>, b: seq<Bytes>, x: Bytes, y: Bytes)
    requires |a| == |b| && AllFrameable(a) && AllFrameable(b)
    requires Frames(a) + x == Frames(b) + y
    ensures a == b && x == y
  {
    if a == [] {
      Neutral(x);
      Neutral(y);
    } else {
      Associate(Framed(a[0]), Frames(a[1..]), x);
      Associate(Framed(b[0]), Frames(b[1..]), y);
      FramedPrefix(a[0], b[0], Frames(a[1..]) + x, Frames(b[1..]) + y);
      FramesPrefix(a[1..], b[1..], x, y);
      Uncons(a);
      Uncons(b);
    }
  }

  /** Concatenated frames determine the values, their number and their order. */
  lemma {:induction false} FramesInjective(a: seq<Bytes>, b: seq<Bytes>)
    requires AllFrameable(a) && AllFrameable(b)
    requires Frames(a) == Frames(b)
    ensures a == b
  {
    if a != [] && b != [] {
      FramedPrefix(a[0], b[0], Frames(a[1..]), Frames(b[1..]));
      FramesInjective(a[1..], b[1..]);
      Uncons(a);
      Uncons(b);
    }
  }

  lemma {:induction false} FramesAppend(a: seq<Bytes>, value: Bytes)
    ensures Frames(a + [value]) == Frames(a) + Framed(value)
  {
    if a == [] {
      assert [] + [value] == [value] && [value][1..] == [];
      Neutral(Framed(value));
    } else {
      FramesAppend(a[1..], value);
      assert (a + [value])[1..] == a[1..] + [value];
      Associate(Framed(a[0]), Frames(a[1..]), Framed(value));
    }
  }

  /** `hashlib.sha256()`: a state that only ever absorbs bytes. */
  class Hasher {
    var absorbed: Bytes

    constructor ()
      ensures absorbed == []
    {
      absorbed := [];
    }

    method Update(value: Bytes)
      modifies this
      ensures absorbed == old(absorbed) + value
    {
      absorbed := absorbed + value;
    }

    function Digest(h: HashFunction): Bytes
      reads this
    {
      h(absorbed)
    }

    /** Absorb one byte string without ambiguous concatenation. */
    method UpdateFramed(value: Bytes)
      requires Frameable(value)
      modifies this
      ensures absorbed == old(absorbed) + Framed(value)
      ensures old(absorbed) <= absorbed && IsFrame(absorbed[|old(absorbed)|..], value)
    {
      FramedExactly(Framed(value), value);
      TakeAppend(absorbed, Framed(value));
      Update(BigEndian(|value|, 8));
      Update(value);
      Associate(old(absorbed), BigEndian(|value|, 8), value);
    }
  }

  // ---------- hexadecimal digests ----------

  predicate IsHexDigit(c: char) {
    '0' <= c <= '9' || 'a' <= c <= 'f'
  }

  function HexDigit(n: nat): (c: char)
    requires n < 16
    ensures IsHexDigit(c)
  {
    if n < 10 then (48 + n) as char else (87 + n) as char
  }

  /** `digest.hex()`: two digits a byte, the high one first. */
  function Hex(b: Bytes): (text: string)
    ensures |text| == 2 * |b|
  {
    seq(2 * |b|, i requires 0 <= i < 2 * |b| => HexDigit(if i % 2 == 0 then b[i / 2] / 16 else b[i / 2] % 16))
  }

  lemma HexInjective(a: Bytes, b: Bytes)
    requires Hex(a) == Hex(b)
    ensures a == b
  {
    assert |Hex(a)| == 2 * |a| && |Hex(b)| == 2 * |b|;
    forall i | 0 <= i < |a| ensures a[i] == b[i] {
      assert Hex(a)[2 * i] == Hex(b)[2 * i] && Hex(a)[2 * i + 1] == Hex(b)[2 * i + 1];
      assert HexDigit(a[i] / 16) == HexDigit(b[i] / 16) && HexDigit(a[i] % 16) == HexDigit(b[i] % 16);
    }
  }

  function DigitValue(c: char): nat
    requires IsHexDigit(c)
  {
    if c <= '9' then c as nat - '0' as nat else c as nat - 'a' as nat + 10
  }

  /** The number a hexadecimal text spells, the first digit counting most. */
  function HexValue(s: string): nat
    requires IsHex(s)
  {
    if s == "" then 0 else 16 * HexValue(s[..|s| - 1]) + DigitValue(s[|s| - 1])
  }

  predicate IsHex(s: string) {
    forall i :: 0 <= i < |s| ==> IsHexDigit(s[i])
  }

  lemma HexStep(b: Bytes)
    requires b != []
    ensures Hex(b) == Hex(b[..|b| - 1]) + [HexDigit(b[|b| - 1] / 16)] + [HexDigit(b[|b| - 1] % 16)]
  {
  }

  lemma DigitValueOf(n: nat)
    requires n < 16
    ensures DigitValue(HexDigit(n)) == n
  {
  }

  lemma HexValueAppend(s: string, c: char)
    requires IsHex(s) && IsHexDigit(c)
    ensures IsHex(s + [c]) && HexValue(s + [c]) == 16 * HexValue(s) + DigitValue(c)
  {
    assert (s + [c])[..|s|] == s;
  }

  /** The text of bytes is hexadecimal and spells the same number: two digits a byte, the high one first. */
  lemma {:induction false} HexSpells(b: Bytes)
    ensures IsHex(Hex(b)) && HexValue(Hex(b)) == Value(b)
  {
    if b == [] {
      assert Hex(b) == "";
    } else {
      var n, last := |b| - 1, b[|b| - 1];
      HexStep(b);
      HexSpells(b[..n]);
      HexValueAppend(Hex(b[..n]), HexDigit(last / 16));
      HexValueAppend(Hex(b[..n]) + [HexDigit(last / 16)], HexDigit(last % 16));
      DigitValueOf(last / 16);
      DigitValueOf(last % 16);
    }
  }

  lemma HexDigitOf(c: char)
    requires IsHexDigit(c)
    ensures DigitValue(c) < 16 && HexDigit(DigitValue(c)) == c
  {
  }

  /** Every hexadecimal text of even length is the text of some bytes. */
  lemma {:induction false} HexOnto(s: string) returns (b: Bytes)
    requires IsHex(s) && |s| % 2 == 0
    ensures |b| == |s| / 2 && Hex(b) == s
  {
    if s == "" {
      b := [];
      assert Hex(b) == s;
    } else {
      var n := |s| - 2;
      var rest := HexOnto(s[..n]);
      HexDigitOf(s[n]);
      HexDigitOf(s[n + 1]);
      var last := 16 * DigitValue(s[n]) + DigitValue(s[n + 1]);
      b := rest + [last];
      assert last / 16 == DigitValue(s[n]) && last % 16 == DigitValue(s[n + 1]);
      HexStep(b);
      assert b[..|b| - 1] == rest;
      assert s == s[..n] + [s[n]] + [s[n + 1]];
    }
  }

  /** `"sha256:" + digest.hex()`. */
  function Labelled(digest: Bytes): string {
    "sha256:" + Hex(digest)
  }

  lemma LabelledInjective(a: Bytes, b: Bytes)
    requires Labelled(a) == Labelled(b)
    ensures a == b
  {
    TakeAppend("sha256:", Hex(a));
    TakeAppend("sha256:", Hex(b));
    HexInjective(a, b);
  }

  // ---------- collisions ----------

  /** Two different byte strings with one digest, found among the strings that were in fact hashed. */
  ghost predicate Collision(h: HashFunction, hashed: set<Bytes>) {
    exists x, y :: x in hashed && y in hashed && x != y && h(x) == h(y)
  }

  lemma SameDigest(h: HashFunction, hashed: set<Bytes>, x: Bytes, y: Bytes)
    requires x in hashed && y in hashed && h(x) == h(y)
    ensures x == y || Collision(h, hashed)
  {
  }

  ghost predicate NoCollision(h: HashFunction, hashed: set<Bytes>) {
    !Collision(h, hashed)
  }

  /** The digests of many byte strings. */
  function Digests(h: HashFunction, messages: seq<Bytes>): (digests: seq<Bytes>)
    ensures |digests| == |messages|
  {
    seq(|messages|, i requires 0 <= i < |messages| => h(messages[i]))
  }

  lemma DigestsAppend(h: HashFunction, messages: seq<Bytes>, m: Bytes)
    ensures Digests(h, messages + [m]) == Digests(h, messages) + [h(m)]
  {
  }

  lemma SameFrames(h: HashFunction, a: seq<Bytes>, b: seq<Bytes>, hashed: set<Bytes>)
    requires Frames(a) in hashed && Frames(b) in hashed && h(Frames(a)) == h(Frames(b)) && NoCollision(h, hashed)
    requires AllFrameable(a) && AllFrameable(b)
    ensures a == b
  {
    SameDigest(h, hashed, Frames(a), Frames(b));
    FramesInjective(a, b);
  }

  lemma SameImages(h: HashFunction, a: seq<Bytes>, b: seq<Bytes>, hashed: set<Bytes>)
    requires Digests(h, a) == Digests(h, b)
    requires Elements(a) <= hashed && Elements(b) <= hashed && NoCollision(h, hashed)
    ensures a == b
  {
    assert |a| == |Digests(h, a)| == |b|;
    forall i | 0 <= i < |a| ensures a[i] == b[i] {
      assert Digests(h, a)[i] == h(a[i]) && Digests(h, b)[i] == h(b[i]);
      assert a[i] in Elements(a) && b[i] in Elements(b);
      SameDigest(h, hashed, a[i], b[i]);
    }
  }

  lemma DigestsFrameable(h: HashFunction, messages: seq<Bytes>)
    ensures AllFrameable(Digests(h, messages))
  {
  }
}
