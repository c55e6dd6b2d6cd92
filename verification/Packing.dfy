/**
 The packed form of a message (src/serialization/packing.ts): a tag byte for each word says which of
 its bytes are nonzero; runs of zero words and spans of dense words are counted.
 */
module Packing {
  import opened Options

  type byte = b: int | 0 <= b < 256

  const ZERO: byte := 0x00
  const SPAN: byte := 0xff
  const NEUTRAL: byte := 0x77
  const PACK_SPAN_THRESHOLD: nat := 2
  const MAX_RUN: nat := 0xff

  // ---------------------------------------------------------------------------------------------
  // Words, tags and weights

  type Word = w: seq<byte> | |w| == 8 witness [0, 0, 0, 0, 0, 0, 0, 0]

  /** One bit for each byte, the first byte's lowest. */
  function Mask(bytes: seq<byte>): nat {
    if bytes == [] then 0 else (if bytes[0] == 0 then 0 else 1) + 2 * Mask(bytes[1..])
  }

  lemma MaskStep(bytes: seq<byte>)
    requires bytes != []
    ensures Mask(bytes) == (if bytes[0] == 0 then 0 else 1) + 2 * Mask(bytes[1..])
    ensures |bytes| == 1 ==> Mask(bytes[1..]) == 0
    ensures Mask(bytes) % 2 == (if bytes[0] == 0 then 0 else 1) && Mask(bytes) / 2 == Mask(bytes[1..])
  {
    var bit, rest := if bytes[0] == 0 then 0 else 1, Mask(bytes[1..]);
    assert Mask(bytes) == bit + 2 * rest;
    assert |bytes| == 1 ==> bytes[1..] == [];
    hide Mask;
    Halves(bit, rest);
    assert |bytes| == 1 ==> rest == Mask([]);
    MaskOfNone();
  }

  lemma MaskOfNone()
    ensures Mask([]) == 0
  {
  }

  lemma Halves(bit: nat, m: nat)
    requires bit < 2
    ensures (bit + 2 * m) % 2 == bit && (bit + 2 * m) / 2 == m
  {
  }

  function GetTagByte(a: byte, b: byte, c: byte, d: byte, e: byte, f: byte, g: byte, h: byte): (tag: byte)
    ensures tag == Mask([a, b, c, d, e, f, g, h])
  {
    MaskOfEight(a, b, c, d, e, f, g, h);
    (if a == 0 then 0 else 0x01) + (if b == 0 then 0 else 0x02) + (if c == 0 then 0 else 0x04)
    + (if d == 0 then 0 else 0x08) + (if e == 0 then 0 else 0x10) + (if f == 0 then 0 else 0x20)
    + (if g == 0 then 0 else 0x40) + (if h == 0 then 0 else 0x80)
  }

  lemma MaskOfFour(a: byte, b: byte, c: byte, d: byte, rest: seq<byte>)
    ensures Mask([a, b, c, d] + rest) == (if a == 0 then 0 else 1) + (if b == 0 then 0 else 2) + (if c == 0 then 0 else 4) + (if d == 0 then 0 else 8) + 16 * Mask(rest)
  {
    hide Mask;
    var s := [a, b, c, d] + rest;
    assert s[1..] == [b, c, d] + rest && s[1..][1..] == [c, d] + rest;
    assert s[1..][1..][1..] == [d] + rest && s[1..][1..][1..][1..] == rest;
    MaskStep(s);
    MaskStep(s[1..]);
    MaskStep(s[1..][1..]);
    MaskStep(s[1..][1..][1..]);
  }

  lemma MaskOfEight(a: byte, b: byte, c: byte, d: byte, e: byte, f: byte, g: byte, h: byte)
    ensures Mask([a, b, c, d, e, f, g, h])
         == (if a == 0 then 0 else 0x01) + (if b == 0 then 0 else 0x02) + (if c == 0 then 0 else 0x04)
            + (if d == 0 then 0 else 0x08) + (if e == 0 then 0 else 0x10) + (if f == 0 then 0 else 0x20)
            + (if g == 0 then 0 else 0x40) + (if h == 0 then 0 else 0x80)
  {
    MaskOfFour(a, b, c, d, [e, f, g, h]);
    MaskOfFour(e, f, g, h, []);
    assert Mask([]) == 0;
    hide Mask;
    assert [a, b, c, d, e, f, g, h] == [a, b, c, d] + [e, f, g, h] && [e, f, g, h] == [e, f, g, h] + [];
  }

  function Zeros(bytes: seq<byte>): nat {
    if bytes == [] then 0 else (if bytes[0] == 0 then 1 else 0) + Zeros(bytes[1..])
  }

  lemma ZerosStep(bytes: seq<byte>)
    requires bytes != []
    ensures Zeros(bytes) == (if bytes[0] == 0 then 1 else 0) + Zeros(bytes[1..])
    ensures |bytes| == 1 ==> Zeros(bytes[1..]) == 0
  {
  }

  function GetZeroByteCount(a: byte, b: byte, c: byte, d: byte, e: byte, f: byte, g: byte, h: byte): (n: nat)
    ensures n == Zeros([a, b, c, d, e, f, g, h])
  {
    ZerosOfEight(a, b, c, d, e, f, g, h);
    (if a == 0 then 1 else 0) + (if b == 0 then 1 else 0) + (if c == 0 then 1 else 0) + (if d == 0 then 1 else 0)
    + (if e == 0 then 1 else 0) + (if f == 0 then 1 else 0) + (if g == 0 then 1 else 0) + (if h == 0 then 1 else 0)
  }

  lemma ZerosOfFour(a: byte, b: byte, c: byte, d: byte, rest: seq<byte>)
    ensures Zeros([a, b, c, d] + rest) == (if a == 0 then 1 else 0) + (if b == 0 then 1 else 0) + (if c == 0 then 1 else 0) + (if d == 0 then 1 else 0) + Zeros(rest)
  {
    hide Zeros;
    var s := [a, b, c, d] + rest;
    assert s[1..] == [b, c, d] + rest && s[1..][1..] == [c, d] + rest;
    assert s[1..][1..][1..] == [d] + rest && s[1..][1..][1..][1..] == rest;
    ZerosStep(s);
    ZerosStep(s[1..]);
    ZerosStep(s[1..][1..]);
    ZerosStep(s[1..][1..][1..]);
  }

  lemma ZerosOfEight(a: byte, b: byte, c: byte, d: byte, e: byte, f: byte, g: byte, h: byte)
    ensures Zeros([a, b, c, d, e, f, g, h])
         == (if a == 0 then 1 else 0) + (if b == 0 then 1 else 0) + (if c == 0 then 1 else 0) + (if d == 0 then 1 else 0)
            + (if e == 0 then 1 else 0) + (if f == 0 then 1 else 0) + (if g == 0 then 1 else 0) + (if h == 0 then 1 else 0)
  {
    ZerosOfFour(a, b, c, d, [e, f, g, h]);
    ZerosOfFour(e, f, g, h, []);
    assert Zeros([]) == 0;
    hide Zeros;
    assert [a, b, c, d, e, f, g, h] == [a, b, c, d] + [e, f, g, h] && [e, f, g, h] == [e, f, g, h] + [];
  }

  /** The number of bits set. */
  function Weight(x: nat): nat {
    if x == 0 then 0 else x % 2 + Weight(x / 2)
  }

  /** Bitwise and. */
  function And(x: nat, mask: nat): nat {
    if x == 0 || mask == 0 then 0
    else (if x % 2 == 1 && mask % 2 == 1 then 1 else 0) + 2 * And(x / 2, mask / 2)
  }

  lemma AndNone(x: nat, mask: nat)
    ensures And(0, mask) == 0 && And(x, 0) == 0
  {
  }

  lemma AndBit(x: nat, mask: nat)
    ensures And(x, mask) == (if x % 2 == 1 && mask % 2 == 1 then 1 else 0) + 2 * And(x / 2, mask / 2)
  {
    AndNone(x / 2, mask / 2);
  }

  lemma Digit(a: nat, b: nat)
    requires a < 4
    ensures (a + 4 * b) % 4 == a && (a + 4 * b) / 4 == b
    ensures (a + 4 * b) % 2 == a % 2 && (a + 4 * b) / 2 == a / 2 + 2 * b
    ensures (a / 2 + 2 * b) % 2 == a / 2 && (a / 2 + 2 * b) / 2 == b
    ensures a / 2 < 2 && a == a % 2 + 2 * (a / 2)
  {
    var low, high := a % 2, a / 2;
    Quarter(a, b);
    Halves(low, high + 2 * b);
    Halves(high, b);
    assert a + 4 * b == low + 2 * (high + 2 * b);
  }

  lemma Quarter(a: nat, b: nat)
    requires a < 4
    ensures (a + 4 * b) % 4 == a && (a + 4 * b) / 4 == b
  {
  }

  lemma AndSmall(a: nat, m: nat)
    requires a < 4 && m < 4
    ensures And(a, m) == (if a % 2 == 1 && m % 2 == 1 then 1 else 0) + (if a / 2 == 1 && m / 2 == 1 then 2 else 0)
  {
    AndBit(a, m);
    AndBit(a / 2, m / 2);
    AndNone(0, 0);
    Digit(a, 0);
    Digit(m, 0);
    hide And;
    assert a / 2 / 2 == 0 && m / 2 / 2 == 0;
  }

  /** Digit by digit in base four. */
  lemma AndDigit(a: nat, b: nat, m: nat, n: nat)
    requires a < 4 && m < 4
    ensures And(a + 4 * b, m + 4 * n) == And(a, m) + 4 * And(b, n)
    ensures m == 1 ==> And(a, m) == a % 2
    ensures m == 3 ==> And(a, m) == a
    ensures m == 0 ==> And(a, m) == 0
  {
    hide And;
    Digit(a, b);
    Digit(m, n);
    AndBit(a + 4 * b, m + 4 * n);
    AndBit(a / 2 + 2 * b, m / 2 + 2 * n);
    AndSmall(a, m);
  }

  lemma WeightBit(x: nat)
    ensures Weight(x) == x % 2 + Weight(x / 2) && Weight(0) == 0
  {
  }

  lemma Halved(x: nat, bound: nat)
    requires x < 2 * bound
    ensures x % 2 < 2 && x / 2 < bound && x == x % 2 + 2 * (x / 2)
  {
  }

  /** Four bits of a number, and what they weigh. */
  lemma Nibble(x: nat, bound: nat) returns (a: nat, b: nat, c: nat, d: nat, y: nat)
    requires x < 16 * bound
    ensures a < 2 && b < 2 && c < 2 && d < 2 && y < bound
    ensures x / 2 == b + 2 * (c + 2 * (d + 2 * y)) && x == a + 2 * (x / 2)
    ensures Weight(x) == a + b + c + d + Weight(y)
  {
    hide Weight;
    var x1, x2, x3 := x / 2, x / 2 / 2, x / 2 / 2 / 2;
    Halved(x, 8 * bound);
    Halved(x1, 4 * bound);
    Halved(x2, 2 * bound);
    Halved(x3, bound);
    WeightBit(x);
    WeightBit(x1);
    WeightBit(x2);
    WeightBit(x3);
    a, b, c, d, y := x % 2, x1 % 2, x2 % 2, x3 % 2, x3 / 2;
  }

  function Hack(x: nat, half: nat): int {
    var w := x - And(half, 0x55555555);
    if w < 0 then -1
    else
      var v := And(w, 0x33333333) + And(w / 4, 0x33333333);
      And(v + v / 16, 0x0f0f0f0f) * 0x01010101 / 0x1000000
  }

  lemma HackOfBits(a: nat, b: nat, c: nat, d: nat, e: nat, f: nat, g: nat, h: nat)
    requires a < 2 && b < 2 && c < 2 && d < 2 && e < 2 && f < 2 && g < 2 && h < 2
    ensures var half := b + 2 * (c + 2 * (d + 2 * (e + 2 * (f + 2 * (g + 2 * h)))));
      Hack(a + 2 * half, half) == a + b + c + d + e + f + g + h
  {
    hide And;
    PairsOfBits(b, c, d, e, f, g, h);
    NibblesOfPairs(a + b, c + d, e + f, g + h);
  }

  lemma HackIsWeight(x: nat)
    requires x < 256
    ensures Hack(x, x / 2) == Weight(x)
  {
    hide Hack, Weight;
    var a, b, c, d, y := Nibble(x, 16);
    var e, f, g, h, z := Nibble(y, 1);
    WeightBit(z);
    HackOfBits(a, b, c, d, e, f, g, h);
  }

  /** Masking every other bit. */
  lemma PairsOfBits(b: nat, c: nat, d: nat, e: nat, f: nat, g: nat, h: nat)
    requires b < 2 && c < 2 && d < 2 && e < 2 && f < 2 && g < 2 && h < 2
    ensures And(b + 2 * (c + 2 * (d + 2 * (e + 2 * (f + 2 * (g + 2 * h))))), 0x55555555) == b + 4 * (d + 4 * (f + 4 * h))
  {
    hide And;
    Halves(b, c);
    Halves(d, e);
    Halves(f, g);
    Halves(h, 0);
    AndDigit(b + 2 * c, (d + 2 * e) + 4 * ((f + 2 * g) + 4 * h), 1, 0x15555555);
    AndDigit(d + 2 * e, (f + 2 * g) + 4 * h, 1, 0x5555555);
    AndDigit(f + 2 * g, h, 1, 0x1555555);
    AndDigit(h, 0, 1, 0x555555);
    AndNone(0, 0x555555);
  }

  /** Every other digit in base four. */
  lemma OddDigits(p: nat, q: nat, r: nat, t: nat)
    requires p < 4 && q < 4 && r < 4 && t < 4
    ensures And(p + 4 * (q + 4 * (r + 4 * t)), 0x33333333) == p + 16 * r
    ensures And(p + 4 * (q + 4 * (r + 4 * t)), 0x0f0f0f0f) == p + 4 * q
  {
    hide And;
    AndDigit(p, q + 4 * (r + 4 * t), 3, 0xccccccc);
    AndDigit(q, r + 4 * t, 0, 0x3333333);
    AndDigit(r, t, 3, 0xcccccc);
    AndDigit(t, 0, 0, 0x333333);
    AndNone(0, 0x333333);
    AndDigit(p, q + 4 * (r + 4 * t), 3, 0x3c3c3c3);
    AndDigit(q, r + 4 * t, 3, 0xf0f0f0);
    AndDigit(r, t, 0, 0x3c3c3c);
    AndDigit(t, 0, 0, 0xf0f0f);
    AndNone(0, 0xf0f0f);
  }

  lemma NibblesOfPairs(p: nat, q: nat, r: nat, t: nat)
    requires p <= 2 && q <= 2 && r <= 2 && t <= 2
    ensures var w := p + 4 * (q + 4 * (r + 4 * t));
      var v := And(w, 0x33333333) + And(w / 4, 0x33333333);
      And(v + v / 16, 0x0f0f0f0f) * 0x01010101 / 0x1000000 == p + q + r + t
  {
    hide And;
    var w := p + 4 * (q + 4 * (r + 4 * t));
    Digit(p, q + 4 * (r + 4 * t));
    OddDigits(p, q, r, t);
    OddDigits(q, r, t, 0);
    var v, low, high := And(w, 0x33333333) + And(w / 4, 0x33333333), p + q, r + t;
    assert v == low + 16 * high;
    var u := low + high;
    LowNibble(u, high);
    assert v / 16 == high;
    TopByte(u);
  }

  /** The sum of two nibbles that does not overflow into the next. */
  lemma LowNibble(u: nat, high: nat)
    requires u < 16 && high < 16
    ensures And(u + 16 * high, 0x0f0f0f0f) == u
  {
    hide And;
    var a, b, c, d := u % 4, u / 4, high % 4, high / 4;
    assert u + 16 * high == a + 4 * (b + 4 * (c + 4 * d));
    OddDigits(a, b, c, d);
  }

  lemma TopByte(u: nat)
    requires u < 16
    ensures u * 0x01010101 / 0x1000000 == u
  {
    assert u * 0x01010101 == u * 0x1000000 + u * 0x10101;
  }

  /** The bits of a byte added up in pairs, then fours, then all eight. */
  function GetHammingWeight(x: nat): (weight: nat)
    requires x < 256
    ensures weight == Weight(x)
  {
    HackIsWeight(x);
    Hack(x, x / 2)
  }

  function NonZeros(bytes: seq<byte>): seq<byte> {
    if bytes == [] then [] else (if bytes[0] == 0 then [] else [bytes[0]]) + NonZeros(bytes[1..])
  }

  function Power(n: nat): nat {
    if n == 0 then 1 else 2 * Power(n - 1)
  }

  lemma {:induction false} MaskWeight(bytes: seq<byte>)
    ensures Weight(Mask(bytes)) == |NonZeros(bytes)|
  {
    if bytes != [] {
      MaskWeight(bytes[1..]);
      MaskStep(bytes);
      hide Mask;
      assert Weight(Mask(bytes)) == Mask(bytes) % 2 + Weight(Mask(bytes) / 2);
    }
  }

  lemma {:induction false} MaskExtremes(bytes: seq<byte>)
    ensures |NonZeros(bytes)| == |bytes| - Zeros(bytes)
    ensures Mask(bytes) < Power(|bytes|)
    ensures Mask(bytes) == 0 <==> Zeros(bytes) == |bytes|
    ensures Mask(bytes) == Power(|bytes|) - 1 <==> Zeros(bytes) == 0
  {
    if bytes != [] {
      MaskExtremes(bytes[1..]);
    }
  }

  /** A mask tells how many bytes follow it, and is extreme exactly for zero and for dense words. */
  lemma MaskFacts(bytes: seq<byte>)
    ensures Mask(bytes) < Power(|bytes|)
    ensures Weight(Mask(bytes)) == |NonZeros(bytes)| == |bytes| - Zeros(bytes)
    ensures Mask(bytes) == 0 <==> Zeros(bytes) == |bytes|
    ensures Mask(bytes) == Power(|bytes|) - 1 <==> Zeros(bytes) == 0
  {
    hide Mask, Zeros, NonZeros, Weight, Power;
    MaskWeight(bytes);
    MaskExtremes(bytes);
  }

  function Blank(n: nat): (z: seq<byte>)
    ensures |z| == n
  {
    seq(n, _ => 0)
  }

  lemma {:induction false} AllZeros(bytes: seq<byte>)
    requires Zeros(bytes) == |bytes|
    ensures bytes == Blank(|bytes|)
  {
    if bytes != [] {
      ZerosAtMost(bytes[1..]);
      AllZeros(bytes[1..]);
      assert bytes == [bytes[0]] + bytes[1..];
    }
  }

  lemma {:induction false} ZerosAtMost(bytes: seq<byte>)
    ensures Zeros(bytes) <= |bytes|
    ensures Zeros(bytes) == 0 ==> NonZeros(bytes) == bytes
  {
    if bytes != [] {
      ZerosAtMost(bytes[1..]);
    }
  }

  // ---------------------------------------------------------------------------------------------
  // The packed form, as a function

  /** How many words at the front are zero, up to the longest run. */
  function ZeroRun(words: seq<Word>, most: nat): (n: nat)
    ensures n <= |words| && n <= most
    decreases |words|
  {
    if words == [] || most == 0 || Mask(words[0]) != ZERO then 0 else 1 + ZeroRun(words[1..], most - 1)
  }

  /** How many words at the front have fewer zero bytes than ends a span, up to the longest span. */
  function DenseRun(words: seq<Word>, most: nat): (n: nat)
    ensures n <= |words| && n <= most
    decreases |words|
  {
    if words == [] || most == 0 || Zeros(words[0]) >= PACK_SPAN_THRESHOLD then 0 else 1 + DenseRun(words[1..], most - 1)
  }

  function Flatten(words: seq<Word>): seq<byte> {
    if words == [] then [] else words[0] + Flatten(words[1..])
  }

  function Packed(words: seq<Word>): seq<byte>
    decreases |words|
  {
    if words == [] then []
    else
      var w, rest := words[0], words[1..];
      if Mask(w) == ZERO then
        var n := ZeroRun(rest, MAX_RUN);
        [ZERO, n] + Packed(rest[n..])
      else if Mask(w) == SPAN then
        var n := DenseRun(rest, MAX_RUN);
        [SPAN] + w + [n] + Flatten(rest[..n]) + Packed(rest[n..])
      else
        MaskFacts(w);
        [Mask(w)] + NonZeros(w) + Packed(rest)
  }

  // ---------------------------------------------------------------------------------------------
  // Unpacking, as a function on every byte string

  /** The bytes a tag stands for.  Bytes missing from the source read as zero. */
  function Expand(tag: nat, src: seq<byte>, n: nat): (bytes: seq<byte>)
    ensures |bytes| == n
  {
    if n == 0 then []
    else if tag % 2 == 0 then [0] + Expand(tag / 2, src, n - 1)
    else if src == [] then [0] + Expand(tag / 2, src, n - 1)
    else [src[0]] + Expand(tag / 2, src[1..], n - 1)
  }

  /** Drop what is there to drop. */
  function Skip(s: seq<byte>, n: nat): seq<byte> {
    if n <= |s| then s[n..] else []
  }

  /** The first `n` bytes, with zeros for those missing. */
  function Take(s: seq<byte>, n: nat): (r: seq<byte>)
    ensures |r| == n
  {
    if n <= |s| then s[..n] else s + Blank(n - |s|)
  }

  function Bytes(words: nat): nat {
    8 * words
  }

  function Unpacked(p: seq<byte>, lastTag: byte): seq<byte>
    decreases |p|
  {
    if p == [] then []
    else if lastTag == ZERO then Blank(Bytes(p[0])) + Unpacked(p[1..], NEUTRAL)
    else if lastTag == SPAN then Take(p[1..], Bytes(p[0])) + Unpacked(Skip(p[1..], Bytes(p[0])), NEUTRAL)
    else Expand(p[0], p[1..], 8) + Unpacked(Skip(p[1..], Weight(p[0])), p[0])
  }

  function UnpackedWords(p: seq<byte>, lastTag: byte): nat
    decreases |p|
  {
    if p == [] then 0
    else if lastTag == ZERO then p[0] + UnpackedWords(p[1..], NEUTRAL)
    else if lastTag == SPAN then p[0] + UnpackedWords(Skip(p[1..], Bytes(p[0])), NEUTRAL)
    else 1 + UnpackedWords(Skip(p[1..], Weight(p[0])), p[0])
  }

  /** Measuring and unpacking run in lock step on every byte string. */
  lemma {:induction false} LengthIsMeasured(p: seq<byte>, lastTag: byte)
    ensures |Unpacked(p, lastTag)| == 8 * UnpackedWords(p, lastTag)
    decreases |p|
  {
    if p != [] {
      if lastTag == ZERO {
        LengthIsMeasured(p[1..], NEUTRAL);
      } else if lastTag == SPAN {
        LengthIsMeasured(Skip(p[1..], Bytes(p[0])), NEUTRAL);
      } else {
        LengthIsMeasured(Skip(p[1..], Weight(p[0])), p[0]);
      }
    }
  }

  // ---------------------------------------------------------------------------------------------
  // Round trip

  /** Every tag but the two special ones leaves the unpacker neutral. */
  lemma PlainTagIsNeutral(p: seq<byte>, tag: byte)
    requires tag != ZERO && tag != SPAN
    ensures Unpacked(p, tag) == Unpacked(p, NEUTRAL)
  {
  }

  lemma ExpandStep(tag: nat, src: seq<byte>, n: nat)
    requires n > 0
    ensures tag % 2 == 0 ==> Expand(tag, src, n) == [0] + Expand(tag / 2, src, n - 1)
    ensures tag % 2 == 1 && src != [] ==> Expand(tag, src, n) == [src[0]] + Expand(tag / 2, src[1..], n - 1)
  {
  }

  lemma NonZerosStep(bytes: seq<byte>, q: seq<byte>)
    requires bytes != []
    ensures var all, later := NonZeros(bytes) + q, NonZeros(bytes[1..]) + q;
      if bytes[0] == 0 then all == later else all != [] && all[0] == bytes[0] && all[1..] == later
  {
    var rest := NonZeros(bytes[1..]);
    assert NonZeros(bytes) == if bytes[0] == 0 then rest else [bytes[0]] + rest;
    hide NonZeros;
    if bytes[0] != 0 {
      Associates([bytes[0]], rest, q);
    }
  }

  lemma Associates<T>(a: seq<T>, b: seq<T>, c: seq<T>)
    ensures a + b + c == a + (b + c)
  {
  }

  lemma {:induction false} ExpandsBack(bytes: seq<byte>, q: seq<byte>)
    ensures Expand(Mask(bytes), NonZeros(bytes) + q, |bytes|) == bytes
  {
    if bytes != [] {
      hide Mask, Expand, NonZeros;
      var all, rest := NonZeros(bytes) + q, bytes[1..];
      MaskStep(bytes);
      NonZerosStep(bytes, q);
      ExpandStep(Mask(bytes), all, |bytes|);
      ExpandsBack(rest, q);
      assert bytes == [bytes[0]] + rest;
    }
  }

  /** Bytes a tag stands for but that are missing from the source read as zeros, however many. */
  lemma {:induction false} MissingAreZero(tag: nat, src: seq<byte>, k: nat, n: nat)
    ensures Expand(tag, src + Blank(k), n) == Expand(tag, src, n)
    decreases n
  {
    var padded := src + Blank(k);
    if n > 0 && src != [] {
      assert padded[0] == src[0] && padded[1..] == src[1..] + Blank(k);
      MissingAreZero(tag / 2, src, k, n - 1);
      MissingAreZero(tag / 2, src[1..], k, n - 1);
    } else if n > 0 && k > 0 {
      assert padded == [0] + Blank(k - 1) && padded[1..] == [] + Blank(k - 1);
      MissingAreZero(tag / 2, src, k, n - 1);
      MissingAreZero(tag / 2, [], k - 1, n - 1);
    } else {
      assert padded == src || n == 0;
    }
  }

  /** So do bytes missing from a span. */
  lemma MissingFromSpan(src: seq<byte>, k: nat, n: nat)
    ensures Take(src + Blank(k), n) == Take(src, n)
  {
  }

  lemma {:induction false} ZeroRunIsBlank(words: seq<Word>, most: nat)
    ensures var n := ZeroRun(words, most); Flatten(words[..n]) == Blank(8 * n)
    decreases |words|
  {
    var n := ZeroRun(words, most);
    if n > 0 {
      ZeroRunIsBlank(words[1..], most - 1);
      assert words[..n][1..] == words[1..][..n - 1];
      MaskFacts(words[0]);
      AllZeros(words[0]);
    }
  }

  lemma {:induction false} FlattenSplit(words: seq<Word>, n: nat)
    requires n <= |words|
    ensures Flatten(words) == Flatten(words[..n]) + Flatten(words[n..])
    ensures |Flatten(words[..n])| == 8 * n
  {
    if n == 0 {
      assert words[0..] == words;
    } else {
      FlattenSplit(words[1..], n - 1);
      assert words[..n][1..] == words[1..][..n - 1] && words[1..][n - 1..] == words[n..];
    }
  }

  lemma {:induction false} ExpandZero(src: seq<byte>, n: nat)
    ensures Expand(0, src, n) == Blank(n)
  {
    if n > 0 {
      ExpandZero(src, n - 1);
    }
  }

  /** Reading a zero tag and its count. */
  lemma ReadZeros(n: byte, q: seq<byte>)
    ensures Unpacked([ZERO, n] + q, NEUTRAL) == Blank(8 + 8 * n) + Unpacked(q, NEUTRAL)
  {
    var p := [ZERO, n] + q;
    assert p[1..] == [n] + q && p[1..][1..] == q;
    ExpandZero(p[1..], 8);
    hide Unpacked, Expand, Weight;
    UnpackedStep(p, NEUTRAL);
    assert Weight(0) == 0 by { WeightBit(0); }
    UnpackedStep(p[1..], ZERO);
    BlankAppend(8, 8 * n);
    Associates(Blank(8), Blank(8 * n), Unpacked(q, NEUTRAL));
  }

  /** Reading a span tag, its word, its count and the words it counts. */
  lemma ReadSpan(w: Word, n: byte, body: seq<byte>, q: seq<byte>)
    requires Mask(w) == SPAN && |body| == 8 * n
    ensures Unpacked([SPAN] + w + [n] + body + q, NEUTRAL) == w + body + Unpacked(q, NEUTRAL)
  {
    var p := [SPAN] + w + [n] + body + q;
    var after := [n] + body + q;
    hide Mask, Zeros, NonZeros, Unpacked, Expand, Weight;
    MaskFacts(w);
    ZerosAtMost(w);
    ExpandsBack(w, after);
    assert Power(8) == 256;
    hide Power;
    assert p[1..] == w + after;
    assert Skip(p[1..], 8) == after;
    UnpackedStep(p, NEUTRAL);
    assert after[1..] == body + q;
    assert Take(after[1..], Bytes(n)) == body && Skip(after[1..], Bytes(n)) == q;
    UnpackedStep(after, SPAN);
    Associates(w, body, Unpacked(q, NEUTRAL));
  }

  /** Reading any other tag and its word. */
  lemma ReadPlain(w: Word, q: seq<byte>)
    requires Mask(w) != ZERO && Mask(w) != SPAN
    ensures Mask(w) < 256
    ensures Unpacked([Mask(w)] + NonZeros(w) + q, NEUTRAL) == w + Unpacked(q, NEUTRAL)
  {
    hide Mask, Zeros, NonZeros, Unpacked, Expand, Weight;
    MaskFacts(w);
    assert Power(8) == 256;
    hide Power;
    var tag, kept := Mask(w), NonZeros(w);
    var p := [tag] + kept + q;
    Associates([tag], kept, q);
    ExpandsBack(w, q);
    UnpackedStep(p, NEUTRAL);
    assert Skip(kept + q, |kept|) == q;
    PlainTagIsNeutral(q, tag);
  }

  /** Whatever follows a packed message is read as if it stood alone: packing always leaves the
      unpacker neutral. */
  lemma {:induction false} UnpackedOfPacked(words: seq<Word>, q: seq<byte>)
    ensures Unpacked(Packed(words) + q, NEUTRAL) == Flatten(words) + Unpacked(q, NEUTRAL)
    decreases |words|
  {
    if words == [] {
      assert Packed(words) + q == q;
    } else {
      var w, rest := words[0], words[1..];
      if Mask(w) == ZERO {
        ZeroWordsBack(words, q);
      } else if Mask(w) == SPAN {
        SpanWordsBack(words, q);
      } else {
        PlainWordBack(words, q);
      }
    }
  }

  lemma PlainWordBack(words: seq<Word>, q: seq<byte>)
    requires words != [] && Mask(words[0]) != ZERO && Mask(words[0]) != SPAN
    ensures Unpacked(Packed(words) + q, NEUTRAL) == Flatten(words) + Unpacked(q, NEUTRAL)
    decreases |words|, 0
  {
    var w, rest := words[0], words[1..];
    var packed, plain := Packed(rest), Flatten(rest);
    ReadPlain(w, packed + q);
    assert Packed(words) == [Mask(w)] + NonZeros(w) + packed;
    hide Packed, Flatten, Unpacked, Mask, NonZeros;
    UnpackedOfPacked(rest, q);
    Associates([Mask(w)] + NonZeros(w), packed, q);
    Associates(w, plain, Unpacked(q, NEUTRAL));
  }

  lemma ZeroWordIsBlank(w: Word)
    requires Mask(w) == ZERO
    ensures w == Blank(8)
  {
    MaskFacts(w);
    AllZeros(w);
  }

  lemma BlankAppend(m: nat, n: nat)
    ensures Blank(m) + Blank(n) == Blank(m + n)
  {
  }

  lemma ZeroWords(words: seq<Word>)
    requires words != [] && Mask(words[0]) == ZERO
    ensures var n := ZeroRun(words[1..], MAX_RUN);
      Flatten(words) == Blank(8 + 8 * n) + Flatten(words[1..][n..])
  {
    hide Mask, ZeroRun;
    var rest := words[1..];
    var n := ZeroRun(rest, MAX_RUN);
    ZeroWordIsBlank(words[0]);
    ZeroRunIsBlank(rest, MAX_RUN);
    FlattenSplit(rest, n);
    BlankAppend(8, 8 * n);
    Associates(Blank(8), Blank(8 * n), Flatten(rest[n..]));
  }

  lemma PackedZeros(words: seq<Word>)
    requires words != [] && Mask(words[0]) == ZERO
    ensures var n := ZeroRun(words[1..], MAX_RUN);
      Packed(words) == [ZERO, n] + Packed(words[1..][n..])
  {
  }

  lemma ZeroWordsBack(words: seq<Word>, q: seq<byte>)
    requires words != [] && Mask(words[0]) == ZERO
    ensures Unpacked(Packed(words) + q, NEUTRAL) == Flatten(words) + Unpacked(q, NEUTRAL)
    decreases |words|, 0
  {
    hide Packed, Flatten, Unpacked, Mask, ZeroRun, Blank;
    var rest := words[1..];
    var n := ZeroRun(rest, MAX_RUN);
    var packed, plain := Packed(rest[n..]), Flatten(rest[n..]);
    PackedZeros(words);
    ZeroWords(words);
    UnpackedOfPacked(rest[n..], q);
    ReadZeros(n, packed + q);
    Associates([ZERO, n], packed, q);
    Associates(Blank(8 + 8 * n), plain, Unpacked(q, NEUTRAL));
  }

  lemma SpanWordsBack(words: seq<Word>, q: seq<byte>)
    requires words != [] && Mask(words[0]) == SPAN
    ensures Unpacked(Packed(words) + q, NEUTRAL) == Flatten(words) + Unpacked(q, NEUTRAL)
    decreases |words|, 0
  {
    var w, rest := words[0], words[1..];
    var n := DenseRun(rest, MAX_RUN);
    var body, packed, plain := Flatten(rest[..n]), Packed(rest[n..]), Flatten(rest[n..]);
    FlattenSplit(rest, n);
    assert Packed(words) == [SPAN] + w + [n] + body + packed;
    assert Flatten(words) == w + (body + plain);
    hide Packed, Flatten, Unpacked, Mask, DenseRun;
    UnpackedOfPacked(rest[n..], q);
    ReadSpan(w, n, body, packed + q);
    Associates([SPAN] + w + [n] + body, packed, q);
    Associates(w, body, plain);
    Associates(w + body, plain, Unpacked(q, NEUTRAL));
  }

  // ---------------------------------------------------------------------------------------------
  // On bytes

  function Words(bytes: seq<byte>): (words: seq<Word>)
    requires |bytes| % 8 == 0
    ensures |words| == |bytes| / 8
  {
    if bytes == [] then [] else [bytes[..8]] + Words(bytes[8..])
  }

  lemma {:induction false} FlattenWords(bytes: seq<byte>)
    requires |bytes| % 8 == 0
    ensures Flatten(Words(bytes)) == bytes
  {
    if bytes != [] {
      FlattenWords(bytes[8..]);
      assert Words(bytes)[1..] == Words(bytes[8..]);
    }
  }

  lemma SliceOfDrop<T>(s: seq<T>, n: nat, i: nat, j: nat)
    requires n + j <= |s| && i <= j
    ensures s[n..][i..j] == s[n + i..n + j]
  {
  }

  lemma {:induction false} WordAt(bytes: seq<byte>, i: nat)
    requires |bytes| % 8 == 0 && 8 * i < |bytes|
    ensures Words(bytes)[i] == bytes[8 * i..8 * i + 8]
  {
    if i > 0 {
      WordAt(bytes[8..], i - 1);
      SliceOfDrop(bytes, 8, 8 * (i - 1), 8 * (i - 1) + 8);
    }
  }

  function PackBytes(bytes: seq<byte>): seq<byte>
    requires |bytes| % 8 == 0
  {
    Packed(Words(bytes))
  }

  function UnpackBytes(packed: seq<byte>): seq<byte> {
    Unpacked(packed, NEUTRAL)
  }

  /** Packing piece by piece and joining the pieces unpacks to the pieces joined. */
  lemma UnpackOfPackedThen(a: seq<byte>, q: seq<byte>)
    requires |a| % 8 == 0
    ensures UnpackBytes(PackBytes(a) + q) == a + UnpackBytes(q)
  {
    UnpackedOfPacked(Words(a), q);
    FlattenWords(a);
  }

  lemma RoundTrip(a: seq<byte>, b: seq<byte>)
    requires |a| % 8 == 0 && |b| % 8 == 0
    ensures UnpackBytes(PackBytes(a) + PackBytes(b)) == a + b
    ensures UnpackBytes(PackBytes(a)) == a
  {
    UnpackOfPackedThen(a, PackBytes(b));
    UnpackOfPackedThen(b, []);
    UnpackOfPackedThen(a, []);
    assert PackBytes(b) + [] == PackBytes(b) && PackBytes(a) + [] == PackBytes(a);
    assert UnpackBytes([]) == [];
  }

  // ---------------------------------------------------------------------------------------------
  // The size of the packed form

  lemma {:induction false} DenseRunEnds(words: seq<Word>, most: nat)
    ensures var n := DenseRun(words, most);
      n < most && n < |words| ==> Zeros(words[n]) >= PACK_SPAN_THRESHOLD
    decreases |words|
  {
    if DenseRun(words, most) > 0 {
      DenseRunEnds(words[1..], most - 1);
    }
  }

  /** A span word may cost one and a half bytes that the words before it did not pay for; a word that
      ends a span gives them back. */
  lemma {:induction false} PackedIsShort(words: seq<Word>)
    ensures 2 * |Packed(words)| <= 17 * |words| + 3
    ensures words == [] || Zeros(words[0]) >= PACK_SPAN_THRESHOLD ==> 2 * |Packed(words)| <= 17 * |words|
    decreases |words|
  {
    if words != [] {
      var w, rest := words[0], words[1..];
      MaskFacts(w);
      assert Power(8) == 256;
      if Mask(w) == ZERO {
        PackedIsShort(rest[ZeroRun(rest, MAX_RUN)..]);
      } else if Mask(w) == SPAN {
        var n := DenseRun(rest, MAX_RUN);
        FlattenSplit(rest, n);
        DenseRunEnds(rest, MAX_RUN);
        PackedIsShort(rest[n..]);
      } else {
        PackedIsShort(rest);
      }
    }
  }

  /** A dense word, then a word with exactly two zero bytes, over and over, and a last dense word. */
  function Alternating(k: nat): seq<Word> {
    if k == 0 then [DENSE] else [DENSE, LOOSE] + Alternating(k - 1)
  }

  const DENSE: Word := [1, 1, 1, 1, 1, 1, 1, 1]
  const LOOSE: Word := [1, 1, 1, 1, 1, 1, 0, 0]

  lemma DenseAndLoose()
    ensures Mask(DENSE) == SPAN
    ensures Mask(LOOSE) == 0x3f && Zeros(LOOSE) == 2 && |NonZeros(LOOSE)| == 6
  {
    MaskOfEight(1, 1, 1, 1, 1, 1, 1, 1);
    MaskOfEight(1, 1, 1, 1, 1, 1, 0, 0);
    ZerosOfEight(1, 1, 1, 1, 1, 1, 0, 0);
    MaskFacts(LOOSE);
  }

  /** The packed length of a dense word before one that ends its span, and of that word. */
  lemma DenseThenLoose(after: seq<Word>)
    ensures |Packed([DENSE, LOOSE] + after)| == 17 + |Packed(after)|
    ensures |Packed([DENSE])| == 10
  {
    hide Mask, Zeros, NonZeros;
    DenseAndLoose();
    var tail, words := [LOOSE] + after, [DENSE, LOOSE] + after;
    assert tail[0] == LOOSE && tail[1..] == after && words[1..] == tail && [DENSE][1..] == [];
    assert |Packed(tail)| == 7 + |Packed(after)|;
    assert DenseRun(tail, MAX_RUN) == 0 && tail[0..] == tail && tail[..0] == [];
  }

  lemma {:induction false} AlternatingCosts(k: nat)
    ensures |Alternating(k)| == 2 * k + 1
    ensures |Packed(Alternating(k))| == 17 * k + 10
  {
    hide Packed;
    if k == 0 {
      DenseThenLoose([]);
    } else {
      AlternatingCosts(k - 1);
      DenseThenLoose(Alternating(k - 1));
    }
  }

  /** The bound is attained by inputs of every odd length: the overhead grows with the input, half a
      byte for every word, and not two bytes for every 256 words. */
  lemma BoundIsAttained(k: nat)
    ensures 2 * |Packed(Alternating(k))| == 17 * |Alternating(k)| + 3
  {
    AlternatingCosts(k);
  }

  /** How many runs of up to 256 words so many words take. */
  function Runs(k: nat): nat {
    (k + 255) / 256
  }

  lemma RunsStep(k: nat, n: nat)
    requires k > 0 && n == (if k - 1 <= MAX_RUN then k - 1 else MAX_RUN)
    ensures Runs(0) == 0 && Runs(k) == 1 + Runs(k - 1 - n)
  {
  }

  /** Every word has so many zero bytes. */
  predicate Each(words: seq<Word>, zeros: nat) {
    forall w :: w in words ==> Zeros(w) == zeros
  }

  lemma EachLater(words: seq<Word>, zeros: nat, n: nat)
    requires Each(words, zeros) && 1 + n <= |words|
    ensures |words[1..][n..]| == |words| - 1 - n && Each(words[1..][n..], zeros)
    ensures Zeros(words[0]) == zeros && forall j :: 0 <= j < n ==> Zeros(words[1..][j]) == zeros
  {
    hide Zeros;
    assert forall j :: 0 <= j < n ==> words[1..][j] in words;
  }

  function RunLength(k: nat): nat
    requires k > 0
  {
    if k - 1 <= MAX_RUN then k - 1 else MAX_RUN
  }

  lemma AllZeroRun(words: seq<Word>)
    requires words != [] && Each(words, 8)
    ensures Mask(words[0]) == ZERO && ZeroRun(words[1..], MAX_RUN) == RunLength(|words|)
  {
    var n := RunLength(|words|);
    hide Mask, Zeros, ZeroRun, Each;
    EachLater(words, 8, n);
    MaskFacts(words[0]);
    forall j | 0 <= j < n
      ensures Mask(words[1..][j]) == ZERO
    {
      MaskFacts(words[1..][j]);
    }
    ZeroRunIs(words[1..], MAX_RUN, n);
  }

  /** Zero words take two bytes for every 256 of them, or part of that. */
  lemma {:induction false} ZerosPackToRuns(words: seq<Word>)
    requires Each(words, 8)
    ensures |Packed(words)| == 2 * Runs(|words|)
    decreases |words|
  {
    if words == [] {
      RunsStep(1, 0);
    } else {
      hide Mask, Zeros, Packed, Runs, ZeroRun, Each;
      var n := RunLength(|words|);
      AllZeroRun(words);
      EachLater(words, 8, n);
      PackedZeros(words);
      ZerosPackToRuns(words[1..][n..]);
      RunsStep(|words|, n);
    }
  }

  lemma AllDenseRun(words: seq<Word>)
    requires words != [] && Each(words, 0)
    ensures Mask(words[0]) == SPAN && DenseRun(words[1..], MAX_RUN) == RunLength(|words|)
  {
    var n := RunLength(|words|);
    hide Mask, Zeros, DenseRun, Each;
    EachLater(words, 0, n);
    MaskFacts(words[0]);
    assert Power(8) == 256;
    DenseRunIs(words[1..], MAX_RUN, n);
  }

  /** Words without a zero byte grow by two bytes for every 256 of them, or part of that. */
  lemma {:induction false} DenseGrowsByRuns(words: seq<Word>)
    requires Each(words, 0)
    ensures |Packed(words)| == 8 * |words| + 2 * Runs(|words|)
    decreases |words|
  {
    if words == [] {
      RunsStep(1, 0);
    } else {
      hide Mask, Zeros, Packed, Runs, DenseRun, Each;
      var n := RunLength(|words|);
      AllDenseRun(words);
      EachLater(words, 0, n);
      PackedDense(words, n);
      DenseGrowsByRuns(words[1..][n..]);
      RunsStep(|words|, n);
    }
  }

  lemma PackedDense(words: seq<Word>, n: nat)
    requires words != [] && Mask(words[0]) == SPAN && n == DenseRun(words[1..], MAX_RUN)
    ensures |Packed(words)| == 10 + 8 * n + |Packed(words[1..][n..])|
  {
    FlattenSplit(words[1..], n);
    hide Flatten, DenseRun, Mask;
  }

  // ---------------------------------------------------------------------------------------------
  // The loops

  /** After `i` words: everything before word `k` is packed in `done`, and words `k` to `i` are the run
      that `lastTag` and `count` describe. */
  ghost predicate Underway(words: seq<Word>, i: nat, k: nat, done: seq<byte>,
                           dst: seq<byte>, lastTag: byte, count: nat, offset: nat) {
    && k <= i <= |words|
    && Packed(words) == done + Packed(words[k..])
    && (lastTag == ZERO ==>
          && k < i && Mask(words[k]) == ZERO
          && count == i - k - 1 <= MAX_RUN
          && dst == done + [ZERO]
          && (forall j :: k < j < i ==> Mask(words[j]) == ZERO))
    && (lastTag == SPAN ==>
          && k < i && Mask(words[k]) == SPAN
          && count == i - k - 1 <= MAX_RUN
          && offset == |done| + 9
          && dst == done + [SPAN] + words[k] + [0] + Flatten(words[k + 1..i])
          && (forall j :: k < j < i ==> Zeros(words[j]) < PACK_SPAN_THRESHOLD))
    && (lastTag != ZERO && lastTag != SPAN ==> k == i && dst == done)
  }

  lemma {:induction false} ZeroRunIs(words: seq<Word>, most: nat, n: nat)
    requires n <= |words| && n <= most
    requires forall j :: 0 <= j < n ==> Mask(words[j]) == ZERO
    requires n == most || n == |words| || Mask(words[n]) != ZERO
    ensures ZeroRun(words, most) == n
  {
    if n > 0 {
      ZeroRunIs(words[1..], most - 1, n - 1);
    }
  }

  lemma {:induction false} DenseRunIs(words: seq<Word>, most: nat, n: nat)
    requires n <= |words| && n <= most
    requires forall j :: 0 <= j < n ==> Zeros(words[j]) < PACK_SPAN_THRESHOLD
    requires n == most || n == |words| || Zeros(words[n]) >= PACK_SPAN_THRESHOLD
    ensures DenseRun(words, most) == n
  {
    if n > 0 {
      DenseRunIs(words[1..], most - 1, n - 1);
    }
  }

  lemma CloseZeros(words: seq<Word>, i: nat, k: nat, done: seq<byte>, dst: seq<byte>, count: nat, offset: nat)
    requires Underway(words, i, k, done, dst, ZERO, count, offset)
    requires count == MAX_RUN || i == |words| || Mask(words[i]) != ZERO
    ensures Underway(words, i, i, dst + [count], dst + [count], NEUTRAL, 0, offset)
  {
    hide Mask, Zeros, NonZeros, Packed, Flatten, ZeroRun, DenseRun;
    var from := words[k..];
    assert from[0] == words[k] && from[1..] == words[k + 1..] && from[1..][count..] == words[i..];
    forall j | 0 <= j < count
      ensures Mask(from[1..][j]) == ZERO
    {
      assert from[1..][j] == words[k + 1 + j];
    }
    ZeroRunIs(from[1..], MAX_RUN, count);
    PackedZeros(from);
    assert dst + [count] + Packed(words[i..]) == done + ([ZERO, count] + Packed(words[i..]));
  }

  lemma PackedPlain(words: seq<Word>)
    requires words != [] && Mask(words[0]) != ZERO && Mask(words[0]) != SPAN && Mask(words[0]) < 256
    ensures Packed(words) == [Mask(words[0])] + NonZeros(words[0]) + Packed(words[1..])
  {
  }

  lemma PackedSpan(words: seq<Word>)
    requires words != [] && Mask(words[0]) == SPAN
    ensures var n := DenseRun(words[1..], MAX_RUN);
      Packed(words) == [SPAN] + words[0] + [n] + Flatten(words[1..][..n]) + Packed(words[1..][n..])
  {
  }

  lemma CloseSpan(words: seq<Word>, i: nat, k: nat, done: seq<byte>, dst: seq<byte>, count: nat, offset: nat)
    requires Underway(words, i, k, done, dst, SPAN, count, offset)
    requires count == MAX_RUN || i == |words| || Zeros(words[i]) >= PACK_SPAN_THRESHOLD
    ensures offset < |dst|
    ensures Underway(words, i, i, dst[offset := count], dst[offset := count], NEUTRAL, 0, offset)
  {
    hide Mask, Zeros, NonZeros, Packed, Flatten, ZeroRun, DenseRun;
    var from := words[k..];
    assert from[0] == words[k] && from[1..] == words[k + 1..];
    assert from[1..][count..] == words[i..] && from[1..][..count] == words[k + 1..i];
    forall j | 0 <= j < count
      ensures Zeros(from[1..][j]) < PACK_SPAN_THRESHOLD
    {
      assert from[1..][j] == words[k + 1 + j];
    }
    DenseRunIs(from[1..], MAX_RUN, count);
    PackedSpan(from);
    var body := Flatten(words[k + 1..i]);
    assert dst[offset := count] == done + [SPAN] + words[k] + [count] + body;
    assert dst[offset := count] + Packed(words[i..])
        == done + ([SPAN] + words[k] + [count] + body + Packed(words[i..]));
  }

  lemma TailFrom(words: seq<Word>, i: nat)
    requires i < |words|
    ensures words[i..] != [] && words[i..][0] == words[i] && words[i..][1..] == words[i + 1..]
  {
  }

  /** Writing a zero word's tag opens a run of zeros. */
  lemma OpenZeros(words: seq<Word>, i: nat, dst: seq<byte>, offset: nat)
    requires i < |words| && Mask(words[i]) == ZERO
    requires Underway(words, i, i, dst, dst, NEUTRAL, 0, offset)
    ensures Underway(words, i + 1, i, dst, dst + [ZERO], ZERO, 0, offset)
    ensures NonZeros(words[i]) == []
  {
    MaskFacts(words[i]);
    hide Mask, Zeros, NonZeros, Packed, Flatten;
  }

  /** Writing a dense word with its tag and leaving room for the count opens a span. */
  lemma OpenSpan(words: seq<Word>, i: nat, dst: seq<byte>, offset: nat)
    requires i < |words| && Mask(words[i]) == SPAN
    requires Underway(words, i, i, dst, dst, NEUTRAL, 0, offset)
    ensures NonZeros(words[i]) == words[i]
    ensures Underway(words, i + 1, i, dst, dst + [SPAN] + words[i] + [0], SPAN, 0, |dst| + 9)
  {
    MaskFacts(words[i]);
    ZerosAtMost(words[i]);
    assert Power(8) == 256;
    assert words[i + 1..i + 1] == [] && Flatten([]) == [];
    hide Mask, Zeros, NonZeros, Packed, Flatten, Power;
  }

  /** Any other word is written with its tag, and nothing is open. */
  lemma OpenPlain(words: seq<Word>, i: nat, dst: seq<byte>, offset: nat)
    requires i < |words| && Mask(words[i]) != ZERO && Mask(words[i]) != SPAN && Mask(words[i]) < 256
    requires Underway(words, i, i, dst, dst, NEUTRAL, 0, offset)
    ensures var d := dst + [Mask(words[i])] + NonZeros(words[i]);
      Underway(words, i + 1, i + 1, d, d, Mask(words[i]), 0, offset)
  {
    hide Mask, Zeros, NonZeros, Packed, Flatten;
    TailFrom(words, i);
    PackedPlain(words[i..]);
    var tag, plain, packed := Mask(words[i]), NonZeros(words[i]), Packed(words[i + 1..]);
    assert dst + ([tag] + plain + packed) == dst + [tag] + plain + packed;
  }

  lemma CountZero(words: seq<Word>, i: nat, k: nat, done: seq<byte>, dst: seq<byte>, count: nat, offset: nat)
    requires Underway(words, i, k, done, dst, ZERO, count, offset)
    requires i < |words| && count < MAX_RUN && Mask(words[i]) == ZERO
    ensures Underway(words, i + 1, k, done, dst, ZERO, count + 1, offset)
  {
    hide Mask, Zeros, Packed, Flatten;
  }

  lemma CountDense(words: seq<Word>, i: nat, k: nat, done: seq<byte>, dst: seq<byte>, count: nat, offset: nat)
    requires Underway(words, i, k, done, dst, SPAN, count, offset)
    requires i < |words| && count < MAX_RUN && Zeros(words[i]) < PACK_SPAN_THRESHOLD
    ensures Underway(words, i + 1, k, done, dst + words[i], SPAN, count + 1, offset)
  {
    hide Mask, Zeros, Packed;
    var body, more := words[k + 1..i], words[k + 1..i + 1];
    FlattenSplit(more, |body|);
    assert more[..|body|] == body && more[|body|..] == [words[i]];
    assert Flatten([words[i]]) == words[i] + Flatten([]);
    assert Flatten(more) == Flatten(body) + words[i];
  }

  /** Pack the given stretch of a buffer; None stands for the error that the buffer is not word
      aligned. */
  method Pack(unpacked: seq<byte>, byteOffset: nat, byteLength: nat) returns (packed: Option<seq<byte>>)
    requires byteOffset + byteLength <= |unpacked| && byteLength % 8 == 0
    ensures packed ==
      if |unpacked| % 8 != 0 then None else Some(PackBytes(unpacked[byteOffset..byteOffset + byteLength]))
  {
    hide Mask, Zeros, NonZeros, Packed, Flatten, Underway;
    if |unpacked| % 8 != 0 {
      return None;
    }
    var src := unpacked[byteOffset..byteOffset + byteLength];
    ghost var words := Words(src);
    var dst: seq<byte> := [];
    var lastTag: byte := NEUTRAL;
    var spanWordCountOffset: nat, rangeWordCount: nat := 0, 0;
    var i := 0;
    ghost var k, done := 0, dst;
    StartPacking(words);
    while 8 * i < |src|
      invariant 8 * i <= |src|
      invariant Underway(words, i, k, done, dst, lastTag, rangeWordCount, spanWordCountOffset)
      decreases |src| - 8 * i
    {
      WordAt(src, i);
      var w: Word := src[8 * i..8 * i + 8];
      assert w == [w[0], w[1], w[2], w[3], w[4], w[5], w[6], w[7]];
      var tag := GetTagByte(w[0], w[1], w[2], w[3], w[4], w[5], w[6], w[7]);
      var skipWriteWord := true;
      UnderwayBounds(words, i, k, done, dst, lastTag, rangeWordCount, spanWordCountOffset);
      if lastTag == ZERO {
        if tag != ZERO || rangeWordCount >= 0xff {
          CloseZeros(words, i, k, done, dst, rangeWordCount, spanWordCountOffset);
          dst := dst + [rangeWordCount];
          rangeWordCount := 0;
          skipWriteWord := false;
        } else {
          CountZero(words, i, k, done, dst, rangeWordCount, spanWordCountOffset);
          rangeWordCount := rangeWordCount + 1;
        }
      } else if lastTag == SPAN {
        var zeroCount := GetZeroByteCount(w[0], w[1], w[2], w[3], w[4], w[5], w[6], w[7]);
        if zeroCount >= PACK_SPAN_THRESHOLD || rangeWordCount >= 0xff {
          CloseSpan(words, i, k, done, dst, rangeWordCount, spanWordCountOffset);
          dst := dst[spanWordCountOffset := rangeWordCount];
          rangeWordCount := 0;
          skipWriteWord := false;
        } else {
          CountDense(words, i, k, done, dst, rangeWordCount, spanWordCountOffset);
          dst := dst + w;
          rangeWordCount := rangeWordCount + 1;
        }
      } else {
        NeutralIsClosed(words, i, k, done, dst, lastTag, rangeWordCount, spanWordCountOffset);
        skipWriteWord := false;
        rangeWordCount := 0;
      }
      if !skipWriteWord {
        k, done := i, dst;
        dst := dst + [tag];
        lastTag := tag;
        dst := PushNonZeros(dst, w);
        if tag == SPAN {
          OpenSpan(words, i, done, spanWordCountOffset);
          spanWordCountOffset := |dst|;
          dst := dst + [0];
        } else if tag == ZERO {
          OpenZeros(words, i, done, spanWordCountOffset);
          assert dst == done + [ZERO];
        } else {
          OpenPlain(words, i, done, spanWordCountOffset);
          k, done := i + 1, dst;
        }
      }
      i := i + 1;
    }
    if lastTag == ZERO {
      UnderwayBounds(words, i, k, done, dst, lastTag, rangeWordCount, spanWordCountOffset);
      CloseZeros(words, i, k, done, dst, rangeWordCount, spanWordCountOffset);
      dst := dst + [rangeWordCount];
    } else if lastTag == SPAN {
      UnderwayBounds(words, i, k, done, dst, lastTag, rangeWordCount, spanWordCountOffset);
      CloseSpan(words, i, k, done, dst, rangeWordCount, spanWordCountOffset);
      dst := dst[spanWordCountOffset := rangeWordCount];
    } else {
      NeutralIsClosed(words, i, k, done, dst, lastTag, rangeWordCount, spanWordCountOffset);
    }
    FinishPacking(words, dst, spanWordCountOffset);
    packed := Some(dst);
  }

  lemma StartPacking(words: seq<Word>)
    ensures Underway(words, 0, 0, [], [], NEUTRAL, 0, 0)
  {
    assert words[0..] == words;
  }

  lemma FinishPacking(words: seq<Word>, dst: seq<byte>, offset: nat)
    requires Underway(words, |words|, |words|, dst, dst, NEUTRAL, 0, offset)
    ensures dst == Packed(words)
  {
    assert Packed(words[|words|..]) == [];
  }

  lemma UnderwayBounds(words: seq<Word>, i: nat, k: nat, done: seq<byte>, dst: seq<byte>, lastTag: byte, count: nat, offset: nat)
    requires Underway(words, i, k, done, dst, lastTag, count, offset)
    ensures lastTag == ZERO || lastTag == SPAN ==> count <= MAX_RUN
    ensures lastTag == SPAN ==> offset < |dst|
  {
  }

  lemma NeutralIsClosed(words: seq<Word>, i: nat, k: nat, done: seq<byte>, dst: seq<byte>, lastTag: byte, count: nat, offset: nat)
    requires Underway(words, i, k, done, dst, lastTag, count, offset) && lastTag != ZERO && lastTag != SPAN
    ensures Underway(words, i, i, dst, dst, NEUTRAL, 0, offset)
  {
  }

  /** Push the nonzero bytes of a word, in order. */
  method PushNonZeros(dst: seq<byte>, w: Word) returns (r: seq<byte>)
    ensures r == dst + NonZeros(w)
  {
    r := dst;
    var j := 0;
    while j < 8
      invariant 0 <= j <= 8
      invariant r + NonZeros(w[j..]) == dst + NonZeros(w)
    {
      assert w[j..][1..] == w[j + 1..];
      if w[j] != 0 {
        r := r + [w[j]];
      }
      j := j + 1;
    }
    assert NonZeros(w[8..]) == [];
  }

  lemma WordsStep(p: seq<byte>, lastTag: byte)
    requires p != []
    ensures UnpackedWords(p, lastTag)
         == (if lastTag == ZERO || lastTag == SPAN then p[0] else 1) + UnpackedWords(After(p, lastTag), NextTag(p, lastTag))
  {
  }

  /** Where the cursor goes from position `i`. */
  function Cursor(packed: seq<byte>, i: nat, lastTag: byte): nat
    requires i < |packed|
  {
    if lastTag == ZERO then i + 1
    else if lastTag == SPAN then i + 1 + Bytes(packed[i])
    else i + 1 + Weight(packed[i])
  }

  lemma CursorIsAfter(packed: seq<byte>, i: nat, lastTag: byte)
    requires i < |packed|
    ensures Skip(packed, i) != [] && Skip(packed, i)[0] == packed[i]
    ensures After(Skip(packed, i), lastTag) == Skip(packed, Cursor(packed, i, lastTag))
  {
    SkipFirst(packed, i);
    SkipTwice(packed, i + 1, Bytes(packed[i]));
    SkipTwice(packed, i + 1, Weight(packed[i]));
  }

  /** The length of what a packed buffer unpacks to. */
  method GetUnpackedByteLength(packed: seq<byte>) returns (length: nat)
    ensures length == |UnpackBytes(packed)|
  {
    hide Weight, Unpacked, UnpackedWords, Skip, After;
    var wordCount: nat := 0;
    var lastTag: byte := NEUTRAL;
    var i: nat := 0;
    SkipNone(packed);
    while i < |packed|
      invariant wordCount + UnpackedWords(Skip(packed, i), lastTag) == UnpackedWords(packed, NEUTRAL)
      decreases if i < |packed| then |packed| - i else 0
    {
      var tag: nat := packed[i];
      CursorIsAfter(packed, i, lastTag);
      WordsStep(Skip(packed, i), lastTag);
      if lastTag == ZERO {
        wordCount := wordCount + tag;
        i := i + 1;
        lastTag := NEUTRAL;
      } else if lastTag == SPAN {
        wordCount := wordCount + tag;
        i := i + tag * 8 + 1;
        lastTag := NEUTRAL;
      } else {
        wordCount := wordCount + 1;
        var weight := GetHammingWeight(tag);
        i := i + weight + 1;
        lastTag := tag;
      }
    }
    SkipAll(packed, i);
    NoWords(lastTag);
    LengthIsMeasured(packed, NEUTRAL);
    length := wordCount * 8;
  }

  lemma NoWords(lastTag: byte)
    ensures UnpackedWords([], lastTag) == 0
  {
  }

  lemma SkipTwice(s: seq<byte>, i: nat, n: nat)
    ensures Skip(Skip(s, i), n) == Skip(s, i + n)
  {
  }

  /** Unpack any byte string, malformed ones included, into a buffer of the measured length.  Nothing is
      written past its end, and the output cursor ends there. */
  method Unpack(packed: seq<byte>) returns (dst: array<byte>)
    ensures fresh(dst) && dst[..] == UnpackBytes(packed)
  {
    hide Weight, Unpacked, Expand, Skip, Take, After, Filled;
    var length := GetUnpackedByteLength(packed);
    dst := new byte[length](_ => 0);
    var lastTag: byte := NEUTRAL;
    var s: nat, d: nat := 0, 0;
    ghost var out: seq<byte> := [];
    SkipNone(packed);
    NothingFilled(dst);
    while s < |packed|
      invariant Filled(dst, d, out)
      invariant out + Unpacked(Skip(packed, s), lastTag) == UnpackBytes(packed)
      decreases if s < |packed| then |packed| - s else 0
    {
      var tag: nat := packed[s];
      SkipFirst(packed, s);
      CursorIsAfter(packed, s, lastTag);
      ghost var piece := Piece(Skip(packed, s), lastTag);
      UnpackedStep(Skip(packed, s), lastTag);
      Associates(out, piece, Unpacked(After(Skip(packed, s), lastTag), NextTag(Skip(packed, s), lastTag)));
      FilledLength(dst, d, out);
      if lastTag == ZERO {
        SeekAhead(dst, d, out, tag * 8);
        d := d + tag * 8;
        s := s + 1;
        lastTag := NEUTRAL;
      } else if lastTag == SPAN {
        var spanByteLength := tag * 8;
        CopyBytes(packed, s + 1, spanByteLength, dst, d, out);
        d := d + spanByteLength;
        s := s + 1 + spanByteLength;
        lastTag := NEUTRAL;
      } else {
        s := ReadWord(packed, s + 1, tag, dst, d, out);
        d := d + 8;
        lastTag := tag;
      }
      out := out + piece;
    }
    SkipAll(packed, s);
    UnpackedNothing(lastTag);
    assert out + [] == out;
    AllFilled(dst, d, out);
  }

  /** The buffer starts with `out` and is blank behind it. */
  ghost predicate Filled(dst: array<byte>, d: nat, out: seq<byte>)
    reads dst
  {
    d == |out| <= dst.Length && dst[..d] == out && forall k :: d <= k < dst.Length ==> dst[k] == 0
  }

  lemma NothingFilled(dst: array<byte>)
    requires forall k :: 0 <= k < dst.Length ==> dst[k] == 0
    ensures Filled(dst, 0, [])
  {
  }

  lemma FilledLength(dst: array<byte>, d: nat, out: seq<byte>)
    requires Filled(dst, d, out)
    ensures d == |out|
  {
  }

  lemma AllFilled(dst: array<byte>, d: nat, out: seq<byte>)
    requires Filled(dst, d, out) && |out| == dst.Length
    ensures dst[..] == out
  {
  }

  /** Zeros are there already. */
  lemma SeekAhead(dst: array<byte>, d: nat, out: seq<byte>, n: nat)
    requires Filled(dst, d, out) && d + n <= dst.Length
    ensures Filled(dst, d + n, out + Blank(n))
  {
    assert dst[..d + n] == dst[..d] + dst[d..d + n];
  }

  /** What one step of the unpacker puts out, what it leaves, and its next state. */
  function Piece(p: seq<byte>, lastTag: byte): seq<byte>
    requires p != []
  {
    if lastTag == ZERO then Blank(Bytes(p[0]))
    else if lastTag == SPAN then Take(p[1..], Bytes(p[0]))
    else Expand(p[0], p[1..], 8)
  }

  function After(p: seq<byte>, lastTag: byte): seq<byte>
    requires p != []
  {
    if lastTag == ZERO then p[1..]
    else if lastTag == SPAN then Skip(p[1..], Bytes(p[0]))
    else Skip(p[1..], Weight(p[0]))
  }

  function NextTag(p: seq<byte>, lastTag: byte): byte
    requires p != []
  {
    if lastTag == ZERO || lastTag == SPAN then NEUTRAL else p[0]
  }

  lemma UnpackedStep(p: seq<byte>, lastTag: byte)
    requires p != []
    ensures Unpacked(p, lastTag) == Piece(p, lastTag) + Unpacked(After(p, lastTag), NextTag(p, lastTag))
  {
  }

  lemma SkipNone(s: seq<byte>)
    ensures Skip(s, 0) == s && [] + UnpackBytes(s) == UnpackBytes(s)
  {
  }

  lemma SkipFirst(s: seq<byte>, i: nat)
    requires i < |s|
    ensures Skip(s, i) == s[i..] && Skip(s, i) != [] && Skip(s, i)[0] == s[i]
    ensures Skip(s, i)[1..] == Skip(s, i + 1) == s[i + 1..]
  {
  }

  lemma SkipAll(s: seq<byte>, i: nat)
    requires i >= |s|
    ensures Skip(s, i) == []
  {
  }

  lemma UnpackedNothing(lastTag: byte)
    ensures Unpacked([], lastTag) == []
  {
  }

  /** Copy up to `n` bytes of the source, as many as there are. */
  method CopyBytes(src: seq<byte>, from: nat, n: nat, dst: array<byte>, d: nat, ghost out: seq<byte>)
    requires Filled(dst, d, out) && d + n <= dst.Length && from <= |src|
    modifies dst
    ensures Filled(dst, d + n, out + Take(src[from..], n))
  {
    var j := 0;
    while j < n && from + j < |src|
      invariant 0 <= j <= n && from + j <= |src|
      invariant Filled(dst, d + j, out + src[from..from + j])
    {
      dst[d + j] := src[from + j];
      assert dst[..d + j + 1] == dst[..d + j] + [src[from + j]];
      assert src[from..from + j + 1] == src[from..from + j] + [src[from + j]];
      j := j + 1;
    }
    SeekAhead(dst, d + j, out + src[from..from + j], n - j);
    TakenIs(src, from, n, j);
    Associates(out, src[from..from + j], Blank(n - j));
  }

  lemma TakenIs(src: seq<byte>, from: nat, n: nat, j: nat)
    requires from + j <= |src| && j <= n && (j == n || from + j == |src|)
    ensures Take(src[from..], n) == src[from..from + j] + Blank(n - j)
  {
  }

  /** Read the bytes of one word: for each bit of the tag from the lowest on, the next byte of the source
      or zero.  Reading past the end of the source stores zero. */
  method ReadWord(src: seq<byte>, from: nat, tag: nat, dst: array<byte>, d: nat, ghost out: seq<byte>) returns (s: nat)
    requires Filled(dst, d, out) && d + 8 <= dst.Length && tag < 256
    modifies dst
    ensures Filled(dst, d + 8, out + Expand(tag, Skip(src, from), 8))
    ensures s == from + Weight(tag)
  {
    hide Weight, Expand, Skip, Power;
    s := from;
    var bits: nat := tag;
    var j := 0;
    ghost var word: seq<byte> := [];
    TagFits(tag);
    assert out + word == out;
    while j < 8
      invariant 0 <= j <= 8 && |word| == j && bits < Power(8 - j)
      invariant s + Weight(bits) == from + Weight(tag)
      invariant word + Expand(bits, Skip(src, s), 8 - j) == Expand(tag, Skip(src, from), 8)
      invariant Filled(dst, d + j, out + word)
    {
      ExpandBit(bits, src, s, 8 - j);
      ghost var after := Expand(bits / 2, Skip(src, if bits % 2 == 0 then s else s + 1), 8 - (j + 1));
      ghost var next: byte := if bits % 2 == 1 && s < |src| then src[s] else 0;
      Associates(word, [next], after);
      Associates(out, word, [next]);
      if bits % 2 != 0 {
        dst[d + j] := if s < |src| then src[s] else 0;
        s := s + 1;
      }
      assert dst[..d + j + 1] == dst[..d + j] + [next];
      word := word + [next];
      bits := bits / 2;
      j := j + 1;
    }
    NoBits(bits, src, s);
    assert word + [] == word;
  }

  lemma TagFits(tag: nat)
    requires tag < 256
    ensures tag < Power(8)
  {
    assert Power(8) == 256;
  }

  lemma NoBits(bits: nat, src: seq<byte>, s: nat)
    requires bits < Power(0)
    ensures Weight(bits) == 0 && Expand(bits, Skip(src, s), 0) == []
  {
  }

  lemma ExpandBit(bits: nat, src: seq<byte>, s: nat, n: nat)
    requires n > 0 && bits < Power(n)
    ensures bits / 2 < Power(n - 1) && Weight(bits) == bits % 2 + Weight(bits / 2)
    ensures bits % 2 == 0 ==> Expand(bits, Skip(src, s), n) == [0] + Expand(bits / 2, Skip(src, s), n - 1)
    ensures bits % 2 == 1 ==>
      Expand(bits, Skip(src, s), n) == [if s < |src| then src[s] else 0] + Expand(bits / 2, Skip(src, s + 1), n - 1)
  {
    if s < |src| {
      assert src[s..][1..] == src[s + 1..];
    }
  }
}
