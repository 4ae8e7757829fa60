/** WebSocket masking, eight bytes at a time (section 5.3 of RFC 6455). */
module Cipher {
  import opened Bytes

  // ------------------------------------------------------------- exclusive or

  /** Bitwise exclusive or of numbers of any width. */
  function Xor(a: nat, b: nat): nat
    decreases a + b
  {
    if a == 0 && b == 0 then 0 else (a + b) % 2 + 2 * Xor(a / 2, b / 2)
  }

  lemma {:induction false} XorBound(a: nat, b: nat, k: nat)
    requires a < Pow2(k) && b < Pow2(k)
    ensures Xor(a, b) < Pow2(k)
    decreases k
  {
    if k > 0 {
      XorBound(a / 2, b / 2, k - 1);
    }
  }

  lemma {:induction false} XorTwice(a: nat, b: nat)
    ensures Xor(Xor(a, b), b) == a
    decreases a + b
  {
    hide Xor;
    XorNothing();
    if a != 0 || b != 0 {
      XorTwice(a / 2, b / 2);
      XorStep(a / 2, a % 2, b / 2, b % 2);
      XorStep(Xor(a / 2, b / 2), (a % 2 + b % 2) % 2, b / 2, b % 2);
    }
  }

  /** `v << k` */
  function Shift(v: nat, k: nat): nat {
    if k == 0 then v else 2 * Shift(v, k - 1)
  }

  /** The low `k` bits and the rest are combined independently. */
  lemma {:induction false} XorSplit(low1: nat, high1: nat, low2: nat, high2: nat, k: nat)
    requires low1 < Pow2(k) && low2 < Pow2(k)
    ensures Xor(low1 + Shift(high1, k), low2 + Shift(high2, k)) == Xor(low1, low2) + Shift(Xor(high1, high2), k)
    decreases k
  {
    hide Xor;
    XorNothing();
    if k > 0 {
      XorSplit(low1 / 2, high1, low2 / 2, high2, k - 1);
      XorStep(low1 / 2 + Shift(high1, k - 1), low1 % 2, low2 / 2 + Shift(high2, k - 1), low2 % 2);
      XorStep(low1 / 2, low1 % 2, low2 / 2, low2 % 2);
    }
  }

  lemma {:induction false} ShiftIsMul(v: nat, k: nat)
    ensures Shift(v, k) == Pow2(k) * v
  {
    if k > 0 {
      ShiftIsMul(v, k - 1);
      assert Pow2(k) * v == 2 * (Pow2(k - 1) * v);
    }
  }

  lemma XorNothing()
    ensures Xor(0, 0) == 0
  {
  }

  lemma XorStep(a: nat, bit1: nat, b: nat, bit2: nat)
    requires bit1 < 2 && bit2 < 2
    ensures Xor(2 * a + bit1, 2 * b + bit2) == (bit1 + bit2) % 2 + 2 * Xor(a, b)
  {
    assert (2 * a + bit1) / 2 == a && (2 * b + bit2) / 2 == b;
    assert (2 * a + bit1 + 2 * b + bit2) % 2 == (bit1 + bit2) % 2;
  }

  lemma Pow2Of8()
    ensures Pow2(8) == 256
  {
    assert Pow2(4) == 16;
  }

  function XorByte(a: byte, b: byte): byte {
    Pow2Of8();
    XorBound(a, b, 8);
    Xor(a, b)
  }

  /** Byte by byte. */
  function XorBytes(a: seq<byte>, b: seq<byte>): seq<byte>
    requires |a| == |b|
  {
    seq(|a|, i requires 0 <= i < |a| => XorByte(a[i], b[i]))
  }

  // -------------------------------------------------------------------- words

  /** The number whose bytes, lowest first, are `bs`. */
  function Number(bs: seq<byte>): nat {
    if bs == [] then 0 else bs[0] + 256 * Number(bs[1..])
  }

  /** The lowest `n` bytes of a number, lowest first. */
  function Digits(v: nat, n: nat): (bs: seq<byte>)
    ensures |bs| == n
  {
    if n == 0 then [] else [v % 256] + Digits(v / 256, n - 1)
  }

  lemma {:induction false} DigitsOfNumber(bs: seq<byte>)
    ensures Digits(Number(bs), |bs|) == bs
  {
    if bs != [] {
      DigitsOfNumber(bs[1..]);
      assert Number(bs) % 256 == bs[0] && Number(bs) / 256 == Number(bs[1..]);
    }
  }

  /** Exclusive or of words is exclusive or of their bytes. */
  lemma {:induction false} NumberXor(a: seq<byte>, b: seq<byte>)
    requires |a| == |b|
    ensures Xor(Number(a), Number(b)) == Number(XorBytes(a, b))
  {
    hide Xor, Shift, Pow2;
    XorNothing();
    if a != [] {
      NumberXor(a[1..], b[1..]);
      assert XorBytes(a, b)[1..] == XorBytes(a[1..], b[1..]);
      Pow2Of8();
      XorSplit(a[0], Number(a[1..]), b[0], Number(b[1..]), 8);
      ShiftIsMul(Number(a[1..]), 8);
      ShiftIsMul(Number(b[1..]), 8);
      ShiftIsMul(Xor(Number(a[1..]), Number(b[1..])), 8);
    }
  }

  function Reverse(s: seq<byte>): (r: seq<byte>)
    ensures |r| == |s|
  {
    seq(|s|, i requires 0 <= i < |s| => s[|s| - 1 - i])
  }

  /** A machine word in memory, in either byte order. */
  function Load(bigEndian: bool, bs: seq<byte>): nat {
    Number(if bigEndian then Reverse(bs) else bs)
  }

  function Store(bigEndian: bool, v: nat, n: nat): (bs: seq<byte>)
    ensures |bs| == n
  {
    if bigEndian then Reverse(Digits(v, n)) else Digits(v, n)
  }

  /** `uint64(m)<<32 | uint64(m)` */
  function Twice(m: nat): nat {
    0x1_0000_0000 * m + m
  }

  lemma TwiceIsDoubled(bigEndian: bool, mask: seq<byte>)
    requires |mask| == 4
    ensures Twice(Load(bigEndian, mask)) == Load(bigEndian, mask + mask)
  {
    var m := if bigEndian then Reverse(mask) else mask;
    assert (if bigEndian then Reverse(mask + mask) else mask + mask) == m + m;
    hide Number, Reverse;
    NumberOfFour(m[0], m[1], m[2], m[3], []);
    NumberOfFour(m[0], m[1], m[2], m[3], m);
    NumberOfNone();
    assert [m[0], m[1], m[2], m[3]] == m;
    assert m + [] == m;
  }

  lemma NumberOfNone()
    ensures Number([]) == 0
  {
  }

  lemma NumberOfFour(a: byte, b: byte, c: byte, d: byte, rest: seq<byte>)
    ensures Number([a, b, c, d] + rest) == a + 0x100 * b + 0x1_0000 * c + 0x100_0000 * d + 0x1_0000_0000 * Number(rest)
  {
    var s := [a, b, c, d] + rest;
    assert s[1..] == [b, c, d] + rest;
    assert s[1..][1..] == [c, d] + rest;
    assert s[1..][1..][1..] == [d] + rest;
    assert s[1..][1..][1..][1..] == rest;
    assert Number(s[1..][1..][1..]) == d + 256 * Number(rest);
    assert Number(s[1..][1..]) == c + 256 * (d + 256 * Number(rest));
  }

  /** XORing eight bytes in memory as one word is XORing each with its mask byte. */
  lemma WordXor(bigEndian: bool, bs: seq<byte>, mask: seq<byte>)
    requires |bs| == 8 && |mask| == 4
    ensures Store(bigEndian, Xor(Load(bigEndian, bs), Twice(Load(bigEndian, mask))), 8) == XorBytes(bs, mask + mask)
  {
    hide Xor, Number, Digits, XorByte, Twice;
    TwiceIsDoubled(bigEndian, mask);
    var b := if bigEndian then Reverse(bs) else bs;
    var m := if bigEndian then Reverse(mask + mask) else mask + mask;
    NumberXor(b, m);
    DigitsOfNumber(XorBytes(b, m));
    assert Digits(Xor(Number(b), Number(m)), 8) == XorBytes(b, m);
    if bigEndian {
      assert Reverse(XorBytes(b, m)) == XorBytes(bs, mask + mask);
    }
  }

  // ------------------------------------------------------------------ masking

  function KeyByte(mask: seq<byte>, k: nat): byte
    requires |mask| == 4
  {
    mask[k % 4]
  }

  lemma KeyAligned(mask: seq<byte>, pos: nat, at: nat, j: nat)
    requires |mask| == 4 && (pos + at) % 4 == 0 && at <= j
    ensures KeyByte(mask, j - at) == KeyByte(mask, pos + j)
  {
  }

  lemma KeyReduced(mask: seq<byte>, offset: nat, j: nat)
    requires |mask| == 4
    ensures KeyByte(mask, offset % 4 + j) == KeyByte(mask, offset + j)
  {
  }

  /** Section 5.3 of RFC 6455: byte i is combined with mask byte i modulo 4. */
  function Masked(p: seq<byte>, mask: seq<byte>, offset: nat): (r: seq<byte>)
    requires |mask| == 4
    ensures |r| == |p|
  {
    seq(|p|, i requires 0 <= i < |p| => XorByte(p[i], KeyByte(mask, offset + i)))
  }

  /** Masking is its own inverse. */
  lemma MaskedTwice(p: seq<byte>, mask: seq<byte>, offset: nat)
    requires |mask| == 4
    ensures Masked(Masked(p, mask, offset), mask, offset) == p
  {
    forall i | 0 <= i < |p|
      ensures Masked(Masked(p, mask, offset), mask, offset)[i] == p[i]
    {
      XorTwice(p[i], KeyByte(mask, offset + i));
    }
  }

  /** A payload may be masked in chunks, each continuing at the offset the last one reached. */
  lemma MaskedChunks(a: seq<byte>, b: seq<byte>, mask: seq<byte>, offset: nat)
    requires |mask| == 4
    ensures Masked(a + b, mask, offset) == Masked(a, mask, offset) + Masked(b, mask, offset + |a|)
  {
    hide XorByte;
    forall i | 0 <= i < |a| + |b|
      ensures Masked(a + b, mask, offset)[i] == (Masked(a, mask, offset) + Masked(b, mask, offset + |a|))[i]
    {
      if i >= |a| {
        assert offset + i == offset + |a| + (i - |a|);
      }
    }
  }

  /** remain: how many bytes bring a mask position back to 0. */
  const REMAIN: seq<nat> := [0, 3, 2, 1]

  method MaskBytewise(payload: array<byte>, from: nat, to: nat, mask: seq<byte>, offset: nat)
    requires from <= to <= payload.Length && |mask| == 4
    modifies payload
    ensures forall j :: 0 <= j < payload.Length ==>
              payload[j] == if from <= j < to then XorByte(old(payload[j]), KeyByte(mask, offset + j)) else old(payload[j])
  {
    hide XorByte;
    var i := from;
    while i < to
      invariant from <= i <= to
      invariant forall j :: 0 <= j < payload.Length ==>
                  payload[j] == if from <= j < i then XorByte(old(payload[j]), KeyByte(mask, offset + j)) else old(payload[j])
    {
      payload[i] := XorByte(payload[i], KeyByte(mask, offset + i));
      i := i + 1;
    }
  }

  /** Masks eight bytes at place `at` as one machine word. */
  method MaskWord(bigEndian: bool, payload: array<byte>, at: nat, mask: seq<byte>)
    requires at + 8 <= payload.Length && |mask| == 4
    modifies payload
    ensures forall j :: 0 <= j < payload.Length ==>
              payload[j] == if at <= j < at + 8 then XorByte(old(payload[j]), KeyByte(mask, j - at)) else old(payload[j])
  {
    hide XorByte, Xor, Load, Store, Twice;
    var m2 := Twice(Load(bigEndian, mask));
    var bs := payload[at..at + 8];
    var v := Store(bigEndian, Xor(Load(bigEndian, bs), m2), 8);
    WordXor(bigEndian, bs, mask);
    forall i | 0 <= i < 8 {
      payload[at + i] := v[i];
    }
    forall j | at <= j < at + 8
      ensures payload[j] == XorByte(old(payload[j]), KeyByte(mask, j - at))
    {
      assert payload[at + (j - at)] == v[j - at] == XorByte(bs[j - at], (mask + mask)[j - at]);
    }
  }

  /** Masks `words` machine words from place `from` on, where the mask starts anew. */
  method MaskWords(bigEndian: bool, payload: array<byte>, from: nat, words: nat, mask: seq<byte>, pos: nat)
    requires from + 8 * words <= payload.Length && |mask| == 4 && (pos + from) % 4 == 0
    modifies payload
    ensures forall j :: 0 <= j < payload.Length ==>
              payload[j] == if from <= j < from + 8 * words then XorByte(old(payload[j]), KeyByte(mask, pos + j)) else old(payload[j])
  {
    hide XorByte, KeyByte;
    for i := 0 to words
      invariant forall j :: 0 <= j < payload.Length ==>
                  payload[j] == if from <= j < from + 8 * i then XorByte(old(payload[j]), KeyByte(mask, pos + j)) else old(payload[j])
    {
      var at := from + 8 * i;
      MaskWord(bigEndian, payload, at, mask);
      forall j | at <= j < at + 8
        ensures payload[j] == XorByte(old(payload[j]), KeyByte(mask, pos + j))
      {
        KeyAligned(mask, pos, at, j);
      }
    }
  }

  /**
   cipher: a few bytes at either end one by one, the rest as 64-bit words, on a machine
   of either byte order.  The effect is byte-wise masking.
   */
  method Cipher(bigEndian: bool, payload: array<byte>, mask: seq<byte>, offset: nat)
    requires |mask| == 4
    modifies payload
    ensures payload[..] == Masked(old(payload[..]), mask, offset)
  {
    hide XorByte, KeyByte;
    var n := payload.Length;
    if n < 8 {
      MaskBytewise(payload, 0, n, mask, offset);
      return;
    }
    var mpos := offset % 4;
    var ln := REMAIN[mpos];
    var rn := (n - ln) % 8;
    var words := (n - ln - rn) / 8;
    assert ln + 8 * words == n - rn;
    MaskBytewise(payload, 0, ln, mask, mpos);
    MaskBytewise(payload, n - rn, n, mask, mpos);
    MaskWords(bigEndian, payload, ln, words, mask, mpos);
    forall j | 0 <= j < n
      ensures payload[j] == XorByte(old(payload[j]), KeyByte(mask, offset + j))
    {
      KeyReduced(mask, offset, j);
    }
  }
}
