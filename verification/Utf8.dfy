/**
 UTF-8 (sections 3 and 4 of RFC 3629) and the incremental check of text messages.
 */
module Utf8 {
  import opened Bytes

  // ------------------------------------------------- reference: encoded characters

  predicate IsScalar(v: nat) {
    v <= 0xD7FF || 0xE000 <= v <= 0x10FFFF
  }

  /** The octets of one character. */
  function EncodeScalar(v: nat): (s: seq<byte>)
    requires IsScalar(v)
    ensures 1 <= |s| <= 4
  {
    if v < 0x80 then [v]
    else if v < 0x800 then [0xC0 + v / 64, 0x80 + v % 64]
    else if v < 0x1_0000 then [0xE0 + v / 4096, 0x80 + v / 64 % 64, 0x80 + v % 64]
    else [0xF0 + v / 0x4_0000, 0x80 + v / 4096 % 64, 0x80 + v / 64 % 64, 0x80 + v % 64]
  }

  predicate AllScalars(text: seq<nat>) {
    forall i :: 0 <= i < |text| ==> IsScalar(text[i])
  }

  function EncodeText(text: seq<nat>): seq<byte>
    requires AllScalars(text)
  {
    if text == [] then [] else EncodeScalar(text[0]) + EncodeText(text[1..])
  }

  /** `s` is the encoding of some text. */
  ghost predicate IsText(s: seq<byte>) {
    exists text: seq<nat> :: AllScalars(text) && s == EncodeText(text)
  }

  /** No way of continuing `s` gives the encoding of a text. */
  ghost predicate Hopeless(s: seq<byte>) {
    forall t: seq<byte> :: !IsText(s + t)
  }

  // --------------------------------------------------- unicode/utf8, table driven

  /** The number of octets a first octet announces; 0 if it cannot start a character. */
  function Announced(b: byte): nat {
    if b < 0x80 then 1 else if b < 0xC2 then 0 else if b < 0xE0 then 2 else if b < 0xF0 then 3 else if b < 0xF5 then 4 else 0
  }

  /** The second octet is in the range the first one allows. */
  predicate AcceptSecond(b0: byte, b1: byte) {
    (if b0 == 0xE0 then 0xA0 else if b0 == 0xF0 then 0x90 else 0x80) <= b1 <=
    (if b0 == 0xED then 0x9F else if b0 == 0xF4 then 0x8F else 0xBF)
  }

  predicate Continues(b: byte) {
    0x80 <= b <= 0xBF
  }

  /** The length of the character at the front of `s`; 0 if there is none. */
  function CharLen(s: seq<byte>): (n: nat)
    ensures n <= |s| && n <= 4
  {
    if s == [] then 0 else
      var n := Announced(s[0]);
      if |s| >= n
         && (n >= 2 ==> AcceptSecond(s[0], s[1]))
         && (n >= 3 ==> Continues(s[2]))
         && (n >= 4 ==> Continues(s[3]))
      then n else 0
  }

  /** The size utf8.DecodeRune returns: 1 stands for an error unless the octet is ASCII. */
  function DecodeSize(s: seq<byte>): nat {
    if s == [] then 0 else if CharLen(s) > 0 then CharLen(s) else 1
  }

  /** utf8.FullRune */
  predicate FullRune(s: seq<byte>) {
    && s != []
    && (|| |s| >= Announced(s[0])
        || (|s| > 1 && !AcceptSecond(s[0], s[1]))
        || (|s| > 2 && !Continues(s[2])))
  }

  /** utf8.Valid */
  predicate IsValid(s: seq<byte>)
    decreases |s|
  {
    s == [] || (CharLen(s) > 0 && IsValid(s[CharLen(s)..]))
  }

  // --------------------------------------------- the table against the reference

  lemma CharLenOfEncoded(v: nat, t: seq<byte>)
    requires IsScalar(v)
    ensures CharLen(EncodeScalar(v) + t) == |EncodeScalar(v)|
  {
    EncodedOctets(v);
    var e := EncodeScalar(v);
    hide EncodeScalar;
    var s := e + t;
    assert forall i :: 0 <= i < |e| ==> s[i] == e[i];
  }

  /** What the octets of an encoding look like to the table. */
  lemma EncodedOctets(v: nat)
    requires IsScalar(v)
    ensures var e := EncodeScalar(v);
            && Announced(e[0]) == |e|
            && (|e| >= 2 ==> AcceptSecond(e[0], e[1]))
            && (|e| >= 3 ==> Continues(e[2]))
            && (|e| >= 4 ==> Continues(e[3]))
  {
    if v >= 0x1_0000 {
      FourOctets(v);
    } else if v >= 0x800 {
      ThreeOctets(v);
    }
  }

  lemma ThreeOctets(v: nat)
    requires 0x800 <= v < 0x1_0000 && IsScalar(v)
    ensures Announced(0xE0 + v / 4096) == 3 && AcceptSecond(0xE0 + v / 4096, 0x80 + v / 64 % 64)
  {
  }

  lemma FourOctets(v: nat)
    requires 0x1_0000 <= v <= 0x10FFFF
    ensures Announced(0xF0 + v / 0x4_0000) == 4 && AcceptSecond(0xF0 + v / 0x4_0000, 0x80 + v / 4096 % 64)
  {
  }

  lemma Encoded2(b0: byte, b1: byte) returns (v: nat)
    requires Announced(b0) == 2 && AcceptSecond(b0, b1)
    ensures IsScalar(v) && EncodeScalar(v) == [b0, b1]
  {
    var x0: int, x1: int := b0 - 0xC0 as int, b1 - 0x80 as int;
    v := x0 * 64 + x1;
  }

  lemma Encoded3(b0: byte, b1: byte, b2: byte) returns (v: nat)
    requires Announced(b0) == 3 && AcceptSecond(b0, b1) && Continues(b2)
    ensures IsScalar(v) && EncodeScalar(v) == [b0, b1, b2]
  {
    var x0: int, x1: int, x2: int := b0 - 0xE0 as int, b1 - 0x80 as int, b2 - 0x80 as int;
    v := x0 * 4096 + x1 * 64 + x2;
    assert v / 64 == x0 * 64 + x1;
  }

  lemma Encoded4(b0: byte, b1: byte, b2: byte, b3: byte) returns (v: nat)
    requires Announced(b0) == 4 && AcceptSecond(b0, b1) && Continues(b2) && Continues(b3)
    ensures IsScalar(v) && EncodeScalar(v) == [b0, b1, b2, b3]
  {
    var x0: int, x1: int, x2: int, x3: int := b0 - 0xF0 as int, b1 - 0x80 as int, b2 - 0x80 as int, b3 - 0x80 as int;
    v := x0 * 0x4_0000 + x1 * 4096 + x2 * 64 + x3;
    assert v / 64 == x0 * 4096 + x1 * 64 + x2;
    assert v / 4096 == x0 * 64 + x1;
  }

  /** Every character the table accepts is the encoding of a scalar value. */
  lemma EncodedOfCharLen(s: seq<byte>) returns (v: nat)
    requires CharLen(s) > 0
    ensures IsScalar(v) && EncodeScalar(v) == s[..CharLen(s)]
  {
    match CharLen(s) {
      case 1 => v := s[0];
      case 2 => v := Encoded2(s[0], s[1]);
      case 3 => v := Encoded3(s[0], s[1], s[2]);
      case _ => v := Encoded4(s[0], s[1], s[2], s[3]);
    }
  }

  lemma {:induction false} EncodedIsValid(text: seq<nat>)
    requires AllScalars(text)
    ensures IsValid(EncodeText(text))
  {
    if text != [] {
      var first, rest := EncodeScalar(text[0]), EncodeText(text[1..]);
      CharLenOfEncoded(text[0], rest);
      EncodedIsValid(text[1..]);
      assert (first + rest)[|first|..] == rest;
    }
  }

  lemma {:induction false} ValidIsEncoded(s: seq<byte>) returns (text: seq<nat>)
    requires IsValid(s)
    ensures AllScalars(text) && EncodeText(text) == s
    decreases |s|
  {
    if s == [] {
      text := [];
    } else {
      var n := CharLen(s);
      var v := EncodedOfCharLen(s);
      var rest := ValidIsEncoded(s[n..]);
      text := [v] + rest;
      assert text[1..] == rest;
      assert s == s[..n] + s[n..];
    }
  }

  /** utf8.Valid accepts exactly the encodings of texts. */
  lemma ValidExactly(s: seq<byte>)
    ensures IsValid(s) <==> IsText(s)
  {
    if IsValid(s) {
      var text := ValidIsEncoded(s);
    }
    if IsText(s) {
      var text: seq<nat> :| AllScalars(text) && s == EncodeText(text);
      EncodedIsValid(text);
    }
  }

  /** A valid prefix may be cut off. */
  lemma {:induction false} ValidPrefix(a: seq<byte>, b: seq<byte>)
    requires IsValid(a)
    ensures IsValid(a + b) <==> IsValid(b)
    decreases |a|
  {
    if a == [] {
      assert a + b == b;
    } else {
      var n := CharLen(a);
      assert CharLen(a + b) == n;
      assert (a + b)[n..] == a[n..] + b;
      ValidPrefix(a[n..], b);
    }
  }

  /** An error that more octets cannot repair. */
  lemma FullErrorIsHopeless(s: seq<byte>)
    requires s != [] && CharLen(s) == 0 && FullRune(s)
    ensures Hopeless(s)
  {
    forall t: seq<byte>
      ensures !IsText(s + t)
    {
      assert CharLen(s + t) == 0;
      ValidExactly(s + t);
    }
  }

  /** A cut-off character can be completed. */
  lemma PartialIsNotHopeless(s: seq<byte>)
    requires s != [] && CharLen(s) == 0 && !FullRune(s)
    ensures !Hopeless(s) && !IsText(s)
  {
    var t: seq<byte> :=
      if |s| == 1 then
        [if s[0] == 0xED || s[0] == 0xF4 then 0x80 else if s[0] == 0xE0 then 0xA0 else if s[0] == 0xF0 then 0x90 else 0x80]
        + (if Announced(s[0]) == 2 then [] else if Announced(s[0]) == 3 then [0x80] else [0x80, 0x80])
      else if |s| == 2 then (if Announced(s[0]) == 3 then [0x80] else [0x80, 0x80])
      else [0x80];
    assert CharLen(s + t) == |s + t|;
    assert (s + t)[|s + t|..] == [];
    ValidExactly(s + t);
    ValidExactly(s);
  }

  /** Hope is not affected by valid octets in front. */
  lemma HopelessPrefix(a: seq<byte>, b: seq<byte>)
    requires IsValid(a)
    ensures Hopeless(a + b) <==> Hopeless(b)
  {
    forall t: seq<byte>
      ensures IsText(a + b + t) <==> IsText(b + t)
    {
      assert a + b + t == a + (b + t);
      ValidPrefix(a, b + t);
      ValidExactly(a + (b + t));
      ValidExactly(b + t);
    }
  }

  lemma ValidNext(a: seq<byte>, b: seq<byte>)
    requires IsValid(a) && CharLen(b) > 0
    ensures IsValid(a + b[..CharLen(b)])
  {
    var c := b[..CharLen(b)];
    assert CharLen(c) == |c|;
    assert c[|c|..] == [];
    ValidPrefix(a, c);
  }

  /**
   scanUTF8Prefix: how far the octets are valid, whether that is all of them, and whether
   what remains could still become valid.
   */
  method ScanUtf8Prefix(input: seq<byte>) returns (checked: nat, complete: bool, ok: bool)
    ensures checked <= |input| && IsValid(input[..checked])
    ensures ok && complete <==> IsText(input)
    ensures !ok <==> Hopeless(input)
  {
    hide IsText, Hopeless;
    checked := 0;
    while checked < |input|
      invariant checked <= |input| && IsValid(input[..checked])
      decreases |input| - checked
    {
      var done, rest := input[..checked], input[checked..];
      assert input == done + rest;
      if rest[0] < 0x80 {
        ValidNext(done, rest);
        assert done + rest[..1] == input[..checked + 1];
        checked := checked + 1;
        continue;
      }
      var size := DecodeSize(rest);
      if size == 1 {
        ValidExactly(input);
        ValidPrefix(done, rest);
        HopelessPrefix(done, rest);
        if FullRune(rest) {
          FullErrorIsHopeless(rest);
          return checked, false, false;
        }
        PartialIsNotHopeless(rest);
        return checked, false, true;
      }
      ValidNext(done, rest);
      assert done + rest[..size] == input[..checked + size];
      checked := checked + size;
    }
    assert input[..checked] == input;
    ValidExactly(input);
    TextIsNotHopeless(input);
    return checked, true, true;
  }

  lemma TextIsNotHopeless(s: seq<byte>)
    requires IsText(s)
    ensures !Hopeless(s)
  {
    assert s + [] == s;
    assert IsText(s + []);
  }
}
