/** WebSocket frame headers (section 5.2 of RFC 6455): the parser and the printer. */
module Frame {
  import opened Bytes
  import Inbound

  const HEADER_MIN_SIZE := 2
  const TWO_63: int := 0x8000_0000_0000_0000
  const TWO_64: int := 0x1_0000_0000_0000_0000

  // -------------------------------------------------------- big-endian numbers

  function BigEndian(bs: seq<byte>): nat {
    if bs == [] then 0 else 256 * BigEndian(bs[..|bs| - 1]) + bs[|bs| - 1]
  }

  function PutBigEndian(v: nat, n: nat): (bs: seq<byte>)
    ensures |bs| == n
  {
    if n == 0 then [] else PutBigEndian(v / 256, n - 1) + [v % 256]
  }

  lemma {:induction false} BigEndianRoundTrip(v: nat, n: nat)
    requires v < Pow2(8 * n)
    ensures BigEndian(PutBigEndian(v, n)) == v
  {
    if n > 0 {
      assert Pow2(8 * n) == 256 * Pow2(8 * (n - 1)) by { Pow2Octet(8 * (n - 1)); }
      BigEndianRoundTrip(v / 256, n - 1);
      assert PutBigEndian(v, n)[..n - 1] == PutBigEndian(v / 256, n - 1);
    }
  }

  /** Conversion of a 64-bit word to a signed integer. */
  function AsInt64(u: int): int {
    var r := u % TWO_64;
    if r < TWO_63 then r else r - TWO_64
  }

  // -------------------------------------------------------------------- parsing

  function CalcHeaderSize(b: byte): (n: nat)
    ensures 2 <= n <= 14
  {
    2 + (if b >= 0x80 then 4 else 0) + (if b % 128 == 126 then 2 else if b % 128 == 127 then 8 else 0)
  }

  /** The payload length a complete header announces. */
  function AnnouncedLength(input: seq<byte>): (n: int)
    requires |input| >= 2 && |input| >= CalcHeaderSize(input[1])
    ensures n < TWO_63
  {
    var b := input[1] % 128;
    if b == 126 then U16(input[2], input[3])
    else if b == 127 then AsInt64(BigEndian(input[2..10]))
    else b
  }

  /** parseFrame: packet length (0 incomplete, negative error) and expected size; `maxPayload` 0 is no limit. */
  function ParseFrame(maxPayload: int, input: seq<byte>): (int, int) {
    if |input| < HEADER_MIN_SIZE then (0, HEADER_MIN_SIZE) else
      var headerSize := CalcHeaderSize(input[1]);
      if |input| < headerSize then (0, headerSize) else
        var length := AnnouncedLength(input);
        if length < 0 || (maxPayload > 0 && length > maxPayload) then (-1, -1) else
          var total := AsInt64(length + headerSize);
          if total > |input| then (0, total) else (total, total)
  }

  /**
   Parsing frames meets what the read loop needs of a packet parser: once a length or an
   error is decided, more bytes do not change it.
   */
  lemma ParserIsPrefixStable(maxPayload: int, sizeLimit: int)
    ensures Inbound.PrefixStable(s => ParseFrame(maxPayload, s), sizeLimit)
  {
    var parse := s => ParseFrame(maxPayload, s);
    forall s, t | Inbound.Judge(parse, sizeLimit, s) != Inbound.More
      ensures Inbound.Judge(parse, sizeLimit, s + t) == Inbound.Judge(parse, sizeLimit, s)
    {
      assert parse(s) == ParseFrame(maxPayload, s) && parse(s + t) == ParseFrame(maxPayload, s + t);
      DecisionsStand(maxPayload, s, t);
    }
  }

  /** A decided length stands; an expected size only grows, unless the frame turns out to be bad. */
  lemma DecisionsStand(maxPayload: int, s: seq<byte>, t: seq<byte>)
    ensures var (n, e), (n', e') := ParseFrame(maxPayload, s), ParseFrame(maxPayload, s + t);
            && (n != 0 ==> n' == n && e' == e)
            && (n == 0 ==> e > |s| && (n' < 0 || e' >= e))
            && n <= |s|
  {
    hide AsInt64, AnnouncedLength, CalcHeaderSize;
    if |s| >= 2 && |s| >= CalcHeaderSize(s[1]) {
      LengthFixed(s, t);
    }
    if |s + t| >= 2 && |s + t| >= CalcHeaderSize((s + t)[1]) && AnnouncedLength(s + t) >= 0 {
      SumAsInt64(AnnouncedLength(s + t) + CalcHeaderSize((s + t)[1]));
    }
  }

  lemma SumAsInt64(x: int)
    requires 0 <= x < TWO_63 + 14
    ensures AsInt64(x) == if x < TWO_63 then x else x - TWO_64
  {
  }

  lemma LengthFixed(s: seq<byte>, t: seq<byte>)
    requires |s| >= 2 && |s| >= CalcHeaderSize(s[1])
    ensures AnnouncedLength(s + t) == AnnouncedLength(s)
  {
    if s[1] % 128 == 127 {
      assert (s + t)[2..10] == s[2..10];
    }
  }

  // ------------------------------------------------------------------- printing

  datatype Header = Header(fin: bool, rsv: nat, opCode: nat, masked: bool, mask: seq<byte>, length: nat)

  predicate WellFormed(h: Header) {
    |h.mask| == 4 && h.length < TWO_63
  }

  /** What the octets of a header can tell: the masking key only when there is one. */
  function Canonical(h: Header): Header {
    h.(rsv := h.rsv % 8, opCode := h.opCode % 16, mask := if h.masked then h.mask else [0, 0, 0, 0])
  }

  function HeaderSize(h: Header): (n: nat)
    ensures 2 <= n <= 14
  {
    2 + (if h.masked then 4 else 0) + (if h.length <= 125 then 0 else if h.length <= 65535 then 2 else 8)
  }

  function LengthField(h: Header): (n: byte) {
    if h.length <= 125 then h.length else if h.length <= 65535 then 126 else 127
  }

  function ExtendedLength(h: Header): (bs: seq<byte>)
    ensures |bs| == if h.length <= 125 then 0 else if h.length <= 65535 then 2 else 8
  {
    if h.length <= 125 then [] else if h.length <= 65535 then PutBigEndian(h.length, 2) else PutBigEndian(h.length, 8)
  }

  /** The octets of a header. */
  function HeaderBytes(h: Header): (bs: seq<byte>)
    requires WellFormed(h)
    ensures |bs| == HeaderSize(h)
  {
    [(if h.fin then 0x80 else 0) + 16 * (h.rsv % 8) + h.opCode % 16, (if h.masked then 0x80 else 0) + LengthField(h)]
    + ExtendedLength(h)
    + (if h.masked then h.mask else [])
  }

  /** The header fields that frame processing reads back. */
  function ParseHeader(input: seq<byte>): Header
    requires |input| >= 2 && |input| >= CalcHeaderSize(input[1]) && AnnouncedLength(input) >= 0
  {
    var n := CalcHeaderSize(input[1]);
    var masked := input[1] >= 0x80;
    Header(input[0] >= 0x80, input[0] / 16 % 8, input[0] % 16, masked,
           if masked then input[n - 4..n] else [0, 0, 0, 0], AnnouncedLength(input))
  }

  function PrintFrame(h: Header, payload: seq<byte>): seq<byte>
    requires WellFormed(h)
  {
    HeaderBytes(h) + payload
  }

  lemma FirstOctets(h: Header, rest: seq<byte>)
    requires WellFormed(h)
    ensures var bs := HeaderBytes(h) + rest;
            && (bs[0] >= 0x80 <==> h.fin) && bs[0] / 16 % 8 == h.rsv % 8 && bs[0] % 16 == h.opCode % 16
            && (bs[1] >= 0x80 <==> h.masked) && bs[1] % 128 == LengthField(h)
            && CalcHeaderSize(bs[1]) == HeaderSize(h)
  {
  }

  /** The extended length and the masking key follow the first two octets. */
  lemma LaterOctets(h: Header, rest: seq<byte>)
    requires WellFormed(h)
    ensures var bs := HeaderBytes(h) + rest;
            && (125 < h.length <= 65535 ==> bs[2..4] == PutBigEndian(h.length, 2))
            && (65535 < h.length ==> bs[2..10] == PutBigEndian(h.length, 8))
            && (h.masked ==> bs[HeaderSize(h) - 4..HeaderSize(h)] == h.mask)
  {
    hide PutBigEndian;
  }

  /** Reading a printed header back. */
  lemma HeaderRoundTrip(h: Header, rest: seq<byte>)
    requires WellFormed(h)
    ensures var bs := HeaderBytes(h) + rest;
            && CalcHeaderSize(bs[1]) == HeaderSize(h)
            && AnnouncedLength(bs) == h.length
            && ParseHeader(bs) == Canonical(h)
  {
    hide PutBigEndian, BigEndian, AsInt64, HeaderBytes;
    FirstOctets(h, rest);
    LaterOctets(h, rest);
    if h.length > 65535 {
      LongLength(h.length);
    } else if h.length > 125 {
      ShortLength(h.length);
      var bs := HeaderBytes(h) + rest;
      assert bs[2] == bs[2..4][0] && bs[3] == bs[2..4][1];
    }
  }

  lemma LongLength(v: nat)
    requires v < TWO_63
    ensures AsInt64(BigEndian(PutBigEndian(v, 8))) == v
  {
    hide Pow2, PutBigEndian, BigEndian;
    Pow2Of64();
    BigEndianRoundTrip(v, 8);
  }

  lemma ShortLength(v: nat)
    requires v <= 65535
    ensures var bs := PutBigEndian(v, 2); U16(bs[0], bs[1]) == v
  {
    assert PutBigEndian(v / 256, 1) == PutBigEndian(v / 256 / 256, 0) + [v / 256 % 256];
  }

  /** binary.BigEndian.PutUint16 / PutUint64 */
  method PutBytes(buf: array<byte>, at: nat, bs: seq<byte>)
    requires at + |bs| <= buf.Length
    modifies buf
    ensures buf[..] == old(buf[..at]) + bs + old(buf[at + |bs|..])
  {
    forall i | 0 <= i < |bs| {
      buf[at + i] := bs[i];
    }
  }

  /** The first two octets without the mask bit, and the extended length. */
  method WriteLength(h: Header, b0: byte, buf: array<byte>)
    requires 2 + |ExtendedLength(h)| <= buf.Length
    modifies buf
    ensures buf[..] == [b0, LengthField(h)] + ExtendedLength(h) + old(buf[2 + |ExtendedLength(h)|..])
  {
    hide PutBigEndian;
    ghost var was := buf[..];
    buf[0] := b0;
    buf[1] := LengthField(h);
    assert buf[..] == [b0, LengthField(h)] + [] + was[2..];
    if h.length <= 125 {
      return;
    }
    if h.length <= 65535 {
      PutBytes(buf, 2, PutBigEndian(h.length, 2));
    } else {
      PutBytes(buf, 2, PutBigEndian(h.length, 8));
    }
    assert buf[..2] == [b0, LengthField(h)];
  }

  /** The mask bit and the masking key. */
  method WriteMask(mask: seq<byte>, field: byte, at: nat, buf: array<byte>)
    requires |mask| == 4 && 2 <= at && at + 4 <= buf.Length && field < 0x80 && buf[1] == field
    modifies buf
    ensures buf[..] == [old(buf[0]), 0x80 + field] + old(buf[2..at]) + mask + old(buf[at + 4..])
  {
    ghost var was := buf[..];
    buf[1] := buf[1] + 0x80;
    assert buf[..at] == [was[0], 0x80 + field] + was[2..at] && buf[at + 4..] == was[at + 4..];
    PutBytes(buf, at, mask);
  }

  /** writeHeader */
  method WriteHeader(h: Header, hsize: nat, buf: array<byte>)
    requires WellFormed(h) && hsize == HeaderSize(h) <= buf.Length
    modifies buf
    ensures buf[..] == HeaderBytes(h) + old(buf[hsize..])
  {
    hide PutBigEndian, ExtendedLength;
    ghost var was := buf[..];
    var b0 := h.opCode % 16;
    if h.fin {
      b0 := b0 + 0x80;
    }
    b0 := b0 + 16 * (h.rsv % 8);
    WriteLength(h, b0, buf);
    ghost var ext, field := ExtendedLength(h), LengthField(h);
    var at := if h.masked then hsize - 4 else hsize;
    assert buf[1] == field && buf[2..at] == ext && buf[at..] == was[at..];
    if h.masked {
      WriteMask(h.mask, LengthField(h), at, buf);
    }
  }

  /** buildFrame: nothing when the size does not fit an int. */
  method BuildFrame(h: Header, payload: seq<byte>) returns (frame: array?<byte>)
    requires WellFormed(h) && |payload| == h.length
    ensures frame == null <==> HeaderSize(h) + h.length >= TWO_63
    ensures frame != null ==> fresh(frame) && frame[..] == PrintFrame(h, payload)
  {
    var hsize := HeaderSize(h);
    SumAsInt64(hsize + h.length);
    var size := AsInt64(hsize + h.length);
    if size <= 0 {
      return null;
    }
    frame := new byte[size];
    WriteHeader(h, hsize, frame);
    hide HeaderBytes;
    PutBytes(frame, hsize, payload);
  }

  /**
   A printed frame followed by anything is parsed as one frame of its own length, and the
   header and payload come back.
   */
  lemma FrameRoundTrip(maxPayload: int, h: Header, payload: seq<byte>, rest: seq<byte>)
    requires WellFormed(h) && |payload| == h.length
    requires maxPayload > 0 ==> h.length <= maxPayload
    requires HeaderSize(h) + h.length < TWO_63
    ensures var f := PrintFrame(h, payload);
            && ParseFrame(maxPayload, f + rest) == (|f|, |f|)
            && AnnouncedLength(f) == h.length
            && ParseHeader(f) == Canonical(h)
            && f[CalcHeaderSize(f[1])..] == payload
  {
    HeaderRoundTrip(h, payload);
    HeaderRoundTrip(h, payload + rest);
    var f := PrintFrame(h, payload);
    assert f + rest == HeaderBytes(h) + (payload + rest);
    hide HeaderBytes, AnnouncedLength, CalcHeaderSize, AsInt64, ParseHeader;
    SumAsInt64(h.length + HeaderSize(h));
  }

  /** Every strict prefix of a printed frame is incomplete, and asks for more but never for too much. */
  lemma StrictPrefixIncomplete(maxPayload: int, h: Header, payload: seq<byte>, n: nat)
    requires WellFormed(h) && |payload| == h.length
    requires maxPayload > 0 ==> h.length <= maxPayload
    requires HeaderSize(h) + h.length < TWO_63
    requires n < |PrintFrame(h, payload)|
    ensures var f := PrintFrame(h, payload);
            var (length, size) := ParseFrame(maxPayload, f[..n]);
            length == 0 && n < size <= |f|
  {
    var f := PrintFrame(h, payload);
    FrameRoundTrip(maxPayload, h, payload, []);
    assert f + [] == f && f[..n] + f[n..] == f;
    DecisionsStand(maxPayload, f[..n], f[n..]);
  }

  // ------------------------------------------------------------- frames that are refused

  /**
   A complete header is refused if and only if its length has the top bit set, exceeds the
   limit, or makes a frame whose size does not fit 63 bits; a frame that is not refused is
   cut off as soon as header and payload are there.
   */
  lemma RefusedExactly(maxPayload: int, input: seq<byte>)
    requires |input| >= 2 && |input| >= CalcHeaderSize(input[1])
    ensures var n, size := AnnouncedLength(input), AnnouncedLength(input) + CalcHeaderSize(input[1]);
            var (length, expected) := ParseFrame(maxPayload, input);
            && (length < 0 <==> (input[1] % 128 == 127 && input[2] >= 0x80) || (0 < maxPayload < n) || size >= TWO_63)
            && (length >= 0 ==> expected == size && length == if size <= |input| then size else 0)
  {
    hide AsInt64;
    TopBit(input);
    hide AnnouncedLength;
    if AnnouncedLength(input) >= 0 {
      SumAsInt64(AnnouncedLength(input) + CalcHeaderSize(input[1]));
    }
  }

  /** The 64-bit length is negative exactly with its top bit. */
  lemma TopBit(input: seq<byte>)
    requires |input| >= 2 && |input| >= CalcHeaderSize(input[1])
    ensures AnnouncedLength(input) < 0 <==> input[1] % 128 == 127 && input[2] >= 0x80
  {
    if input[1] % 128 == 127 {
      var bs := input[2..10];
      FirstOctetDecides(bs[0], bs[1..]);
      assert bs == [bs[0]] + bs[1..];
    }
  }

  lemma FirstOctetDecides(b: byte, rest: seq<byte>)
    requires |rest| == 7
    ensures AsInt64(BigEndian([b] + rest)) < 0 <==> b >= 0x80
  {
    BigEndianFront(b, rest);
    BigEndianBound(rest);
    Pow2Of56();
    hide BigEndian, Pow2;
  }

  lemma Pow2Of56()
    ensures Pow2(56) == 0x100_0000_0000_0000
  {
    Pow2Of64();
    Pow2Octet(56);
    hide Pow2;
  }

  lemma {:induction false} BigEndianFront(b: byte, rest: seq<byte>)
    ensures BigEndian([b] + rest) == b * Pow2(8 * |rest|) + BigEndian(rest)
  {
    var all := [b] + rest;
    if rest == [] {
      assert all[..0] == [];
      Pow2OfZero();
    } else {
      var n := |rest| - 1;
      assert all[..|all| - 1] == [b] + rest[..n];
      BigEndianFront(b, rest[..n]);
      Pow2Octet(8 * n);
      assert 256 * (b * Pow2(8 * n)) == b * Pow2(8 * n + 8);
    }
  }

  /** A frame over the payload limit is refused as soon as its header is there, whatever follows, and nothing is cut off. */
  lemma TooLargeIsRefused(maxPayload: int, sizeLimit: int, h: Header, input: seq<byte>)
    requires WellFormed(h) && 0 < maxPayload < h.length && HeaderBytes(h) <= input
    ensures ParseFrame(maxPayload, input) == (-1, -1)
    ensures Inbound.Packets(s => ParseFrame(maxPayload, s), sizeLimit, input) == []
  {
    var rest := input[|HeaderBytes(h)|..];
    assert input == HeaderBytes(h) + rest;
    HeaderRoundTrip(h, rest);
    hide HeaderBytes, AnnouncedLength, CalcHeaderSize;
    var parse := s => ParseFrame(maxPayload, s);
    assert parse(input) == (-1, -1);
    Inbound.PacketsStep(parse, sizeLimit, input);
  }

  // ------------------------------------------------------- lengths that are not minimal

  /** The length is in the shortest form there is for it, as section 5.2 of RFC 6455 demands. */
  predicate MinimallyEncoded(input: seq<byte>)
    requires |input| >= 2 && |input| >= CalcHeaderSize(input[1])
  {
    && (input[1] % 128 == 126 ==> AnnouncedLength(input) > 125)
    && (input[1] % 128 == 127 ==> AnnouncedLength(input) > 65535)
  }

  lemma {:induction false} PutBackBigEndian(bs: seq<byte>)
    ensures PutBigEndian(BigEndian(bs), |bs|) == bs
  {
    if bs != [] {
      var n := |bs| - 1;
      PutBackBigEndian(bs[..n]);
      assert BigEndian(bs) / 256 == BigEndian(bs[..n]) && BigEndian(bs) % 256 == bs[n];
      assert bs[..n] + [bs[n]] == bs;
    }
  }

  lemma {:induction false} BigEndianBound(bs: seq<byte>)
    ensures BigEndian(bs) < Pow2(8 * |bs|)
  {
    if bs == [] {
      Pow2OfZero();
    } else {
      BigEndianBound(bs[..|bs| - 1]);
      Pow2Octet(8 * (|bs| - 1));
      hide Pow2;
    }
  }

  lemma PutBackShort(a: byte, b: byte)
    ensures PutBigEndian(U16(a, b), 2) == [a, b]
  {
    var n := U16(a, b);
    assert n / 256 == a && n % 256 == b;
    assert PutBigEndian(n / 256, 1) == PutBigEndian(n / 256 / 256, 0) + [n / 256 % 256];
  }

  lemma PutBackLong(bs: seq<byte>)
    requires |bs| == 8 && AsInt64(BigEndian(bs)) >= 0
    ensures PutBigEndian(AsInt64(BigEndian(bs)), 8) == bs
  {
    hide Pow2, PutBigEndian, BigEndian;
    Pow2Of64();
    BigEndianBound(bs);
    PutBackBigEndian(bs);
  }

  lemma Pow2Of64()
    ensures Pow2(64) == TWO_64
  {
    hide Pow2;
    assert Pow2(0) == 1 by { Pow2OfZero(); }
    assert Pow2(16) == 0x1_0000 by { Pow2Octet(0); Pow2Octet(8); }
    assert Pow2(32) == 0x1_0000_0000 by { Pow2Octet(16); Pow2Octet(24); }
    assert Pow2(64) == TWO_64 by { Pow2Octet(32); Pow2Octet(40); Pow2Octet(48); Pow2Octet(56); }
  }

  /** The length octets of a minimally encoded header are those that would be printed. */
  lemma LengthPutBack(input: seq<byte>)
    requires |input| >= 2 && |input| >= CalcHeaderSize(input[1]) && AnnouncedLength(input) >= 0 && MinimallyEncoded(input)
    ensures var h := ParseHeader(input);
            && LengthField(h) == input[1] % 128
            && ExtendedLength(h) == input[2..2 + |ExtendedLength(h)|]
            && CalcHeaderSize(input[1]) == HeaderSize(h)
  {
    hide PutBigEndian, BigEndian, AsInt64;
    var h := ParseHeader(input);
    if input[1] % 128 == 126 {
      PutBackShort(input[2], input[3]);
      assert input[2..4] == [input[2], input[3]];
    } else if input[1] % 128 == 127 {
      PutBackLong(input[2..10]);
    }
  }

  /** The two fixed octets are put together again. */
  lemma OctetsPutBack(a: byte, b: byte)
    ensures (if a >= 0x80 then 0x80 else 0) + 16 * (a / 16 % 8) + a % 16 == a
    ensures (if b >= 0x80 then 0x80 else 0) + b % 128 == b
  {
  }

  lemma Cut(input: seq<byte>, at: nat, n: nat)
    requires 2 <= at <= n <= |input|
    ensures input[..n] == [input[0], input[1]] + input[2..at] + input[at..n]
  {
  }

  lemma MinimalIsReprinted(input: seq<byte>)
    requires |input| >= 2 && |input| >= CalcHeaderSize(input[1]) && AnnouncedLength(input) >= 0 && MinimallyEncoded(input)
    requires WellFormed(ParseHeader(input))
    ensures HeaderBytes(ParseHeader(input)) == input[..CalcHeaderSize(input[1])]
  {
    LengthPutBack(input);
    OctetsPutBack(input[0], input[1]);
    hide ExtendedLength, AnnouncedLength, LengthField, MinimallyEncoded;
    var h, n := ParseHeader(input), CalcHeaderSize(input[1]);
    Cut(input, 2 + |ExtendedLength(h)|, n);
  }

  /** Printing a parsed header gives its octets back if and only if its length was minimally encoded. */
  lemma ReprintedExactly(input: seq<byte>)
    requires |input| >= 2 && |input| >= CalcHeaderSize(input[1]) && AnnouncedLength(input) >= 0
    ensures WellFormed(ParseHeader(input))
    ensures HeaderBytes(ParseHeader(input)) == input[..CalcHeaderSize(input[1])] <==> MinimallyEncoded(input)
  {
    hide HeaderBytes, AsInt64, BigEndian;
    assert WellFormed(ParseHeader(input));
    if MinimallyEncoded(input) {
      MinimalIsReprinted(input);
    } else {
      assert HeaderSize(ParseHeader(input)) < CalcHeaderSize(input[1]);
    }
  }

  /** One payload byte, announced in two octets. */
  lemma AcceptsLongForm()
    ensures var input := [0x82, 126, 0, 1, 7];
            ParseFrame(10, input) == (5, 5) && AnnouncedLength(input) == 1 && !MinimallyEncoded(input)
  {
  }

  // ------------------------------------------------------------ sizes that do not fit

  /**
   The size of a frame within the payload limit is computed right if and only if it fits a
   signed 64-bit number; otherwise the sum wraps and the frame is refused.
   */
  lemma SizeIsRightExactly(maxPayload: int, input: seq<byte>)
    requires |input| >= 2 && |input| >= CalcHeaderSize(input[1]) && AnnouncedLength(input) >= 0
    requires maxPayload > 0 ==> AnnouncedLength(input) <= maxPayload
    ensures var total, (n, e) := AnnouncedLength(input) + CalcHeaderSize(input[1]), ParseFrame(maxPayload, input);
            && (e == total <==> total < TWO_63)
            && (total >= TWO_63 ==> n < 0)
  {
    hide AnnouncedLength, AsInt64;
    SumAsInt64(AnnouncedLength(input) + CalcHeaderSize(input[1]));
  }

  /** Without a limit a length of 2^63 - 1 wraps. */
  lemma SizeWraps()
    ensures var input := [0x82, 127] + PutBigEndian(TWO_63 - 1, 8);
            AnnouncedLength(input) == TWO_63 - 1 && ParseFrame(0, input).0 < 0
  {
    hide PutBigEndian, BigEndian;
    var input := [0x82, 127] + PutBigEndian(TWO_63 - 1, 8);
    assert input[2..10] == PutBigEndian(TWO_63 - 1, 8);
    LongLength(TWO_63 - 1);
    SizeIsRightExactly(0, input);
  }

  datatype Printable = Printable(h: Header, payload: seq<byte>)

  predicate Fits(maxPayload: int, sizeLimit: int, f: Printable) {
    && WellFormed(f.h) && |f.payload| == f.h.length && HeaderSize(f.h) + f.h.length < TWO_63
    && (maxPayload > 0 ==> f.h.length <= maxPayload)
    && |PrintFrame(f.h, f.payload)| <= sizeLimit
  }

  function PrintAll(maxPayload: int, sizeLimit: int, frames: seq<Printable>): seq<seq<byte>>
    requires forall i :: 0 <= i < |frames| ==> Fits(maxPayload, sizeLimit, frames[i])
  {
    if frames == [] then [] else
      assert Fits(maxPayload, sizeLimit, frames[0]);
      [PrintFrame(frames[0].h, frames[0].payload)] + PrintAll(maxPayload, sizeLimit, frames[1..])
  }

  /**
   The byte stream of any frames is parsed back into exactly those frames, with nothing
   left over.  With `ReadLoop.Reader.Serve` this holds however the stream is cut into reads.
   */
  lemma {:induction false} StreamRoundTrip(maxPayload: int, sizeLimit: int, frames: seq<Printable>)
    requires forall i :: 0 <= i < |frames| ==> Fits(maxPayload, sizeLimit, frames[i])
    requires sizeLimit >= 2
    ensures var parse := s => ParseFrame(maxPayload, s);
            var stream := Flatten(PrintAll(maxPayload, sizeLimit, frames));
            && Inbound.Packets(parse, sizeLimit, stream) == PrintAll(maxPayload, sizeLimit, frames)
            && Inbound.Rest(parse, sizeLimit, stream) == []
  {
    var parse := s => ParseFrame(maxPayload, s);
    var stream := Flatten(PrintAll(maxPayload, sizeLimit, frames));
    hide ParseFrame, PrintFrame, Inbound.Packets, Inbound.Rest;
    Inbound.PacketsStep(parse, sizeLimit, stream);
    if frames == [] {
      assert parse([]) == ParseFrame(maxPayload, []);
      EmptyInput(maxPayload);
    } else {
      assert Fits(maxPayload, sizeLimit, frames[0]);
      var first := PrintFrame(frames[0].h, frames[0].payload);
      var rest := Flatten(PrintAll(maxPayload, sizeLimit, frames[1..]));
      assert stream == first + rest;
      FrameRoundTrip(maxPayload, frames[0].h, frames[0].payload, rest);
      assert parse(stream) == ParseFrame(maxPayload, stream) == (|first|, |first|);
      PrintedSize(frames[0].h, frames[0].payload);
      assert stream[..|first|] == first && stream[|first|..] == rest;
      StreamRoundTrip(maxPayload, sizeLimit, frames[1..]);
    }
  }

  lemma EmptyInput(maxPayload: int)
    ensures ParseFrame(maxPayload, []) == (0, 2)
  {
  }

  lemma PrintedSize(h: Header, payload: seq<byte>)
    requires WellFormed(h)
    ensures |PrintFrame(h, payload)| >= 2
  {
  }
}
