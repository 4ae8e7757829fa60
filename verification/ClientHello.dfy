/**
 The strict TLS 1.3 precheck: it reads the ClientHello off the wire, looks at its
 extensions (section 4.1.2 of RFC 8446) and replays the bytes it has read.
 */
module ClientHello {
  import opened Bytes
  import Inbound
  import R = RecordParser

  const CLIENT_HELLO := 1
  const HANDSHAKE_RECORD := 22
  const VERSION_TLS13 := 0x0304
  const MAX_BUFFERED := 0x10_0000

  datatype Result<+T> = Ok(value: T) | Err

  // ---------------------------------------------------------------- extensions

  datatype Info = Info(legacyVersion: nat, offersTls13: bool, hasSupportedGroup: bool, hasKeyShare: bool, hasPreSharedKey: bool)

  /** One of the two-byte values in `vs` is `v`. */
  predicate HasPair(vs: seq<byte>, v: nat) {
    |vs| >= 2 && (U16(vs[0], vs[1]) == v || HasPair(vs[2..], v))
  }

  /** parseUint16PairListExt */
  predicate WellFormedPairList(data: seq<byte>) {
    |data| >= 2 && U16(data[0], data[1]) == |data| - 2 != 0 && (|data| - 2) % 2 == 0
  }

  /** What the precheck demands of an extension; it does not look into other types. */
  predicate WellFormedExt(typ: nat, data: seq<byte>) {
    match typ
    case 43 => |data| >= 1 && data[0] == |data| - 1 && data[0] % 2 == 0
    case 13 => WellFormedPairList(data)
    case 50 => WellFormedPairList(data)
    case 51 => |data| >= 2 && U16(data[0], data[1]) == |data| - 2
    case _ => true
  }

  /** What one extension adds to the picture. */
  function Note(info: Info, typ: nat, data: seq<byte>): Info {
    match typ
    case 43 => if |data| >= 1 && HasPair(data[1..], VERSION_TLS13) then info.(offersTls13 := true) else info
    case 10 => info.(hasSupportedGroup := true)
    case 51 => info.(hasKeyShare := true)
    case 41 => info.(hasPreSharedKey := true)
    case _ => info
  }

  /** Walks a block of extensions. */
  function WalkExts(info: Info, s: seq<byte>): Result<Info>
    decreases |s|
  {
    if s == [] then Ok(info)
    else if |s| < 4 || |s| < 4 + U16(s[2], s[3]) then Err
    else
      var typ, n := U16(s[0], s[1]), U16(s[2], s[3]);
      var data := s[4..4 + n];
      if !WellFormedExt(typ, data) then Err else WalkExts(Note(info, typ, data), s[4 + n..])
  }

  /** One extension off the front. */
  lemma WalkStep(info: Info, s: seq<byte>)
    ensures WalkExts(info, s) ==
            if s == [] then Ok(info)
            else if |s| < 4 || |s| < 4 + U16(s[2], s[3]) || !WellFormedExt(U16(s[0], s[1]), s[4..4 + U16(s[2], s[3])]) then Err
            else WalkExts(Note(info, U16(s[0], s[1]), s[4..4 + U16(s[2], s[3])]), s[4 + U16(s[2], s[3])..])
  {
    hide WellFormedExt, Note;
  }

  /** What follows a part that is preceded by its length. */
  function AfterSessionId(s: seq<byte>): Result<seq<byte>> {
    if |s| < 1 then Err else
      var n: int := s[0];
      if |s| < 1 + n then Err else Ok(s[1 + n..])
  }

  function AfterCipherSuites(s: seq<byte>): Result<seq<byte>> {
    if |s| < 2 || U16(s[0], s[1]) == 0 || U16(s[0], s[1]) % 2 != 0 || |s| < 2 + U16(s[0], s[1]) then Err
    else Ok(s[2 + U16(s[0], s[1])..])
  }

  function AfterCompression(s: seq<byte>): Result<seq<byte>> {
    if |s| < 1 then Err else
      var n: int := s[0];
      if n == 0 || |s| < 1 + n then Err else Ok(s[1 + n..])
  }

  function ParseExtBlock(info: Info, s: seq<byte>): Result<Info> {
    if s == [] then Ok(info)
    else if |s| < 2 || U16(s[0], s[1]) != |s| - 2 then Err
    else WalkExts(info, s[2..])
  }

  /** parseClientHello */
  function Parse(msg: seq<byte>): Result<Info> {
    if |msg| < 4 || msg[0] != CLIENT_HELLO || |msg| < 4 + 35 then Err
    else
      var s1 := AfterSessionId(msg[38..]);
      if s1.Err? then Err else
        var s2 := AfterCipherSuites(s1.value);
        if s2.Err? then Err else
          var s3 := AfterCompression(s2.value);
          if s3.Err? then Err else
            ParseExtBlock(Info(U16(msg[4], msg[5]), false, false, false, false), s3.value)
  }

  // -------------------------------------------------- the parser walks an offset

  /** The loop over two-byte versions. */
  method ScanVersions(data: seq<byte>) returns (found: bool)
    requires |data| >= 1 && |data| % 2 == 1
    ensures found <==> HasPair(data[1..], VERSION_TLS13)
  {
    var i := 1;
    while i + 1 < |data|
      invariant 1 <= i <= |data| && i % 2 == 1
      invariant HasPair(data[1..], VERSION_TLS13) <==> HasPair(data[i..], VERSION_TLS13)
    {
      if U16(data[i], data[i + 1]) == VERSION_TLS13 {
        return true;
      }
      assert data[i..][2..] == data[i + 2..];
      i := i + 2;
    }
    found := false;
  }

  /** The switch over extension types. */
  method NoteExtension(info: Info, typ: nat, data: seq<byte>) returns (r: Result<Info>)
    ensures r == if WellFormedExt(typ, data) then Ok(Note(info, typ, data)) else Err
  {
    match typ {
      case 43 =>
        if |data| < 1 {
          return Err;
        }
        var versionsLen: int := data[0];
        if versionsLen != |data| - 1 || versionsLen % 2 != 0 {
          return Err;
        }
        var found := ScanVersions(data);
        return Ok(if found then info.(offersTls13 := true) else info);
      case 10 => return Ok(info.(hasSupportedGroup := true));
      case 13 => return if WellFormedPairList(data) then Ok(info) else Err;
      case 50 => return if WellFormedPairList(data) then Ok(info) else Err;
      case 51 =>
        if |data| < 2 || U16(data[0], data[1]) != |data| - 2 {
          return Err;
        }
        return Ok(info.(hasKeyShare := true));
      case 41 => return Ok(info.(hasPreSharedKey := true));
      case _ => return Ok(info);
    }
  }

  method ParseClientHello(msg: seq<byte>) returns (r: Result<Info>)
    ensures r == Parse(msg)
  {
    if |msg| < 4 || msg[0] != CLIENT_HELLO {
      return Err;
    }
    var body := msg[4..];
    if |body| < 2 + 32 + 1 {
      return Err;
    }
    hide WalkExts, WellFormedExt, Note;
    var info := Info(U16(body[0], body[1]), false, false, false, false);
    var off: nat := 2 + 32;
    assert msg[38..] == body[off..];
    ghost var s0 := body[off..];

    var sessionIdLen: int := body[off];
    off := off + 1;
    if off + sessionIdLen > |body| {
      return Err;
    }
    off := off + sessionIdLen;
    ghost var s1 := body[off..];
    assert AfterSessionId(s0) == Ok(s1);

    if off + 2 > |body| {
      return Err;
    }
    var cipherSuitesLen := U16(body[off], body[off + 1]);
    off := off + 2;
    if cipherSuitesLen <= 0 || cipherSuitesLen % 2 != 0 || off + cipherSuitesLen > |body| {
      return Err;
    }
    off := off + cipherSuitesLen;
    ghost var s2 := body[off..];
    assert AfterCipherSuites(s1) == Ok(s2);

    if off + 1 > |body| {
      return Err;
    }
    var compressionLen: int := body[off];
    off := off + 1;
    if compressionLen <= 0 || off + compressionLen > |body| {
      return Err;
    }
    off := off + compressionLen;
    ghost var s3 := body[off..];
    assert AfterCompression(s2) == Ok(s3);

    r := ParseExtensions(info, body, off);
  }

  method ParseExtensions(start: Info, body: seq<byte>, from: nat) returns (r: Result<Info>)
    requires from <= |body|
    ensures r == ParseExtBlock(start, body[from..])
  {
    hide WellFormedExt, Note, WalkExts;
    var info, off := start, from;
    if off == |body| {
      return Ok(info);
    }
    if off + 2 > |body| {
      return Err;
    }
    var extTotalLen := U16(body[off], body[off + 1]);
    off := off + 2;
    if off + extTotalLen != |body| {
      return Err;
    }
    assert body[from..][2..] == body[off..];
    while off < |body|
      invariant from + 2 <= off <= |body|
      invariant ParseExtBlock(start, body[from..]) == WalkExts(info, body[off..])
    {
      WalkStep(info, body[off..]);
      if off + 4 > |body| {
        return Err;
      }
      ghost var s := body[off..];
      var extType := U16(body[off], body[off + 1]);
      var extLen := U16(body[off + 2], body[off + 3]);
      off := off + 4;
      if off + extLen > |body| {
        return Err;
      }
      var extData := body[off..off + extLen];
      assert s[4..4 + extLen] == extData && s[4 + extLen..] == body[off + extLen..];
      off := off + extLen;
      var noted := NoteExtension(info, extType, extData);
      if noted.Err? {
        return Err;
      }
      info := noted.value;
    }
    WalkStep(info, body[off..]);
    r := Ok(info);
  }

  // --------------------------------------------- reference: serialised messages

  datatype Extension = Extension(typ: nat, data: seq<byte>)

  datatype Hello = Hello(
    version: nat, random: seq<byte>, sessionId: seq<byte>, suites: seq<byte>, compression: seq<byte>,
    hasExtensions: bool, extensions: seq<Extension>)

  function Put16(n: nat): seq<byte>
    requires n < 0x1_0000
  {
    [n / 256, n % 256]
  }

  predicate FitsExtensions(es: seq<Extension>) {
    forall i :: 0 <= i < |es| ==> es[i].typ < 0x1_0000 && |es[i].data| < 0x1_0000
  }

  function SerializeExtensions(es: seq<Extension>): seq<byte>
    requires FitsExtensions(es)
  {
    if es == [] then [] else
      Put16(es[0].typ) + Put16(|es[0].data|) + es[0].data + SerializeExtensions(es[1..])
  }

  /** The limits the message format itself sets. */
  predicate Fits(h: Hello) {
    && h.version < 0x1_0000 && |h.random| == 32 && |h.sessionId| < 256
    && 0 < |h.suites| < 0x1_0000 && |h.suites| % 2 == 0 && 0 < |h.compression| < 256
    && FitsExtensions(h.extensions) && |SerializeExtensions(h.extensions)| < 0x1_0000
  }

  function ExtBlock(h: Hello): seq<byte>
    requires Fits(h)
  {
    if h.hasExtensions then Put16(|SerializeExtensions(h.extensions)|) + SerializeExtensions(h.extensions) else []
  }

  function Serialize(h: Hello): seq<byte>
    requires Fits(h)
  {
    var tail := [|h.sessionId|] + h.sessionId + (Put16(|h.suites|) + h.suites + ([|h.compression|] + h.compression + ExtBlock(h)));
    var n := 34 + |tail|;
    [CLIENT_HELLO, n / 0x1_0000 % 256, n / 256 % 256, n % 256] + Put16(h.version) + h.random + tail
  }

  /** Every extension is as the precheck wants it. */
  predicate AllWellFormed(es: seq<Extension>) {
    forall i :: 0 <= i < |es| ==> WellFormedExt(es[i].typ, es[i].data)
  }

  predicate Offers(es: seq<Extension>, typ: nat) {
    exists i :: 0 <= i < |es| && es[i].typ == typ
  }

  predicate OffersVersion(es: seq<Extension>) {
    exists i :: 0 <= i < |es| && es[i].typ == 43 && |es[i].data| >= 1 && HasPair(es[i].data[1..], VERSION_TLS13)
  }

  /** The flags an extension list stands for. */
  function Flags(info: Info, es: seq<Extension>): Info {
    info.(
      offersTls13 := info.offersTls13 || OffersVersion(es),
      hasSupportedGroup := info.hasSupportedGroup || Offers(es, 10),
      hasKeyShare := info.hasKeyShare || Offers(es, 51),
      hasPreSharedKey := info.hasPreSharedKey || Offers(es, 41))
  }

  lemma OffersCons(e: Extension, es: seq<Extension>, typ: nat)
    ensures Offers([e] + es, typ) <==> e.typ == typ || Offers(es, typ)
  {
    assert ([e] + es)[0] == e;
    forall i | 0 <= i < |es|
      ensures ([e] + es)[i + 1] == es[i]
    {
    }
    if Offers(es, typ) {
      var i :| 0 <= i < |es| && es[i].typ == typ;
      assert ([e] + es)[i + 1].typ == typ;
    }
    if Offers([e] + es, typ) && e.typ != typ {
      var i :| 0 <= i < |[e] + es| && ([e] + es)[i].typ == typ;
      assert es[i - 1].typ == typ;
    }
  }

  lemma OffersVersionCons(e: Extension, es: seq<Extension>)
    ensures OffersVersion([e] + es) <==>
              (e.typ == 43 && |e.data| >= 1 && HasPair(e.data[1..], VERSION_TLS13)) || OffersVersion(es)
  {
    hide HasPair;
    assert ([e] + es)[0] == e;
    if OffersVersion(es) {
      var i :| 0 <= i < |es| && es[i].typ == 43 && |es[i].data| >= 1 && HasPair(es[i].data[1..], VERSION_TLS13);
      assert ([e] + es)[i + 1] == es[i];
    }
    if OffersVersion([e] + es) {
      var i :| 0 <= i < |[e] + es| && ([e] + es)[i].typ == 43 && |([e] + es)[i].data| >= 1
               && HasPair(([e] + es)[i].data[1..], VERSION_TLS13);
      if i > 0 {
        assert es[i - 1] == ([e] + es)[i];
      }
    }
  }

  /** One extension moves its contribution from the list into the flags gathered. */
  lemma FlagsCons(info: Info, e: Extension, es: seq<Extension>)
    ensures Flags(info, [e] + es) == Flags(Note(info, e.typ, e.data), es)
  {
    hide HasPair, Offers, OffersVersion;
    OffersCons(e, es, 10);
    OffersCons(e, es, 51);
    OffersCons(e, es, 41);
    OffersVersionCons(e, es);
  }

  lemma {:induction false} WalkSerialized(info: Info, es: seq<Extension>)
    requires FitsExtensions(es)
    ensures WalkExts(info, SerializeExtensions(es)) == if AllWellFormed(es) then Ok(Flags(info, es)) else Err
    decreases |es|
  {
    hide HasPair, WellFormedExt, Note, Flags;
    if es == [] {
      FlagsNone(info);
    } else {
      var e, rest := es[0], es[1..];
      var s, tail := SerializeExtensions(es), SerializeExtensions(rest);
      var n := |e.data|;
      assert s == Put16(e.typ) + Put16(n) + e.data + tail;
      assert U16(s[0], s[1]) == e.typ && U16(s[2], s[3]) == n;
      assert s[4..4 + n] == e.data && s[4 + n..] == tail;
      assert es == [e] + rest;
      FlagsCons(info, e, rest);
      if WellFormedExt(e.typ, e.data) {
        WalkSerialized(Note(info, e.typ, e.data), rest);
        assert AllWellFormed(es) <==> AllWellFormed(rest);
      }
    }
  }

  lemma FlagsNone(info: Info)
    ensures Flags(info, []) == info
  {
  }

  /**
   Parsing any serialised ClientHello succeeds exactly when its extensions are well
   formed, and then reports the version and exactly the flags of its extension list.
   */
  lemma ParseSerialized(h: Hello)
    requires Fits(h)
    ensures var info := Info(h.version, false, false, false, false);
            var es := if h.hasExtensions then h.extensions else [];
            Parse(Serialize(h)) == if AllWellFormed(es) then Ok(Flags(info, es)) else Err
  {
    hide WalkExts, WellFormedExt, Flags, SerializeExtensions;
    var ext := ExtBlock(h);
    var s2 := [|h.compression|] + h.compression + ext;
    var s1 := Put16(|h.suites|) + h.suites + s2;
    var s0 := [|h.sessionId|] + h.sessionId + s1;
    var msg := Serialize(h);
    assert msg[38..] == s0 && U16(msg[4], msg[5]) == h.version;
    assert AfterSessionId(s0) == Ok(s1);
    assert AfterCipherSuites(s1) == Ok(s2);
    assert AfterCompression(s2) == Ok(ext);
    var info := Info(h.version, false, false, false, false);
    if h.hasExtensions {
      WalkSerialized(info, h.extensions);
      assert ext[2..] == SerializeExtensions(h.extensions);
    } else {
      FlagsNone(info);
    }
  }

  // -------------------------------------------------- reading and replaying

  /** A connection: the bytes the peer sends, and how many have been read. */
  class Wire {
    const bytes: seq<byte>
    var pos: nat

    ghost predicate Valid()
      reads this
    {
      pos <= |bytes|
    }

    constructor (bytes: seq<byte>)
      ensures Valid() && pos == 0 && this.bytes == bytes
    {
      this.bytes, pos := bytes, 0;
    }

    /** io.ReadFull */
    method ReadFull(n: nat) returns (r: Result<seq<byte>>)
      requires Valid()
      modifies this
      ensures Valid()
      ensures r.Ok? <==> old(pos) + n <= |bytes|
      ensures r.Ok? ==> pos == old(pos) + n && r.value == bytes[old(pos)..pos]
    {
      if pos + n > |bytes| {
        pos := |bytes|;
        return Err;
      }
      r := Ok(bytes[pos..pos + n]);
      pos := pos + n;
    }

    /** Read: any part of what is there, up to `max` bytes. */
    method Read(max: nat) returns (data: seq<byte>)
      requires Valid()
      modifies this
      ensures Valid() && old(pos) <= pos <= old(pos) + max
      ensures data == bytes[old(pos)..pos]
    {
      var n: nat :| n <= max && pos + n <= |bytes|;
      data := bytes[pos..pos + n];
      pos := pos + n;
    }
  }

  datatype Prechecked = Prechecked(recordBuf: seq<byte>, hello: seq<byte>, recordVersion: nat)

  /** The announced length of the ClientHello that `hs` begins with, or -1 if it is none or out of range. */
  function HelloLength(hs: seq<byte>): int
    requires |hs| >= 4
  {
    var n := R.U24(hs[1], hs[2], hs[3]);
    if hs[0] != CLIENT_HELLO || n == 0 || n > MAX_BUFFERED then -1 else n
  }

  /** The message at the front of the records: how many bytes it takes to complete, and the record version. */
  datatype Found = Found(used: nat, hello: seq<byte>, version: nat)

  datatype Progress = Refused | Complete(found: Found) | Partial(used: nat, version: nat, hs: seq<byte>)

  /** The length of the record at the front of the wire. */
  function FrontRecord(wire: seq<byte>): (r: Result<nat>)
    ensures r.Ok? ==> 5 < r.value <= |wire| && r.value == 5 + U16(wire[3], wire[4])
  {
    if |wire| < 5 then Err else
      var n := U16(wire[3], wire[4]);
      if n == 0 || |wire| < 5 + n then Err else Ok(5 + n)
  }

  /** One more record, behind `used` bytes that carried `hs` without completing a message. */
  function Absorb(used: nat, version: nat, hs: seq<byte>, record: seq<byte>): (p: Progress)
    requires |record| > 5
    ensures p.Partial? ==> p.used == used + |record| <= MAX_BUFFERED && p.hs == hs + record[5..]
    ensures p.Complete? ==> p.found.used == used + |record| <= MAX_BUFFERED
  {
    var v := if version == 0 then U16(record[1], record[2]) else version;
    var more := hs + record[5..];
    if used + |record| > MAX_BUFFERED || record[0] != HANDSHAKE_RECORD then Refused
    else if |more| < 4 then Partial(used + |record|, v, more)
    else if HelloLength(more) < 0 then Refused
    else if |more| < 4 + HelloLength(more) then Partial(used + |record|, v, more)
    else Complete(Found(used + |record|, more[..4 + HelloLength(more)], v))
  }

  /** What is found on the wire. */
  function FindHello(used: nat, version: nat, hs: seq<byte>, wire: seq<byte>): (r: Result<Found>)
    ensures r.Ok? ==> used < r.value.used <= used + |wire| && r.value.used <= MAX_BUFFERED
    decreases |wire|
  {
    var front := FrontRecord(wire);
    if front.Err? then Err else
      match Absorb(used, version, hs, wire[..front.value])
      case Refused => Err
      case Complete(found) => Ok(found)
      case Partial(used', version', hs') => FindHello(used', version', hs', wire[front.value..])
  }

  lemma FindStep(used: nat, version: nat, hs: seq<byte>, wire: seq<byte>)
    requires FrontRecord(wire).Ok?
    ensures var k := FrontRecord(wire).value;
            var p := Absorb(used, version, hs, wire[..k]);
            FindHello(used, version, hs, wire) ==
              if p.Refused? then Err else if p.Complete? then Ok(p.found) else FindHello(p.used, p.version, p.hs, wire[k..])
  {
  }

  /** Another complete record behind complete records. */
  lemma RecordAppended(buf: seq<byte>, record: seq<byte>)
    requires R.RecordRest(buf) == [] && |record| >= 5 && |record| == 5 + U16(record[3], record[4])
    requires record[0] == HANDSHAKE_RECORD
    ensures R.RecordRest(buf + record) == []
    ensures R.Records(buf + record) == R.Records(buf) + [record]
    ensures R.HandshakeBytes(R.Records(buf + record)) == R.HandshakeBytes(R.Records(buf)) + record[5..]
  {
    OneRecord(record);
    R.RecordsAreStable();
    hide Inbound.Packets, Inbound.Rest, Inbound.PrefixStable, R.HandshakeBytes;
    Inbound.ChunkingIndependent(R.RECORD_PARSER, 0, buf, record);
    assert [] + record == record;
    R.HandshakeSnoc(R.Records(buf), record);
  }

  lemma OneRecord(record: seq<byte>)
    requires |record| >= 5 && |record| == 5 + U16(record[3], record[4])
    ensures R.Records(record) == [record] && R.RecordRest(record) == []
  {
    hide Inbound.Packets, Inbound.Rest;
    assert R.RECORD_PARSER(record) == (R.RecordSize(record), 0) && R.RECORD_PARSER([]) == (R.RecordSize([]), 0);
    Inbound.PacketsStep(R.RECORD_PARSER, 0, record);
    Inbound.PacketsStep(R.RECORD_PARSER, 0, []);
    assert record[..|record|] == record && record[|record|..] == [];
  }

  /** What is found is the first handshake message of whole records, and a ClientHello by its header. */
  lemma {:induction false} FoundIsFirstMessage(buf: seq<byte>, version: nat, hs: seq<byte>, wire: seq<byte>)
    requires R.RecordRest(buf) == [] && hs == R.HandshakeBytes(R.Records(buf))
    ensures var r := FindHello(|buf|, version, hs, wire);
            r.Ok? ==>
              var all := buf + wire[..r.value.used - |buf|];
              && R.RecordRest(all) == [] && r.value.hello <= R.HandshakeBytes(R.Records(all))
              && |r.value.hello| > 4 && HelloLength(r.value.hello) == |r.value.hello| - 4
    decreases |wire|
  {
    hide R.Records, R.RecordRest, R.HandshakeBytes, FindHello, Absorb, FrontRecord, HelloLength;
    NothingFound(|buf|, version, hs, wire);
    if FrontRecord(wire).Ok? {
      FindStep(|buf|, version, hs, wire);
      var k := FrontRecord(wire).value;
      var p := Absorb(|buf|, version, hs, wire[..k]);
      AbsorbedRecord(buf, version, hs, wire[..k]);
      if p.Partial? {
        FoundIsFirstMessage(buf + wire[..k], p.version, p.hs, wire[k..]);
        var r := FindHello(|buf|, version, hs, wire);
        if r.Ok? {
          CutTwice(buf, wire, k, r.value.used - |buf|);
        }
      }
    }
  }

  lemma CutTwice(buf: seq<byte>, wire: seq<byte>, k: nat, n: nat)
    requires k <= n <= |wire|
    ensures buf + wire[..n] == (buf + wire[..k]) + wire[k..][..n - k]
  {
  }

  /** On a fresh connection: the message found is the first one of the records that carry it. */
  lemma FreshHelloIsFirstMessage(wire: seq<byte>)
    ensures var r := FindHello(0, 0, [], wire);
            r.Ok? ==>
              var all := wire[..r.value.used];
              && r.value.used <= 1048576 && R.RecordRest(all) == [] && r.value.hello <= R.HandshakeBytes(R.Records(all))
              && |r.value.hello| > 4 && HelloLength(r.value.hello) == |r.value.hello| - 4
  {
    hide R.Records, R.RecordRest, R.HandshakeBytes, FindHello, HelloLength;
    NoRecords();
    FoundIsFirstMessage([], 0, [], wire);
    var r := FindHello(0, 0, [], wire);
    assert r.Ok? ==> [] + wire[..r.value.used] == wire[..r.value.used];
  }

  lemma AbsorbedRecord(buf: seq<byte>, version: nat, hs: seq<byte>, record: seq<byte>)
    requires R.RecordRest(buf) == [] && hs == R.HandshakeBytes(R.Records(buf))
    requires |record| > 5 && |record| == 5 + U16(record[3], record[4])
    ensures var p := Absorb(|buf|, version, hs, record);
            !p.Refused? ==>
              && R.RecordRest(buf + record) == [] && hs + record[5..] == R.HandshakeBytes(R.Records(buf + record))
              && (p.Complete? ==> p.found.hello <= hs + record[5..] && |p.found.hello| > 4
                                  && HelloLength(p.found.hello) == |p.found.hello| - 4)
  {
    hide R.Records, R.RecordRest, R.HandshakeBytes;
    if !Absorb(|buf|, version, hs, record).Refused? {
      RecordAppended(buf, record);
    }
  }

  /** A handshake record with the given fragment. */
  function Record(version: nat, fragment: seq<byte>): seq<byte>
    requires version < 0x1_0000 && |fragment| < 0x1_0000
  {
    [HANDSHAKE_RECORD] + Put16(version) + Put16(|fragment|) + fragment
  }

  predicate IsFragmentation(parts: seq<seq<byte>>) {
    forall i :: 0 <= i < |parts| ==> 0 < |parts[i]| < 0x1_0000
  }

  function RecordStream(version: nat, parts: seq<seq<byte>>): seq<byte>
    requires version < 0x1_0000 && IsFragmentation(parts)
  {
    if parts == [] then [] else Record(version, parts[0]) + RecordStream(version, parts[1..])
  }

  /** A record comes off the wire as it was put there. */
  lemma RecordOff(v: nat, fragment: seq<byte>, wire: seq<byte>)
    requires v < 0x1_0000 && 0 < |fragment| < 0x1_0000
    ensures var s, record := Record(v, fragment) + wire, Record(v, fragment);
            && FrontRecord(s) == Ok(|record|) && s[..|record|] == record && s[|record|..] == wire
            && record[5..] == fragment && record[0] == HANDSHAKE_RECORD && U16(record[1], record[2]) == v
  {
  }

  /** A fragment of a message completes it or does not. */
  lemma FragmentAbsorbed(used: nat, version: nat, v: nat, hs: seq<byte>, fragment: seq<byte>, tail: seq<byte>)
    requires v < 0x1_0000 && 0 < |fragment| < 0x1_0000 && used + 5 + |fragment| <= MAX_BUFFERED
    requires var msg := hs + fragment + tail; |msg| >= 4 && HelloLength(msg) == |msg| - 4
    ensures var version', used' := if version == 0 then v else version, used + 5 + |fragment|;
            Absorb(used, version, hs, Record(v, fragment)) ==
              if tail == [] then Complete(Found(used', hs + fragment, version')) else Partial(used', version', hs + fragment)
  {
    RecordOff(v, fragment, []);
    var more := hs + fragment;
    var msg := more + tail;
    assert |more| >= 4 ==> HelloLength(more) == HelloLength(msg);
    assert more[..|more|] == more;
  }

  /** However a ClientHello is cut into records, it is found whole, and nothing behind it is read. */
  lemma {:induction false} FragmentedHelloIsFound(used: nat, version: nat, v: nat, hs: seq<byte>, parts: seq<seq<byte>>, rest: seq<byte>)
    requires v < 0x1_0000 && IsFragmentation(parts) && parts != []
    requires var msg := hs + Flatten(parts); |msg| >= 4 && HelloLength(msg) == |msg| - 4
    requires used + |RecordStream(v, parts)| <= 1048576
    ensures FindHello(used, version, hs, RecordStream(v, parts) + rest)
            == Ok(Found(used + |RecordStream(v, parts)|, hs + Flatten(parts), if version == 0 then v else version))
    decreases |parts|
  {
    hide FindHello, Absorb, FrontRecord, HelloLength, Flatten, RecordStream, Record;
    var first, tail := parts[0], parts[1..];
    var stream := RecordStream(v, tail);
    StreamSplits(v, parts, rest);
    RecordOff(v, first, stream + rest);
    FindStep(used, version, hs, Record(v, first) + (stream + rest));
    FlattenHead(parts);
    Regroup(hs, first, Flatten(tail));
    FragmentAbsorbed(used, version, v, hs, first, Flatten(tail));
    if tail == [] {
      FlattenNothing(tail);
      assert hs + first + [] == hs + first;
      StreamIsLonger(v, tail);
    } else {
      NonEmptyParts(tail);
      FragmentedHelloIsFound(used + 5 + |first|, if version == 0 then v else version, v, hs + first, tail, rest);
    }
  }

  lemma StreamSplits(v: nat, parts: seq<seq<byte>>, rest: seq<byte>)
    requires v < 0x1_0000 && IsFragmentation(parts) && parts != []
    ensures RecordStream(v, parts) + rest == Record(v, parts[0]) + (RecordStream(v, parts[1..]) + rest)
    ensures |RecordStream(v, parts)| == 5 + |parts[0]| + |RecordStream(v, parts[1..])| && |Record(v, parts[0])| == 5 + |parts[0]|
  {
    assert |Record(v, parts[0])| == 5 + |parts[0]|;
    hide Record;
    var tail := RecordStream(v, parts[1..]);
    assert RecordStream(v, parts) == Record(v, parts[0]) + tail;
    hide RecordStream;
    Regroup(Record(v, parts[0]), tail, rest);
  }

  lemma FlattenHead(parts: seq<seq<byte>>)
    requires parts != []
    ensures Flatten(parts) == parts[0] + Flatten(parts[1..])
  {
  }

  lemma NonEmptyParts(parts: seq<seq<byte>>)
    requires IsFragmentation(parts) && parts != []
    ensures Flatten(parts) != []
  {
  }

  /** One whole record off the wire. */
  method ReadRecord(conn: Wire) returns (r: Result<seq<byte>>)
    requires conn.Valid()
    modifies conn
    ensures conn.Valid()
    ensures var wire := old(conn.bytes[conn.pos..]);
            var front := FrontRecord(wire);
            && (r.Ok? <==> front.Ok?)
            && (r.Ok? ==> r.value == wire[..front.value] && conn.pos == old(conn.pos) + front.value)
  {
    var hdr := conn.ReadFull(5);
    if hdr.Err? {
      return Err;
    }
    var recLen := U16(hdr.value[3], hdr.value[4]);
    if recLen <= 0 {
      return Err;
    }
    var rec := conn.ReadFull(recLen);
    if rec.Err? {
      return Err;
    }
    return Ok(hdr.value + rec.value);
  }

  /** What readClientHelloRecords has gathered: `msgLen` is negative until four bytes are there. */
  datatype Gathered = Gathered(recordBuf: seq<byte>, handshakeBytes: seq<byte>, msgLen: int, recordVersion: nat)

  predicate Consistent(g: Gathered) {
    && |g.recordBuf| <= MAX_BUFFERED
    && if |g.handshakeBytes| < 4 then g.msgLen < 0 else 0 <= g.msgLen == HelloLength(g.handshakeBytes)
  }

  /** The checks on one record, in their order. */
  method TakeRecord(g: Gathered, record: seq<byte>) returns (g': Gathered, ok: bool, complete: bool)
    requires Consistent(g) && |record| > 5
    ensures var p := Absorb(|g.recordBuf|, g.recordVersion, g.handshakeBytes, record);
            && (ok <==> !p.Refused?)
            && (ok ==>
                 && Consistent(g') && g'.recordBuf == g.recordBuf + record && (complete <==> p.Complete?)
                 && (p.Partial? ==> g'.handshakeBytes == p.hs && g'.recordVersion == p.version)
                 && (p.Complete? ==>
                      && 0 <= g'.msgLen && 4 + g'.msgLen <= |g'.handshakeBytes|
                      && p.found.hello == g'.handshakeBytes[..4 + g'.msgLen] && p.found.version == g'.recordVersion))
  {
    g', ok, complete := g, false, false;
    if g'.recordVersion == 0 {
      g' := g'.(recordVersion := U16(record[1], record[2]));
    }
    g' := g'.(recordBuf := g'.recordBuf + record);
    if |g'.recordBuf| > MAX_BUFFERED {
      return;
    }
    if record[0] != HANDSHAKE_RECORD {
      return;
    }
    g' := g'.(handshakeBytes := g'.handshakeBytes + record[5..]);
    if g'.msgLen < 0 && |g'.handshakeBytes| >= 4 {
      if g'.handshakeBytes[0] != CLIENT_HELLO {
        return;
      }
      g' := g'.(msgLen := R.U24(g'.handshakeBytes[1], g'.handshakeBytes[2], g'.handshakeBytes[3]));
      if g'.msgLen <= 0 || g'.msgLen > MAX_BUFFERED {
        return;
      }
    }
    ok := true;
    complete := g'.msgLen >= 0 && |g'.handshakeBytes| >= 4 + g'.msgLen;
  }

  /**
   readClientHelloRecords: reads whole records until the first handshake message is
   complete.  It stops because the buffer allowance shrinks with every record.
   */
  method ReadClientHelloRecords(conn: Wire) returns (r: Result<Prechecked>)
    requires conn.Valid()
    modifies conn
    ensures conn.Valid()
    ensures var found := FindHello(0, 0, [], old(conn.bytes[conn.pos..]));
            && (r.Ok? <==> found.Ok?)
            && (r.Ok? ==> conn.pos == old(conn.pos) + found.value.used
                          && r.value == Prechecked(conn.bytes[old(conn.pos)..conn.pos], found.value.hello, found.value.version))
  {
    hide FindHello, Absorb, FrontRecord;
    var g := Gathered([], [], -1, 0);
    while true
      invariant conn.Valid() && old(conn.pos) <= conn.pos && g.recordBuf == conn.bytes[old(conn.pos)..conn.pos]
      invariant Consistent(g)
      invariant FindHello(0, 0, [], old(conn.bytes[conn.pos..]))
             == FindHello(|g.recordBuf|, g.recordVersion, g.handshakeBytes, conn.bytes[conn.pos..])
      decreases MAX_BUFFERED - |g.recordBuf|
    {
      ghost var wire := conn.bytes[conn.pos..];
      NothingFound(|g.recordBuf|, g.recordVersion, g.handshakeBytes, wire);
      var record := ReadRecord(conn);
      if record.Err? {
        return Err;
      }
      FindStep(|g.recordBuf|, g.recordVersion, g.handshakeBytes, wire);
      assert conn.bytes[conn.pos..] == wire[|record.value|..];
      var ok, complete;
      g, ok, complete := TakeRecord(g, record.value);
      if !ok {
        return Err;
      }
      if complete {
        return Ok(Prechecked(g.recordBuf, g.handshakeBytes[..4 + g.msgLen], g.recordVersion));
      }
    }
  }

  lemma NothingFound(used: nat, version: nat, hs: seq<byte>, wire: seq<byte>)
    ensures FrontRecord(wire).Err? ==> FindHello(used, version, hs, wire).Err?
  {
  }

  lemma NoRecords()
    ensures R.RecordRest([]) == [] && R.HandshakeBytes(R.Records([])) == []
  {
    assert R.RECORD_PARSER([]) == (R.RecordSize([]), 0);
    Inbound.PacketsStep(R.RECORD_PARSER, 0, []);
  }

  /** replayConn: first what the precheck has read, then the connection itself. */
  class ReplayConn {
    const conn: Wire
    var preRead: seq<byte>

    constructor (conn: Wire, preRead: seq<byte>)
      ensures this.conn == conn && this.preRead == preRead
    {
      this.conn, this.preRead := conn, preRead;
    }

    /** What is still to be read. */
    ghost function Remaining(): seq<byte>
      requires conn.Valid()
      reads this, conn
    {
      preRead + conn.bytes[conn.pos..]
    }

    method Read(max: nat) returns (data: seq<byte>)
      requires conn.Valid()
      modifies this, conn
      ensures conn.Valid() && |data| <= max
      ensures data + Remaining() == old(Remaining())
    {
      if |preRead| > 0 {
        var n := Min(max, |preRead|);
        data := preRead[..n];
        preRead := preRead[n..];
        return;
      }
      data := conn.Read(max);
    }
  }

  /** The rules of maybeWrapStrictTLS13ServerConn. */
  predicate MeetsStrictRules(info: Info) {
    && info.legacyVersion > 0x0300
    && (info.offersTls13 ==>
          && info.hasSupportedGroup == info.hasKeyShare
          && (info.hasPreSharedKey || (info.hasSupportedGroup && info.hasKeyShare)))
  }

  lemma Regroup(a: seq<byte>, b: seq<byte>, c: seq<byte>)
    ensures (a + b) + c == a + (b + c)
  {
  }

  /** The precheck lets the connection with these first bytes through. */
  predicate Admitted(wire: seq<byte>) {
    var found := FindHello(0, 0, [], wire);
    found.Ok? && Parse(found.value.hello).Ok? && MeetsStrictRules(Parse(found.value.hello).value)
  }

  // ---------------------------------------------- reference: extensions and their lists

  /** A list of 16-bit numbers. */
  predicate All16(vs: seq<nat>) {
    forall i :: 0 <= i < |vs| ==> vs[i] < 0x1_0000
  }

  function Put16s(vs: seq<nat>): seq<byte>
    requires All16(vs)
  {
    if vs == [] then [] else Put16(vs[0]) + Put16s(vs[1..])
  }

  /** A list of 16-bit numbers behind its size in one octet. */
  ghost predicate IsShortList(data: seq<byte>, vs: seq<nat>) {
    |vs| < 128 && All16(vs) && data == [2 * |vs|] + Put16s(vs)
  }

  /** A list of 16-bit numbers, not empty, behind its size in two octets. */
  ghost predicate IsLongList(data: seq<byte>, vs: seq<nat>) {
    0 < |vs| < 0x8000 && All16(vs) && data == Put16(2 * |vs|) + Put16s(vs)
  }

  ghost predicate IsVector(data: seq<byte>, body: seq<byte>) {
    |body| < 0x1_0000 && data == Put16(|body|) + body
  }

  /** An extension that is as its type demands: versions, signature algorithms (twice) and key shares. */
  ghost predicate Proper(e: Extension) {
    && (e.typ == 43 ==> exists vs :: IsShortList(e.data, vs))
    && (e.typ == 13 || e.typ == 50 ==> exists vs :: IsLongList(e.data, vs))
    && (e.typ == 51 ==> exists body :: IsVector(e.data, body))
  }

  ghost predicate AllProper(es: seq<Extension>) {
    forall i :: 0 <= i < |es| ==> Proper(es[i])
  }

  /** TLS 1.3 is among the versions offered. */
  ghost predicate OffersTls13(es: seq<Extension>) {
    exists i, vs :: 0 <= i < |es| && es[i].typ == 43 && IsShortList(es[i].data, vs) && 0x0304 in vs
  }

  /** What the strict mode demands: with TLS 1.3, groups and key shares come together, and there are key shares or a ticket. */
  ghost predicate MayPass(h: Hello) {
    var es := if h.hasExtensions then h.extensions else [];
    && h.version > 0x0300 && AllProper(es)
    && (OffersTls13(es) ==> (Offers(es, 10) <==> Offers(es, 51)) && (Offers(es, 41) || Offers(es, 51)))
  }

  function Pairs(s: seq<byte>): (vs: seq<nat>)
    ensures All16(vs) && |vs| == |s| / 2
  {
    if |s| < 2 then [] else [U16(s[0], s[1])] + Pairs(s[2..])
  }

  lemma PutBack16(a: byte, b: byte)
    ensures Put16(U16(a, b)) == [a, b]
  {
    var n := U16(a, b);
    assert n / 256 == a && n % 256 == b;
  }

  lemma {:induction false} PairsPutBack(s: seq<byte>)
    requires |s| % 2 == 0
    ensures Put16s(Pairs(s)) == s
  {
    if s != [] {
      PutBack16(s[0], s[1]);
      PairsPutBack(s[2..]);
      var vs := Pairs(s);
      assert vs[1..] == Pairs(s[2..]);
      assert s == [s[0], s[1]] + s[2..];
    }
  }

  lemma {:induction false} PairsOfPut(vs: seq<nat>)
    requires All16(vs)
    ensures Pairs(Put16s(vs)) == vs && |Put16s(vs)| == 2 * |vs|
  {
    if vs != [] {
      PairsOfPut(vs[1..]);
      var s := Put16s(vs);
      assert s[2..] == Put16s(vs[1..]) && U16(s[0], s[1]) == vs[0];
    }
  }

  lemma {:induction false} HasPairExactly(s: seq<byte>, v: nat)
    ensures HasPair(s, v) <==> v in Pairs(s)
  {
    if |s| >= 2 {
      HasPairExactly(s[2..], v);
    }
  }

  lemma ShortListExactly(data: seq<byte>)
    ensures (exists vs :: IsShortList(data, vs)) <==> WellFormedExt(43, data)
    ensures (exists vs :: IsShortList(data, vs) && 0x0304 in vs) <==> WellFormedExt(43, data) && HasPair(data[1..], VERSION_TLS13)
  {
    forall vs | IsShortList(data, vs)
      ensures WellFormedExt(43, data) && (HasPair(data[1..], VERSION_TLS13) <==> 0x0304 in vs)
    {
      PairsOfPut(vs);
      assert data[1..] == Put16s(vs);
      HasPairExactly(data[1..], VERSION_TLS13);
    }
    if WellFormedExt(43, data) {
      var vs := Pairs(data[1..]);
      PairsPutBack(data[1..]);
      HasPairExactly(data[1..], VERSION_TLS13);
      assert data == [data[0]] + data[1..];
      assert IsShortList(data, vs);
    }
  }

  lemma LongListExactly(data: seq<byte>)
    requires |data| < 0x1_0000
    ensures (exists vs :: IsLongList(data, vs)) <==> WellFormedPairList(data)
  {
    forall vs | IsLongList(data, vs)
      ensures WellFormedPairList(data)
    {
      PairsOfPut(vs);
    }
    if WellFormedPairList(data) {
      var vs := Pairs(data[2..]);
      PairsPutBack(data[2..]);
      PutBack16(data[0], data[1]);
      assert data == [data[0], data[1]] + data[2..];
      assert IsLongList(data, vs);
    }
  }

  lemma VectorExactly(data: seq<byte>)
    ensures (exists body :: IsVector(data, body)) <==> WellFormedExt(51, data)
  {
    if WellFormedExt(51, data) {
      PutBack16(data[0], data[1]);
      assert data == [data[0], data[1]] + data[2..];
      assert IsVector(data, data[2..]);
    }
  }

  /** The precheck accepts exactly the extensions that are as their types demand. */
  lemma ProperExactly(e: Extension)
    requires |e.data| < 0x1_0000
    ensures WellFormedExt(e.typ, e.data) <==> Proper(e)
  {
    ShortListExactly(e.data);
    LongListExactly(e.data);
    VectorExactly(e.data);
    hide IsShortList, IsLongList, IsVector, WellFormedPairList;
  }

  lemma AllProperExactly(es: seq<Extension>)
    requires FitsExtensions(es)
    ensures AllWellFormed(es) <==> AllProper(es)
    ensures AllProper(es) ==> (OffersVersion(es) <==> OffersTls13(es))
  {
    hide WellFormedExt, HasPair, Proper, IsShortList;
    forall i | 0 <= i < |es|
      ensures WellFormedExt(es[i].typ, es[i].data) <==> Proper(es[i])
    {
      ProperExactly(es[i]);
    }
    if AllProper(es) {
      forall i | 0 <= i < |es| && es[i].typ == 43
        ensures |es[i].data| >= 1 && (HasPair(es[i].data[1..], VERSION_TLS13) <==> exists vs :: IsShortList(es[i].data, vs) && 0x0304 in vs)
      {
        ShortListExactly(es[i].data);
        NotEmpty(es[i].data);
      }
    }
  }

  lemma NotEmpty(data: seq<byte>)
    ensures WellFormedExt(43, data) ==> |data| >= 1
  {
  }

  /** The flags of a list meet the rules of the precheck exactly if its extensions do. */
  lemma RulesExactly(h: Hello)
    requires FitsExtensions(h.extensions)
    ensures var es := if h.hasExtensions then h.extensions else [];
            AllWellFormed(es) && MeetsStrictRules(Flags(Info(h.version, false, false, false, false), es)) <==> MayPass(h)
  {
    var es := if h.hasExtensions then h.extensions else [];
    AllProperExactly(es);
    hide AllWellFormed, AllProper, Offers, OffersVersion, OffersTls13;
  }

  /**
   Faithful: a peer that sends a ClientHello, cut into records in any way and followed by
   anything, gets through if and only if its version and its extension list meet the rules.
   */
  lemma AdmittedByItsExtensions(h: Hello, v: nat, parts: seq<seq<byte>>, rest: seq<byte>)
    requires Fits(h) && v < 0x1_0000 && IsFragmentation(parts) && Flatten(parts) == Serialize(h)
    ensures Admitted(RecordStream(v, parts) + rest) <==> MayPass(h)
  {
    ParseSerialized(h);
    SerializedLength(h);
    RulesExactly(h);
    hide Serialize, Flags, Parse, AllWellFormed, MeetsStrictRules, FindHello, MayPass;
    assert [] + Flatten(parts) == Flatten(parts);
    StreamIsLonger(v, parts);
    NoMorePartsThanBytes(parts);
    FragmentedHelloIsFound(0, 0, v, [], parts, rest);
  }

  // ------------------------------------------------------- nothing else gets through

  /** A block of extensions that is walked to its end is that of an extension list. */
  lemma {:induction false} WalkInverts(info: Info, s: seq<byte>) returns (es: seq<Extension>)
    requires WalkExts(info, s).Ok?
    ensures FitsExtensions(es) && SerializeExtensions(es) == s && AllWellFormed(es)
    decreases |s|
  {
    hide WellFormedExt, Note, WalkExts, SerializeExtensions;
    es := [];
    WalkStep(info, s);
    if s == [] {
      NoExtensions();
    } else {
      var typ, n := U16(s[0], s[1]), U16(s[2], s[3]);
      var e := Extension(typ, s[4..4 + n]);
      var rest := WalkInverts(Note(info, typ, e.data), s[4 + n..]);
      es := [e] + rest;
      PutBack16(s[0], s[1]);
      PutBack16(s[2], s[3]);
      SerializeCons(e, rest);
      hide Put16, U16;
      CutExtension(s, n);
    }
  }

  lemma NoExtensions()
    ensures SerializeExtensions([]) == []
  {
  }

  lemma CutExtension(s: seq<byte>, n: nat)
    requires 4 + n <= |s|
    ensures s == [s[0], s[1]] + [s[2], s[3]] + s[4..4 + n] + s[4 + n..]
  {
  }

  lemma SerializeCons(e: Extension, es: seq<Extension>)
    requires e.typ < 0x1_0000 && |e.data| < 0x1_0000 && FitsExtensions(es)
    ensures FitsExtensions([e] + es) && SerializeExtensions([e] + es) == Put16(e.typ) + Put16(|e.data|) + e.data + SerializeExtensions(es)
  {
    assert ([e] + es)[1..] == es;
  }

  lemma Octets24(a: byte, b: byte, c: byte)
    ensures var n := R.U24(a, b, c); n / 0x1_0000 % 256 == a && n / 256 % 256 == b && n % 256 == c
  {
    var n := R.U24(a, b, c);
    HighPart(a, 256 * b + c);
    assert n / 256 == 256 * a + b;
  }

  lemma SessionIdInverts(s: seq<byte>) returns (id: seq<byte>)
    requires AfterSessionId(s).Ok?
    ensures |id| < 256 && s == [|id|] + id + AfterSessionId(s).value
  {
    var n: int := s[0];
    id := s[1..1 + n];
  }

  lemma SuitesInvert(s: seq<byte>) returns (suites: seq<byte>)
    requires AfterCipherSuites(s).Ok?
    ensures 0 < |suites| < 0x1_0000 && |suites| % 2 == 0 && s == Put16(|suites|) + suites + AfterCipherSuites(s).value
  {
    var n := U16(s[0], s[1]);
    suites := s[2..2 + n];
    PutBack16(s[0], s[1]);
  }

  lemma CompressionInverts(s: seq<byte>) returns (c: seq<byte>)
    requires AfterCompression(s).Ok?
    ensures 0 < |c| < 256 && s == [|c|] + c + AfterCompression(s).value
  {
    var n: int := s[0];
    c := s[1..1 + n];
  }

  /** Whatever is parsed is a serialised ClientHello. */
  lemma ParseInverts(msg: seq<byte>) returns (h: Hello)
    requires Parse(msg).Ok? && R.U24(msg[1], msg[2], msg[3]) == |msg| - 4
    ensures Fits(h) && Serialize(h) == msg
  {
    hide WalkExts, AfterSessionId, AfterCipherSuites, AfterCompression;
    var s0 := msg[38..];
    var s1 := AfterSessionId(s0).value;
    var s2 := AfterCipherSuites(s1).value;
    var s3 := AfterCompression(s2).value;
    var id := SessionIdInverts(s0);
    var suites := SuitesInvert(s1);
    var comp := CompressionInverts(s2);
    var es: seq<Extension> := [];
    if s3 != [] {
      es := WalkInverts(Info(U16(msg[4], msg[5]), false, false, false, false), s3[2..]);
      PutBack16(s3[0], s3[1]);
      assert s3 == [s3[0], s3[1]] + s3[2..];
    }
    h := Hello(U16(msg[4], msg[5]), msg[6..38], id, suites, comp, s3 != [], es);
    hide AllWellFormed, SerializeExtensions;
    Reassembled(msg, h, s3);
  }

  lemma Reassembled(msg: seq<byte>, h: Hello, ext: seq<byte>)
    requires |msg| > 38 && msg[0] == CLIENT_HELLO && R.U24(msg[1], msg[2], msg[3]) == |msg| - 4
    requires Fits(h) && ExtBlock(h) == ext && h.version == U16(msg[4], msg[5]) && h.random == msg[6..38]
    requires msg[38..] == [|h.sessionId|] + h.sessionId + (Put16(|h.suites|) + h.suites + ([|h.compression|] + h.compression + ext))
    ensures Serialize(h) == msg
  {
    hide ExtBlock, SerializeExtensions, FitsExtensions;
    PutBack16(msg[4], msg[5]);
    Octets24(msg[1], msg[2], msg[3]);
    hide Put16, U16, R.U24;
    var tail := [|h.sessionId|] + h.sessionId + (Put16(|h.suites|) + h.suites + ([|h.compression|] + h.compression + ext));
    assert tail == msg[38..] && 34 + |tail| == |msg| - 4;
    Pieces(msg);
  }

  lemma Pieces(msg: seq<byte>)
    requires |msg| > 38
    ensures msg == [msg[0], msg[1], msg[2], msg[3]] + [msg[4], msg[5]] + msg[6..38] + msg[38..]
  {
  }

  /** Sound: what gets through begins with the records of a ClientHello that meets the rules. */
  lemma OnlyHellosPass(wire: seq<byte>) returns (h: Hello)
    requires Admitted(wire)
    ensures Fits(h) && MayPass(h)
    ensures var found := FindHello(0, 0, [], wire).value;
            found.hello == Serialize(h) && Serialize(h) <= R.HandshakeBytes(R.Records(wire[..found.used]))
  {
    var found := FindHello(0, 0, [], wire).value;
    FreshHelloIsFirstMessage(wire);
    hide R.Records, R.RecordRest, R.HandshakeBytes, FindHello;
    assert R.U24(found.hello[1], found.hello[2], found.hello[3]) == |found.hello| - 4;
    h := ParseInverts(found.hello);
    ParseSerialized(h);
    RulesExactly(h);
    hide Parse, Serialize, MayPass, Flags, AllWellFormed, MeetsStrictRules;
  }

  lemma {:induction false} NoMorePartsThanBytes(parts: seq<seq<byte>>)
    requires IsFragmentation(parts)
    ensures |parts| <= |Flatten(parts)|
  {
    if parts != [] {
      NoMorePartsThanBytes(parts[1..]);
    }
  }

  lemma {:induction false} StreamIsLonger(v: nat, parts: seq<seq<byte>>)
    requires v < 0x1_0000 && IsFragmentation(parts)
    ensures |RecordStream(v, parts)| == 5 * |parts| + |Flatten(parts)|
  {
    if parts != [] {
      StreamIsLonger(v, parts[1..]);
    }
  }

  lemma SerializedLength(h: Hello)
    requires Fits(h)
    ensures var msg := Serialize(h);
            && 4 < |msg| < 0x2_1000 && msg[0] == CLIENT_HELLO && R.U24(msg[1], msg[2], msg[3]) == |msg| - 4
  {
    hide SerializeExtensions, FitsExtensions;
    var n := |Serialize(h)| - 4;
    assert n < 0x100_0000;
    Split24(n);
  }

  lemma Split24(n: nat)
    requires n < 0x100_0000
    ensures R.U24(n / 0x1_0000 % 256, n / 256 % 256, n % 256) == n
  {
    var q, r := n / 256, n % 256;
    var high, mid := q / 256, q % 256;
    HighPart(high, 256 * mid + r);
  }

  lemma HighPart(high: nat, low: nat)
    requires low < 0x1_0000
    ensures (0x1_0000 * high + low) / 0x1_0000 == high
  {
  }

  /** maybeWrapStrictTLS13ServerConn, when the check applies. */
  method Wrap(conn: Wire) returns (replay: ReplayConn?)
    requires conn.Valid()
    modifies conn
    ensures conn.Valid()
    ensures replay != null <==> old(Admitted(conn.bytes[conn.pos..]))
    ensures replay != null ==> fresh(replay) && replay.conn == conn && replay.Remaining() == old(conn.bytes[conn.pos..])
  {
    hide FindHello, Parse;
    var checked := ReadClientHelloRecords(conn);
    if checked.Err? {
      return null;
    }
    var info := ParseClientHello(checked.value.hello);
    if info.Err? || !MeetsStrictRules(info.value) {
      return null;
    }
    replay := new ReplayConn(conn, checked.value.recordBuf);
    assert conn.bytes[old(conn.pos)..conn.pos] + conn.bytes[conn.pos..] == conn.bytes[old(conn.pos)..];
  }

  /**
   Transparent: whatever sizes the TLS engine then reads in, what it has read and what is
   still to come are the peer's bytes from the very first one, in order.
   */
  method PrecheckThenRead(conn: Wire, sizes: seq<nat>) returns (replay: ReplayConn?, out: seq<byte>)
    requires conn.Valid()
    modifies conn
    ensures conn.Valid() && (replay != null <==> old(Admitted(conn.bytes[conn.pos..])))
    ensures replay != null ==> replay.conn == conn && out + replay.Remaining() == old(conn.bytes[conn.pos..])
  {
    hide Admitted;
    replay := Wrap(conn);
    out := [];
    if replay == null {
      return;
    }
    assert out + replay.Remaining() == replay.Remaining();
    for i := 0 to |sizes|
      invariant conn.Valid() && fresh(replay) && replay.conn == conn
      invariant out + replay.Remaining() == old(conn.bytes[conn.pos..])
    {
      var data := replay.Read(sizes[i]);
      Regroup(out, data, replay.Remaining());
      out := out + data;
    }
  }
}
