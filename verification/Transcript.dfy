/** What the record parser learns from a whole handshake: its messages, and the records that follow in protected form. */
module Transcript {
  import opened Bytes
  import opened Inbound
  import R = RecordParser
  import C = ClientHello

  /** A handshake message by its type and body. */
  datatype Msg = Msg(typ: byte, body: seq<byte>)

  predicate Fits(m: Msg) {
    |m.body| < 0x100_0000
  }

  function PutMsg(m: Msg): seq<byte>
    requires Fits(m)
  {
    var n := |m.body|;
    [m.typ, n / 0x1_0000, n / 256 % 256, n % 256] + m.body
  }

  function PutMsgs(ms: seq<Msg>): seq<seq<byte>>
    requires forall i :: 0 <= i < |ms| ==> Fits(ms[i])
  {
    seq(|ms|, i requires 0 <= i < |ms| => PutMsg(ms[i]))
  }

  /** A record by its type and payload. */
  datatype Rec = Rec(typ: byte, version: nat, payload: seq<byte>)

  predicate FitsRecord(r: Rec) {
    r.version < 0x1_0000 && |r.payload| < 0x1_0000
  }

  function PutRec(r: Rec): seq<byte>
    requires FitsRecord(r)
  {
    [r.typ] + C.Put16(r.version) + C.Put16(|r.payload|) + r.payload
  }

  function PutRecs(rs: seq<Rec>): seq<seq<byte>>
    requires forall i :: 0 <= i < |rs| ==> FitsRecord(rs[i])
  {
    seq(|rs|, i requires 0 <= i < |rs| => PutRec(rs[i]))
  }

  /** The random in the first hello of a type that is long enough to hold one: the 32 octets behind the version. */
  function FirstHello(ms: seq<Msg>, typ: nat): R.Option<seq<byte>> {
    if ms == [] then R.None
    else if ms[0].typ == typ && |ms[0].body| >= 34 then R.Some(ms[0].body[2..34])
    else FirstHello(ms[1..], typ)
  }

  // ---------------------------------------------------------------- cutting it up again

  lemma MsgIsPacket(m: Msg)
    requires Fits(m)
    ensures Judge(R.MESSAGE_PARSER, 0, PutMsg(m)) == Packet(|PutMsg(m)|)
  {
    var s, n := PutMsg(m), |m.body|;
    C.Split24(n);
    C.HighPart(0, n % 0x1_0000);
    assert n / 0x1_0000 % 256 == n / 0x1_0000;
    assert R.U24(s[1], s[2], s[3]) == n;
    assert R.MESSAGE_PARSER(s) == (R.MessageSize(s), 0);
  }

  lemma RecIsPacket(r: Rec)
    requires FitsRecord(r)
    ensures Judge(R.RECORD_PARSER, 0, PutRec(r)) == Packet(|PutRec(r)|)
  {
    var s := PutRec(r);
    assert U16(s[3], s[4]) == |r.payload|;
    assert R.RECORD_PARSER(s) == (R.RecordSize(s), 0);
  }

  lemma NothingIsMore()
    ensures Judge(R.RECORD_PARSER, 0, []) == More && Judge(R.MESSAGE_PARSER, 0, []) == More
  {
    assert R.RECORD_PARSER([]) == (R.RecordSize([]), 0) && R.MESSAGE_PARSER([]) == (R.MessageSize([]), 0);
  }

  /** Records and messages come back as they were put. */
  lemma RecordsComeBack(rs: seq<Rec>)
    requires forall i :: 0 <= i < |rs| ==> FitsRecord(rs[i])
    ensures R.Records(Flatten(PutRecs(rs))) == PutRecs(rs) && R.RecordRest(Flatten(PutRecs(rs))) == []
  {
    R.RecordsAreStable();
    NothingIsMore();
    hide Packets, Rest, Judge, PrefixStable, Flatten;
    var ps := PutRecs(rs);
    forall i | 0 <= i < |ps|
      ensures Judge(R.RECORD_PARSER, 0, ps[i]) == Packet(|ps[i]|)
    {
      RecIsPacket(rs[i]);
    }
    CutBack(R.RECORD_PARSER, 0, ps);
  }

  lemma MessagesComeBack(ms: seq<Msg>)
    requires forall i :: 0 <= i < |ms| ==> Fits(ms[i])
    ensures R.Messages(Flatten(PutMsgs(ms))) == PutMsgs(ms) && R.MessageRest(Flatten(PutMsgs(ms))) == []
  {
    R.MessagesAreStable();
    NothingIsMore();
    hide Packets, Rest, Judge, PrefixStable, Flatten;
    var ps := PutMsgs(ms);
    forall i | 0 <= i < |ps|
      ensures Judge(R.MESSAGE_PARSER, 0, ps[i]) == Packet(|ps[i]|)
    {
      MsgIsPacket(ms[i]);
    }
    CutBack(R.MESSAGE_PARSER, 0, ps);
  }

  lemma {:induction false} RandomsComeBack(ms: seq<Msg>, typ: nat)
    requires forall i :: 0 <= i < |ms| ==> Fits(ms[i])
    ensures R.FirstRandom(PutMsgs(ms), typ) == FirstHello(ms, typ)
  {
    if ms != [] {
      var m := PutMsg(ms[0]);
      assert PutMsgs(ms)[0] == m && PutMsgs(ms)[1..] == PutMsgs(ms[1..]);
      assert |ms[0].body| >= 34 ==> m[6..38] == ms[0].body[2..34];
      RandomsComeBack(ms[1..], typ);
    }
  }

  /** The handshake records of a message stream, cut in any way. */
  function Handshake(version: nat, parts: seq<seq<byte>>): seq<Rec> {
    seq(|parts|, i requires 0 <= i < |parts| => Rec(22, version, parts[i]))
  }

  predicate FitsParts(version: nat, parts: seq<seq<byte>>) {
    version < 0x1_0000 && forall i :: 0 <= i < |parts| ==> |parts[i]| < 0x1_0000
  }

  lemma {:induction false} HandshakeComesBack(version: nat, parts: seq<seq<byte>>)
    requires FitsParts(version, parts)
    ensures R.HandshakeBytes(PutRecs(Handshake(version, parts))) == Flatten(parts)
  {
    if parts != [] {
      var n := |parts| - 1;
      var rs, r := PutRecs(Handshake(version, parts[..n])), PutRec(Rec(22, version, parts[n]));
      assert PutRecs(Handshake(version, parts)) == rs + [r];
      assert r[5..] == parts[n];
      HandshakeComesBack(version, parts[..n]);
      R.HandshakeSnoc(rs, r);
      assert parts == parts[..n] + [parts[n]];
      FlattenSnoc(parts[..n], parts[n]);
    }
  }

  lemma {:induction false} ClearUpTo(front: seq<seq<byte>>, ccs: seq<byte>, back: seq<seq<byte>>)
    requires R.IsType(ccs, 20) && forall i :: 0 <= i < |front| ==> !R.IsType(front[i], 20)
    ensures R.Clear(front + [ccs] + back) == |front| && R.Clear(front) == |front|
  {
    var all := front + [ccs] + back;
    if front == [] {
      assert all[0] == ccs;
    } else {
      assert all[0] == front[0] && all[1..] == front[1..] + [ccs] + back;
      ClearUpTo(front[1..], ccs, back);
    }
  }

  lemma {:induction false} AllCounted(rs: seq<seq<byte>>)
    requires forall i :: 0 <= i < |rs| ==> !R.IsType(rs[i], 20)
    ensures R.CountProtected(rs) == |rs|
  {
    if rs != [] {
      AllCounted(rs[..|rs| - 1]);
    }
  }

  // ------------------------------------------------------------------- what is learned

  /** Before the change of cipher: the randoms of the first hellos, whatever way the messages are cut into records. */
  lemma ClearHandshakeIsLearned(version: nat, ms: seq<Msg>, parts: seq<seq<byte>>)
    requires (forall i :: 0 <= i < |ms| ==> Fits(ms[i])) && FitsParts(version, parts) && Flatten(parts) == Flatten(PutMsgs(ms))
    ensures R.After(Flatten(PutRecs(Handshake(version, parts)))) == R.Knowledge([], [], false, 0, FirstHello(ms, 1), FirstHello(ms, 2))
  {
    hide R.Records, R.RecordRest, R.Messages, R.MessageRest, R.HandshakeBytes, R.Clear, R.FirstRandom, Flatten, PutMsgs;
    var rs := PutRecs(Handshake(version, parts));
    RecordsComeBack(Handshake(version, parts));
    MessagesComeBack(ms);
    HandshakeComesBack(version, parts);
    RandomsComeBack(ms, 1);
    RandomsComeBack(ms, 2);
    ClearUpTo(rs, [20], []);
    assert rs[..|rs|] == rs;
  }

  lemma PutTogether(front: seq<Rec>, ccs: Rec, back: seq<Rec>)
    requires FitsRecord(ccs) && forall r :: r in front || r in back ==> FitsRecord(r)
    requires ccs.typ == 20 && (forall r :: r in front || r in back ==> r.typ != 20)
    ensures (forall r :: r in front + [ccs] + back ==> FitsRecord(r))
    ensures var all := PutRecs(front + [ccs] + back);
            && all == PutRecs(front) + [PutRec(ccs)] + PutRecs(back)
            && all[..|front|] == PutRecs(front) && all[|front| + 1..] == PutRecs(back)
    ensures R.IsType(PutRec(ccs), 20)
    ensures forall i :: 0 <= i < |front| ==> !R.IsType(PutRecs(front)[i], 20)
    ensures forall i :: 0 <= i < |back| ==> !R.IsType(PutRecs(back)[i], 20)
  {
    hide C.Put16;
  }

  /**
   A whole handshake: messages cut into records in any way, a change of cipher, and records
   behind it, which are counted and not looked into.
   */
  lemma HandshakeIsLearned(version: nat, ms: seq<Msg>, parts: seq<seq<byte>>, ccs: Rec, others: seq<Rec>)
    requires (forall i :: 0 <= i < |ms| ==> Fits(ms[i])) && FitsParts(version, parts) && Flatten(parts) == Flatten(PutMsgs(ms))
    requires FitsRecord(ccs) && ccs.typ == 20 && forall i :: 0 <= i < |others| ==> FitsRecord(others[i]) && others[i].typ != 20
    ensures var rs := Handshake(version, parts) + [ccs] + others;
            R.After(Flatten(PutRecs(rs))) == R.Knowledge([], [], true, |others|, FirstHello(ms, 1), FirstHello(ms, 2))
  {
    hide R.Records, R.RecordRest, R.Messages, R.MessageRest, R.HandshakeBytes, R.Clear, R.FirstRandom, R.CountProtected, Flatten, PutMsgs;
    hide FirstHello, PutRec;
    var rs := Handshake(version, parts) + [ccs] + others;
    var front, back := PutRecs(Handshake(version, parts)), PutRecs(others);
    PutTogether(Handshake(version, parts), ccs, others);
    RecordsComeBack(rs);
    MessagesComeBack(ms);
    HandshakeComesBack(version, parts);
    RandomsComeBack(ms, 1);
    RandomsComeBack(ms, 2);
    ClearUpTo(front, PutRec(ccs), back);
    AllCounted(back);
  }

  /** A serialised ClientHello is such a message, and its random is learned. */
  lemma ClientHelloIsLearned(h: C.Hello, version: nat, parts: seq<seq<byte>>)
    requires C.Fits(h) && FitsParts(version, parts) && Flatten(parts) == C.Serialize(h)
    ensures R.After(Flatten(PutRecs(Handshake(version, parts)))).client == R.Some(h.random)
  {
    var msg := C.Serialize(h);
    C.SerializedLength(h);
    var m := Msg(1, msg[4..]);
    assert msg[6..38] == h.random;
    hide C.Serialize, C.Fits, R.After;
    assert m.body[2..34] == msg[6..38];
    Split(msg);
    assert PutMsgs([m]) == [msg] && [msg][1..] == [];
    assert Flatten([msg]) == msg;
    ClearHandshakeIsLearned(version, [m], parts);
  }

  lemma Split(msg: seq<byte>)
    requires 4 < |msg| < 0x100_0000 && msg[0] == 1 && R.U24(msg[1], msg[2], msg[3]) == |msg| - 4
    ensures PutMsg(Msg(1, msg[4..])) == msg
  {
    C.Octets24(msg[1], msg[2], msg[3]);
    var n := |msg| - 4;
    assert n / 0x1_0000 < 256;
    assert msg == [msg[0], msg[1], msg[2], msg[3]] + msg[4..];
  }
}
