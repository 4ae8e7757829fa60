/**
 The TLS record parser that watches a handshake for the kernel TLS set-up: it counts the
 protected records and picks out the hello randoms (sections 6.2.1 and 7.4 of RFC 5246).
 */
module RecordParser {
  import opened Bytes
  import opened Inbound

  const CHANGE_CIPHER_SPEC := 20
  const HANDSHAKE := 22
  const CLIENT_HELLO := 1
  const SERVER_HELLO := 2

  datatype Option<T> = None | Some(value: T)

  // ---------------------------------------- reference: records, messages, hellos

  /** The size of the record at the front of `s`, 0 if it is not complete. */
  function RecordSize(s: seq<byte>): nat {
    if |s| < 5 || |s| < 5 + U16(s[3], s[4]) then 0 else 5 + U16(s[3], s[4])
  }

  function U24(a: byte, b: byte, c: byte): nat {
    0x1_0000 * a + 0x100 * b + c
  }

  /** The size of the handshake message at the front of `s`, 0 if it is not complete. */
  function MessageSize(s: seq<byte>): nat {
    if |s| < 4 || |s| < 4 + U24(s[1], s[2], s[3]) then 0 else 4 + U24(s[1], s[2], s[3])
  }

  const RECORD_PARSER: Parser := s => (RecordSize(s), 0)
  const MESSAGE_PARSER: Parser := s => (MessageSize(s), 0)

  /** The complete records of a byte stream, header included, and the bytes behind them. */
  function Records(s: seq<byte>): seq<seq<byte>> { Packets(RECORD_PARSER, 0, s) }
  function RecordRest(s: seq<byte>): seq<byte> { Rest(RECORD_PARSER, 0, s) }

  /** The same for handshake messages. */
  function Messages(s: seq<byte>): seq<seq<byte>> { Packets(MESSAGE_PARSER, 0, s) }
  function MessageRest(s: seq<byte>): seq<byte> { Rest(MESSAGE_PARSER, 0, s) }

  predicate IsType(record: seq<byte>, typ: nat) {
    record != [] && record[0] == typ
  }

  /** The number of records in front of the first ChangeCipherSpec. */
  function Clear(rs: seq<seq<byte>>): (n: nat)
    ensures n <= |rs|
  {
    if rs == [] || IsType(rs[0], CHANGE_CIPHER_SPEC) then 0 else 1 + Clear(rs[1..])
  }

  /** How many of these records are not ChangeCipherSpec. */
  function CountProtected(rs: seq<seq<byte>>): nat {
    if rs == [] then 0 else
      var n := |rs| - 1;
      CountProtected(rs[..n]) + (if IsType(rs[n], CHANGE_CIPHER_SPEC) then 0 else 1)
  }

  /** The bytes of the handshake messages in these records. */
  function HandshakeBytes(rs: seq<seq<byte>>): seq<byte> {
    if rs == [] then [] else
      var n := |rs| - 1;
      HandshakeBytes(rs[..n]) + (if IsType(rs[n], HANDSHAKE) && |rs[n]| >= 5 then rs[n][5..] else [])
  }

  /** The random of the first hello of a kind that is long enough to hold one. */
  function FirstRandom(ms: seq<seq<byte>>, typ: nat): Option<seq<byte>> {
    if ms == [] then None
    else if IsType(ms[0], typ) && |ms[0]| >= 4 + 34 then Some(ms[0][6..38])
    else FirstRandom(ms[1..], typ)
  }

  /** What the parser should know after the bytes `s`. */
  datatype Knowledge = Knowledge(
    partial: seq<byte>, partialMessage: seq<byte>, cipherOn: bool, count: nat,
    client: Option<seq<byte>>, server: Option<seq<byte>>)

  function Learned(rs: seq<seq<byte>>, partial: seq<byte>): Knowledge {
    var k := Clear(rs);
    var clear := HandshakeBytes(rs[..k]);
    Knowledge(partial, MessageRest(clear), k < |rs|, if k < |rs| then CountProtected(rs[k + 1..]) else 0,
              FirstRandom(Messages(clear), CLIENT_HELLO), FirstRandom(Messages(clear), SERVER_HELLO))
  }

  function After(s: seq<byte>): Knowledge {
    Learned(Records(s), RecordRest(s))
  }

  // -------------------------------------------------------------------- lemmas

  lemma RecordsAreStable()
    ensures PrefixStable(RECORD_PARSER, 0)
  {
    forall s, t | Judge(RECORD_PARSER, 0, s) != More
      ensures Judge(RECORD_PARSER, 0, s + t) == Judge(RECORD_PARSER, 0, s)
    {
      assert RECORD_PARSER(s) == (RecordSize(s), 0) && RECORD_PARSER(s + t) == (RecordSize(s + t), 0);
    }
  }

  lemma MessagesAreStable()
    ensures PrefixStable(MESSAGE_PARSER, 0)
  {
    forall s, t | Judge(MESSAGE_PARSER, 0, s) != More
      ensures Judge(MESSAGE_PARSER, 0, s + t) == Judge(MESSAGE_PARSER, 0, s)
    {
      assert MESSAGE_PARSER(s) == (MessageSize(s), 0) && MESSAGE_PARSER(s + t) == (MessageSize(s + t), 0);
    }
  }

  lemma {:induction false} FirstRandomAppend(a: seq<seq<byte>>, b: seq<seq<byte>>, typ: nat)
    ensures FirstRandom(a + b, typ) == if FirstRandom(a, typ).Some? then FirstRandom(a, typ) else FirstRandom(b, typ)
  {
    if a == [] {
      assert a + b == b;
    } else {
      assert (a + b)[1..] == a[1..] + b;
      FirstRandomAppend(a[1..], b, typ);
    }
  }

  lemma {:induction false} ClearSnoc(rs: seq<seq<byte>>, r: seq<byte>)
    ensures Clear(rs + [r]) == if Clear(rs) < |rs| || IsType(r, CHANGE_CIPHER_SPEC) then Clear(rs) else Clear(rs) + 1
  {
    if rs == [] {
      assert rs + [r] == [r];
      assert [r][1..] == [];
    } else {
      assert (rs + [r])[1..] == rs[1..] + [r];
      ClearSnoc(rs[1..], r);
    }
  }

  lemma CountSnoc(rs: seq<seq<byte>>, r: seq<byte>)
    ensures CountProtected(rs + [r]) == CountProtected(rs) + (if IsType(r, CHANGE_CIPHER_SPEC) then 0 else 1)
  {
    assert (rs + [r])[..|rs|] == rs;
  }

  lemma CountNone()
    ensures CountProtected([]) == 0
  {
  }

  lemma HandshakeSnoc(rs: seq<seq<byte>>, r: seq<byte>)
    requires |r| >= 5
    ensures HandshakeBytes(rs + [r]) == HandshakeBytes(rs) + (if IsType(r, HANDSHAKE) then r[5..] else [])
  {
    assert (rs + [r])[..|rs|] == rs;
  }

  /** One more record after protection is on, or switching it on. */
  lemma LearnedProtected(rs: seq<seq<byte>>, r: seq<byte>, partial: seq<byte>)
    requires Clear(rs) < |rs| || IsType(r, CHANGE_CIPHER_SPEC)
    ensures var k := Learned(rs, partial);
            Learned(rs + [r], partial) == k.(cipherOn := true, count := k.count + (if IsType(r, CHANGE_CIPHER_SPEC) then 0 else 1))
  {
    hide FirstRandom, HandshakeBytes, Messages, MessageRest, Clear, CountProtected;
    ClearSnoc(rs, r);
    var n := Clear(rs);
    assert (rs + [r])[..n] == rs[..n];
    if n < |rs| {
      assert (rs + [r])[n + 1..] == rs[n + 1..] + [r];
      CountSnoc(rs[n + 1..], r);
    } else {
      assert (rs + [r])[n + 1..] == [];
      CountNone();
    }
  }

  /** One more record in the clear. */
  lemma LearnedClear(rs: seq<seq<byte>>, r: seq<byte>, partial: seq<byte>)
    requires Clear(rs) == |rs| && !IsType(r, CHANGE_CIPHER_SPEC) && |r| >= 5
    ensures var more := if IsType(r, HANDSHAKE) then r[5..] else [];
            var k := Learned(rs, partial);
            var added := Messages(k.partialMessage + more);
            Learned(rs + [r], partial) ==
              k.(partialMessage := MessageRest(k.partialMessage + more),
                 client := if k.client.Some? then k.client else FirstRandom(added, CLIENT_HELLO),
                 server := if k.server.Some? then k.server else FirstRandom(added, SERVER_HELLO))
    ensures !IsType(r, HANDSHAKE) ==> Learned(rs + [r], partial) == Learned(rs, partial)
  {
    hide FirstRandom, HandshakeBytes, Clear, CountProtected, Packets, Rest, PrefixStable;
    var more := if IsType(r, HANDSHAKE) then r[5..] else [];
    ClearSnoc(rs, r);
    HandshakeSnoc(rs, r);
    assert rs[..|rs|] == rs && (rs + [r])[..|rs| + 1] == rs + [r];
    var h := HandshakeBytes(rs);
    MessagesAreStable();
    ChunkingIndependent(MESSAGE_PARSER, 0, h, more);
    var added := Messages(MessageRest(h) + more);
    FirstRandomAppend(Messages(h), added, CLIENT_HELLO);
    FirstRandomAppend(Messages(h), added, SERVER_HELLO);
    RestIsUndecided(MESSAGE_PARSER, 0, h);
    NoRandom();
    assert MessageRest(h) + [] == MessageRest(h);
  }

  // ------------------------------------------------------------------ the parser

  class RecordParser {
    var buf: seq<byte>
    var hs: seq<byte>
    var cipherOn: bool
    var seqNo: nat
    var gotClientRandom: bool
    var gotServerRandom: bool
    var clientRandom: seq<byte>
    var serverRandom: seq<byte>

    ghost function Known(): Knowledge
      reads this
    {
      Knowledge(buf, hs, cipherOn, seqNo,
                if gotClientRandom then Some(clientRandom) else None,
                if gotServerRandom then Some(serverRandom) else None)
    }

    constructor ()
      ensures Known() == After([])
    {
      buf, hs, cipherOn, seqNo := [], [], false, 0;
      gotClientRandom, gotServerRandom, clientRandom, serverRandom := false, false, [], [];
      new;
      PacketsStep(RECORD_PARSER, 0, []);
      PacketsStep(MESSAGE_PARSER, 0, []);
    }

    /** handleHandshake: keeps the random of the first long enough hello of each kind. */
    method HandleHandshake(typ: byte, body: seq<byte>)
      modifies this`gotClientRandom, this`gotServerRandom, this`clientRandom, this`serverRandom
      ensures Known() == old(Known()).(
                client := if old(Known()).client.None? && typ == CLIENT_HELLO && |body| >= 34 then Some(body[2..34]) else old(Known()).client,
                server := if old(Known()).server.None? && typ == SERVER_HELLO && |body| >= 34 then Some(body[2..34]) else old(Known()).server)
    {
      if typ == CLIENT_HELLO {
        if gotClientRandom || |body| < 34 {
          return;
        }
        clientRandom := body[2..34];
        gotClientRandom := true;
      } else if typ == SERVER_HELLO {
        if gotServerRandom || |body| < 34 {
          return;
        }
        serverRandom := body[2..34];
        gotServerRandom := true;
      }
    }

    /** Takes the complete messages out of the handshake buffer. */
    method DrainMessages()
      modifies this
      ensures var added := Messages(old(hs));
              Known() == old(Known()).(
                partialMessage := MessageRest(old(hs)),
                client := if old(Known()).client.Some? then old(Known()).client else FirstRandom(added, CLIENT_HELLO),
                server := if old(Known()).server.Some? then old(Known()).server else FirstRandom(added, SERVER_HELLO))
    {
      hide Packets, Rest, FirstRandom;
      ghost var done: seq<seq<byte>> := [];
      NoRandom();
      while |hs| >= 4
        invariant Messages(old(hs)) == done + Messages(hs) && MessageRest(old(hs)) == MessageRest(hs)
        invariant Known() == old(Known()).(
                    partialMessage := hs,
                    client := if old(Known()).client.Some? then old(Known()).client else FirstRandom(done, CLIENT_HELLO),
                    server := if old(Known()).server.Some? then old(Known()).server else FirstRandom(done, SERVER_HELLO))
        decreases |hs|
      {
        PacketsStep(MESSAGE_PARSER, 0, hs);
        assert MESSAGE_PARSER(hs) == (MessageSize(hs), 0);
        var hsType := hs[0];
        var hsLen := U24(hs[1], hs[2], hs[3]);
        if |hs| < 4 + hsLen {
          assert done + [] == done;
          return;
        }
        var body := hs[4..4 + hsLen];
        ghost var message := hs[..4 + hsLen];
        FirstRandomAppend(done, [message], CLIENT_HELLO);
        FirstRandomAppend(done, [message], SERVER_HELLO);
        OneRandom(message, CLIENT_HELLO);
        OneRandom(message, SERVER_HELLO);
        assert hsLen >= 34 ==> message[6..38] == body[2..34];
        HandleHandshake(hsType, body);
        done := done + [message];
        hs := hs[4 + hsLen..];
      }
      PacketsStep(MESSAGE_PARSER, 0, hs);
      assert MESSAGE_PARSER(hs) == (MessageSize(hs), 0);
      assert done + [] == done;
    }

    /** handleRecord */
    method HandleRecord(typ: byte, payload: seq<byte>, ghost rs: seq<seq<byte>>, ghost r: seq<byte>)
      requires |r| >= 5 && r[0] == typ && r[5..] == payload
      requires Known() == Learned(rs, buf)
      modifies this
      ensures Known() == Learned(rs + [r], old(buf))
    {
      hide Packets, Rest, CountProtected, HandshakeBytes, FirstRandom, Messages, MessageRest;
      if typ == CHANGE_CIPHER_SPEC {
        LearnedProtected(rs, r, buf);
        cipherOn := true;
        return;
      }
      if cipherOn {
        LearnedProtected(rs, r, buf);
        seqNo := seqNo + 1;
        return;
      }
      LearnedClear(rs, r, buf);
      if typ != HANDSHAKE {
        return;
      }
      hs := hs + payload;
      DrainMessages();
    }

    /**
     feed: takes complete records out of the buffer.  After any sequence of calls the
     parser knows what the concatenation of all the data tells, however it was cut.
     */
    method Feed(data: seq<byte>, ghost fed: seq<byte>)
      requires Known() == After(fed)
      modifies this
      ensures Known() == After(fed + data)
    {
      hide Packets, Rest, Learned;
      if |data| == 0 {
        assert fed + data == fed;
        return;
      }
      RecordsAreStable();
      ChunkingIndependent(RECORD_PARSER, 0, fed, data);
      ghost var rs := Records(fed);
      assert Known() == Learned(rs, buf) && buf == RecordRest(fed) by { LearnedPartial(rs, RecordRest(fed)); }
      ghost var known := Known();
      buf := buf + data;
      LearnedAnyPartial(rs, known.partial, buf);
      while |buf| >= 5
        invariant Known() == Learned(rs, buf)
        invariant Records(fed + data) == rs + Records(buf) && RecordRest(fed + data) == RecordRest(buf)
        decreases |buf|
      {
        PacketsStep(RECORD_PARSER, 0, buf);
        assert RECORD_PARSER(buf) == (RecordSize(buf), 0);
        var typ := buf[0];
        var length := U16(buf[3], buf[4]);
        if |buf| < 5 + length {
          assert rs + [] == rs;
          return;
        }
        var payload := buf[5..5 + length];
        ghost var r := buf[..5 + length];
        ghost var was := buf;
        buf := buf[5 + length..];
        LearnedAnyPartial(rs, was, buf);
        HandleRecord(typ, payload, rs, r);
        rs := rs + [r];
        LearnedPartial(rs, was[5 + length..]);
      }
      PacketsStep(RECORD_PARSER, 0, buf);
      assert RECORD_PARSER(buf) == (RecordSize(buf), 0);
      assert rs + [] == rs;
    }
  }

  lemma LearnedPartial(rs: seq<seq<byte>>, partial: seq<byte>)
    ensures Learned(rs, partial).partial == partial
  {
  }

  lemma LearnedAnyPartial(rs: seq<seq<byte>>, a: seq<byte>, b: seq<byte>)
    ensures Learned(rs, b) == Learned(rs, a).(partial := b)
  {
  }

  /** However a stream is cut into calls, the parser ends up knowing what the whole stream tells. */
  method FeedAll(chunks: seq<seq<byte>>) returns (p: RecordParser)
    ensures p.Known() == After(Flatten(chunks))
  {
    hide After, Flatten;
    p := new RecordParser();
    assert chunks[..0] == [] && Flatten(chunks[..0]) == [] by { FlattenNothing([]); }
    for i := 0 to |chunks|
      invariant p.Known() == After(Flatten(chunks[..i]))
    {
      p.Feed(chunks[i], Flatten(chunks[..i]));
      FlattenSnoc(chunks[..i], chunks[i]);
      assert chunks[..i + 1] == chunks[..i] + [chunks[i]];
    }
    assert chunks[..|chunks|] == chunks;
  }

  lemma NoRandom()
    ensures FirstRandom([], CLIENT_HELLO) == None && FirstRandom([], SERVER_HELLO) == None
  {
  }

  lemma OneRandom(m: seq<byte>, typ: nat)
    ensures FirstRandom([m], typ) == if IsType(m, typ) && |m| >= 38 then Some(m[6..38]) else None
  {
    assert [m][1..] == [];
  }
}
