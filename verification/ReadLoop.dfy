/**
 The inbound path: `processRead` reads into the loop's shared buffer or the
 connection's private ring, hands complete packets to the handler and keeps the
 leftover for the next read.
 */
module ReadLoop {
  import opened Bytes
  import opened Pool
  import opened RingBuffer
  import opened Inbound

  // ----------------------------------------------------------------- the peer

  /** What the kernel has in store for successive reads; afterwards reads return EAGAIN. */
  datatype Arrival = Data(bytes: seq<byte>) | Again | Eof | Failure

  function Size(script: seq<Arrival>): nat {
    if script == [] then 0 else
      1 + (if script[0].Data? then |script[0].bytes| else 0) + Size(script[1..])
  }

  /** What a read with room for some bytes makes of what has arrived. */
  ghost predicate Reads(script: seq<Arrival>, script': seq<Arrival>, room: nat, data: seq<byte>, n: int, err: Errno) {
    if script == [] then script' == [] && data == [] && n == 0 && err == EAGAIN
    else
      match script[0]
      case Again => script' == script[1..] && data == [] && n == 0 && err == EAGAIN
      case Eof => script' == script[1..] && data == [] && n == 0 && err == NoError
      case Failure => script' == script[1..] && data == [] && n == -1 && err == OtherError
      case Data(bytes) =>
        && err == NoError && n == Min(|bytes|, room) && data == bytes[..n]
        && script' == (if n < |bytes| then [Data(bytes[n..])] else []) + script[1..]
  }

  /** What can be read before the socket has nothing more. */
  function Arrived(script: seq<Arrival>): seq<byte> {
    if script == [] || !script[0].Data? then [] else script[0].bytes + Arrived(script[1..])
  }

  /** What is read comes off the front of what has arrived. */
  lemma ReadsOff(script: seq<Arrival>, script': seq<Arrival>, room: nat, data: seq<byte>, n: int, err: Errno)
    requires Reads(script, script', room, data, n, err)
    ensures err != EAGAIN ==> data + Arrived(script') == Arrived(script) || !script[0].Data?
    ensures err == EAGAIN ==> Arrived(script) == [] && data == []
    ensures n > 0 ==> script != [] && script[0].Data?
  {
    if script != [] && script[0].Data? {
      var bytes := script[0].bytes;
      if n < |bytes| {
        assert script'[1..] == script[1..];
        assert bytes[..n] + bytes[n..] == bytes;
        assert data + (bytes[n..] + Arrived(script[1..])) == (data + bytes[n..]) + Arrived(script[1..]);
      } else {
        assert script' == script[1..] && bytes[..n] == bytes;
      }
    }
  }

  /** The peer neither ends the stream nor fails. */
  ghost predicate GoesOnSending(script: seq<Arrival>) {
    forall i :: 0 <= i < |script| ==> script[i].Again? || (script[i].Data? && script[i].bytes != [])
  }

  lemma StillSending(script: seq<Arrival>, script': seq<Arrival>, room: nat, data: seq<byte>, n: int, err: Errno)
    requires Reads(script, script', room, data, n, err) && GoesOnSending(script) && room > 0
    ensures GoesOnSending(script') && (err == EAGAIN || (err == NoError && n > 0))
  {
    if script != [] {
      var rest := script[1..];
      assert GoesOnSending(rest);
      assert script[0].Data? && n < |script[0].bytes| ==> script'[0] == Data(script[0].bytes[n..]) && script'[1..] == rest;
    }
  }

  /** The stream ends here, or the read fails. */
  predicate EndsHere(script: seq<Arrival>) {
    script != [] && (script[0].Eof? || script[0].Failure? || script[0] == Data([]))
  }

  /** What a round has read, of what had arrived. */
  ghost predicate Took(script: seq<Arrival>, script': seq<Arrival>, received: seq<byte>, received': seq<byte>, n: int, eagain: bool) {
    if eagain then n == 0 && received' == received && Arrived(script) == []
    else n > 0 && |received'| == |received| + n && received' + Arrived(script') == received + Arrived(script)
  }

  /** A read that is not the end of the stream. */
  lemma ReadsMeans(script: seq<Arrival>, script': seq<Arrival>, room: nat, data: seq<byte>, n: int, err: Errno)
    requires Reads(script, script', room, data, n, err) && room > 0
    ensures err == EAGAIN <==> script == [] || script[0].Again?
    ensures (err != NoError && err != EAGAIN) || (n <= 0 && err != EAGAIN) <==> EndsHere(script)
    ensures (err == EAGAIN || n > 0) ==> forall received: seq<byte> :: Took(script, script', received, received + data, n, err == EAGAIN)
    ensures GoesOnSending(script) ==> GoesOnSending(script') && (err == EAGAIN || n > 0)
  {
    ReadsOff(script, script', room, data, n, err);
    if GoesOnSending(script) {
      StillSending(script, script', room, data, n, err);
    }
    hide GoesOnSending, Arrived;
    forall received: seq<byte> | err == EAGAIN || n > 0
      ensures Took(script, script', received, received + data, n, err == EAGAIN)
    {
      assert received + [] == received;
      assert (received + data) + Arrived(script') == received + (data + Arrived(script'));
    }
  }

  class Peer {
    var script: seq<Arrival>
    ghost var received: seq<byte>   // everything read so far

    /** Conn.Read into buf[lo..]. */
    method Read(buf: array<byte>, lo: nat) returns (n: int, err: Errno)
      requires lo < buf.Length
      modifies this, buf
      ensures err == EAGAIN ==> n == 0
      ensures n > 0 ==> err == NoError && lo + n <= buf.Length
      ensures received == old(received) + (if n > 0 then buf[lo..lo + n] else [])
      ensures buf[..lo] == old(buf[..lo])
      ensures err != EAGAIN ==> Size(script) < Size(old(script))
      ensures Size(script) <= Size(old(script))
      ensures Reads(old(script), script, buf.Length - lo, if n > 0 then buf[lo..lo + n] else [], n, err)
    {
      if script == [] {
        return 0, EAGAIN;
      }
      var first := script[0];
      match first {
        case Again =>
          script := script[1..];
          return 0, EAGAIN;
        case Eof =>
          script := script[1..];
          return 0, NoError;
        case Failure =>
          script := script[1..];
          return -1, OtherError;
        case Data(bytes) =>
          n := Min(|bytes|, buf.Length - lo);
          err := NoError;
          forall i | 0 <= i < n {
            buf[lo + i] := bytes[i];
          }
          assert buf[lo..lo + n] == bytes[..n];
          received := received + bytes[..n];
          var was := script;
          script := (if n < |bytes| then [Data(bytes[n..])] else []) + was[1..];
          assert n < |bytes| ==> script[0] == Data(bytes[n..]) && script[1..] == was[1..];
          assert n == |bytes| ==> script == was[1..];
      }
    }
  }

  // ------------------------------------------------------------- the read loop

  datatype Outcome =
    | Open      // back to the poller
    | Closing   // the handler asked for the connection to be closed
    | BadPacket // a parse error, or a packet over the size limit
    | Closed    // end of stream, a failed read or write, or a buffer that cannot grow

  /** A round that ends well keeps nothing or an unfinished packet; a bad packet is one by the parser's answer. */
  ghost predicate Fits(parse: Parser, sizeLimit: int, rest: seq<byte>, outcome: Outcome) {
    && (outcome == BadPacket ==> Judge(parse, sizeLimit, rest).Bad?)
    && (outcome == Open ==> rest == [] || Judge(parse, sizeLimit, rest) == More)
  }

  /** `done` are the packets of `stream` in front of `lo`. */
  ghost predicate HandedOut(parse: Parser, sizeLimit: int, stream: seq<byte>, lo: nat, done: seq<seq<byte>>)
    requires lo <= |stream|
  {
    && Packets(parse, sizeLimit, stream) == done + Packets(parse, sizeLimit, stream[lo..])
    && Rest(parse, sizeLimit, stream) == Rest(parse, sizeLimit, stream[lo..])
    && Flatten(done) == stream[..lo]
  }

  lemma NoneHandedOut(parse: Parser, sizeLimit: int, stream: seq<byte>)
    ensures HandedOut(parse, sizeLimit, stream, 0, [])
  {
    assert stream[0..] == stream && stream[..0] == [];
  }

  lemma PrefixBehind(front: seq<seq<byte>>, part: seq<seq<byte>>, all: seq<seq<byte>>)
    requires part <= all
    ensures front <= front + part <= front + all
  {
  }

  lemma JudgeMeans(parse: Parser, sizeLimit: int, s: seq<byte>)
    ensures var (length, expected) := parse(s);
            var v := Judge(parse, sizeLimit, s);
            && (v.Bad? <==> length < 0 || expected > sizeLimit || length > |s|)
            && (v.Packet? ==> v.length == length)
            && (v == More <==> !v.Bad? && length == 0)
  {
  }

  /** What the parser's answer at `lo` means for the packets that are left. */
  lemma SomeHandedOut(parse: Parser, sizeLimit: int, stream: seq<byte>, lo: nat, done: seq<seq<byte>>)
    requires lo <= |stream| && HandedOut(parse, sizeLimit, stream, lo, done)
    ensures done <= Packets(parse, sizeLimit, stream)
    ensures var input := stream[lo..];
            var (length, expected) := parse(input);
            var rest := Rest(parse, sizeLimit, stream);
            if length < 0 || expected > sizeLimit || length > |input| then
              Packets(parse, sizeLimit, stream) == done && Fits(parse, sizeLimit, rest, BadPacket)
            else if length == 0 then
              Packets(parse, sizeLimit, stream) == done && rest == input && Fits(parse, sizeLimit, rest, Open)
            else
              HandedOut(parse, sizeLimit, stream, lo + length, done + [input[..length]])
    ensures lo == |stream| ==>
              Packets(parse, sizeLimit, stream) == done && Rest(parse, sizeLimit, stream) == [] && Fits(parse, sizeLimit, [], Open)
  {
    hide Packets, Rest, Flatten, Judge;
    var input := stream[lo..];
    PacketsStep(parse, sizeLimit, input);
    JudgeMeans(parse, sizeLimit, input);
    var v := Judge(parse, sizeLimit, input);
    if v.Packet? {
      assert input[v.length..] == stream[lo + v.length..];
      assert stream[..lo] + input[..v.length] == stream[..lo + v.length];
      FlattenSnoc(done, input[..v.length]);
      Associate(done, [input[..v.length]], Packets(parse, sizeLimit, input[v.length..]));
    }
  }

  /** What the rest is, in terms of the parser's answer at `lo`. */
  lemma SomeRest(parse: Parser, sizeLimit: int, stream: seq<byte>, lo: nat, done: seq<seq<byte>>)
    requires lo <= |stream| && HandedOut(parse, sizeLimit, stream, lo, done)
    ensures var (length, expected) := parse(stream[lo..]);
            length <= 0 || length > |stream[lo..]| || expected > sizeLimit ==> Rest(parse, sizeLimit, stream) == stream[lo..]
    ensures lo == |stream| ==> Rest(parse, sizeLimit, stream) == []
  {
    hide Packets, Rest, Flatten, Judge;
    PacketsStep(parse, sizeLimit, stream[lo..]);
    JudgeMeans(parse, sizeLimit, stream[lo..]);
    SomeHandedOut(parse, sizeLimit, stream, lo, done);
  }

  lemma AskedFor(parse: Parser)
    ensures AsksForMore(parse) ==> forall s :: parse(s).0 == 0 ==> parse(s).1 > |s|
  {
  }

  /** Where a wish to close leaves off. */
  lemma StopsAt(parse: Parser, sizeLimit: int, stream: seq<byte>, lo: nat, done: seq<seq<byte>>)
    requires lo <= |stream| && HandedOut(parse, sizeLimit, stream, lo, done) && done != []
    ensures Taken(parse, sizeLimit, stream, |done|) == done
    ensures Untaken(parse, sizeLimit, stream, |done|) == [] <==> lo == |stream|
  {
    hide Packets, Rest, Flatten;
    var ps := Packets(parse, sizeLimit, stream);
    assert ps[..|done|] == done;
    assert |done| == |ps| ==> ps == done;
  }

  /**
   The connection was closed in a turn that did not come to its end: of the packets in it
   some were delivered, and all of them if a bad one came behind them.
   */
  ghost predicate BrokeOff(parse: Parser, sizeLimit: int, turns: seq<Turn>, received: seq<byte>, delivered: seq<seq<byte>>, outcome: Outcome) {
    && Came(turns) <= received
    && var s := Kept(parse, sizeLimit, turns) + received[|Came(turns)|..];
       && Handed(parse, sizeLimit, turns) <= delivered <= Handed(parse, sizeLimit, turns) + Packets(parse, sizeLimit, s)
       && (outcome == BadPacket ==>
            && delivered == Handed(parse, sizeLimit, turns) + Packets(parse, sizeLimit, s)
            && Judge(parse, sizeLimit, Rest(parse, sizeLimit, s)).Bad?)
  }

  /** A turn that ended in the middle. */
  lemma BreaksOff(parse: Parser, sizeLimit: int, turns: seq<Turn>, data: seq<byte>, delivered: seq<seq<byte>>, outcome: Outcome)
    requires var s := Kept(parse, sizeLimit, turns) + data;
             && Handed(parse, sizeLimit, turns) <= delivered <= Handed(parse, sizeLimit, turns) + Packets(parse, sizeLimit, s)
             && (outcome == BadPacket ==>
                  && delivered == Handed(parse, sizeLimit, turns) + Packets(parse, sizeLimit, s)
                  && Fits(parse, sizeLimit, Rest(parse, sizeLimit, s), BadPacket))
    ensures BrokeOff(parse, sizeLimit, turns, Came(turns) + data, delivered, outcome)
  {
    hide Packets, Rest, Judge, Kept, Handed, Came;
    assert (Came(turns) + data)[|Came(turns)|..] == data;
  }

  /** A turn of which nothing was handed over. */
  lemma BreaksOffAtOnce(parse: Parser, sizeLimit: int, turns: seq<Turn>, data: seq<byte>)
    ensures BrokeOff(parse, sizeLimit, turns, Came(turns) + data, Handed(parse, sizeLimit, turns), Closed)
    ensures BrokeOff(parse, sizeLimit, turns, Came(turns), Handed(parse, sizeLimit, turns), Closed)
  {
    hide Packets, Rest, Judge, Kept, Handed, Came;
    BreaksOff(parse, sizeLimit, turns, data, Handed(parse, sizeLimit, turns), Closed);
    BreaksOff(parse, sizeLimit, turns, [], Handed(parse, sizeLimit, turns), Closed);
    assert Came(turns) + [] == Came(turns);
  }

  lemma NothingAsked(asks: Wish, before: seq<seq<byte>>)
    ensures AsksAt(asks, before, [], 0)
    ensures forall parse, sizeLimit :: AsWished(parse, sizeLimit, asks, [])
  {
  }

  /** What was delivered up to the end of a connection. */
  lemma BrokenRight(parse: Parser, sizeLimit: int, asks: Wish, turns: seq<Turn>, received: seq<byte>, delivered: seq<seq<byte>>, outcome: Outcome)
    requires PrefixStable(parse, sizeLimit) && AsWished(parse, sizeLimit, asks, turns)
    requires BrokeOff(parse, sizeLimit, turns, received, delivered, outcome)
    ensures var packets := Packets(parse, sizeLimit, received);
            RightUpToWish(asks, delivered, packets) || (if outcome == BadPacket then delivered == packets else delivered <= packets)
  {
    hide PrefixStable, AsWished, Packets, Rest, Judge, Kept, Handed, Came, RightUpToWish;
    var came := Came(turns);
    var data := received[|came|..];
    assert came + data == received;
    ChunkingIndependent(parse, sizeLimit, came, data);
    OneParseUpToWish(parse, sizeLimit, asks, turns);
    if !OneParse(parse, sizeLimit, turns) {
      StaysRightUpToWish(asks, Handed(parse, sizeLimit, turns), Packets(parse, sizeLimit, came), delivered, Packets(parse, sizeLimit, received));
    }
  }

  /** How a round ends behind its packets: whether the drain fails, leaves output pending, or leaves too much of it. */
  datatype RoundEnd = RoundEnd(drainFailed: bool, pending: bool, tooMuch: bool)

  /** The parser asks for more than it has when it asks for more. */
  ghost predicate AsksForMore(parse: Parser) {
    forall s :: parse(s).0 == 0 ==> parse(s).1 > |s|
  }

  class Reader {
    const ring: RingBuffer       // private buffer of the connection
    const shared: array<byte>    // receive buffer of the loop
    const pool: BufferPool
    const peer: Peer
    const parse: Parser
    const sizeLimit: int         // pktSizeLimit
    const maxRead: int           // tuning.MaxReadBytesPerEvent
    const plain: bool            // TYPE_CONN
    const asks: Wish             // whether OnData, with this packet, wants to close
    const fails: Wish            // whether its answer cannot be sent
    const ends: nat -> RoundEnd  // what becomes of the output of each round
    var rounds: nat
    var delivered: seq<seq<byte>>   // the packets handed to OnData
    ghost var turns: seq<Turn>      // the reads so far

    ghost predicate Valid()
      reads this, ring
    {
      && pool.Valid() && ring.pool == pool && ring.Valid() && ring.buf != shared
      && 0 < shared.Length <= pool.max
      && PrefixStable(parse, sizeLimit)
    }

    /** Delivered packets, kept bytes and received bytes are those of the turns so far, which stop where OnData asks for it. */
    ghost predicate Faithful()
      requires Valid()
      reads this, ring, ring.buf, peer
    {
      && delivered == Handed(parse, sizeLimit, turns)
      && ring.Contents() == Kept(parse, sizeLimit, turns)
      && peer.received == Came(turns)
      && AsWished(parse, sizeLimit, asks, turns)
    }

    /** The private buffer is full and cannot be doubled, and the shared one is no larger. */
    ghost predicate NoRoom()
      requires Valid()
      reads this, ring, ring.buf
    {
      ring.size > 0 && ring.Free() == 0 && shared.Length <= ring.size && 2 * ring.size > pool.max
    }

    /** Nothing gives a reason to close the connection: neither the peer, nor the handler, nor its output, nor the size of packets. */
    ghost predicate NoReasonToClose()
      requires Valid()
      reads this, ring, ring.buf, peer
    {
      && GoesOnSending(peer.script) && (forall ps :: !asks(ps) && !fails(ps))
      && (forall k :: !ends(k).drainFailed && !ends(k).tooMuch)
      && AsksForMore(parse) && sizeLimit <= pool.max && HasRoom()
    }

    /** What is left over does not fill the private buffer. */
    ghost predicate HasRoom()
      requires Valid()
      reads this, ring, ring.buf
    {
      ring.Contents() == [] || |ring.Contents()| < ring.size
    }

    ghost predicate BrokenOff(outcome: Outcome)
      reads this, peer
    {
      AsWished(parse, sizeLimit, asks, turns) && BrokeOff(parse, sizeLimit, turns, peer.received, delivered, outcome)
    }

    constructor (pool: BufferPool, shared: array<byte>, peer: Peer, parse: Parser, sizeLimit: int, maxRead: int, plain: bool,
                 asks: Wish, fails: Wish, ends: nat -> RoundEnd)
      requires pool.Valid() && 0 < shared.Length <= pool.max && PrefixStable(parse, sizeLimit)
      ensures Valid() && fresh(ring) && fresh(ring.buf) && ring.Contents() == [] && delivered == [] && turns == []
      ensures this.pool == pool && this.shared == shared && this.peer == peer
      ensures this.parse == parse && this.sizeLimit == sizeLimit && this.maxRead == maxRead && this.plain == plain && this.asks == asks
      ensures this.fails == fails && this.ends == ends
    {
      this.pool, this.shared, this.peer := pool, shared, peer;
      this.parse, this.sizeLimit, this.maxRead, this.plain, this.asks := parse, sizeLimit, maxRead, plain, asks;
      this.fails, this.ends, rounds := fails, ends, 0;
      ring := new RingBuffer(pool);
      delivered, turns := [], [];
    }

    /** Doubles a full private buffer. */
    method Grow() returns (ok: bool)
      requires Valid() && ring.size > 0 && ring.Free() == 0
      modifies ring, pool`puts
      ensures Valid() && ring.Contents() == old(ring.Contents())
      ensures ring.buf == old(ring.buf) || fresh(ring.buf)
      ensures ok <==> 2 * old(ring.size) <= pool.max
      ensures ok ==> ring.size > |ring.Contents()|
    {
      hide View, Place, PrefixStable, BufferPool.Valid;
      var bigger := pool.Get(ring.size * 2);
      if bigger == null {
        return false;
      }
      var bytes := ring.AlignBytes();
      CopyRange(bigger, 0, bytes, 0, bytes.Length);
      ghost var n := bytes.Length;
      assert bigger[..n] == bytes[..n];
      ring.Update(bigger);
      PlaceZero(ring.size);
      ViewSlices(bigger[..], 0, n);
      var res := ring.Forward(bytes.Length, OpWrite);
      ok := true;
    }

    /**
     The buffer to read into, holding the leftover at its front: the shared buffer when
     nothing is left over or when it has more room, else the private one, doubled when full.
     There is always room for at least one more byte.
     */
    method ChooseBuffer() returns (ok: bool, recv: array<byte>, left: nat)
      requires Valid()
      modifies ring, shared, pool`puts
      ensures Valid() && ring.Contents() == old(ring.Contents())
      ensures ring.buf == old(ring.buf) || fresh(ring.buf)
      ensures left == |ring.Contents()|
      ensures recv == shared || recv == ring.buf
      ensures left == 0 ==> recv == shared
      ensures ok ==> left < recv.Length <= pool.max && recv[..left] == ring.Contents()
      ensures ok && recv == ring.buf ==> Place(ring.r, ring.size) == 0
      ensures !ok <==> old(NoRoom())
    {
      hide View, Place, PrefixStable;
      left := ring.Has();
      recv := shared;
      if left > 0 {
        if shared.Length - left > ring.size - left {
          var privateBuf := ring.AlignBytes();
          CopyRange(shared, 0, privateBuf, 0, left);
          assert shared[..left] == privateBuf[..left];
        } else {
          if ring.Free() == 0 {
            ok := Grow();
            if !ok {
              return;
            }
          }
          recv := ring.AlignBytes();
        }
      }
      ok := true;
    }

    /** Keeps the incomplete packet recv[lo..have] in the private buffer. */
    method KeepLeftover(recv: array<byte>, lo: nat, have: nat, expected: int) returns (ok: bool)
      requires Valid() && lo < have <= recv.Length <= pool.max
      requires recv == shared || recv == ring.buf
      modifies ring, ring.buf, pool`puts
      ensures Valid()
      ensures ring.buf == old(ring.buf) || fresh(ring.buf)
      ensures ok ==> ring.Contents() == old(recv[lo..have])
      ensures !ok ==> expected > pool.max
      ensures ok && expected > have - lo ==> |ring.Contents()| < ring.size
    {
      hide View, Place, PrefixStable, BufferPool.Valid, Spill;
      if expected > ring.size {
        var bigger := pool.Get(expected);
        if bigger == null {
          return false;
        }
        ring.Update(bigger);
      } else {
        ring.Truncate();
      }
      var n := ring.Write(recv, lo, have, have - lo, true);
      ok := true;
    }

    /**
     Hands out the packets in recv[..have] one after the other.  OnData may ask for the
     connection to be closed after any packet; its output may fail to be sent.
     */
    method DeliverPackets(recv: array<byte>, have: nat) returns (outcome: Outcome, ghost stop: nat)
      requires Valid() && have <= recv.Length <= pool.max
      requires recv == shared || recv == ring.buf
      requires have == 0 ==> ring.Contents() == []
      modifies this`delivered, ring, ring.buf, pool`puts
      ensures Valid()
      ensures ring.buf == old(ring.buf) || fresh(ring.buf)
      ensures old(delivered) <= delivered <= old(delivered) + Packets(parse, sizeLimit, old(recv[..have]))
      ensures outcome == Open || outcome == BadPacket ==>
                && delivered == old(delivered) + Packets(parse, sizeLimit, old(recv[..have]))
                && Fits(parse, sizeLimit, Rest(parse, sizeLimit, old(recv[..have])), outcome)
      ensures outcome == Open ==>
                && ring.Contents() == Rest(parse, sizeLimit, old(recv[..have]))
                && AsksAt(asks, old(delivered), Packets(parse, sizeLimit, old(recv[..have])), 0)
      ensures outcome == Closing ==>
                && stop > 0 && delivered == old(delivered) + Taken(parse, sizeLimit, old(recv[..have]), stop)
                && AsksAt(asks, old(delivered), Taken(parse, sizeLimit, old(recv[..have]), stop), stop)
                && ring.Contents() == if Untaken(parse, sizeLimit, old(recv[..have]), stop) == [] then [] else old(ring.Contents())
      ensures var rest := Rest(parse, sizeLimit, old(recv[..have]));
              var (length, expected) := parse(rest);
              match outcome
              case BadPacket => length < 0 || length > |rest| || expected > sizeLimit
              case Open => rest == [] || (length == 0 && expected <= sizeLimit)
              case Closed => (|delivered| > |old(delivered)| && fails(delivered)) || (length == 0 && pool.max < expected <= sizeLimit)
              case Closing => asks(delivered)
      ensures outcome == Open && AsksForMore(parse) ==> HasRoom()
    {
      hide View, Place, Packets, Rest, Judge, Fits, HandedOut, Taken, Untaken, AsksAt, RingBuffer.Contents, PrefixStable, BufferPool.Valid, AsksForMore;
      ghost var stream := recv[..have];
      AskedFor(parse);
      ghost var done: seq<seq<byte>> := [];
      var lo := 0;
      stop := 0;
      NoneHandedOut(parse, sizeLimit, stream);
      NothingAsked(asks, delivered);
      while true
        invariant Valid() && 0 <= lo <= have && recv[..have] == stream && ring.buf == old(ring.buf)
        invariant ring.Contents() == old(ring.Contents())
        invariant have > 0 ==> lo < have
        invariant delivered == old(delivered) + done
        invariant HandedOut(parse, sizeLimit, stream, lo, done) && AsksAt(asks, old(delivered), done, 0)
        decreases have - lo
      {
        var input := recv[lo..have];
        assert input == stream[lo..];
        var (length, expected) := parse(input);
        SomeHandedOut(parse, sizeLimit, stream, lo, done);
        SomeRest(parse, sizeLimit, stream, lo, done);
        PrefixBehind(old(delivered), done, Packets(parse, sizeLimit, stream));
        if length < 0 || expected > sizeLimit {
          return BadPacket, 0;
        }
        if length > 0 {
          if length > |input| {
            return BadPacket, 0;
          }
          AsksNext(asks, old(delivered), done, input[..length]);
          delivered := delivered + [input[..length]];
          done := done + [input[..length]];
          lo := lo + length;
          SomeHandedOut(parse, sizeLimit, stream, lo, done);
          SomeRest(parse, sizeLimit, stream, lo, done);
          PrefixBehind(old(delivered), done, Packets(parse, sizeLimit, stream));
          assert delivered == old(delivered) + done;
          var wantClose := asks(delivered);
          if fails(delivered) {
            return Closed, 0;
          }
          if wantClose || lo == have {
            StopsAt(parse, sizeLimit, stream, lo, done);
            if lo == have {
              ring.Reset();
            }
            if wantClose {
              return Closing, |done|;
            }
            return Open, 0;
          }
        } else {
          if lo < have {
            var ok := KeepLeftover(recv, lo, have, expected);
            if !ok {
              return Closed, 0;
            }
          }
          return Open, 0;
        }
      }
    }

    /** Reads behind the leftover, which stays what it is. */
    method Fill(recv: array<byte>, left: nat) returns (n: int, err: Errno)
      requires Valid() && left == |ring.Contents()| && left < recv.Length && (recv == ring.buf || recv == shared)
      requires recv == ring.buf ==> left > 0 && Place(ring.r, ring.size) == 0
      modifies peer, recv
      ensures Valid() && ring.Contents() == old(ring.Contents())
      ensures err == EAGAIN ==> n == 0
      ensures n > 0 ==> err == NoError && left + n <= recv.Length
      ensures recv[..left] == old(recv[..left])
      ensures peer.received == old(peer.received) + (if n > 0 then recv[left..left + n] else [])
      ensures err != EAGAIN ==> Size(peer.script) < Size(old(peer.script))
      ensures Size(peer.script) <= Size(old(peer.script))
      ensures Reads(old(peer.script), peer.script, recv.Length - left, if n > 0 then recv[left..left + n] else [], n, err)
    {
      hide Reads;
      hide Place, PrefixStable, BufferPool.Valid;
      n, err := peer.Read(recv, left);
      if recv == ring.buf {
        assert left <= recv.Length;
        ViewSlices(recv[..], 0, left);
        ViewSlices(old(recv[..]), 0, left);
        assert recv[..][0..left] == recv[..left] && old(recv[..])[0..left] == old(recv[..left]);
      }
    }

    /** Hands out what was read, and notes the turn. */
    method TakeTurn(recv: array<byte>, have: nat, ghost data: seq<byte>) returns (outcome: Outcome)
      requires Valid() && have <= recv.Length <= pool.max && (recv == shared || recv == ring.buf)
      requires have == 0 ==> ring.Contents() == []
      requires recv[..have] == Kept(parse, sizeLimit, turns) + data && peer.received == Came(turns) + data
      requires delivered == Handed(parse, sizeLimit, turns) && ring.Contents() == Kept(parse, sizeLimit, turns)
      requires AsWished(parse, sizeLimit, asks, turns)
      modifies this`delivered, this`turns, ring, ring.buf, pool`puts
      ensures Valid()
      ensures ring.buf == old(ring.buf) || fresh(ring.buf)
      ensures if outcome == Open || outcome == Closing then Faithful() else BrokenOff(outcome)
      ensures outcome == Closed ==> (|delivered| > |old(delivered)| && fails(delivered)) || sizeLimit > pool.max
      ensures outcome == Closing ==> asks(delivered)
      ensures outcome == Open && AsksForMore(parse) ==> HasRoom()
    {
      hide View, Place, Packets, Rest, Judge, Taken, Untaken, Kept, Handed, Came, Fits, BrokeOff, AsWished, AsksAt, AsksForMore;
      hide RingBuffer.Contents, RingBuffer.Valid, PrefixStable, BufferPool.Valid;
      ghost var stop;
      outcome, stop := DeliverPackets(recv, have);
      if outcome == Open || outcome == Closing {
        ghost var t := Turn(data, if outcome == Closing then stop else 0);
        TurnAdded(parse, sizeLimit, turns, t);
        AllTaken(parse, sizeLimit, Kept(parse, sizeLimit, turns) + data);
        NextAsWished(parse, sizeLimit, asks, turns, t);
        turns := turns + [t];
      } else {
        BreaksOff(parse, sizeLimit, turns, data, delivered, outcome);
      }
    }

    /** One round: choose a buffer, read, hand out the packets. */
    method ReadRound() returns (outcome: Outcome, n: int, eagain: bool, shortRead: bool)
      requires Valid() && Faithful()
      modifies this`delivered, this`turns, this`rounds, ring, ring.buf, shared, peer, pool`puts
      ensures Valid()
      ensures ring.buf == old(ring.buf) || fresh(ring.buf)
      ensures if outcome == Open || outcome == Closing then Faithful() else BrokenOff(outcome)
      ensures Size(peer.script) <= Size(old(peer.script))
      ensures outcome == Open && !eagain ==> n > 0 && Size(peer.script) < Size(old(peer.script))
      ensures rounds == old(rounds) && (shortRead ==> plain)
      ensures old(NoRoom() || EndsHere(peer.script)) ==> outcome == Closed
      ensures outcome == Closed && !old(NoRoom() || EndsHere(peer.script)) ==> fails(delivered) || sizeLimit > pool.max
      ensures outcome == Closing ==> asks(delivered)
      ensures eagain <==> !old(NoRoom()) && (old(peer.script) == [] || old(peer.script)[0].Again?)
      ensures !old(NoRoom() || EndsHere(peer.script)) ==>
                Took(old(peer.script), peer.script, old(peer.received), peer.received, n, eagain)
      ensures old(NoReasonToClose()) ==> (outcome == Open || outcome == BadPacket) && (outcome == Open ==> NoReasonToClose())
    {
      hide View, Place, Packets, Rest, Judge, Kept, Handed, Came, BrokeOff, AsWished, AsksForMore, GoesOnSending, Reads, Arrived, Took, EndsHere;
      hide RingBuffer.Contents, RingBuffer.Valid, PrefixStable, BufferPool.Valid, NoRoom;
      eagain, shortRead, n := false, false, 0;
      BreaksOffAtOnce(parse, sizeLimit, turns, []);
      ghost var calm, script := NoReasonToClose(), peer.script;
      if calm {
        RoomIsRoom();
      }
      var ok, recv, left := ChooseBuffer();
      if !ok {
        return Closed, n, eagain, shortRead;
      }
      var err;
      n, err := Fill(recv, left);
      ghost var data := if n > 0 then recv[left..left + n] else [];
      ReadsMeans(script, peer.script, recv.Length - left, data, n, err);
      BreaksOffAtOnce(parse, sizeLimit, turns, data);
      if err != NoError {
        if err == EAGAIN {
          eagain := true;
        } else {
          outcome := Closed;
          return;
        }
      }
      if n <= 0 && !eagain {
        outcome := Closed;
        return;
      }
      shortRead := plain && !eagain && 0 < n < recv.Length - left;
      assert recv[..left + n] == recv[..left] + data;
      outcome := TakeTurn(recv, left + n, data);
    }

    lemma RoomIsRoom()
      requires Valid() && HasRoom()
      ensures !NoRoom()
    {
    }

    /**
     processRead: rounds until the socket has nothing more, a short read or the byte budget.
     After a wish to close the connection stays open as long as output is pending, and may
     be read from again.
     */
    method ProcessRead() returns (outcome: Outcome)
      requires Valid() && Faithful()
      modifies this`delivered, this`turns, this`rounds, ring, ring.buf, shared, peer, pool`puts
      ensures Valid()
      ensures ring.buf == old(ring.buf) || fresh(ring.buf)
      ensures if outcome == Open || outcome == Closing then Faithful() else BrokenOff(outcome)
      ensures outcome == Closing ==> asks(delivered)
      ensures outcome == Open ==> |peer.received| <= |old(peer.received)| + |Arrived(old(peer.script))|
      ensures outcome == Open && Arrived(old(peer.script)) != [] ==> |peer.received| > |old(peer.received)|
      ensures outcome == Open && !plain && maxRead <= 0 ==> peer.received == old(peer.received) + Arrived(old(peer.script))
      ensures old(NoReasonToClose()) ==> (outcome == Open || outcome == BadPacket) && (outcome == Open ==> NoReasonToClose())
    {
      hide View, Place, Packets, Rest, Kept, Handed, Came, BrokeOff, AsWished, RingBuffer.Contents, RingBuffer.Valid, PrefixStable, Arrived;
      hide AsksForMore, GoesOnSending;
      var readBytes := 0;
      ghost var all := peer.received + Arrived(peer.script);
      while true
        invariant Valid() && Faithful()
        invariant ring.buf == old(ring.buf) || fresh(ring.buf)
        invariant peer.received + Arrived(peer.script) == all && |peer.received| >= |old(peer.received)|
        invariant (peer.received == old(peer.received) && peer.script == old(peer.script)) || |peer.received| > |old(peer.received)|
        invariant old(NoReasonToClose()) ==> NoReasonToClose()
        decreases Size(peer.script)
      {
        var n, eagain, shortRead;
        ghost var script, received := peer.script, peer.received;
        outcome, n, eagain, shortRead := ReadRound();
        if outcome != Open && outcome != Closing {
          return;
        }
        BreaksOffAtOnce(parse, sizeLimit, turns, []);
        readBytes := readBytes + n;
        var budgetExhausted := maxRead > 0 && readBytes >= maxRead;
        var end := ends(rounds);
        rounds := rounds + 1;
        if end.drainFailed {
          return Closed;
        }
        if outcome == Closing {
          return if end.pending then Closing else Closed;
        }
        if end.tooMuch {
          return Closed;
        }
        if eagain || shortRead || budgetExhausted {
          return Open;
        }
      }
    }

    /**
     Any number of read events of a fresh connection, also after the handler has asked for a
     close: what was delivered and what is kept follow the turns, and are those of one parse
     of everything received if every turn was harmless.  In any case what was delivered is
     right up to the first packet at which the handler asked for a close.
     */
    method Serve(events: nat) returns (outcome: Outcome)
      requires Valid() && peer.received == [] && delivered == [] && ring.Contents() == [] && turns == []
      modifies this`delivered, this`turns, this`rounds, ring, ring.buf, shared, peer, pool`puts
      ensures Valid()
      ensures if outcome == Open || outcome == Closing then Faithful() else BrokenOff(outcome)
      ensures (outcome == Open || outcome == Closing)
              && (forall k :: 0 <= k < |turns| ==> Harmless(parse, sizeLimit, Kept(parse, sizeLimit, turns[..k]), turns[k])) ==>
                && delivered == Packets(parse, sizeLimit, peer.received)
                && ring.Contents() == Rest(parse, sizeLimit, peer.received)
                && Flatten(delivered) + ring.Contents() == peer.received
      ensures var packets := Packets(parse, sizeLimit, peer.received);
              RightUpToWish(asks, delivered, packets) || (if outcome == Closed then delivered <= packets else delivered == packets)
      ensures old(NoReasonToClose()) ==> outcome == Open || outcome == BadPacket
    {
      hide View, Place, Packets, Rest, Kept, Handed, Came, RingBuffer.Contents, RingBuffer.Valid, PrefixStable, Harmless;
      hide BrokeOff, AsWished, RightUpToWish, AsksForMore, GoesOnSending, Arrived, NoReasonToClose;
      NothingYet(parse, sizeLimit);
      NothingAsked(asks, delivered);
      outcome := Open;
      for i := 0 to events
        invariant Valid() && Faithful() && (outcome == Open || outcome == Closing)
        invariant old(NoReasonToClose()) ==> outcome == Open && NoReasonToClose()
        invariant ring.buf == old(ring.buf) || fresh(ring.buf)
      {
        outcome := ProcessRead();
        if outcome != Open && outcome != Closing {
          BrokenRight(parse, sizeLimit, asks, turns, peer.received, delivered, outcome);
          return;
        }
      }
      OneParseUpToWish(parse, sizeLimit, asks, turns);
      PacketsAndRest(parse, sizeLimit, peer.received);
      if forall k :: 0 <= k < |turns| ==> Harmless(parse, sizeLimit, Kept(parse, sizeLimit, turns[..k]), turns[k]) {
        HarmlessRun(parse, sizeLimit, turns);
      }
    }
  }
}
