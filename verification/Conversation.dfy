/**
 A WebSocket peer from the wire to its messages: the read loop, the frame parser and the
 client together.
 */
module Conversation {
  import opened Bytes
  import opened Inbound
  import opened ReadLoop
  import F = Frame
  import Cipher
  import opened Message
  import opened WsClient

  /** The frame a peer means by a header and the payload it puts on the wire. */
  function Meant(f: F.Printable): Frame
    requires F.WellFormed(f.h)
  {
    Frame(f.h.fin, f.h.rsv % 8 / 4 == 1, f.h.rsv % 8 % 4 != 0, f.h.opCode % 16, f.h.masked,
          if f.h.masked then Cipher.Masked(f.payload, f.h.mask, 0) else f.payload)
  }

  function AllMeant(maxPayload: int, sizeLimit: int, frames: seq<F.Printable>): seq<Frame>
    requires forall i :: 0 <= i < |frames| ==> F.Fits(maxPayload, sizeLimit, frames[i])
  {
    seq(|frames|, i requires 0 <= i < |frames| => assert F.Fits(maxPayload, sizeLimit, frames[i]); Meant(frames[i]))
  }

  function FrameParser(maxPayload: int): Parser {
    s => F.ParseFrame(maxPayload, s)
  }

  /** The first octet holds FIN, three reserved bits and the opcode. */
  lemma FlagsIn(b: byte)
    ensures b / 64 % 2 == b / 16 % 8 / 4 && b / 16 % 4 == b / 16 % 8 % 4
  {
    var q, low := b / 16, b % 16;
    var h, r := q / 8, q % 8;
    BySixtyFour(2 * h + r / 4, 16 * (r % 4) + low);
    ByFour(2 * h + r / 4, r % 4);
    assert b == 64 * (2 * h + r / 4) + (16 * (r % 4) + low);
    assert q == 4 * (2 * h + r / 4) + r % 4;
  }

  lemma BySixtyFour(q: nat, r: nat)
    requires r < 64
    ensures (64 * q + r) / 64 == q
  {
  }

  lemma ByFour(q: nat, r: nat)
    requires r < 4
    ensures (4 * q + r) % 4 == r
  {
  }

  /** A printed frame is read as it was meant. */
  lemma ReadAsMeant(f: F.Printable)
    requires F.WellFormed(f.h)
    ensures var p := F.PrintFrame(f.h, f.payload); IsFrame(p) && FrameOf(p) == Meant(f)
  {
    F.FirstOctets(f.h, f.payload);
    F.LaterOctets(f.h, f.payload);
    var p, n := F.PrintFrame(f.h, f.payload), F.HeaderSize(f.h);
    FlagsIn(p[0]);
    hide F.HeaderBytes, F.CalcHeaderSize, Cipher.Masked;
    assert p[n..] == f.payload;
    assert f.h.masked ==> p[..n][n - 4..n] == p[n - 4..n];
  }

  lemma {:induction false} PrintedAt(maxPayload: int, sizeLimit: int, frames: seq<F.Printable>, i: nat)
    requires forall k :: 0 <= k < |frames| ==> F.Fits(maxPayload, sizeLimit, frames[k])
    requires i < |frames|
    ensures |F.PrintAll(maxPayload, sizeLimit, frames)| == |frames|
    ensures F.WellFormed(frames[i].h) && F.PrintAll(maxPayload, sizeLimit, frames)[i] == F.PrintFrame(frames[i].h, frames[i].payload)
  {
    assert F.Fits(maxPayload, sizeLimit, frames[i]);
    if |frames| > 1 {
      PrintedAt(maxPayload, sizeLimit, frames[1..], if i == 0 then 0 else i - 1);
    }
    hide F.PrintFrame, F.Fits;
  }

  lemma AllReadAsMeant(maxPayload: int, sizeLimit: int, frames: seq<F.Printable>)
    requires forall i :: 0 <= i < |frames| ==> F.Fits(maxPayload, sizeLimit, frames[i])
    ensures var ps := F.PrintAll(maxPayload, sizeLimit, frames);
            && (forall p :: p in ps ==> IsFrame(p))
            && FramesOf(ps) == AllMeant(maxPayload, sizeLimit, frames)
  {
    hide FrameOf, Meant, IsFrame, F.PrintFrame, F.Fits;
    var ps := F.PrintAll(maxPayload, sizeLimit, frames);
    if frames != [] {
      PrintedAt(maxPayload, sizeLimit, frames, 0);
    }
    hide F.PrintAll;
    forall i | 0 <= i < |frames|
      ensures i < |ps| && IsFrame(ps[i]) && F.WellFormed(frames[i].h) && FrameOf(ps[i]) == Meant(frames[i])
    {
      PrintedAt(maxPayload, sizeLimit, frames, i);
      ReadAsMeant(frames[i]);
    }
  }

  /** What the frame parser cuts off holds a whole header. */
  lemma {:induction false} PacketsAreFrames(maxPayload: int, sizeLimit: int, s: seq<byte>)
    ensures forall p :: p in Packets(FrameParser(maxPayload), sizeLimit, s) ==> IsFrame(p)
    decreases |s|
  {
    var parse := FrameParser(maxPayload);
    PacketsStep(parse, sizeLimit, s);
    var v := Judge(parse, sizeLimit, s);
    if v.Packet? {
      FirstIsFrame(maxPayload, s, v.length);
      hide Packets, Judge, IsFrame;
      PacketsAreFrames(maxPayload, sizeLimit, s[v.length..]);
    }
  }

  lemma FirstIsFrame(maxPayload: int, s: seq<byte>, n: nat)
    requires F.ParseFrame(maxPayload, s).0 == n && 0 < n <= |s|
    ensures IsFrame(s[..n])
  {
    if |s| >= 2 && |s| >= F.CalcHeaderSize(s[1]) {
      F.SumAsInt64(F.AnnouncedLength(s) + F.CalcHeaderSize(s[1]));
    }
  }

  /** The messages, the state and the close flag that the rules give for what a peer has sent. */
  ghost function Outcome(cfg: Config, maxPayload: int, sizeLimit: int, received: seq<byte>): Trace {
    PacketsAreFrames(maxPayload, sizeLimit, received);
    Run(cfg, FramesOf(Packets(FrameParser(maxPayload), sizeLimit, received)))
  }

  /** For frames that a peer prints one after the other, these are those of the frames it means. */
  lemma OutcomeIsAsMeant(cfg: Config, maxPayload: int, sizeLimit: int, frames: seq<F.Printable>)
    requires forall i :: 0 <= i < |frames| ==> F.Fits(maxPayload, sizeLimit, frames[i])
    requires sizeLimit >= 2
    ensures Outcome(cfg, maxPayload, sizeLimit, Flatten(F.PrintAll(maxPayload, sizeLimit, frames)))
            == Run(cfg, AllMeant(maxPayload, sizeLimit, frames))
  {
    hide Run, FramesOf, AllMeant, F.PrintAll, F.Fits;
    F.StreamRoundTrip(maxPayload, sizeLimit, frames);
    AllReadAsMeant(maxPayload, sizeLimit, frames);
    var stream := Flatten(F.PrintAll(maxPayload, sizeLimit, frames));
    SameParser(maxPayload, sizeLimit, stream, s => F.ParseFrame(maxPayload, s));
  }

  lemma {:induction false} SameParser(maxPayload: int, sizeLimit: int, s: seq<byte>, parse: Parser)
    requires forall t :: parse(t) == F.ParseFrame(maxPayload, t)
    ensures Packets(parse, sizeLimit, s) == Packets(FrameParser(maxPayload), sizeLimit, s)
    decreases |s|
  {
    hide F.ParseFrame;
    PacketsStep(parse, sizeLimit, s);
    PacketsStep(FrameParser(maxPayload), sizeLimit, s);
    var v := Judge(parse, sizeLimit, s);
    assert v == Judge(FrameParser(maxPayload), sizeLimit, s);
    if v.Packet? {
      SameParser(maxPayload, sizeLimit, s[v.length..], parse);
    }
  }

  /** All packets handed to the client hold whole headers. */
  lemma {:induction false} HandedAreFrames(maxPayload: int, sizeLimit: int, turns: seq<Turn>)
    ensures forall p :: p in Handed(FrameParser(maxPayload), sizeLimit, turns) ==> IsFrame(p)
  {
    if turns != [] {
      var before, t := turns[..|turns| - 1], turns[|turns| - 1];
      HandedAreFrames(maxPayload, sizeLimit, before);
      PacketsAreFrames(maxPayload, sizeLimit, Kept(FrameParser(maxPayload), sizeLimit, before) + t.data);
      hide Packets, IsFrame, Kept;
    }
  }

  lemma DeliveredAreFrames(maxPayload: int, sizeLimit: int, turns: seq<Turn>, received: seq<byte>, delivered: seq<seq<byte>>, outcome: ReadLoop.Outcome)
    requires delivered == Handed(FrameParser(maxPayload), sizeLimit, turns)
             || BrokeOff(FrameParser(maxPayload), sizeLimit, turns, received, delivered, outcome)
    ensures forall p :: p in delivered ==> IsFrame(p)
  {
    hide Packets, IsFrame, Handed, Kept, Came, Judge, Rest;
    var parse := FrameParser(maxPayload);
    HandedAreFrames(maxPayload, sizeLimit, turns);
    if delivered != Handed(parse, sizeLimit, turns) {
      var s := Kept(parse, sizeLimit, turns) + received[|Came(turns)|..];
      PacketsAreFrames(maxPayload, sizeLimit, s);
      var all := Handed(parse, sizeLimit, turns) + Packets(parse, sizeLimit, s);
      assert forall i :: 0 <= i < |delivered| ==> delivered[i] == all[i];
    }
  }

  // ---------------------------------------------- the client's close is the reader's

  /** OnData returns the client's close flag: that of the last frame of all handed over so far. */
  ghost predicate WishIsClose(asks: Wish, cfg: Config) {
    forall ps :: ps != [] && (forall p :: p in ps ==> IsFrame(p)) ==>
      var es := Effects(cfg, FramesOf(ps)); es != [] && (asks(ps) <==> es[|es| - 1].Close?)
  }

  /** Once the reader was asked to close, the run has ended. */
  lemma WishEndsRun(asks: Wish, cfg: Config, ps: seq<seq<byte>>)
    requires WishIsClose(asks, cfg) && ps != [] && asks(ps) && forall p :: p in ps ==> IsFrame(p)
    ensures Run(cfg, FramesOf(ps)).closed
  {
    var es := Effects(cfg, FramesOf(ps));
    RunIsUpToClose(cfg, FramesOf(ps));
    assert es[|es| - 1].Close?;
  }

  /** Runs of two streams that agree up to a close. */
  lemma SameUpToClose(cfg: Config, a: seq<seq<byte>>, b: seq<seq<byte>>, n: nat)
    requires (forall p :: p in a ==> IsFrame(p)) && (forall p :: p in b ==> IsFrame(p)) && n <= |a| && a[..n] <= b
    requires Run(cfg, FramesOf(a[..n])).closed
    ensures Run(cfg, FramesOf(a)) == Run(cfg, FramesOf(b))
  {
    hide Run, IsFrame, FrameOf;
    assert b[..n] == a[..n];
    assert FramesOf(a)[..n] == FramesOf(a[..n]) && FramesOf(b)[..n] == FramesOf(a[..n]);
    ClosedStays(cfg, FramesOf(a), n);
    ClosedStays(cfg, FramesOf(b), n);
  }

  /** A run of fewer frames delivers a prefix. */
  lemma {:induction false} RunGrows(cfg: Config, frames: seq<Frame>, n: nat)
    requires n <= |frames|
    ensures Run(cfg, frames[..n]).delivered <= Run(cfg, frames).delivered
    ensures Run(cfg, frames[..n]).closed ==> Run(cfg, frames).closed
  {
    if n == |frames| {
      assert frames[..n] == frames;
    } else {
      var m := |frames| - 1;
      assert frames[..m][..n] == frames[..n] && frames[..m] + [frames[m]] == frames;
      RunNext(cfg, frames[..m], frames[m]);
      hide Run, Step;
      RunGrows(cfg, frames[..m], n);
    }
  }

  /** What a reader delivers, right up to a wish to close, has the outcome of the stream. */
  lemma OutcomeOfDelivered(asks: Wish, cfg: Config, delivered: seq<seq<byte>>, packets: seq<seq<byte>>)
    requires WishIsClose(asks, cfg) && (forall p :: p in delivered ==> IsFrame(p)) && (forall p :: p in packets ==> IsFrame(p))
    ensures RightUpToWish(asks, delivered, packets) ==> Run(cfg, FramesOf(delivered)) == Run(cfg, FramesOf(packets))
    ensures delivered <= packets ==>
              && Run(cfg, FramesOf(delivered)).delivered <= Run(cfg, FramesOf(packets)).delivered
              && (Run(cfg, FramesOf(delivered)).closed ==> Run(cfg, FramesOf(packets)).closed)
  {
    hide Run, IsFrame, WishIsClose, FrameOf;
    if RightUpToWish(asks, delivered, packets) {
      var n :| 0 < n <= |delivered| && asks(delivered[..n]) && delivered[..n] <= packets;
      WishEndsRun(asks, cfg, delivered[..n]);
      SameUpToClose(cfg, delivered, packets, n);
    }
    if delivered <= packets {
      assert FramesOf(packets)[..|delivered|] == FramesOf(delivered);
      RunGrows(cfg, FramesOf(packets), |delivered|);
    }
  }

  /**
   Whatever way a peer's bytes arrive in and however the reads are cut, also when bytes come
   behind a close: up to the first close, the messages the client hands over, its state and
   whether it closes are those of the bytes.  If the connection breaks they are a beginning.
   */
  method Converse(reader: Reader, client: WsClient, maxPayload: int, events: nat, handler: Handler)
    returns (outcome: ReadLoop.Outcome, outs: seq<seq<byte>>, effects: seq<Effect>)
    requires reader.Valid() && reader.peer.received == [] && reader.delivered == [] && reader.ring.Contents() == [] && reader.turns == []
    requires reader.parse == FrameParser(maxPayload) && WishIsClose(reader.asks, client.cfg)
    requires client.Valid() && client.State() == IDLE
    requires client.Repr() !! {reader, reader.ring, reader.ring.buf, reader.shared, reader.peer}
    modifies reader`delivered, reader`turns, reader`rounds, reader.ring, reader.ring.buf, reader.shared, reader.peer, reader.pool`puts
    modifies client, client.Repr(), client.pool`puts
    ensures forall p :: p in reader.delivered ==> IsFrame(p)
    ensures effects == Effects(client.cfg, FramesOf(reader.delivered)) && client.State() == After(client.cfg, FramesOf(reader.delivered))
    ensures |outs| == |effects| == |reader.delivered| && forall i :: 0 <= i < |outs| ==> outs[i] == Answer(handler, effects[i])
    ensures var frames := FramesOf(reader.delivered);
            forall i :: 0 <= i < |outs| ==> Answers(outs[i], client.cfg, After(client.cfg, frames[..i]), frames[i], handler)
    ensures |UpToClose(effects)| <= |reader.delivered| && (!Closes(effects) ==> UpToClose(effects) == effects)
    ensures var first := FramesOf(reader.delivered)[..|UpToClose(effects)|];
            var all := Outcome(client.cfg, maxPayload, reader.sizeLimit, reader.peer.received);
            if outcome == ReadLoop.Closed then Deliveries(UpToClose(effects)) <= all.delivered && (Closes(effects) ==> all.closed)
            else all == Trace(After(client.cfg, first), Deliveries(UpToClose(effects)), Closes(effects))
  {
    hide Packets, Rest, Handed, Kept, Came, Judge, BrokeOff, Harmless, Run, FramesOf, IsFrame, FrameParser, PrefixStable, RightUpToWish, FrameOf;
    hide AsWished, WishIsClose, Effects, After, UpToClose, Closes, Deliveries, Answer, Answers;
    hide RingBuffer.RingBuffer.Contents, RingBuffer.RingBuffer.Valid, WsClient.Valid, WsClient.State;
    outcome := reader.Serve(events);
    DeliveredAreFrames(maxPayload, reader.sizeLimit, reader.turns, reader.peer.received, reader.delivered, outcome);
    PacketsAreFrames(maxPayload, reader.sizeLimit, reader.peer.received);
    OutcomeOfDelivered(reader.asks, client.cfg, reader.delivered, Packets(reader.parse, reader.sizeLimit, reader.peer.received));
    outs, effects := client.ProcessAll(reader.delivered, handler);
  }
}
