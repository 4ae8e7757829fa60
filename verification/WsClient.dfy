/** `processFrame` and the buffers it works on, proved against `Message.Step`. */
module WsClient {
  import opened Bytes
  import opened Pool
  import opened Utf8
  import Cipher
  import F = Frame
  import opened Message

  /** clientBuf: the fragments received so far, and how far they have been checked as text. */
  class ClientBuf {
    var buf: array?<byte>
    var writeOffset: nat
    var checkOffset: nat
    const pool: BufferPool

    ghost predicate Valid()
      reads this, buf
    {
      && pool.Valid()
      && writeOffset <= (if buf == null then 0 else buf.Length) <= pool.max
      && checkOffset <= writeOffset
      && IsValid(Contents()[..checkOffset])
    }

    ghost function Contents(): (s: seq<byte>)
      requires writeOffset <= (if buf == null then 0 else buf.Length)
      reads this, buf
      ensures |s| == writeOffset
    {
      if buf == null then [] else buf[..writeOffset]
    }

    constructor (pool: BufferPool)
      requires pool.Valid()
      ensures Valid() && Contents() == [] && buf == null && this.pool == pool
    {
      buf, writeOffset, checkOffset := null, 0, 0;
      this.pool := pool;
    }

    /** Appends, moving to a larger buffer if need be; fails only when the pool has none. */
    method Write(src: array<byte>) returns (ok: bool)
      requires Valid() && src != buf
      modifies this, buf, pool`puts
      ensures Valid() && (buf == old(buf) || fresh(buf))
      ensures ok <==> |old(Contents())| + src.Length <= pool.max
      ensures Contents() == if ok then old(Contents()) + src[..] else old(Contents())
      ensures checkOffset == old(checkOffset)
      ensures pool.puts == if buf == old(buf) || old(buf) == null || old(buf).Length == 0 then old(pool.puts) else old(pool.puts) + [old(buf)]
    {
      hide IsValid, BufferPool.Valid;
      var capacity := if buf == null then 0 else buf.Length;
      ghost var was := Contents();
      if capacity - writeOffset >= src.Length {
        if buf != null {
          forall i | 0 <= i < src.Length {
            buf[writeOffset + i] := src[i];
          }
        }
        writeOffset := writeOffset + src.Length;
      } else {
        var bigger := pool.Get(writeOffset + src.Length);
        if bigger == null {
          return false;
        }
        if writeOffset > 0 {
          forall i | 0 <= i < writeOffset {
            bigger[i] := buf[i];
          }
        }
        forall i | 0 <= i < src.Length {
          bigger[writeOffset + i] := src[i];
        }
        pool.Put(buf);
        buf := bigger;
        writeOffset := writeOffset + src.Length;
      }
      ok := true;
      assert Contents() == was + src[..];
      assert Contents()[..checkOffset] == was[..checkOffset];
    }

    /** Forgets everything and gives the buffer back. */
    method Reset()
      requires Valid()
      modifies this, pool`puts
      ensures Valid() && Contents() == [] && buf == null
      ensures pool.puts == if old(buf) == null || old(buf).Length == 0 then old(pool.puts) else old(pool.puts) + [old(buf)]
    {
      checkOffset, writeOffset := 0, 0;
      pool.Put(buf);
      buf := null;
    }

    /**
     validateBufferedText: checks what was not checked before.  The answer is that of a
     check of everything buffered: valid as a whole, or not yet beyond hope.
     */
    method ValidateText(final: bool) returns (ok: bool)
      requires Valid()
      modifies this`checkOffset
      ensures Valid() && Contents() == old(Contents())
      ensures ok <==> if final then IsText(Contents()) else !Hopeless(Contents())
    {
      hide IsText, Hopeless, IsValid;
      if writeOffset == 0 {
        EmptyText();
        return true;
      }
      ghost var done, rest := Contents()[..checkOffset], Contents()[checkOffset..];
      assert Contents() == done + rest;
      var segment := buf[checkOffset..writeOffset];
      assert segment == rest;
      ValidPrefix(done, rest);
      ValidExactly(rest);
      ValidExactly(done + rest);
      HopelessPrefix(done, rest);
      var checked, complete, good := ScanUtf8Prefix(segment);
      ValidPrefix(done, rest[..checked]);
      assert Contents()[..checkOffset + checked] == done + rest[..checked];
      checkOffset := checkOffset + checked;
      if !good {
        return false;
      }
      ok := complete || !final;
    }
  }

  lemma EmptyText()
    ensures IsText([]) && !Hopeless([])
  {
    assert EncodeText([]) == [];
    assert IsText([] + []);
  }

  datatype Reply = NoReply | Reply(data: seq<byte>)

  /** OnUserData */
  type Handler = seq<byte> -> Reply

  /** An unmasked server frame, or nothing when its size does not fit an int. */
  function ServerFrame(op: nat, payload: seq<byte>): seq<byte> {
    var h := F.Header(true, 0, op, false, [0, 0, 0, 0], |payload|);
    if F.HeaderSize(h) + |payload| >= F.TWO_63 then [] else F.PrintFrame(h, payload)
  }

  /** What is sent back for an effect. */
  function Answer(handler: Handler, effect: Effect): seq<byte> {
    match effect
    case Silent => []
    case Pong(p) => ServerFrame(10, p)
    case Close(r) => ServerFrame(8, r)
    case Deliver(op, m) =>
      var reply := handler(m);
      if reply.NoReply? then [] else ServerFrame(op, reply.data)
  }

  /** The frame in the octets of a header and a payload. */
  function FrameIn(header: seq<byte>, payload: seq<byte>): Frame
    requires |header| >= 2 && |header| == F.CalcHeaderSize(header[1])
  {
    var masked := header[1] >= 0x80;
    var n := |header|;
    Frame(header[0] >= 0x80, header[0] / 64 % 2 == 1, header[0] / 16 % 4 != 0, header[0] % 16, masked,
          if masked then Cipher.Masked(payload, header[n - 4..n], 0) else payload)
  }

  // ------------------------------------------------- reference: what a peer is answered

  /** The octets are one final, unmasked frame with this opcode and payload. */
  ghost predicate IsServerFrame(out: seq<byte>, op: nat, payload: seq<byte>) {
    && F.ParseFrame(0, out) == (|out|, |out|) && |out| >= 2 && |out| >= F.CalcHeaderSize(out[1]) && F.AnnouncedLength(out) >= 0
    && F.ParseHeader(out) == F.Header(true, 0, op, false, [0, 0, 0, 0], |payload|)
    && out[F.CalcHeaderSize(out[1])..] == payload
  }

  ghost predicate ClosesWith(out: seq<byte>, code: nat)
    requires code < 0x1_0000
  {
    IsServerFrame(out, 8, [code / 256, code % 256])
  }

  /** A close is echoed, unless its code or its text is not allowed. */
  ghost predicate EchoesClose(out: seq<byte>, p: seq<byte>) {
    if p == [] then IsServerFrame(out, 8, [])
    else if |p| == 1 then ClosesWith(out, 1002)
    else
      var code := U16(p[0], p[1]);
      if !(1000 <= code <= 1003 || 1007 <= code <= 1014 || 3000 <= code <= 4999) then ClosesWith(out, 1002)
      else IsServerFrame(out, 8, if IsText(p[2..]) then p else [])
  }

  /** The handler's reply goes out under the opcode of the message, unless no frame can hold it. */
  ghost predicate SendsReply(out: seq<byte>, op: nat, reply: Reply) {
    if reply.NoReply? || |reply.data| + 10 >= F.TWO_63 then out == [] else IsServerFrame(out, op, reply.data)
  }

  /** What is sent for a frame of no message: a ping is answered with its payload. */
  ghost predicate AnswersControl(out: seq<byte>, f: Frame) {
    if f.rsv1 || !f.fin || |f.payload| > 125 then ClosesWith(out, 1002)
    else if f.op == 8 then EchoesClose(out, f.payload)
    else if f.op == 9 then IsServerFrame(out, 10, f.payload)
    else if f.op == 10 then out == []
    else ClosesWith(out, 1002)
  }

  /** What is sent for a message that is complete. */
  ghost predicate AnswersMessage(out: seq<byte>, cfg: Config, op: nat, compressed: bool, bytes: seq<byte>, handler: Handler) {
    if compressed && cfg.inflate(bytes).TooLarge? then ClosesWith(out, 1009)
    else if compressed && cfg.inflate(bytes).Corrupt? then ClosesWith(out, 1002)
    else
      var message := if compressed then cfg.inflate(bytes).bytes else bytes;
      if 0 < cfg.maxMessage < |message| then ClosesWith(out, 1009)
      else if op == 1 && !IsText(message) then ClosesWith(out, 1007)
      else SendsReply(out, op, handler(message))
  }

  /** What is sent for a fragment; `bytes` are all of the message so far. */
  ghost predicate AnswersFragment(out: seq<byte>, cfg: Config, op: nat, compressed: bool, bytes: seq<byte>, fin: bool, handler: Handler) {
    if 0 < cfg.maxMessage < |bytes| || |bytes| > cfg.poolMax then ClosesWith(out, 1009)
    else if op == 1 && !compressed && (if fin then !IsText(bytes) else Hopeless(bytes)) then ClosesWith(out, 1007)
    else if fin then AnswersMessage(out, cfg, op, compressed, bytes, handler)
    else out == []
  }

  /** What is sent for a frame, in terms of the frame, the message under way and the handler. */
  ghost predicate Answers(out: seq<byte>, cfg: Config, st: Assembly, f: Frame, handler: Handler) {
    if (cfg.requireMask && !f.masked) || f.rsv23 then ClosesWith(out, 1002)
    else if f.op >= 3 then AnswersControl(out, f)
    else if f.rsv1 && (f.op == 0 || !cfg.deflate) then ClosesWith(out, 1002)
    else if (f.op == 0 && st.firstop == 0) || (f.op != 0 && st.firstop != 0) then ClosesWith(out, 1002)
    else if f.op == 0 then AnswersFragment(out, cfg, st.firstop, st.compressed, st.buffered + f.payload, f.fin, handler)
    else if !f.fin then AnswersFragment(out, cfg, f.op, f.rsv1, f.payload, false, handler)
    else AnswersMessage(out, cfg, f.op, f.rsv1, f.payload, handler)
  }

  lemma ServerFrameIsOne(op: nat, payload: seq<byte>)
    requires op < 16
    ensures if |payload| + 10 >= F.TWO_63 then ServerFrame(op, payload) == [] else IsServerFrame(ServerFrame(op, payload), op, payload)
  {
    var h := F.Header(true, 0, op, false, [0, 0, 0, 0], |payload|);
    if |payload| + 10 < F.TWO_63 {
      F.FrameRoundTrip(0, h, payload, []);
      hide F.ParseFrame, F.ParseHeader, F.PrintFrame, F.AnnouncedLength, F.CalcHeaderSize;
      var frame := F.PrintFrame(h, payload);
      assert frame + [] == frame && F.Canonical(h) == h;
    }
  }

  lemma FailureCloses(code: nat)
    requires code < 0x1_0000
    ensures ClosesWith(ServerFrame(8, CodeBytes(code)), code)
  {
    ServerFrameIsOne(8, CodeBytes(code));
    hide IsServerFrame, ServerFrame;
  }

  lemma CloseIsEchoed(p: seq<byte>)
    requires |p| <= 125
    ensures EchoesClose(ServerFrame(8, CloseReply(p)), p)
  {
    FailureCloses(1002);
    ServerFrameIsOne(8, p);
    ServerFrameIsOne(8, []);
    hide IsServerFrame, ServerFrame, IsText, IsValid;
    if |p| >= 2 {
      ValidExactly(p[2..]);
      NoText(p[2..]);
    }
  }

  lemma ControlIsAnswered(f: Frame, handler: Handler)
    requires f.op >= 3
    ensures AnswersControl(Answer(handler, Control(f)), f)
  {
    hide EchoesClose, IsServerFrame, ServerFrame, CloseReply;
    FailureCloses(1002);
    if |f.payload| <= 125 {
      ServerFrameIsOne(10, f.payload);
      CloseIsEchoed(f.payload);
    }
  }

  lemma NoText(p: seq<byte>)
    ensures p == [] ==> IsText(p)
  {
    EmptyText();
  }

  lemma MessageIsAnswered(cfg: Config, op: nat, compressed: bool, bytes: seq<byte>, checked: bool, handler: Handler)
    requires op < 16 && (checked ==> !compressed && IsText(bytes))
    ensures AnswersMessage(Answer(handler, Finish(cfg, op, compressed, bytes, checked)), cfg, op, compressed, bytes, handler)
  {
    FailureCloses(1002);
    FailureCloses(1007);
    FailureCloses(1009);
    var message := if compressed && cfg.inflate(bytes).Plain? then cfg.inflate(bytes).bytes else bytes;
    var reply := handler(message);
    if reply.Reply? {
      ServerFrameIsOne(op, reply.data);
    }
    hide IsServerFrame, ServerFrame, IsText;
  }

  lemma FragmentIsAnswered(cfg: Config, op: nat, compressed: bool, bytes: seq<byte>, fin: bool, handler: Handler)
    requires op < 16
    ensures AnswersFragment(Answer(handler, Gather(cfg, op, compressed, bytes, fin).1), cfg, op, compressed, bytes, fin, handler)
  {
    FailureCloses(1007);
    FailureCloses(1009);
    hide IsServerFrame, ServerFrame, IsText, Hopeless, AnswersMessage, Finish;
    var text := op == TEXT && !compressed;
    if !(text && !IsText(bytes)) {
      MessageIsAnswered(cfg, op, compressed, bytes, text, handler);
    }
    assert Answer(handler, Silent) == [];
  }

  /** The replies are right, whatever the frame, the message under way and the handler. */
  lemma EveryFrameIsAnswered(cfg: Config, st: Assembly, f: Frame, handler: Handler)
    requires Sound(cfg, st)
    ensures Answers(Answer(handler, Step(cfg, st, f).1), cfg, st, f, handler)
  {
    FailureCloses(1002);
    hide IsServerFrame, ServerFrame, IsText, Hopeless, AnswersMessage, AnswersFragment, AnswersControl, Finish, Gather, Control;
    if f.op >= 3 {
      ControlIsAnswered(f, handler);
    } else {
      MessageIsAnswered(cfg, f.op, f.rsv1, f.payload, false, handler);
      FragmentIsAnswered(cfg, f.op, f.rsv1, f.payload, false, handler);
      FragmentIsAnswered(cfg, st.firstop, st.compressed, st.buffered + f.payload, f.fin, handler);
    }
  }

  /** A packet that holds a whole header. */
  predicate IsFrame(packet: seq<byte>) {
    |packet| >= 2 && |packet| >= F.CalcHeaderSize(packet[1])
  }

  function FrameOf(packet: seq<byte>): Frame
    requires IsFrame(packet)
  {
    var n := F.CalcHeaderSize(packet[1]);
    FrameIn(packet[..n], packet[n..])
  }

  function FramesOf(packets: seq<seq<byte>>): seq<Frame>
    requires forall p :: p in packets ==> IsFrame(p)
  {
    seq(|packets|, i requires 0 <= i < |packets| => FrameOf(packets[i]))
  }

  /** Behind a close nothing counts. */
  lemma {:induction false} ClosedStays(cfg: Config, frames: seq<Frame>, n: nat)
    requires n <= |frames| && Run(cfg, frames[..n]).closed
    ensures Run(cfg, frames) == Run(cfg, frames[..n])
  {
    if n == |frames| {
      assert frames[..n] == frames;
    } else {
      var m := |frames| - 1;
      assert frames[..m][..n] == frames[..n] && frames[..m] + [frames[m]] == frames;
      ClosedStays(cfg, frames[..m], n);
      RunNext(cfg, frames[..m], frames[m]);
    }
  }

  class WsClient {
    var firstop: nat
    var fragmentCompressed: bool
    var buf: ClientBuf?
    const cfg: Config
    const pool: BufferPool
    const bigEndian: bool   // byte order of the machine

    ghost predicate Valid()
      reads this, Repr()
    {
      && pool.Valid() && cfg.poolMax == pool.max
      && (buf != null ==> buf.Valid() && buf.pool == pool)
      && (firstop != 0 ==> buf != null)
      && Sound(cfg, State())
    }

    ghost function Repr(): set<object?>
      reads this, buf
    {
      {buf, if buf == null then null else buf.buf}
    }

    ghost function Buffered(): seq<byte>
      reads this, Repr()
    {
      if buf == null || buf.writeOffset > (if buf.buf == null then 0 else buf.buf.Length) then [] else buf.Contents()
    }

    ghost function State(): Assembly
      reads this, Repr()
    {
      Assembly(firstop, fragmentCompressed, Buffered())
    }

    constructor (cfg: Config, pool: BufferPool, bigEndian: bool)
      requires pool.Valid() && cfg.poolMax == pool.max
      ensures Valid() && State() == IDLE && this.cfg == cfg && this.pool == pool
    {
      firstop, fragmentCompressed, buf := 0, false, null;
      this.cfg, this.pool, this.bigEndian := cfg, pool, bigEndian;
    }

    /** resetMessageState */
    method ResetMessageState()
      requires pool.Valid() && (buf != null ==> buf.Valid() && buf.pool == pool)
      modifies this`firstop, this`fragmentCompressed, buf, pool`puts
      ensures firstop == 0 && !fragmentCompressed && Buffered() == []
      ensures buf != null ==> buf.Valid() && buf.buf == null
    {
      hide IsValid;
      firstop := 0;
      fragmentCompressed := false;
      if buf != null {
        buf.Reset();
      }
    }

    /** The message is complete: decompress it, check limit and text. */
    method FinishMessage(op: nat, compressed: bool, bytes: seq<byte>, checked: bool) returns (effect: Effect)
      ensures effect == Finish(cfg, op, compressed, bytes, checked)
    {
      hide IsText, IsValid;
      var decoded := if compressed then cfg.inflate(bytes) else Plain(bytes);
      if decoded.TooLarge? {
        return Fail(1009);
      }
      if decoded.Corrupt? {
        return Fail(1002);
      }
      if cfg.maxMessage > 0 && |decoded.bytes| > cfg.maxMessage {
        return Fail(1009);
      }
      ValidExactly(decoded.bytes);
      if op == TEXT && !checked && !IsValid(decoded.bytes) {
        return Fail(1007);
      }
      effect := Deliver(op, decoded.bytes);
    }

    /** Adds a fragment to the buffer unless a limit or the pool forbids it. */
    method Append(payload: array<byte>) returns (ok: bool)
      requires pool.Valid() && cfg.poolMax == pool.max && (buf != null ==> buf.Valid() && buf.pool == pool)
      requires payload !in Repr()
      modifies this`buf, Repr(), pool`puts
      ensures buf != null && buf.Valid() && buf.pool == pool
      ensures fresh(Repr() - old(Repr()) - {null})
      ensures ok <==> !TooBig(cfg, |old(Buffered())| + payload.Length)
      ensures ok ==> Buffered() == old(Buffered()) + payload[..]
    {
      hide IsValid;
      if buf == null {
        buf := new ClientBuf(pool);
      }
      if cfg.maxMessage > 0 && buf.writeOffset + payload.Length > cfg.maxMessage {
        return false;
      }
      ok := buf.Write(payload);
    }

    /** One more fragment of the message under way, first or later, last or not. */
    method TakeFragment(fin: bool, payload: array<byte>) returns (effect: Effect)
      requires pool.Valid() && cfg.poolMax == pool.max && (buf != null ==> buf.Valid() && buf.pool == pool)
      requires firstop != 0 && payload !in Repr()
      modifies this, Repr(), pool`puts
      ensures pool.Valid() && (buf != null ==> buf.Valid() && buf.pool == pool) && (firstop != 0 ==> buf != null)
      ensures fresh(Repr() - old(Repr()) - {null})
      ensures (State(), effect) == old(Gather(cfg, firstop, fragmentCompressed, Buffered() + payload[..], fin))
    {
      hide IsText, Hopeless, IsValid, Finish;
      var text := firstop == TEXT && !fragmentCompressed;
      var ok := Append(payload);
      if !ok {
        ResetMessageState();
        return Fail(1009);
      }
      if text {
        var valid := buf.ValidateText(fin);
        if !valid {
          ResetMessageState();
          return Fail(1007);
        }
      }
      if !fin {
        return Silent;
      }
      var bytes := if buf.buf == null then [] else buf.buf[..buf.writeOffset];
      effect := FinishMessage(firstop, fragmentCompressed, bytes, text);
      ResetMessageState();
    }

    /** The part of processFrame behind the check of the mask and the reserved bits. */
    method Dispatch(f: Frame, payload: array<byte>) returns (effect: Effect)
      requires Valid() && payload !in Repr() && payload[..] == f.payload
      requires !f.rsv23 && (cfg.requireMask ==> f.masked)
      modifies this, Repr(), pool`puts
      ensures Valid() && fresh(Repr() - old(Repr()) - {null})
      ensures (State(), effect) == old(Step(cfg, State(), f))
    {
      hide IsText, Hopeless, IsValid, Finish, Gather, Control, Sound, ClientBuf.Valid;
      StepKeepsSound(cfg, State(), f);
      SoundMeans(cfg, State());
      if f.op >= 3 {
        return Control(f);
      }
      if f.op == 0 {
        if f.rsv1 {
          return Fail(1002);
        }
      } else if f.rsv1 && !cfg.deflate {
        return Fail(1002);
      }
      if (firstop == 0) == (f.op == 0) {
        return Fail(1002);
      }
      if f.op != 0 && !f.fin {
        firstop := f.op;
        fragmentCompressed := f.rsv1;
        assert [] + payload[..] == payload[..];
      }
      if firstop != 0 {
        effect := TakeFragment(f.fin, payload);
      } else {
        effect := FinishMessage(f.op, f.rsv1, payload[..], false);
        ResetMessageState();
      }
    }

    /**
     processFrame on a complete frame: unmasks the payload in place, does what `Step` says
     to the client's state, and answers with a frame of its own or none.
     */
    method ProcessFrame(header: seq<byte>, payload: array<byte>, handler: Handler) returns (out: seq<byte>, close: bool, effect: Effect)
      requires Valid() && payload !in Repr()
      requires |header| >= 2 && |header| == F.CalcHeaderSize(header[1])
      modifies this, Repr(), payload, pool`puts
      ensures Valid() && fresh(Repr() - old(Repr()) - {null})
      ensures (State(), effect) == old(Step(cfg, State(), FrameIn(header, payload[..])))
      ensures out == Answer(handler, effect) && close == effect.Close?
      ensures Answers(out, cfg, old(State()), old(FrameIn(header, payload[..])), handler)
    {
      hide Step, Cipher.Masked, ServerFrame, Sound, ClientBuf.Valid, Answers;
      EveryFrameIsAnswered(cfg, State(), FrameIn(header, payload[..]), handler);
      ghost var f := FrameIn(header, payload[..]);
      var masked := header[1] >= 0x80;
      var rsv1, rsv23 := header[0] / 64 % 2 == 1, header[0] / 16 % 4 != 0;
      effect := Fail(1002);
      StepRejects(cfg, State(), f);
      if !(cfg.requireMask && !masked) {
        if masked && payload.Length > 0 {
          Cipher.Cipher(bigEndian, payload, header[|header| - 4..|header|], 0);
        }
        if payload.Length == 0 && masked {
          MaskedNothing(payload[..], header[|header| - 4..|header|]);
        }
        assert payload[..] == f.payload;
        if !rsv23 {
          effect := Dispatch(Frame(header[0] >= 0x80, rsv1, rsv23, header[0] % 16, masked, payload[..]), payload);
        }
      }
      out := Answer(handler, effect);
      close := effect.Close?;
    }

    /** One packet of the read loop. */
    method ProcessPacket(packet: seq<byte>, handler: Handler) returns (out: seq<byte>, effect: Effect)
      requires Valid() && IsFrame(packet)
      modifies this, Repr(), pool`puts
      ensures Valid() && fresh(Repr() - old(Repr()) - {null})
      ensures (State(), effect) == old(Step(cfg, State(), FrameOf(packet))) && out == Answer(handler, effect)
      ensures Answers(out, cfg, old(State()), FrameOf(packet), handler)
    {
      hide Valid, Step, FrameOf, Answer, Answers;
      var n := F.CalcHeaderSize(packet[1]);
      var payload := new byte[|packet| - n](k requires 0 <= k < |packet| - n => packet[n + k]);
      assert payload[..] == packet[n..];
      FrameOfMeans(packet);
      var close;
      out, close, effect := ProcessFrame(packet[..n], payload, handler);
    }

    /**
     A whole run of packets.  State and effects are those of the reassembly rules for the
     frames in the packets, every frame is answered according to its effect, and up to the
     first close this is a run of the rules.
     */
    method ProcessAll(packets: seq<seq<byte>>, handler: Handler) returns (outs: seq<seq<byte>>, effects: seq<Effect>)
      requires Valid() && State() == IDLE && forall p :: p in packets ==> IsFrame(p)
      modifies this, Repr(), pool`puts
      ensures Valid() && fresh(Repr() - old(Repr()) - {null})
      ensures effects == Effects(cfg, FramesOf(packets)) && State() == After(cfg, FramesOf(packets))
      ensures |outs| == |effects| == |packets| && forall i :: 0 <= i < |outs| ==> outs[i] == Answer(handler, effects[i])
      ensures forall i :: 0 <= i < |outs| ==> Answers(outs[i], cfg, After(cfg, FramesOf(packets)[..i]), FramesOf(packets)[i], handler)
      ensures |UpToClose(effects)| <= |packets| && (!Closes(effects) ==> UpToClose(effects) == effects)
      ensures Run(cfg, FramesOf(packets)) ==
              Trace(After(cfg, FramesOf(packets)[..|UpToClose(effects)|]), Deliveries(UpToClose(effects)), Closes(effects))
    {
      hide Valid, Run, Step, After, Effects, FrameOf, Answer, Answers, UpToClose, Closes, Deliveries;
      ghost var frames := FramesOf(packets);
      outs, effects := [], [];
      NoFrames(cfg, frames);
      for i := 0 to |packets|
        invariant Valid() && fresh(Repr() - old(Repr()) - {null})
        invariant effects == Effects(cfg, frames[..i]) && State() == After(cfg, frames[..i])
        invariant |outs| == |effects| == i && forall k :: 0 <= k < i ==> outs[k] == Answer(handler, effects[k])
        invariant forall k :: 0 <= k < i ==> Answers(outs[k], cfg, After(cfg, frames[..k]), frames[k], handler)
      {
        assert packets[i] in packets;
        EffectsNext(cfg, frames[..i], frames[i]);
        assert frames[..i + 1] == frames[..i] + [frames[i]];
        var out, effect := ProcessPacket(packets[i], handler);
        outs := outs + [out];
        effects := effects + [effect];
      }
      assert frames[..|packets|] == frames;
      RunIsUpToClose(cfg, frames);
    }

    lemma NoFrames(cfg: Config, frames: seq<Frame>)
      ensures Effects(cfg, frames[..0]) == [] && After(cfg, frames[..0]) == IDLE
    {
    }

    lemma FrameOfMeans(packet: seq<byte>)
      requires IsFrame(packet)
      ensures var n := F.CalcHeaderSize(packet[1]); packet[..n][1] == packet[1] && FrameOf(packet) == FrameIn(packet[..n], packet[n..])
    {
    }
  }

  lemma SoundMeans(cfg: Config, st: Assembly)
    requires Sound(cfg, st)
    ensures st.firstop == 0 ==> st == IDLE
  {
  }

  lemma StepRejects(cfg: Config, st: Assembly, f: Frame)
    ensures (cfg.requireMask && !f.masked) || f.rsv23 ==> Step(cfg, st, f) == (st, Fail(1002))
  {
  }

  lemma MaskedNothing(p: seq<byte>, mask: seq<byte>)
    requires p == [] && |mask| == 4
    ensures Cipher.Masked(p, mask, 0) == p
  {
  }
}
