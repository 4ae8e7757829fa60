/**
 WebSocket messages: fragmentation, interleaved control frames, text validation and
 limits (sections 5.4, 5.5, 7.4 and 8.1 of RFC 6455, section 6 of RFC 7692).

 `Step` states what one frame does to the state of a client; `Run` applies it to every
 frame up to the first close.
 */
module Message {
  import opened Bytes
  import opened Utf8

  datatype Inflated = Plain(bytes: seq<byte>) | TooLarge | Corrupt

  /** The tuning knobs, whether permessage-deflate was negotiated, and the decompressor. */
  datatype Config = Config(
    requireMask: bool,
    maxMessage: int,                    // 0 is no limit
    poolMax: nat,                       // the largest buffer the pool hands out
    deflate: bool,
    inflate: seq<byte> -> Inflated)

  /** A frame with its payload unmasked. */
  datatype Frame = Frame(fin: bool, rsv1: bool, rsv23: bool, op: nat, masked: bool, payload: seq<byte>)

  /** A partly received message: opcode 0 when there is none. */
  datatype Assembly = Assembly(firstop: nat, compressed: bool, buffered: seq<byte>)

  datatype Effect =
    | Silent
    | Pong(payload: seq<byte>)
    | Deliver(op: nat, message: seq<byte>)
    | Close(reply: seq<byte>)

  const TEXT := 1
  const BINARY := 2
  const IDLE := Assembly(0, false, [])

  // -------------------------------------------------------------- close frames

  predicate ValidCloseCode(code: nat) {
    3000 <= code <= 4999 || (1000 <= code <= 1014 && code != 1004 && code != 1005 && code != 1006)
  }

  function CodeBytes(code: nat): seq<byte>
    requires code < 0x1_0000
  {
    [code / 256, code % 256]
  }

  /** buildClose: the payload of the close frame sent in answer to one with payload `p`. */
  function CloseReply(p: seq<byte>): seq<byte> {
    if |p| == 0 then []
    else if |p| < 2 || !ValidCloseCode(U16(p[0], p[1])) then CodeBytes(1002)
    else if |p| > 2 && !IsValid(p[2..]) then []
    else p
  }

  /**
   The answer is always a payload that may be sent: empty, or a valid code followed by
   valid text; and it is a payload the other side would echo.
   */
  lemma CloseReplyIsSendable(p: seq<byte>)
    ensures var r := CloseReply(p);
            && (r == [] || (|r| >= 2 && ValidCloseCode(U16(r[0], r[1])) && IsText(r[2..])))
            && (|p| <= 125 ==> |r| <= 125)
            && CloseReply(r) == r
  {
    var r := CloseReply(p);
    if r != [] {
      ValidExactly(r[2..]);
    }
  }

  function Fail(code: nat): Effect
    requires code < 0x1_0000
  {
    Close(CodeBytes(code))
  }

  // ---------------------------------------------------------- what one frame does

  function Control(f: Frame): Effect {
    if f.rsv1 || |f.payload| > 125 || !f.fin then Fail(1002)
    else if f.op == 8 then Close(CloseReply(f.payload))
    else if f.op == 9 then Pong(f.payload)
    else if f.op == 10 then Silent
    else Fail(1002)
  }

  predicate TooBig(cfg: Config, n: nat) {
    (cfg.maxMessage > 0 && n > cfg.maxMessage) || n > cfg.poolMax
  }

  /** A message is complete: decompress it, check it, hand it over. */
  ghost function Finish(cfg: Config, op: nat, compressed: bool, bytes: seq<byte>, checked: bool): Effect {
    var decoded := if compressed then cfg.inflate(bytes) else Plain(bytes);
    if decoded.TooLarge? then Fail(1009)
    else if decoded.Corrupt? then Fail(1002)
    else if cfg.maxMessage > 0 && |decoded.bytes| > cfg.maxMessage then Fail(1009)
    else if op == TEXT && !checked && !IsText(decoded.bytes) then Fail(1007)
    else Deliver(op, decoded.bytes)
  }

  /** One more fragment of the message under way. */
  ghost function Gather(cfg: Config, op: nat, compressed: bool, all: seq<byte>, fin: bool): (Assembly, Effect) {
    var text := op == TEXT && !compressed;
    if TooBig(cfg, |all|) then (IDLE, Fail(1009))
    else if text && (if fin then !IsText(all) else Hopeless(all)) then (IDLE, Fail(1007))
    else if fin then (IDLE, Finish(cfg, op, compressed, all, text))
    else (Assembly(op, compressed, all), Silent)
  }

  ghost function Step(cfg: Config, st: Assembly, f: Frame): (Assembly, Effect) {
    if (cfg.requireMask && !f.masked) || f.rsv23 then (st, Fail(1002))
    else if f.op >= 3 then (st, Control(f))
    else if f.rsv1 && (f.op == 0 || !cfg.deflate) then (st, Fail(1002))
    else if (st.firstop == 0) == (f.op == 0) then (st, Fail(1002))
    else if f.op != 0 && f.fin then (IDLE, Finish(cfg, f.op, f.rsv1, f.payload, false))
    else if f.op != 0 then Gather(cfg, f.op, f.rsv1, f.payload, false)
    else Gather(cfg, st.firstop, st.compressed, st.buffered + f.payload, f.fin)
  }

  // ----------------------------------------------------------------------- runs

  datatype Trace = Trace(st: Assembly, delivered: seq<Effect>, closed: bool)

  /** Every frame up to the first close. */
  ghost function Run(cfg: Config, frames: seq<Frame>): Trace
    decreases |frames|
  {
    if frames == [] then Trace(IDLE, [], false) else
      var before := Run(cfg, frames[..|frames| - 1]);
      if before.closed then before else
        var (st, effect) := Step(cfg, before.st, frames[|frames| - 1]);
        Trace(st, if effect.Deliver? then before.delivered + [effect] else before.delivered, effect.Close?)
  }

  lemma RunNext(cfg: Config, frames: seq<Frame>, f: Frame)
    ensures var before := Run(cfg, frames);
            var (st, effect) := Step(cfg, before.st, f);
            Run(cfg, frames + [f]) ==
              if before.closed then before
              else Trace(st, if effect.Deliver? then before.delivered + [effect] else before.delivered, effect.Close?)
  {
    hide Step;
    assert (frames + [f])[..|frames|] == frames;
  }

  // ---------------------------------------------------- a client that goes on

  /** The state behind all frames: the client keeps no note of a close. */
  ghost function After(cfg: Config, frames: seq<Frame>): Assembly {
    if frames == [] then IDLE else Step(cfg, After(cfg, frames[..|frames| - 1]), frames[|frames| - 1]).0
  }

  /** What each frame does, also behind a close. */
  ghost function Effects(cfg: Config, frames: seq<Frame>): seq<Effect> {
    if frames == [] then [] else
      var before := frames[..|frames| - 1];
      Effects(cfg, before) + [Step(cfg, After(cfg, before), frames[|frames| - 1]).1]
  }

  predicate Closes(es: seq<Effect>) {
    exists i :: 0 <= i < |es| && es[i].Close?
  }

  /** The effects up to the first close. */
  function UpToClose(es: seq<Effect>): seq<Effect> {
    if es == [] || !Closes(es[..|es| - 1]) then es else UpToClose(es[..|es| - 1])
  }

  function Deliveries(es: seq<Effect>): seq<Effect> {
    if es == [] then [] else
      Deliveries(es[..|es| - 1]) + if es[|es| - 1].Deliver? then [es[|es| - 1]] else []
  }

  lemma EffectsNext(cfg: Config, frames: seq<Frame>, f: Frame)
    ensures var (st, effect) := Step(cfg, After(cfg, frames), f);
            After(cfg, frames + [f]) == st && Effects(cfg, frames + [f]) == Effects(cfg, frames) + [effect]
  {
    hide Step;
    assert (frames + [f])[..|frames|] == frames;
  }

  lemma UpToCloseNext(es: seq<Effect>, e: Effect)
    ensures UpToClose(es + [e]) == if Closes(es) then UpToClose(es) else es + [e]
    ensures Closes(es + [e]) <==> Closes(es) || e.Close?
    ensures Deliveries(es + [e]) == Deliveries(es) + if e.Deliver? then [e] else []
  {
    assert (es + [e])[..|es|] == es;
    if Closes(es) {
      var i :| 0 <= i < |es| && es[i].Close?;
      assert (es + [e])[i] == es[i];
    }
    if e.Close? {
      assert (es + [e])[|es|] == e;
    }
  }

  /** A run is what the client does up to the first close. */
  ghost predicate IsUpToClose(cfg: Config, frames: seq<Frame>) {
    var trace, es := Run(cfg, frames), Effects(cfg, frames);
    && |UpToClose(es)| <= |es| == |frames| && (!trace.closed ==> UpToClose(es) == es)
    && trace == Trace(After(cfg, frames[..|UpToClose(es)|]), Deliveries(UpToClose(es)), Closes(es))
  }

  lemma {:induction false} RunIsUpToClose(cfg: Config, frames: seq<Frame>)
    ensures IsUpToClose(cfg, frames)
    decreases |frames|
  {
    if frames != [] {
      var n := |frames| - 1;
      assert frames[..n] + [frames[n]] == frames;
      RunIsUpToClose(cfg, frames[..n]);
      StaysUpToClose(cfg, frames[..n], frames[n]);
      hide IsUpToClose;
    }
  }

  lemma StaysUpToClose(cfg: Config, before: seq<Frame>, f: Frame)
    requires IsUpToClose(cfg, before)
    ensures IsUpToClose(cfg, before + [f])
  {
    hide Run, Step, After, Effects, UpToClose, Closes, Deliveries;
    var frames, es := before + [f], Effects(cfg, before);
    var k := |UpToClose(es)|;
    RunNext(cfg, before, f);
    EffectsNext(cfg, before, f);
    UpToCloseNext(es, Step(cfg, After(cfg, before), f).1);
    assert frames[..k] == before[..k] && before[..|before|] == before && frames[..|frames|] == frames;
  }

  lemma DataFramesNext(frames: seq<Frame>, f: Frame)
    ensures DataFrames(frames + [f]) == DataFrames(frames) + if f.op < 3 then [f] else []
  {
    assert (frames + [f])[..|frames|] == frames;
  }

  /** What holds of a client between frames. */
  ghost predicate Sound(cfg: Config, st: Assembly) {
    && st.firstop in {0, TEXT, BINARY}
    && (st.firstop == 0 ==> st == IDLE)
    && !TooBig(cfg, |st.buffered|)
    && (st.firstop == TEXT && !st.compressed ==> !Hopeless(st.buffered))
  }

  ghost predicate SoundMessage(cfg: Config, m: Effect) {
    && m.Deliver? && m.op in {TEXT, BINARY}
    && (cfg.maxMessage > 0 ==> |m.message| <= cfg.maxMessage)
    && (m.op == TEXT ==> IsText(m.message))
  }

  lemma StepKeepsSound(cfg: Config, st: Assembly, f: Frame)
    requires Sound(cfg, st)
    ensures var (st', effect) := Step(cfg, st, f);
            Sound(cfg, st') && (effect.Deliver? ==> SoundMessage(cfg, effect))
  {
    hide IsText, Hopeless;
  }

  /**
   In every run: at most one message is under way, nothing is buffered when there is
   none, what is buffered and what is delivered is within the limit, and every delivered
   text is valid UTF-8.
   */
  lemma {:induction false} RunKeepsSound(cfg: Config, frames: seq<Frame>)
    ensures Sound(cfg, Run(cfg, frames).st)
    ensures forall i :: 0 <= i < |Run(cfg, frames).delivered| ==> SoundMessage(cfg, Run(cfg, frames).delivered[i])
    decreases |frames|
  {
    if frames != [] {
      var n := |frames| - 1;
      assert frames[..n] + [frames[n]] == frames;
      RunNext(cfg, frames[..n], frames[n]);
      hide Run, Step, Sound, SoundMessage;
      RunKeepsSound(cfg, frames[..n]);
      StepKeepsSound(cfg, Run(cfg, frames[..n]).st, frames[n]);
    }
  }

  // ------------------------------------- reference: section 5.4 of RFC 6455

  /** Control frames may be interleaved anywhere; they are no part of any message. */
  function DataFrames(frames: seq<Frame>): seq<Frame> {
    if frames == [] then [] else
      var n := |frames| - 1;
      DataFrames(frames[..n]) + (if frames[n].op < 3 then [frames[n]] else [])
  }

  /** The index of the first frame with FIN set, or the number of frames. */
  function FirstFin(fs: seq<Frame>): (k: nat)
    ensures k <= |fs|
    ensures k < |fs| ==> fs[k].fin
    ensures forall i :: 0 <= i < k ==> !fs[i].fin
  {
    if fs == [] || fs[0].fin then 0 else 1 + FirstFin(fs[1..])
  }

  function Payloads(fs: seq<Frame>): seq<byte> {
    if fs == [] then [] else fs[0].payload + Payloads(fs[1..])
  }

  /** A message as it arrived: the opcode and RSV1 bit of its first frame, the payloads of all. */
  datatype Arrived = Arrived(op: nat, compressed: bool, bytes: seq<byte>)

  function Join(fs: seq<Frame>): Arrived
    requires fs != []
  {
    Arrived(fs[0].op, fs[0].rsv1, Payloads(fs))
  }

  /** The messages in a list of data frames: each runs up to and including the next FIN. */
  function Reassemble(fs: seq<Frame>): seq<Arrived>
    decreases |fs|
  {
    var k := FirstFin(fs);
    if k == |fs| then [] else [Join(fs[..k + 1])] + Reassemble(fs[k + 1..])
  }

  /** The fragments of the message that has not ended yet. */
  function Unfinished(fs: seq<Frame>): seq<Frame>
    decreases |fs|
  {
    var k := FirstFin(fs);
    if k == |fs| then fs else Unfinished(fs[k + 1..])
  }

  lemma {:induction false} FirstFinIs(fs: seq<Frame>, k: nat)
    requires k <= |fs| && (k < |fs| ==> fs[k].fin) && forall i :: 0 <= i < k ==> !fs[i].fin
    ensures FirstFin(fs) == k
  {
  }

  /** What one more data frame adds. */
  lemma {:induction false} ReassembleSnoc(fs: seq<Frame>, f: Frame)
    ensures Unfinished(fs + [f]) == if f.fin then [] else Unfinished(fs) + [f]
    ensures Reassemble(fs + [f]) == Reassemble(fs) + (if f.fin then [Join(Unfinished(fs) + [f])] else [])
    decreases |fs|
  {
    var k := FirstFin(fs);
    if k < |fs| {
      FirstFinIs(fs + [f], k);
      assert (fs + [f])[..k + 1] == fs[..k + 1];
      assert (fs + [f])[k + 1..] == fs[k + 1..] + [f];
      ReassembleSnoc(fs[k + 1..], f);
    } else if f.fin {
      FirstFinIs(fs + [f], |fs|);
      assert (fs + [f])[..|fs| + 1] == fs + [f];
      assert (fs + [f])[|fs| + 1..] == [];
    } else {
      FirstFinIs(fs + [f], |fs| + 1);
    }
  }

  lemma {:induction false} PayloadsSnoc(fs: seq<Frame>, f: Frame)
    ensures Payloads(fs + [f]) == Payloads(fs) + f.payload
  {
    if fs == [] {
      assert fs + [f] == [f];
      assert [f][1..] == [];
    } else {
      assert (fs + [f])[1..] == fs[1..] + [f];
      PayloadsSnoc(fs[1..], f);
    }
  }

  /** What is delivered for a message that arrived. */
  function Unpack(cfg: Config, m: Arrived): Effect {
    Deliver(m.op, if m.compressed && cfg.inflate(m.bytes).Plain? then cfg.inflate(m.bytes).bytes else m.bytes)
  }

  function UnpackAll(cfg: Config, ms: seq<Arrived>): seq<Effect> {
    seq(|ms|, i requires 0 <= i < |ms| => Unpack(cfg, ms[i]))
  }

  /** The state in which an unfinished message leaves the client. */
  function StateOf(fs: seq<Frame>): Assembly {
    if fs == [] then IDLE else Assembly(fs[0].op, fs[0].rsv1, Payloads(fs))
  }

  /** An unfinished message begins with a frame that is no continuation. */
  predicate Started(fs: seq<Frame>) {
    fs != [] ==> fs[0].op != 0
  }

  /** A frame that does not close the connection takes the state and the messages where the reference says. */
  lemma StepReassembles(cfg: Config, fs: seq<Frame>, f: Frame)
    requires Sound(cfg, StateOf(Unfinished(fs))) && Started(Unfinished(fs)) && f.op < 3
    ensures var (st, effect) := Step(cfg, StateOf(Unfinished(fs)), f);
            !effect.Close? ==>
              && Started(Unfinished(fs + [f])) && st == StateOf(Unfinished(fs + [f]))
              && UnpackAll(cfg, Reassemble(fs + [f]))
                 == UnpackAll(cfg, Reassemble(fs)) + (if effect.Deliver? then [effect] else [])
  {
    hide IsText, Hopeless, Unfinished, Reassemble, Payloads;
    ReassembleSnoc(fs, f);
    var u := Unfinished(fs);
    UnpackSnoc(cfg, Reassemble(fs), Join(u + [f]));
    hide UnpackAll;
    PayloadsSnoc(u, f);
    PayloadsNone();
    if u == [] {
      assert u + [f] == [f] && [] + f.payload == f.payload;
    } else {
      assert (u + [f])[0] == u[0];
    }
  }

  lemma UnpackSnoc(cfg: Config, ms: seq<Arrived>, m: Arrived)
    ensures UnpackAll(cfg, ms + [m]) == UnpackAll(cfg, ms) + [Unpack(cfg, m)]
  {
  }

  lemma PayloadsNone()
    ensures Payloads([]) == []
  {
  }

  /**
   In every run up to the first close, the messages delivered are exactly those of
   section 5.4 of RFC 6455 for the data frames received, unpacked; and the client's
   state is that of the unfinished message.
   */
  lemma {:induction false} RunReassembles(cfg: Config, frames: seq<Frame>)
    requires !Run(cfg, frames).closed
    ensures Started(Unfinished(DataFrames(frames)))
    ensures Run(cfg, frames).st == StateOf(Unfinished(DataFrames(frames)))
    ensures Run(cfg, frames).delivered == UnpackAll(cfg, Reassemble(DataFrames(frames)))
    decreases |frames|
  {
    if frames != [] {
      var n := |frames| - 1;
      var before, f := frames[..n], frames[n];
      assert before + [f] == frames;
      hide Run, Step, Reassemble, Unfinished, DataFrames, UnpackAll, Sound, Started, StateOf;
      RunNext(cfg, before, f);
      DataFramesNext(before, f);
      RunReassembles(cfg, before);
      RunKeepsSound(cfg, before);
      if f.op < 3 {
        StepReassembles(cfg, DataFrames(before), f);
      } else {
        assert DataFrames(before) + [] == DataFrames(before);
        ControlKeepsState(cfg, Run(cfg, before).st, f);
      }
    }
  }

  lemma ControlKeepsState(cfg: Config, st: Assembly, f: Frame)
    requires f.op >= 3
    ensures Step(cfg, st, f).0 == st && !Step(cfg, st, f).1.Deliver?
  {
  }

  /**
   A frame that may follow when the fragments `u` are waiting for their message to end:
   a ping or pong, or a data frame that starts or continues a message in turn, and
   whose message, as far as it is known, is within limits and valid.
   */
  ghost predicate Acceptable(cfg: Config, u: seq<Frame>, f: Frame) {
    && (cfg.requireMask ==> f.masked) && !f.rsv23
    && if f.op >= 3 then
         !f.rsv1 && f.fin && |f.payload| <= 125 && f.op in {9, 10}
       else
         var m := Join(u + [f]);
         && (u == [] <==> f.op != 0)
         && (f.rsv1 ==> u == [] && cfg.deflate)
         && (u != [] || !f.fin ==> !TooBig(cfg, |m.bytes|))
         && (m.op == TEXT && !m.compressed && !f.fin ==> !Hopeless(m.bytes))
         && (f.fin && m.compressed ==> cfg.inflate(m.bytes).Plain?)
         && (f.fin && cfg.maxMessage > 0 ==> |Unpack(cfg, m).message| <= cfg.maxMessage)
         && (f.fin && m.op == TEXT ==> IsText(Unpack(cfg, m).message))
  }

  lemma StepRefusesExactly(cfg: Config, u: seq<Frame>, f: Frame)
    requires Sound(cfg, StateOf(u)) && Started(u)
    ensures Step(cfg, StateOf(u), f).1.Close? <==> !Acceptable(cfg, u, f)
  {
    hide IsText, Hopeless, Payloads;
    PayloadsSnoc(u, f);
    PayloadsNone();
    if u == [] {
      assert u + [f] == [f] && [] + f.payload == f.payload;
    } else {
      assert (u + [f])[0] == u[0];
    }
  }

  /** A run closes at the first frame that is not acceptable, and only there. */
  lemma RunClosesExactly(cfg: Config, frames: seq<Frame>, f: Frame)
    requires !Run(cfg, frames).closed
    ensures Run(cfg, frames + [f]).closed <==> !Acceptable(cfg, Unfinished(DataFrames(frames)), f)
  {
    hide Run, Step, Reassemble, Unfinished, DataFrames, UnpackAll, Sound, Started, StateOf, Acceptable;
    RunNext(cfg, frames, f);
    RunReassembles(cfg, frames);
    RunKeepsSound(cfg, frames);
    StepRefusesExactly(cfg, Unfinished(DataFrames(frames)), f);
  }

  // --------------------------------------------------- the running UTF-8 check

  /** Once hopeless, always hopeless. */
  lemma HopelessStays(a: seq<byte>, b: seq<byte>)
    requires Hopeless(a)
    ensures Hopeless(a + b) && !IsText(a + b)
  {
    forall t: seq<byte>
      ensures !IsText(a + b + t)
    {
      assert a + b + t == a + (b + t);
    }
    assert a + b + [] == a + b;
  }

  /** An uncompressed text message cut into the given parts. */
  function TextFrames(parts: seq<seq<byte>>): seq<Frame> {
    seq(|parts|, i requires 0 <= i < |parts| =>
      Frame(i == |parts| - 1, false, false, if i == 0 then TEXT else 0, true, parts[i]))
  }

  lemma {:induction false} FlattenGrows(parts: seq<seq<byte>>, k: nat)
    requires k <= |parts|
    ensures |Flatten(parts[..k])| <= |Flatten(parts)|
    decreases |parts| - k
  {
    if k < |parts| {
      assert parts[..k + 1] == parts[..k] + [parts[k]];
      FlattenSnoc(parts[..k], parts[k]);
      FlattenGrows(parts, k + 1);
    } else {
      assert parts[..k] == parts;
    }
  }

  /** All but the last fragment of a text. */
  lemma {:induction false} RunningCheck(cfg: Config, parts: seq<seq<byte>>, k: nat)
    requires 1 <= k < |parts| && !TooBig(cfg, |Flatten(parts)|)
    ensures var trace, sofar := Run(cfg, TextFrames(parts)[..k]), Flatten(parts[..k]);
            && (trace.closed <==> Hopeless(sofar))
            && (!trace.closed ==> trace.st == Assembly(TEXT, false, sofar) && trace.delivered == [])
  {
    hide IsText, Hopeless, Flatten;
    var frames := TextFrames(parts);
    assert frames[..k][..k - 1] == frames[..k - 1];
    assert parts[..k] == parts[..k - 1] + [parts[k - 1]];
    FlattenSnoc(parts[..k - 1], parts[k - 1]);
    FlattenGrows(parts, k);
    if k == 1 {
      FlattenNothing(parts[..0]);
      assert frames[..0] == [] && [] + parts[0] == parts[0];
    } else {
      RunningCheck(cfg, parts, k - 1);
      if Hopeless(Flatten(parts[..k - 1])) {
        HopelessStays(Flatten(parts[..k - 1]), parts[k - 1]);
      }
    }
  }

  /**
   The running check is exact.  However a text is cut into fragments, the final frame is
   accepted if and only if the whole is valid UTF-8, and then the whole is delivered; and
   the connection is closed at an earlier fragment if and only if no continuation of the
   bytes so far is valid.
   */
  lemma RunningCheckIsExact(cfg: Config, parts: seq<seq<byte>>)
    requires parts != [] && !TooBig(cfg, |Flatten(parts)|)
    ensures Run(cfg, TextFrames(parts)).closed <==> !IsText(Flatten(parts))
    ensures IsText(Flatten(parts)) ==> Run(cfg, TextFrames(parts)).delivered == [Deliver(TEXT, Flatten(parts))]
    ensures forall k :: 1 <= k < |parts| ==> (Run(cfg, TextFrames(parts)[..k]).closed <==> Hopeless(Flatten(parts[..k])))
  {
    hide IsText, Hopeless, Flatten;
    forall k | 1 <= k < |parts|
      ensures Run(cfg, TextFrames(parts)[..k]).closed <==> Hopeless(Flatten(parts[..k]))
    {
      RunningCheck(cfg, parts, k);
    }
    var n, frames := |parts| - 1, TextFrames(parts);
    assert parts == parts[..n] + [parts[n]];
    FlattenSnoc(parts[..n], parts[n]);
    if n == 0 {
      FlattenNothing(parts[..0]);
      assert [] + parts[0] == parts[0] && frames[..0] == [];
    } else {
      RunningCheck(cfg, parts, n);
      if Hopeless(Flatten(parts[..n])) {
        HopelessStays(Flatten(parts[..n]), parts[n]);
      }
    }
  }
}
