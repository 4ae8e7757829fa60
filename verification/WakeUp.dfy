/**
 The wake-up protocol between the producers of commands and connections
 (`AddCmd`, `AddClient`), the closer (`Poll.Close`) and the event loop
 (`Poll.Poll` calling `processCmd`).

 Every atomic action of the Go code is one step, and steps of the loop, of any
 number of producers and of the closer interleave in any order.  The contents of
 the channels do not matter here, only their lengths.
 */
module WakeUp {

  datatype Channel = AcceptChan | CmdChan | DialChan

  /** Where a producer is inside `AddCmd` / `AddClient`. */
  datatype ProducerPc =
    | Outside    // not in a call
    | Pushed     // the element is in the channel, the compare-and-swap is next
    | Swapped    // the compare-and-swap won, the eventfd write is next

  /** Where the caller of `Poll.Close` is. */
  datatype CloserPc = NotClosing | StopStored | StopTriggered

  /** `processCmd` runs once per eventfd event and once at the end of each poll round. */
  datatype Pass = OnWake | OnIdle

  datatype LoopPc =
    | Waiting                                      // in EpollWait
    | Returned(wakeReady: bool)                    // EpollWait returned; is the eventfd among the unhandled events?
    | Reading                                      // about to read the eventfd
    | CheckStop                                    // about to load `stopping`
    | Drain(pass: Pass, ch: Channel, taken: nat)   // draining one channel under its budget
    | Flush(pass: Pass, flushed: nat)              // draining cmdFlushSet under its budget
    | Store(pass: Pass)                            // about to store 0 into `triggered`
    | Recheck(pass: Pass, index: nat)              // about to evaluate condition number `index` of the re-check
    | Rearm(pass: Pass)                            // a re-check found work: compare-and-swap is next
    | Notify(pass: Pass)                           // the compare-and-swap won: eventfd write is next
    | Stopped                                      // the loop has returned

  datatype State = State(
    accept: nat, cmd: nat, dial: nat,    // channel lengths
    flush: nat,                          // size of cmdFlushSet
    triggered: bool,
    eventfd: nat,                        // eventfd counter
    stopping: bool,
    closer: CloserPc,
    producers: seq<ProducerPc>,
    loop: LoopPc)

  /** Channel capacity and the per-event budgets; a budget that is not positive is no budget. */
  datatype Config = Config(capacity: nat, maxAccept: int, maxCmd: int, maxFlush: int)

  function Len(s: State, ch: Channel): nat {
    match ch
    case AcceptChan => s.accept
    case CmdChan => s.cmd
    case DialChan => s.dial
  }

  function SetLen(s: State, ch: Channel, n: nat): State {
    match ch
    case AcceptChan => s.(accept := n)
    case CmdChan => s.(cmd := n)
    case DialChan => s.(dial := n)
  }

  function Budget(cfg: Config, ch: Channel): int {
    if ch == AcceptChan then cfg.maxAccept else cfg.maxCmd
  }

  predicate Exhausted(budget: int, used: nat) {
    budget > 0 && used >= budget
  }

  function AfterDrain(pass: Pass, ch: Channel): LoopPc {
    match ch
    case AcceptChan => Drain(pass, CmdChan, 0)
    case CmdChan => Drain(pass, DialChan, 0)
    case DialChan => Flush(pass, 0)
  }

  /** Where control goes when `processCmd` returns. */
  function AfterPass(pass: Pass): LoopPc {
    if pass == OnWake then Returned(false) else Waiting
  }

  /** The re-check reads the four lengths one after the other, in this order. */
  function RecheckLen(s: State, index: nat): nat
    requires index < 4
  {
    if index == 0 then s.cmd else if index == 1 then s.dial else if index == 2 then s.accept else s.flush
  }

  // ---------------------------------------------------------------- loop steps

  /** The state after taking one element out of the channel being drained, with `f` connections left to flush. */
  function Taken(s: State, f: nat): State
    requires s.loop.Drain? && Len(s, s.loop.ch) > 0
  {
    var n := Len(s, s.loop.ch) - 1;
    var s1 := s.(flush := f, loop := Drain(s.loop.pass, s.loop.ch, s.loop.taken + 1));
    SetLen(s1, s.loop.ch, n)
  }

  /** Taking one element; handling it may close connections, and a command may add one to the flush set. */
  ghost predicate TakeOne(cfg: Config, s: State, s': State) {
    && s.loop.Drain?
    && Len(s, s.loop.ch) > 0
    && !Exhausted(Budget(cfg, s.loop.ch), s.loop.taken)
    && exists f: nat :: f <= s.flush + (if s.loop.ch == AcceptChan then 0 else 1) && s' == Taken(s, f)
  }

  ghost predicate LeaveDrain(cfg: Config, s: State, s': State) {
    && s.loop.Drain?
    && (Len(s, s.loop.ch) == 0 || Exhausted(Budget(cfg, s.loop.ch), s.loop.taken))
    && s' == s.(loop := AfterDrain(s.loop.pass, s.loop.ch))
  }

  /** One connection leaves the flush set; one that is gone or gets closed does not use up budget. */
  ghost predicate FlushOne(cfg: Config, s: State, s': State) {
    && s.loop.Flush?
    && s.flush > 0
    && !Exhausted(cfg.maxFlush, s.loop.flushed)
    && (|| s' == s.(flush := s.flush - 1)
        || s' == s.(flush := s.flush - 1, loop := s.loop.(flushed := s.loop.flushed + 1)))
  }

  ghost predicate LeaveFlush(cfg: Config, s: State, s': State) {
    && s.loop.Flush?
    && (s.flush == 0 || Exhausted(cfg.maxFlush, s.loop.flushed))
    && s' == s.(loop := Store(s.loop.pass))
  }

  ghost predicate StoreZero(s: State, s': State) {
    s.loop.Store? && s' == s.(triggered := false, loop := Recheck(s.loop.pass, 0))
  }

  ghost predicate RecheckOne(s: State, s': State) {
    && s.loop.Recheck?
    && s.loop.index < 4
    && s' == s.(loop := if RecheckLen(s, s.loop.index) > 0 then Rearm(s.loop.pass)
                        else if s.loop.index < 3 then Recheck(s.loop.pass, s.loop.index + 1)
                        else AfterPass(s.loop.pass))
  }

  ghost predicate RearmCas(s: State, s': State) {
    && s.loop.Rearm?
    && s' == if s.triggered then s.(loop := AfterPass(s.loop.pass))
             else s.(triggered := true, loop := Notify(s.loop.pass))
  }

  ghost predicate NotifySelf(s: State, s': State) {
    s.loop.Notify? && s' == s.(eventfd := s.eventfd + 1, loop := AfterPass(s.loop.pass))
  }

  /** EpollWait reports the eventfd: it is level triggered, so the counter is positive. */
  ghost predicate WaitReturnsWake(s: State, s': State) {
    s.loop.Waiting? && s.eventfd > 0 && s' == s.(loop := Returned(true))
  }

  /** EpollWait returns without the eventfd: other descriptors, a timeout, a signal. */
  ghost predicate WaitReturnsOther(s: State, s': State) {
    s.loop.Waiting? && s' == s.(loop := Returned(false))
  }

  /** Events of other descriptors close connections, which leave the flush set. */
  ghost predicate HandleOther(s: State, s': State) {
    s.loop.Returned? && s' == s.(flush := s'.flush) && s'.flush <= s.flush
  }

  ghost predicate PickWake(s: State, s': State) {
    s.loop == Returned(true) && s' == s.(loop := Reading)
  }

  ghost predicate ReadEventfd(s: State, s': State) {
    s.loop.Reading? && s.eventfd > 0 && s' == s.(eventfd := 0, loop := CheckStop)
  }

  ghost predicate LoadStopping(s: State, s': State) {
    s.loop.CheckStop? && s' == s.(loop := if s.stopping then Stopped else Drain(OnWake, AcceptChan, 0))
  }

  ghost predicate BeginIdlePass(s: State, s': State) {
    s.loop == Returned(false) && s' == s.(loop := Drain(OnIdle, AcceptChan, 0))
  }

  /** The steps the loop takes on its own account, without events of other descriptors. */
  ghost predicate SoloStep(cfg: Config, s: State, s': State) {
    || TakeOne(cfg, s, s') || LeaveDrain(cfg, s, s') || FlushOne(cfg, s, s') || LeaveFlush(cfg, s, s')
    || StoreZero(s, s') || RecheckOne(s, s') || RearmCas(s, s') || NotifySelf(s, s')
    || WaitReturnsWake(s, s') || PickWake(s, s') || ReadEventfd(s, s') || LoadStopping(s, s')
    || BeginIdlePass(s, s')
  }

  // ------------------------------------------------- producer and closer steps

  /** A non-blocking send; when the channel is full the call fails and nothing changes. */
  ghost predicate Push(cfg: Config, s: State, s': State, i: nat, ch: Channel) {
    && i < |s.producers| && s.producers[i] == Outside
    && s' == if Len(s, ch) < cfg.capacity
             then SetLen(s.(producers := s.producers[i := Pushed]), ch, Len(s, ch) + 1)
             else s
  }

  ghost predicate ProducerCas(s: State, s': State, i: nat) {
    && i < |s.producers| && s.producers[i] == Pushed
    && s' == if s.triggered then s.(producers := s.producers[i := Outside])
             else s.(triggered := true, producers := s.producers[i := Swapped])
  }

  ghost predicate ProducerNotify(s: State, s': State, i: nat) {
    && i < |s.producers| && s.producers[i] == Swapped
    && s' == s.(eventfd := s.eventfd + 1, producers := s.producers[i := Outside])
  }

  ghost predicate CloserStep(s: State, s': State) {
    match s.closer
    case NotClosing => s' == s.(stopping := true, closer := StopStored)
    case StopStored => s' == s.(eventfd := s.eventfd + 1, closer := StopTriggered)
    case StopTriggered => false
  }

  ghost predicate Next(cfg: Config, s: State, s': State) {
    || SoloStep(cfg, s, s')
    || WaitReturnsOther(s, s')
    || HandleOther(s, s')
    || CloserStep(s, s')
    || (exists i: nat, ch: Channel :: Push(cfg, s, s', i, ch))
    || (exists i: nat :: ProducerCas(s, s', i))
    || (exists i: nat :: ProducerNotify(s, s', i))
  }

  ghost predicate Init(s: State) {
    && s.accept == 0 && s.cmd == 0 && s.dial == 0 && s.flush == 0
    && !s.triggered && s.eventfd == 0 && !s.stopping && s.closer == NotClosing
    && (forall i :: 0 <= i < |s.producers| ==> s.producers[i] == Outside)
    && s.loop == Waiting
  }

  ghost predicate IsRun(cfg: Config, run: seq<State>) {
    && |run| > 0
    && Init(run[0])
    && forall i :: 0 < i < |run| ==> Next(cfg, run[i - 1], run[i])
  }

  // ------------------------------------------------------------------- safety

  predicate HasWork(s: State) {
    s.accept > 0 || s.cmd > 0 || s.dial > 0 || s.flush > 0
  }

  predicate SomeProducer(s: State, pc: ProducerPc) {
    exists i :: 0 <= i < |s.producers| && s.producers[i] == pc
  }

  predicate MidCall(s: State) {
    SomeProducer(s, Pushed) || SomeProducer(s, Swapped)
  }

  /** The loop will store 0 into `triggered` and re-check before it can block again. */
  predicate WillStore(pc: LoopPc) {
    match pc
    case Waiting => false
    case Stopped => false
    case Recheck(pass, _) => pass == OnWake
    case Rearm(pass) => pass == OnWake
    case Notify(pass) => pass == OnWake
    case _ => true
  }

  /** The loop will still read length number `index` of the re-check before it can block again. */
  predicate WillRecheck(pc: LoopPc, index: nat) {
    WillStore(pc) || (pc.Recheck? && pc.index <= index)
  }

  /** Someone is responsible for a set `triggered` flag. */
  predicate FlagOwned(s: State) {
    s.triggered ==> WillStore(s.loop) || s.eventfd > 0 || SomeProducer(s, Swapped) || s.loop.Notify? || s.loop.Stopped?
  }

  /** Work that the loop will not look at again before blocking has been announced. */
  predicate WorkAnnounced(s: State) {
    forall k :: 0 <= k < 4 && RecheckLen(s, k) > 0 ==>
      || WillRecheck(s.loop, k) || s.triggered || SomeProducer(s, Pushed)
      || s.loop.Rearm? || s.loop.Notify? || s.loop.Stopped?
  }

  /** A completed stop request is visible to the loop, which stops for no other reason. */
  predicate StopAnnounced(s: State) {
    && (s.closer != NotClosing <==> s.stopping)
    && (s.loop.Stopped? ==> s.stopping)
    && (s.closer == StopTriggered ==> s.eventfd > 0 || s.loop.CheckStop? || s.loop.Stopped?)
  }

  predicate LoopConsistent(s: State) {
    && (s.loop == Returned(true) || s.loop.Reading? ==> s.eventfd > 0)
    && (s.loop.Recheck? ==> s.loop.index < 4)
    && (s.loop.Rearm? || s.loop.Notify? ==> HasWork(s))
    && (s.loop.Notify? ==> s.triggered)
  }

  predicate Inv(s: State) {
    FlagOwned(s) && WorkAnnounced(s) && StopAnnounced(s) && LoopConsistent(s)
  }

  lemma TakeOneKeepsInv(cfg: Config, s: State, s': State)
    requires Inv(s) && TakeOne(cfg, s, s')
    ensures Inv(s')
    ensures s'.producers == s.producers && Work(s') < Work(s)
  {
    assert s'.loop.Drain? && WillStore(s'.loop);
  }

  /** A re-check that finds nothing moves on; one that finds something leads to `Rearm`. */
  lemma RecheckOneKeepsInv(s: State, s': State)
    requires Inv(s) && RecheckOne(s, s')
    ensures Inv(s')
  {
    var index := s.loop.index;
    forall k | 0 <= k < 4 && RecheckLen(s', k) > 0
      ensures || WillRecheck(s'.loop, k) || s'.triggered || SomeProducer(s', Pushed)
              || s'.loop.Rearm? || s'.loop.Notify? || s'.loop.Stopped?
    {
      assert RecheckLen(s, k) > 0;
    }
    assert s.producers == s'.producers;
  }

  /** Inside `processCmd`, before the store of 0. */
  lemma DrainStepKeepsInv(cfg: Config, s: State, s': State)
    requires Inv(s)
    requires LeaveDrain(cfg, s, s') || FlushOne(cfg, s, s') || LeaveFlush(cfg, s, s') || StoreZero(s, s')
    ensures Inv(s')
    ensures s'.producers == s.producers
  {
    assert WillStore(s'.loop) || s'.loop == Recheck(OnIdle, 0);
  }

  /** The re-arming steps, which end the pass. */
  lemma RearmStepKeepsInv(s: State, s': State)
    requires Inv(s)
    requires RearmCas(s, s') || NotifySelf(s, s')
    ensures Inv(s')
    ensures s'.producers == s.producers
  {
  }

  /** From EpollWait to the first drain of the round. */
  lemma RoundStepKeepsInv(s: State, s': State)
    requires Inv(s)
    requires WaitReturnsWake(s, s') || PickWake(s, s') || ReadEventfd(s, s') || LoadStopping(s, s') || BeginIdlePass(s, s')
    ensures Inv(s')
    ensures s'.producers == s.producers
  {
    assert WillStore(s'.loop) || s'.loop == Stopped;
  }

  lemma SoloStepKeepsInv(cfg: Config, s: State, s': State)
    requires Inv(s) && SoloStep(cfg, s, s')
    ensures Inv(s')
    ensures s'.producers == s.producers
  {
    if TakeOne(cfg, s, s') {
      TakeOneKeepsInv(cfg, s, s');
    } else if RecheckOne(s, s') {
      RecheckOneKeepsInv(s, s');
    } else if LeaveDrain(cfg, s, s') || FlushOne(cfg, s, s') || LeaveFlush(cfg, s, s') || StoreZero(s, s') {
      DrainStepKeepsInv(cfg, s, s');
    } else if RearmCas(s, s') || NotifySelf(s, s') {
      RearmStepKeepsInv(s, s');
    } else {
      RoundStepKeepsInv(s, s');
    }
  }

  /** AddCmd and AddClient fail exactly on a full channel, and then without a trace. */
  lemma PushFailsExactly(cfg: Config, s: State, s': State, i: nat, ch: Channel)
    requires Push(cfg, s, s', i, ch)
    ensures if Len(s, ch) >= cfg.capacity then s' == s
            else Len(s', ch) == Len(s, ch) + 1 && Queued(s') == Queued(s) + 1 && s'.producers[i] == Pushed
  {
  }

  lemma PushKeepsInv(cfg: Config, s: State, s': State, i: nat, ch: Channel)
    requires Inv(s) && Push(cfg, s, s', i, ch)
    ensures Inv(s')
  {
    if s' != s {
      assert s'.producers[i] == Pushed;
      if SomeProducer(s, Swapped) {
        var j :| 0 <= j < |s.producers| && s.producers[j] == Swapped;
        assert s'.producers[j] == Swapped;
      }
    }
  }

  lemma ProducerCasKeepsInv(s: State, s': State, i: nat)
    requires Inv(s) && ProducerCas(s, s', i)
    ensures Inv(s')
  {
    if s.triggered {
      if SomeProducer(s, Swapped) {
        var j :| 0 <= j < |s.producers| && s.producers[j] == Swapped;
        assert s'.producers[j] == Swapped;
      }
    } else {
      assert s'.producers[i] == Swapped;
    }
  }

  lemma ProducerNotifyKeepsInv(s: State, s': State, i: nat)
    requires Inv(s) && ProducerNotify(s, s', i)
    ensures Inv(s')
  {
    if SomeProducer(s, Pushed) {
      var j :| 0 <= j < |s.producers| && s.producers[j] == Pushed;
      assert s'.producers[j] == Pushed;
    }
  }

  lemma NextKeepsInv(cfg: Config, s: State, s': State)
    requires Inv(s) && Next(cfg, s, s')
    ensures Inv(s')
  {
    if SoloStep(cfg, s, s') {
      SoloStepKeepsInv(cfg, s, s');
    } else if i: nat, ch: Channel :| Push(cfg, s, s', i, ch) {
      PushKeepsInv(cfg, s, s', i, ch);
    } else if i: nat :| ProducerCas(s, s', i) {
      ProducerCasKeepsInv(s, s', i);
    } else if i: nat :| ProducerNotify(s, s', i) {
      ProducerNotifyKeepsInv(s, s', i);
    } else {
      assert s'.producers == s.producers;
    }
  }

  lemma {:induction false} RunKeepsInv(cfg: Config, run: seq<State>, n: nat)
    requires IsRun(cfg, run) && n < |run|
    ensures Inv(run[n])
  {
    if n > 0 {
      RunKeepsInv(cfg, run, n - 1);
      NextKeepsInv(cfg, run[n - 1], run[n]);
    }
  }

  /**
   No wake-up is ever lost: in every state of every run, if the loop is blocked in
   EpollWait while a channel or the flush set holds work, then the eventfd is pending
   or some producer is still inside its call.  A stop request is never lost either,
   the blocking read of the eventfd never blocks, and the loop stops only if it was asked to.
   */
  lemma NoLostWakeUp(cfg: Config, run: seq<State>, n: nat)
    requires IsRun(cfg, run) && n < |run|
    ensures run[n].loop == Waiting && HasWork(run[n]) ==> run[n].eventfd > 0 || MidCall(run[n])
    ensures run[n].loop == Waiting && run[n].closer == StopTriggered ==> run[n].eventfd > 0
    ensures run[n].loop == Reading ==> run[n].eventfd > 0
    ensures run[n].loop == Stopped ==> run[n].stopping
    ensures run[n].stopping <==> run[n].closer != NotClosing
  {
    RunKeepsInv(cfg, run, n);
    var s := run[n];
    if s.loop == Waiting && HasWork(s) {
      var k := if s.cmd > 0 then 0 else if s.dial > 0 then 1 else if s.accept > 0 then 2 else 3;
      assert RecheckLen(s, k) > 0;
    }
  }

  // ----------------------------------------------------------------- progress

  predicate Quiet(s: State) {
    forall i :: 0 <= i < |s.producers| ==> s.producers[i] == Outside
  }

  function Work(s: State): nat {
    2 * (s.accept + s.cmd + s.dial) + s.flush
  }

  /** Position of the loop inside one poll round. */
  function Position(pc: LoopPc): nat {
    match pc
    case Waiting => 0
    case Returned(ready) => if ready then 1 else 15
    case Reading => 2
    case CheckStop => 3
    case Drain(pass, ch, _) => (if pass == OnWake then 4 else 16) + (match ch case AcceptChan => 0 case CmdChan => 1 case DialChan => 2)
    case Flush(pass, _) => if pass == OnWake then 7 else 19
    case Store(pass) => if pass == OnWake then 8 else 20
    case Recheck(pass, index) => (if pass == OnWake then 9 else 21) + (if index < 4 then index else 3)
    case Rearm(pass) => if pass == OnWake then 13 else 25
    case Notify(pass) => if pass == OnWake then 14 else 26
    case Stopped => 27
  }

  /** In the final pass of this round, the phases still ahead find something to do. */
  predicate PassFindsWork(cfg: Config, s: State) {
    match s.loop
    case Drain(_, ch, taken) =>
      || (Len(s, ch) > 0 && !Exhausted(Budget(cfg, ch), taken))
      || (ch == AcceptChan && s.cmd > 0)
      || (ch != DialChan && s.dial > 0)
      || s.flush > 0
    case Flush(_, flushed) => s.flush > 0 && !Exhausted(cfg.maxFlush, flushed)
    case _ => false
  }

  /** Whether the loop needs another poll round before it next takes something or comes to rest. */
  predicate NeedsRound(cfg: Config, s: State) {
    if Work(s) > 0 then
      Position(s.loop) >= 16 && !PassFindsWork(cfg, s)
    else
      Position(s.loop) >= 3 && s.eventfd > 0
  }

  function Rank(cfg: Config, s: State): nat {
    if s.loop.Stopped? || (s.loop.Waiting? && s.eventfd == 0) then 0
    else (if NeedsRound(cfg, s) then 27 else 0) + 27 - Position(s.loop)
  }

  function Measure(cfg: Config, s: State): nat {
    55 * Work(s) + Rank(cfg, s)
  }

  lemma AnnouncedWhenQuiet(s: State)
    requires Inv(s) && Quiet(s) && s.loop == Waiting && HasWork(s)
    ensures s.eventfd > 0
  {
    var k := if s.cmd > 0 then 0 else if s.dial > 0 then 1 else if s.accept > 0 then 2 else 3;
    assert RecheckLen(s, k) > 0;
  }

  lemma TakingLowersMeasure(cfg: Config, s: State, s': State)
    requires Work(s') < Work(s)
    ensures Measure(cfg, s') < Measure(cfg, s)
  {
    assert Rank(cfg, s') < 55;
  }

  /** Leaving a drain loop or the flush loop. */
  lemma LeavingLowersRank(cfg: Config, s: State, s': State)
    requires LeaveDrain(cfg, s, s') || LeaveFlush(cfg, s, s')
    ensures Measure(cfg, s') < Measure(cfg, s)
  {
    assert Work(s') == Work(s);
    assert NeedsRound(cfg, s') ==> NeedsRound(cfg, s);
  }

  /** The control steps from the store of 0 to the end of the pass. */
  lemma PassEndLowersRank(cfg: Config, s: State, s': State)
    requires Inv(s) && Inv(s') && Quiet(s')
    requires StoreZero(s, s') || RecheckOne(s, s') || RearmCas(s, s') || NotifySelf(s, s')
    ensures Measure(cfg, s') < Measure(cfg, s)
  {
    assert Work(s') == Work(s);
    if s'.loop == Waiting && HasWork(s') {
      AnnouncedWhenQuiet(s');
    }
  }

  /** Undisturbed, every step of the loop brings it closer to rest. */
  lemma SoloStepProgress(cfg: Config, s: State, s': State)
    requires Inv(s) && Quiet(s) && SoloStep(cfg, s, s')
    ensures Inv(s') && Quiet(s')
    ensures Measure(cfg, s') < Measure(cfg, s)
  {
    SoloStepKeepsInv(cfg, s, s');
    if TakeOne(cfg, s, s') {
      TakeOneKeepsInv(cfg, s, s');
      TakingLowersMeasure(cfg, s, s');
    } else if FlushOne(cfg, s, s') {
      TakingLowersMeasure(cfg, s, s');
    } else if LeaveDrain(cfg, s, s') || LeaveFlush(cfg, s, s') {
      LeavingLowersRank(cfg, s, s');
    } else if StoreZero(s, s') || RecheckOne(s, s') || RearmCas(s, s') || NotifySelf(s, s') {
      PassEndLowersRank(cfg, s, s');
    } else {
      assert Work(s') == Work(s);
    }
  }

  /** One step of the loop when it is not at rest. */
  function SoloNext(cfg: Config, s: State): State {
    match s.loop
    case Waiting => s.(loop := Returned(true))
    case Returned(ready) => s.(loop := if ready then Reading else Drain(OnIdle, AcceptChan, 0))
    case Reading => s.(eventfd := 0, loop := CheckStop)
    case CheckStop => s.(loop := if s.stopping then Stopped else Drain(OnWake, AcceptChan, 0))
    case Drain(pass, ch, taken) =>
      if Len(s, ch) == 0 || Exhausted(Budget(cfg, ch), taken) then s.(loop := AfterDrain(pass, ch))
      else Taken(s, s.flush)
    case Flush(pass, flushed) =>
      if s.flush == 0 || Exhausted(cfg.maxFlush, flushed) then s.(loop := Store(pass))
      else s.(flush := s.flush - 1)
    case Store(pass) => s.(triggered := false, loop := Recheck(pass, 0))
    case Recheck(pass, index) =>
      s.(loop := if index < 4 && RecheckLen(s, index) > 0 then Rearm(pass)
                 else if index < 3 then Recheck(pass, index + 1) else AfterPass(pass))
    case Rearm(pass) =>
      if s.triggered then s.(loop := AfterPass(pass)) else s.(triggered := true, loop := Notify(pass))
    case Notify(pass) => s.(eventfd := s.eventfd + 1, loop := AfterPass(pass))
    case Stopped => s
  }

  predicate AtRest(s: State) {
    s.loop == Stopped || (s.loop == Waiting && s.eventfd == 0)
  }

  lemma SoloNextIsStep(cfg: Config, s: State)
    requires Inv(s) && !AtRest(s)
    ensures SoloStep(cfg, s, SoloNext(cfg, s))
  {
  }

  /** Where the loop alone comes to rest. */
  ghost predicate Drained(s: State, t: State) {
    && (t.loop == Stopped || (t.loop == Waiting && !HasWork(t) && t.eventfd == 0))
    && (!s.stopping ==> t.loop == Waiting)
    && (s.closer == StopTriggered ==> t.loop == Stopped)
  }

  lemma StopStays(cfg: Config, s: State, s': State)
    requires SoloStep(cfg, s, s')
    ensures s'.stopping == s.stopping && s'.closer == s.closer
  {
  }

  /** Whatever the schedule, the loop alone cannot get stuck anywhere else. */
  lemma StuckMeansDrained(cfg: Config, s: State)
    requires Inv(s) && Quiet(s) && forall s' :: !SoloStep(cfg, s, s')
    ensures Drained(s, s)
  {
    if !AtRest(s) {
      SoloNextIsStep(cfg, s);
    } else if s.loop == Waiting && HasWork(s) {
      AnnouncedWhenQuiet(s);
    }
  }

  /**
   Everything that was announced is handled: from any state of any run in which no
   producer is inside a call, the loop alone reaches a state where it is blocked with every
   channel and the flush set empty, however small the budgets, unless it was asked to stop;
   and it has stopped if the call that asked for it is complete.
   */
  lemma {:induction false} QuietLoopDrains(cfg: Config, s: State) returns (n: nat, states: seq<State>)
    requires Inv(s) && Quiet(s)
    ensures |states| == n + 1 && states[0] == s
    ensures forall i :: 0 < i <= n ==> SoloStep(cfg, states[i - 1], states[i])
    ensures Drained(s, states[n])
    decreases Measure(cfg, s)
  {
    if AtRest(s) {
      n, states := 0, [s];
      if s.loop == Waiting && HasWork(s) {
        AnnouncedWhenQuiet(s);
      }
    } else {
      var s' := SoloNext(cfg, s);
      SoloNextIsStep(cfg, s);
      SoloStepProgress(cfg, s, s');
      StopStays(cfg, s, s');
      var m, rest := QuietLoopDrains(cfg, s');
      n, states := m + 1, [s] + rest;
    }
  }

  // --------------------------------------------------- nothing is lost in the channels

  function Queued(s: State): nat {
    s.accept + s.cmd + s.dial
  }

  /** Some producer has put an element into a channel. */
  predicate PutsOne(s: State, s': State) {
    exists i :: 0 <= i < |s.producers| && i < |s'.producers| && s.producers[i] == Outside && s'.producers[i] == Pushed
  }

  /** The loop has handled one element of the channel it drains. */
  predicate HandlesOne(s: State, s': State) {
    s.loop.Drain? && s'.loop == s.loop.(taken := s.loop.taken + 1)
  }

  function Puts(run: seq<State>): nat {
    if |run| < 2 then 0 else
      var n := |run| - 1;
      Puts(run[..n]) + if PutsOne(run[n - 1], run[n]) then 1 else 0
  }

  function Handled(run: seq<State>): nat {
    if |run| < 2 then 0 else
      var n := |run| - 1;
      Handled(run[..n]) + if HandlesOne(run[n - 1], run[n]) then 1 else 0
  }

  /** A step that is none of these leaves the channels alone. */
  ghost predicate Conserves(s: State, s': State) {
    Queued(s') + (if HandlesOne(s, s') then 1 else 0) == Queued(s) + (if PutsOne(s, s') then 1 else 0)
  }

  lemma NobodyPuts(s: State, s': State)
    requires s'.producers == s.producers
    ensures !PutsOne(s, s')
  {
  }

  lemma SoloConserves(cfg: Config, s: State, s': State)
    requires SoloStep(cfg, s, s')
    ensures Conserves(s, s')
  {
    assert s'.producers == s.producers;
    NobodyPuts(s, s');
    hide PutsOne;
    if TakeOne(cfg, s, s') {
      assert HandlesOne(s, s') && Queued(s') == Queued(s) - 1;
    } else {
      assert !HandlesOne(s, s') && Queued(s') == Queued(s);
    }
  }

  lemma NextConserves(cfg: Config, s: State, s': State)
    requires Next(cfg, s, s')
    ensures Conserves(s, s')
  {
    hide SoloStep;
    if SoloStep(cfg, s, s') {
      SoloConserves(cfg, s, s');
    } else if i: nat, ch: Channel :| Push(cfg, s, s', i, ch) {
      assert s' != s ==> s'.producers[i] == Pushed;
    } else if i: nat :| ProducerCas(s, s', i) {
    } else if i: nat :| ProducerNotify(s, s', i) {
    } else {
      NobodyPuts(s, s');
    }
  }

  /** In every run: what producers have put into the channels has been handled by the loop or is still queued. */
  lemma {:induction false} NothingLostInChannels(cfg: Config, run: seq<State>)
    requires IsRun(cfg, run)
    ensures Puts(run) == Handled(run) + Queued(run[|run| - 1])
  {
    if |run| > 1 {
      var n := |run| - 1;
      NothingLostInChannels(cfg, run[..n]);
      NextConserves(cfg, run[n - 1], run[n]);
    }
  }

  /** In every state of every run the loop keeps to its budgets. */
  predicate WithinBudget(cfg: Config, s: State) {
    && (s.loop.Drain? && Budget(cfg, s.loop.ch) > 0 ==> s.loop.taken <= Budget(cfg, s.loop.ch))
    && (s.loop.Flush? && cfg.maxFlush > 0 ==> s.loop.flushed <= cfg.maxFlush)
  }

  lemma {:induction false} RunKeepsBudgets(cfg: Config, run: seq<State>, n: nat)
    requires IsRun(cfg, run) && n < |run|
    ensures WithinBudget(cfg, run[n])
  {
    if n > 0 {
      hide WithinBudget, Init, Next;
      RunKeepsBudgets(cfg, run, n - 1);
      NextKeepsBudget(cfg, run[n - 1], run[n]);
    }
  }

  lemma SoloKeepsBudget(cfg: Config, s: State, s': State)
    requires SoloStep(cfg, s, s') && WithinBudget(cfg, s)
    ensures WithinBudget(cfg, s')
  {
  }

  lemma NextKeepsBudget(cfg: Config, s: State, s': State)
    requires Next(cfg, s, s') && WithinBudget(cfg, s)
    ensures WithinBudget(cfg, s')
  {
    hide SoloStep;
    if SoloStep(cfg, s, s') {
      SoloKeepsBudget(cfg, s, s');
    } else {
      assert s'.loop == s.loop || s'.loop.Returned?;
    }
  }

  /** No schedule of the loop alone runs for ever: its length is bounded by the measure. */
  lemma {:induction false} SoloRunsAreBounded(cfg: Config, states: seq<State>)
    requires |states| > 0 && Inv(states[0]) && Quiet(states[0])
    requires forall i :: 0 < i < |states| ==> SoloStep(cfg, states[i - 1], states[i])
    ensures |states| <= Measure(cfg, states[0]) + 1
  {
    if |states| > 1 {
      assert SoloStep(cfg, states[0], states[1]);
      SoloStepProgress(cfg, states[0], states[1]);
      assert forall i :: 0 < i < |states[1..]| ==> SoloStep(cfg, states[1..][i - 1], states[1..][i]);
      SoloRunsAreBounded(cfg, states[1..]);
    }
  }
}
