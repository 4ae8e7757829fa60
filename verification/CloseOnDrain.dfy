/**
 Connections that are to be closed once their output has drained.  The promise "a marked
 connection always has output pending", so that its last write event closes it, is kept
 by everything but two drains: that of the command flush loop, and that of a read.
 */
module CloseOnDrain {
  import opened Bytes
  import opened IdleList
  import opened Journal
  import opened LoopState
  import opened Drain

  ghost predicate MarkedBut(s: Loop, x: int) {
    forall fd :: fd in s.closeOnDrain && fd != x ==> fd in s.conns && Pending(s.conns[fd]) > 0
  }

  /** Every marked connection has output pending. */
  ghost predicate MarkedArePending(s: Loop) {
    forall fd :: fd in s.closeOnDrain ==> fd in s.conns && Pending(s.conns[fd]) > 0
  }

  /** Connections other than `fd` are what they were, and so are their marks. */
  ghost predicate SameElsewhere(s: Loop, t: Loop, fd: int) {
    && s.conns - {fd} == t.conns - {fd}
    && s.closeOnDrain - {fd} == t.closeOnDrain - {fd}
  }

  lemma ElsewhereKeepsMarks(s: Loop, t: Loop, fd: int)
    requires SameElsewhere(s, t, fd) && MarkedBut(s, fd)
    ensures MarkedBut(t, fd)
    ensures (fd in t.closeOnDrain ==> fd in t.conns && Pending(t.conns[fd]) > 0) ==> MarkedArePending(t)
  {
    forall other | other in t.closeOnDrain && other != fd
      ensures other in t.conns && Pending(t.conns[other]) > 0
    {
      assert other in t.closeOnDrain - {fd};
      assert other in s.conns - {fd};
    }
  }

  lemma ShiftingIsElsewhere(s: Loop, fd: int, t: Loop)
    requires fd in s.conns && fd in t.conns && t.conns == s.conns[fd := t.conns[fd]] && t.closeOnDrain == s.closeOnDrain
    ensures SameElsewhere(s, t, fd)
  {
  }

  lemma ClosingIsElsewhere(s: Loop, fd: int)
    requires fd in s.conns
    ensures SameElsewhere(s, AfterClose(s, fd), fd)
  {
    hide Without;
    assert (s.conns - {fd}) - {fd} == s.conns - {fd};
    assert (s.closeOnDrain - {fd}) - {fd} == s.closeOnDrain - {fd};
  }

  lemma CloseKeepsMarks(s: Loop, fd: int)
    requires fd in s.conns && MarkedBut(s, fd)
    ensures MarkedArePending(AfterClose(s, fd))
  {
    hide Without;
  }

  // -------------------------------------------------------------- what keeps the promise

  /** A write event keeps the promise: a marked connection that is drained is closed. */
  lemma SendKeepsMarks(s: Loop, fd: int, err: Errno)
    requires fd in s.conns && MarkedBut(s, fd)
    ensures MarkedArePending(AfterSend(s, fd, err))
  {
    hide Without;
  }

  /** A command keeps the promise: it adds output or closes. */
  lemma ConsumeKeepsMarks(s: Loop, limit: int, cmd: Cmd)
    requires MarkedArePending(s)
    ensures MarkedArePending(AfterConsume(s, limit, cmd))
  {
    hide Without;
  }

  /** The flush loop breaks the promise exactly if it drains a marked connection that it does not close for another reason. */
  lemma FlushKeepsMarksExactly(s: Loop, fd: int, limit: int, err: Errno)
    requires fd in s.conns && MarkedBut(s, fd)
    ensures MarkedArePending(AfterFlush(s, fd, limit, err)) <==>
            !(fd in s.closeOnDrain && Pending(s.conns[fd]) == 0) || Fatal(err) || TooMuchPending(limit, s.conns[fd])
  {
    hide Without;
    if Fatal(err) || TooMuchPending(limit, s.conns[fd]) {
      CloseKeepsMarks(s, fd);
    } else {
      var t := AfterInterest(s, fd);
      assert t.conns == s.conns && t.closeOnDrain == s.closeOnDrain;
    }
  }

  /** So does the end of a round of reading, unless the handler asks for a close in that round. */
  lemma RoundKeepsMarksExactly(s: Loop, fd: int, limit: int, err: Errno, wantClose: bool, more: bool)
    requires fd in s.conns && MarkedBut(s, fd)
    ensures MarkedArePending(AfterRound(s, fd, limit, err, wantClose, more)) <==>
            !(fd in s.closeOnDrain && Pending(s.conns[fd]) == 0) || wantClose || Fatal(err) || TooMuchPending(limit, s.conns[fd])
  {
    hide Without;
    var t := AfterRound(s, fd, limit, err, wantClose, more);
    if fd in t.conns {
      assert t.conns == s.conns;
      assert t.closeOnDrain == if wantClose then s.closeOnDrain + {fd} else s.closeOnDrain;
    } else {
      CloseKeepsMarks(s, fd);
    }
  }

  // ------------------------------------------------------------------- what breaks it

  /** A drain of a connection whose queue is cut into entries of the given sizes. */
  ghost predicate DrainedAs(s: Loop, fd: int, plan: int, sizes: seq<nat>, t: Loop, total: nat) {
    Drained(s, fd, plan, t, total) && CanMove(sizes, plan, total)
  }

  /** A connection that is written as it is, without user-space TLS, and the sizes of its entries. */
  ghost predicate Entries(s: Loop, fd: int, sizes: seq<nat>) {
    && fd in s.conns && s.conns[fd].id in s.gone && s.conns[fd].kind != AsyncTls && s.conns[fd].staged == 0
    && Positive(sizes) && Sum(sizes) == |s.conns[fd].queue|
  }

  /** Such a connection can be emptied by one drain exactly if budget and entries allow it. */
  lemma EmptiedExactly(s: Loop, fd: int, plan: int, sizes: seq<nat>)
    requires Entries(s, fd, sizes)
    ensures (exists t, total :: DrainedAs(s, fd, plan, sizes, t, total) && Pending(t.conns[fd]) == 0) <==> Empties(sizes, plan)
  {
    var c := s.conns[fd];
    EmptiesExactly(sizes, plan);
    hide CanMove, Sum, Positive;
    if Empties(sizes, plan) {
      var t := Shifted(s, fd, [], 0, c.queue, s.journal);
      assert c.queue[|c.queue|..] == [] && c.queue[..|c.queue|] == c.queue;
      assert DrainedAs(s, fd, plan, sizes, t, |c.queue|) && Pending(t.conns[fd]) == 0;
    }
  }

  /**
   A wake-up whose flush set holds a marked connection can break the promise, and does so
   for some behaviour of the socket exactly if one drain can empty the connection.
   */
  lemma FlushMayBreakExactly(s: Loop, fd: int, plan: int, limit: int, sizes: seq<nat>)
    requires Entries(s, fd, sizes)
    requires MarkedArePending(s) && fd in s.closeOnDrain && limit >= 0
    ensures (exists t, total, err :: DrainedAs(s, fd, plan, sizes, t, total) && !MarkedArePending(AfterFlush(t, fd, limit, err))) <==>
            Empties(sizes, plan)
  {
    EmptiedExactly(s, fd, plan, sizes);
    forall t, total, err | DrainedAs(s, fd, plan, sizes, t, total)
      ensures MarkedArePending(AfterFlush(t, fd, limit, err)) <==> Pending(t.conns[fd]) > 0 || Fatal(err) || TooMuchPending(limit, t.conns[fd])
    {
      DrainedElsewhere(s, fd, plan, t, total);
      FlushKeepsMarksExactly(t, fd, limit, err);
    }
    if Empties(sizes, plan) {
      var t, total :| DrainedAs(s, fd, plan, sizes, t, total) && Pending(t.conns[fd]) == 0;
      assert !MarkedArePending(AfterFlush(t, fd, limit, NoError));
    }
    hide AfterFlush, Drained, CanMove, Empties;
  }

  /** A read event on a marked connection can break it in the same way. */
  lemma ReadMayBreakExactly(s: Loop, fd: int, plan: int, limit: int, sizes: seq<nat>)
    requires Entries(s, fd, sizes)
    requires MarkedArePending(s) && fd in s.closeOnDrain && limit >= 0
    ensures (exists t, total, err :: DrainedAs(s, fd, plan, sizes, t, total) && !MarkedArePending(AfterRound(t, fd, limit, err, false, false))) <==>
            Empties(sizes, plan)
  {
    EmptiedExactly(s, fd, plan, sizes);
    forall t, total, err | DrainedAs(s, fd, plan, sizes, t, total)
      ensures MarkedArePending(AfterRound(t, fd, limit, err, false, false)) <==>
              Pending(t.conns[fd]) > 0 || Fatal(err) || TooMuchPending(limit, t.conns[fd])
    {
      DrainedElsewhere(s, fd, plan, t, total);
      RoundKeepsMarksExactly(t, fd, limit, err, false, false);
    }
    if Empties(sizes, plan) {
      var t, total :| DrainedAs(s, fd, plan, sizes, t, total) && Pending(t.conns[fd]) == 0;
      assert !MarkedArePending(AfterRound(t, fd, limit, NoError, false, false));
    }
    hide AfterRound, Drained, CanMove, Empties;
  }

  lemma DrainedElsewhere(s: Loop, fd: int, plan: int, t: Loop, total: nat)
    requires Drained(s, fd, plan, t, total)
    ensures SameElsewhere(s, t, fd) && t.closeOnDrain == s.closeOnDrain
    ensures MarkedBut(s, fd) ==> MarkedBut(t, fd)
  {
    ShiftingIsElsewhere(s, fd, t);
    if MarkedBut(s, fd) {
      ElsewhereKeepsMarks(s, t, fd);
    }
  }

  // ------------------------------------------------------------------ two failing runs

  /** Marked and drained, but open, with nothing that would bring the loop back to it. */
  ghost predicate Forgotten(s: Loop, fd: int) {
    && fd in s.conns && fd in s.closeOnDrain && Pending(s.conns[fd]) == 0
    && fd !in s.writeFds && fd !in s.cmdFlushSet
  }

  /** Output that the socket does not take is queued. */
  lemma OutputQueued(s: Loop, fd: int, out: seq<byte>)
    requires fd in s.conns && s.conns[fd].id in s.gone && s.conns[fd].staged == 0
    ensures var c := s.conns[fd];
            Emitted(s, fd, out, Shifted(s, fd, c.queue + out, 0, [], s.journal + [Heard(fd, c.id, out)]), NoError)
  {
    var c := s.conns[fd];
    assert s.gone[c.id] + [] == s.gone[c.id];
    assert s.gone[c.id][|s.gone[c.id]|..] == [] && [] + (c.queue + out) == c.queue + out;
  }

  /** A connection on descriptor 5 whose handler answers one byte, which the socket does not take, and asks for a close. */
  lemma MarkedWithOneByte() returns (s: Loop)
    ensures Sound(s, 0) && 5 in s.conns && s.conns[5] == Conn(0, false, PlainTcp, [7], 0)
    ensures s.closeOnDrain == {5} && s.writeFds == {5} && s.cmdFlushSet == {}
  {
    hide Sound, Conserved, Emitted, AfterRound;
    var s0 := Empty(false);
    EmptyIsSound(false);
    var s1 := Stored(s0, 5, false, PlainTcp);
    StoreKeepsSound(s0, 5, false, PlainTcp);
    WorkOn(s1, 5);
    var s2 := Shifted(s1, 5, [] + [7], 0, [], s1.journal + [Heard(5, 0, [7])]);
    OutputQueued(s1, 5, [7]);
    EmitKeepsSound(s1, 5, [7], s2, NoError);
    s := AfterRound(s2, 5, 100, EAGAIN, true, false);
    RoundKeepsSound(s2, 5, 100, EAGAIN, true, false);
    RoundMarks(s2, 5, 100);
  }

  lemma RoundMarks(s: Loop, fd: int, limit: int)
    requires fd in s.conns && Pending(s.conns[fd]) > 0 && fd !in s.writeFds
    ensures AfterRound(s, fd, limit, EAGAIN, true, false)
            == s.(closeOnDrain := s.closeOnDrain + {fd}, epoll := s.epoll[fd := true], writeFds := s.writeFds + {fd})
  {
  }

  /** One drain takes all there is, in entries of one byte. */
  lemma AllDrained(s: Loop, fd: int)
    requires fd in s.conns && s.conns[fd].id in s.gone
    ensures var q := s.conns[fd].queue; DrainedAs(s, fd, 0, Ones(|q|), Shifted(s, fd, [], 0, q, s.journal), |q|)
  {
    var q := s.conns[fd].queue;
    assert q[..|q|] == q && q[|q|..] == [];
    SumOfOnes(|q|);
    EmptiesExactly(Ones(|q|), 0);
    hide CanMove;
  }

  /** A data command puts it into the flush set, whose flush drains it. */
  lemma FlushForgetsIt() returns (s: Loop, t: Loop)
    ensures Sound(s, 0) && MarkedArePending(s) && 5 in s.cmdFlushSet * s.closeOnDrain
    ensures DrainedAs(s.(cmdFlushSet := s.cmdFlushSet - {5}), 5, 0, Ones(2), t, 2) && Forgotten(AfterFlush(t, 5, 100, NoError), 5)
  {
    hide Sound, Drained, CanMove, Ones;
    var s0 := MarkedWithOneByte();
    var cmd := Cmd(CmdData, 5, 0, [8]);
    ConsumeKeepsSound(s0, 100, cmd);
    s := Commanded(s0, cmd);
    assert s.conns[5].queue == [7] + [8];
    assert AfterConsume(s0, 100, cmd) == s;
    SoundMeans(s, 0, 5);
    hide AfterConsume, Commanded;
    var left := s.(cmdFlushSet := s.cmdFlushSet - {5});
    AllDrained(left, 5);
    t := Shifted(left, 5, [], 0, s.conns[5].queue, left.journal);
  }

  /** It becomes readable; its write event writes nothing, and the drain of the read empties it. */
  lemma ReadForgetsIt() returns (s: Loop, t: Loop)
    ensures Sound(s, 0) && MarkedArePending(s) && 5 in s.closeOnDrain && AfterSend(s, 5, EAGAIN) == s
    ensures DrainedAs(s, 5, 0, Ones(1), t, 1) && Forgotten(AfterRound(t, 5, 100, NoError, false, false), 5)
  {
    hide Sound, Drained, CanMove, Ones;
    s := MarkedWithOneByte();
    SoundMeans(s, 0, 5);
    AllDrained(s, 5);
    t := Shifted(s, 5, [], 0, s.conns[5].queue, s.journal);
  }
}
