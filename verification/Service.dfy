/**
 What an event loop owes to its connections, given how their sockets answer: output goes out as
 far as a socket takes it, and nobody is closed without a reason.
 */
module Service {
  import opened Bytes
  import opened Journal
  import opened LoopState
  import opened CloseOnDrain
  import opened Events
  import opened Drain
  import opened IdleList

  /** A read that finds nothing. */
  const NOTHING_MORE := Round(false, false, [], false)

  /** When the rounds run out, the socket has nothing more. */
  function RoundAt(rounds: seq<Round>, i: nat): Round {
    if i < |rounds| then rounds[i] else NOTHING_MORE
  }

  // -------------------------------------------------------- what is owed to a socket

  /** The socket never fails. */
  ghost predicate NoFails(script: seq<Answer>) {
    forall i :: 0 <= i < |script| ==> !script[i].Fails?
  }

  /** The socket takes something at each of the next `k` writes. */
  ghost predicate Willing(script: seq<Answer>, k: nat) {
    k <= |script| && forall i :: 0 <= i < k ==> script[i].Takes? && script[i].n > 0
  }

  /** What one flush of `size` bytes makes of the socket's next answer. */
  ghost predicate Answered(script: seq<Answer>, script': seq<Answer>, size: nat, n: nat, err: Errno) {
    if size == 0 then script' == script && n == 0 && err == NoError
    else if script == [] then script' == [] && n == 0 && err == EAGAIN
    else
      && script' == script[1..]
      && match script[0]
         case Takes(k) => err == NoError && n <= k && (k > 0 ==> n > 0)
         case Blocks => n == 0 && err == EAGAIN
         case Fails => n == 0 && err == OtherError
  }

  /**
   What a drain does with the answers of a socket: it fails only if the socket does, and does
   not stop before the socket, the queue or the budget is exhausted.
   */
  ghost predicate DrainsHonestly(c: Conn, script: seq<Answer>, d: Conn, script': seq<Answer>, plan: int, total: nat, err: Errno) {
    c.kind != AsyncTls ==>
      && (NoFails(script) ==> !Fatal(err) && NoFails(script'))
      && (Willing(script, |c.queue|) ==> err == NoError && (d.queue == [] || (plan > 0 && total >= plan)))
  }

  /** The same in the middle of a drain, which goes on if `more`. */
  ghost predicate Draining(c: Conn, script: seq<Answer>, d: Conn, script': seq<Answer>, plan: int, total: nat, err: Errno, more: bool) {
    c.kind != AsyncTls ==>
      && (NoFails(script) ==> NoFails(script') && !Fatal(err))
      && (Willing(script, |c.queue|) ==>
           && err == NoError && Willing(script', |d.queue|)
           && (more || d.queue == [] || (plan > 0 && total >= plan)))
  }

  lemma DrainBegins(c: Conn, script: seq<Answer>, plan: int, more: bool)
    requires more <==> Pending(c) > 0
    ensures Draining(c, script, c, script, plan, 0, NoError, more)
  {
  }

  lemma DrainContinues(c: Conn, script: seq<Answer>, d: Conn, before: seq<Answer>, d': Conn, after: seq<Answer>,
                       plan: int, total: nat, was: Errno, n: nat, err: Errno, more: bool)
    requires c.kind == d.kind == d'.kind && Draining(c, script, d, before, plan, total, was, true)
    requires c.kind != AsyncTls ==> Answered(before, after, |d.queue|, n, err) && n == |d.queue| - |d'.queue|
    requires more <==> err == NoError && !(n == 0 || (total + n >= plan && plan > 0))
    ensures Draining(c, script, d', after, plan, if err == NoError then total + n else total, err, more)
  {
    hide Answered, NoFails, Willing;
    if c.kind != AsyncTls {
      OneAnswer(before, after, |d.queue|, |d'.queue|, n, err);
    }
  }

  lemma DrainEnds(c: Conn, script: seq<Answer>, d: Conn, script': seq<Answer>, plan: int, total: nat, err: Errno)
    requires Draining(c, script, d, script', plan, total, err, false)
    ensures DrainsHonestly(c, script, d, script', plan, total, err)
  {
  }

  /**
   What emitting does with the answer of a socket: it fails only if the socket does or no
   buffer is large enough, and what the socket takes goes out at once if nothing is pending.
   */
  ghost predicate EmitsHonestly(c: Conn, script: seq<Answer>, d: Conn, script': seq<Answer>, gone: seq<byte>, gone': seq<byte>,
                                out: seq<byte>, err: Errno, most: nat)
  {
    c.kind != AsyncTls ==>
      && (NoFails(script) && |out| <= most ==> err == NoError && NoFails(script') && |d.queue| <= |c.queue| + |out|)
      && (Pending(c) == 0 && out != [] && script != [] && script[0].Takes? ==> gone' == gone + out[..Min(script[0].n, |out|)])
  }

  lemma FailsLater(script: seq<Answer>)
    requires NoFails(script) && script != []
    ensures NoFails(script[1..]) && !script[0].Fails?
  {
  }

  /** One flush of a drain. */
  lemma OneAnswer(script: seq<Answer>, script': seq<Answer>, size: nat, left: nat, n: nat, err: Errno)
    requires Answered(script, script', size, n, err) && left == size - n
    ensures NoFails(script) ==> NoFails(script') && !Fatal(err)
    ensures Willing(script, size) ==> err == NoError && Willing(script', left) && (n == 0 ==> size == 0)
  {
    if NoFails(script) && script != [] {
      FailsLater(script);
    }
  }

  /** How much a willing socket gets: everything, or the budget. */
  function Goal(pending: nat, plan: int): nat {
    if 0 < plan < pending then plan else pending
  }

  /** That much of the queue has left. */
  ghost predicate Advanced(before: seq<byte>, after: seq<byte>, queue: seq<byte>, plan: int) {
    before + queue[..Goal(|queue|, plan)] <= after
  }

  lemma DrainAdvances(s: Loop, fd: int, plan: int, t: Loop, total: nat)
    requires Drained(s, fd, plan, t, total) && s.conns[fd].kind != AsyncTls
    requires t.conns[fd].queue == [] || (plan > 0 && total >= plan)
    ensures var c := s.conns[fd]; c.id in t.gone && Advanced(s.gone[c.id], t.gone[c.id], c.queue, plan)
  {
    var c, d := s.conns[fd], t.conns[fd];
    var m, k := |c.queue| - |d.queue|, Goal(|c.queue|, plan);
    assert t.gone[c.id] == s.gone[c.id] + c.queue[..m];
    assert c.queue[..k] <= c.queue[..m];
  }

  /** What has left stays gone. */
  ghost predicate GoneGrows(before: map<nat, seq<byte>>, after: map<nat, seq<byte>>) {
    forall id :: id in before ==> id in after && before[id] <= after[id]
  }

  lemma OneGrows(gone: map<nat, seq<byte>>, id: nat)
    requires id in gone
    ensures forall moved :: GoneGrows(gone, gone[id := gone[id] + moved])
  {
  }

  lemma GoneGrowsOn(a: map<nat, seq<byte>>, b: map<nat, seq<byte>>, c: map<nat, seq<byte>>)
    requires GoneGrows(a, b) && GoneGrows(b, c)
    ensures GoneGrows(a, c)
  {
  }

  lemma StaysAdvanced(before: seq<byte>, after: seq<byte>, later: seq<byte>, queue: seq<byte>, plan: int)
    requires Advanced(before, after, queue, plan) && after <= later
    ensures Advanced(before, later, queue, plan)
  {
  }

  /** A drain moves nothing back. */
  lemma DrainGrows(s: Loop, fd: int, plan: int, t: Loop, total: nat)
    requires Drained(s, fd, plan, t, total)
    ensures GoneGrows(s.gone, t.gone) && fd in t.conns && |t.conns[fd].queue| <= |s.conns[fd].queue|
    ensures s.conns[fd].kind != AsyncTls ==> t.conns[fd].staged == 0
  {
  }

  /** A smaller amount pending is within the limit too. */
  lemma LessIsWithin(limit: int, kind: Kind, client: bool, more: nat, less: nat)
    requires WithinLimit(limit, kind, client, more) && less <= more
    ensures WithinLimit(limit, kind, client, less)
  {
  }

  /** What a write event owes to a connection: output goes out, and it is closed only if the socket fails or it is marked. */
  ghost predicate Served(s: Loop, script: seq<Answer>, t: Loop, script': seq<Answer>, fd: int, plan: int)
    requires fd in s.conns && s.conns[fd].id in s.gone
  {
    var c := s.conns[fd];
    c.kind != AsyncTls ==>
      && (Willing(script, |c.queue|) ==> c.id in t.gone && Advanced(s.gone[c.id], t.gone[c.id], c.queue, plan))
      && (NoFails(script) && fd !in s.closeOnDrain ==> fd in t.conns && NoFails(script') && |t.conns[fd].queue| <= |c.queue|)
  }

  /**
   A write event on one connection: what was drained left its queue in order; the connection is
   closed exactly after an error or if it is marked and drained; nothing else is touched.
   */
  ghost predicate HasSent(s: Loop, drained: Loop, t: Loop, fd: int, plan: int, total: nat, err: Errno) {
    && Drained(s, fd, plan, drained, total) && fd in drained.conns && t == AfterSend(drained, fd, err)
    && (fd in t.conns <==> (err == NoError || err == EAGAIN) && !(fd in s.closeOnDrain && Pending(drained.conns[fd]) == 0))
    && SameElsewhere(s, t, fd) && (fd in t.conns ==> Same(t.conns[fd], s.conns[fd]))
    && t.journal == s.journal + (if fd in t.conns then [] else [Closed(fd)])
    && t.nextId == s.nextId && t.cmdFlushSet <= s.cmdFlushSet && t.closeOnDrain <= s.closeOnDrain && GoneGrows(s.gone, t.gone)
    && (MarkedBut(s, fd) ==> MarkedArePending(t))
  }

  /**
   A flush of one connection of the flush set: the same, but that it is closed exactly after an
   error or with too much still pending.
   */
  ghost predicate HasFlushed(s: Loop, drained: Loop, t: Loop, fd: int, plan: int, total: nat, limit: int, err: Errno) {
    && fd in s.conns && Drained(s.(cmdFlushSet := s.cmdFlushSet - {fd}), fd, plan, drained, total)
    && fd in drained.conns && t == AfterFlush(drained, fd, limit, err)
    && (fd in t.conns <==>
         && (err == NoError || err == EAGAIN)
         && var c := drained.conns[fd]; WithinLimit(limit, c.kind, c.client, |c.queue| + c.staged))
    && SameElsewhere(s, t, fd) && Apart(s.conns, t.conns, {fd}) && (fd in t.conns ==> Same(t.conns[fd], s.conns[fd]))
    && t.journal == s.journal + (if fd in t.conns then [] else [Closed(fd)])
    && t.nextId == s.nextId && t.cmdFlushSet == s.cmdFlushSet - {fd} && t.closeOnDrain <= s.closeOnDrain && GoneGrows(s.gone, t.gone)
    && (MarkedBut(s, fd) && fd !in s.closeOnDrain ==> MarkedArePending(t))
  }

  /** What the flush loop owes to a connection: output goes out, and it is closed only if the socket fails or too much is pending. */
  ghost predicate FlushServed(s: Loop, script: seq<Answer>, t: Loop, fd: int, plan: int, limit: int)
    requires fd in s.conns && s.conns[fd].id in s.gone
  {
    var c := s.conns[fd];
    c.kind != AsyncTls ==>
      && (Willing(script, |c.queue|) ==> c.id in t.gone && Advanced(s.gone[c.id], t.gone[c.id], c.queue, plan))
      && (NoFails(script) && WithinLimit(limit, c.kind, c.client, |c.queue|) ==> fd in t.conns)
  }

  /** A write that has no answer in store returns EAGAIN. */
  function ScriptOf(socks: map<nat, seq<Answer>>, id: nat): seq<Answer> {
    if id in socks then socks[id] else []
  }

  /** A connection of the flush set that has had its turn. */
  ghost predicate HadItsTurn(s: Loop, socks: map<nat, seq<Answer>>, t: Loop, fd: int, plan: int, limit: int) {
    && fd in s.conns && s.conns[fd].id in s.gone
    && FlushServed(s, ScriptOf(socks, s.conns[fd].id), t, fd, plan, limit)
  }

  /** One that waits for it. */
  ghost predicate Waits(s: Loop, socks: map<nat, seq<Answer>>, t: Loop, socks': map<nat, seq<Answer>>, fd: int) {
    && fd in s.conns && fd in t.conns && t.conns[fd] == s.conns[fd]
    && var id := s.conns[fd].id;
       id in s.gone && id in t.gone && t.gone[id] == s.gone[id] && ScriptOf(socks', id) == ScriptOf(socks, id)
  }

  lemma TurnStays(s: Loop, socks: map<nat, seq<Answer>>, t: Loop, u: Loop, fd: int, other: int, plan: int, limit: int)
    requires HadItsTurn(s, socks, t, other, plan, limit) && other != fd && GoneGrows(t.gone, u.gone) && Apart(t.conns, u.conns, {fd})
    ensures HadItsTurn(s, socks, u, other, plan, limit)
  {
    hide Willing, NoFails, WithinLimit, Advanced;
    var c := s.conns[other];
    if c.kind != AsyncTls && Willing(ScriptOf(socks, c.id), |c.queue|) {
      StaysAdvanced(s.gone[c.id], t.gone[c.id], u.gone[c.id], c.queue, plan);
    }
    if other in t.conns {
      assert other in t.conns - {fd};
      assert other in u.conns - {fd};
    }
  }

  lemma WaitStays(s: Loop, socks: map<nat, seq<Answer>>, t: Loop, socks': map<nat, seq<Answer>>, u: Loop, socks'': map<nat, seq<Answer>>,
                  fd: int, other: int)
    requires Waits(s, socks, t, socks', other) && other != fd && fd in t.conns && Apart(t.conns, u.conns, {fd})
    requires t.conns[other].id != t.conns[fd].id
    requires forall id :: id != t.conns[fd].id ==> ScriptOf(socks'', id) == ScriptOf(socks', id)
    requires forall id :: id != t.conns[fd].id && id in t.gone ==> id in u.gone && u.gone[id] == t.gone[id]
    ensures Waits(s, socks, u, socks'', other)
  {
    assert other in t.conns - {fd};
    assert other in u.conns - {fd};
  }

  /** Only one stream grows in a flush. */
  lemma FlushedAlone(s: Loop, drained: Loop, t: Loop, fd: int, plan: int, total: nat, limit: int, err: Errno)
    requires HasFlushed(s, drained, t, fd, plan, total, limit, err)
    ensures forall id :: id != s.conns[fd].id && id in s.gone ==> id in t.gone && t.gone[id] == s.gone[id]
  {
    hide Without, MarkedBut, MarkedArePending;
  }

  lemma DifferentIds(s: Loop, a: int, b: int)
    requires Sound(s, 0) && a in s.conns && b in s.conns && a != b
    ensures s.conns[a].id != s.conns[b].id
  {
    hide KeysOk, JournalOk, LogsOk, IdleOk, AllConserved, AllAttended;
  }

  /** One turn of the flush loop. */
  lemma TakesItsTurn(s: Loop, socks: map<nat, seq<Answer>>, t: Loop, socks': map<nat, seq<Answer>>, u: Loop, socks'': map<nat, seq<Answer>>,
                     fd: int, done: set<int>, plan: int, limit: int)
    requires Sound(t, 0) && fd in t.cmdFlushSet && Waits(s, socks, t, socks', fd) && t.conns[fd].id in t.gone
    requires FlushServed(t, ScriptOf(socks', t.conns[fd].id), u, fd, plan, limit)
    requires GoneGrows(t.gone, u.gone) && Apart(t.conns, u.conns, {fd}) && fd !in done
    requires forall id :: id != t.conns[fd].id ==> ScriptOf(socks'', id) == ScriptOf(socks', id)
    requires forall id :: id != t.conns[fd].id && id in t.gone ==> id in u.gone && u.gone[id] == t.gone[id]
    requires forall x :: x in done ==> HadItsTurn(s, socks, t, x, plan, limit)
    requires forall x :: x in t.cmdFlushSet ==> Waits(s, socks, t, socks', x)
    ensures forall x :: x in done + {fd} ==> HadItsTurn(s, socks, u, x, plan, limit)
    ensures forall x :: x in t.cmdFlushSet - {fd} ==> Waits(s, socks, u, socks'', x)
  {
    hide Sound, Willing, NoFails, WithinLimit, Advanced, GoneGrows, Apart;
    assert HadItsTurn(s, socks, u, fd, plan, limit);
    hide FlushServed, HadItsTurn;
    forall x | x in done
      ensures HadItsTurn(s, socks, u, x, plan, limit)
    {
      TurnStays(s, socks, t, u, fd, x, plan, limit);
    }
    forall x | x in t.cmdFlushSet - {fd}
      ensures Waits(s, socks, u, socks'', x)
    {
      DifferentIds(t, x, fd);
      WaitStays(s, socks, t, socks', u, socks'', fd, x);
    }
  }

  // ----------------------------------------------------- input that gives no reason to close

  /** Every packet is good, and its answer can be buffered. */
  ghost predicate Harmless(packets: seq<Packet>, most: nat) {
    forall i :: 0 <= i < |packets| ==> packets[i].Output? && !packets[i].wantClose && |packets[i].data| <= most
  }

  ghost predicate AllHarmless(rounds: seq<Round>, most: nat) {
    forall i :: 0 <= i < |rounds| ==> !rounds[i].noRoom && !rounds[i].failed && Harmless(rounds[i].packets, most)
  }

  lemma HarmlessRound(rounds: seq<Round>, i: nat, most: nat)
    requires AllHarmless(rounds, most)
    ensures var round := RoundAt(rounds, i); !round.noRoom && !round.failed && Harmless(round.packets, most)
  {
  }

  lemma HarmlessGoesOn(packets: seq<Packet>, most: nat)
    requires Harmless(packets, most)
    ensures GoesOn(packets) && !AsksIn(packets)
  {
  }

  lemma FlattenOne(outs: seq<seq<byte>>, out: seq<byte>)
    ensures |Flatten(outs + [out])| == |Flatten(outs)| + |out|
  {
    FlattenSnoc(outs, out);
  }

  lemma FlattenBoth(a: seq<seq<byte>>, b: seq<seq<byte>>)
    ensures |Flatten(a + b)| == |Flatten(a)| + |Flatten(b)|
  {
    FlattenAppend(a, b);
  }

  lemma FlattenLess(a: seq<seq<byte>>, b: seq<seq<byte>>)
    requires a <= b
    ensures |Flatten(a)| <= |Flatten(b)|
  {
    assert b == a + b[|a|..];
    FlattenBoth(a, b[|a|..]);
  }

  /** Nothing gives a reason to close the connection: neither its socket, nor a mark, nor its input, nor the amount of output. */
  ghost predicate NoReasonToClose(s: Loop, script: seq<Answer>, fd: int, most: nat, limit: int, rounds: seq<Round>)
    requires fd in s.conns
  {
    var c := s.conns[fd];
    && c.kind != AsyncTls && NoFails(script) && fd !in s.closeOnDrain && AllHarmless(rounds, most)
    && WithinLimit(limit, c.kind, c.client, |c.queue| + |Flatten(SaidIn(rounds))|)
  }

  /**
   What a ready event owes to a connection that is written as it is: output goes out as far as
   the socket takes it, up to the budget, and the connection is not closed without a reason.
   */
  ghost predicate Treated(s: Loop, script: seq<Answer>, t: Loop, fd: int, plan: int, most: nat, limit: int, rounds: seq<Round>)
    requires fd in s.conns && s.conns[fd].id in s.gone
  {
    var c := s.conns[fd];
    && (c.kind != AsyncTls && Willing(script, |c.queue|) ==> c.id in t.gone && Advanced(s.gone[c.id], t.gone[c.id], c.queue, plan))
    && (NoReasonToClose(s, script, fd, most, limit, rounds) ==> fd in t.conns)
  }

  /** After the first write of a ready event. */
  lemma ServedFirst(s: Loop, script: seq<Answer>, t: Loop, script': seq<Answer>, fd: int, plan: int, most: nat, limit: int, rounds: seq<Round>)
    requires fd in s.conns && s.conns[fd].id in s.gone && Served(s, script, t, script', fd, plan) && t.closeOnDrain <= s.closeOnDrain
    requires fd in t.conns ==> Same(t.conns[fd], s.conns[fd])
    ensures Treated(s, script, t, fd, plan, most, limit, rounds)
    ensures NoReasonToClose(s, script, fd, most, limit, rounds) ==> NoReasonToClose(t, script', fd, most, limit, rounds)
  {
    hide NoFails, Willing, AllHarmless, Advanced, Flatten, SaidIn;
    if NoReasonToClose(s, script, fd, most, limit, rounds) {
      var c, size := s.conns[fd], |Flatten(SaidIn(rounds))|;
      LessIsWithin(limit, c.kind, c.client, |c.queue| + size, |t.conns[fd].queue| + size);
    }
  }

  /** After nothing was written because nothing was pending. */
  lemma NothingServed(s: Loop, script: seq<Answer>, fd: int, plan: int, most: nat, limit: int, rounds: seq<Round>)
    requires fd in s.conns && s.conns[fd].id in s.gone && s.conns[fd].queue == []
    ensures Treated(s, script, s, fd, plan, most, limit, rounds)
  {
    hide NoFails, Willing, AllHarmless, Flatten, SaidIn, WithinLimit;
    NothingToSend(s.gone[s.conns[fd].id], s.conns[fd].queue, plan);
  }

  /** After the read, or the last write, of a ready event. */
  lemma TreatedFurther(s: Loop, script: seq<Answer>, t: Loop, u: Loop, fd: int, plan: int, most: nat, limit: int, rounds: seq<Round>)
    requires fd in s.conns && s.conns[fd].id in s.gone && Treated(s, script, t, fd, plan, most, limit, rounds) && GoneGrows(t.gone, u.gone)
    requires NoReasonToClose(s, script, fd, most, limit, rounds) ==> fd in u.conns
    ensures Treated(s, script, u, fd, plan, most, limit, rounds)
  {
    hide NoFails, Willing, AllHarmless, Flatten, SaidIn, WithinLimit, Advanced;
    var c := s.conns[fd];
    if c.kind != AsyncTls && Willing(script, |c.queue|) {
      StaysAdvanced(s.gone[c.id], t.gone[c.id], u.gone[c.id], c.queue, plan);
    }
  }

  lemma NothingToSend(gone: seq<byte>, queue: seq<byte>, plan: int)
    requires queue == []
    ensures Advanced(gone, gone, queue, plan)
  {
  }

  lemma HarmlessAskNothing(rounds: seq<Round>, most: nat)
    requires AllHarmless(rounds, most)
    ensures !Asks(rounds)
  {
  }
}
