/**
 The state of one event loop and what its primitive operations do to it: output that
 moves, connections that come and go, write interest, marks and the idle list.

 A connection's write queue is the byte sequence that `WriteQueue` implements.
 */
module LoopState {
  import opened Bytes
  import opened IdleList
  import opened Journal

  const RING_BUFFER_GUARD := 8 * 1024 * 1024

  datatype Kind =
    | PlainTcp    // TYPE_CONN
    | KernelTls   // TYPE_CONN_TLS, written like a plain connection
    | AsyncTls    // TYPE_CONN_TLS, sealed into records first
    | OpenSsl     // TYPE_CONN_OPENSSL, which has no output limit

  /** `queue` is the pending plaintext, `staged` the number of ciphertext bytes in front of it. */
  datatype Conn = Conn(id: nat, client: bool, kind: Kind, queue: seq<byte>, staged: nat)

  /** PendingWrite */
  function Pending(c: Conn): nat {
    |c.queue| + c.staged
  }

  /** The same connection, with other pending output perhaps. */
  predicate Same(c: Conn, d: Conn) {
    c == d.(queue := c.queue, staged := c.staged)
  }

  /** The output limits of processRead, processCmd and consumeCmd. */
  predicate TooMuchPending(limit: int, c: Conn) {
    c.kind != OpenSsl && if c.client then Pending(c) >= RING_BUFFER_GUARD else Pending(c) > limit
  }

  /** What a connection may have pending, by kind: a client less than 8 MiB, any other up to the limit of the loop. */
  predicate WithinLimit(limit: int, kind: Kind, client: bool, pending: nat) {
    match kind
    case OpenSsl => true
    case _ => if client then pending < 8388608 else pending <= limit
  }

  lemma LimitExactly(limit: int, c: Conn)
    ensures TooMuchPending(limit, c) <==> !WithinLimit(limit, c.kind, c.client, |c.queue| + c.staged)
  {
  }

  predicate Fatal(err: Errno) {
    err != NoError && err != EAGAIN
  }

  datatype Loop = Loop(
    conns: map<int, Conn>,          // the loop's part of the descriptor table
    epoll: map<int, bool>,          // registered descriptors; true if write events are wanted
    writeFds: set<int>,
    closeOnDrain: set<int>,
    cmdFlushSet: set<int>,
    tracking: bool,                 // whether idle connections are looked for
    idle: seq<Tracked>,             // checkList
    touch: map<nat, int>,           // touchMap
    now: int,
    nextId: nat,
    gone: map<nat, seq<byte>>,      // plaintext that has left the queue of each connection, in order
    journal: seq<Fact>)

  // ------------------------------------------------ what holds between events

  /** The bookkeeping is about live connections, and the poller knows exactly these. */
  ghost predicate KeysOk(s: Loop) {
    && (forall fd :: fd in s.conns ==> fd > 0)
    && s.writeFds <= s.conns.Keys && s.closeOnDrain <= s.conns.Keys && s.cmdFlushSet <= s.conns.Keys
    && s.epoll.Keys == s.conns.Keys
    && (forall fd :: fd in s.epoll ==> (s.epoll[fd] <==> fd in s.writeFds))
  }

  ghost predicate IdsOk(s: Loop) {
    && (forall fd :: fd in s.conns ==> s.conns[fd].id < s.nextId && (s.conns[fd].kind != AsyncTls ==> s.conns[fd].staged == 0))
    && (forall a, b :: a in s.conns && b in s.conns && a != b ==> s.conns[a].id != s.conns[b].id)
  }

  /** The journal tells which connections there are. */
  ghost predicate JournalOk(s: Loop) {
    && WellFormed(s.journal) && s.nextId == NextId(s.journal)
    && Live(s.journal).Keys == s.conns.Keys
    && (forall fd :: fd in s.conns ==> Live(s.journal)[fd] == s.conns[fd].id)
  }

  /** Bytes leave a connection in the order in which they were submitted to it. */
  ghost predicate LogsOk(s: Loop) {
    && (forall fd :: fd in s.conns ==> s.conns[fd].id in s.gone)
    && (forall id :: id in s.gone ==> id < s.nextId && s.gone[id] <= StreamOf(s.journal, id))
  }

  /** The entries of the idle list are about live connections. */
  ghost predicate AllLive(list: seq<Tracked>, conns: map<int, Conn>) {
    forall e :: e in list ==> e.fd in conns && conns[e.fd].id == e.id
  }

  /** The idle list is in order and about live connections. */
  ghost predicate IdleOk(s: Loop) {
    && Ordered(s.idle, s.touch, s.now)
    && AllLive(s.idle, s.conns)
    && (!s.tracking ==> s.idle == [])
  }

  /** What left the queue and what waits in it is what was submitted. */
  ghost predicate Conserved(s: Loop, fd: int) {
    && fd in s.conns && s.conns[fd].id in s.gone
    && s.gone[s.conns[fd].id] + s.conns[fd].queue == StreamOf(s.journal, s.conns[fd].id)
  }

  ghost predicate AllConserved(s: Loop, x: int) {
    forall fd :: fd in s.conns && fd != x ==> Conserved(s, fd)
  }

  /** Pending output waits for a write event or a flush; there is no write interest without pending output. */
  ghost predicate Attended(s: Loop, fd: int) {
    && fd in s.conns
    && (Pending(s.conns[fd]) > 0 ==> fd in s.writeFds || fd in s.cmdFlushSet)
    && (fd in s.writeFds ==> Pending(s.conns[fd]) > 0)
  }

  ghost predicate AllAttended(s: Loop, x: int) {
    forall fd :: fd in s.conns && fd != x ==> Attended(s, fd)
  }

  /** Everything is in order, but for the output of connection `x`, which is being worked on. */
  ghost predicate Sound(s: Loop, x: int) {
    KeysOk(s) && IdsOk(s) && JournalOk(s) && LogsOk(s) && IdleOk(s) && AllConserved(s, x) && AllAttended(s, x)
  }

  /** Between events nothing is being worked on, so any connection may be. */
  lemma WorkOn(s: Loop, x: int)
    requires Sound(s, 0)
    ensures Sound(s, x)
    ensures x in s.conns ==> Conserved(s, x) && Attended(s, x)
  {
    hide JournalOk, LogsOk, IdleOk, IdsOk, Conserved, Attended;
  }

  lemma WorkedOn(s: Loop, x: int)
    requires Sound(s, x) && (x in s.conns ==> Conserved(s, x) && Attended(s, x))
    ensures Sound(s, 0)
  {
    hide KeysOk, JournalOk, LogsOk, IdleOk, IdsOk, Conserved, Attended;
  }

  /** What a caller may use of a sound state. */
  lemma SoundMeans(s: Loop, x: int, fd: int)
    requires Sound(s, x) && fd in s.conns
    ensures fd > 0 && s.conns[fd].id < s.nextId && (s.conns[fd].kind != AsyncTls ==> s.conns[fd].staged == 0)
    ensures WellFormed(s.journal) && s.nextId == NextId(s.journal)
    ensures fd in Live(s.journal) && Live(s.journal)[fd] == s.conns[fd].id && s.conns[fd].id in s.gone
  {
    hide WellFormed, NextId, Live, StreamOf, Ordered;
  }

  /** The state of a loop that has just been set up. */
  function Empty(tracking: bool): Loop {
    Loop(map[], map[], {}, {}, {}, tracking, [], map[], 0, 0, map[], [])
  }

  lemma EmptyIsSound(tracking: bool)
    ensures Sound(Empty(tracking), 0)
  {
  }

  // ------------------------------------------------------------------- what depends on what

  lemma SameStreams(s: Loop, t: Loop, x: int)
    requires t.conns == s.conns && t.gone == s.gone && t.nextId == s.nextId && t.journal == s.journal
    requires IdsOk(s) && JournalOk(s) && LogsOk(s) && AllConserved(s, x)
    ensures IdsOk(t) && JournalOk(t) && LogsOk(t) && AllConserved(t, x)
    ensures forall fd :: Conserved(s, fd) ==> Conserved(t, fd)
  {
    hide StreamOf, WellFormed, Live, NextId;
    forall fd | fd in t.conns && fd != x
      ensures Conserved(t, fd)
    {
      assert Conserved(s, fd);
    }
  }

  lemma SameIdle(s: Loop, t: Loop)
    requires t.conns == s.conns && t.tracking == s.tracking && t.idle == s.idle && t.touch == s.touch && t.now == s.now && IdleOk(s)
    ensures IdleOk(t)
  {
    hide Ordered;
  }

  lemma SameTables(s: Loop, t: Loop, x: int)
    requires t.conns == s.conns && t.epoll == s.epoll && t.writeFds == s.writeFds && t.closeOnDrain == s.closeOnDrain
    requires t.cmdFlushSet == s.cmdFlushSet && KeysOk(s) && AllAttended(s, x)
    ensures KeysOk(t) && AllAttended(t, x)
  {
    forall fd | fd in t.conns && fd != x
      ensures Attended(t, fd)
    {
      assert Attended(s, fd);
    }
  }

  /** The journal of one state serves another with the same streams. */
  lemma SameLogs(s: Loop, t: Loop, x: int)
    requires t.conns == s.conns && t.gone == s.gone && s.nextId <= t.nextId
    requires forall id :: StreamOf(t.journal, id) == StreamOf(s.journal, id)
    requires IdsOk(s) && LogsOk(s) && AllConserved(s, x)
    ensures IdsOk(t) && LogsOk(t) && AllConserved(t, x)
  {
    hide StreamOf;
    forall fd | fd in t.conns && fd != x
      ensures Conserved(t, fd)
    {
      assert Conserved(s, fd);
      assert StreamOf(t.journal, s.conns[fd].id) == StreamOf(s.journal, s.conns[fd].id);
    }
  }

  // --------------------------------------------------------------- output moves

  /** With another queue and other staged bytes, after `moved` has left. */
  function Shifted(s: Loop, fd: int, queue: seq<byte>, staged: nat, moved: seq<byte>, journal: seq<Fact>): Loop
    requires fd in s.conns && s.conns[fd].id in s.gone
  {
    var c := s.conns[fd];
    s.(conns := s.conns[fd := c.(queue := queue, staged := staged)], gone := s.gone[c.id := s.gone[c.id] + moved], journal := journal)
  }

  lemma ShiftKeepsTables(s: Loop, fd: int, queue: seq<byte>, staged: nat, moved: seq<byte>, journal: seq<Fact>)
    requires fd in s.conns && s.conns[fd].id in s.gone && (s.conns[fd].kind != AsyncTls ==> staged == 0)
    requires KeysOk(s) && IdsOk(s) && IdleOk(s) && AllAttended(s, fd)
    ensures var t := Shifted(s, fd, queue, staged, moved, journal);
            KeysOk(t) && IdsOk(t) && IdleOk(t) && AllAttended(t, fd)
  {
    hide Ordered;
    var t := Shifted(s, fd, queue, staged, moved, journal);
    assert t.conns.Keys == s.conns.Keys;
    forall other | other in t.conns && other != fd
      ensures Attended(t, other)
    {
      assert Attended(s, other);
    }
  }

  lemma ShiftKeepsJournal(s: Loop, fd: int, queue: seq<byte>, staged: nat, moved: seq<byte>, fs: seq<Fact>)
    requires fd in s.conns && s.conns[fd].id in s.gone && JournalOk(s)
    requires |fs| <= 1 && forall f :: f in fs ==> (f.Heard? && f.fd == fd && f.id == s.conns[fd].id) || f.Consumed?
    ensures JournalOk(Shifted(s, fd, queue, staged, moved, s.journal + fs))
  {
    var t := Shifted(s, fd, queue, staged, moved, s.journal + fs);
    assert t.conns.Keys == s.conns.Keys;
    if fs == [] {
      assert s.journal + fs == s.journal;
    } else {
      assert fs == [fs[0]];
      Snoc(s.journal, fs[0]);
      WellFormedSnoc(s.journal, fs[0]);
    }
    hide WellFormed, NextId, Live, StreamOf;
  }

  /** Moving bytes from the front of a queue and adding others at its end. */
  lemma StreamMoves(left: seq<byte>, queue: seq<byte>, moved: seq<byte>, queue': seq<byte>, added: seq<byte>)
    requires moved + queue' <= queue + added
    ensures left + moved <= (left + queue) + added
    ensures moved + queue' == queue + added ==> (left + moved) + queue' == (left + queue) + added
  {
    assert (left + queue) + added == left + (queue + added);
    assert (left + moved) + queue' == left + (moved + queue');
    assert moved <= queue + added;
  }

  /** The journal grows by what is added to one stream, and only to that one. */
  ghost predicate AddsOnly(j: seq<Fact>, j': seq<Fact>, id: nat, added: seq<byte>) {
    forall other :: StreamOf(j', other) == StreamOf(j, other) + if other == id then added else []
  }

  lemma ShiftKeepsLogs(s: Loop, fd: int, queue: seq<byte>, staged: nat, moved: seq<byte>, journal: seq<Fact>, added: seq<byte>)
    requires fd in s.conns && IdsOk(s) && LogsOk(s) && AllConserved(s, fd) && Conserved(s, fd)
    requires AddsOnly(s.journal, journal, s.conns[fd].id, added) && moved + queue <= s.conns[fd].queue + added
    ensures var t := Shifted(s, fd, queue, staged, moved, journal);
            LogsOk(t) && AllConserved(t, fd) && (moved + queue == s.conns[fd].queue + added ==> Conserved(t, fd))
  {
    hide StreamOf;
    var c, t := s.conns[fd], Shifted(s, fd, queue, staged, moved, journal);
    StreamMoves(s.gone[c.id], c.queue, moved, queue, added);
    assert StreamOf(journal, c.id) == StreamOf(s.journal, c.id) + added;
    forall id | id in t.gone
      ensures t.gone[id] <= StreamOf(journal, id)
    {
      assert StreamOf(journal, id) == StreamOf(s.journal, id) + if id == c.id then added else [];
    }
    forall other | other in t.conns && other != fd
      ensures Conserved(t, other)
    {
      assert Conserved(s, other);
      assert StreamOf(journal, s.conns[other].id) == StreamOf(s.journal, s.conns[other].id) + [];
    }
  }

  lemma ShiftKeepsSound(s: Loop, fd: int, queue: seq<byte>, staged: nat, moved: seq<byte>, fs: seq<Fact>, added: seq<byte>)
    requires fd in s.conns && s.conns[fd].id in s.gone && (s.conns[fd].kind != AsyncTls ==> staged == 0)
    requires Sound(s, fd) && Conserved(s, fd)
    requires |fs| <= 1 && forall f :: f in fs ==> (f.Heard? && f.fd == fd && f.id == s.conns[fd].id) || f.Consumed?
    requires AddsOnly(s.journal, s.journal + fs, s.conns[fd].id, added) && moved + queue <= s.conns[fd].queue + added
    ensures var t := Shifted(s, fd, queue, staged, moved, s.journal + fs);
            Sound(t, fd) && (moved + queue == s.conns[fd].queue + added ==> Conserved(t, fd))
  {
    hide KeysOk, IdsOk, IdleOk, JournalOk, AllAttended, LogsOk, AllConserved, Conserved, AddsOnly, Shifted;
    ShiftKeepsTables(s, fd, queue, staged, moved, s.journal + fs);
    ShiftKeepsJournal(s, fd, queue, staged, moved, fs);
    ShiftKeepsLogs(s, fd, queue, staged, moved, s.journal + fs, added);
  }

  lemma AddsNothing(j: seq<Fact>, id: nat)
    ensures AddsOnly(j, j + [], id, [])
  {
    assert j + [] == j;
  }

  lemma HeardAdds(j: seq<Fact>, fd: int, id: nat, out: seq<byte>)
    ensures AddsOnly(j, j + [Heard(fd, id, out)], id, out)
  {
    Snoc(j, Heard(fd, id, out));
  }

  lemma CommandAdds(j: seq<Fact>, cmd: Cmd)
    requires Reaches(cmd, Live(j))
    ensures AddsOnly(j, j + [Consumed(cmd)], cmd.id, cmd.data)
  {
    Snoc(j, Consumed(cmd));
  }

  /** Some plaintext left from the front of the queue; nothing was submitted. */
  ghost predicate Flushed(s: Loop, fd: int, t: Loop) {
    && fd in s.conns && s.conns[fd].id in s.gone && fd in t.conns
    && var c, d := s.conns[fd], t.conns[fd];
       && |d.queue| <= |c.queue| && d.queue == c.queue[|c.queue| - |d.queue|..]
       && (c.kind != AsyncTls ==> d.staged == 0)
       && t == Shifted(s, fd, d.queue, d.staged, c.queue[..|c.queue| - |d.queue|], s.journal)
  }

  lemma FlushedNothing(s: Loop, fd: int)
    requires Sound(s, fd) && fd in s.conns
    ensures Flushed(s, fd, s)
  {
    SoundMeans(s, fd, fd);
    hide Sound;
    var c := s.conns[fd];
    assert s.gone[c.id] + c.queue[..0] == s.gone[c.id];
    assert s.gone[c.id := s.gone[c.id]] == s.gone && s.conns[fd := c] == s.conns;
  }

  lemma MovedTwice(gone: seq<byte>, queue: seq<byte>, m: nat, n: nat)
    requires m + n <= |queue|
    ensures (gone + queue[..m]) + queue[m..][..n] == gone + queue[..m + n]
    ensures queue[m..][n..] == queue[m + n..]
  {
    assert queue[..m] + queue[m..][..n] == queue[..m + n];
  }

  lemma FlushedTwice(s: Loop, fd: int, t: Loop, u: Loop)
    requires Flushed(s, fd, t) && Flushed(t, fd, u)
    ensures Flushed(s, fd, u)
  {
    var c, d, e := s.conns[fd], t.conns[fd], u.conns[fd];
    var m, n := |c.queue| - |d.queue|, |d.queue| - |e.queue|;
    MovedTwice(s.gone[c.id], c.queue, m, n);
    assert e.queue == c.queue[m + n..];
    ShiftedTwice(s, fd, d.queue, d.staged, c.queue[..m], e.queue, e.staged, d.queue[..n], c.queue[..m + n]);
    hide Shifted;
  }

  lemma ShiftedTwice(s: Loop, fd: int, queue1: seq<byte>, staged1: nat, moved1: seq<byte>, queue2: seq<byte>, staged2: nat,
                     moved2: seq<byte>, moved: seq<byte>)
    requires fd in s.conns && s.conns[fd].id in s.gone
    requires (s.gone[s.conns[fd].id] + moved1) + moved2 == s.gone[s.conns[fd].id] + moved
    ensures Shifted(Shifted(s, fd, queue1, staged1, moved1, s.journal), fd, queue2, staged2, moved2, s.journal)
            == Shifted(s, fd, queue2, staged2, moved, s.journal)
  {
  }

  lemma FlushKeepsSound(s: Loop, fd: int, t: Loop)
    requires Sound(s, fd) && Conserved(s, fd) && Flushed(s, fd, t)
    ensures Sound(t, fd) && Conserved(t, fd)
  {
    hide Sound, Conserved, Shifted, AddsOnly;
    var c, d := s.conns[fd], t.conns[fd];
    var moved := c.queue[..|c.queue| - |d.queue|];
    assert s.journal + [] == s.journal && moved + d.queue == c.queue + [];
    AddsNothing(s.journal, c.id);
    ShiftKeepsSound(s, fd, d.queue, d.staged, moved, [], []);
  }

  /** The handler's output was written or queued, whole or up to an error. */
  ghost predicate Emitted(s: Loop, fd: int, out: seq<byte>, t: Loop, err: Errno) {
    && fd in s.conns && s.conns[fd].id in s.gone && fd in t.conns && s.conns[fd].id in t.gone
    && var c, d := s.conns[fd], t.conns[fd];
       && s.gone[c.id] <= t.gone[c.id]
       && var moved := t.gone[c.id][|s.gone[c.id]|..];
          && (if err == NoError then moved + d.queue == c.queue + out else moved + d.queue <= c.queue + out)
          && (Pending(c) > 0 ==> moved == [])
          && (c.kind != AsyncTls ==> d.staged == 0)
          && t == Shifted(s, fd, d.queue, d.staged, moved, s.journal + [Heard(fd, c.id, out)])
  }

  lemma EmitKeepsSound(s: Loop, fd: int, out: seq<byte>, t: Loop, err: Errno)
    requires Sound(s, fd) && Conserved(s, fd) && Emitted(s, fd, out, t, err)
    ensures Sound(t, fd) && (err == NoError ==> Conserved(t, fd))
  {
    hide Sound, Conserved, Shifted, AddsOnly;
    var c, d := s.conns[fd], t.conns[fd];
    var moved := t.gone[c.id][|s.gone[c.id]|..];
    HeardAdds(s.journal, fd, c.id, out);
    ShiftKeepsSound(s, fd, d.queue, d.staged, moved, [Heard(fd, c.id, out)], out);
  }

  /** The TLS engine staged bytes of its own. */
  ghost predicate Staged(s: Loop, fd: int, t: Loop) {
    && fd in s.conns && fd in t.conns
    && (s.conns[fd].kind != AsyncTls ==> t == s)
    && t == s.(conns := s.conns[fd := s.conns[fd].(staged := t.conns[fd].staged)])
  }

  lemma StagingKeepsSound(s: Loop, fd: int, t: Loop)
    requires Sound(s, fd) && Conserved(s, fd) && Staged(s, fd, t)
    ensures Sound(t, fd) && Conserved(t, fd)
  {
    SoundMeans(s, fd, fd);
    var c := s.conns[fd];
    assert t.gone == s.gone[c.id := s.gone[c.id] + []] by {
      assert s.gone[c.id] + [] == s.gone[c.id];
    }
    assert c.queue[0..] == c.queue && c.queue[..0] == [];
    hide Sound, Conserved;
    FlushKeepsSound(s, fd, t);
  }

  // --------------------------------------------------- a connection is closed

  /** closeConn: the connection leaves every table. */
  function AfterClose(s: Loop, fd: int): Loop
    requires fd in s.conns
  {
    var id := s.conns[fd].id;
    s.(conns := s.conns - {fd}, epoll := s.epoll - {fd}, writeFds := s.writeFds - {fd}, closeOnDrain := s.closeOnDrain - {fd},
       cmdFlushSet := s.cmdFlushSet - {fd}, idle := Without(s.idle, id), touch := s.touch - {id}, journal := s.journal + [Closed(fd)])
  }

  lemma CloseKeepsTables(s: Loop, fd: int)
    requires fd in s.conns && KeysOk(s) && IdsOk(s) && AllAttended(s, fd)
    ensures var t := AfterClose(s, fd); KeysOk(t) && IdsOk(t) && AllAttended(t, 0)
  {
    hide Without;
    var t := AfterClose(s, fd);
    assert t.conns.Keys == s.conns.Keys - {fd} && t.epoll.Keys == s.epoll.Keys - {fd};
    forall other | other in t.conns
      ensures Attended(t, other)
    {
      assert Attended(s, other);
    }
  }

  lemma CloseKeepsLogs(s: Loop, fd: int)
    requires fd in s.conns && JournalOk(s) && LogsOk(s) && AllConserved(s, fd)
    ensures var t := AfterClose(s, fd); JournalOk(t) && LogsOk(t) && AllConserved(t, 0)
  {
    hide Without;
    var f, t := Closed(fd), AfterClose(s, fd);
    Snoc(s.journal, f);
    WellFormedSnoc(s.journal, f);
    hide WellFormed, Live, NextId, StreamOf;
    assert t.conns.Keys == s.conns.Keys - {fd};
    assert forall id :: StreamOf(t.journal, id) == StreamOf(s.journal, id) + [];
    forall other | other in t.conns
      ensures Conserved(t, other)
    {
      assert Conserved(s, other);
      assert StreamOf(t.journal, s.conns[other].id) == StreamOf(s.journal, s.conns[other].id);
    }
  }

  lemma CloseKeepsIdle(s: Loop, fd: int)
    requires fd in s.conns && IdsOk(s) && IdleOk(s)
    ensures IdleOk(AfterClose(s, fd))
  {
    var id, t := s.conns[fd].id, AfterClose(s, fd);
    RemoveKeepsOrdered(s.idle, s.touch, s.now, id);
    NothingWithout(id);
    hide Ordered, Without;
    forall e | e in t.idle
      ensures e.fd in t.conns && t.conns[e.fd].id == e.id
    {
      assert e in s.idle && e.id != id;
    }
  }

  lemma NothingWithout(id: nat)
    ensures Without([], id) == []
  {
  }

  /** Closing a connection puts everything in order, even if it was being worked on. */
  lemma CloseKeepsSound(s: Loop, fd: int)
    requires Sound(s, fd) && fd in s.conns
    ensures Sound(AfterClose(s, fd), 0)
  {
    CloseKeepsTables(s, fd);
    CloseKeepsLogs(s, fd);
    CloseKeepsIdle(s, fd);
    hide KeysOk, IdsOk, JournalOk, LogsOk, IdleOk, AllConserved, AllAttended, AfterClose;
  }

  // ------------------------------------------- write interest, flush set and marks

  /** updateWriteFd: the poller is told whether the connection wants write events. */
  function AfterInterest(s: Loop, fd: int): Loop
    requires fd in s.conns
  {
    var want := Pending(s.conns[fd]) > 0;
    if want == (fd in s.writeFds) then s
    else s.(epoll := s.epoll[fd := want], writeFds := if want then s.writeFds + {fd} else s.writeFds - {fd})
  }

  lemma InterestKeepsSound(s: Loop, fd: int)
    requires fd in s.conns && Sound(s, fd) && Conserved(s, fd)
    ensures var t := AfterInterest(s, fd);
            Sound(t, 0) && (fd in t.writeFds <==> Pending(s.conns[fd]) > 0)
  {
    hide IdsOk, JournalOk, LogsOk, IdleOk, AllConserved, Conserved;
    var t := AfterInterest(s, fd);
    assert t.epoll.Keys == s.epoll.Keys;
    SameStreams(s, t, fd);
    SameIdle(s, t);
    forall other | other in t.conns && other != fd
      ensures Attended(t, other)
    {
      assert Attended(s, other);
    }
    WorkedOn(t, fd);
  }

  /** Output submitted by a command; the connection joins the flush set. */
  function Commanded(s: Loop, cmd: Cmd): Loop
    requires cmd.fd in s.conns
  {
    var c := s.conns[cmd.fd];
    s.(conns := s.conns[cmd.fd := c.(queue := c.queue + cmd.data)], cmdFlushSet := s.cmdFlushSet + {cmd.fd},
       journal := s.journal + [Consumed(cmd)])
  }

  lemma CommandKeepsSound(s: Loop, cmd: Cmd)
    requires Sound(s, 0) && cmd.fd in s.conns && s.conns[cmd.fd].id == cmd.id && cmd.op == CmdData && cmd.data != []
    ensures Sound(Commanded(s, cmd), 0)
  {
    var fd, c := cmd.fd, s.conns[cmd.fd];
    WorkOn(s, fd);
    SoundMeans(s, 0, fd);
    hide Sound, Conserved, AddsOnly, Shifted, Commanded;
    var queue := c.queue + cmd.data;
    CommandAdds(s.journal, cmd);
    assert [] + queue == queue;
    ShiftKeepsSound(s, fd, queue, c.staged, [], [Consumed(cmd)], cmd.data);
    CommandedIs(s, cmd);
    JoinKeepsSound(Shifted(s, fd, queue, c.staged, [], s.journal + [Consumed(cmd)]), fd);
  }

  lemma CommandedIs(s: Loop, cmd: Cmd)
    requires cmd.fd in s.conns && s.conns[cmd.fd].id in s.gone
    ensures var c := s.conns[cmd.fd];
            var t := Shifted(s, cmd.fd, c.queue + cmd.data, c.staged, [], s.journal + [Consumed(cmd)]);
            && Commanded(s, cmd) == t.(cmdFlushSet := t.cmdFlushSet + {cmd.fd})
            && cmd.fd in t.conns && t.conns[cmd.fd].queue == c.queue + cmd.data
  {
    var id := s.conns[cmd.fd].id;
    assert s.gone[id] + [] == s.gone[id];
    assert s.gone[id := s.gone[id]] == s.gone;
  }

  /** A connection with pending output joins the flush set. */
  lemma JoinKeepsSound(s: Loop, fd: int)
    requires fd in s.conns && Sound(s, fd) && Conserved(s, fd) && Pending(s.conns[fd]) > 0
    ensures Sound(s.(cmdFlushSet := s.cmdFlushSet + {fd}), 0)
  {
    hide IdsOk, JournalOk, LogsOk, IdleOk, AllConserved, Conserved;
    var t := s.(cmdFlushSet := s.cmdFlushSet + {fd});
    SameStreams(s, t, fd);
    SameIdle(s, t);
    forall other | other in t.conns && other != fd
      ensures Attended(t, other)
    {
      assert Attended(s, other);
    }
    WorkedOn(t, fd);
  }

  /** A command that submits nothing leaves its trace in the journal only. */
  lemma FactKeepsSound(s: Loop, cmd: Cmd, x: int)
    requires Sound(s, x)
    requires cmd.data == [] || !(cmd.fd in s.conns && s.conns[cmd.fd].id == cmd.id && cmd.op == CmdData)
    ensures Sound(s.(journal := s.journal + [Consumed(cmd)]), x)
  {
    var t := s.(journal := s.journal + [Consumed(cmd)]);
    assert JournalOk(t) && forall id :: StreamOf(t.journal, id) == StreamOf(s.journal, id) by {
      hide KeysOk, IdsOk, LogsOk, IdleOk, AllConserved, AllAttended;
      QuietCommand(s.journal, cmd);
      hide WellFormed, Live, NextId, StreamOf;
    }
    hide KeysOk, IdsOk, LogsOk, IdleOk, AllConserved, AllAttended, JournalOk, StreamOf;
    SameLogs(s, t, x);
    SameTables(s, t, x);
    SameIdle(s, t);
  }

  /** A connection leaves the flush set and is worked on. */
  lemma LeaveKeepsSound(s: Loop, fd: int)
    requires Sound(s, fd)
    ensures Sound(s.(cmdFlushSet := s.cmdFlushSet - {fd}), fd)
    ensures fd in s.cmdFlushSet ==> fd in s.conns
    ensures Conserved(s, fd) ==> Conserved(s.(cmdFlushSet := s.cmdFlushSet - {fd}), fd)
  {
    hide IdsOk, JournalOk, LogsOk, IdleOk, AllConserved, Conserved;
    var t := s.(cmdFlushSet := s.cmdFlushSet - {fd});
    SameStreams(s, t, fd);
    SameIdle(s, t);
    forall other | other in t.conns && other != fd
      ensures Attended(t, other)
    {
      assert Attended(s, other);
    }
  }

  /** A connection is marked to be closed once drained. */
  lemma MarkKeepsSound(s: Loop, fd: int)
    requires Sound(s, fd) && fd in s.conns
    ensures Sound(s.(closeOnDrain := s.closeOnDrain + {fd}), fd)
    ensures Conserved(s, fd) ==> Conserved(s.(closeOnDrain := s.closeOnDrain + {fd}), fd)
  {
    hide IdsOk, JournalOk, LogsOk, IdleOk, AllConserved, Conserved;
    var t := s.(closeOnDrain := s.closeOnDrain + {fd});
    SameStreams(s, t, fd);
    SameIdle(s, t);
    forall other | other in t.conns && other != fd
      ensures Attended(t, other)
    {
      assert Attended(s, other);
    }
  }

  // ----------------------------------------------------- the clock and the idle list

  /** A state that differs in clock and idle list only. */
  lemma IdleChangeKeepsSound(s: Loop, t: Loop, x: int)
    requires Sound(s, x) && IdleOk(t) && t == s.(idle := t.idle, touch := t.touch, now := t.now)
    ensures Sound(t, x) && (Conserved(s, x) ==> Conserved(t, x))
  {
    hide KeysOk, IdsOk, JournalOk, LogsOk, IdleOk, AllConserved, AllAttended, Conserved;
    SameStreams(s, t, x);
    SameTables(s, t, x);
  }

  lemma ClockKeepsSound(s: Loop, later: int, x: int)
    requires Sound(s, x) && s.now <= later
    ensures Sound(s.(now := later), x) && (Conserved(s, x) ==> Conserved(s.(now := later), x))
  {
    var t := s.(now := later);
    assert IdleOk(t) by {
      LaterKeepsOrdered(s.idle, s.touch, s.now, later);
      hide Ordered;
    }
    hide IdleOk;
    IdleChangeKeepsSound(s, t, x);
  }

  /** Input on a tracked connection moves it to the back of the idle list. */
  function Touched(s: Loop, fd: int): Loop
    requires fd in s.conns
  {
    var id := s.conns[fd].id;
    s.(idle := Without(s.idle, id) + [Tracked(id, fd)], touch := s.touch[id := s.now])
  }

  lemma TouchKeepsIdle(s: Loop, fd: int)
    requires IdleOk(s) && fd in s.conns && s.tracking
    ensures IdleOk(Touched(s, fd))
  {
    var id, e := s.conns[fd].id, Tracked(s.conns[fd].id, fd);
    var less := Without(s.idle, id);
    RemoveKeepsOrdered(s.idle, s.touch, s.now, id);
    hide Ordered, Without;
    PushKeepsOrdered(less, s.touch - {id}, s.now, e);
    assert (s.touch - {id})[id := s.now] == s.touch[id := s.now];
    FewerAndOneMore(s.idle, less, e, s.conns);
    hide AllLive;
  }

  lemma FewerAndOneMore(list: seq<Tracked>, less: seq<Tracked>, e: Tracked, conns: map<int, Conn>)
    requires AllLive(list, conns) && (forall i :: 0 <= i < |less| ==> less[i] in list)
    requires e.fd in conns && conns[e.fd].id == e.id
    ensures AllLive(less + [e], conns)
  {
  }

  lemma TouchKeepsSound(s: Loop, fd: int, x: int)
    requires Sound(s, x) && fd in s.conns && s.tracking
    ensures Sound(Touched(s, fd), x) && (Conserved(s, x) ==> Conserved(Touched(s, fd), x))
  {
    hide IdleOk, Without;
    TouchKeepsIdle(s, fd);
    IdleChangeKeepsSound(s, Touched(s, fd), x);
  }

  // ------------------------------------------------------- a connection is added

  /** storeConn and AddRead have succeeded. */
  function Stored(s: Loop, fd: int, client: bool, kind: Kind): Loop {
    s.(conns := s.conns[fd := Conn(s.nextId, client, kind, [], 0)], epoll := s.epoll[fd := false], nextId := s.nextId + 1,
       gone := s.gone[s.nextId := []], journal := s.journal + [Attached(fd, s.nextId)])
  }

  lemma StoreKeepsKeys(s: Loop, fd: int, client: bool, kind: Kind)
    requires KeysOk(s) && IdsOk(s) && AllAttended(s, 0) && fd > 0 && fd !in s.conns
    ensures var t := Stored(s, fd, client, kind); KeysOk(t) && IdsOk(t) && AllAttended(t, 0)
  {
    var t := Stored(s, fd, client, kind);
    assert t.conns.Keys == s.conns.Keys + {fd} && t.epoll.Keys == s.epoll.Keys + {fd};
    forall other | other in t.conns
      ensures Attended(t, other)
    {
      if other != fd {
        assert Attended(s, other);
      }
    }
  }

  lemma StoreKeepsIdle(s: Loop, fd: int, client: bool, kind: Kind)
    requires IdsOk(s) && IdleOk(s) && fd !in s.conns
    ensures IdleOk(Stored(s, fd, client, kind)) && s.nextId !in s.touch
  {
    forall id | id in s.touch
      ensures id < s.nextId
    {
      assert id in Ids(s.idle);
      var k :| 0 <= k < |s.idle| && s.idle[k].id == id;
      assert s.idle[k] in s.idle;
    }
    hide Ordered;
  }

  lemma StoreKeepsJournal(s: Loop, fd: int, client: bool, kind: Kind)
    requires JournalOk(s) && fd !in s.conns
    ensures var t := Stored(s, fd, client, kind);
            && JournalOk(t) && StreamOf(s.journal, s.nextId) == []
            && forall id :: StreamOf(t.journal, id) == StreamOf(s.journal, id)
  {
    var id, f, t := s.nextId, Attached(fd, s.nextId), Stored(s, fd, client, kind);
    NothingForNewIds(s.journal, id);
    Snoc(s.journal, f);
    WellFormedSnoc(s.journal, f);
    hide WellFormed, Live, NextId, StreamOf;
    assert t.conns.Keys == s.conns.Keys + {fd};
    forall other: nat
      ensures StreamOf(t.journal, other) == StreamOf(s.journal, other)
    {
      assert StreamOf(s.journal, other) + [] == StreamOf(s.journal, other);
    }
  }

  lemma StoreKeepsLogs(s: Loop, fd: int, client: bool, kind: Kind)
    requires JournalOk(s) && LogsOk(s) && IdsOk(s) && AllConserved(s, 0) && fd !in s.conns
    ensures var t := Stored(s, fd, client, kind); JournalOk(t) && LogsOk(t) && AllConserved(t, 0)
  {
    StoreKeepsJournal(s, fd, client, kind);
    hide StreamOf, JournalOk;
    var t := Stored(s, fd, client, kind);
    assert t.journal == s.journal + [Attached(fd, s.nextId)];
    NewStream(s, fd, t);
    hide Stored;
  }

  /** A new connection with an empty stream leaves the other streams alone. */
  lemma NewStream(s: Loop, fd: int, t: Loop)
    requires LogsOk(s) && IdsOk(s) && AllConserved(s, 0) && fd !in s.conns && fd in t.conns
    requires t.conns - {fd} == s.conns && t.conns[fd].id == s.nextId && t.conns[fd].queue == [] && t.nextId == s.nextId + 1
    requires t.gone == s.gone[s.nextId := []] && StreamOf(t.journal, s.nextId) == []
    requires forall id :: StreamOf(t.journal, id) == StreamOf(s.journal, id)
    ensures LogsOk(t) && AllConserved(t, 0)
  {
    hide StreamOf;
    forall other | other in t.conns && other != 0
      ensures Conserved(t, other)
    {
      if other != fd {
        assert other in t.conns - {fd};
        assert Conserved(s, other);
        assert StreamOf(t.journal, s.conns[other].id) == StreamOf(s.journal, s.conns[other].id);
      }
    }
    forall other | other in t.conns && other != fd
      ensures t.conns[other].id in t.gone
    {
      assert other in t.conns - {fd};
    }
    hide AllConserved, IdsOk;
    forall id | id in t.gone
      ensures id < t.nextId && t.gone[id] <= StreamOf(t.journal, id)
    {
      assert StreamOf(t.journal, id) == StreamOf(s.journal, id);
    }
  }

  lemma StoreKeepsSound(s: Loop, fd: int, client: bool, kind: Kind)
    requires Sound(s, 0) && fd > 0 && fd !in s.conns
    ensures Sound(Stored(s, fd, client, kind), 0) && s.nextId !in s.touch
  {
    StoreKeepsKeys(s, fd, client, kind);
    StoreKeepsIdle(s, fd, client, kind);
    StoreKeepsLogs(s, fd, client, kind);
    hide KeysOk, IdsOk, JournalOk, LogsOk, IdleOk, AllConserved, AllAttended, Stored;
  }

  /** An ID was spent on a connection that could not be attached. */
  function Turned(s: Loop, fd: int): Loop {
    s.(nextId := s.nextId + 1, journal := s.journal + [Refused(fd, s.nextId)])
  }

  lemma TurnKeepsSound(s: Loop, fd: int)
    requires Sound(s, 0)
    ensures Sound(Turned(s, fd), 0)
  {
    hide KeysOk, IdsOk, LogsOk, IdleOk, AllConserved, AllAttended;
    var f, t := Refused(fd, s.nextId), Turned(s, fd);
    Snoc(s.journal, f);
    WellFormedSnoc(s.journal, f);
    hide WellFormed, Live, NextId, StreamOf;
    forall id: nat
      ensures StreamOf(t.journal, id) == StreamOf(s.journal, id)
    {
      assert StreamOf(s.journal, id) + [] == StreamOf(s.journal, id);
    }
    SameLogs(s, t, 0);
    SameTables(s, t, 0);
    SameIdle(s, t);
  }

  // --------------------------------------------------- what the operations make of a drain

  /** A drain of one connection within a budget; `total` counts the bytes that the socket took. */
  ghost predicate Drained(s: Loop, fd: int, plan: int, t: Loop, total: nat) {
    && Flushed(s, fd, t)
    && (plan > 0 ==> total < 2 * plan)
    && (s.conns[fd].kind != AsyncTls ==> total == |s.conns[fd].queue| - |t.conns[fd].queue|)
  }

  /** processSend, behind its drain. */
  function AfterSend(s: Loop, fd: int, err: Errno): Loop
    requires fd in s.conns
  {
    if Fatal(err) || (Pending(s.conns[fd]) == 0 && fd in s.closeOnDrain) then AfterClose(s, fd) else AfterInterest(s, fd)
  }

  /** The command flush loop, for one connection and behind its drain. */
  function AfterFlush(s: Loop, fd: int, limit: int, err: Errno): Loop
    requires fd in s.conns
  {
    if Fatal(err) || TooMuchPending(limit, s.conns[fd]) then AfterClose(s, fd) else AfterInterest(s, fd)
  }

  /** The end of a round of processRead, behind its drain. */
  function AfterRound(s: Loop, fd: int, limit: int, err: Errno, wantClose: bool, more: bool): Loop
    requires fd in s.conns
  {
    if Fatal(err) then AfterClose(s, fd)
    else if wantClose then
      if Pending(s.conns[fd]) > 0 then AfterInterest(s.(closeOnDrain := s.closeOnDrain + {fd}), fd) else AfterClose(s, fd)
    else if TooMuchPending(limit, s.conns[fd]) then AfterClose(s, fd)
    else if more then s
    else AfterInterest(s, fd)
  }

  /** consumeCmd. */
  function AfterConsume(s: Loop, limit: int, cmd: Cmd): Loop {
    var noted := s.(journal := s.journal + [Consumed(cmd)]);
    if cmd.fd !in s.conns then noted
    else if cmd.op == CmdData then
      if s.conns[cmd.fd].id != cmd.id || cmd.data == [] then noted
      else
        var t := Commanded(s, cmd);
        if TooMuchPending(limit, t.conns[cmd.fd]) then AfterClose(t, cmd.fd) else t
    else if cmd.op == CmdClose then AfterClose(noted, cmd.fd)
    else noted
  }

  lemma RoundKeepsSound(s: Loop, fd: int, limit: int, err: Errno, wantClose: bool, more: bool)
    requires fd in s.conns && Sound(s, fd) && Conserved(s, fd)
    ensures var t := AfterRound(s, fd, limit, err, wantClose, more);
            && (fd in t.conns && more && !wantClose ==> t == s)
            && (!(fd in t.conns && more && !wantClose) ==> Sound(t, 0))
  {
    hide Sound, Conserved;
    CloseKeepsSound(s, fd);
    InterestKeepsSound(s, fd);
    var marked := s.(closeOnDrain := s.closeOnDrain + {fd});
    MarkKeepsSound(s, fd);
    InterestKeepsSound(marked, fd);
    hide AfterInterest;
  }

  lemma ConsumeKeepsSound(s: Loop, limit: int, cmd: Cmd)
    requires Sound(s, 0)
    ensures Sound(AfterConsume(s, limit, cmd), 0)
  {
    hide Sound, AfterClose, Commanded;
    var noted := s.(journal := s.journal + [Consumed(cmd)]);
    if cmd.fd in s.conns && cmd.op == CmdData && s.conns[cmd.fd].id == cmd.id && cmd.data != [] {
      var t := Commanded(s, cmd);
      CommandKeepsSound(s, cmd);
      CommandedStays(s, cmd);
      WorkOn(t, cmd.fd);
      CloseKeepsSound(t, cmd.fd);
    } else {
      FactKeepsSound(s, cmd, 0);
      if cmd.fd in s.conns {
        WorkOn(noted, cmd.fd);
        CloseKeepsSound(noted, cmd.fd);
      }
    }
  }

  /** A close command closes whoever holds its descriptor: the connection that it names exactly if that one still does. */
  lemma CloseHitsWhomItNamesExactly(s: Loop, limit: int, cmd: Cmd)
    requires cmd.op == CmdClose && cmd.fd in s.conns
    ensures (forall fd :: fd in s.conns && fd !in AfterConsume(s, limit, cmd).conns ==> s.conns[fd].id == cmd.id) <==>
            s.conns[cmd.fd].id == cmd.id
  {
    hide Without;
    var t := AfterConsume(s, limit, cmd);
    assert t.conns == s.conns - {cmd.fd};
  }

  /**
   What a command does to the connections.  A close takes the one on its descriptor away.  Data
   that names a live connection goes behind its queue, if the limit allows it, and else closes
   the connection.  Nothing else changes anything.
   */
  ghost predicate Obeys(cmd: Cmd, limit: int, before: map<int, Conn>, after: map<int, Conn>) {
    if cmd.op == CmdClose then after == before - {cmd.fd}
    else if cmd.op == CmdData && cmd.fd in before && before[cmd.fd].id == cmd.id && |cmd.data| > 0 then
      var c := before[cmd.fd];
      if WithinLimit(limit, c.kind, c.client, |c.queue| + c.staged + |cmd.data|)
      then after == before[cmd.fd := c.(queue := c.queue + cmd.data)]
      else after == before - {cmd.fd}
    else after == before
  }

  lemma CommandsAreObeyed(s: Loop, limit: int, cmd: Cmd)
    ensures var t := AfterConsume(s, limit, cmd);
            && Obeys(cmd, limit, s.conns, t.conns)
            && (cmd.op == CmdData && cmd.fd in t.conns && s.conns[cmd.fd].id == cmd.id && |cmd.data| > 0 ==> cmd.fd in t.cmdFlushSet)
  {
    hide Without;
    if cmd.fd in s.conns {
      var t := Commanded(s, cmd);
      LimitExactly(limit, t.conns[cmd.fd]);
      assert t.conns - {cmd.fd} == s.conns - {cmd.fd};
    } else {
      assert s.conns - {cmd.fd} == s.conns;
    }
  }

  /**
   A connection on descriptor 5 is closed and the descriptor is used again; a close command
   that names the first connection then closes the second one.
   */
  lemma CloseHitsAnother() returns (first: Loop, s: Loop, cmd: Cmd)
    ensures Sound(first, 0) && 5 in first.conns && first.conns[5].id == cmd.id && cmd.op == CmdClose && cmd.fd == 5
    ensures Sound(s, 0) && s == Stored(AfterClose(first, 5), 5, false, PlainTcp) && s.conns[5].id != cmd.id
    ensures 5 !in AfterConsume(s, 100, cmd).conns
  {
    hide Sound, Without;
    EmptyIsSound(false);
    first := Stored(Empty(false), 5, false, PlainTcp);
    StoreKeepsSound(Empty(false), 5, false, PlainTcp);
    WorkOn(first, 5);
    CloseKeepsSound(first, 5);
    s := Stored(AfterClose(first, 5), 5, false, PlainTcp);
    StoreKeepsSound(AfterClose(first, 5), 5, false, PlainTcp);
    cmd := Cmd(CmdClose, 5, 0, []);
  }

  lemma CommandedStays(s: Loop, cmd: Cmd)
    requires cmd.fd in s.conns
    ensures cmd.fd in Commanded(s, cmd).conns
  {
  }
}
