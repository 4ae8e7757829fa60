/**
 One event loop: its connections, their pending output, the write interest registered
 with the poller, the command flush set and the idle list.

 System calls do what they like within their contracts.
 */
module EventLoop {
  import opened Bytes
  import opened IdleList
  import opened Journal
  import opened LoopState
  import opened CloseOnDrain
  import opened Events
  import opened Drain
  import opened Service

  // ------------------------------------------------------------------ small lemmas

  lemma SaidStep(packets: seq<Packet>, i: nat)
    requires i < |packets| && packets[i].Output? && GoesOn(packets[..i])
    ensures Said(packets[..i]) + [packets[i].data] <= Said(packets)
    ensures packets[i].wantClose ==> Said(packets[..i]) + [packets[i].data] == Said(packets)
    ensures !packets[i].wantClose ==> GoesOn(packets[..i + 1]) && Said(packets[..i + 1]) == Said(packets[..i]) + [packets[i].data]
  {
    var p, before := packets[i], Said(packets[..i]);
    SaidSplits(packets, i);
    assert packets[i..][0] == p;
    SaidFirst(packets[i..]);
    SaidSplitsPrefix(packets, i);
    SaidFirst([p]);
    GoesOnPrefix(packets, i);
    hide Said, GoesOn;
    Behind(before, [p.data], Said(packets[i..]));
  }

  lemma Behind(front: seq<seq<byte>>, part: seq<seq<byte>>, all: seq<seq<byte>>)
    requires part <= all
    ensures front + part <= front + all
  {
  }

  lemma GoesOnPrefix(packets: seq<Packet>, i: nat)
    requires i < |packets| && GoesOn(packets[..i])
    ensures packets[i].Output? && !packets[i].wantClose ==> GoesOn(packets[..i + 1])
  {
    assert forall k :: 0 <= k < i ==> packets[..i + 1][k] == packets[..i][k];
  }

  lemma SaidSplitsPrefix(packets: seq<Packet>, i: nat)
    requires i < |packets| && GoesOn(packets[..i])
    ensures Said(packets[..i + 1]) == Said(packets[..i]) + Said([packets[i]])
  {
    hide Said, GoesOn;
    var some := packets[..i + 1];
    assert some[..i] == packets[..i] && some[i..] == [packets[i]];
    SaidSplits(some, i);
  }

  lemma SaidFirst(packets: seq<Packet>)
    requires packets != [] && packets[0].Output?
    ensures [packets[0].data] <= Said(packets)
    ensures packets[0].wantClose || |packets| == 1 ==> Said(packets) == [packets[0].data]
  {
  }

  lemma {:induction false} SaidSplits(packets: seq<Packet>, i: nat)
    requires i <= |packets| && GoesOn(packets[..i])
    ensures Said(packets) == Said(packets[..i]) + Said(packets[i..])
  {
    if i == 0 {
      assert packets[0..] == packets && packets[..0] == [];
    } else {
      assert packets[..i][1..] == packets[1..][..i - 1] && packets[1..][i - 1..] == packets[i..];
      assert packets[..i][0] == packets[0];
      SaidSplits(packets[1..], i - 1);
    }
  }

  lemma {:induction false} SaidUpToBad(packets: seq<Packet>, i: nat)
    requires i < |packets| && packets[i].Bad? && GoesOn(packets[..i])
    ensures Said(packets) == Said(packets[..i])
  {
    SaidSplits(packets, i);
    assert packets[i..][0] == packets[i];
  }

  lemma HearsMore(fd: int, id: nat, a: seq<seq<byte>>, b: seq<seq<byte>>)
    ensures Hears(fd, id, a) + Hears(fd, id, b) == Hears(fd, id, a + b)
  {
  }

  lemma HearsOne(fd: int, id: nat, out: seq<byte>)
    ensures Hears(fd, id, [out]) == [Heard(fd, id, out)]
  {
  }

  lemma {:induction false} SaidInSplits(rounds: seq<Round>, i: nat)
    requires i <= |rounds|
    requires AllGoOn(rounds, i)
    ensures SaidIn(rounds) == SaidIn(rounds[..i]) + SaidIn(rounds[i..])
  {
    if i == 0 {
      assert rounds[0..] == rounds && rounds[..0] == [];
    } else {
      assert rounds[..i][1..] == rounds[1..][..i - 1] && rounds[1..][i - 1..] == rounds[i..];
      assert rounds[..i][0] == rounds[0];
      SaidInSplits(rounds[1..], i - 1);
    }
  }

  /** The first `i` rounds all go on. */
  predicate AllGoOn(rounds: seq<Round>, i: nat)
    requires i <= |rounds|
  {
    forall k :: 0 <= k < i ==> !rounds[k].noRoom && !rounds[k].failed && rounds[k].more && GoesOn(rounds[k].packets)
  }

  /** What the handler said in round `i`, behind rounds that went on. */
  lemma RoundTells(rounds: seq<Round>, i: nat, got: seq<seq<byte>>)
    requires i <= |rounds| && AllGoOn(rounds, i) && got <= SaidIn([RoundAt(rounds, i)])
    ensures SaidIn(rounds[..i]) + got <= SaidIn(rounds)
    ensures var round := RoundAt(rounds, i);
            got == SaidIn([round]) && !(round.more && GoesOn(round.packets)) ==> SaidIn(rounds[..i]) + got == SaidIn(rounds)
  {
    hide SaidIn, GoesOn, AllGoOn;
    SaidInSplits(rounds, i);
    FirstRound(rounds[i..]);
    assert RoundAt(rounds[i..], 0) == RoundAt(rounds, i);
    Behind(SaidIn(rounds[..i]), got, SaidIn(rounds[i..]));
  }

  lemma RoundGoesOn(rounds: seq<Round>, i: nat)
    requires i <= |rounds| && AllGoOn(rounds, i)
    requires var round := RoundAt(rounds, i); !round.noRoom && !round.failed && round.more && GoesOn(round.packets)
    ensures i < |rounds| && AllGoOn(rounds, i + 1) && SaidIn(rounds[..i + 1]) == SaidIn(rounds[..i]) + SaidIn([RoundAt(rounds, i)])
  {
    hide SaidIn, GoesOn;
    SaidInSplitsPrefix(rounds, i);
  }

  /** The first round says the beginning of it all, and all of it unless it goes on. */
  lemma FirstRound(rounds: seq<Round>)
    ensures var round := RoundAt(rounds, 0);
            SaidIn([round]) <= SaidIn(rounds) && (!(round.more && GoesOn(round.packets)) ==> SaidIn([round]) == SaidIn(rounds))
  {
    assert [RoundAt(rounds, 0)][1..] == [];
  }

  lemma SaidInSplitsPrefix(rounds: seq<Round>, i: nat)
    requires i < |rounds| && AllGoOn(rounds, i)
    ensures SaidIn(rounds[..i + 1]) == SaidIn(rounds[..i]) + SaidIn([rounds[i]])
  {
    hide SaidIn, GoesOn;
    var some := rounds[..i + 1];
    assert some[..i] == rounds[..i] && some[i..] == [rounds[i]];
    SaidInSplits(some, i);
  }

  lemma SomeMember(s: set<int>)
    ensures s == {} || exists x :: x in s
  {
    if forall x :: x !in s {
      assert s == {};
    }
  }

  /** Attaching tells nothing but itself. */
  lemma AttachingFollows(j: seq<Fact>, f: Fact)
    requires f.Attached? || f.Refused?
    ensures Follows(j, j + [f], map[], [])
  {
    assert (j + [f])[|j|..] == [f] && [f][..0] == [];
    assert Cmds([f]) == [];
    forall id: nat
      ensures Outs([f], id) == []
    {
    }
    hide Cmds, Outs, Live;
  }

  // ------------------------------------------------------------------- the idle scan

  /** What the idle scan has done so far: only expired connections are closed. */
  ghost predicate Swept(s: Loop, t: Loop, limit: int) {
    && t.now == s.now
    && (forall fd :: fd in t.conns ==> fd in s.conns && t.conns[fd] == s.conns[fd])
    && (forall fd :: fd in s.conns && fd !in t.conns ==> Expired(s.touch, s.now, limit, s.conns[fd].id))
    && (forall id :: id in t.touch ==> id in s.touch && t.touch[id] == s.touch[id])
    && (forall fd :: fd in t.conns && t.conns[fd].id in s.touch ==> t.conns[fd].id in t.touch)
  }

  lemma SweepStep(s: Loop, t: Loop, limit: int)
    requires Swept(s, t, limit) && IdsOk(t) && AllLive(t.idle, t.conns)
    requires t.idle != [] && Expired(t.touch, t.now, limit, t.idle[0].id)
    ensures t.idle[0].fd in t.conns && t.conns[t.idle[0].fd].id == t.idle[0].id
    ensures Swept(s, AfterClose(t, t.idle[0].fd), limit)
  {
    hide Without;
    assert t.idle[0] in t.idle;
  }

  /** At the first fresh entry exactly the expired connections have been closed. */
  lemma SweepDone(s: Loop, t: Loop, limit: int)
    requires Swept(s, t, limit) && Ordered(t.idle, t.touch, t.now)
    requires t.idle != [] ==> !Expired(t.touch, t.now, limit, t.idle[0].id)
    ensures forall fd :: fd in s.conns ==> (fd !in t.conns <==> Expired(s.touch, s.now, limit, s.conns[fd].id))
    ensures forall fd :: fd in t.conns ==> fd in s.conns && t.conns[fd] == s.conns[fd]
  {
    FreshFirstMeansAllFresh(t.idle, t.touch, t.now, limit);
    hide Ordered;
    forall fd | fd in t.conns
      ensures !Expired(s.touch, s.now, limit, s.conns[fd].id)
    {
      assert !Expired(t.touch, t.now, limit, t.conns[fd].id);
    }
  }

  lemma SweepStarts(s: Loop, limit: int)
    ensures Swept(s, s, limit)
  {
  }

  /** Nothing changed but one connection, its place in the tables, and the idle list. */
  ghost predicate OnlyAbout(s: Loop, t: Loop, fd: int) {
    SameElsewhere(s, t, fd) && t.nextId == s.nextId && t.touch.Keys <= s.touch.Keys && t.cmdFlushSet <= s.cmdFlushSet
  }

  lemma OnlyAboutTwice(s: Loop, t: Loop, u: Loop, fd: int)
    requires OnlyAbout(s, t, fd) && OnlyAbout(t, u, fd)
    ensures OnlyAbout(s, u, fd)
  {
  }

  /** The handler answered `said` on one connection, which is still open or was closed after it. */
  ghost predicate HasRead(s: Loop, t: Loop, fd: int, said: seq<seq<byte>>) {
    && fd in s.conns && OnlyAbout(s, t, fd)
    && (fd in t.conns ==> Same(t.conns[fd], s.conns[fd]))
    && t.journal == s.journal + Hears(fd, s.conns[fd].id, said) + (if fd in t.conns then [] else [Closed(fd)])
  }

  lemma HasReadTwice(s: Loop, t: Loop, u: Loop, fd: int, said: seq<seq<byte>>, got: seq<seq<byte>>)
    requires fd in t.conns && HasRead(s, t, fd, said) && HasRead(t, u, fd, got)
    ensures HasRead(s, u, fd, said + got)
  {
    OnlyAboutTwice(s, t, u, fd);
    HearsMore(fd, s.conns[fd].id, said, got);
    hide OnlyAbout, Hears;
  }

  /** Nothing was said. */
  lemma HasReadNothing(s: Loop, t: Loop, fd: int)
    requires fd in s.conns && t.conns - {fd} == s.conns - {fd} && t.closeOnDrain == s.closeOnDrain
    requires t.nextId == s.nextId && t.touch.Keys == s.touch.Keys && t.journal == s.journal && t.cmdFlushSet == s.cmdFlushSet
    requires fd in t.conns && Same(t.conns[fd], s.conns[fd])
    ensures HasRead(s, t, fd, [])
  {
  }

  lemma ClosedUnread(s: Loop, t: Loop, fd: int)
    requires fd in s.conns && fd !in t.conns && OnlyAbout(s, t, fd) && t.journal == s.journal + [Closed(fd)]
    ensures HasRead(s, t, fd, [])
  {
    assert Hears(fd, s.conns[fd].id, []) == [];
  }

  /** One answer. */
  lemma HasReadOne(s: Loop, t: Loop, fd: int, out: seq<byte>)
    requires fd in s.conns && t.conns - {fd} == s.conns - {fd} && t.closeOnDrain == s.closeOnDrain
    requires t.nextId == s.nextId && t.touch == s.touch && t.journal == s.journal + [Heard(fd, s.conns[fd].id, out)]
    requires t.cmdFlushSet == s.cmdFlushSet
    requires fd in t.conns && Same(t.conns[fd], s.conns[fd])
    ensures HasRead(s, t, fd, [out])
  {
    HearsOne(fd, s.conns[fd].id, out);
  }

  // ------------------------------------------------------------ what the journal tells

  lemma SoundJournal(s: Loop)
    requires Sound(s, 0)
    ensures WellFormed(s.journal) && s.nextId == NextId(s.journal) && Live(s.journal).Keys == s.conns.Keys
  {
    hide WellFormed, NextId, Live, StreamOf, Ordered;
  }

  /** An ID that no connection in the table has is not live. */
  lemma NotLive(s: Loop, id: nat)
    requires Sound(s, 0) && forall fd :: fd in s.conns ==> s.conns[fd].id != id
    ensures id !in Live(s.journal).Values
  {
    hide WellFormed, NextId, StreamOf, Ordered, Live;
    forall fd | fd in Live(s.journal)
      ensures Live(s.journal)[fd] != id
    {
      assert fd in s.conns;
    }
  }

  lemma NewIdNotLive(s: Loop, t: Loop)
    requires Sound(s, 0) && Sound(t, 0) && t.conns == s.conns
    ensures s.nextId !in Live(t.journal).Values
  {
    hide Live;
    assert forall fd :: fd in s.conns ==> s.conns[fd].id != s.nextId by {
      hide Live, WellFormed, NextId, StreamOf, Ordered;
    }
    hide Sound;
    NotLive(t, s.nextId);
  }

  lemma ClosedIdNotLive(s: Loop, t: Loop, fd: int)
    requires Sound(s, 0) && Sound(t, 0) && fd in s.conns && fd !in t.conns && t.conns - {fd} == s.conns - {fd}
    ensures s.conns[fd].id !in Live(t.journal).Values
  {
    hide Live;
    forall other | other in t.conns
      ensures t.conns[other].id != s.conns[fd].id
    {
      hide WellFormed, NextId, StreamOf, Ordered;
      assert other in t.conns - {fd};
      assert other in s.conns && s.conns[other] == t.conns[other];
    }
    hide Sound;
    NotLive(t, s.conns[fd].id);
  }

  lemma FollowsQuiet(j: seq<Fact>, j1: seq<Fact>, j2: seq<Fact>, outs: map<nat, seq<seq<byte>>>, cmds: seq<Cmd>)
    requires Follows(j, j1, map[], []) && Follows(j1, j2, outs, cmds) && WellFormed(j2)
    ensures Follows(j, j2, outs, cmds)
  {
    FollowsThen(j, j1, j2, map[], outs, [], cmds);
    hide Follows;
    assert map[] + outs == outs && [] + cmds == cmds;
  }

  lemma FollowsThenQuiet(j: seq<Fact>, j1: seq<Fact>, j2: seq<Fact>, outs: map<nat, seq<seq<byte>>>, cmds: seq<Cmd>)
    requires Follows(j, j1, outs, cmds) && Follows(j1, j2, map[], []) && WellFormed(j2)
    requires forall id :: id in outs ==> id < NextId(j1)
    ensures Follows(j, j2, outs, cmds)
  {
    FollowsThen(j, j1, j2, outs, map[], cmds, []);
    hide Follows;
    assert outs + map[] == outs && cmds + [] == cmds;
  }

  lemma FollowsBoth(j: seq<Fact>, j1: seq<Fact>, j2: seq<Fact>, outs1: map<nat, seq<seq<byte>>>, outs2: map<nat, seq<seq<byte>>>)
    requires Follows(j, j1, outs1, []) && Follows(j1, j2, outs2, []) && WellFormed(j2)
    requires outs1.Keys !! outs2.Keys && forall id :: id in outs1 ==> id < NextId(j1)
    ensures Follows(j, j2, outs1 + outs2, [])
  {
    FollowsThen(j, j1, j2, outs1, outs2, [], []);
  }

  lemma CommandFollows(j: seq<Fact>, j1: seq<Fact>, j2: seq<Fact>, cmds: seq<Cmd>, cmd: Cmd)
    requires Follows(j, j1, map[], cmds) && Follows(j1, j2, map[], [cmd]) && WellFormed(j2)
    ensures Follows(j, j2, map[], cmds + [cmd])
  {
    var none: map<nat, seq<seq<byte>>> := map[];
    FollowsThen(j, j1, j2, none, none, cmds, [cmd]);
    hide Follows;
    assert none + none == none;
  }

  lemma HasReadMeans(s: Loop, t: Loop, fd: int, said: seq<seq<byte>>)
    requires HasRead(s, t, fd, said)
    ensures t.conns - {fd} == s.conns - {fd} && t.nextId == s.nextId && t.touch.Keys <= s.touch.Keys
    ensures fd in t.conns ==> Same(t.conns[fd], s.conns[fd])
    ensures t.cmdFlushSet <= s.cmdFlushSet && t.closeOnDrain <= s.closeOnDrain + {fd}
  {
    forall other | other in t.closeOnDrain && other != fd
      ensures other in s.closeOnDrain
    {
      assert other in t.closeOnDrain - {fd};
    }
  }

  lemma ReadFollows(s: Loop, t: Loop, fd: int, said: seq<seq<byte>>, all: seq<seq<byte>>)
    requires Sound(s, 0) && Sound(t, 0) && HasRead(s, t, fd, said) && said <= all && (fd in t.conns ==> said == all)
    ensures Follows(s.journal, t.journal, map[s.conns[fd].id := all], [])
  {
    hide Sound, Follows, Hears, Live;
    if fd !in t.conns {
      ClosedIdNotLive(s, t, fd);
    }
    AnsweringFollows(s.journal, fd, s.conns[fd].id, said, all, if fd in t.conns then [] else [Closed(fd)]);
  }

  lemma ReadKeepsMarks(s: Loop, t: Loop, fd: int, said: seq<seq<byte>>, asked: bool)
    requires HasRead(s, t, fd, said) && NewMark(s, t, fd, asked)
    ensures MarkedArePending(s) && fd !in s.closeOnDrain ==> MarkedArePending(t)
  {
    hide Hears;
    if MarkedArePending(s) && fd !in s.closeOnDrain {
      ElsewhereKeepsMarks(s, t, fd);
    }
  }

  /** Attaching, or failing to, tells nothing. */
  lemma StoreTells(j: seq<Fact>, s: Loop, t: Loop, fd: int, client: bool, kind: Kind, ok: bool)
    requires Follows(j, s.journal, map[], []) && Sound(t, 0)
    requires t == if ok then Stored(s, fd, client, kind) else Turned(s, fd)
    ensures Follows(j, t.journal, map[], [])
  {
    SoundJournal(t);
    hide Sound, Follows;
    AttachingFollows(s.journal, if ok then Attached(fd, s.nextId) else Refused(fd, s.nextId));
    FollowsQuiet(j, s.journal, t.journal, map[], []);
  }

  lemma AttachedMarks(s: Loop, fd: int, client: bool, kind: Kind)
    requires Sound(s, 0) && fd !in s.conns
    ensures fd !in s.closeOnDrain
    ensures MarkedArePending(s) ==> MarkedArePending(Stored(s, fd, client, kind)) && MarkedArePending(Turned(s, fd))
  {
    hide JournalOk, LogsOk, IdleOk, AllConserved, AllAttended;
  }

  /** Nothing is expected of a connection that is not read at once. */
  lemma NothingExpected(j: seq<Fact>, j': seq<Fact>, id: nat)
    requires Follows(j, j', map[], [])
    ensures Follows(j, j', map[id := []], [])
  {
    hide Live, Cmds, Outs;
    var none: map<nat, seq<seq<byte>>> := map[];
    forall other: nat
      ensures At(map[id := []], other) == At(none, other)
    {
    }
  }

  lemma MarksStay(s: Loop, t: Loop)
    requires t.conns == s.conns && t.closeOnDrain == s.closeOnDrain
    ensures MarkedArePending(s) ==> MarkedArePending(t)
  {
  }

  lemma ExpectsNone(accepted: seq<Accepted>, first: nat)
    ensures ExpectsAll(accepted[..0], first) == map[]
  {
  }

  lemma {:induction false} ExpectsOnly(accepted: seq<Accepted>, first: nat)
    ensures forall id :: id in ExpectsAll(accepted, first) ==> first <= id < first + |accepted|
  {
    if accepted != [] {
      ExpectsOnly(accepted[..|accepted| - 1], first);
    }
  }

  lemma ExpectsOneMore(accepted: seq<Accepted>, i: nat, first: nat)
    requires i < |accepted|
    ensures ExpectsAll(accepted[..i + 1], first) == ExpectsAll(accepted[..i], first) + map[first + i := Expects(accepted[i])]
    ensures forall id :: id in ExpectsAll(accepted[..i], first) ==> first <= id < first + i
  {
    assert accepted[..i + 1][..i] == accepted[..i];
    ExpectsOnly(accepted[..i], first);
  }

  lemma NothingMarked(s: Loop)
    requires Sound(s, 0) && s.conns == map[]
    ensures MarkedArePending(s) && s.closeOnDrain == {} && s.cmdFlushSet == {}
  {
    hide JournalOk, LogsOk, IdleOk, IdsOk, AllConserved, AllAttended;
  }

  // --------------------------------------------------------- marks, flush set, who is touched

  lemma AsksInRound(rounds: seq<Round>, i: nat)
    ensures AsksIn(RoundAt(rounds, i).packets) ==> Asks(rounds)
  {
    hide AsksIn;
    if i >= |rounds| {
      NobodyAsks();
    }
  }

  lemma NobodyAsks()
    ensures !AsksIn([])
  {
  }

  /** A new mark is that of a connection with output pending, whose handler asked for a close. */
  ghost predicate NewMark(s: Loop, t: Loop, fd: int, asked: bool) {
    fd in t.closeOnDrain && fd !in s.closeOnDrain ==> fd in t.conns && Pending(t.conns[fd]) > 0 && asked
  }

  lemma NoNewMark(s: Loop, t: Loop, fd: int, asked: bool)
    requires fd !in t.closeOnDrain
    ensures NewMark(s, t, fd, asked)
  {
  }

  lemma MarkedSince(s: Loop, t: Loop, u: Loop, fd: int, asked: bool, asks: bool)
    requires t.closeOnDrain == s.closeOnDrain && NewMark(t, u, fd, asked) && (asked ==> asks)
    ensures NewMark(s, u, fd, asks)
  {
  }

  lemma NotKnown(s: Loop, fd: int)
    requires Sound(s, 0) && fd !in s.conns
    ensures fd !in s.closeOnDrain && fd !in s.cmdFlushSet
  {
    hide JournalOk, LogsOk, IdleOk, IdsOk, AllConserved, AllAttended;
  }

  lemma FdsNext(accepted: seq<Accepted>, i: nat)
    requires i < |accepted|
    ensures Fds(accepted[..i + 1]) == Fds(accepted[..i]) + {accepted[i].fd}
    ensures Askers(accepted[..i + 1]) == Askers(accepted[..i]) + Asker(accepted[i])
  {
    assert accepted[..i + 1] == accepted[..i] + [accepted[i]];
    hide Asks;
  }

  ghost function Asker(a: Accepted): set<int> {
    if ReadsAtOnce(a) && Asks(a.rounds) then {a.fd} else {}
  }

  lemma NamedNext(cmds: seq<Cmd>, i: nat)
    requires i < |cmds|
    ensures Named(cmds[..i + 1]) == Named(cmds[..i]) + {cmds[i].fd}
    ensures Targets(cmds[..i + 1]) == Targets(cmds[..i]) + Target(cmds[i])
  {
    assert cmds[..i + 1] == cmds[..i] + [cmds[i]];
  }

  ghost function Target(cmd: Cmd): set<int> {
    if Submits(cmd) then {cmd.fd} else {}
  }

  /** No connection that was not there before. */
  ghost predicate SameOnes(before: map<int, Conn>, after: map<int, Conn>) {
    forall fd :: fd in after ==> fd in before && before[fd].id == after[fd].id
  }

  /** Only connections that were there before, or that have a new ID. */
  ghost predicate NoneRevived(before: map<int, Conn>, next: nat, after: map<int, Conn>) {
    forall fd :: fd in after ==> (fd in before && before[fd].id == after[fd].id) || after[fd].id >= next
  }

  lemma NobodyRevived(conns: map<int, Conn>, next: nat)
    ensures NoneRevived(conns, next, conns)
  {
  }

  lemma OneMoreAttached(before: map<int, Conn>, next: nat, now: map<int, Conn>, after: map<int, Conn>, fd: int)
    requires NoneRevived(before, next, now) && after - {fd} == now - {fd} && (fd in after ==> after[fd].id >= next)
    ensures NoneRevived(before, next, after)
  {
    forall other | other in after && other != fd
      ensures other in now && now[other] == after[other]
    {
      assert other in after - {fd};
    }
  }

  /** Every connection that had no input for longer than the limit is gone. */
  ghost predicate IdleAreGone(s: Loop, now: int, limit: int, after: map<int, Conn>) {
    forall fd :: fd in s.conns && s.conns[fd].id in s.touch && now - s.touch[s.conns[fd].id] > limit ==>
      !(fd in after && after[fd].id == s.conns[fd].id)
  }

  lemma IdleStayGone(s: Loop, now: int, later: int, limit: int, swept: map<int, Conn>, attached: map<int, Conn>, after: map<int, Conn>)
    requires Sound(s, 0) && now <= later && NoneRevived(swept, s.nextId, attached) && SameOnes(attached, after)
    requires forall fd :: fd in s.conns && Expired(s.touch, later, limit, s.conns[fd].id) ==> fd !in swept
    ensures IdleAreGone(s, now, limit, after)
  {
    hide KeysOk, JournalOk, LogsOk, IdleOk, AllConserved, AllAttended;
    forall fd | fd in s.conns && s.conns[fd].id in s.touch && now - s.touch[s.conns[fd].id] > limit
      ensures !(fd in after && after[fd].id == s.conns[fd].id)
    {
      assert Expired(s.touch, later, limit, s.conns[fd].id);
      assert s.conns[fd].id < s.nextId;
    }
  }

  lemma SameOnesTwice(a: map<int, Conn>, b: map<int, Conn>, c: map<int, Conn>)
    requires SameOnes(a, b) && SameOnes(b, c)
    ensures SameOnes(a, c)
  {
  }

  lemma StillTheSame(before: map<int, Conn>, after: map<int, Conn>, fd: int)
    requires Apart(before, after, {fd}) && fd in before && (fd in after ==> Same(after[fd], before[fd]))
    ensures SameOnes(before, after)
  {
    forall other | other in after && other != fd
      ensures other in before && before[other] == after[other]
    {
      assert other in after - {fd};
    }
  }

  lemma ObeyingCloses(cmds: seq<Cmd>, i: nat, limit: int, before: map<int, Conn>, after: map<int, Conn>)
    requires i < |cmds| && Obeys(cmds[i], limit, before, after) && before.Keys !! Closers(cmds[..i])
    ensures SameOnes(before, after) && after.Keys !! Closers(cmds[..i + 1])
  {
    assert cmds[..i + 1] == cmds[..i] + [cmds[i]];
    forall fd | fd in after
      ensures fd !in Closers(cmds[..i + 1])
    {
      assert fd in before && fd !in Closers(cmds[..i]);
      assert cmds[i].op == CmdClose ==> fd != cmds[i].fd;
    }
  }

  lemma NothingNamed(accepted: seq<Accepted>, cmds: seq<Cmd>)
    ensures Fds(accepted[..0]) == {} && Askers(accepted[..0]) == {} && Named(cmds[..0]) == {} && Targets(cmds[..0]) == {}
    ensures Closers(cmds[..0]) == {}
  {
  }

  lemma TargetsAreNamed(cmds: seq<Cmd>)
    ensures Targets(cmds) <= Named(cmds)
  {
  }

  lemma ApartAtOnce(conns: map<int, Conn>, fds: set<int>)
    ensures Apart(conns, conns, fds)
  {
  }

  /** Only watched connections expire. */
  lemma SweptApart(s: Loop, conns: map<int, Conn>, now: int, limit: int)
    requires forall fd :: fd in s.conns && fd !in conns ==> Expired(s.touch, now, limit, s.conns[fd].id)
    requires forall fd :: fd in conns ==> fd in s.conns && conns[fd] == s.conns[fd]
    ensures Apart(s.conns, conns, Watched(s))
  {
    var a, b := s.conns - Watched(s), conns - Watched(s);
    forall fd | fd in a
      ensures fd in b && a[fd] == b[fd]
    {
      assert s.conns[fd].id !in s.touch;
      assert fd in conns;
    }
    forall fd | fd in b
      ensures fd in a
    {
      assert conns[fd] == s.conns[fd];
    }
    assert a == b;
  }

  class LoopConn {
    var conns: map<int, Conn>        // the loop's part of the descriptor table
    var epoll: map<int, bool>        // registered descriptors; true if write events are wanted
    var writeFds: set<int>
    var closeOnDrain: set<int>
    var cmdFlushSet: set<int>
    var checkList: seq<Tracked>
    var touch: map<nat, int>         // touchMap
    var nowSec: int
    var lastCheck: int
    var nextId: nat                  // the ID generator never repeats itself
    const checkInterval: int
    const idleLimit: int
    const cliSbufLimit: int
    const maxFlush: int              // tuning.MaxFlushBytesPerEvent
    const maxCmdFlush: int           // tuning.MaxCmdFlushConnsPerEvent
    const tableSize: nat
    const poolMax: nat               // the largest buffer there is
    var socks: map<nat, seq<Answer>> // what the kernel does at the next writes to a connection, by ID

    ghost var gone: map<nat, seq<byte>>
    ghost var journal: seq<Fact>

    ghost function Now(): Loop
      reads this
    {
      Loop(conns, epoll, writeFds, closeOnDrain, cmdFlushSet, Tracking(), checkList, touch, nowSec, nextId, gone, journal)
    }

    function Sock(id: nat): seq<Answer>
      reads this`socks
    {
      ScriptOf(socks, id)
    }

    /** A connection whose socket never fails, with no more than `room` bytes queued. */
    ghost predicate Holds(fd: int, room: nat)
      reads this
    {
      fd in conns && conns[fd].kind != AsyncTls && NoFails(Sock(conns[fd].id)) && |conns[fd].queue| <= room
    }

    /** The connection may queue that much more. */
    ghost predicate Roomy(fd: int, more: nat)
      requires fd in conns
      reads this
    {
      WithinLimit(cliSbufLimit, conns[fd].kind, conns[fd].client, |conns[fd].queue| + more)
    }

    /** Everything is in order. */
    ghost predicate Inv()
      reads this
    {
      Sound(Now(), 0)
    }

    predicate Tracking() {
      checkInterval > 0 && idleLimit > 0
    }

    /** The interval between two scans for idle connections has passed. */
    predicate ScanIsDue()
      reads this
    {
      lastCheck != 0 && checkInterval > 0 && idleLimit > 0 && nowSec - lastCheck >= checkInterval
    }

    constructor (checkInterval: int, idleLimit: int, cliSbufLimit: int, maxFlush: int, maxCmdFlush: int, tableSize: nat,
                 poolMax: nat, socks: map<nat, seq<Answer>>)
      ensures Inv() && conns == map[] && journal == [] && MarkedArePending(Now())
      ensures this.checkInterval == checkInterval && this.idleLimit == idleLimit && this.cliSbufLimit == cliSbufLimit
      ensures this.maxFlush == maxFlush && this.maxCmdFlush == maxCmdFlush && this.tableSize == tableSize
      ensures this.poolMax == poolMax && this.socks == socks
    {
      conns, epoll, writeFds, closeOnDrain, cmdFlushSet := map[], map[], {}, {}, {};
      checkList, touch, nowSec, lastCheck, nextId := [], map[], 0, 0, 0;
      gone, journal := map[], [];
      this.checkInterval, this.idleLimit, this.cliSbufLimit := checkInterval, idleLimit, cliSbufLimit;
      this.maxFlush, this.maxCmdFlush, this.tableSize := maxFlush, maxCmdFlush, tableSize;
      this.poolMax, this.socks := poolMax, socks;
      new;
      EmptyIsSound(Tracking());
    }

    // ------------------------------------------------------------- primitives

    /** closeConn: the connection leaves every table. */
    method CloseConn(fd: int)
      requires Sound(Now(), fd) && fd in conns
      modifies this`conns, this`epoll, this`writeFds, this`closeOnDrain, this`cmdFlushSet, this`checkList, this`touch, this`journal
      ensures Inv() && Now() == AfterClose(old(Now()), fd)
      ensures fd !in conns && closeOnDrain == old(closeOnDrain) - {fd} && cmdFlushSet == old(cmdFlushSet) - {fd}
      ensures journal == old(journal) + [Closed(fd)] && OnlyAbout(old(Now()), Now(), fd)
    {
      hide Sound, Without;
      CloseKeepsSound(Now(), fd);
      NothingTracked(Now(), fd, conns[fd].id);
      ghost var s := Now();
      var id := conns[fd].id;
      closeOnDrain := closeOnDrain - {fd};
      if Tracking() {
        checkList := Without(checkList, id);
        touch := touch - {id};
      }
      epoll := epoll - {fd};
      writeFds := writeFds - {fd};
      cmdFlushSet := cmdFlushSet - {fd};
      conns := conns - {fd};
      journal := journal + [Closed(fd)];
      ClosingIsElsewhere(s, fd);
    }

    lemma NothingTracked(s: Loop, x: int, id: nat)
      requires Sound(s, x)
      ensures !s.tracking ==> Without(s.idle, id) == s.idle && s.touch - {id} == s.touch
    {
      if !s.tracking {
        assert s.touch.Keys == Ids([]);
      }
    }

    /** updateWriteFd: registers for write events exactly while output is pending. */
    method UpdateWriteFd(fd: int)
      requires Sound(Now(), fd) && fd in conns && Conserved(Now(), fd)
      modifies this`epoll, this`writeFds
      ensures Inv() && Now() == AfterInterest(old(Now()), fd) && (fd in writeFds <==> Pending(conns[fd]) > 0)
    {
      InterestKeepsSound(Now(), fd);
      hide Sound;
      var wantWrite := Pending(conns[fd]) > 0;
      var hasWrite := fd in writeFds;
      if wantWrite == hasWrite {
        return;
      }
      epoll := epoll[fd := wantWrite];
      if wantWrite {
        writeFds := writeFds + {fd};
      } else {
        writeFds := writeFds - {fd};
      }
    }

    // ------------------------------------------------------------------ output

    /** Flushes what the connection may. */
    method FlushN(c: Conn, plan: int) returns (c': Conn, n: nat, err: Errno)
      requires c.kind != AsyncTls ==> c.staged == 0
      modifies this`socks
      ensures c' == c.(queue := c'.queue, staged := c'.staged) && |c'.queue| <= |c.queue| && c'.queue == c.queue[|c.queue| - |c'.queue|..]
      ensures c.kind != AsyncTls ==> c'.staged == 0 && n == |c.queue| - |c'.queue| && (err != NoError ==> n == 0)
      ensures plan > 0 ==> n <= plan
      ensures n > 0 ==> |c'.queue| < |c.queue| || (c'.queue == c.queue && c'.staged < c.staged)
      ensures c.kind != AsyncTls ==> Answered(old(Sock(c.id)), Sock(c.id), |c.queue|, n, err)
      ensures forall id :: id != c.id ==> ScriptOf(socks, id) == ScriptOf(old(socks), id)
    {
      if c.kind != AsyncTls {
        var offer;
        offer, n, err := WriteSome(c.id, |c.queue|, plan);
        c' := c.(queue := c.queue[n..]);
        return;
      }
      c', n, err := c, 0, NoError;
      var k: nat :| k <= |c.queue|;
      if k > 0 {
        n :| plan > 0 ==> n <= plan;
        var staged: nat := *;
        c' := c.(queue := c.queue[k..], staged := staged);
      } else {
        n :| n <= c.staged && (plan > 0 ==> n <= plan);
        c' := c.(staged := c.staged - n);
      }
      if * {
        err := EAGAIN;
      } else if * {
        err := OtherError;
      }
    }

    /** Offers some of `size` bytes, within the budget, to the socket of a connection. */
    method WriteSome(id: nat, size: nat, plan: int) returns (offer: nat, n: nat, err: Errno)
      modifies this`socks
      ensures n <= offer <= size && (plan > 0 ==> offer <= plan) && (err != NoError ==> n == 0)
      ensures Answered(ScriptOf(old(socks), id), ScriptOf(socks, id), size, n, err)
      ensures forall other :: other != id ==> ScriptOf(socks, other) == ScriptOf(old(socks), other)
    {
      offer, n, err := 0, 0, NoError;
      if size == 0 {
        return;
      }
      var script := Sock(id);
      if script == [] {
        err := EAGAIN;
        return;
      }
      assert 0 < 1 <= size;
      offer :| 0 < offer <= size && (plan > 0 ==> offer <= plan);
      socks := socks[id := script[1..]];
      match script[0] {
        case Blocks => err := EAGAIN;
        case Fails => err := OtherError;
        case Takes(k) => n := Min(k, offer);
      }
    }

    lemma FlushedBy(s: Loop, fd: int, d: Conn)
      requires fd in s.conns && s.conns[fd].id in s.gone && Same(d, s.conns[fd]) && (d.kind != AsyncTls ==> d.staged == 0)
      requires |d.queue| <= |s.conns[fd].queue| && d.queue == s.conns[fd].queue[|s.conns[fd].queue| - |d.queue|..]
      ensures var c := s.conns[fd];
              var moved := c.queue[..|c.queue| - |d.queue|];
              Flushed(s, fd, s.(conns := s.conns[fd := d], gone := s.gone[c.id := s.gone[c.id] + moved]))
    {
    }

    /** A flush of the connection in the table, after others since `s`. */
    method FlushConn(fd: int, ghost s: Loop) returns (n: nat, err: Errno)
      requires fd in conns && conns[fd].id in gone && (conns[fd].kind != AsyncTls ==> conns[fd].staged == 0)
      requires Flushed(s, fd, Now())
      modifies this`conns, this`gone, this`socks
      ensures Flushed(s, fd, Now())
      ensures conns[fd].kind != AsyncTls ==>
                Answered(old(Sock(conns[fd].id)), Sock(conns[fd].id), old(|conns[fd].queue|), n, err)
      ensures forall id :: id != conns[fd].id ==> ScriptOf(socks, id) == ScriptOf(old(socks), id)
      ensures fd in conns && Same(conns[fd], old(conns[fd])) && conns[fd].id in gone && (conns[fd].kind != AsyncTls ==> conns[fd].staged == 0)
      ensures conns[fd].kind != AsyncTls ==> n == |old(conns[fd].queue)| - |conns[fd].queue| && (err != NoError ==> n == 0)
      ensures maxFlush > 0 ==> n <= maxFlush
      ensures n > 0 ==> |conns[fd].queue| < |old(conns[fd].queue)|
                        || (conns[fd].queue == old(conns[fd].queue) && conns[fd].staged < old(conns[fd].staged))
    {
      hide Flushed, Answered;
      var c', c := conns[fd], conns[fd];
      c', n, err := FlushN(c, maxFlush);
      ghost var moved := c.queue[..|c.queue| - |c'.queue|];
      FlushedBy(Now(), fd, c');
      ghost var t := Now();
      conns := conns[fd := c'];
      gone := gone[c.id := gone[c.id] + moved];
      FlushedTwice(s, fd, t, Now());
    }

    /** drainWrite */
    method DrainWrite(fd: int) returns (total: nat, err: Errno)
      requires Sound(Now(), fd) && fd in conns && Conserved(Now(), fd)
      modifies this`conns, this`gone, this`socks
      ensures Drained(old(Now()), fd, maxFlush, Now(), total)
      ensures fd in conns && Same(conns[fd], old(conns[fd])) && Sound(Now(), fd) && Conserved(Now(), fd)
      ensures DrainsHonestly(old(conns[fd]), old(Sock(conns[fd].id)), conns[fd], Sock(conns[fd].id), maxFlush, total, err)
      ensures forall id :: id != conns[fd].id ==> ScriptOf(socks, id) == ScriptOf(old(socks), id)
    {
      SoundMeans(Now(), fd, fd);
      hide Sound, Conserved, Flushed, Answered, Draining, DrainsHonestly;
      ghost var s := Now();
      ghost var c, script := conns[fd], Sock(conns[fd].id);
      FlushedNothing(s, fd);
      total, err := 0, NoError;
      var more := Pending(conns[fd]) > 0;
      DrainBegins(c, script, maxFlush, more);
      while more
        invariant Flushed(s, fd, Now()) && fd in conns && Same(conns[fd], c) && c.id in gone
        invariant c.kind != AsyncTls ==> conns[fd].staged == 0 && total == |c.queue| - |conns[fd].queue|
        invariant maxFlush > 0 ==> if more then total < maxFlush else total < 2 * maxFlush
        invariant Draining(c, script, conns[fd], Sock(c.id), maxFlush, total, err, more)
        invariant forall id :: id != c.id ==> ScriptOf(socks, id) == ScriptOf(old(socks), id)
        decreases more, |conns[fd].queue|, conns[fd].staged
      {
        var n;
        ghost var d, before, was := conns[fd], Sock(c.id), err;
        n, err := FlushConn(fd, s);
        more := err == NoError && !(n <= 0 || (total + n >= maxFlush && maxFlush > 0));
        DrainContinues(c, script, d, before, conns[fd], Sock(c.id), maxFlush, total, was, n, err, more);
        if err == NoError {
          total := total + n;
        }
      }
      DrainEnds(c, script, conns[fd], Sock(c.id), maxFlush, total, err);
      FlushKeepsSound(s, fd, Now());
    }

    /**
     emitOutput: written at once when nothing is pending, queued otherwise or for the rest.
     After an error at most a prefix has left, and the caller closes the connection.
     */
    method EmitOutput(fd: int, out: seq<byte>) returns (err: Errno)
      requires Sound(Now(), fd) && fd in conns && Conserved(Now(), fd)
      modifies this`conns, this`gone, this`journal, this`socks
      ensures Emitted(old(Now()), fd, out, Now(), err) && GoneGrows(old(gone), gone)
      ensures old(conns[fd].id in gone) && old(conns[fd].id) in gone
      ensures EmitsHonestly(old(conns[fd]), old(Sock(conns[fd].id)), conns[fd], Sock(old(conns[fd].id)),
                            old(gone[conns[fd].id]), gone[old(conns[fd].id)], out, err, poolMax)
      ensures fd in conns && Same(conns[fd], old(conns[fd])) && Sound(Now(), fd) && (err == NoError ==> Conserved(Now(), fd))
      ensures conns - {fd} == old(conns) - {fd} && journal == old(journal) + [Heard(fd, conns[fd].id, out)]
    {
      hide Sound, Conserved, Emitted, NoFails, Shifted, GoneGrows, Same, WellFormed, NextId, Live;
      SoundMeans(Now(), fd, fd);
      SameMeans(conns[fd]);
      ghost var s := Now();
      var c := conns[fd];
      OneGrows(gone, c.id);
      var n, staged;
      n, staged, err := TryWrite(c, out);
      var queue := if err == NoError then c.queue + out[n..] else c.queue;
      EmittedBy(s, fd, n, staged, out, err);
      Put(fd, queue, staged, out[..n], out);
      EmitKeepsSound(s, fd, out, Now(), err);
    }

    lemma SameMeans(c: Conn)
      ensures forall d :: Same(d, c) ==> d.id == c.id && d.kind == c.kind && d.client == c.client
    {
    }

    /** The direct write of emitOutput: how much went out at once, and whether the rest can be queued. */
    method TryWrite(c: Conn, out: seq<byte>) returns (n: nat, staged: nat, err: Errno)
      requires c.kind != AsyncTls ==> c.staged == 0
      modifies this`socks
      ensures n <= |out| && (Pending(c) > 0 ==> n == 0) && (c.kind != AsyncTls ==> staged == 0)
      ensures c.kind == AsyncTls && 0 < n < |out| ==> err != NoError
      ensures out == [] ==> err == NoError && staged == c.staged
      ensures c.kind != AsyncTls && NoFails(old(Sock(c.id))) && |out| <= poolMax ==> err == NoError && NoFails(Sock(c.id))
      ensures var script := old(Sock(c.id));
              c.kind != AsyncTls && Pending(c) == 0 && out != [] && script != [] && script[0].Takes? ==> n == Min(script[0].n, |out|)
    {
      n, staged, err := 0, c.staged, NoError;
      if |out| == 0 {
        return;
      }
      if Pending(c) == 0 {
        var script := Sock(c.id);
        if c.kind == AsyncTls {
          if * {
            err := OtherError;
            return;
          } else if * {
            // EAGAIN: nothing was written
          } else {
            n :| n <= |out|;
            staged := *;
          }
        } else if script != [] {
          socks := socks[c.id := script[1..]];
          match script[0] {
            case Blocks =>
            case Fails =>
              err := OtherError;
              return;
            case Takes(k) =>
              n := Min(k, |out|);
          }
        }
        if n == |out| {
          return;
        }
        if c.kind == AsyncTls && n > 0 {
          err := OtherError;   // the TLS engine failed half way
          return;
        }
      }
      if |out| - n > poolMax {
        err := ENOMEM;
      }
    }

    method Put(fd: int, queue: seq<byte>, staged: nat, ghost moved: seq<byte>, ghost out: seq<byte>)
      requires fd in conns && conns[fd].id in gone
      modifies this`conns, this`gone, this`journal
      ensures Now() == Shifted(old(Now()), fd, queue, staged, moved, old(journal) + [Heard(fd, old(conns[fd].id), out)])
      ensures fd in conns && Same(conns[fd], old(conns[fd])) && conns - {fd} == old(conns) - {fd}
      ensures journal == old(journal) + [Heard(fd, conns[fd].id, out)]
      ensures conns[fd].queue == queue && gone == old(gone)[conns[fd].id := old(gone)[conns[fd].id] + moved]
    {
      var c := conns[fd];
      conns := conns[fd := c.(queue := queue, staged := staged)];
      gone := gone[c.id := gone[c.id] + moved];
      journal := journal + [Heard(fd, c.id, out)];
    }

    lemma EmittedBy(s: Loop, fd: int, n: nat, staged: nat, out: seq<byte>, err: Errno)
      requires fd in s.conns && s.conns[fd].id in s.gone && n <= |out|
      requires (Pending(s.conns[fd]) > 0 ==> n == 0) && (s.conns[fd].kind != AsyncTls ==> staged == 0)
      ensures var c := s.conns[fd];
              var queue := if err == NoError then c.queue + out[n..] else c.queue;
              Emitted(s, fd, out, Shifted(s, fd, queue, staged, out[..n], s.journal + [Heard(fd, c.id, out)]), err)
    {
      var c := s.conns[fd];
      Rejoined(c.queue, out, n);
      MovedBack(s.gone[c.id], out[..n]);
    }

    /** processSend: a write event. */
    method ProcessSend(fd: int) returns (ghost drained: Loop, ghost total: nat, err: Errno)
      requires Inv() && fd in conns
      modifies this
      ensures Inv() && HasSent(old(Now()), drained, Now(), fd, maxFlush, total, err) && old(conns[fd].id in gone)
      ensures Served(old(Now()), old(Sock(conns[fd].id)), Now(), Sock(old(conns[fd].id)), fd, maxFlush)
    {
      hide Sound, Conserved, Attended, Drained, HasSent, DrainsHonestly, Served, AfterSend, Same, WellFormed, NextId, Live;
      ghost var s := Now();
      WorkOn(s, fd);
      SoundMeans(s, 0, fd);
      SameMeans(conns[fd]);
      var n;
      ghost var script := Sock(conns[fd].id);
      n, err := DrainWrite(fd);
      drained, total := Now(), n;
      SendServes(s, script, drained, Sock(conns[fd].id), fd, maxFlush, total, err);
      SettleSend(fd, err);
    }

    /** processSend, behind its drain. */
    method SettleSend(fd: int, err: Errno)
      requires Sound(Now(), fd) && fd in conns && Conserved(Now(), fd)
      modifies this`conns, this`epoll, this`writeFds, this`closeOnDrain, this`cmdFlushSet, this`checkList, this`touch, this`journal
      ensures Inv() && Now() == AfterSend(old(Now()), fd, err)
    {
      hide Sound, AfterClose, AfterInterest;
      if err != NoError && err != EAGAIN {
        CloseConn(fd);
        return;
      }
      if Pending(conns[fd]) == 0 && fd in closeOnDrain {
        CloseConn(fd);
        return;
      }
      UpdateWriteFd(fd);
    }

    lemma DrainedMeans(s: Loop, fd: int, plan: int, t: Loop, total: nat)
      requires Drained(s, fd, plan, t, total)
      ensures t == s.(conns := t.conns, gone := t.gone) && SameElsewhere(s, t, fd) && fd in t.conns
      ensures MarkedBut(s, fd) ==> MarkedBut(t, fd)
    {
      DrainedElsewhere(s, fd, plan, t, total);
    }

    lemma SendServes(s: Loop, script: seq<Answer>, drained: Loop, script': seq<Answer>, fd: int, plan: int, total: nat, err: Errno)
      requires fd in s.conns && s.conns[fd].id in s.gone && Drained(s, fd, plan, drained, total)
      requires DrainsHonestly(s.conns[fd], script, drained.conns[fd], script', plan, total, err)
      ensures fd in drained.conns
      ensures var t := AfterSend(drained, fd, err); HasSent(s, drained, t, fd, plan, total, err) && Served(s, script, t, script', fd, plan)
    {
      DrainGrows(s, fd, plan, drained, total);
      DrainedMeans(s, fd, plan, drained, total);
      SendMeans(drained, fd, err);
      assert Same(drained.conns[fd], s.conns[fd]);
      hide GoneGrows, AfterSend, NoFails, Willing, Advanced, MarkedBut, MarkedArePending;
      var d := drained.conns[fd];
      if s.conns[fd].kind != AsyncTls && (d.queue == [] || (plan > 0 && total >= plan)) {
        DrainAdvances(s, fd, plan, drained, total);
      }
      hide Drained;
    }

    /** What a write event leaves behind. */
    lemma SendMeans(s: Loop, fd: int, err: Errno)
      requires fd in s.conns
      ensures var t := AfterSend(s, fd, err);
              && SameElsewhere(s, t, fd) && (fd in t.conns ==> t.conns == s.conns)
              && t.journal == s.journal + (if fd in t.conns then [] else [Closed(fd)])
              && t.nextId == s.nextId && t.cmdFlushSet <= s.cmdFlushSet && t.closeOnDrain <= s.closeOnDrain && t.gone == s.gone
              && (fd in t.conns <==> (err == NoError || err == EAGAIN) && !(fd in s.closeOnDrain && Pending(s.conns[fd]) == 0))
              && (MarkedBut(s, fd) ==> MarkedArePending(t))
    {
      ClosingIsElsewhere(s, fd);
      assert s.journal + [] == s.journal;
      if MarkedBut(s, fd) {
        SendKeepsMarks(s, fd, err);
      }
      hide Without;
    }

    // ---------------------------------------------------------------- commands

    /** consumeCmd: data goes by descriptor and ID, a close by the descriptor alone. */
    method ConsumeCmd(cmd: Cmd)
      requires Inv()
      modifies this
      ensures Inv() && Now() == AfterConsume(old(Now()), cliSbufLimit, cmd) && nextId == old(nextId)
      ensures Follows(old(journal), journal, map[], [cmd])
      ensures Obeys(cmd, cliSbufLimit, old(conns), conns)
      ensures cmd.op == CmdData && |cmd.data| > 0 && cmd.fd in conns && conns[cmd.fd].id == cmd.id ==> cmd.fd in cmdFlushSet
      ensures Apart(old(conns), conns, {cmd.fd}) && closeOnDrain <= old(closeOnDrain) && cmdFlushSet <= old(cmdFlushSet) + Target(cmd)
      ensures old(MarkedArePending(Now())) ==> MarkedArePending(Now())
    {
      hide Sound, Without, AfterClose, Follows, MarkedArePending, Commanded, Apart, Obeys;
      ghost var s := Now();
      CommandsAreObeyed(s, cliSbufLimit, cmd);
      NamesItsOwn(s, cliSbufLimit, cmd);
      ConsumeKeepsSound(s, cliSbufLimit, cmd);
      ConsumeMeans(s, cliSbufLimit, cmd);
      var fd := cmd.fd;
      if fd !in conns {
        journal := journal + [Consumed(cmd)];
        return;
      }
      if cmd.op == CmdData {
        if conns[fd].id != cmd.id || |cmd.data| == 0 {
          journal := journal + [Consumed(cmd)];
          return;
        }
        EnqueueData(cmd);
        if TooMuchPending(cliSbufLimit, conns[fd]) {
          CloseConn(fd);
        }
        return;
      }
      journal := journal + [Consumed(cmd)];
      if cmd.op == CmdClose {
        FactKeepsSound(s, cmd, 0);
        WorkOn(Now(), fd);
        CloseConn(fd);
      }
    }

    /** The data of a command is queued, and its connection is to be flushed. */
    method EnqueueData(cmd: Cmd)
      requires Inv() && cmd.fd in conns && conns[cmd.fd].id == cmd.id && cmd.op == CmdData && cmd.data != []
      modifies this`conns, this`cmdFlushSet, this`journal
      ensures cmd.fd in conns && Now() == Commanded(old(Now()), cmd) && Sound(Now(), cmd.fd)
    {
      hide Sound;
      CommandKeepsSound(Now(), cmd);
      var c := conns[cmd.fd];
      conns := conns[cmd.fd := c.(queue := c.queue + cmd.data)];
      cmdFlushSet := cmdFlushSet + {cmd.fd};
      journal := journal + [Consumed(cmd)];
      WorkOn(Now(), cmd.fd);
    }

    /** What a command leaves behind. */
    lemma ConsumeMeans(s: Loop, limit: int, cmd: Cmd)
      ensures var t := AfterConsume(s, limit, cmd);
              && t.nextId == s.nextId && Follows(s.journal, t.journal, map[], [cmd])
              && Apart(s.conns, t.conns, {cmd.fd}) && t.closeOnDrain <= s.closeOnDrain && t.cmdFlushSet <= s.cmdFlushSet + Target(cmd)
              && (MarkedArePending(s) ==> MarkedArePending(t))
    {
      hide Follows;
      ConsumeTouches(s, limit, cmd);
      var fs := ConsumeNotes(s, limit, cmd);
      ConsumingFollows(s.journal, cmd, fs);
      hide AfterConsume, MarkedArePending;
      if MarkedArePending(s) {
        ConsumeKeepsMarks(s, limit, cmd);
      }
    }

    lemma NamesItsOwn(s: Loop, limit: int, cmd: Cmd)
      ensures var t := AfterConsume(s, limit, cmd);
              cmd.op == CmdData && cmd.fd in t.conns ==> cmd.fd in s.conns && t.conns[cmd.fd].id == s.conns[cmd.fd].id
    {
      hide Without;
    }

    lemma ConsumeTouches(s: Loop, limit: int, cmd: Cmd)
      ensures var t := AfterConsume(s, limit, cmd);
              Apart(s.conns, t.conns, {cmd.fd}) && t.closeOnDrain <= s.closeOnDrain && t.cmdFlushSet <= s.cmdFlushSet + Target(cmd)
    {
      hide Without;
      var noted := s.(journal := s.journal + [Consumed(cmd)]);
      ApartAtOnce(s.conns, {cmd.fd});
      if cmd.fd in s.conns {
        CloseTouches(s, noted, cmd.fd);
        var t := Commanded(s, cmd);
        assert Apart(s.conns, t.conns, {cmd.fd});
        CloseTouches(s, t, cmd.fd);
        hide AfterClose;
      }
      hide Apart;
    }

    lemma CloseTouches(s: Loop, t: Loop, fd: int)
      requires fd in t.conns && Apart(s.conns, t.conns, {fd})
      ensures var u := AfterClose(t, fd);
              Apart(s.conns, u.conns, {fd}) && u.closeOnDrain <= t.closeOnDrain && u.cmdFlushSet == t.cmdFlushSet - {fd}
    {
      hide Without;
      assert (t.conns - {fd}) - {fd} == t.conns - {fd};
    }

    lemma ConsumeNotes(s: Loop, limit: int, cmd: Cmd) returns (fs: seq<Fact>)
      ensures var t := AfterConsume(s, limit, cmd);
              t.nextId == s.nextId && t.journal == s.journal + [Consumed(cmd)] + fs && OnlyClosed(fs)
    {
      hide Without;
      var j := s.journal + [Consumed(cmd)];
      assert j + [] == j;
      fs := if cmd.fd in s.conns && cmd.fd !in AfterConsume(s, limit, cmd).conns then [Closed(cmd.fd)] else [];
    }

    /** The flush loop, for one connection. */
    method FlushOne(fd: int) returns (ghost drained: Loop, ghost total: nat, err: Errno)
      requires Inv() && fd in cmdFlushSet
      modifies this
      ensures Inv() && HasFlushed(old(Now()), drained, Now(), fd, maxFlush, total, cliSbufLimit, err)
      ensures fd in old(conns) && old(conns[fd].id) in old(gone)
      ensures FlushServed(old(Now()), old(Sock(conns[fd].id)), Now(), fd, maxFlush, cliSbufLimit)
      ensures forall id :: id != old(conns[fd].id) ==> ScriptOf(socks, id) == ScriptOf(old(socks), id)
    {
      hide Sound, Conserved, Attended, Drained, HasFlushed, DrainsHonestly, FlushServed, AfterFlush, Same, WellFormed, NextId, Live;
      ghost var s := Now();
      WorkOn(s, fd);
      LeaveKeepsSound(s, fd);
      SoundMeans(s, 0, fd);
      SameMeans(conns[fd]);
      ghost var script := Sock(conns[fd].id);
      cmdFlushSet := cmdFlushSet - {fd};
      var n;
      n, err := DrainWrite(fd);
      drained, total := Now(), n;
      FlushLeaves(s, drained, fd, maxFlush, total, cliSbufLimit, err);
      FlushServes(s, script, drained, Sock(conns[fd].id), fd, maxFlush, total, cliSbufLimit, err);
      SettleFlush(fd, err);
    }

    /** The flush loop for one connection, behind its drain. */
    method SettleFlush(fd: int, err: Errno)
      requires Sound(Now(), fd) && fd in conns && Conserved(Now(), fd)
      modifies this`conns, this`epoll, this`writeFds, this`closeOnDrain, this`cmdFlushSet, this`checkList, this`touch, this`journal
      ensures Inv() && Now() == AfterFlush(old(Now()), fd, cliSbufLimit, err)
    {
      hide Sound, AfterClose, AfterInterest;
      if err != NoError && err != EAGAIN {
        CloseConn(fd);
        return;
      }
      if TooMuchPending(cliSbufLimit, conns[fd]) {
        CloseConn(fd);
        return;
      }
      UpdateWriteFd(fd);
    }

    /** What the flush of one connection leaves behind, from the state before it. */
    lemma FlushLeaves(s: Loop, drained: Loop, fd: int, plan: int, total: nat, limit: int, err: Errno)
      requires fd in s.conns && fd in drained.conns && Drained(s.(cmdFlushSet := s.cmdFlushSet - {fd}), fd, plan, drained, total)
      ensures HasFlushed(s, drained, AfterFlush(drained, fd, limit, err), fd, plan, total, limit, err)
    {
      var left := s.(cmdFlushSet := s.cmdFlushSet - {fd});
      DrainedMeans(left, fd, plan, drained, total);
      DrainGrows(left, fd, plan, drained, total);
      FlushMeans(drained, fd, limit, err);
      LimitExactly(limit, drained.conns[fd]);
      MarksOnly(s, left, fd);
      FlushStays(drained, fd, limit, err);
      assert Same(drained.conns[fd], s.conns[fd]);
      hide Drained, AfterFlush, MarkedBut, MarkedArePending, GoneGrows;
    }

    lemma FlushStays(s: Loop, fd: int, limit: int, err: Errno)
      requires fd in s.conns
      ensures var t := AfterFlush(s, fd, limit, err);
              && (fd in t.conns <==> !((err != NoError && err != EAGAIN) || TooMuchPending(limit, s.conns[fd])))
              && (fd in t.conns ==> t.conns == s.conns) && t.gone == s.gone
    {
      hide Without;
    }

    lemma FlushServes(s: Loop, script: seq<Answer>, drained: Loop, script': seq<Answer>, fd: int, plan: int, total: nat, limit: int, err: Errno)
      requires fd in s.conns && s.conns[fd].id in s.gone && Drained(s.(cmdFlushSet := s.cmdFlushSet - {fd}), fd, plan, drained, total)
      requires DrainsHonestly(s.conns[fd], script, drained.conns[fd], script', plan, total, err)
      ensures fd in drained.conns
      ensures FlushServed(s, script, AfterFlush(drained, fd, limit, err), fd, plan, limit)
    {
      var left := s.(cmdFlushSet := s.cmdFlushSet - {fd});
      DrainGrows(left, fd, plan, drained, total);
      FlushStays(drained, fd, limit, err);
      LimitExactly(limit, drained.conns[fd]);
      var c, d := s.conns[fd], drained.conns[fd];
      assert Same(d, c);
      if c.kind != AsyncTls && (d.queue == [] || (plan > 0 && total >= plan)) {
        DrainAdvances(left, fd, plan, drained, total);
      }
      hide Drained, GoneGrows, AfterFlush, NoFails, Willing, Advanced;
      if c.kind != AsyncTls && WithinLimit(limit, c.kind, c.client, |c.queue|) {
        LessIsWithin(limit, c.kind, c.client, |c.queue|, |d.queue|);
      }
    }

    lemma MarksOnly(s: Loop, t: Loop, fd: int)
      requires t.conns == s.conns && t.closeOnDrain == s.closeOnDrain
      ensures SameElsewhere(s, t, fd) && (MarkedBut(s, fd) ==> MarkedBut(t, fd))
    {
    }

    /** What the flush of one connection leaves behind. */
    lemma FlushMeans(s: Loop, fd: int, limit: int, err: Errno)
      requires fd in s.conns && fd !in s.cmdFlushSet
      ensures var t := AfterFlush(s, fd, limit, err);
              && SameElsewhere(s, t, fd) && t.closeOnDrain <= s.closeOnDrain
              && t.journal == s.journal + (if fd in t.conns then [] else [Closed(fd)])
              && t.nextId == s.nextId && t.cmdFlushSet == s.cmdFlushSet
              && (MarkedBut(s, fd) && fd !in s.closeOnDrain ==> MarkedArePending(t))
    {
      ClosingIsElsewhere(s, fd);
      assert s.journal + [] == s.journal && s.cmdFlushSet - {fd} == s.cmdFlushSet;
      if MarkedBut(s, fd) {
        FlushKeepsMarksExactly(s, fd, limit, err);
      }
      hide Without;
    }

    /** The flush loop of processCmd: any order, up to the budget. */
    method FlushCommands() returns (flushed: nat)
      requires Inv()
      modifies this
      ensures Inv() && nextId == old(nextId) && Follows(old(journal), journal, map[], [])
      ensures cmdFlushSet <= old(cmdFlushSet) && flushed <= |old(cmdFlushSet)| - |cmdFlushSet|
      ensures cmdFlushSet == {} || (maxCmdFlush > 0 && flushed == maxCmdFlush)
      ensures maxCmdFlush > 0 ==> flushed <= maxCmdFlush
      ensures closeOnDrain <= old(closeOnDrain) && Apart(old(conns), conns, old(cmdFlushSet)) && SameOnes(old(conns), conns)
      ensures forall fd :: fd in old(cmdFlushSet) - cmdFlushSet ==> HadItsTurn(old(Now()), old(socks), Now(), fd, maxFlush, cliSbufLimit)
      ensures old(MarkedArePending(Now()) && cmdFlushSet * closeOnDrain == {}) ==> MarkedArePending(Now())
    {
      hide Sound, Drained, AfterFlush, MarkedBut, MarkedArePending, SameElsewhere, Follows, Apart, FlushServed, HadItsTurn, Waits, GoneGrows;
      hide SameOnes;
      ApartAtOnce(conns, cmdFlushSet);
      SameOnesAtOnce(conns);
      flushed := 0;
      assert old(journal) + [] == old(journal);
      ghost var s, socks0 := Now(), socks;
      ghost var closed: seq<Fact> := [];
      ghost var done: set<int> := {};
      ghost var safe := MarkedArePending(Now()) && cmdFlushSet * closeOnDrain == {};
      AllWait(s, socks0);
      while cmdFlushSet != {}
        invariant Inv() && nextId == old(nextId) && journal == old(journal) + closed && OnlyClosed(closed)
        invariant cmdFlushSet <= s.cmdFlushSet && flushed <= |s.cmdFlushSet| - |cmdFlushSet| && done == s.cmdFlushSet - cmdFlushSet
        invariant maxCmdFlush > 0 ==> flushed <= maxCmdFlush
        invariant closeOnDrain <= s.closeOnDrain && Apart(s.conns, conns, s.cmdFlushSet) && SameOnes(s.conns, conns)
        invariant forall fd :: fd in done ==> HadItsTurn(s, socks0, Now(), fd, maxFlush, cliSbufLimit)
        invariant forall fd :: fd in cmdFlushSet ==> Waits(s, socks0, Now(), socks, fd)
        invariant safe ==> MarkedArePending(Now()) && cmdFlushSet * closeOnDrain == {}
        decreases |cmdFlushSet|
      {
        if maxCmdFlush > 0 && flushed >= maxCmdFlush {
          break;
        }
        SomeMember(cmdFlushSet);
        var fd :| fd in cmdFlushSet;
        MarksBut(Now(), fd);
        ghost var t, socks1 := Now(), socks;
        ghost var drained, total;
        var err;
        drained, total, err := FlushOne(fd);
        FlushedAlone(t, drained, Now(), fd, maxFlush, total, cliSbufLimit, err);
        TakesItsTurn(s, socks0, t, socks1, Now(), socks, fd, done, maxFlush, cliSbufLimit);
        done := done + {fd};
        ApartThen(s.conns, t.conns, conns, s.cmdFlushSet, {fd});
        StillTheSame(t.conns, conns, fd);
        SameOnesTwice(s.conns, t.conns, conns);
        assert s.cmdFlushSet + {fd} == s.cmdFlushSet;
        assert |cmdFlushSet| == |t.cmdFlushSet| - 1;
        if fd in conns {
          flushed := flushed + 1;
        } else {
          closed := closed + [Closed(fd)];
        }
      }
      ClosingFollows(old(journal), closed);
    }

    lemma SameOnesAtOnce(conns: map<int, Conn>)
      ensures SameOnes(conns, conns)
    {
    }

    lemma AllWait(s: Loop, socks: map<nat, seq<Answer>>)
      requires Sound(s, 0)
      ensures forall fd :: fd in s.cmdFlushSet ==> Waits(s, socks, s, socks, fd)
    {
      hide JournalOk, IdleOk, IdsOk, AllConserved, AllAttended, StreamOf;
    }

    lemma MarksBut(s: Loop, fd: int)
      ensures MarkedArePending(s) ==> MarkedBut(s, fd)
    {
    }

    // -------------------------------------------------------------------- input

    /** The clock may have been advanced by another goroutine. */
    method LoadNow(ghost x: int) returns (t: int)
      requires Sound(Now(), x)
      modifies this`nowSec
      ensures nowSec >= old(nowSec) && t == nowSec && Sound(Now(), x) && (old(Conserved(Now(), x)) ==> Conserved(Now(), x))
    {
      hide Sound, Conserved;
      var elapsed: nat :| elapsed >= 0;
      ClockKeepsSound(Now(), nowSec + elapsed, x);
      nowSec := nowSec + elapsed;
      t := nowSec;
    }

    /** Input on a tracked connection moves it to the back of the idle list. */
    method Touch(fd: int)
      requires Sound(Now(), fd) && fd in conns && Conserved(Now(), fd)
      modifies this`checkList, this`touch, this`nowSec
      ensures Sound(Now(), fd) && Conserved(Now(), fd)
      ensures Tracking() && old(!conns[fd].client && conns[fd].id in touch) ==> touch == old(touch)[conns[fd].id := nowSec]
      ensures touch.Keys == old(touch).Keys && nowSec >= old(nowSec)
    {
      hide Sound, Conserved, Without;
      if Tracking() && !conns[fd].client && conns[fd].id in touch {
        var id := conns[fd].id;
        var t := LoadNow(fd);
        TouchKeepsSound(Now(), fd, fd);
        checkList := Without(checkList, id) + [Tracked(id, fd)];
        touch := touch[id := t];
      }
    }

    /** Reading may make a TLS engine stage bytes of its own, such as alerts. */
    method StageOnRead(fd: int)
      requires Sound(Now(), fd) && fd in conns && Conserved(Now(), fd)
      modifies this`conns
      ensures fd in conns && Same(conns[fd], old(conns[fd])) && conns - {fd} == old(conns) - {fd} && conns[fd].queue == old(conns[fd].queue)
      ensures Sound(Now(), fd) && Conserved(Now(), fd)
    {
      hide Sound, Conserved;
      ghost var s := Now();
      var c := conns[fd];
      if c.kind == AsyncTls {
        var more: nat :| more >= 0;
        conns := conns[fd := c.(staged := c.staged + more)];
      } else {
        assert conns == conns[fd := c.(staged := c.staged)];
      }
      StagingKeepsSound(s, fd, Now());
    }

    /**
     Hands the packets to the handler one after the other and emits its answers.  The
     connection is gone afterwards if emitting failed or a packet was bad.
     */
    method HandlePackets(fd: int, packets: seq<Packet>) returns (wantClose: bool, ghost said: seq<seq<byte>>)
      requires Sound(Now(), fd) && fd in conns && Conserved(Now(), fd)
      modifies this
      ensures HasRead(old(Now()), Now(), fd, said) && (fd in conns ==> closeOnDrain == old(closeOnDrain))
      ensures if fd in conns then Sound(Now(), fd) && Conserved(Now(), fd) else Inv() && !wantClose && fd !in closeOnDrain
      ensures said <= Said(packets) && (fd in conns ==> said == Said(packets) && (wantClose <==> !GoesOn(packets)))
      ensures wantClose ==> AsksIn(packets)
      ensures GoneGrows(old(gone), gone)
      ensures old(Holds(fd, |conns[fd].queue|)) && Harmless(packets, poolMax) ==> Holds(fd, old(|conns[fd].queue|) + |Flatten(Said(packets))|)
    {
      hide Sound, Conserved, Said, HasRead, AfterClose, OnlyAbout, GoneGrows, NoFails, Flatten, Harmless, GoesOn, AsksIn;
      ghost var s := Now();
      ghost var calm, room := Holds(fd, |conns[fd].queue|) && Harmless(packets, poolMax), |conns[fd].queue|;
      NothingSaid(gone);
      wantClose, said := false, [];
      NoAnswers(packets);
      HasReadNothing(s, s, fd);
      var i := 0;
      while i < |packets|
        invariant i <= |packets| && Sound(Now(), fd) && fd in conns && Conserved(Now(), fd)
        invariant HasRead(s, Now(), fd, said) && closeOnDrain == old(closeOnDrain)
        invariant !wantClose && GoesOn(packets[..i]) && said == Said(packets[..i])
        invariant GoneGrows(s.gone, gone) && (calm ==> Holds(fd, room + |Flatten(said)|))
      {
        ghost var t := Now();
        var p := packets[i];
        PacketMeans(packets, i, poolMax);
        if p.Bad? {
          SaidUpToBad(packets, i);
          CloseConn(fd);
          ClosedUnread(t, Now(), fd);
          HasReadTwice(s, t, Now(), fd, said, []);
          assert said + [] == said;
          return;
        }
        SaidStep(packets, i);
        var ok := AnswerPacket(fd, p.data);
        GoneGrowsOn(s.gone, t.gone, gone);
        FlattenOne(said, p.data);
        HasReadTwice(s, t, Now(), fd, said, [p.data]);
        said := said + [p.data];
        if !ok {
          return;
        }
        if p.wantClose {
          wantClose := true;
          return;
        }
        i := i + 1;
      }
      assert packets[..i] == packets;
    }

    /** Emits one answer of the handler; the connection is closed if that fails. */
    method AnswerPacket(fd: int, out: seq<byte>) returns (ok: bool)
      requires Sound(Now(), fd) && fd in conns && Conserved(Now(), fd)
      modifies this
      ensures HasRead(old(Now()), Now(), fd, [out]) && (ok <==> fd in conns) && GoneGrows(old(gone), gone)
      ensures if ok then Sound(Now(), fd) && Conserved(Now(), fd) && closeOnDrain == old(closeOnDrain) else Inv() && fd !in closeOnDrain
      ensures old(Holds(fd, |conns[fd].queue|)) && |out| <= poolMax ==> Holds(fd, old(|conns[fd].queue|) + |out|)
    {
      hide Sound, Conserved, Emitted, Without, HasRead, AfterClose, OnlyAbout, GoneGrows, EmitsHonestly, NoFails, Same;
      SameMeans(conns[fd]);
      ghost var s, id, script := Now(), conns[fd].id, Sock(conns[fd].id);
      var err := EmitOutput(fd, out);
      HasReadOne(s, Now(), fd, out);
      if s.conns[fd].kind != AsyncTls && NoFails(script) && |out| <= poolMax {
        StillHolds(s.conns[fd], script, conns[fd], Sock(id), s.gone[id], gone[id], out, err, poolMax);
      }
      ok := err == NoError;
      if !ok {
        ghost var t := Now();
        CloseConn(fd);
        ClosedUnread(t, Now(), fd);
        HasReadTwice(s, t, Now(), fd, [out], []);
        assert [out] + [] == [out];
      }
    }

    lemma PacketMeans(packets: seq<Packet>, i: nat, most: nat)
      requires i < |packets|
      ensures Harmless(packets, most) ==> packets[i].Output? && !packets[i].wantClose && |packets[i].data| <= most
      ensures packets[i].Output? && packets[i].wantClose ==> AsksIn(packets) && !GoesOn(packets)
    {
    }

    lemma NoAnswers(packets: seq<Packet>)
      ensures Said(packets[..0]) == [] && GoesOn(packets[..0])
    {
    }

    lemma NothingSaid(gone: map<nat, seq<byte>>)
      ensures GoneGrows(gone, gone) && |Flatten([])| == 0
    {
    }

    lemma StillHolds(c: Conn, script: seq<Answer>, d: Conn, script': seq<Answer>, gone: seq<byte>, gone': seq<byte>, out: seq<byte>,
                     err: Errno, most: nat)
      requires EmitsHonestly(c, script, d, script', gone, gone', out, err, most) && c.kind != AsyncTls && NoFails(script) && |out| <= most
      ensures err == NoError && NoFails(script') && |d.queue| <= |c.queue| + |out|
    {
    }

    /** The end of a round: flush, then close, wait for the output to drain, or go on. */
    method FinishRound(fd: int, wantClose: bool, goesOn: bool) returns (more: bool, ghost drained: Loop, ghost total: nat, err: Errno)
      requires Sound(Now(), fd) && fd in conns && Conserved(Now(), fd)
      modifies this
      ensures Drained(old(Now()), fd, maxFlush, drained, total)
      ensures Now() == AfterRound(drained, fd, cliSbufLimit, err, wantClose, goesOn) && (more <==> fd in conns && goesOn && !wantClose)
      ensures fd in drained.conns && (fd in conns <==>
                && (err == NoError || err == EAGAIN)
                && var c := drained.conns[fd];
                   if wantClose then Pending(c) > 0 else WithinLimit(cliSbufLimit, c.kind, c.client, |c.queue| + c.staged))
      ensures fd in conns ==> (fd in closeOnDrain <==> fd in old(closeOnDrain) || wantClose)
      ensures HasRead(old(Now()), Now(), fd, [])
      ensures if more then Sound(Now(), fd) && Conserved(Now(), fd) && closeOnDrain == old(closeOnDrain) else Inv()
      ensures NewMark(old(Now()), Now(), fd, wantClose)
      ensures GoneGrows(old(gone), gone)
      ensures old(Holds(fd, |conns[fd].queue|) && Roomy(fd, 0)) && !wantClose ==> Holds(fd, old(|conns[fd].queue|))
    {
      hide Sound, Conserved, Drained, Without, OnlyAbout, GoneGrows, DrainsHonestly, NoFails;
      more := false;
      var n;
      ghost var script := Sock(conns[fd].id);
      n, err := DrainWrite(fd);
      drained, total := Now(), n;
      DrainGrows(old(Now()), fd, maxFlush, drained, total);
      RoundCalm(old(conns[fd]), script, conns[fd], Sock(conns[fd].id), total, err);
      DrainedMeans(old(Now()), fd, maxFlush, drained, total);
      RoundKeepsSound(drained, fd, cliSbufLimit, err, wantClose, goesOn);
      RoundMeans(old(Now()), drained, fd, err, wantClose, goesOn);
      LimitExactly(cliSbufLimit, drained.conns[fd]);
      hide HasRead;
      if err != NoError && err != EAGAIN {
        CloseConn(fd);
        return;
      }
      if wantClose {
        if Pending(conns[fd]) > 0 {
          MarkKeepsSound(Now(), fd);
          closeOnDrain := closeOnDrain + {fd};
          UpdateWriteFd(fd);
          return;
        }
        CloseConn(fd);
        return;
      }
      if TooMuchPending(cliSbufLimit, conns[fd]) {
        CloseConn(fd);
        return;
      }
      more := goesOn;
      if !more {
        UpdateWriteFd(fd);
      }
    }

    lemma RoundCalm(c: Conn, script: seq<Answer>, d: Conn, script': seq<Answer>, total: nat, err: Errno)
      requires Same(d, c) && |d.queue| <= |c.queue| && (c.kind != AsyncTls ==> d.staged == 0)
      requires DrainsHonestly(c, script, d, script', maxFlush, total, err)
      ensures c.kind != AsyncTls && NoFails(script) ==> !Fatal(err) && NoFails(script')
      ensures c.kind != AsyncTls && WithinLimit(cliSbufLimit, c.kind, c.client, |c.queue|) ==> !TooMuchPending(cliSbufLimit, d)
    {
      LimitExactly(cliSbufLimit, d);
      hide NoFails, Willing;
    }

    /** What the end of a round leaves behind. */
    lemma RoundMeans(s: Loop, t: Loop, fd: int, err: Errno, wantClose: bool, more: bool)
      requires fd in s.conns && fd in t.conns && t == s.(conns := t.conns, gone := t.gone) && SameElsewhere(s, t, fd)
      requires Same(t.conns[fd], s.conns[fd])
      ensures HasRead(s, AfterRound(t, fd, cliSbufLimit, err, wantClose, more), fd, [])
    {
      var u := AfterRound(t, fd, cliSbufLimit, err, wantClose, more);
      ClosingIsElsewhere(t, fd);
      assert Hears(fd, s.conns[fd].id, []) == [] && s.journal + [] == s.journal;
      assert (t.closeOnDrain + {fd}) - {fd} == t.closeOnDrain - {fd};
      hide Without;
    }

    /** One round of processRead, up to the point where it returns or reads again. */
    method ReadRound(fd: int, round: Round) returns (more: bool, ghost said: seq<seq<byte>>)
      requires Sound(Now(), fd) && fd in conns && Conserved(Now(), fd)
      modifies this
      ensures HasRead(old(Now()), Now(), fd, said)
      ensures if more then fd in conns && Sound(Now(), fd) && Conserved(Now(), fd) && closeOnDrain == old(closeOnDrain) else Inv()
      ensures NewMark(old(Now()), Now(), fd, AsksIn(round.packets))
      ensures GoneGrows(old(gone), gone)
      ensures var size := |Flatten(Said(round.packets))|;
              old(Holds(fd, |conns[fd].queue|) && Roomy(fd, size)) && !round.noRoom && !round.failed && Harmless(round.packets, poolMax) ==>
                Holds(fd, old(|conns[fd].queue|) + size)
      ensures said <= SaidIn([round]) && (fd in conns ==> said == SaidIn([round]) && !round.noRoom && !round.failed)
      ensures fd in conns ==> (more <==> round.more && GoesOn(round.packets))
    {
      hide Sound, Conserved, Drained, AfterRound, AfterClose, Said, OnlyAbout, HasRead, AsksIn, GoneGrows, NoFails, Flatten, Harmless, WithinLimit;
      ghost var s := Now();
      more, said := false, [];
      OneRound(round);
      NothingSaid(gone);
      if round.noRoom {
        CloseConn(fd);
        ClosedUnread(s, Now(), fd);
        return;
      }
      StageOnRead(fd);
      HasReadNothing(s, Now(), fd);
      if round.failed {
        ghost var t := Now();
        CloseConn(fd);
        ClosedUnread(t, Now(), fd);
        HasReadTwice(s, t, Now(), fd, said, []);
        assert said + [] == said;
        return;
      }
      Touch(fd);
      HasReadNothing(s, Now(), fd);
      ghost var t := Now();
      more, said := HandleInput(fd, round);
      HasReadTwice(s, t, Now(), fd, [], said);
      assert [] + said == said;
    }

    /** The part of a round behind its read. */
    method HandleInput(fd: int, round: Round) returns (more: bool, ghost said: seq<seq<byte>>)
      requires Sound(Now(), fd) && fd in conns && Conserved(Now(), fd)
      modifies this
      ensures HasRead(old(Now()), Now(), fd, said)
      ensures if more then fd in conns && Sound(Now(), fd) && Conserved(Now(), fd) && closeOnDrain == old(closeOnDrain) else Inv()
      ensures NewMark(old(Now()), Now(), fd, AsksIn(round.packets))
      ensures GoneGrows(old(gone), gone)
      ensures var size := |Flatten(Said(round.packets))|;
              old(Holds(fd, |conns[fd].queue|) && Roomy(fd, size)) && Harmless(round.packets, poolMax) ==> Holds(fd, old(|conns[fd].queue|) + size)
      ensures said <= Said(round.packets)
      ensures fd in conns ==> said == Said(round.packets) && (more <==> round.more && GoesOn(round.packets))
    {
      hide Sound, Conserved, Drained, AfterRound, AfterClose, Said, OnlyAbout, HasRead, AsksIn, GoneGrows, NoFails, Flatten, Harmless, WithinLimit;
      hide NewMark, GoesOn, Same;
      SameMeans(conns[fd]);
      ghost var s := Now();
      ghost var room := |conns[fd].queue| + |Flatten(Said(round.packets))|;
      ghost var calm := Holds(fd, |conns[fd].queue|) && Harmless(round.packets, poolMax) && Roomy(fd, |Flatten(Said(round.packets))|);
      if Harmless(round.packets, poolMax) {
        HarmlessGoesOn(round.packets, poolMax);
      }
      var wantClose;
      wantClose, said := HandlePackets(fd, round.packets);
      if fd !in conns {
        NoNewMark(s, Now(), fd, AsksIn(round.packets));
        return false, said;
      }
      ghost var t := Now();
      ghost var drained, total;
      var err;
      HasReadMeans(s, t, fd, said);
      if calm {
        LessIsWithin(cliSbufLimit, s.conns[fd].kind, s.conns[fd].client, room, |conns[fd].queue|);
      }
      more, drained, total, err := FinishRound(fd, wantClose, round.more);
      MarkedSince(s, t, Now(), fd, wantClose, AsksIn(round.packets));
      GoneGrowsOn(s.gone, t.gone, gone);
      HasReadTwice(s, t, Now(), fd, said, []);
      assert said + [] == said;
    }

    lemma OneRound(round: Round)
      ensures SaidIn([round]) == if round.noRoom || round.failed then [] else Said(round.packets)
    {
      assert [round][1..] == [];
    }

    /** processRead: a read event. */
    method ProcessRead(fd: int, rounds: seq<Round>) returns (ghost said: seq<seq<byte>>)
      requires Inv() && fd in conns
      modifies this
      ensures Inv() && HasRead(old(Now()), Now(), fd, said)
      ensures said <= SaidIn(rounds) && (fd in conns ==> said == SaidIn(rounds))
      ensures NewMark(old(Now()), Now(), fd, Asks(rounds))
      ensures GoneGrows(old(gone), gone)
      ensures var size := |Flatten(SaidIn(rounds))|;
              old(Holds(fd, |conns[fd].queue|) && Roomy(fd, size)) && AllHarmless(rounds, poolMax) ==>
                Holds(fd, old(|conns[fd].queue|) + size)
    {
      hide Sound, Conserved, Attended, SaidIn, Said, GoesOn, HasRead, AllGoOn, RoundAt, Asks, AsksIn, NewMark, GoneGrows, NoFails, Flatten;
      hide Harmless, AllHarmless, WithinLimit;
      WorkOn(Now(), fd);
      ghost var s := Now();
      ghost var room := |conns[fd].queue| + |Flatten(SaidIn(rounds))|;
      ghost var calm := Holds(fd, |conns[fd].queue|) && AllHarmless(rounds, poolMax) && Roomy(fd, |Flatten(SaidIn(rounds))|);
      NothingSaid(gone);
      said := [];
      NoRounds(rounds);
      HasReadNothing(s, s, fd);
      var i, more := 0, true;
      while more
        invariant HasRead(s, Now(), fd, said)
        invariant more ==> fd in conns && Sound(Now(), fd) && Conserved(Now(), fd) && closeOnDrain == old(closeOnDrain)
        invariant more ==> i <= |rounds| && AllGoOn(rounds, i) && said == SaidIn(rounds[..i])
        invariant !more ==> Inv() && said <= SaidIn(rounds) && (fd in conns ==> said == SaidIn(rounds))
        invariant !more ==> NewMark(s, Now(), fd, Asks(rounds))
        invariant GoneGrows(s.gone, gone)
        invariant calm ==> Holds(fd, |s.conns[fd].queue| + |Flatten(said)|) && |Flatten(said)| <= |Flatten(SaidIn(rounds))|
        decreases if more then |rounds| + 1 - i else 0
      {
        ghost var t, got := Now(), [];
        AsksInRound(rounds, i);
        if calm {
          HasReadMeans(s, Now(), fd, said);
          CalmRound(rounds, i, said, s.conns[fd], conns[fd], poolMax);
        }
        more, got := ReadRound(fd, RoundAt(rounds, i));
        GoneGrowsOn(s.gone, t.gone, gone);
        FlattenBoth(said, got);
        HasReadTwice(s, t, Now(), fd, said, got);
        MarkedSince(s, t, Now(), fd, AsksIn(RoundAt(rounds, i).packets), Asks(rounds));
        RoundTells(rounds, i, got);
        if more {
          RoundGoesOn(rounds, i);
        }
        said := said + got;
        i := i + 1;
      }
    }

    lemma CalmRound(rounds: seq<Round>, i: nat, said: seq<seq<byte>>, c: Conn, d: Conn, most: nat)
      requires i <= |rounds| && AllGoOn(rounds, i) && said == SaidIn(rounds[..i]) && AllHarmless(rounds, most) && d.kind == c.kind && d.client == c.client
      requires |d.queue| <= |c.queue| + |Flatten(said)|
      requires WithinLimit(cliSbufLimit, c.kind, c.client, |c.queue| + |Flatten(SaidIn(rounds))|)
      ensures var round := RoundAt(rounds, i);
              && !round.noRoom && !round.failed && Harmless(round.packets, most) && SaidIn([round]) == Said(round.packets)
              && |Flatten(said + Said(round.packets))| <= |Flatten(SaidIn(rounds))|
              && WithinLimit(cliSbufLimit, d.kind, d.client, |d.queue| + |Flatten(Said(round.packets))|)
    {
      hide SaidIn, Said, AllGoOn, WithinLimit, Flatten, Harmless;
      var round := RoundAt(rounds, i);
      HarmlessRound(rounds, i, most);
      OneRound(round);
      RoundTells(rounds, i, SaidIn([round]));
      FlattenBoth(said, Said(round.packets));
      FlattenLess(said + Said(round.packets), SaidIn(rounds));
      LessIsWithin(cliSbufLimit, c.kind, c.client, |c.queue| + |Flatten(SaidIn(rounds))|, |d.queue| + |Flatten(Said(round.packets))|);
    }

    lemma NoRounds(rounds: seq<Round>)
      ensures SaidIn(rounds[..0]) == [] && AllGoOn(rounds, 0)
    {
    }


    // ------------------------------------------------------- accepts and idling

    /** storeConn and AddRead; an ID is spent in any case. */
    method Store(a: Accepted) returns (ok: bool)
      requires Inv() && a.fd !in conns
      modifies this`conns, this`epoll, this`gone, this`nextId, this`journal
      ensures Inv() && old(nextId) !in touch && (ok ==> a.fd < tableSize)
      ensures Now() == if ok then Stored(old(Now()), a.fd, a.client, a.kind) else Turned(old(Now()), a.fd)
    {
      hide Sound;
      StoreKeepsSound(Now(), a.fd, a.client, a.kind);
      TurnKeepsSound(Now(), a.fd);
      var fd, id := a.fd, nextId;
      nextId := nextId + 1;
      ok := *;
      ok := ok && fd < tableSize;
      if ok {
        conns := conns[fd := Conn(id, a.client, a.kind, [], 0)];
        epoll := epoll[fd := false];
        gone := gone[id := []];
        journal := journal + [Attached(fd, id)];
      } else {
        journal := journal + [Refused(fd, id)];
      }
    }

    /** The connection joins the idle list, unless it was dialled or nobody checks. */
    method StartTracking(fd: int)
      requires Inv() && fd in conns && conns[fd].id !in touch
      modifies this`checkList, this`touch, this`nowSec
      ensures Inv() && nowSec >= old(nowSec)
      ensures touch == if Tracking() && !conns[fd].client then old(touch)[conns[fd].id := nowSec] else old(touch)
    {
      hide Sound, Without;
      if Tracking() && !conns[fd].client {
        var now := LoadNow(0);
        NotListed(Now(), conns[fd].id);
        TouchKeepsSound(Now(), fd, 0);
        touch := touch[conns[fd].id := now];
        checkList := checkList + [Tracked(conns[fd].id, fd)];
      }
    }

    lemma NotListed(s: Loop, id: nat)
      requires Sound(s, 0) && id !in s.touch
      ensures Without(s.idle, id) == s.idle
    {
      hide KeysOk, IdsOk, JournalOk, LogsOk, AllConserved, AllAttended;
      forall i | 0 <= i < |s.idle|
        ensures s.idle[i].id != id
      {
        assert s.idle[i].id in Ids(s.idle);
      }
    }

    /**
     attachClient: a connection on the same descriptor is closed first; a new one that cannot
     be stored or registered, or that dies while its buffered input is drained, is not attached.
     */
    method AttachClient(a: Accepted) returns (ok: bool)
      requires Inv()
      modifies this
      ensures Inv() && nextId == old(nextId) + 1
      ensures conns - {a.fd} == old(conns) - {a.fd}
      ensures ok <==> a.fd in conns
      ensures ok ==> a.fd < tableSize && conns[a.fd].id == old(nextId) && conns[a.fd].client == a.client && conns[a.fd].kind == a.kind
      ensures ok ==> (old(nextId) in touch <==> Tracking() && !a.client)
      ensures Follows(old(journal), journal, map[old(nextId) := Expects(a)], [])
      ensures closeOnDrain <= (old(closeOnDrain) - {a.fd}) + Asker(a) && cmdFlushSet <= old(cmdFlushSet) - {a.fd}
      ensures old(MarkedArePending(Now())) ==> MarkedArePending(Now())
    {
      hide Sound, Follows, MarkedArePending, Expects, Asker, Live;
      var fd := a.fd;
      ghost var j, id, all := journal, nextId, Expects(a);
      ok := TakeSlot(a);
      if !ok {
        FollowsAnyway(j, journal, map[], [], id, all);
        return;
      }
      ghost var j1 := journal;
      DrainBuffered(a);
      SoundJournal(Now());
      FollowsQuiet(j, j1, journal, map[id := all], []);
      if fd !in conns {
        return false;
      }
      ghost var t := Now();
      StartTracking(fd);
      MarksStay(t, Now());
    }

    /** The descriptor is taken over, or an ID is spent in vain. */
    method TakeSlot(a: Accepted) returns (ok: bool)
      requires Inv()
      modifies this
      ensures Inv() && nextId == old(nextId) + 1 && conns - {a.fd} == old(conns) - {a.fd} && old(nextId) !in touch
      ensures ok <==> a.fd in conns
      ensures if ok then a.fd < tableSize && conns[a.fd] == Conn(old(nextId), a.client, a.kind, [], 0) else old(nextId) !in Live(journal).Values
      ensures Follows(old(journal), journal, map[], [])
      ensures closeOnDrain == old(closeOnDrain) - {a.fd} && cmdFlushSet == old(cmdFlushSet) - {a.fd}
      ensures old(MarkedArePending(Now())) ==> MarkedArePending(Now())
    {
      hide Sound, Follows, MarkedArePending, Live;
      MakeRoom(a.fd);
      ghost var s := Now();
      ok := Store(a);
      StoreTells(old(journal), s, Now(), a.fd, a.client, a.kind, ok);
      AttachedMarks(s, a.fd, a.client, a.kind);
      if !ok {
        NewIdNotLive(s, Now());
      }
    }

    /** postAccept: what the TLS engine has buffered is read at once. */
    method DrainBuffered(a: Accepted)
      requires Inv() && a.fd in conns && a.fd !in closeOnDrain
      modifies this
      ensures Inv() && nextId == old(nextId) && touch.Keys <= old(touch).Keys
      ensures conns - {a.fd} == old(conns) - {a.fd} && (a.fd in conns ==> Same(conns[a.fd], old(conns[a.fd])))
      ensures Follows(old(journal), journal, map[old(conns[a.fd].id) := Expects(a)], [])
      ensures closeOnDrain <= old(closeOnDrain) + Asker(a) && cmdFlushSet <= old(cmdFlushSet)
      ensures old(MarkedArePending(Now())) ==> MarkedArePending(Now())
    {
      hide Sound, Follows, MarkedArePending, HasRead, SaidIn, Asks;
      var fd := a.fd;
      ghost var s := Now();
      if a.kind == AsyncTls || (a.kind == KernelTls && a.buffered) {
        ghost var said := ProcessRead(fd, a.rounds);
        HasReadMeans(s, Now(), fd, said);
        ReadFollows(s, Now(), fd, said, Expects(a));
        ReadKeepsMarks(s, Now(), fd, said, Asks(a.rounds));
      } else {
        NothingFollows(journal);
        NothingExpected(journal, journal, conns[fd].id);
      }
    }

    /** A connection that still holds the descriptor is closed. */
    method MakeRoom(fd: int)
      requires Inv()
      modifies this
      ensures Inv() && fd !in conns && nextId == old(nextId) && conns == old(conns) - {fd}
      ensures closeOnDrain == old(closeOnDrain) - {fd} && cmdFlushSet == old(cmdFlushSet) - {fd}
      ensures Follows(old(journal), journal, map[], [])
      ensures old(MarkedArePending(Now())) ==> MarkedArePending(Now())
    {
      hide Sound, Follows, MarkedArePending;
      NothingFollows(journal);
      if fd in conns {
        WorkOn(Now(), fd);
        MarksBut(Now(), fd);
        if MarkedArePending(Now()) {
          CloseKeepsMarks(Now(), fd);
        }
        ClosingFollows(journal, [Closed(fd)]);
        CloseConn(fd);
      } else {
        NotKnown(Now(), fd);
      }
    }

    /** The scan of onIdle, which stops at the first fresh entry of the list. */
    method Sweep(now: int)
      requires Inv() && now == nowSec
      modifies this`conns, this`epoll, this`writeFds, this`closeOnDrain, this`cmdFlushSet, this`checkList, this`touch, this`journal
      ensures Inv() && Follows(old(journal), journal, map[], [])
      ensures forall fd :: fd in old(conns) ==> (fd !in conns <==> Expired(old(touch), now, idleLimit, old(conns)[fd].id))
      ensures forall fd :: fd in conns ==> fd in old(conns) && conns[fd] == old(conns)[fd]
      ensures closeOnDrain <= old(closeOnDrain) && cmdFlushSet <= old(cmdFlushSet)
      ensures old(MarkedArePending(Now())) ==> MarkedArePending(Now())
    {
      hide Sound, Swept, Expired, Follows, MarkedArePending, AfterClose;
      ghost var s := Now();
      ghost var closed: seq<Fact> := [];
      assert old(journal) + [] == old(journal);
      SweepStarts(s, idleLimit);
      while checkList != [] && Expired(touch, now, idleLimit, checkList[0].id)
        invariant Inv() && Swept(s, Now(), idleLimit) && nowSec == now
        invariant journal == old(journal) + closed && OnlyClosed(closed)
        invariant closeOnDrain <= old(closeOnDrain) && cmdFlushSet <= old(cmdFlushSet)
        invariant MarkedArePending(s) ==> MarkedArePending(Now())
        decreases |conns|
      {
        IdleMeans(Now());
        SweepStep(s, Now(), idleLimit);
        var fd := checkList[0].fd;
        WorkOn(Now(), fd);
        MarksBut(Now(), fd);
        if MarkedArePending(Now()) {
          CloseKeepsMarks(Now(), fd);
        }
        ghost var before := conns;
        CloseConn(fd);
        Fewer(before, conns, fd);
        closed := closed + [Closed(fd)];
      }
      IdleMeans(Now());
      SweepDone(s, Now(), idleLimit);
      ClosingFollows(old(journal), closed);
    }

    lemma IdleMeans(s: Loop)
      requires Sound(s, 0)
      ensures IdsOk(s) && AllLive(s.idle, s.conns) && Ordered(s.idle, s.touch, s.now)
    {
    }

    lemma Fewer(before: map<int, Conn>, after: map<int, Conn>, fd: int)
      requires fd in before && fd !in after && before - {fd} == after - {fd}
      ensures |after| < |before|
    {
      assert after == before - {fd};
      assert before.Keys == after.Keys + {fd};
      assert |after| == |after.Keys| && |before| == |before.Keys|;
    }

    /**
     onIdle: a scan that is due closes exactly the tracked connections whose last input lies
     more than the limit back.
     */
    method OnIdle()
      requires Inv()
      modifies this
      ensures Inv() && nextId == old(nextId) && nowSec >= old(nowSec) && Follows(old(journal), journal, map[], [])
      ensures var due := old(lastCheck) != 0 && checkInterval > 0 && nowSec - old(lastCheck) >= checkInterval;
              && (forall fd :: fd in old(conns) ==>
                    (fd !in conns <==> due && idleLimit > 0 && Expired(old(touch), nowSec, idleLimit, old(conns)[fd].id)))
              && (forall fd :: fd in conns ==> fd in old(conns) && conns[fd] == old(conns)[fd])
              && (lastCheck == if old(lastCheck) == 0 || due then nowSec else old(lastCheck))
      ensures Apart(old(conns), conns, Watched(old(Now()))) && closeOnDrain <= old(closeOnDrain) && cmdFlushSet <= old(cmdFlushSet)
      ensures old(MarkedArePending(Now())) ==> MarkedArePending(Now())
    {
      hide Sound, Expired, Follows, Apart, Watched;
      ghost var s := Now();
      ApartAtOnce(conns, Watched(s));
      NothingFollows(journal);
      var now := LoadNow(0);
      if lastCheck == 0 {
        lastCheck := now;
        return;
      }
      if checkInterval > 0 && now - lastCheck >= checkInterval {
        lastCheck := now;
        if idleLimit > 0 {
          Sweep(now);
          SweptApart(s, conns, now, idleLimit);
        }
      }
    }

    /** shutdown closes every connection. */
    method Shutdown()
      requires Inv()
      modifies this
      ensures Inv() && conns == map[] && nextId == old(nextId) && Follows(old(journal), journal, map[], [])
    {
      hide Sound, Follows, AfterClose;
      ghost var closed: seq<Fact> := [];
      assert old(journal) + [] == old(journal);
      while conns.Keys != {}
        invariant Inv() && nextId == old(nextId)
        invariant journal == old(journal) + closed && OnlyClosed(closed)
        decreases |conns|
      {
        SomeMember(conns.Keys);
        var fd :| fd in conns.Keys;
        WorkOn(Now(), fd);
        ghost var before := conns;
        CloseConn(fd);
        Fewer(before, conns, fd);
        closed := closed + [Closed(fd)];
      }
      ClosingFollows(old(journal), closed);
    }

    // ------------------------------------------------------------------- events

    method AttachAll(accepted: seq<Accepted>)
      requires Inv()
      modifies this
      ensures Inv() && nextId == old(nextId) + |accepted|
      ensures Follows(old(journal), journal, ExpectsAll(accepted, old(nextId)), []) && Apart(old(conns), conns, Fds(accepted))
      ensures closeOnDrain <= (old(closeOnDrain) - Fds(accepted)) + Askers(accepted) && cmdFlushSet <= old(cmdFlushSet) - Fds(accepted)
      ensures NoneRevived(old(conns), old(nextId), conns)
      ensures old(MarkedArePending(Now())) ==> MarkedArePending(Now())
    {
      hide Sound, Follows, MarkedArePending, Expects, ExpectsAll, Fds, Askers, Asker, Apart, NoneRevived;
      assert NoneRevived(conns, nextId, conns) by { NobodyRevived(conns, nextId); }
      NothingFollows(journal);
      ExpectsNone(accepted, nextId);
      NothingNamed(accepted, []);
      ApartAtOnce(conns, {});
      for i := 0 to |accepted|
        invariant Inv() && nextId == old(nextId) + i
        invariant Follows(old(journal), journal, ExpectsAll(accepted[..i], old(nextId)), []) && Apart(old(conns), conns, Fds(accepted[..i]))
        invariant closeOnDrain <= (old(closeOnDrain) - Fds(accepted[..i])) + Askers(accepted[..i])
        invariant cmdFlushSet <= old(cmdFlushSet) - Fds(accepted[..i])
        invariant NoneRevived(old(conns), old(nextId), conns)
        invariant old(MarkedArePending(Now())) ==> MarkedArePending(Now())
      {
        ghost var j, before := journal, conns;
        SoundJournal(Now());
        var ok := AttachClient(accepted[i]);
        SoundJournal(Now());
        ExpectsOneMore(accepted, i, old(nextId));
        FollowsBoth(old(journal), j, journal, ExpectsAll(accepted[..i], old(nextId)), map[old(nextId) + i := Expects(accepted[i])]);
        OneMoreAttached(old(conns), old(nextId), before, conns, accepted[i].fd);
        ApartOne(before, conns, accepted[i].fd);
        ApartThen(old(conns), before, conns, Fds(accepted[..i]), {accepted[i].fd});
        FdsNext(accepted, i);
      }
      assert accepted[..|accepted|] == accepted;
    }

    lemma ApartOne(a: map<int, Conn>, b: map<int, Conn>, fd: int)
      requires a - {fd} == b - {fd}
      ensures Apart(a, b, {fd})
    {
    }

    method TakeCommands(cmds: seq<Cmd>)
      requires Inv()
      modifies this
      ensures Inv() && nextId == old(nextId) && Follows(old(journal), journal, map[], cmds) && Apart(old(conns), conns, Named(cmds))
      ensures SameOnes(old(conns), conns) && conns.Keys !! Closers(cmds)
      ensures closeOnDrain <= old(closeOnDrain) && cmdFlushSet <= old(cmdFlushSet) + Targets(cmds)
      ensures old(MarkedArePending(Now())) ==> MarkedArePending(Now())
    {
      hide Sound, Follows, MarkedArePending, AfterConsume, Named, Targets, Target, Apart, Closers, Obeys;
      NothingFollows(journal);
      NothingNamed([], cmds);
      ApartAtOnce(conns, {});
      for i := 0 to |cmds|
        invariant Inv() && nextId == old(nextId) && Follows(old(journal), journal, map[], cmds[..i]) && Apart(old(conns), conns, Named(cmds[..i]))
        invariant closeOnDrain <= old(closeOnDrain) && cmdFlushSet <= old(cmdFlushSet) + Targets(cmds[..i])
        invariant SameOnes(old(conns), conns) && conns.Keys !! Closers(cmds[..i])
        invariant old(MarkedArePending(Now())) ==> MarkedArePending(Now())
      {
        ghost var j, before := journal, conns;
        ConsumeCmd(cmds[i]);
        SoundJournal(Now());
        CommandFollows(old(journal), j, journal, cmds[..i], cmds[i]);
        ObeyingCloses(cmds, i, cliSbufLimit, before, conns);
        assert cmds[..i + 1] == cmds[..i] + [cmds[i]];
        ApartThen(old(conns), before, conns, Named(cmds[..i]), {cmds[i].fd});
        NamedNext(cmds, i);
      }
      assert cmds[..|cmds|] == cmds;
    }

    /** processCmd, with what it takes from its channels within its budgets. */
    method ProcessCmd(idle: bool, accepted: seq<Accepted>, cmds: seq<Cmd>)
      requires Inv()
      modifies this
      ensures Inv() && Step(Wake(idle, accepted, cmds), old(Now()), Now())
      ensures nextId == old(nextId) + |accepted|
      ensures maxCmdFlush <= 0 ==> cmdFlushSet == {}
      ensures idle && old(ScanIsDue()) ==> IdleAreGone(old(Now()), old(nowSec), idleLimit, conns)
    {
      hide Sound, Follows, MarkedArePending, ExpectsAll, Fds, Askers, Named, Targets, Apart, Watched, NextId, Closers;
      hide IdleAreGone, NoneRevived, SameOnes;
      ghost var outs := ExpectsAll(accepted, nextId);
      ghost var s := Now();
      SoundJournal(s);
      NothingFollows(journal);
      ApartAtOnce(conns, {});
      if idle {
        OnIdle();
      }
      ghost var s1 := Now();
      AttachAll(accepted);
      SoundJournal(Now());
      FollowsQuiet(s.journal, s1.journal, journal, outs, []);
      ghost var s2 := Now();
      TakeCommands(cmds);
      ghost var s3 := Now();
      var flushed := FlushCommands();
      SoundJournal(Now());
      FollowsThenQuiet(s2.journal, s3.journal, journal, map[], cmds);
      MiddleOf(Wake(idle, accepted, cmds), s.journal, s2.journal, journal);
      ApartThen(s.conns, s1.conns, s2.conns, if idle then Watched(s) else {}, Fds(accepted));
      WakeApart(idle, accepted, cmds, s, s2.conns, s3.conns, s3.cmdFlushSet, conns);
      WakeSafe(idle, accepted, cmds, s, s3);
      SameOnesTwice(s2.conns, s3.conns, conns);
      StillClosed(s3.conns, conns, Closers(cmds));
      if idle && old(ScanIsDue()) {
        IdleStayGone(s, s.now, s1.now, idleLimit, s1.conns, s2.conns, conns);
      }
    }

    lemma StillClosed(before: map<int, Conn>, after: map<int, Conn>, fds: set<int>)
      requires SameOnes(before, after) && before.Keys !! fds
      ensures after.Keys !! fds
    {
      forall fd | fd in after.Keys
        ensures fd in before.Keys
      {
        assert fd in after;
      }
    }

    lemma WakeApart(idle: bool, accepted: seq<Accepted>, cmds: seq<Cmd>, s: Loop, conns2: map<int, Conn>, conns3: map<int, Conn>,
                    flushed: set<int>, conns4: map<int, Conn>)
      requires Apart(s.conns, conns2, (if idle then Watched(s) else {}) + Fds(accepted))
      requires Apart(conns2, conns3, Named(cmds)) && Apart(conns3, conns4, flushed) && flushed <= s.cmdFlushSet + Targets(cmds)
      ensures Apart(s.conns, conns4, Concerned(Wake(idle, accepted, cmds), s))
    {
      TargetsAreNamed(cmds);
      hide Apart, Watched, Fds, Named, Targets;
      var x := (if idle then Watched(s) else {}) + Fds(accepted);
      ApartThen(s.conns, conns2, conns3, x, Named(cmds));
      ApartThen(s.conns, conns3, conns4, x + Named(cmds), flushed);
      ApartMore(s.conns, conns4, x + Named(cmds) + flushed, Concerned(Wake(idle, accepted, cmds), s));
    }

    /** No marked connection is flushed in a wake-up that is not risky. */
    lemma WakeSafe(idle: bool, accepted: seq<Accepted>, cmds: seq<Cmd>, s: Loop, t: Loop)
      requires var e := Wake(idle, accepted, cmds);
               t.closeOnDrain <= MarksAfter(e, s.closeOnDrain) && t.cmdFlushSet <= WaitsAfter(e, s.cmdFlushSet)
      ensures !Risky(Wake(idle, accepted, cmds), s.closeOnDrain, s.cmdFlushSet) ==> t.cmdFlushSet * t.closeOnDrain == {}
    {
      hide MarksAfter, WaitsAfter;
      var e := Wake(idle, accepted, cmds);
      assert t.cmdFlushSet * t.closeOnDrain <= MarksAfter(e, s.closeOnDrain) * WaitsAfter(e, s.cmdFlushSet);
    }

    /** A ready connection: write first, then read, then write again.  No other connection is touched. */
    method HandleReady(fd: int, writable: bool, readable: bool, rounds: seq<Round>)
      requires Inv() && fd in conns
      modifies this
      ensures Inv() && nextId == old(nextId) && conns - {fd} == old(conns) - {fd}
      ensures Follows(old(journal), journal, if readable then map[old(conns[fd].id) := SaidIn(rounds)] else map[], [])
      ensures closeOnDrain <= old(closeOnDrain) + (if readable && Asks(rounds) then {fd} else {}) && cmdFlushSet <= old(cmdFlushSet)
      ensures old(MarkedArePending(Now())) && !(readable && fd in old(closeOnDrain)) ==> MarkedArePending(Now())
      ensures old(conns[fd].id in gone)
      ensures Treated(old(Now()), old(Sock(conns[fd].id)), Now(), fd, maxFlush, poolMax, cliSbufLimit, if readable then rounds else [])
    {
      hide Sound, Follows, MarkedArePending, SaidIn, HasRead, SameElsewhere, Asks, WellFormed, NextId, Live, GoneGrows, Served, Treated;
      hide NoReasonToClose, NewMark, Same;
      ghost var s, script, input := Now(), Sock(conns[fd].id), if readable then rounds else [];
      ghost var j, id, all := journal, conns[fd].id, SaidIn(rounds);
      SoundMeans(Now(), 0, fd);
      SameMeans(conns[fd]);
      NothingFollows(j);
      if !(writable || Pending(conns[fd]) > 0) {
        NothingServed(s, script, fd, maxFlush, poolMax, cliSbufLimit, input);
      } else {
        SendOnce(fd);
        ServedFirst(s, script, Now(), Sock(id), fd, maxFlush, poolMax, cliSbufLimit, input);
        if fd !in conns {
          ClosedIdNotLive(old(Now()), Now(), fd);
          if readable {
            FollowsAnyway(j, journal, map[], [], id, all);
          }
          return;
        }
      }
      if readable {
        ghost var mid := Now();
        ReadReady(fd, rounds);
        SoundJournal(Now());
        FollowsQuiet(j, mid.journal, journal, map[id := all], []);
        TreatedFurther(s, script, mid, Now(), fd, maxFlush, poolMax, cliSbufLimit, input);
      }
    }

    /** The read of a ready event, and the write behind it. */
    method ReadReady(fd: int, rounds: seq<Round>)
      requires Inv() && fd in conns
      modifies this
      ensures Inv() && nextId == old(nextId) && conns - {fd} == old(conns) - {fd}
      ensures Follows(old(journal), journal, map[old(conns[fd].id) := SaidIn(rounds)], [])
      ensures closeOnDrain <= old(closeOnDrain) + (if Asks(rounds) then {fd} else {}) && cmdFlushSet <= old(cmdFlushSet)
      ensures old(MarkedArePending(Now())) && fd !in old(closeOnDrain) ==> MarkedArePending(Now())
      ensures GoneGrows(old(gone), gone)
      ensures NoReasonToClose(old(Now()), old(Sock(conns[fd].id)), fd, poolMax, cliSbufLimit, rounds) ==> fd in conns
    {
      hide Sound, Follows, MarkedArePending, SaidIn, HasRead, SameElsewhere, Asks, WellFormed, NextId, Live, GoneGrows, Served;
      hide NoReasonToClose, NewMark, Same, Holds, Roomy, AllHarmless;
      ghost var s := Now();
      ghost var j, id, all := journal, conns[fd].id, SaidIn(rounds);
      ghost var calm := NoReasonToClose(s, Sock(id), fd, poolMax, cliSbufLimit, rounds);
      SoundMeans(s, 0, fd);
      SameMeans(conns[fd]);
      if calm {
        CalmMeans(fd, rounds);
      }
      ghost var said := ProcessRead(fd, rounds);
      HasReadMeans(s, Now(), fd, said);
      ReadFollows(s, Now(), fd, said, all);
      ReadKeepsMarks(s, Now(), fd, said, Asks(rounds));
      NotMarkedNow(s, Now(), fd, Asks(rounds));
      if calm {
        HoldsMeans(fd, |s.conns[fd].queue| + |Flatten(all)|);
      }
      if fd in conns && Pending(conns[fd]) > 0 {
        ghost var t := Now();
        ghost var script := Sock(conns[fd].id);
        SendOnce(fd);
        SoundJournal(Now());
        SoundJournal(t);
        FollowsThenQuiet(j, t.journal, journal, map[id := all], []);
        GoneGrowsOn(s.gone, t.gone, gone);
        if calm {
          ServedStays(t, script, Now(), Sock(id), fd, maxFlush);
        }
      }
    }

    lemma CalmMeans(fd: int, rounds: seq<Round>)
      requires fd in conns && NoReasonToClose(Now(), Sock(conns[fd].id), fd, poolMax, cliSbufLimit, rounds)
      ensures Holds(fd, |conns[fd].queue|) && Roomy(fd, |Flatten(SaidIn(rounds))|) && AllHarmless(rounds, poolMax) && !Asks(rounds)
      ensures fd !in closeOnDrain && conns[fd].kind != AsyncTls
    {
      HarmlessAskNothing(rounds, poolMax);
    }

    lemma HoldsMeans(fd: int, room: nat)
      ensures Holds(fd, room) ==> fd in conns && NoFails(Sock(conns[fd].id))
    {
    }

    lemma ServedStays(s: Loop, script: seq<Answer>, t: Loop, script': seq<Answer>, fd: int, plan: int)
      requires fd in s.conns && s.conns[fd].id in s.gone && Served(s, script, t, script', fd, plan)
      requires s.conns[fd].kind != AsyncTls && NoFails(script) && fd !in s.closeOnDrain
      ensures fd in t.conns
    {
    }

    lemma NotMarkedNow(s: Loop, t: Loop, fd: int, asked: bool)
      requires NewMark(s, t, fd, asked)
      ensures !asked && fd !in s.closeOnDrain ==> fd !in t.closeOnDrain
    {
    }

    method SendOnce(fd: int)
      requires Inv() && fd in conns
      modifies this
      ensures Inv() && nextId == old(nextId) && conns - {fd} == old(conns) - {fd} && (fd in conns ==> Same(conns[fd], old(conns[fd])))
      ensures closeOnDrain <= old(closeOnDrain) && cmdFlushSet <= old(cmdFlushSet)
      ensures Follows(old(journal), journal, map[], [])
      ensures old(MarkedArePending(Now())) ==> MarkedArePending(Now())
      ensures old(conns[fd].id in gone) && GoneGrows(old(gone), gone)
      ensures Served(old(Now()), old(Sock(conns[fd].id)), Now(), Sock(old(conns[fd].id)), fd, maxFlush)
    {
      hide Sound, Follows, MarkedArePending, Drained, AfterSend, Served, GoneGrows;
      MarksBut(Now(), fd);
      ghost var drained, total;
      var err;
      drained, total, err := ProcessSend(fd);
      ClosingFollows(old(journal), if fd in conns then [] else [Closed(fd)]);
      assert old(journal) + [] == old(journal);
    }

    /** The callback of Run. */
    method Dispatch(e: Event)
      requires Inv()
      modifies this
      ensures Inv() && Step(e, old(Now()), Now())
      ensures e.Wake? && e.idle && old(ScanIsDue()) ==> IdleAreGone(old(Now()), old(nowSec), idleLimit, conns)
      ensures e.Ready? && e.fd in old(conns) && !e.failed ==>
                && old(conns)[e.fd].id in old(gone)
                && Treated(old(Now()), old(Sock(conns[e.fd].id)), Now(), e.fd, maxFlush, poolMax, cliSbufLimit, if e.readable then e.rounds else [])
    {
      match e {
        case Wake(idle, accepted, cmds) => ProcessCmd(idle, accepted, cmds);
        case Stop => StopNow();
        case Ready(fd, failed, writable, readable, rounds, accepted) => OnReady(fd, failed, writable, readable, rounds, accepted);
      }
    }

    method StopNow()
      requires Inv()
      modifies this
      ensures Inv() && Step(Stop, old(Now()), Now())
    {
      hide Sound, Follows, MarkedArePending, NextId;
      ghost var s := Now();
      SoundJournal(s);
      Shutdown();
      SoundJournal(Now());
      NothingMarked(Now());
      NothingFollows(journal);
      MiddleOf(Stop, s.journal, journal, journal);
      assert s.conns - s.conns.Keys == map[] == conns - s.conns.Keys;
    }

    method OnReady(fd: int, failed: bool, writable: bool, readable: bool, rounds: seq<Round>, accepted: seq<Accepted>)
      requires Inv()
      modifies this
      ensures Inv() && Step(Ready(fd, failed, writable, readable, rounds, accepted), old(Now()), Now())
      ensures fd in old(conns) && !failed ==>
                && old(conns[fd].id in gone)
                && Treated(old(Now()), old(Sock(conns[fd].id)), Now(), fd, maxFlush, poolMax, cliSbufLimit, if readable then rounds else [])
    {
      hide Sound, Follows, MarkedArePending, ExpectsAll, SaidIn, Live, NextId, Fds, Askers, Asks, Apart, Treated;
      ghost var s := Now();
      SoundJournal(s);
      NothingFollows(journal);
      ApartAtOnce(conns, {});
      if fd in conns {
        SoundMeans(Now(), 0, fd);
        if failed {
          MakeRoom(fd);
        } else {
          HandleReady(fd, writable, readable, rounds);
        }
        ApartOne(s.conns, conns, fd);
      } else {
        NotKnown(Now(), fd);
        if readable {
          AttachAll(accepted);
        }
      }
      SoundJournal(Now());
      NothingFollows(journal);
      ghost var e := Ready(fd, failed, writable, readable, rounds, accepted);
      MiddleOf(e, s.journal, journal, journal);
    }

    /**
     After any run of events: every event did what it promises; the commands of the events were
     consumed, in order, and no others; what left the queue of a live connection, followed by
     what still waits in it, is exactly what the events submitted to it, and a closed connection
     sent a beginning of that; the poller is asked for write events only while output is pending,
     and pending output waits for a write event or a flush; marked connections have output
     pending if no event was risky.
     */
    method Run(events: seq<Event>) returns (ghost states: seq<Loop>)
      requires Inv()
      modifies this
      ensures Inv() && IsRun(events, states) && states[0] == old(Now()) && states[|events|] == Now()
      ensures old(journal) <= journal && Cmds(journal) == Cmds(old(journal)) + AllCmds(events)
      ensures forall fd :: fd in conns ==>
                var id := conns[fd].id;
                id in gone && gone[id] + conns[fd].queue == StreamOf(old(journal), id) + Scripted(events, states, fd, id)
      ensures forall id :: id in gone ==> gone[id] <= StreamOf(old(journal), id) + Scripted(events, states, Home(journal, id), id)
      ensures forall fd :: fd in conns ==> fd in epoll && (epoll[fd] <==> fd in writeFds) && (fd in writeFds ==> Pending(conns[fd]) > 0)
      ensures forall fd :: fd in conns && Pending(conns[fd]) > 0 ==> fd in writeFds || fd in cmdFlushSet
      ensures writeFds + closeOnDrain + cmdFlushSet <= conns.Keys == epoll.Keys
      ensures old(MarkedArePending(Now())) && NeverRisky(events, old(closeOnDrain), old(cmdFlushSet)) ==> MarkedArePending(Now())
    {
      hide Sound, MarkedArePending, Step, IsRun;
      states := [Now()];
      NoRun(Now());
      RunMeans([], states);
      assert events[..0] == [];
      for k := 0 to |events|
        invariant Inv() && IsRun(events[..k], states) && |states| == k + 1 && states[0] == old(Now()) && states[k] == Now()
      {
        Dispatch(events[k]);
        RunGoesOn(events[..k], events[k], states, Now());
        assert events[..k + 1] == events[..k] + [events[k]];
        states := states + [Now()];
      }
      assert events[..|events|] == events;
      hide Cmds, AllCmds, StreamOf, Scripted, NeverRisky;
      RunConsumes(events, states);
      RunKeepsMarks(events, states);
      WhatWasSent(events, states);
      WhatHolds();
    }

    lemma RunMeans(events: seq<Event>, states: seq<Loop>)
      requires IsRun(events, states)
      ensures |states| == |events| + 1
    {
    }

    /** Conservation, in terms of what the events submitted. */
    lemma WhatWasSent(events: seq<Event>, states: seq<Loop>)
      requires Inv() && IsRun(events, states) && |states| == |events| + 1 && states[|events|] == Now()
      ensures var j := states[0].journal;
              && (forall fd :: fd in conns ==>
                    var id := conns[fd].id;
                    id in gone && gone[id] + conns[fd].queue == StreamOf(j, id) + Scripted(events, states, fd, id))
              && (forall id :: id in gone ==> gone[id] <= StreamOf(j, id) + Scripted(events, states, Home(journal, id), id))
    {
      hide Sound, IsRun, StreamOf, Scripted, Home, Alive, Live, NextId, WellFormed;
      WhatHolds();
      forall fd | fd in conns
        ensures var id := conns[fd].id;
                id in gone && gone[id] + conns[fd].queue == StreamOf(states[0].journal, id) + Scripted(events, states, fd, id)
      {
        SoundMeans(Now(), 0, fd);
        LiveAtHome(journal, fd);
        LiveIsAlive(journal, fd);
        RunSubmits(events, states, conns[fd].id);
      }
      forall id | id in gone
        ensures gone[id] <= StreamOf(states[0].journal, id) + Scripted(events, states, Home(journal, id), id)
      {
        RunSubmits(events, states, id);
      }
    }

    lemma WhatHolds()
      requires Inv()
      ensures forall fd :: fd in conns ==> conns[fd].id in gone && gone[conns[fd].id] + conns[fd].queue == StreamOf(journal, conns[fd].id)
      ensures forall id :: id in gone ==> id < nextId && gone[id] <= StreamOf(journal, id)
      ensures forall fd :: fd in conns ==> fd in epoll && (epoll[fd] <==> fd in writeFds) && (fd in writeFds ==> Pending(conns[fd]) > 0)
      ensures forall fd :: fd in conns && Pending(conns[fd]) > 0 ==> fd in writeFds || fd in cmdFlushSet
      ensures writeFds + closeOnDrain + cmdFlushSet <= conns.Keys == epoll.Keys
    {
      hide StreamOf, JournalOk, IdleOk, IdsOk;
      forall fd | fd in conns
        ensures Conserved(Now(), fd) && Attended(Now(), fd)
      {
        assert fd > 0;
      }
    }
  }

  /** A prefix written directly and the rest queued behind nothing, or everything queued, or nothing after an error. */
  lemma Rejoined(queue: seq<byte>, out: seq<byte>, n: nat)
    requires n <= |out| && (|queue| > 0 ==> n == 0)
    ensures out[..n] + (queue + out[n..]) == queue + out
    ensures out[..n] + queue <= queue + out
  {
    if |queue| > 0 {
      assert out[..n] == [] && out[n..] == out;
    } else {
      assert queue == [] && out[..n] + out[n..] == out;
    }
  }

  lemma MovedBack(gone: seq<byte>, moved: seq<byte>)
    ensures gone <= gone + moved && (gone + moved)[|gone|..] == moved
  {
  }
}
