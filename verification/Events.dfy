/**
 What may happen to an event loop, what each event promises about the state of the loop, and
 what follows for whole runs.

 What is read, what handlers answer and which commands arrive is part of the events.
 */
module Events {
  import opened Bytes
  import opened Journal
  import opened LoopState
  import opened CloseOnDrain

  // ---------------------------------------------------------------- what may happen

  /** A packet that cannot be parsed, or one that is handed to the handler, with its answer. */
  datatype Packet = Bad | Output(data: seq<byte>, wantClose: bool)

  /** One read and its packets; `more` if processRead goes on reading after it. */
  datatype Round = Round(noRoom: bool, failed: bool, packets: seq<Packet>, more: bool)

  /** What accept returns; descriptor 0 stands for a closed connection. */
  type Fd = x: int | x > 0 witness 1

  /** A new connection; `rounds` is what is read while it is attached, if anything is. */
  datatype Accepted = Accepted(fd: Fd, client: bool, kind: Kind, buffered: bool, rounds: seq<Round>)

  /** What the poller reports; descriptor 0 is the wake-up, the idle tick and the stop. */
  datatype Event =
    | Wake(idle: bool, accepted: seq<Accepted>, cmds: seq<Cmd>)
    | Stop
    | Ready(fd: int, failed: bool, writable: bool, readable: bool, rounds: seq<Round>, accepted: seq<Accepted>)

  /** What the handler answers, up to a bad packet or to one after which it wants to close. */
  function Said(packets: seq<Packet>): seq<seq<byte>> {
    if packets == [] || packets[0].Bad? then []
    else [packets[0].data] + if packets[0].wantClose then [] else Said(packets[1..])
  }

  /** Neither a bad packet nor a wish to close. */
  predicate GoesOn(packets: seq<Packet>) {
    forall i :: 0 <= i < |packets| ==> packets[i].Output? && !packets[i].wantClose
  }

  /** What the handler answers in a read event.  When the rounds run out, the socket has nothing more. */
  function SaidIn(rounds: seq<Round>): seq<seq<byte>> {
    if rounds == [] || rounds[0].noRoom || rounds[0].failed then []
    else Said(rounds[0].packets) + if rounds[0].more && GoesOn(rounds[0].packets) then SaidIn(rounds[1..]) else []
  }

  /** Whether attaching drains input that the TLS engine holds. */
  predicate ReadsAtOnce(a: Accepted) {
    a.kind == AsyncTls || (a.kind == KernelTls && a.buffered)
  }

  function Expects(a: Accepted): seq<seq<byte>> {
    if ReadsAtOnce(a) then SaidIn(a.rounds) else []
  }

  /** New connections get the IDs from `first` on. */
  function ExpectsAll(accepted: seq<Accepted>, first: nat): map<nat, seq<seq<byte>>> {
    if accepted == [] then map[] else
      var n := |accepted| - 1;
      ExpectsAll(accepted[..n], first)[first + n := Expects(accepted[n])]
  }

  /** What handlers have to say in an event, by connection ID. */
  function Expected(e: Event, j: seq<Fact>): map<nat, seq<seq<byte>>> {
    match e
    case Wake(_, accepted, _) => ExpectsAll(accepted, NextId(j))
    case Stop => map[]
    case Ready(fd, failed, _, readable, rounds, accepted) =>
      if fd in Live(j) then
        if readable && !failed then map[Live(j)[fd] := SaidIn(rounds)] else map[]
      else if readable then ExpectsAll(accepted, NextId(j)) else map[]
  }

  function CmdsOf(e: Event): seq<Cmd> {
    if e.Wake? then e.cmds else []
  }

  function AllCmds(events: seq<Event>): seq<Cmd> {
    if events == [] then [] else AllCmds(events[..|events| - 1]) + CmdsOf(events[|events| - 1])
  }

  /**
   The journal grew by what the event brought: first the answers of the handlers, then its
   commands, in order.  No connection is attached behind the first command.
   */
  ghost predicate Tells(e: Event, j: seq<Fact>, j': seq<Fact>) {
    exists m :: IsMiddle(e, j, j', m)
  }

  ghost predicate IsMiddle(e: Event, j: seq<Fact>, j': seq<Fact>, m: nat) {
    && |j| <= m <= |j'| && Follows(j, j'[..m], Expected(e, j), []) && Follows(j'[..m], j', map[], CmdsOf(e))
    && NextId(j'[..m]) == NextId(j')
  }

  // ------------------------------------------------- what the handler has to say, spelled out

  /** The packets in front of the first that ends a round, and how many of them are answered. */
  predicate EndsAt(packets: seq<Packet>, k: nat) {
    && k <= |packets|
    && (forall i :: 0 <= i < k ==> packets[i].Output? && !packets[i].wantClose)
    && (k < |packets| ==> packets[k].Bad? || packets[k].wantClose)
  }

  /** Every packet is answered, up to a bad one or up to and with one at which the handler wants to close. */
  lemma {:induction false} SaidExactly(packets: seq<Packet>, k: nat)
    requires EndsAt(packets, k)
    ensures var n := if k < |packets| && packets[k].Output? then k + 1 else k;
            |Said(packets)| == n && forall i :: 0 <= i < n ==> packets[i].Output? && Said(packets)[i] == packets[i].data
  {
    if k > 0 {
      assert EndsAt(packets[1..], k - 1);
      SaidExactly(packets[1..], k - 1);
    }
  }

  /** A read event ends with the first round that brings nothing, breaks, or does not go on. */
  lemma SaidInExactly(rounds: seq<Round>)
    ensures rounds == [] || rounds[0].noRoom || rounds[0].failed ==> SaidIn(rounds) == []
    ensures rounds != [] && !rounds[0].noRoom && !rounds[0].failed ==>
              var first := Said(rounds[0].packets);
              if rounds[0].more && EndsAt(rounds[0].packets, |rounds[0].packets|) then SaidIn(rounds) == first + SaidIn(rounds[1..])
              else SaidIn(rounds) == first
  {
    if rounds != [] {
      assert Said(rounds[0].packets) + [] == Said(rounds[0].packets);
    }
  }

  /** New connections get the next IDs in turn, and what they have to say at once is expected under these. */
  lemma {:induction false} ExpectedExactly(accepted: seq<Accepted>, first: nat, i: nat)
    requires i < |accepted|
    ensures first + i in ExpectsAll(accepted, first)
    ensures ExpectsAll(accepted, first)[first + i] ==
            match accepted[i].kind
            case PlainTcp => []
            case OpenSsl => []
            case KernelTls => if accepted[i].buffered then SaidIn(accepted[i].rounds) else []
            case AsyncTls => SaidIn(accepted[i].rounds)
  {
    var n := |accepted| - 1;
    if i < n {
      assert accepted[..n][i] == accepted[i];
      ExpectedExactly(accepted[..n], first, i);
    }
  }

  // ------------------------------------------------------------ which descriptors

  ghost function Fds(accepted: seq<Accepted>): set<int> {
    set a | a in accepted :: a.fd
  }

  ghost predicate AsksIn(packets: seq<Packet>) {
    exists i :: 0 <= i < |packets| && packets[i].Output? && packets[i].wantClose
  }

  /** The handler may ask for a close. */
  ghost predicate Asks(rounds: seq<Round>) {
    exists i :: 0 <= i < |rounds| && AsksIn(rounds[i].packets)
  }

  /** New connections that may be marked at once. */
  ghost function Askers(accepted: seq<Accepted>): set<int> {
    set a | a in accepted && ReadsAtOnce(a) && Asks(a.rounds) :: a.fd
  }

  ghost function Named(cmds: seq<Cmd>): set<int> {
    set c | c in cmds :: c.fd
  }

  predicate Submits(cmd: Cmd) {
    cmd.op == CmdData && cmd.data != []
  }

  /** Descriptors of commands that submit data. */
  ghost function Targets(cmds: seq<Cmd>): set<int> {
    set c | c in cmds && Submits(c) :: c.fd
  }

  /** What may be marked after an event. */
  ghost function MarksAfter(e: Event, marked: set<int>): set<int> {
    match e
    case Wake(_, accepted, _) => (marked - Fds(accepted)) + Askers(accepted)
    case Stop => {}
    case Ready(fd, failed, _, readable, rounds, accepted) =>
      marked + (if readable && !failed && Asks(rounds) then {fd} else {}) + (if readable then Askers(accepted) else {})
  }

  /** What may wait in the flush set after an event. */
  ghost function WaitsAfter(e: Event, waiting: set<int>): set<int> {
    match e
    case Wake(_, accepted, cmds) => (waiting - Fds(accepted)) + Targets(cmds)
    case Stop => {}
    case Ready(_, _, _, _, _, _) => waiting
  }

  /**
   The two drains that may empty a marked connection without closing it: a wake-up that may
   flush a marked connection, and a read event on one.
   */
  ghost predicate Risky(e: Event, marked: set<int>, waiting: set<int>) {
    || (e.Wake? && MarksAfter(e, marked) * WaitsAfter(e, waiting) != {})
    || (e.Ready? && e.readable && !e.failed && e.fd in marked)
  }

  /** The connections an event may touch: a wake-up also flushes those that wait, and may look for idle ones. */
  ghost function Concerned(e: Event, s: Loop): set<int> {
    match e
    case Wake(idle, accepted, cmds) => (if idle then Watched(s) else {}) + Fds(accepted) + Named(cmds) + s.cmdFlushSet
    case Stop => s.conns.Keys
    case Ready(fd, _, _, readable, _, accepted) =>
      if fd in s.conns then {fd} else if readable then Fds(accepted) else {}
  }

  /** The connections whose idle time is watched. */
  ghost function Watched(s: Loop): set<int> {
    set fd | fd in s.conns && s.conns[fd].id in s.touch
  }

  ghost function Closers(cmds: seq<Cmd>): set<int> {
    set c | c in cmds && c.op == CmdClose :: c.fd
  }

  /** The descriptors that no connection holds after an event: those of close commands, and one that the poller calls broken. */
  ghost function Closes(e: Event, s: Loop): set<int> {
    match e
    case Wake(_, _, cmds) => Closers(cmds)
    case Stop => s.conns.Keys
    case Ready(fd, failed, _, _, _, _) => if failed && fd in s.conns then {fd} else {}
  }

  /** The same connections, but for some descriptors. */
  ghost predicate Apart(a: map<int, Conn>, b: map<int, Conn>, fds: set<int>) {
    a - fds == b - fds
  }

  /** What every event promises. */
  ghost predicate Step(e: Event, s: Loop, t: Loop) {
    && Tells(e, s.journal, t.journal)
    && (e.Stop? ==> t.conns == map[])
    && t.conns.Keys !! Closes(e, s)
    && Apart(s.conns, t.conns, Concerned(e, s))
    && t.closeOnDrain <= MarksAfter(e, s.closeOnDrain)
    && t.cmdFlushSet <= WaitsAfter(e, s.cmdFlushSet)
    && (MarkedArePending(s) && !Risky(e, s.closeOnDrain, s.cmdFlushSet) ==> MarkedArePending(t))
  }

  lemma ApartThen(a: map<int, Conn>, b: map<int, Conn>, c: map<int, Conn>, x: set<int>, y: set<int>)
    requires Apart(a, b, x) && Apart(b, c, y)
    ensures Apart(a, c, x + y)
  {
    assert a - (x + y) == (a - x) - y && b - (x + y) == (b - x) - y && b - (x + y) == (b - y) - x && c - (x + y) == (c - y) - x;
  }

  lemma ApartMore(a: map<int, Conn>, b: map<int, Conn>, x: set<int>, y: set<int>)
    requires Apart(a, b, x) && x <= y
    ensures Apart(a, b, y)
  {
    assert a - y == (a - x) - y && b - y == (b - x) - y;
  }

  // -------------------------------------------------------------------- whole runs

  /** The states between the events of a run. */
  ghost predicate IsRun(events: seq<Event>, states: seq<Loop>) {
    && |states| == |events| + 1
    && (forall k :: 0 <= k < |states| ==> Sound(states[k], 0))
    && (forall k :: 0 <= k < |events| ==> Step(events[k], states[k], states[k + 1]))
  }

  lemma NoRun(s: Loop)
    requires Sound(s, 0)
    ensures IsRun([], [s])
  {
  }

  lemma RunGoesOn(events: seq<Event>, e: Event, states: seq<Loop>, t: Loop)
    requires IsRun(events, states) && Sound(t, 0) && Step(e, states[|events|], t)
    ensures IsRun(events + [e], states + [t])
  {
    hide Sound, Step;
    var more, all := states + [t], events + [e];
    forall k | 0 <= k < |all|
      ensures Step(all[k], more[k], more[k + 1])
    {
      assert k < |events| ==> Step(events[k], states[k], states[k + 1]);
    }
  }

  lemma MiddleOf(e: Event, j: seq<Fact>, mid: seq<Fact>, j': seq<Fact>)
    requires Follows(j, mid, Expected(e, j), []) && Follows(mid, j', map[], CmdsOf(e)) && NextId(mid) == NextId(j')
    ensures Tells(e, j, j')
  {
    hide Cmds, Outs, Live, NextId, At, Expected;
    assert j'[..|mid|] == mid;
    hide Follows;
    assert IsMiddle(e, j, j', |mid|);
  }

  /** The commands of the run so far. */
  lemma TellsCmds(e: Event, j: seq<Fact>, j': seq<Fact>)
    requires Tells(e, j, j')
    ensures j <= j' && Cmds(j') == Cmds(j) + CmdsOf(e)
  {
    hide Follows, Cmds, CmdsOf, Expected, NextId;
    var m: nat :| IsMiddle(e, j, j', m);
    FollowsCmds(j, j'[..m], Expected(e, j), []);
    FollowsCmds(j'[..m], j', map[], CmdsOf(e));
    assert Cmds(j) + [] == Cmds(j);
  }

  lemma FollowsCmds(j: seq<Fact>, j': seq<Fact>, outs: map<nat, seq<seq<byte>>>, cmds: seq<Cmd>)
    requires Follows(j, j', outs, cmds)
    ensures j <= j' && Cmds(j') == Cmds(j) + cmds
  {
    hide Live, Outs, Cmds;
    var fs := j'[|j|..];
    assert j' == j + fs;
    CmdsAppend(j, fs);
  }

  lemma AllCmdsNext(events: seq<Event>, e: Event)
    ensures AllCmds(events + [e]) == AllCmds(events) + CmdsOf(e)
  {
    assert (events + [e])[..|events|] == events;
  }

  /** All commands of a run are consumed, in order, and no others. */
  lemma {:induction false} RunConsumes(events: seq<Event>, states: seq<Loop>)
    requires IsRun(events, states)
    ensures states[0].journal <= states[|events|].journal
    ensures Cmds(states[|events|].journal) == Cmds(states[0].journal) + AllCmds(events)
  {
    hide Sound, Step, Cmds, AllCmds, CmdsOf, Tells;
    if events == [] {
      NoCmds(states[0].journal);
    } else {
      var n := |events| - 1;
      RunPrefix(events, states, n);
      RunConsumes(events[..n], states[..n + 1]);
      StepTells(events[n], states[n], states[n + 1]);
      TellsCmds(events[n], states[n].journal, states[n + 1].journal);
      assert events[..n] + [events[n]] == events;
      AllCmdsNext(events[..n], events[n]);
      var a, b, c := Cmds(states[0].journal), AllCmds(events[..n]), CmdsOf(events[n]);
      assert (a + b) + c == a + (b + c);
    }
  }

  lemma NoCmds(j: seq<Fact>)
    ensures Cmds(j) == Cmds(j) + AllCmds([])
  {
  }

  lemma StepTells(e: Event, s: Loop, t: Loop)
    requires Step(e, s, t)
    ensures Tells(e, s.journal, t.journal)
  {
  }

  lemma RunPrefix(events: seq<Event>, states: seq<Loop>, n: nat)
    requires IsRun(events, states) && n <= |events|
    ensures IsRun(events[..n], states[..n + 1])
    ensures states[..n + 1][0] == states[0] && states[..n + 1][n] == states[n]
    ensures forall k :: 0 <= k < |events| ==> Step(events[k], states[k], states[k + 1])
    ensures forall k :: 0 <= k < |states| ==> Sound(states[k], 0)
  {
    hide Sound, Step;
    var before, es := states[..n + 1], events[..n];
    forall k | 0 <= k < n
      ensures Step(es[k], before[k], before[k + 1])
    {
      assert Step(events[k], states[k], states[k + 1]);
    }
  }

  // ------------------------------------------------------------- what is submitted

  /** What an event submits to a connection: its handler's answers, then the data of the commands that name it. */
  ghost function SubmittedBy(e: Event, j: seq<Fact>, fd: int, id: nat): seq<byte> {
    Flatten(At(Expected(e, j), id)) + DataTo(CmdsOf(e), fd, id)
  }

  /** What a run submits to a connection, from the event on that attached it. */
  ghost function Scripted(events: seq<Event>, states: seq<Loop>, fd: int, id: nat): seq<byte>
    requires |states| == |events| + 1
  {
    if events == [] then [] else
      var n := |events| - 1;
      Scripted(events[..n], states[..n + 1], fd, id)
      + if id < states[n + 1].nextId then SubmittedBy(events[n], states[n].journal, fd, id) else []
  }

  /** One event: a connection that is live after it gets exactly what the event submits to it, any other a beginning. */
  lemma StepSubmits(e: Event, s: Loop, t: Loop, id: nat)
    requires Sound(t, 0) && Step(e, s, t) && id < t.nextId
    ensures var x := SubmittedBy(e, s.journal, Home(t.journal, id), id);
            && StreamOf(t.journal, id) <= StreamOf(s.journal, id) + x
            && (Alive(t.journal, id) ==> StreamOf(t.journal, id) == StreamOf(s.journal, id) + x)
  {
    JournalMeans(t);
    StepTells(e, s, t);
    hide Sound, Step, Expected, CmdsOf, DataTo, Home, StreamOf, Alive, NextId, WellFormed, Follows;
    var m: nat :| IsMiddle(e, s.journal, t.journal, m);
    StretchAdds(s.journal, t.journal[..m], t.journal, Expected(e, s.journal), CmdsOf(e), id);
  }

  lemma JournalMeans(s: Loop)
    requires Sound(s, 0)
    ensures WellFormed(s.journal) && s.nextId == NextId(s.journal)
  {
    hide WellFormed, NextId, Live, KeysOk, IdsOk, LogsOk, IdleOk, AllConserved, AllAttended;
  }

  /** Nothing is submitted to a connection before it is attached. */
  lemma {:induction false} NothingScripted(events: seq<Event>, states: seq<Loop>, fd: int, id: nat)
    requires IsRun(events, states) && id >= states[|events|].nextId
    ensures Scripted(events, states, fd, id) == []
    ensures states[0].nextId <= states[|events|].nextId
  {
    hide Sound, Step, SubmittedBy;
    if events != [] {
      var n := |events| - 1;
      RunPrefix(events, states, n);
      IdsGrow(events[n], states[n], states[n + 1]);
      NothingScripted(events[..n], states[..n + 1], fd, id);
    }
  }

  lemma IdsGrow(e: Event, s: Loop, t: Loop)
    requires Sound(s, 0) && Sound(t, 0) && Step(e, s, t)
    ensures s.nextId <= t.nextId && s.journal <= t.journal
  {
    hide Sound, Step, Tells, NextId, WellFormed, Cmds, CmdsOf;
    JournalMeans(s);
    JournalMeans(t);
    StepTells(e, s, t);
    TellsCmds(e, s.journal, t.journal);
    NextIdGrows(t.journal, |s.journal|);
    assert t.journal[..|s.journal|] == s.journal;
  }

  /**
   Over a whole run: what is submitted to a connection that is live at the end is exactly what
   the events submit to it, in their order, and nothing else; any other got a beginning of that.
   */
  lemma {:induction false} RunSubmits(events: seq<Event>, states: seq<Loop>, id: nat)
    requires IsRun(events, states) && id < states[|events|].nextId
    ensures var j, j' := states[0].journal, states[|events|].journal;
            var x := Scripted(events, states, Home(j', id), id);
            && StreamOf(j', id) <= StreamOf(j, id) + x
            && (Alive(j', id) ==> StreamOf(j', id) == StreamOf(j, id) + x)
  {
    hide Sound, Step, SubmittedBy, StreamOf, Home, Alive;
    if events == [] {
      assert StreamOf(states[0].journal, id) + [] == StreamOf(states[0].journal, id);
    } else {
      var n := |events| - 1;
      RunPrefix(events, states, n);
      var s, t := states[n], states[n + 1];
      var home := Home(t.journal, id);
      StepSubmits(events[n], s, t, id);
      var x := SubmittedBy(events[n], s.journal, home, id);
      var before := Scripted(events[..n], states[..n + 1], home, id);
      if id < s.nextId {
        RunSubmits(events[..n], states[..n + 1], id);
        OldConnection(events[n], s, t, id);
        hide Scripted;
        SubmitsMore(StreamOf(states[0].journal, id), before, StreamOf(s.journal, id), x, StreamOf(t.journal, id), Alive(s.journal, id),
                    Alive(t.journal, id));
      } else {
        NothingScripted(events[..n], states[..n + 1], home, id);
        JournalMeans(s);
        JournalMeans(states[0]);
        NothingForNewIds(s.journal, id);
        NothingForNewIds(states[0].journal, id);
        assert [] + x == x;
      }
    }
  }

  /** A connection that is gone stays gone and gets nothing more. */
  lemma OldConnection(e: Event, s: Loop, t: Loop, id: nat)
    requires Sound(s, 0) && Sound(t, 0) && Step(e, s, t) && id < s.nextId
    ensures Home(t.journal, id) == Home(s.journal, id)
    ensures Alive(t.journal, id) ==> Alive(s.journal, id)
    ensures !Alive(s.journal, id) ==> StreamOf(t.journal, id) == StreamOf(s.journal, id)
  {
    hide Sound, Step, StreamOf, Home, Alive, NextId, WellFormed;
    JournalMeans(s);
    JournalMeans(t);
    IdsGrow(e, s, t);
    var j, j' := s.journal, t.journal;
    assert j'[..|j|] == j && j' == j + j'[|j|..];
    HomeStays(j', |j|, id);
    if Alive(j', id) {
      AliveStays(j', |j|, id);
    }
    if !Alive(j, id) {
      GoneStays(j, j'[|j|..], id);
    }
  }

  lemma SubmitsMore(start: seq<byte>, before: seq<byte>, sofar: seq<byte>, x: seq<byte>, now: seq<byte>, wasAlive: bool, isAlive: bool)
    requires sofar <= start + before && (wasAlive ==> sofar == start + before)
    requires now <= sofar + x && (isAlive ==> now == sofar + x) && (isAlive ==> wasAlive) && (!wasAlive ==> now == sofar)
    ensures now <= start + (before + x) && (isAlive ==> now == start + (before + x))
  {
    assert (start + before) + x == start + (before + x);
  }

  /** The data of a command stands in what its run submits, behind all that came before it. */
  lemma CommandStands(events: seq<Event>, states: seq<Loop>, k: nat, i: nat)
    requires |states| == |events| + 1 && k < |events| && i < |CmdsOf(events[k])|
    requires CmdsOf(events[k])[i].op == CmdData && CmdsOf(events[k])[i].id < states[k + 1].nextId
    ensures var cmd := CmdsOf(events[k])[i];
            Scripted(events[..k], states[..k + 1], cmd.fd, cmd.id)
            + (Flatten(At(Expected(events[k], states[k].journal), cmd.id)) + DataTo(CmdsOf(events[k])[..i], cmd.fd, cmd.id)) + cmd.data
            <= Scripted(events, states, cmd.fd, cmd.id)
  {
    var cmd := CmdsOf(events[k])[i];
    StandsInEvent(events[k], states[k].journal, i);
    ScriptedGrows(events, states, k + 1, cmd.fd, cmd.id);
    ScriptedNext(events, states, k, cmd.fd, cmd.id);
    hide Scripted, DataTo, Expected, CmdsOf, Flatten, At, SubmittedBy;
    Stands(Scripted(events[..k], states[..k + 1], cmd.fd, cmd.id),
           Flatten(At(Expected(events[k], states[k].journal), cmd.id)) + DataTo(CmdsOf(events[k])[..i], cmd.fd, cmd.id), cmd.data,
           SubmittedBy(events[k], states[k].journal, cmd.fd, cmd.id));
  }

  lemma ScriptedNext(events: seq<Event>, states: seq<Loop>, k: nat, fd: int, id: nat)
    requires |states| == |events| + 1 && k < |events|
    ensures Scripted(events[..k + 1], states[..k + 2], fd, id) ==
            Scripted(events[..k], states[..k + 1], fd, id)
            + if id < states[k + 1].nextId then SubmittedBy(events[k], states[k].journal, fd, id) else []
  {
    assert events[..k + 1][..k] == events[..k] && states[..k + 2][..k + 1] == states[..k + 1];
    hide SubmittedBy;
  }

  lemma StandsInEvent(e: Event, j: seq<Fact>, i: nat)
    requires i < |CmdsOf(e)| && CmdsOf(e)[i].op == CmdData
    ensures var cmd := CmdsOf(e)[i];
            Flatten(At(Expected(e, j), cmd.id)) + DataTo(CmdsOf(e)[..i], cmd.fd, cmd.id) + cmd.data <= SubmittedBy(e, j, cmd.fd, cmd.id)
  {
    hide DataTo, Expected, CmdsOf, Flatten, At;
    var cmds, cmd := CmdsOf(e), CmdsOf(e)[i];
    assert cmds[..i + 1] == cmds[..i] + [cmd];
    DataToNext(cmds[..i], cmd, cmd.fd, cmd.id);
    DataToGrows(cmds, i + 1, cmd.fd, cmd.id);
    Stands(Flatten(At(Expected(e, j), cmd.id)), DataTo(cmds[..i], cmd.fd, cmd.id), cmd.data, DataTo(cmds, cmd.fd, cmd.id));
  }

  lemma Stands(front: seq<byte>, d: seq<byte>, data: seq<byte>, all: seq<byte>)
    requires d + data <= all
    ensures front + d + data <= front + all
  {
    assert front + d + data == front + (d + data);
  }

  lemma {:induction false} DataToGrows(cmds: seq<Cmd>, n: nat, fd: int, id: nat)
    requires n <= |cmds|
    ensures DataTo(cmds[..n], fd, id) <= DataTo(cmds, fd, id)
    decreases |cmds|
  {
    if n == |cmds| {
      assert cmds[..n] == cmds;
    } else {
      assert cmds[..|cmds| - 1][..n] == cmds[..n];
      DataToGrows(cmds[..|cmds| - 1], n, fd, id);
    }
  }

  lemma {:induction false} ScriptedGrows(events: seq<Event>, states: seq<Loop>, n: nat, fd: int, id: nat)
    requires |states| == |events| + 1 && n <= |events|
    ensures Scripted(events[..n], states[..n + 1], fd, id) <= Scripted(events, states, fd, id)
    decreases |events|
  {
    hide SubmittedBy;
    if n == |events| {
      assert events[..n] == events && states[..n + 1] == states;
    } else {
      var m := |events| - 1;
      assert events[..m][..n] == events[..n] && states[..m + 1][..n + 1] == states[..n + 1];
      ScriptedGrows(events[..m], states[..m + 1], n, fd, id);
    }
  }

  // ------------------------------------------------------------------ marked connections

  ghost function MarksAfterAll(events: seq<Event>, marked: set<int>): set<int> {
    if events == [] then marked else MarksAfter(events[|events| - 1], MarksAfterAll(events[..|events| - 1], marked))
  }

  ghost function WaitsAfterAll(events: seq<Event>, waiting: set<int>): set<int> {
    if events == [] then waiting else WaitsAfter(events[|events| - 1], WaitsAfterAll(events[..|events| - 1], waiting))
  }

  /** No event of a run is risky, going by what is marked and what waits at its beginning. */
  ghost predicate NeverRisky(events: seq<Event>, marked: set<int>, waiting: set<int>) {
    forall k :: 0 <= k < |events| ==> !Risky(events[k], MarksAfterAll(events[..k], marked), WaitsAfterAll(events[..k], waiting))
  }

  lemma MoreIsRiskier(e: Event, m: set<int>, w: set<int>, m': set<int>, w': set<int>)
    requires m <= m' && w <= w'
    ensures MarksAfter(e, m) <= MarksAfter(e, m') && WaitsAfter(e, w) <= WaitsAfter(e, w')
    ensures Risky(e, m, w) ==> Risky(e, m', w')
  {
    assert MarksAfter(e, m) <= MarksAfter(e, m') && WaitsAfter(e, w) <= WaitsAfter(e, w');
    hide MarksAfter, WaitsAfter;
    assert MarksAfter(e, m) * WaitsAfter(e, w) <= MarksAfter(e, m') * WaitsAfter(e, w');
  }

  /** A run without risky events keeps output pending on every marked connection. */
  lemma {:induction false} RunKeepsMarks(events: seq<Event>, states: seq<Loop>)
    requires IsRun(events, states)
    ensures states[|events|].closeOnDrain <= MarksAfterAll(events, states[0].closeOnDrain)
    ensures states[|events|].cmdFlushSet <= WaitsAfterAll(events, states[0].cmdFlushSet)
    ensures MarkedArePending(states[0]) && NeverRisky(events, states[0].closeOnDrain, states[0].cmdFlushSet) ==>
              MarkedArePending(states[|events|])
  {
    hide Sound, Tells, MarkedArePending, MarksAfter, WaitsAfter, Risky, Apart, Concerned;
    if events != [] {
      var n := |events| - 1;
      var m, w := states[0].closeOnDrain, states[0].cmdFlushSet;
      RunPrefix(events, states, n);
      RunKeepsMarks(events[..n], states[..n + 1]);
      MoreIsRiskier(events[n], states[n].closeOnDrain, states[n].cmdFlushSet, MarksAfterAll(events[..n], m), WaitsAfterAll(events[..n], w));
      if NeverRisky(events, m, w) {
        assert NeverRisky(events[..n], m, w) by {
          forall k | 0 <= k < n
            ensures !Risky(events[..n][k], MarksAfterAll(events[..n][..k], m), WaitsAfterAll(events[..n][..k], w))
          {
            assert events[..n][..k] == events[..k];
          }
        }
      }
    }
  }
}
