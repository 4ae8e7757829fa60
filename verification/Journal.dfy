/**
 What happens to the connections of a loop, in the order in which it happens: which
 connection holds which descriptor, what handlers answer and which commands are consumed.
 Everything a connection is asked to send follows from the journal.
 */
module Journal {
  import opened Bytes

  datatype Op = CmdNop | CmdData | CmdClose
  datatype Cmd = Cmd(op: Op, fd: int, id: nat, data: seq<byte>)

  datatype Fact =
    | Attached(fd: int, id: nat)
    | Refused(fd: int, id: nat)             // an ID was spent on a connection that could not be attached
    | Closed(fd: int)
    | Heard(fd: int, id: nat, data: seq<byte>)   // output of the handler for input on a connection
    | Consumed(cmd: Cmd)

  /** The connections attached and not closed since: descriptor to ID. */
  function Live(j: seq<Fact>): map<int, nat> {
    if j == [] then map[] else
      var live, last := Live(j[..|j| - 1]), j[|j| - 1];
      match last
      case Attached(fd, id) => live[fd := id]
      case Closed(fd) => live - {fd}
      case _ => live
  }

  /** IDs are given out in turn, one for every attempt to attach. */
  function NextId(j: seq<Fact>): nat {
    if j == [] then 0 else
      NextId(j[..|j| - 1]) + if j[|j| - 1].Attached? || j[|j| - 1].Refused? then 1 else 0
  }

  /** A data command reaches a connection if descriptor and ID are that of the command. */
  predicate Reaches(cmd: Cmd, live: map<int, nat>) {
    cmd.op == CmdData && cmd.fd in live && live[cmd.fd] == cmd.id
  }

  /** What a fact adds to the output of the connection with an ID. */
  function Adds(f: Fact, live: map<int, nat>, id: nat): seq<byte> {
    if f.Heard? && f.id == id then f.data
    else if f.Consumed? && f.cmd.id == id && Reaches(f.cmd, live) then f.cmd.data
    else []
  }

  /** Everything the connection with an ID is asked to send, in order. */
  function StreamOf(j: seq<Fact>, id: nat): seq<byte> {
    if j == [] then [] else
      StreamOf(j[..|j| - 1], id) + Adds(j[|j| - 1], Live(j[..|j| - 1]), id)
  }

  /** IDs are new when given out, and handlers answer only for live connections. */
  ghost predicate WellFormed(j: seq<Fact>) {
    forall k :: 0 <= k < |j| ==>
      && (j[k].Attached? || j[k].Refused? ==> j[k].id == NextId(j[..k]))
      && (j[k].Heard? ==> j[k].fd in Live(j[..k]) && Live(j[..k])[j[k].fd] == j[k].id)
  }

  lemma Snoc(j: seq<Fact>, f: Fact)
    ensures Live(j + [f]) ==
            if f.Attached? then Live(j)[f.fd := f.id] else if f.Closed? then Live(j) - {f.fd} else Live(j)
    ensures NextId(j + [f]) == NextId(j) + if f.Attached? || f.Refused? then 1 else 0
    ensures forall id :: StreamOf(j + [f], id) == StreamOf(j, id) + Adds(f, Live(j), id)
  {
    assert (j + [f])[..|j|] == j;
  }

  lemma StreamSnoc(j: seq<Fact>, f: Fact, id: nat)
    ensures StreamOf(j + [f], id) == StreamOf(j, id) + Adds(f, Live(j), id)
  {
    assert (j + [f])[..|j|] == j;
  }

  lemma WellFormedSnoc(j: seq<Fact>, f: Fact)
    requires WellFormed(j)
    requires f.Attached? || f.Refused? ==> f.id == NextId(j)
    requires f.Heard? ==> f.fd in Live(j) && Live(j)[f.fd] == f.id
    ensures WellFormed(j + [f])
  {
    hide Live, NextId;
    var j' := j + [f];
    forall k | 0 <= k < |j'|
      ensures j'[..k] == j[..k]
    {
    }
    assert j'[..|j|] == j && j[..|j|] == j;
  }

  lemma WellFormedPrefix(j: seq<Fact>, n: nat)
    requires WellFormed(j) && n <= |j|
    ensures WellFormed(j[..n])
  {
    hide Live, NextId;
    forall k | 0 <= k < n
      ensures j[..n][..k] == j[..k]
    {
    }
  }

  /** Live connections have IDs that were given out. */
  lemma {:induction false} LiveIdsAreOld(j: seq<Fact>)
    requires WellFormed(j)
    ensures forall fd :: fd in Live(j) ==> Live(j)[fd] < NextId(j)
  {
    if j != [] {
      var n := |j| - 1;
      WellFormedPrefix(j, n);
      LiveIdsAreOld(j[..n]);
      assert j[..n] + [j[n]] == j;
      Snoc(j[..n], j[n]);
      hide Live, NextId;
    }
  }

  /** Nothing has been submitted under an ID not given out yet. */
  lemma {:induction false} NothingForNewIds(j: seq<Fact>, id: nat)
    requires WellFormed(j) && id >= NextId(j)
    ensures StreamOf(j, id) == []
  {
    if j != [] {
      var n := |j| - 1;
      WellFormedPrefix(j, n);
      assert j[..n] + [j[n]] == j;
      Snoc(j[..n], j[n]);
      LiveIdsAreOld(j[..n]);
      hide Live, NextId;
      NothingForNewIds(j[..n], id);
    }
  }

  /** A connection that is live now and has an old ID was live then. */
  lemma {:induction false} LiveStays(j: seq<Fact>, n: nat, fd: int)
    requires WellFormed(j) && n <= |j| && fd in Live(j) && Live(j)[fd] < NextId(j[..n])
    ensures fd in Live(j[..n]) && Live(j[..n])[fd] == Live(j)[fd]
  {
    if n == |j| {
      assert j[..n] == j;
    } else {
      var m := |j| - 1;
      assert j[..m] + [j[m]] == j && j[..m][..n] == j[..n];
      Snoc(j[..m], j[m]);
      WellFormedPrefix(j, m);
      NextIdGrows(j[..m], n);
      hide Live, NextId;
      LiveStays(j[..m], n, fd);
    }
  }

  lemma {:induction false} NextIdGrows(j: seq<Fact>, n: nat)
    requires n <= |j|
    ensures NextId(j[..n]) <= NextId(j)
  {
    if n == |j| {
      assert j[..n] == j;
    } else {
      assert j[..|j| - 1][..n] == j[..n];
      NextIdGrows(j[..|j| - 1], n);
    }
  }

  /** A command that submits nothing changes no stream and no connection. */
  lemma QuietCommand(j: seq<Fact>, cmd: Cmd)
    requires WellFormed(j) && (cmd.data == [] || !Reaches(cmd, Live(j)))
    ensures WellFormed(j + [Consumed(cmd)]) && NextId(j + [Consumed(cmd)]) == NextId(j) && Live(j + [Consumed(cmd)]) == Live(j)
    ensures forall id :: StreamOf(j + [Consumed(cmd)], id) == StreamOf(j, id)
  {
    var f := Consumed(cmd);
    Snoc(j, f);
    WellFormedSnoc(j, f);
    hide WellFormed, NextId, StreamOf, Live;
    forall id: nat
      ensures StreamOf(j + [f], id) == StreamOf(j, id)
    {
      assert StreamOf(j, id) + [] == StreamOf(j, id);
    }
  }

  // ------------------------------------------------------------- commands land by ID

  /** What was submitted stays submitted. */
  lemma {:induction false} StreamGrows(j: seq<Fact>, n: nat, id: nat)
    requires n <= |j|
    ensures StreamOf(j[..n], id) <= StreamOf(j, id)
  {
    if n == |j| {
      assert j[..n] == j;
    } else {
      assert j[..|j| - 1][..n] == j[..n];
      StreamGrows(j[..|j| - 1], n, id);
    }
  }

  /**
   A data command, wherever in the journal: if the connection that it names by descriptor and
   ID is live at the end and its ID had been given out before, its bytes are in the stream of
   that connection, behind all that was submitted before; it adds to no other stream.
   */
  lemma CommandLandsByItsId(j: seq<Fact>, k: nat)
    requires WellFormed(j) && k < |j| && j[k].Consumed? && Reaches(j[k].cmd, Live(j)) && j[k].cmd.id < NextId(j[..k])
    ensures StreamOf(j[..k], j[k].cmd.id) + j[k].cmd.data <= StreamOf(j, j[k].cmd.id)
    ensures forall id :: id != j[k].cmd.id ==> StreamOf(j[..k + 1], id) == StreamOf(j[..k], id)
  {
    hide StreamOf, Live, NextId, WellFormed;
    var cmd := j[k].cmd;
    LiveStays(j, k, cmd.fd);
    assert j[..k + 1] == j[..k] + [j[k]];
    StreamSnoc(j[..k], j[k], cmd.id);
    StreamGrows(j, k + 1, cmd.id);
    forall id: nat | id != cmd.id
      ensures StreamOf(j[..k + 1], id) == StreamOf(j[..k], id)
    {
      StreamSnoc(j[..k], j[k], id);
      assert StreamOf(j[..k], id) + [] == StreamOf(j[..k], id);
    }
  }

  // ---------------------------------------------------------- where connections live

  /** The descriptor on which the connection with an ID was attached. */
  function Home(j: seq<Fact>, id: nat): int {
    if j == [] then 0 else
      var last := j[|j| - 1];
      if last.Attached? && last.id == id then last.fd else Home(j[..|j| - 1], id)
  }

  lemma HomeSnoc(j: seq<Fact>, f: Fact, id: nat)
    ensures Home(j + [f], id) == if f.Attached? && f.id == id then f.fd else Home(j, id)
  {
    assert (j + [f])[..|j|] == j;
  }

  /** A live connection lives where it was attached. */
  lemma {:induction false} LiveAtHome(j: seq<Fact>, fd: int)
    requires WellFormed(j) && fd in Live(j)
    ensures Home(j, Live(j)[fd]) == fd
  {
    if j != [] {
      var n := |j| - 1;
      WellFormedPrefix(j, n);
      LiveIdsAreOld(j[..n]);
      assert j[..n] + [j[n]] == j;
      Snoc(j[..n], j[n]);
      HomeSnoc(j[..n], j[n], Live(j)[fd]);
      hide Live, NextId, Home;
      if !(j[n].Attached? && j[n].fd == fd) {
        LiveAtHome(j[..n], fd);
      }
    }
  }

  lemma {:induction false} HomeStays(j: seq<Fact>, n: nat, id: nat)
    requires WellFormed(j) && n <= |j| && id < NextId(j[..n])
    ensures Home(j, id) == Home(j[..n], id)
  {
    if n == |j| {
      assert j[..n] == j;
    } else {
      var m := |j| - 1;
      assert j[..m] + [j[m]] == j && j[..m][..n] == j[..n];
      WellFormedPrefix(j, m);
      NextIdGrows(j[..m], n);
      HomeSnoc(j[..m], j[m], id);
      hide Home;
      HomeStays(j[..m], n, id);
    }
  }

  /** A connection is live on its own descriptor or not at all. */
  predicate Alive(j: seq<Fact>, id: nat) {
    Home(j, id) in Live(j) && Live(j)[Home(j, id)] == id
  }

  lemma LiveIsAlive(j: seq<Fact>, fd: int)
    requires WellFormed(j) && fd in Live(j)
    ensures Alive(j, Live(j)[fd])
  {
    LiveAtHome(j, fd);
  }

  lemma AliveStays(j: seq<Fact>, n: nat, id: nat)
    requires WellFormed(j) && n <= |j| && id < NextId(j[..n]) && Alive(j, id)
    ensures Alive(j[..n], id)
  {
    hide Live, Home, NextId;
    LiveStays(j, n, Home(j, id));
    HomeStays(j, n, id);
  }

  // ---------------------------------------------------- projections of a stretch of facts

  /** The commands consumed, in order. */
  function Cmds(fs: seq<Fact>): seq<Cmd> {
    if fs == [] then [] else
      Cmds(fs[..|fs| - 1]) + if fs[|fs| - 1].Consumed? then [fs[|fs| - 1].cmd] else []
  }

  /** What handlers answered for the connection with an ID, in order. */
  function Outs(fs: seq<Fact>, id: nat): seq<seq<byte>> {
    if fs == [] then [] else
      var last := fs[|fs| - 1];
      Outs(fs[..|fs| - 1], id) + if last.Heard? && last.id == id then [last.data] else []
  }

  /** The data of the commands that name a connection, in order. */
  function DataTo(cmds: seq<Cmd>, fd: int, id: nat): seq<byte> {
    if cmds == [] then [] else
      var last := cmds[|cmds| - 1];
      DataTo(cmds[..|cmds| - 1], fd, id) + if last.op == CmdData && last.fd == fd && last.id == id then last.data else []
  }

  lemma {:induction false} CmdsAppend(a: seq<Fact>, b: seq<Fact>)
    ensures Cmds(a + b) == Cmds(a) + Cmds(b)
    decreases |b|
  {
    if b == [] {
      assert a + b == a && Cmds(a) + [] == Cmds(a);
    } else {
      assert (a + b)[..|a + b| - 1] == a + b[..|b| - 1];
      CmdsAppend(a, b[..|b| - 1]);
    }
  }

  lemma {:induction false} OutsAppend(a: seq<Fact>, b: seq<Fact>, id: nat)
    ensures Outs(a + b, id) == Outs(a, id) + Outs(b, id)
    decreases |b|
  {
    if b == [] {
      assert a + b == a && Outs(a, id) + [] == Outs(a, id);
    } else {
      assert (a + b)[..|a + b| - 1] == a + b[..|b| - 1];
      OutsAppend(a, b[..|b| - 1], id);
    }
  }

  /** The facts of a handler's answers, one after the other. */
  function Hears(fd: int, id: nat, outs: seq<seq<byte>>): seq<Fact> {
    seq(|outs|, i requires 0 <= i < |outs| => Heard(fd, id, outs[i]))
  }

  lemma {:induction false} HearsProjected(fd: int, id: nat, outs: seq<seq<byte>>, other: nat)
    ensures Cmds(Hears(fd, id, outs)) == []
    ensures Outs(Hears(fd, id, outs), other) == if other == id then outs else []
  {
    if outs != [] {
      var n := |outs| - 1;
      assert Hears(fd, id, outs)[..n] == Hears(fd, id, outs[..n]);
      HearsProjected(fd, id, outs[..n], other);
    }
  }

  /** Nothing but connections being closed. */
  predicate OnlyClosed(fs: seq<Fact>) {
    forall i :: 0 <= i < |fs| ==> fs[i].Closed?
  }

  lemma {:induction false} ClosedProjected(fs: seq<Fact>, id: nat)
    requires OnlyClosed(fs)
    ensures Cmds(fs) == [] && Outs(fs, id) == []
  {
    if fs != [] {
      ClosedProjected(fs[..|fs| - 1], id);
    }
  }

  // ----------------------------------------------------------- what a step may tell

  function At(outs: map<nat, seq<seq<byte>>>, id: nat): seq<seq<byte>> {
    if id in outs then outs[id] else []
  }

  /**
   From `j` to `j'` exactly the given commands were consumed, in order, and handlers
   answered what they had to say: all of it for a connection that is still live, and a
   beginning of it for any other.
   */
  ghost predicate Follows(j: seq<Fact>, j': seq<Fact>, outs: map<nat, seq<seq<byte>>>, cmds: seq<Cmd>) {
    && j <= j'
    && var fs := j'[|j|..];
       && Cmds(fs) == cmds
       && (forall id :: Outs(fs, id) <= At(outs, id))
       && (forall fd :: fd in Live(j') ==> Outs(fs, Live(j')[fd]) == At(outs, Live(j')[fd]))
  }

  lemma NothingFollows(j: seq<Fact>)
    ensures Follows(j, j, map[], [])
  {
    assert j[|j|..] == [];
  }

  lemma ClosingFollows(j: seq<Fact>, fs: seq<Fact>)
    requires OnlyClosed(fs)
    ensures Follows(j, j + fs, map[], [])
  {
    hide Live, Cmds, Outs;
    assert (j + fs)[|j|..] == fs;
    ClosedProjected(fs, 0);
    forall id: nat
      ensures Outs(fs, id) == []
    {
      ClosedProjected(fs, id);
    }
  }

  lemma ConsumingFollows(j: seq<Fact>, cmd: Cmd, fs: seq<Fact>)
    requires OnlyClosed(fs)
    ensures Follows(j, j + [Consumed(cmd)] + fs, map[], [cmd])
  {
    var first := [Consumed(cmd)];
    assert first[..0] == [];
    assert Cmds(first) == [cmd];
    var all := first + fs;
    assert j + first + fs == j + all && (j + all)[|j|..] == all;
    ClosedProjected(fs, 0);
    CmdsAppend(first, fs);
    forall id: nat
      ensures Outs(all, id) == []
    {
      assert Outs(first, id) == [];
      OutsAppend(first, fs, id);
      ClosedProjected(fs, id);
    }
    hide Live, Cmds, Outs;
  }

  /** The answers on one connection, which is closed afterwards or not. */
  lemma AnsweringFollows(j: seq<Fact>, fd: int, id: nat, said: seq<seq<byte>>, all: seq<seq<byte>>, fs: seq<Fact>)
    requires OnlyClosed(fs) && said <= all
    requires said == all || id !in Live(j + Hears(fd, id, said) + fs).Values
    ensures Follows(j, j + Hears(fd, id, said) + fs, map[id := all], [])
  {
    var first := Hears(fd, id, said);
    var more := first + fs;
    assert j + first + fs == j + more && (j + more)[|j|..] == more;
    hide Live, Cmds, Outs, Hears;
    HearsProjected(fd, id, said, id);
    ClosedProjected(fs, id);
    CmdsAppend(first, fs);
    forall other: nat
      ensures Outs(more, other) == if other == id then said else []
    {
      OutsAppend(first, fs, other);
      HearsProjected(fd, id, said, other);
      ClosedProjected(fs, other);
    }
  }

  /** One stretch after the other. */
  lemma FollowsThen(j: seq<Fact>, j1: seq<Fact>, j2: seq<Fact>, outs1: map<nat, seq<seq<byte>>>, outs2: map<nat, seq<seq<byte>>>,
                    cmds1: seq<Cmd>, cmds2: seq<Cmd>)
    requires Follows(j, j1, outs1, cmds1) && Follows(j1, j2, outs2, cmds2) && WellFormed(j2)
    requires outs1.Keys !! outs2.Keys && forall id :: id in outs1 ==> id < NextId(j1)
    ensures Follows(j, j2, outs1 + outs2, cmds1 + cmds2)
  {
    hide Cmds, Outs, Live, NextId, WellFormed, At;
    var a, b := j1[|j|..], j2[|j1|..];
    assert j2[|j|..] == a + b;
    CmdsAppend(a, b);
    forall id: nat
      ensures Outs(a + b, id) <= At(outs1 + outs2, id)
    {
      OutsAppend(a, b, id);
      AtEither(outs1, outs2, id, Outs(a, id), Outs(b, id));
    }
    forall fd | fd in Live(j2)
      ensures Outs(a + b, Live(j2)[fd]) == At(outs1 + outs2, Live(j2)[fd])
    {
      var id := Live(j2)[fd];
      OutsAppend(a, b, id);
      AtEither(outs1, outs2, id, Outs(a, id), Outs(b, id));
      if id in outs1 {
        assert j2[..|j1|] == j1;
        LiveStays(j2, |j1|, fd);
        assert Outs(a, id) == At(outs1, id);
      }
    }
  }

  lemma AtEither(outs1: map<nat, seq<seq<byte>>>, outs2: map<nat, seq<seq<byte>>>, id: nat, a: seq<seq<byte>>, b: seq<seq<byte>>)
    requires outs1.Keys !! outs2.Keys && a <= At(outs1, id) && b <= At(outs2, id)
    ensures a + b <= At(outs1 + outs2, id)
    ensures (id in outs1 ==> a == At(outs1, id)) && b == At(outs2, id) ==> a + b == At(outs1 + outs2, id)
  {
  }

  /** Nothing is expected of a connection that is gone. */
  lemma FollowsAnyway(j: seq<Fact>, j': seq<Fact>, outs: map<nat, seq<seq<byte>>>, cmds: seq<Cmd>, id: nat, all: seq<seq<byte>>)
    requires Follows(j, j', outs, cmds) && id !in outs && id !in Live(j').Values
    ensures Follows(j, j', outs[id := all], cmds)
  {
    hide Live, Cmds, Outs;
    var fs := j'[|j|..];
    forall other: nat
      ensures Outs(fs, other) <= At(outs[id := all], other)
    {
      assert Outs(fs, other) <= At(outs, other);
    }
  }

  // --------------------------------------------------- what a stretch adds to a stream

  lemma ProjectNext(fs: seq<Fact>, f: Fact, id: nat)
    ensures Cmds(fs + [f]) == Cmds(fs) + if f.Consumed? then [f.cmd] else []
    ensures Outs(fs + [f], id) == Outs(fs, id) + if f.Heard? && f.id == id then [f.data] else []
  {
    assert (fs + [f])[..|fs|] == fs;
  }

  lemma DataToNext(cmds: seq<Cmd>, cmd: Cmd, fd: int, id: nat)
    ensures DataTo(cmds + [cmd], fd, id) ==
            DataTo(cmds, fd, id) + if cmd.op == CmdData && cmd.fd == fd && cmd.id == id then cmd.data else []
  {
    assert (cmds + [cmd])[..|cmds|] == cmds;
  }

  /** Without commands, a stream grows by what the handler answers. */
  lemma {:induction false} AnswersOnly(j: seq<Fact>, fs: seq<Fact>, id: nat)
    requires Cmds(fs) == []
    ensures StreamOf(j + fs, id) == StreamOf(j, id) + Flatten(Outs(fs, id))
    decreases |fs|
  {
    if fs == [] {
      assert j + fs == j;
      FlattenNothing(Outs(fs, id));
    } else {
      var n := |fs| - 1;
      var before, f := fs[..n], fs[n];
      assert before + [f] == fs && j + fs == (j + before) + [f];
      ProjectNext(before, f, id);
      Snoc(j + before, f);
      hide StreamOf, Live, Cmds, Outs, Flatten;
      AnswersOnly(j, before, id);
      var so := StreamOf(j, id) + Flatten(Outs(before, id));
      if f.Heard? && f.id == id {
        FlattenSnoc(Outs(before, id), f.data);
        Regroup(StreamOf(j, id), Flatten(Outs(before, id)), f.data);
      } else {
        assert Outs(fs, id) == Outs(before, id) && so + [] == so;
      }
    }
  }

  lemma GoneAddsNothing(j: seq<Fact>, f: Fact, id: nat)
    requires WellFormed(j) && WellFormed(j + [f]) && !Alive(j, id)
    ensures Adds(f, Live(j), id) == []
  {
    assert (j + [f])[|j|] == f && (j + [f])[..|j|] == j;
    hide Live, NextId, Home, Alive;
    if f.Heard? && f.id == id {
      LiveIsAlive(j, f.fd);
    } else if f.Consumed? && Reaches(f.cmd, Live(j)) {
      LiveIsAlive(j, f.cmd.fd);
    }
  }

  /** Nothing is added to the stream of a connection that is gone. */
  lemma {:induction false} GoneStays(j: seq<Fact>, fs: seq<Fact>, id: nat)
    requires WellFormed(j + fs) && id < NextId(j) && !Alive(j, id)
    ensures StreamOf(j + fs, id) == StreamOf(j, id)
    decreases |fs|
  {
    if fs == [] {
      assert j + fs == j;
    } else {
      var n := |fs| - 1;
      var before, f := fs[..n], fs[n];
      var so := j + before;
      assert j + fs == so + [f] && (j + fs)[..|so|] == so;
      WellFormedPrefix(j + fs, |so|);
      Snoc(so, f);
      hide StreamOf, Live, NextId, Alive;
      GoneStays(j, before, id);
      assert so[..|j|] == j;
      if Alive(so, id) {
        AliveStays(so, |j|, id);
      }
      assert f == (j + fs)[|so|];
      GoneAddsNothing(so, f, id);
      assert StreamOf(so, id) + [] == StreamOf(so, id);
    }
  }

  lemma GrowsAlong(s: seq<byte>, d: seq<byte>, sofar: seq<byte>, x: seq<byte>, alive: bool)
    requires sofar <= s + d && (alive ==> sofar == s + d)
    ensures sofar + (if alive then x else []) <= s + (d + x)
    ensures alive ==> sofar + x == s + (d + x)
  {
    assert (s + d) + x == s + (d + x);
  }

  /** Without answers, a stream grows by the data of the commands that name its connection, as long as that lives. */
  lemma {:induction false} CommandsOnly(j: seq<Fact>, fs: seq<Fact>, id: nat)
    requires WellFormed(j + fs) && id < NextId(j) && Outs(fs, id) == []
    ensures StreamOf(j + fs, id) <= StreamOf(j, id) + DataTo(Cmds(fs), Home(j, id), id)
    ensures Alive(j + fs, id) ==> StreamOf(j + fs, id) == StreamOf(j, id) + DataTo(Cmds(fs), Home(j, id), id)
    decreases |fs|
  {
    if fs == [] {
      assert j + fs == j && DataTo([], Home(j, id), id) == [];
    } else {
      hide StreamOf, Live, NextId, Cmds, Outs, Home, Alive, DataTo, WellFormed;
      var n := |fs| - 1;
      var before, f := fs[..n], fs[n];
      var so := j + before;
      assert before + [f] == fs && j + fs == so + [f] && (j + fs)[..|so|] == so && so[..|j|] == j;
      ProjectNext(before, f, id);
      WellFormedPrefix(j + fs, |so|);
      CommandsOnly(j, before, id);
      HomeStays(so, |j|, id);
      NextIdGrows(so, |j|);
      CommandsNext(so, f, id, StreamOf(j, id), Cmds(before));
    }
  }

  lemma CommandsNext(j: seq<Fact>, f: Fact, id: nat, s: seq<byte>, cmds: seq<Cmd>)
    requires WellFormed(j) && WellFormed(j + [f]) && id < NextId(j) && !(f.Heard? && f.id == id)
    requires var d := DataTo(cmds, Home(j, id), id); StreamOf(j, id) <= s + d && (Alive(j, id) ==> StreamOf(j, id) == s + d)
    ensures var d := DataTo(cmds + (if f.Consumed? then [f.cmd] else []), Home(j, id), id);
            StreamOf(j + [f], id) <= s + d && (Alive(j + [f], id) ==> StreamOf(j + [f], id) == s + d)
  {
    hide StreamOf, Live, NextId, Home, Alive, DataTo, WellFormed, Adds;
    StreamSnoc(j, f, id);
    AddsWhileAlive(j, f, id);
    assert (j + [f])[..|j|] == j;
    if Alive(j + [f], id) {
      AliveStays(j + [f], |j|, id);
    }
    var home := Home(j, id);
    if f.Consumed? {
      DataToNext(cmds, f.cmd, home, id);
      var x := if f.cmd.op == CmdData && f.cmd.fd == home && f.cmd.id == id then f.cmd.data else [];
      GrowsAlong(s, DataTo(cmds, home, id), StreamOf(j, id), x, Alive(j, id));
    } else {
      assert cmds + [] == cmds && StreamOf(j, id) + [] == StreamOf(j, id);
    }
  }

  /** What one fact other than an answer adds. */
  lemma AddsWhileAlive(j: seq<Fact>, f: Fact, id: nat)
    requires WellFormed(j) && !(f.Heard? && f.id == id)
    ensures Adds(f, Live(j), id) ==
            if f.Consumed? && f.cmd.op == CmdData && f.cmd.fd == Home(j, id) && f.cmd.id == id && Alive(j, id) then f.cmd.data else []
    ensures f.Consumed? ==> Live(j + [f]) == Live(j) && Home(j + [f], id) == Home(j, id)
  {
    Snoc(j, f);
    HomeSnoc(j, f, id);
    hide Live, Home;
    if f.Consumed? && Reaches(f.cmd, Live(j)) {
      LiveAtHome(j, f.cmd.fd);
    }
  }

  lemma {:induction false} FlattenPart(a: seq<seq<byte>>, b: seq<seq<byte>>)
    requires a <= b
    ensures Flatten(a) <= Flatten(b)
  {
    assert b == a + b[|a|..];
    FlattenAppend(a, b[|a|..]);
  }

  /**
   A stretch in which handlers first answer and commands are then consumed.  The stream of a
   connection that is live at its end has grown by exactly the answers on that connection
   followed by the data of the commands that name it, that of any other by a beginning of that.
   */
  lemma StretchAdds(j: seq<Fact>, mid: seq<Fact>, j': seq<Fact>, outs: map<nat, seq<seq<byte>>>, cmds: seq<Cmd>, id: nat)
    requires Follows(j, mid, outs, []) && Follows(mid, j', map[], cmds) && WellFormed(j') && id < NextId(mid)
    ensures StreamOf(j', id) <= StreamOf(j, id) + (Flatten(At(outs, id)) + DataTo(cmds, Home(j', id), id))
    ensures Alive(j', id) ==> StreamOf(j', id) == StreamOf(j, id) + (Flatten(At(outs, id)) + DataTo(cmds, Home(j', id), id))
  {
    hide StreamOf, Live, NextId, Cmds, Outs, DataTo, Home, Flatten, WellFormed;
    var a, b := mid[|j|..], j'[|mid|..];
    assert mid == j + a && j' == mid + b && j'[..|mid|] == mid;
    WellFormedPrefix(j', |mid|);
    HomeStays(j', |mid|, id);
    AnswersOnly(j, a, id);
    assert Outs(a, id) <= At(outs, id);
    FlattenPart(Outs(a, id), At(outs, id));
    assert Outs(b, id) <= At(map[], id);
    CommandsOnly(mid, b, id);
    if Alive(j', id) {
      AliveStays(j', |mid|, id);
    }
    if Alive(mid, id) {
      assert Outs(a, id) == At(outs, id);
    } else {
      GoneStays(mid, b, id);
    }
    Regroup(StreamOf(j, id), Flatten(At(outs, id)), DataTo(cmds, Home(j', id), id));
  }

  lemma Regroup(a: seq<byte>, b: seq<byte>, c: seq<byte>)
    ensures (a + b) + c == a + (b + c)
  {
  }
}
