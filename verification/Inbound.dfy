/**
 What packets there are in a stream, and what a run of reads hands over of them, whatever
 the parser and however the stream is cut.
 */
module Inbound {
  import opened Bytes

  // ------------------------------------------------------- what packets there are

  /** ParsePacket: a packet length (0 for incomplete, negative for an error) and the expected size. */
  type Parser = seq<byte> -> (int, int)

  datatype Verdict = More | Packet(length: nat) | Bad

  /** What the read loop makes of the parser's answer. */
  function Judge(parse: Parser, sizeLimit: int, s: seq<byte>): (v: Verdict)
    ensures v.Packet? ==> 0 < v.length <= |s|
  {
    var (length, expected) := parse(s);
    if length < 0 || expected > sizeLimit || length > |s| then Bad
    else if length > 0 then Packet(length)
    else More
  }

  /** A decision, once made, is not changed by more bytes. */
  ghost predicate PrefixStable(parse: Parser, sizeLimit: int) {
    forall s, t :: Judge(parse, sizeLimit, s) != More ==> Judge(parse, sizeLimit, s + t) == Judge(parse, sizeLimit, s)
  }

  /** The packets one parse of a whole stream finds. */
  function Packets(parse: Parser, sizeLimit: int, s: seq<byte>): seq<seq<byte>>
    decreases |s|
  {
    match Judge(parse, sizeLimit, s)
    case Packet(n) => [s[..n]] + Packets(parse, sizeLimit, s[n..])
    case _ => []
  }

  /** The bytes behind those packets. */
  function Rest(parse: Parser, sizeLimit: int, s: seq<byte>): seq<byte>
    decreases |s|
  {
    match Judge(parse, sizeLimit, s)
    case Packet(n) => Rest(parse, sizeLimit, s[n..])
    case _ => s
  }

  lemma PacketsStep(parse: Parser, sizeLimit: int, s: seq<byte>)
    ensures var v := Judge(parse, sizeLimit, s);
            if v.Packet? then
              && Packets(parse, sizeLimit, s) == [s[..v.length]] + Packets(parse, sizeLimit, s[v.length..])
              && Rest(parse, sizeLimit, s) == Rest(parse, sizeLimit, s[v.length..])
            else
              Packets(parse, sizeLimit, s) == [] && Rest(parse, sizeLimit, s) == s
  {
  }

  lemma StableAt(parse: Parser, sizeLimit: int, s: seq<byte>, t: seq<byte>)
    requires PrefixStable(parse, sizeLimit)
    ensures Judge(parse, sizeLimit, s) != More ==> Judge(parse, sizeLimit, s + t) == Judge(parse, sizeLimit, s)
  {
  }

  lemma SliceOfSum(a: seq<byte>, b: seq<byte>, n: nat)
    requires n <= |a|
    ensures (a + b)[..n] == a[..n] && (a + b)[n..] == a[n..] + b
  {
  }

  /** A first packet that is decided stays the first packet. */
  lemma FirstPacketStays(parse: Parser, sizeLimit: int, a: seq<byte>, b: seq<byte>)
    requires PrefixStable(parse, sizeLimit)
    ensures var v := Judge(parse, sizeLimit, a);
            v.Packet? ==>
              && Packets(parse, sizeLimit, a + b) == [a[..v.length]] + Packets(parse, sizeLimit, a[v.length..] + b)
              && Rest(parse, sizeLimit, a + b) == Rest(parse, sizeLimit, a[v.length..] + b)
  {
    StableAt(parse, sizeLimit, a, b);
    PacketsStep(parse, sizeLimit, a + b);
    hide PrefixStable, Packets, Rest, Judge;
    var v := Judge(parse, sizeLimit, a);
    if v.Packet? {
      SliceOfSum(a, b, v.length);
    }
  }

  /** Parsing in two chunks, carrying the leftover over, is parsing at once. */
  lemma {:induction false} ChunkingIndependent(parse: Parser, sizeLimit: int, a: seq<byte>, b: seq<byte>)
    requires PrefixStable(parse, sizeLimit)
    ensures Packets(parse, sizeLimit, a + b)
            == Packets(parse, sizeLimit, a) + Packets(parse, sizeLimit, Rest(parse, sizeLimit, a) + b)
    ensures Rest(parse, sizeLimit, a + b) == Rest(parse, sizeLimit, Rest(parse, sizeLimit, a) + b)
    decreases |a|
  {
    PacketsStep(parse, sizeLimit, a);
    FirstPacketStays(parse, sizeLimit, a, b);
    hide PrefixStable, Judge, Packets, Rest;
    var v := Judge(parse, sizeLimit, a);
    if v.Packet? {
      var a' := a[v.length..];
      ChunkingIndependent(parse, sizeLimit, a', b);
      var p2 := Packets(parse, sizeLimit, Rest(parse, sizeLimit, a') + b);
      Associate([a[..v.length]], Packets(parse, sizeLimit, a'), p2);
    } else {
      Associate([], [], Packets(parse, sizeLimit, a + b));
    }
  }

  lemma Associate(a: seq<seq<byte>>, b: seq<seq<byte>>, c: seq<seq<byte>>)
    ensures a + (b + c) == (a + b) + c
    ensures [] + c == c
  {
  }

  /** Packets followed by the leftover are the stream: no byte is lost, invented or reordered. */
  lemma {:induction false} PacketsAndRest(parse: Parser, sizeLimit: int, s: seq<byte>)
    ensures Flatten(Packets(parse, sizeLimit, s)) + Rest(parse, sizeLimit, s) == s
    decreases |s|
  {
    var v := Judge(parse, sizeLimit, s);
    if v.Packet? {
      PacketsAndRest(parse, sizeLimit, s[v.length..]);
    }
  }

  /** Packets put one behind the other are cut into themselves again. */
  lemma {:induction false} CutBack(parse: Parser, sizeLimit: int, ps: seq<seq<byte>>)
    requires PrefixStable(parse, sizeLimit) && forall i :: 0 <= i < |ps| ==> Judge(parse, sizeLimit, ps[i]) == Packet(|ps[i]|)
    requires Judge(parse, sizeLimit, []) == More
    ensures Packets(parse, sizeLimit, Flatten(ps)) == ps && Rest(parse, sizeLimit, Flatten(ps)) == []
  {
    var s := Flatten(ps);
    PacketsStep(parse, sizeLimit, s);
    if ps != [] {
      var rest := Flatten(ps[1..]);
      assert s == ps[0] + rest;
      StableAt(parse, sizeLimit, ps[0], rest);
      SliceOfSum(ps[0], rest, |ps[0]|);
      hide Packets, Rest, Judge, PrefixStable, Flatten;
      assert ps[0][..|ps[0]|] == ps[0] && ps[0][|ps[0]|..] + rest == rest;
      CutBack(parse, sizeLimit, ps[1..]);
    }
  }

  /** After an error, bytes still to come would not have produced another packet. */
  lemma BadIsFinal(parse: Parser, sizeLimit: int, a: seq<byte>, b: seq<byte>)
    requires PrefixStable(parse, sizeLimit)
    requires Judge(parse, sizeLimit, Rest(parse, sizeLimit, a)).Bad?
    ensures Packets(parse, sizeLimit, a + b) == Packets(parse, sizeLimit, a)
  {
    ChunkingIndependent(parse, sizeLimit, a, b);
    StableAt(parse, sizeLimit, Rest(parse, sizeLimit, a), b);
  }

  /** The leftover holds no complete packet. */
  lemma {:induction false} RestIsUndecided(parse: Parser, sizeLimit: int, s: seq<byte>)
    ensures !Judge(parse, sizeLimit, Rest(parse, sizeLimit, s)).Packet?
    ensures Packets(parse, sizeLimit, Rest(parse, sizeLimit, s)) == []
    ensures Rest(parse, sizeLimit, Rest(parse, sizeLimit, s)) == Rest(parse, sizeLimit, s)
    decreases |s|
  {
    var v := Judge(parse, sizeLimit, s);
    if v.Packet? {
      RestIsUndecided(parse, sizeLimit, s[v.length..]);
    }
  }

  // --------------------------------------------------- what a run of reads delivers

  /**
   One read: the bytes that came, and after how many packets the handler asked for the
   connection to be closed, 0 if it did not.
   */
  datatype Turn = Turn(data: seq<byte>, stop: nat)

  function Came(turns: seq<Turn>): seq<byte> {
    if turns == [] then [] else Came(turns[..|turns| - 1]) + turns[|turns| - 1].data
  }

  /** The packets handed over in one turn, of which a wish to close drops the rest. */
  function Taken(parse: Parser, sizeLimit: int, s: seq<byte>, stop: nat): seq<seq<byte>> {
    var ps := Packets(parse, sizeLimit, s);
    if stop == 0 || stop >= |ps| then ps else ps[..stop]
  }

  /** What is behind the packets that were handed over. */
  function Untaken(parse: Parser, sizeLimit: int, s: seq<byte>, stop: nat): (u: seq<byte>)
    ensures |u| <= |s|
  {
    TakenFits(parse, sizeLimit, s, stop);
    s[|Flatten(Taken(parse, sizeLimit, s, stop))|..]
  }

  /**
   What the private buffer holds after a turn.  It is written with the unfinished packet at
   the end of the input; a wish to close leaves it as it was, unless nothing was behind it.
   */
  function Keeps(parse: Parser, sizeLimit: int, left: seq<byte>, t: Turn): seq<byte> {
    if t.stop == 0 then Rest(parse, sizeLimit, left + t.data)
    else if Untaken(parse, sizeLimit, left + t.data, t.stop) == [] then []
    else left
  }

  function Kept(parse: Parser, sizeLimit: int, turns: seq<Turn>): seq<byte> {
    if turns == [] then [] else Keeps(parse, sizeLimit, Kept(parse, sizeLimit, turns[..|turns| - 1]), turns[|turns| - 1])
  }

  /** All packets handed over. */
  function Handed(parse: Parser, sizeLimit: int, turns: seq<Turn>): seq<seq<byte>> {
    if turns == [] then [] else
      var before, t := turns[..|turns| - 1], turns[|turns| - 1];
      Handed(parse, sizeLimit, before) + Taken(parse, sizeLimit, Kept(parse, sizeLimit, before) + t.data, t.stop)
  }

  lemma TurnAdded(parse: Parser, sizeLimit: int, turns: seq<Turn>, t: Turn)
    ensures Came(turns + [t]) == Came(turns) + t.data
    ensures var left := Kept(parse, sizeLimit, turns);
            && Kept(parse, sizeLimit, turns + [t]) == Keeps(parse, sizeLimit, left, t)
            && Handed(parse, sizeLimit, turns + [t]) == Handed(parse, sizeLimit, turns) + Taken(parse, sizeLimit, left + t.data, t.stop)
  {
    assert (turns + [t])[..|turns|] == turns;
  }

  /** The packets from some point on are those of the bytes from there on. */
  lemma {:induction false} SplitAt(parse: Parser, sizeLimit: int, s: seq<byte>, k: nat)
    requires k <= |Packets(parse, sizeLimit, s)|
    ensures var ps := Packets(parse, sizeLimit, s);
            var lo := |Flatten(ps[..k])|;
            && lo <= |s| && Flatten(ps[..k]) == s[..lo]
            && ps == ps[..k] + Packets(parse, sizeLimit, s[lo..]) && Rest(parse, sizeLimit, s) == Rest(parse, sizeLimit, s[lo..])
    decreases k
  {
    PacketsStep(parse, sizeLimit, s);
    hide Packets, Rest, Judge, Flatten;
    var ps := Packets(parse, sizeLimit, s);
    if k == 0 {
      FlattenNothing(ps[..0]);
      assert ps[..0] == [] && s[0..] == s && s[..0] == [];
      Associate([], [], ps);
    } else {
      var n := Judge(parse, sizeLimit, s).length;
      var qs := Packets(parse, sizeLimit, s[n..]);
      SplitAt(parse, sizeLimit, s[n..], k - 1);
      var lo := |Flatten(qs[..k - 1])|;
      FirstAndSome(s[..n], qs, k);
      CutTwice(s, n, lo);
      Associate([s[..n]], qs[..k - 1], Packets(parse, sizeLimit, s[n + lo..]));
    }
  }

  /**
   Every packet is one by the parser's answer at the place where it begins, with its length and
   an expected size within the limit; what is left over begins no such packet.
   */
  lemma PacketsByTheParser(parse: Parser, sizeLimit: int, s: seq<byte>, k: nat)
    ensures var ps, rest := Packets(parse, sizeLimit, s), Rest(parse, sizeLimit, s);
            && (k < |ps| ==>
                 && |Flatten(ps[..k])| <= |s|
                 && var (length, expected) := parse(s[|Flatten(ps[..k])|..]);
                    length == |ps[k]| > 0 && expected <= sizeLimit && ps[k] <= s[|Flatten(ps[..k])|..])
            && var (length, expected) := parse(rest);
               length <= 0 || length > |rest| || expected > sizeLimit
  {
    var ps := Packets(parse, sizeLimit, s);
    RestIsUndecided(parse, sizeLimit, s);
    if k < |ps| {
      SplitAt(parse, sizeLimit, s, k);
      var t := s[|Flatten(ps[..k])|..];
      PacketsStep(parse, sizeLimit, t);
      hide Packets, Rest, Flatten;
      assert ps[k] == Packets(parse, sizeLimit, t)[0];
    }
  }

  lemma FirstAndSome(first: seq<byte>, qs: seq<seq<byte>>, k: nat)
    requires 0 < k <= |qs| + 1
    ensures ([first] + qs)[..k] == [first] + qs[..k - 1]
    ensures Flatten([first] + qs[..k - 1]) == first + Flatten(qs[..k - 1])
  {
    assert ([first] + qs[..k - 1])[1..] == qs[..k - 1];
  }

  lemma CutTwice(s: seq<byte>, n: nat, lo: nat)
    requires n <= |s| && lo <= |s[n..]|
    ensures s[..n] + s[n..][..lo] == s[..n + lo] && s[n..][lo..] == s[n + lo..]
  {
  }

  lemma TakenFits(parse: Parser, sizeLimit: int, s: seq<byte>, stop: nat)
    ensures |Flatten(Taken(parse, sizeLimit, s, stop))| <= |s|
  {
    var ps := Packets(parse, sizeLimit, s);
    var k := if stop == 0 || stop >= |ps| then |ps| else stop;
    assert ps[..|ps|] == ps;
    SplitAt(parse, sizeLimit, s, k);
  }

  /** What is behind the packets handed over has the other packets and the rest. */
  lemma UntakenHasTheRest(parse: Parser, sizeLimit: int, s: seq<byte>, stop: nat)
    ensures var u := Untaken(parse, sizeLimit, s, stop);
            && Packets(parse, sizeLimit, s) == Taken(parse, sizeLimit, s, stop) + Packets(parse, sizeLimit, u)
            && Rest(parse, sizeLimit, s) == Rest(parse, sizeLimit, u)
  {
    var ps := Packets(parse, sizeLimit, s);
    var k := if stop == 0 || stop >= |ps| then |ps| else stop;
    assert ps[..|ps|] == ps;
    SplitAt(parse, sizeLimit, s, k);
  }

  /** The packets so far and the bytes kept are those of one parse of everything that came. */
  ghost predicate OneParse(parse: Parser, sizeLimit: int, turns: seq<Turn>) {
    && Handed(parse, sizeLimit, turns) == Packets(parse, sizeLimit, Came(turns))
    && Kept(parse, sizeLimit, turns) == Rest(parse, sizeLimit, Came(turns))
  }

  /** A turn without a wish to close, or one that has nothing left behind it but what was left before. */
  ghost predicate Harmless(parse: Parser, sizeLimit: int, left: seq<byte>, t: Turn) {
    var u := Untaken(parse, sizeLimit, left + t.data, t.stop);
    t.stop == 0 || u == [] || u == left
  }

  /**
   Exactly the harmless turns keep to one parse of the stream: a turn in which the handler
   asks for a close while more is behind it leaves old bytes in the buffer and drops new ones.
   */
  lemma OneParseExactly(parse: Parser, sizeLimit: int, turns: seq<Turn>, t: Turn)
    requires PrefixStable(parse, sizeLimit) && OneParse(parse, sizeLimit, turns)
    ensures OneParse(parse, sizeLimit, turns + [t]) <==> Harmless(parse, sizeLimit, Kept(parse, sizeLimit, turns), t)
  {
    hide Packets, Rest, Judge, PrefixStable, Came, Kept, Handed, Untaken, Taken;
    var came, left := Came(turns), Kept(parse, sizeLimit, turns);
    var s := left + t.data;
    var u := Untaken(parse, sizeLimit, s, t.stop);
    TurnAdded(parse, sizeLimit, turns, t);
    ChunkingIndependent(parse, sizeLimit, came, t.data);
    RestIsUndecided(parse, sizeLimit, came);
    UntakenHasTheRest(parse, sizeLimit, s, t.stop);
    NothingInNothing(parse, sizeLimit);
    SameBehind(Packets(parse, sizeLimit, came), Taken(parse, sizeLimit, s, t.stop), Packets(parse, sizeLimit, u));
    if t.stop == 0 {
      AllTaken(parse, sizeLimit, s);
    } else if Packets(parse, sizeLimit, u) == [] {
      UndecidedIsRest(parse, sizeLimit, u);
    }
  }

  lemma SameBehind(a: seq<seq<byte>>, b: seq<seq<byte>>, c: seq<seq<byte>>)
    ensures a + b == a + (b + c) <==> c == []
  {
    if a + b == a + (b + c) {
      assert |c| == 0;
    }
  }

  lemma NothingInNothing(parse: Parser, sizeLimit: int)
    ensures Packets(parse, sizeLimit, []) == [] && Rest(parse, sizeLimit, []) == []
  {
  }

  lemma AllTaken(parse: Parser, sizeLimit: int, s: seq<byte>)
    ensures Taken(parse, sizeLimit, s, 0) == Packets(parse, sizeLimit, s)
  {
  }

  lemma UndecidedIsRest(parse: Parser, sizeLimit: int, u: seq<byte>)
    requires Packets(parse, sizeLimit, u) == []
    ensures Rest(parse, sizeLimit, u) == u
  {
  }

  /** If every turn of a run is harmless, the run is one parse of the stream. */
  lemma {:induction false} HarmlessRun(parse: Parser, sizeLimit: int, turns: seq<Turn>)
    requires PrefixStable(parse, sizeLimit)
    requires forall k :: 0 <= k < |turns| ==> Harmless(parse, sizeLimit, Kept(parse, sizeLimit, turns[..k]), turns[k])
    ensures OneParse(parse, sizeLimit, turns)
  {
    hide PrefixStable, Harmless, OneParse, Kept;
    if turns == [] {
      NoTurns(parse, sizeLimit);
    } else {
      var n := |turns| - 1;
      var before := turns[..n];
      forall k | 0 <= k < n
        ensures Harmless(parse, sizeLimit, Kept(parse, sizeLimit, before[..k]), before[k])
      {
        assert before[..k] == turns[..k];
      }
      HarmlessRun(parse, sizeLimit, before);
      assert before + [turns[n]] == turns;
      OneParseExactly(parse, sizeLimit, before, turns[n]);
    }
  }

  lemma NoTurns(parse: Parser, sizeLimit: int)
    ensures OneParse(parse, sizeLimit, [])
  {
  }

  // ------------------------------------------------ up to the first wish to close

  /** Whether the handler wants to close, given all packets handed to it so far. */
  type Wish = seq<seq<byte>> -> bool

  /** The handler asked for a close at packet `stop` of a turn, and at no other, or at none. */
  ghost predicate AsksAt(asks: Wish, before: seq<seq<byte>>, taken: seq<seq<byte>>, stop: nat) {
    && (stop > 0 ==> stop == |taken|)
    && forall i :: 0 < i <= |taken| ==> (asks(before + taken[..i]) <==> i == stop)
  }

  /** The turns stop where the handler asks for it. */
  ghost predicate AsWished(parse: Parser, sizeLimit: int, asks: Wish, turns: seq<Turn>) {
    turns == [] ||
    var before, t := turns[..|turns| - 1], turns[|turns| - 1];
    && AsWished(parse, sizeLimit, asks, before)
    && AsksAt(asks, Handed(parse, sizeLimit, before), Taken(parse, sizeLimit, Kept(parse, sizeLimit, before) + t.data, t.stop), t.stop)
  }

  lemma NextAsWished(parse: Parser, sizeLimit: int, asks: Wish, turns: seq<Turn>, t: Turn)
    requires AsWished(parse, sizeLimit, asks, turns)
    requires AsksAt(asks, Handed(parse, sizeLimit, turns), Taken(parse, sizeLimit, Kept(parse, sizeLimit, turns) + t.data, t.stop), t.stop)
    ensures AsWished(parse, sizeLimit, asks, turns + [t])
  {
    assert (turns + [t])[..|turns|] == turns;
  }

  lemma AsksNext(asks: Wish, before: seq<seq<byte>>, done: seq<seq<byte>>, p: seq<byte>)
    requires AsksAt(asks, before, done, 0)
    ensures AsksAt(asks, before, done + [p], if asks(before + (done + [p])) then |done| + 1 else 0)
  {
    var more := done + [p];
    forall i | 0 < i <= |more|
      ensures i <= |done| ==> more[..i] == done[..i]
      ensures i == |more| ==> more[..i] == more
    {
    }
  }

  /** Up to some packet at which the handler asked for a close, the packets are those of the stream. */
  ghost predicate RightUpToWish(asks: Wish, handed: seq<seq<byte>>, packets: seq<seq<byte>>) {
    exists n :: 0 < n <= |handed| && asks(handed[..n]) && handed[..n] <= packets
  }

  lemma StaysRightUpToWish(asks: Wish, handed: seq<seq<byte>>, packets: seq<seq<byte>>, handed': seq<seq<byte>>, packets': seq<seq<byte>>)
    requires RightUpToWish(asks, handed, packets) && handed <= handed' && packets <= packets'
    ensures RightUpToWish(asks, handed', packets')
  {
    var n :| 0 < n <= |handed| && asks(handed[..n]) && handed[..n] <= packets;
    assert handed'[..n] == handed[..n];
  }

  /**
   However the stream is cut: a run of reads is one parse of it, or is right up to a packet
   at which the handler asked for a close.  Whatever goes wrong comes behind that packet.
   */
  lemma {:induction false} OneParseUpToWish(parse: Parser, sizeLimit: int, asks: Wish, turns: seq<Turn>)
    requires PrefixStable(parse, sizeLimit) && AsWished(parse, sizeLimit, asks, turns)
    ensures OneParse(parse, sizeLimit, turns)
            || RightUpToWish(asks, Handed(parse, sizeLimit, turns), Packets(parse, sizeLimit, Came(turns)))
  {
    hide Packets, Rest, Judge, PrefixStable, Came, Kept, Handed, Untaken, Taken, RightUpToWish;
    if turns == [] {
      NoTurns(parse, sizeLimit);
    } else {
      var before, t := turns[..|turns| - 1], turns[|turns| - 1];
      assert before + [t] == turns;
      OneParseUpToWish(parse, sizeLimit, asks, before);
      TurnAdded(parse, sizeLimit, before, t);
      ChunkingIndependent(parse, sizeLimit, Came(before), t.data);
      if OneParse(parse, sizeLimit, before) {
        if t.stop == 0 {
          OneParseExactly(parse, sizeLimit, before, t);
        } else {
          StopIsRight(parse, sizeLimit, asks, before, t);
        }
      } else {
        StaysRightUpToWish(asks, Handed(parse, sizeLimit, before), Packets(parse, sizeLimit, Came(before)),
                           Handed(parse, sizeLimit, turns), Packets(parse, sizeLimit, Came(turns)));
      }
    }
  }

  /** The first turn that stops hands over packets of the stream. */
  lemma StopIsRight(parse: Parser, sizeLimit: int, asks: Wish, before: seq<Turn>, t: Turn)
    requires PrefixStable(parse, sizeLimit) && OneParse(parse, sizeLimit, before) && t.stop > 0
    requires AsksAt(asks, Handed(parse, sizeLimit, before), Taken(parse, sizeLimit, Kept(parse, sizeLimit, before) + t.data, t.stop), t.stop)
    ensures RightUpToWish(asks, Handed(parse, sizeLimit, before + [t]), Packets(parse, sizeLimit, Came(before + [t])))
  {
    var s := Kept(parse, sizeLimit, before) + t.data;
    var taken := Taken(parse, sizeLimit, s, t.stop);
    hide Packets, Rest, Judge, PrefixStable, Came, Kept, Handed, Untaken, Taken;
    TurnAdded(parse, sizeLimit, before, t);
    ChunkingIndependent(parse, sizeLimit, Came(before), t.data);
    UntakenHasTheRest(parse, sizeLimit, s, t.stop);
    var handed := Handed(parse, sizeLimit, before + [t]);
    assert taken[..|taken|] == taken && handed[..|handed|] == handed;
  }

  /** Packets of two bytes. */
  const PAIRS: Parser := s => if |s| < 2 then (0, 2) else (2, 2)

  lemma PairsAreStable()
    ensures PrefixStable(PAIRS, 2)
  {
  }

  /**
   Reads of 1, then 2 3 4 with a wish to close at the packet 1 2, then 5 6: the packets 3 4
   and 5 6 of the stream are never seen, and the handler gets 1 5 instead.
   */
  lemma StaleLeftover()
    ensures var turns := [Turn([1], 0), Turn([2, 3, 4], 1), Turn([5, 6], 0)];
            && Came(turns) == [1, 2, 3, 4, 5, 6]
            && Handed(PAIRS, 2, turns) == [[1, 2], [1, 5]]
            && Packets(PAIRS, 2, Came(turns)) == [[1, 2], [3, 4], [5, 6]]
    ensures PrefixStable(PAIRS, 2)
  {
    PairsAreStable();
    hide Packets, Rest, Judge, Flatten, Came, Kept, Handed, Taken, Untaken, Keeps, PrefixStable;
    var t1, t2, t3 := Turn([1], 0), Turn([2, 3, 4], 1), Turn([5, 6], 0);
    assert [] + [t1] == [t1] && [t1] + [t2] == [t1, t2] && [t1, t2] + [t3] == [t1, t2, t3];
    NothingYet(PAIRS, 2);
    TurnAdded(PAIRS, 2, [], t1);
    FirstTurn();
    TurnAdded(PAIRS, 2, [t1], t2);
    ClosingTurn();
    TurnAdded(PAIRS, 2, [t1, t2], t3);
    NextTurn();
    WholeStream();
  }

  lemma NothingYet(parse: Parser, sizeLimit: int)
    ensures Came([]) == [] && Kept(parse, sizeLimit, []) == [] && Handed(parse, sizeLimit, []) == []
  {
  }

  lemma FirstTurn()
    ensures Taken(PAIRS, 2, [] + [1], 0) == [] && Keeps(PAIRS, 2, [], Turn([1], 0)) == [1]
  {
    assert [] + [1] == [1];
    Single(1);
  }

  lemma ClosingTurn()
    ensures Taken(PAIRS, 2, [1] + [2, 3, 4], 1) == [[1, 2]] && Keeps(PAIRS, 2, [1], Turn([2, 3, 4], 1)) == [1]
  {
    var s := [1] + [2, 3, 4];
    assert s == [1, 2] + ([3, 4] + []);
    NothingInNothing(PAIRS, 2);
    Pair(3, 4, []);
    Pair(1, 2, [3, 4] + []);
    hide Packets, Rest;
    assert Packets(PAIRS, 2, s) == [[1, 2], [3, 4]];
    assert Taken(PAIRS, 2, s, 1) == [[1, 2]];
    assert [[1, 2]][1..] == [] && Flatten([[1, 2]]) == [1, 2];
    assert |Untaken(PAIRS, 2, s, 1)| == 2;
  }

  lemma NextTurn()
    ensures Taken(PAIRS, 2, [1] + [5, 6], 0) == [[1, 5]]
  {
    assert [1] + [5, 6] == [1, 5] + [6];
    Single(6);
    Pair(1, 5, [6]);
  }

  lemma WholeStream()
    ensures Packets(PAIRS, 2, [1, 2, 3, 4, 5, 6]) == [[1, 2], [3, 4], [5, 6]]
  {
    NothingInNothing(PAIRS, 2);
    Pair(5, 6, []);
    Pair(3, 4, [5, 6] + []);
    Pair(1, 2, [3, 4] + ([5, 6] + []));
    assert [1, 2, 3, 4, 5, 6] == [1, 2] + ([3, 4] + ([5, 6] + []));
  }

  lemma Single(a: byte)
    ensures Packets(PAIRS, 2, [a]) == [] && Rest(PAIRS, 2, [a]) == [a]
  {
  }

  lemma Pair(a: byte, b: byte, rest: seq<byte>)
    ensures Packets(PAIRS, 2, [a, b] + rest) == [[a, b]] + Packets(PAIRS, 2, rest)
    ensures Rest(PAIRS, 2, [a, b] + rest) == Rest(PAIRS, 2, rest)
  {
    var s := [a, b] + rest;
    assert s[..2] == [a, b] && s[2..] == rest;
  }

  /** Reads of 1, then 2 1 with a wish to close at 1 2: input is dropped, but it equals what is kept. */
  lemma SameLeftoverIsHarmless()
    ensures Untaken(PAIRS, 2, [1] + [2, 1], 1) == [1] && Harmless(PAIRS, 2, [1], Turn([2, 1], 1))
  {
    var s := [1] + [2, 1];
    assert s == [1, 2] + [1];
    Single(1);
    Pair(1, 2, [1]);
    hide Packets, Rest;
    assert [[1, 2]][1..] == [] && Flatten([[1, 2]]) == [1, 2];
  }
}
