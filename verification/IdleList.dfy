/**
 The idle list of a loop: tracked connections in the order of their last input, with
 the time of that input.
 */
module IdleList {

  /** A list element: the connection's ID and descriptor. */
  datatype Tracked = Tracked(id: nat, fd: int)

  function Ids(list: seq<Tracked>): set<nat> {
    set i | 0 <= i < |list| :: list[i].id
  }

  ghost predicate Distinct(list: seq<Tracked>) {
    forall i, j :: 0 <= i < j < |list| ==> list[i].id != list[j].id
  }

  /** Later entries received their last input later. */
  ghost predicate Sorted(list: seq<Tracked>, touch: map<nat, int>) {
    forall i, j :: 0 <= i < j < |list| && list[i].id in touch && list[j].id in touch ==>
      touch[list[i].id] <= touch[list[j].id]
  }

  ghost predicate NotAfter(touch: map<nat, int>, now: int) {
    forall id :: id in touch ==> touch[id] <= now
  }

  /** List and map are in bijection, and the list is ordered by the time of the last input. */
  ghost predicate Ordered(list: seq<Tracked>, touch: map<nat, int>, now: int) {
    touch.Keys == Ids(list) && Distinct(list) && Sorted(list, touch) && NotAfter(touch, now)
  }

  /** Where the element of an ID is, or the length of the list. */
  function PositionOf(list: seq<Tracked>, id: nat): (k: nat)
    ensures k <= |list|
    ensures k < |list| ==> list[k].id == id
    ensures forall i :: 0 <= i < k ==> list[i].id != id
  {
    if list == [] || list[0].id == id then 0 else 1 + PositionOf(list[1..], id)
  }

  /** list.Remove */
  function Without(list: seq<Tracked>, id: nat): seq<Tracked> {
    var k := PositionOf(list, id);
    if k == |list| then list else list[..k] + list[k + 1..]
  }

  lemma IdsAppend(a: seq<Tracked>, b: seq<Tracked>)
    ensures Ids(a + b) == Ids(a) + Ids(b)
  {
    forall id | id in Ids(a)
      ensures id in Ids(a + b)
    {
      var i :| 0 <= i < |a| && a[i].id == id;
      assert (a + b)[i].id == id;
    }
    forall id | id in Ids(b)
      ensures id in Ids(a + b)
    {
      var i :| 0 <= i < |b| && b[i].id == id;
      assert (a + b)[|a| + i].id == id;
    }
  }

  /** Removing an element keeps the others, in order. */
  lemma WithoutElements(list: seq<Tracked>, id: nat)
    requires Distinct(list)
    ensures var k, less := PositionOf(list, id), Without(list, id);
            && |less| == (if k == |list| then |list| else |list| - 1)
            && (forall i :: 0 <= i < |less| ==> less[i] == list[if i < k then i else i + 1] && less[i].id != id)
  {
    hide PositionOf;
    var k := PositionOf(list, id);
    if k < |list| {
      var less := list[..k] + list[k + 1..];
      forall i | 0 <= i < |less|
        ensures less[i] == list[if i < k then i else i + 1] && less[i].id != id
      {
      }
    }
  }

  lemma IdsWithout(list: seq<Tracked>, id: nat)
    requires Distinct(list)
    ensures Ids(Without(list, id)) == Ids(list) - {id}
  {
    WithoutElements(list, id);
    hide Without;
    var k, less := PositionOf(list, id), Without(list, id);
    hide PositionOf;
    forall x | x in Ids(list) - {id}
      ensures x in Ids(less)
    {
      var i :| 0 <= i < |list| && list[i].id == x;
      assert less[if i < k then i else i - 1].id == x;
    }
    forall x | x in Ids(less)
      ensures x in Ids(list) - {id}
    {
      var i :| 0 <= i < |less| && less[i].id == x;
      assert list[if i < k then i else i + 1].id == x;
    }
  }

  /** The place in the list of an entry that stays. */
  function Source(list: seq<Tracked>, id: nat, i: nat): nat {
    if i < PositionOf(list, id) then i else i + 1
  }

  lemma StaysAt(list: seq<Tracked>, id: nat, i: nat)
    requires Distinct(list) && i < |Without(list, id)|
    ensures Source(list, id, i) < |list| && Without(list, id)[i] == list[Source(list, id, i)] && Without(list, id)[i].id != id
  {
    WithoutElements(list, id);
    hide Without, PositionOf, Distinct;
  }

  lemma RemoveKeepsDistinct(list: seq<Tracked>, id: nat)
    requires Distinct(list)
    ensures Distinct(Without(list, id))
  {
    hide Without, PositionOf;
    forall i, j | 0 <= i < j < |Without(list, id)|
      ensures Without(list, id)[i].id != Without(list, id)[j].id
    {
      StaysAt(list, id, i);
      StaysAt(list, id, j);
    }
  }

  lemma RemoveKeepsSorted(list: seq<Tracked>, touch: map<nat, int>, id: nat)
    requires Distinct(list) && Sorted(list, touch)
    ensures Sorted(Without(list, id), touch - {id})
  {
    hide Without, PositionOf, Distinct;
    var less, rest := Without(list, id), touch - {id};
    forall i, j | 0 <= i < j < |less| && less[i].id in rest && less[j].id in rest
      ensures rest[less[i].id] <= rest[less[j].id]
    {
      StaysAt(list, id, i);
      StaysAt(list, id, j);
      assert touch[list[Source(list, id, i)].id] <= touch[list[Source(list, id, j)].id];
    }
  }

  /** A connection is no longer tracked. */
  lemma RemoveKeepsOrdered(list: seq<Tracked>, touch: map<nat, int>, now: int, id: nat)
    requires Ordered(list, touch, now)
    ensures Ordered(Without(list, id), touch - {id}, now)
    ensures forall i :: 0 <= i < |Without(list, id)| ==> Without(list, id)[i] in list && Without(list, id)[i].id != id
  {
    IdsWithout(list, id);
    RemoveKeepsDistinct(list, id);
    RemoveKeepsSorted(list, touch, id);
    hide Without, PositionOf, Ids, Distinct, Sorted;
    forall i | 0 <= i < |Without(list, id)|
      ensures Without(list, id)[i] in list && Without(list, id)[i].id != id
    {
      StaysAt(list, id, i);
    }
  }

  /** A new connection, or one that has just received input, goes to the back. */
  lemma PushKeepsOrdered(list: seq<Tracked>, touch: map<nat, int>, now: int, e: Tracked)
    requires Ordered(list, touch, now) && e.id !in touch
    ensures Ordered(list + [e], touch[e.id := now], now)
  {
    IdsAppend(list, [e]);
    assert Ids([e]) == {e.id} by { assert [e][0].id == e.id; }
    var more := list + [e];
    forall i | 0 <= i < |list|
      ensures more[i].id in touch && more[i].id != e.id
    {
      assert list[i].id in Ids(list);
    }
  }

  /** Time only moves forward. */
  lemma LaterKeepsOrdered(list: seq<Tracked>, touch: map<nat, int>, now: int, later: int)
    requires Ordered(list, touch, now) && now <= later
    ensures Ordered(list, touch, later)
  {
  }

  predicate Expired(touch: map<nat, int>, now: int, limit: int, id: nat) {
    id in touch && now - touch[id] > limit
  }

  /** Behind the first fresh entry there is no expired one. */
  lemma FreshFirstMeansAllFresh(list: seq<Tracked>, touch: map<nat, int>, now: int, limit: int)
    requires Ordered(list, touch, now)
    requires list != [] ==> !Expired(touch, now, limit, list[0].id)
    ensures forall id :: !Expired(touch, now, limit, id)
  {
    forall id | id in touch
      ensures !Expired(touch, now, limit, id)
    {
      assert id in Ids(list);
      var i :| 0 <= i < |list| && list[i].id == id;
      assert list[0].id in Ids(list);
    }
  }
}
