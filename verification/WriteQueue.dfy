/**
 The per-connection write queue: a list of pool buffers whose unsent parts, read in
 order, are the bytes still to be written.
 */
module WriteQueue {
  import opened Bytes
  import opened Pool
  import opened Drain

  function SizesOf(chunks: seq<seq<byte>>): seq<nat> {
    seq(|chunks|, i requires 0 <= i < |chunks| => |chunks[i]|)
  }

  lemma {:induction false} FlattenSize(chunks: seq<seq<byte>>)
    ensures |Flatten(chunks)| == Sum(SizesOf(chunks))
  {
    if chunks != [] {
      FlattenSize(chunks[1..]);
      SumFirst(SizesOf(chunks));
      assert SizesOf(chunks)[1..] == SizesOf(chunks[1..]);
    }
  }

  /** The sizes with the entry at `head` changed or dropped. */
  lemma SizesChange(chunks: seq<seq<byte>>, head: nat, chunk: seq<byte>)
    requires head < |chunks|
    ensures SizesOf(chunks[head..]) == [|chunks[head]|] + SizesOf(chunks[head + 1..])
    ensures SizesOf(chunks[head := chunk][head..]) == [|chunk|] + SizesOf(chunks[head + 1..])
    ensures chunks[head := chunk][head + 1..] == chunks[head + 1..]
  {
  }

  lemma NoSizes(chunks: seq<seq<byte>>)
    requires chunks == []
    ensures SizesOf(chunks) == []
  {
  }

  lemma FlattenLastGains(chunks: seq<seq<byte>>, extra: seq<byte>)
    requires chunks != []
    ensures var k := |chunks| - 1; Flatten(chunks[k := chunks[k] + extra]) == Flatten(chunks) + extra
  {
    var k := |chunks| - 1;
    FlattenSnoc(chunks[..k], chunks[k]);
    FlattenSnoc(chunks[..k], chunks[k] + extra);
    assert chunks == chunks[..k] + [chunks[k]];
    assert chunks[k := chunks[k] + extra] == chunks[..k] + [chunks[k] + extra];
  }

  /** The first chunk that is not empty loses its first `n` bytes. */
  lemma FlattenHeadLoses(chunks: seq<seq<byte>>, head: nat, n: nat)
    requires head < |chunks| && n <= |chunks[head]|
    requires forall i :: 0 <= i < head ==> chunks[i] == []
    ensures Flatten(chunks) == chunks[head][..n] + Flatten(chunks[head := chunks[head][n..]])
  {
    var less := chunks[head := chunks[head][n..]];
    FlattenEmpties(chunks, head);
    FlattenEmpties(less, head);
    assert chunks[head..] == [chunks[head]] + chunks[head + 1..];
    assert less[head..] == [chunks[head][n..]] + chunks[head + 1..];
    assert chunks[head] == chunks[head][..n] + chunks[head][n..];
  }

  // ------------------------------------------------------------------- entries

  /** `owner[off..size]` is still to be sent; a consumed entry has given up its buffer. */
  datatype WriteEntry = WriteEntry(owner: array?<byte>, size: nat, off: nat)

  const CONSUMED := WriteEntry(null, 0, 0)

  predicate Live(e: WriteEntry) {
    e.owner != null && e.off < e.size <= e.owner.Length
  }

  ghost function OwnersFrom(items: seq<WriteEntry>, head: nat): set<array?<byte>> {
    set k | head <= k < |items| :: items[k].owner
  }

  lemma OwnersSameBuffer(items: seq<WriteEntry>, head: nat, k: nat, e: WriteEntry)
    requires head <= k < |items| && e.owner == items[k].owner
    ensures OwnersFrom(items[k := e], head) == OwnersFrom(items, head)
  {
    forall j | head <= j < |items|
      ensures items[j].owner in OwnersFrom(items[k := e], head)
    {
      assert items[k := e][j].owner == items[j].owner;
    }
  }

  lemma OwnersAppend(items: seq<WriteEntry>, head: nat, e: WriteEntry)
    requires head <= |items|
    ensures OwnersFrom(items + [e], head) == OwnersFrom(items, head) + {e.owner}
  {
    var more := items + [e];
    assert more[|items|] == e;
    forall j | head <= j < |items|
      ensures items[j].owner in OwnersFrom(more, head)
    {
      assert more[j] == items[j];
    }
  }

  /** The first entry gives up its buffer, which no other entry holds. */
  lemma OwnersDrop(items: seq<WriteEntry>, head: nat)
    requires head < |items|
    requires forall j, k :: head <= j < k < |items| ==> items[j].owner != items[k].owner
    ensures items[head].owner in OwnersFrom(items, head)
    ensures OwnersFrom(items[head := CONSUMED], head + 1) == OwnersFrom(items, head) - {items[head].owner}
  {
    var fewer := items[head := CONSUMED];
    forall o | o in OwnersFrom(items, head) - {items[head].owner}
      ensures o in OwnersFrom(fewer, head + 1)
    {
      var k :| head <= k < |items| && items[k].owner == o;
      assert fewer[k].owner == o;
    }
  }

  lemma OwnersShift(items: seq<WriteEntry>, head: nat)
    requires head <= |items|
    ensures OwnersFrom(items[head..], 0) == OwnersFrom(items, head)
  {
    forall k | head <= k < |items|
      ensures items[k].owner in OwnersFrom(items[head..], 0)
    {
      assert items[head..][k - head] == items[k];
    }
  }

  /** Where the buffers given to a queue are: still owned by it, or handed back. */
  ghost function Account(owned: set<array?<byte>>, puts: seq<array<byte>>): multiset<array?<byte>> {
    multiset(owned) + multiset(puts)
  }

  lemma AccountPut(owned: set<array?<byte>>, puts: seq<array<byte>>, o: array<byte>)
    ensures o in owned ==> Account(owned - {o}, puts + [o]) == Account(owned, puts)
    ensures Account(owned, puts + [o]) == Account(owned, puts) + multiset{o}
  {
    assert multiset(puts + [o]) == multiset(puts) + multiset{o};
    if o in owned {
      assert multiset(owned - {o}) + multiset{o} == multiset(owned);
    }
  }

  lemma AccountGive(owned: set<array?<byte>>, puts: seq<array<byte>>, o: array<byte>)
    requires o !in owned
    ensures Account(owned + {o}, puts) == Account(owned, puts) + multiset{o}
  {
    assert multiset(owned + {o}) == multiset(owned) + multiset{o};
  }

  /** copy(buf, buf[from..to]) */
  method MoveDown(buf: array<byte>, from: nat, to: nat)
    requires from <= to <= buf.Length
    modifies buf
    ensures buf[..to - from] == old(buf[from..to])
  {
    forall i | 0 <= i < to - from {
      buf[i] := buf[from + i];
    }
  }

  /** copy(buf[at..], src[..n]) */
  method CopyInto(buf: array<byte>, at: nat, src: array<byte>, n: nat)
    requires at + n <= buf.Length && n <= src.Length && buf != src
    modifies buf
    ensures buf[..at] == old(buf[..at])
    ensures buf[at..at + n] == src[..n]
  {
    forall i | 0 <= i < n {
      buf[at + i] := src[i];
    }
  }

  class WriteQueue {
    var items: seq<WriteEntry>
    var head: nat
    var bytes: int
    const pool: BufferPool
    const coalesceMax: int   // tuning.WriteQueueCoalesceMaxBytes
    const compactMax: int    // tuning.WriteQueueCompactMaxBytes

    ghost var chunks: seq<seq<byte>>   // the unsent part of each entry

    ghost var owned: set<array?<byte>>   // the buffers of the live entries

    ghost predicate Valid()
      reads this, owned
    {
      && head <= |items| == |chunks|
      && owned == OwnersFrom(items, head)
      && (items != [] ==> head < |items|)
      && (forall k :: 0 <= k < head ==> items[k] == CONSUMED && chunks[k] == [])
      && (forall k :: head <= k < |items| ==>
            Live(items[k]) && chunks[k] == items[k].owner[items[k].off..items[k].size])
      && (forall j, k :: head <= j < k < |items| ==> items[j].owner != items[k].owner)
      && bytes == |Flatten(chunks)|
    }

    /** The FIFO byte sequence the queue stands for. */
    ghost function Contents(): seq<byte>
      reads this
    {
      Flatten(chunks)
    }

    /** The sizes of the entries, without what has been sent of them. */
    ghost function Sizes(): seq<nat>
      reads this
    {
      if head <= |chunks| then SizesOf(chunks[head..]) else []
    }

    lemma SizesAddUp()
      requires Valid()
      ensures Positive(Sizes()) && Sum(Sizes()) == |Contents()|
    {
      FlattenSkipsConsumed();
      FlattenSize(chunks[head..]);
      hide Flatten, Sum;
    }

    /** Every buffer the queue has been given: still queued, or already handed back. */
    ghost function Accounted(): multiset<array?<byte>>
      reads this, pool
    {
      Account(owned, pool.puts)
    }

    constructor (pool: BufferPool, coalesceMax: int, compactMax: int)
      ensures Valid() && Contents() == [] && owned == {} && this.pool == pool
      ensures this.coalesceMax == coalesceMax && this.compactMax == compactMax
    {
      items, head, bytes, chunks, owned := [], 0, 0, [], {};
      this.pool, this.coalesceMax, this.compactMax := pool, coalesceMax, compactMax;
    }

    function Pending(): (n: int)
      requires Valid()
      reads this, owned
      ensures n == |Contents()|
    {
      bytes
    }

    /** Moves the unsent part of the last entry to the front of its buffer. */
    method CompactTail()
      requires Valid() && items != []
      modifies this`items, items[|items| - 1].owner
      ensures Valid() && |items| == old(|items|) && owned == old(owned) && Contents() == old(Contents())
      ensures var e, t := old(items[|items| - 1]), items[|items| - 1];
              t.owner == e.owner && t.size == e.size - e.off && t.off == 0
    {
      hide Flatten;
      var k := |items| - 1;
      var e := items[k];
      MoveDown(e.owner, e.off, e.size);
      var t := e.(size := e.size - e.off, off := 0);
      OwnersSameBuffer(items, head, k, t);
      items := items[k := t];
    }

    /** Copies `size` bytes behind the last entry, whose buffer has the room. */
    method ExtendTail(owner: array<byte>, size: nat)
      requires Valid() && items != [] && owner !in owned
      requires size <= owner.Length && items[|items| - 1].size + size <= items[|items| - 1].owner.Length
      modifies this`items, this`bytes, this`chunks, items[|items| - 1].owner
      ensures Valid() && owned == old(owned)
      ensures Contents() == old(Contents()) + owner[..size]
    {
      hide Flatten;
      var k := |items| - 1;
      var e := items[k];
      CopyInto(e.owner, e.size, owner, size);
      var t := e.(size := e.size + size);
      OwnersSameBuffer(items, head, k, t);
      items := items[k := t];
      bytes := bytes + size;
      assert e.owner[e.off..e.size + size] == e.owner[..e.size][e.off..] + e.owner[e.size..e.size + size];
      FlattenLastGains(chunks, owner[..size]);
      chunks := chunks[k := chunks[k] + owner[..size]];
    }

    /** Appends a new entry. */
    method AppendEntry(owner: array<byte>, size: nat)
      requires Valid() && owner !in owned
      requires 0 < size <= owner.Length
      modifies this`items, this`bytes, this`chunks, this`owned
      ensures Valid() && owned == old(owned) + {owner}
      ensures Contents() == old(Contents()) + owner[..size]
    {
      var e := WriteEntry(owner, size, 0);
      OwnersAppend(items, head, e);
      owned := owned + {owner};
      items := items + [e];
      bytes := bytes + size;
      FlattenSnoc(chunks, owner[..size]);
      chunks := chunks + [owner[..size]];
    }

    lemma TailIsOwned()
      requires Valid() && items != []
      ensures Live(items[|items| - 1]) && items[|items| - 1].owner in owned
    {
    }

    /** Merges a small buffer into the last entry if that has the room, compacting it first if need be. */
    method Coalesce(owner: array<byte>, size: nat) returns (merged: bool)
      requires Valid() && items != [] && owner !in owned && size <= owner.Length
      modifies this`items, this`bytes, this`chunks, items[|items| - 1].owner
      ensures Valid() && owned == old(owned)
      ensures Contents() == old(Contents()) + (if merged then owner[..size] else [])
    {
      hide Valid, Contents;
      TailIsOwned();
      var tail := items[|items| - 1];
      var avail := tail.owner.Length - tail.size + tail.off;
      if avail >= size && tail.off > 0 && tail.owner.Length - tail.size < size {
        if tail.size - tail.off <= compactMax {
          CompactTail();
        }
      }
      merged := tail.owner.Length - items[|items| - 1].size >= size;
      if merged {
        ExtendTail(owner, size);
      } else {
        assert Contents() == old(Contents()) + [];
      }
    }

    /**
     Takes over `owner`, whose first `size` bytes are appended to the stream.  The buffer
     becomes a new entry, or its bytes are merged into the last entry and it goes back to
     the pool at once.
     */
    method Enqueue(owner: array<byte>, size: int)
      requires Valid() && owner !in owned && size <= owner.Length
      modifies this, pool`puts, owned
      ensures Valid() && owned <= old(owned) + {owner}
      ensures Contents() == old(Contents()) + (if size > 0 then owner[..size] else [])
      ensures Accounted() == old(Accounted()) + (if owner.Length > 0 then multiset{owner} else multiset{})
    {
      hide Valid, Contents, Account;
      AccountPut(owned, pool.puts, owner);
      if size <= 0 {
        pool.Put(owner);
        assert Contents() == old(Contents()) + [];
        return;
      }
      if coalesceMax > 0 && size <= coalesceMax && |items| > 0 {
        TailIsOwned();
        var merged := Coalesce(owner, size);
        if merged {
          pool.Put(owner);
          return;
        }
      }
      AccountGive(owned, pool.puts, owner);
      AppendEntry(owner, size);
    }

    /** The unsent part of the first entry. */
    method Peek() returns (b: seq<byte>)
      requires Valid()
      ensures b <= Contents()
      ensures b == [] <==> Contents() == []
    {
      if bytes == 0 {
        return [];
      }
      FlattenSkipsConsumed();
      var item := items[head];
      if item.off >= item.size {
        return [];
      }
      b := item.owner[item.off..item.size];
    }

    lemma FlattenSkipsConsumed()
      requires Valid()
      ensures Contents() == Flatten(chunks[head..])
      ensures items == [] <==> Contents() == []
    {
      FlattenEmpties(chunks, head);
      if items != [] {
        assert chunks[head..][0] == chunks[head];
      }
    }

    /** The first entry has been sent: its buffer goes back to the pool. */
    method DropHead()
      requires Valid() && items != []
      modifies this, pool`puts
      ensures |items| == old(|items|) && head == old(head) + 1
      ensures head < |items| ==> Valid()
      ensures head == |items| ==> Contents() == [] && owned == {} && Sizes() == []
      ensures owned <= old(owned)
      ensures old(Contents()) == old(chunks[head]) + Contents()
      ensures old(Sizes()) == [old(|chunks[head]|)] + Sizes()
      ensures Accounted() == old(Accounted())
    {
      hide Flatten, Account, SizesOf;
      var item := items[head];
      SizesChange(chunks, head, chunks[head][|chunks[head]|..]);
      FlattenHeadLoses(chunks, head, |chunks[head]|);
      OwnersDrop(items, head);
      AccountPut(owned, pool.puts, item.owner);
      pool.Put(item.owner);
      bytes := bytes - (item.size - item.off);
      items := items[head := CONSUMED];
      chunks := chunks[head := chunks[head][|chunks[head]|..]];
      head := head + 1;
      owned := owned - {item.owner};
      if head == |items| {
        FlattenEmpties(chunks, head);
        FlattenNothing(chunks[head..]);
        NoSizes(chunks[head..]);
      }
    }

    /** The first `n` bytes of the first entry have been sent. */
    method TrimHead(n: nat)
      requires Valid() && items != [] && n < items[head].size - items[head].off
      modifies this`items, this`bytes, this`chunks
      ensures Valid() && owned == old(owned)
      ensures n <= |old(Contents())| && Contents() == old(Contents())[n..]
      ensures Sizes() == Left(old(Sizes()), n)
    {
      hide Flatten, SizesOf, Left;
      SizesChange(chunks, head, chunks[head][n..]);
      LeftBehindFirst(SizesOf(chunks[head + 1..]), |chunks[head]|, n);
      var item := items[head];
      var trimmed := item.(off := item.off + n);
      FlattenHeadLoses(chunks, head, n);
      OwnersSameBuffer(items, head, head, trimmed);
      items := items[head := trimmed];
      bytes := bytes - n;
      chunks := chunks[head := chunks[head][n..]];
    }

    /** resetEmpty: the list is emptied, whatever its capacity. */
    method ResetEmpty()
      modifies this
      ensures Valid() && Contents() == [] && owned == {} && Sizes() == []
    {
      items, head, bytes, chunks, owned := [], 0, 0, [], {};
    }

    /** Drops the first `n` bytes of the stream, or all of it. */
    method Consume(n: int)
      requires Valid()
      modifies this, pool`puts
      ensures Valid() && owned <= old(owned)
      ensures Contents() == old(Contents())[if n <= 0 then 0 else Min(n, |old(Contents())|)..]
      ensures Sizes() == Left(old(Sizes()), if n <= 0 then 0 else Min(n, |old(Contents())|))
      ensures Accounted() == old(Accounted())
    {
      hide Flatten, Account, Sizes, Left;
      LeftNothing(Sizes());
      if n <= 0 || bytes == 0 {
        return;
      }
      var left := Min(n, bytes);
      ghost var goal, rest := Contents()[left..], Left(Sizes(), left);
      while left > 0 && bytes > 0
        invariant Valid() && owned <= old(owned) && Accounted() == old(Accounted())
        invariant 0 <= left <= |Contents()| && Contents()[left..] == goal && Left(Sizes(), left) == rest
        decreases |items| - head
      {
        FlattenSkipsConsumed();
        var item := items[head];
        var remain := item.size - item.off;
        if left < remain {
          TrimHead(left);
          return;
        }
        left := left - remain;
        DropHead();
        LeftBehindFirst(Sizes(), remain, left + remain);
        LeftNothing(Sizes());
        if head >= |items| {
          ResetEmpty();
          return;
        }
      }
      LeftNothing(Sizes());
      if head > 0 && head * 2 >= |items| {
        Compact();
      }
    }

    /** Moves the live entries to the front of the list. */
    method Compact()
      requires Valid()
      modifies this`items, this`head, this`chunks
      ensures Valid() && head == 0 && owned == old(owned) && Contents() == old(Contents()) && Sizes() == old(Sizes())
    {
      hide Flatten;
      OwnersShift(items, head);
      FlattenEmpties(chunks, head);
      items := items[head..];
      chunks := chunks[head..];
      head := 0;
    }

    /** Gives every queued buffer back to the pool. */
    method Clear()
      requires Valid()
      modifies this, pool`puts
      ensures Valid() && Contents() == [] && owned == {}
      ensures Accounted() == old(Accounted())
    {
      hide Flatten, Account;
      while head < |items|
        invariant head <= |items|
        invariant head < |items| ==> Valid()
        invariant head == |items| ==> owned == {}
        invariant Accounted() == old(Accounted())
        decreases |items| - head
      {
        DropHead();
      }
      ResetEmpty();
    }
  }
}
