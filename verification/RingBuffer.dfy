/** The circular byte buffer with growing read and write counters. */
module RingBuffer {
  import opened Bytes
  import opened Pool

  datatype Mode = OpRead | OpWrite

  function Max0(n: int): nat {
    if n < 0 then 0 else n
  }

  // ---------------------------------------------------- positions in the circle

  /** The place of a counter. */
  function Place(counter: nat, size: nat): (p: nat)
    ensures size > 0 ==> p < size
  {
    if size == 0 then 0 else counter % size
  }

  lemma PlaceZero(size: nat)
    ensures Place(0, size) == 0
  {
  }

  /** The place `i` bytes after place `start`. */
  function Slot(start: nat, i: nat, size: nat): nat {
    if start + i < size then start + i else start + i - size
  }

  lemma MulAtLeast(k: int, size: nat)
    requires k >= 1
    ensures k * size >= size
  {
    assert k * size == (k - 1) * size + size;
  }

  lemma QuotientUnique(q1: int, rest1: nat, q2: int, rest2: nat, size: nat)
    requires rest1 < size && rest2 < size
    requires q1 * size + rest1 == q2 * size + rest2
    ensures rest1 == rest2
  {
    assert (q1 - q2) * size == q1 * size - q2 * size;
    assert (q2 - q1) * size == q2 * size - q1 * size;
    if q1 > q2 {
      MulAtLeast(q1 - q2, size);
    } else if q2 > q1 {
      MulAtLeast(q2 - q1, size);
    }
  }

  /** Advancing a counter by at most one lap advances its place around the circle. */
  lemma AdvancePlace(r: nat, k: nat, size: nat)
    requires size > 0 && k <= size
    ensures Place(r + k, size) == Slot(Place(r, size), k, size)
  {
    var q, q' := r / size, (r + k) / size;
    assert r == q * size + r % size;
    assert r + k == q' * size + (r + k) % size;
    if r % size + k < size {
      QuotientUnique(q, r % size + k, q', (r + k) % size, size);
    } else {
      assert (q + 1) * size == q * size + size;
      QuotientUnique(q + 1, r % size + k - size, q', (r + k) % size, size);
    }
  }

  /** `n` bytes from place `start` on. */
  function View(b: seq<byte>, start: nat, n: nat): (v: seq<byte>)
    requires n <= |b| && (n > 0 ==> start < |b|)
    ensures |v| == n
  {
    seq(n, i requires 0 <= i < n => b[Slot(start, i, |b|)])
  }

  lemma ViewNone(b: seq<byte>, start: nat)
    ensures View(b, start, 0) == []
  {
  }

  /** Skipping `k` bytes drops them from the front. */
  lemma ViewDrop(b: seq<byte>, start: nat, n: nat, k: nat)
    requires k <= n <= |b| && start < |b|
    ensures View(b, Slot(start, k, |b|), n - k) == View(b, start, n)[k..]
  {
  }

  /** A longer view appends what lies behind. */
  lemma ViewGrow(b: seq<byte>, start: nat, n: nat, k: nat)
    requires n + k <= |b| && start < |b|
    ensures View(b, start, n + k) == View(b, start, n) + View(b, Slot(start, n, |b|), k)
  {
  }

  /** The readable bytes as one or two stretches of the buffer. */
  lemma ViewSlices(b: seq<byte>, start: nat, n: nat)
    requires n <= |b| && start < |b|
    ensures View(b, start, n) == if start + n <= |b| then b[start..start + n] else b[start..] + b[..start + n - |b|]
  {
  }

  /** The buffer after storing `p` from place `start` on, going around the end if need be. */
  function Stored(b: seq<byte>, start: nat, p: seq<byte>): (b': seq<byte>)
    requires start < |b| && |p| <= |b|
    ensures |b'| == |b|
  {
    seq(|b|, j requires 0 <= j < |b| =>
      if start <= j < start + |p| then p[j - start] else if j + |b| < start + |p| then p[j + |b| - start] else b[j])
  }

  lemma StoredFlat(b: seq<byte>, start: nat, p: seq<byte>, b': seq<byte>)
    requires |b'| == |b| && start < |b| && start + |p| <= |b|
    requires forall j :: 0 <= j < |b| ==> b'[j] == if start <= j < start + |p| then p[j - start] else b[j]
    ensures b' == Stored(b, start, p)
  {
  }

  lemma StoredWrapped(b: seq<byte>, start: nat, p: seq<byte>, mid: seq<byte>, b': seq<byte>)
    requires |b'| == |mid| == |b| && start < |b| && |b| - start <= |p| <= |b|
    requires forall j :: 0 <= j < |b| ==> mid[j] == if start <= j < |b| then p[j - start] else b[j]
    requires forall j :: 0 <= j < |b| ==> b'[j] == if 0 <= j < |p| - (|b| - start) then p[|b| - start + j] else mid[j]
    ensures b' == Stored(b, start, p)
  {
  }

  /** What was stored is what is then seen, and bytes in view before it are untouched. */
  lemma StoredView(b: seq<byte>, start: nat, n: nat, p: seq<byte>)
    requires n + |p| <= |b| && start < |b|
    ensures var b' := Stored(b, Slot(start, n, |b|), p);
            && View(b', Slot(start, n, |b|), |p|) == p
            && View(b', start, n) == View(b, start, n)
            && View(b', start, n + |p|) == View(b, start, n) + p
  {
    var at := Slot(start, n, |b|);
    var b' := Stored(b, at, p);
    assert View(b', at, |p|) == p;
    assert View(b', start, n) == View(b, start, n);
    ViewGrow(b', start, n, |p|);
  }

  // ------------------------------------------------- slices longer than the given length

  /** copy(b[at..], p) */
  function Overlaid(b: seq<byte>, at: nat, p: seq<byte>): (b': seq<byte>)
    requires at <= |b|
    ensures |b'| == |b|
  {
    var n := if |p| < |b| - at then |p| else |b| - at;
    b[..at] + p[..n] + b[at + n..]
  }

  lemma OverlaidAt(b: seq<byte>, at: nat, p: seq<byte>, j: nat)
    requires at <= |b| && j < |b|
    ensures Overlaid(b, at, p)[j] == if at <= j < at + |p| then p[j - at] else b[j]
  {
  }

  /** What Write does to the buffer: it copies the whole slice, and looks at `length` only to see whether it goes around the end. */
  function Spilled(b: seq<byte>, start: nat, p: seq<byte>, length: nat): (b': seq<byte>)
    requires start < |b| && length <= |p|
    ensures |b'| == |b|
  {
    if start + length < |b| then Overlaid(b, start, p)
    else Overlaid(Overlaid(b, start, p[..|b| - start]), 0, p[|b| - start..])
  }

  /** The number of places that are written, counted from the first. */
  function Spill(size: nat, start: nat, given: nat, length: nat): nat
    requires start < size && length <= given
  {
    if start + length < size && size - start < given then size - start else given
  }

  /** As long as no more than the buffer is written, it is written once around. */
  lemma SpilledIsStored(b: seq<byte>, start: nat, p: seq<byte>, length: nat)
    requires start < |b| && length <= |p| && Spill(|b|, start, |p|, length) <= |b|
    ensures Spilled(b, start, p, length) == Stored(b, start, p[..Spill(|b|, start, |p|, length)])
  {
    var n := Spill(|b|, start, |p|, length);
    var b' := Spilled(b, start, p, length);
    if start + length < |b| {
      StoredFlat(b, start, p[..n], b');
    } else {
      assert p[..n] == p;
      var mid := Overlaid(b, start, p[..|b| - start]);
      StoredWrapped(b, start, p, mid, b');
    }
  }

  /** The unread bytes stay and the new ones follow them, for the given buffer and slice. */
  ghost predicate WritesRight(b: seq<byte>, start: nat, n: nat, p: seq<byte>, length: nat)
    requires start < |b| && n + length <= |b| && length <= |p|
  {
    View(Spilled(b, Slot(start, n, |b|), p, length), start, n + length) == View(b, start, n) + p[..length]
  }

  lemma FittingIsRight(b: seq<byte>, start: nat, n: nat, p: seq<byte>, length: nat)
    requires start < |b| && n + length <= |b| && length <= |p| && Slot(start, n, |b|) < |b|
    requires Spill(|b|, Slot(start, n, |b|), |p|, length) <= |b| - n
    ensures WritesRight(b, start, n, p, length)
    ensures View(Spilled(b, Slot(start, n, |b|), p, length), start, n) == View(b, start, n)
  {
    var at := Slot(start, n, |b|);
    var k := Spill(|b|, at, |p|, length);
    SpilledIsStored(b, at, p, length);
    StoredView(b, start, n, p[..k]);
    var b' := Spilled(b, at, p, length);
    hide Spilled, Stored;
    ViewPrefix(b', start, n + k, n + length);
    assert (View(b, start, n) + p[..k])[..n + length] == View(b, start, n) + p[..length];
  }

  lemma ViewPrefix(b: seq<byte>, start: nat, n: nat, k: nat)
    requires k <= n <= |b| && (n > 0 ==> start < |b|)
    ensures View(b, start, n)[..k] == View(b, start, k)
  {
  }

  /** Unread zeros are overwritten by ones; if nothing is unread, the slice overwrites its own beginning. */
  lemma SpillOverwrites(size: nat, start: nat, n: nat, given: nat, length: nat) returns (b: seq<byte>, p: seq<byte>)
    requires start < size && 0 < length && n + length <= size && length <= given
    requires Spill(size, Slot(start, n, size), given, length) > size - n
    ensures |b| == size && |p| == given && !WritesRight(b, start, n, p, length)
  {
    var at := Slot(start, n, size);
    b := seq(size, i => 0);
    p := seq(given, i => if i < size - n then 0 else 1);
    var b' := Spilled(b, at, p, length);
    if at + length < size {
      assert b'[start] == p[size - n];
    } else {
      var mid := Overlaid(b, at, p[..size - at]);
      var rest := p[size - at..];
      assert b'[start] == rest[start];
    }
    assert b'[start] == 1 by {
      assert n == 0 ==> at == start;
    }
    assert View(b', start, n + length)[0] == b'[start];
    assert (View(b, start, n) + p[..length])[0] == 0;
  }

  /** Write is right for every content and every slice of given sizes exactly if what it writes fits the room. */
  lemma WritesRightExactly(size: nat, start: nat, n: nat, given: nat, length: nat)
    requires start < size && 0 < length && n + length <= size && length <= given
    ensures (forall b: seq<byte>, p: seq<byte> :: |b| == size && |p| == given ==> WritesRight(b, start, n, p, length)) <==>
            Spill(size, Slot(start, n, size), given, length) <= size - n
  {
    if Spill(size, Slot(start, n, size), given, length) <= size - n {
      forall b: seq<byte>, p: seq<byte> | |b| == size && |p| == given
        ensures WritesRight(b, start, n, p, length)
      {
        FittingIsRight(b, start, n, p, length);
      }
    } else {
      var b, p := SpillOverwrites(size, start, n, given, length);
    }
  }

  /** copy(dst[at..], src[lo..lo + n]), which may overlap */
  method CopyRange(dst: array<byte>, at: nat, src: array<byte>, lo: nat, n: nat)
    requires at + n <= dst.Length && lo + n <= src.Length
    modifies dst
    ensures forall j :: 0 <= j < dst.Length ==> dst[j] == if at <= j < at + n then old(src[lo + j - at]) else old(dst[j])
  {
    forall i | 0 <= i < n {
      dst[at + i] := src[lo + i];
    }
  }

  /** copy(dst[at..], src[lo..hi]): as much as there is room for. */
  method CopyOver(dst: array<byte>, at: nat, src: array<byte>, lo: nat, hi: nat)
    requires at <= dst.Length && lo <= hi <= src.Length
    modifies dst
    ensures dst[..] == Overlaid(old(dst[..]), at, old(src[lo..hi]))
  {
    hide Overlaid;
    var n := if hi - lo < dst.Length - at then hi - lo else dst.Length - at;
    ghost var was, p := dst[..], src[lo..hi];
    CopyRange(dst, at, src, lo, n);
    ghost var now := Overlaid(was, at, p);
    forall j | 0 <= j < dst.Length
      ensures dst[..][j] == now[j]
    {
      OverlaidAt(was, at, p, j);
      assert at <= j < at + n ==> p[j - at] == old(src[lo + j - at]);
      assert was[j] == old(dst[j]);
    }
    assert dst[..] == now;
  }

  class RingBuffer {
    var buf: array<byte>
    var size: nat
    var r: nat   // counts the bytes read
    var w: nat   // counts the bytes written
    const pool: BufferPool

    ghost predicate Valid()
      reads this
    {
      && pool.Valid()
      && size == buf.Length <= pool.max
      && (size > 0 ==> size in pool.classes)
      && r <= w <= r + size
      && (size == 0 ==> r == 0)
    }

    /** The unread bytes, in order. */
    ghost function Contents(): seq<byte>
      requires Valid()
      reads this, buf
    {
      View(buf[..], Place(r, size), w - r)
    }

    constructor (pool: BufferPool)
      requires pool.Valid()
      ensures Valid() && fresh(buf) && Contents() == [] && size == 0 && this.pool == pool
    {
      buf := new byte[0];
      size, r, w := 0, 0, 0;
      this.pool := pool;
    }

    function Has(): (n: nat)
      requires Valid()
      reads this, buf
      ensures n == |Contents()|
    {
      w - r
    }

    function Free(): (n: nat)
      requires Valid()
      reads this, buf
      ensures n + |Contents()| == size
    {
      size - (w - r)
    }

    /** A buffer that was replaced has gone back to the pool, once. */
    twostate predicate ReplacedOnce()
      reads this, pool
    {
      pool.puts == if buf != old(buf) && old(size) > 0 then old(pool.puts) + [old(buf)] else old(pool.puts)
    }

    /** Copies the unread bytes to the front of `dst`. */
    method CopyOut(dst: array<byte>, n: nat)
      requires Valid() && dst != buf && n <= w - r && n <= dst.Length && 0 < n
      modifies dst
      ensures Valid() && dst[..n] == Contents()[..n] && dst[n..] == old(dst[n..])
    {
      var start := Place(r, size);
      ViewSlices(buf[..], start, n);
      ViewGrow(buf[..], start, n, w - r - n);
      hide View, Slot, Place;
      if start + n < size {
        CopyRange(dst, 0, buf, start, n);
      } else {
        var copied := size - start;
        CopyRange(dst, 0, buf, start, copied);
        CopyRange(dst, copied, buf, 0, n - copied);
      }
      assert dst[..n] == View(buf[..], start, n);
    }

    /** Moves the unread bytes into a fresh buffer of at least `target` bytes. */
    method Resize(target: nat) returns (ok: bool)
      requires Valid() && w - r <= target
      modifies this, pool`puts
      ensures Valid() && Contents() == old(Contents())
      ensures ok <==> target <= pool.max
      ensures ok ==> fresh(buf) && size >= target && r == 0 && size > 0
      ensures !ok ==> buf == old(buf) && size == old(size) && r == old(r) && w == old(w)
      ensures pool.puts == if ok && old(size) > 0 then old(pool.puts) + [old(buf)] else old(pool.puts)
    {
      var fresh_ := pool.Get(target);
      if fresh_ == null {
        return false;
      }
      var n := w - r;
      if n > 0 {
        CopyOut(fresh_, n);
        w := n;
      } else {
        w := 0;
      }
      pool.Put(buf);
      buf, size, r := fresh_, fresh_.Length, 0;
      assert Place(0, size) == 0;
      hide View;
      ViewSlices(buf[..], 0, n);
      ok := true;
    }

    /** Copies the slice src[lo..hi] to the write place, going around the end if `length` does. */
    method Store(src: array<byte>, lo: nat, hi: nat, length: nat)
      requires Valid() && size > 0 && length <= size - (w - r) && lo + length <= hi <= src.Length
      requires src == buf ==> r == 0 && w == 0
      modifies buf
      ensures buf[..] == Spilled(old(buf[..]), Place(w, size), old(src[lo..hi]), length)
    {
      PlaceZero(size);
      hide Contents, View, Place, Slot, Overlaid;
      var start := Place(w, size);
      if start + length < size {
        CopyOver(buf, start, src, lo, hi);
      } else {
        var copied := size - start;
        ghost var p := src[lo..hi];
        assert p[..copied] == src[lo..lo + copied] && p[copied..] == src[lo + copied..hi];
        CopyOver(buf, start, src, lo, lo + copied);
        assert src == buf ==> lo + copied == hi;
        NothingOverlaid(buf[..], p[copied..]);
        if lo + copied < hi {
          CopyOver(buf, 0, src, lo + copied, hi);
        }
      }
    }

    lemma NothingOverlaid(b: seq<byte>, p: seq<byte>)
      ensures p == [] ==> Overlaid(b, 0, p) == b
    {
    }

    /**
     Appends the first `length` bytes of the slice `src[lo..hi]`.  The code copies the whole
     slice, or what of it fits in front of the end of the buffer, so this is right if the slice
     is no longer, or if what is copied fits the room.
     */
    method Write(src: array<byte>, lo: nat, hi: nat, length: nat, update: bool) returns (n: int)
      requires Valid() && lo <= hi <= src.Length
      requires src == buf ==> r == 0 && w == 0
      modifies this, pool`puts, buf
      ensures Valid() && (buf == old(buf) || fresh(buf)) && ReplacedOnce()
      ensures n == -1 <==> lo == hi || length > hi - lo
      ensures n == -2 <==> lo < hi && length <= hi - lo && old(Free()) < length && |old(Contents())| + length > pool.max
      ensures n == -1 || n == -2 || n == length
      ensures n < 0 ==> Contents() == old(Contents())
      ensures old(size) > 0 && length <= old(Free()) ==> buf == old(buf)
      ensures n == length && (hi - lo == length || hi - lo <= old(Free())
                              || (length <= old(Free()) && old(size) > 0
                                  && Spill(old(size), Place(old(w), old(size)), hi - lo, length) <= old(Free()))) ==>
                Contents() == if update then old(Contents()) + old(src[lo..lo + length]) else old(Contents())
    {
      hide View, Slot, Place, Spilled, Stored;
      if size == 0 {
        Allocate(length);
      }
      if lo == hi || length > hi - lo {
        return -1;
      }
      var ok := Reserve(length);
      if !ok {
        return -2;
      }
      Append(src, lo, hi, length, update);
      n := length;
    }

    /** Makes sure `length` more bytes fit. */
    method Reserve(length: nat) returns (ok: bool)
      requires Valid()
      modifies this, pool`puts
      ensures Valid() && Contents() == old(Contents()) && (buf == old(buf) || fresh(buf)) && ReplacedOnce()
      ensures ok <==> length <= old(Free()) || |old(Contents())| + length <= pool.max
      ensures ok ==> length <= size - (w - r)
      ensures length <= old(Free()) ==> buf == old(buf)
      ensures buf == old(buf) ==> r == old(r) && w == old(w) && size == old(size)
    {
      hide View, Slot, Place;
      var avail := size - (w - r);
      ok := true;
      if avail < length {
        ok := Resize(length - avail + size);
      }
    }

    /** Stores a slice, and counts `n` bytes of it when `update` is set. */
    method Append(src: array<byte>, lo: nat, hi: nat, n: nat, update: bool)
      requires Valid() && size > 0 && n <= size - (w - r) && lo + n <= hi <= src.Length
      requires src == buf ==> r == 0 && w == 0
      modifies this`w, buf
      ensures Valid()
      ensures hi - lo == n || Spill(size, Place(old(w), size), hi - lo, n) <= size - (old(w) - r) ==>
                Contents() == if update then old(Contents()) + old(src[lo..lo + n]) else old(Contents())
    {
      hide View, Stored, Slot, Place, Spilled, WritesRight;
      ghost var p, was := src[lo..hi], buf[..];
      AdvancePlace(r, w - r, size);
      Store(src, lo, hi, n);
      if hi - lo == n || Spill(size, Place(w, size), hi - lo, n) <= size - (w - r) {
        FittingIsRight(was, Place(r, size), w - r, p, n);
        WritesRightMeans(was, Place(r, size), w - r, p, n);
        assert p[..n] == old(src[lo..lo + n]);
      }
      if update {
        w := w + n;
      }
    }

    lemma WritesRightMeans(b: seq<byte>, start: nat, n: nat, p: seq<byte>, length: nat)
      requires start < |b| && n + length <= |b| && length <= |p| && WritesRight(b, start, n, p, length)
      ensures View(Spilled(b, Slot(start, n, |b|), p, length), start, n + length) == View(b, start, n) + p[..length]
    {
    }

    /** The first allocation of an empty ring. */
    method Allocate(length: int)
      requires Valid() && size == 0
      modifies this
      ensures Valid() && Contents() == [] && (buf == old(buf) || fresh(buf)) && ReplacedOnce()
      ensures r == 0 && w == 0
      ensures if length <= pool.max then size > 0 && size >= length else size == 0
    {
      var got := pool.Get(length);
      if got != null {
        buf, size := got, got.Length;
      }
    }

    /** Copies up to `length` unread bytes into `p`; they are consumed when `update` is set. */
    method Read(p: array<byte>, length: nat, update: bool) returns (n: int)
      requires Valid() && p != buf
      modifies this`r, p
      ensures Valid()
      ensures n == if p.Length == 0 || length > p.Length then -1 else Min(length, |old(Contents())|)
      ensures n >= 0 ==> p[..n] == old(Contents())[..n] && p[n..] == old(p[n..])
      ensures n < 0 ==> p[..] == old(p[..])
      ensures Contents() == if update && n >= 0 then old(Contents())[n..] else old(Contents())
    {
      hide View, Slot, Place;
      if p.Length == 0 || length > p.Length {
        return -1;
      }
      if w == r {
        return 0;
      }
      n := w - r;
      if n > length {
        n := length;
      }
      if n > 0 {
        CopyOut(p, n);
      }
      if update {
        AdvancePlace(r, n, size);
        ViewDrop(buf[..], Place(r, size), w - r, n);
        r := r + n;
      }
    }

    /** Moves a counter; emptying the ring by reading resets both counters. */
    method Forward(step: nat, mode: Mode) returns (res: int)
      requires Valid()
      modifies this`r, this`w
      ensures Valid()
      ensures mode == OpRead ==> (res == -1 <==> step > |old(Contents())|)
      ensures mode == OpWrite ==> (res == -1 <==> step > old(Free()))
      ensures res == 0 || (res == -1 && r == old(r) && w == old(w))
      ensures mode == OpRead && res == 0 ==> Contents() == old(Contents())[step..]
      ensures mode == OpWrite && res == 0 ==>
                Contents() == old(Contents()) + old(View(buf[..], Place(w, size), step))
    {
      hide View, Slot, Place;
      if mode == OpRead {
        if r + step > w {
          return -1;
        }
        if size > 0 {
          AdvancePlace(r, step, size);
          ViewDrop(buf[..], Place(r, size), w - r, step);
        } else {
          ViewNone(buf[..], Place(r, size));
        }
        r := r + step;
        if r == w {
          r, w := 0, 0;
          ViewNone(buf[..], Place(r, size));
        }
      } else {
        if w + step - r > size {
          return -1;
        }
        if size > 0 {
          AdvancePlace(r, w - r, size);
          ViewGrow(buf[..], Place(r, size), w - r, step);
        } else {
          ViewNone(buf[..], Place(r, size));
        }
        w := w + step;
      }
      res := 0;
    }

    /** Empties the ring and gives its buffer back. */
    method Reset()
      requires Valid()
      modifies this, pool`puts
      ensures Valid() && Contents() == [] && size == 0 && fresh(buf)
      ensures pool.puts == if old(size) > 0 then old(pool.puts) + [old(buf)] else old(pool.puts)
    {
      r, w := 0, 0;
      pool.Put(buf);
      buf := new byte[0];
      size := 0;
    }

    /** Installs another buffer, empty. */
    method Update(b: array<byte>)
      requires Valid() && 0 < b.Length <= pool.max && b.Length in pool.classes
      modifies this, pool`puts
      ensures Valid() && Contents() == [] && buf == b && r == 0 && w == 0
      ensures pool.puts == if old(size) > 0 then old(pool.puts) + [old(buf)] else old(pool.puts)
    {
      pool.Put(buf);
      buf, size, w, r := b, b.Length, 0, 0;
    }

    /** Forgets the unread bytes but keeps the buffer. */
    method Truncate()
      requires Valid()
      modifies this`r, this`w
      ensures Valid() && Contents() == [] && r == 0 && w == 0
    {
      r, w := 0, 0;
    }

    /** The readable bytes as one or two slices. */
    method Peek2() returns (head: seq<byte>, tail: seq<byte>)
      requires Valid()
      ensures head + tail == Contents()
      ensures head == [] ==> tail == []
    {
      if size == 0 || w == r {
        return [], [];
      }
      var n, start := w - r, Place(r, size);
      ViewSlices(buf[..], start, n);
      hide View;
      if start + n <= size {
        return buf[start..start + n], [];
      }
      head := buf[start..size];
      tail := buf[0..start + n - size];
    }

    /**
     A writable stretch `buf[lo..hi]` of at most `length` places behind the unread bytes.
     It is empty only when memory is refused, and no unread byte lies in it.
     */
    method PeekWrite(length: int) returns (lo: nat, hi: nat)
      requires Valid()
      modifies this, pool`puts
      ensures Valid() && Contents() == old(Contents()) && (buf == old(buf) || fresh(buf)) && ReplacedOnce()
      ensures lo <= hi <= size && hi - lo <= Max0(length)
      ensures lo == hi <==> length <= 0 || (old(Free()) < length && |old(Contents())| + length > pool.max)
      ensures lo < hi ==> lo == Place(w, size) && hi - lo <= size - (w - r)
      ensures forall i :: 0 <= i < w - r ==> !(lo <= Slot(Place(r, size), i, size) < hi)
    {
      hide View, Place;
      if length <= 0 {
        return 0, 0;
      }
      if size == 0 {
        Allocate(length);
        if size == 0 {
          return 0, 0;
        }
      }
      var ok := Reserve(length);
      if !ok {
        return 0, 0;
      }
      AdvancePlace(r, w - r, size);
      lo := Place(w, size);
      hi := if lo + length <= size then lo + length else size;
    }

    /** Rotates the buffer so that the unread bytes start at its front, and returns it. */
    method AlignBytes() returns (b: array<byte>)
      requires Valid() && size > 0
      modifies this, pool`puts
      ensures Valid() && Contents() == old(Contents()) && size == old(size)
      ensures b == buf && b[..|Contents()|] == Contents() && Place(r, size) == 0
      ensures (buf == old(buf) || fresh(buf)) && ReplacedOnce()
    {
      hide View, Slot, Place;
      if Place(r, size) == 0 {
        ViewSlices(buf[..], 0, w - r);
        return buf;
      }
      var got := pool.Get(size);
      var n := w - r;
      if n > 0 {
        CopyOut(got, n);
        w := n;
      } else {
        w := 0;
      }
      pool.Put(buf);
      buf, r := got, 0;
      PlaceZero(size);
      ViewSlices(buf[..], 0, n);
      b := buf;
    }
  }
}
