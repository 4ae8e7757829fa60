/**
 The size-classed byte allocator.  A buffer obtained from `Get` is modelled as newly
 allocated memory; `puts` is the history of the buffers handed back by `Put`.
 */
module Pool {
  import opened Bytes

  ghost predicate IsPow2(n: nat) {
    exists k: nat :: n == Pow2(k)
  }

  /** Bitwise and. */
  function And(a: nat, b: nat): nat {
    if a == 0 || b == 0 then 0 else 2 * And(a / 2, b / 2) + (if a % 2 == 1 && b % 2 == 1 then 1 else 0)
  }

  lemma {:induction false} Pow2Increases(i: nat, j: nat)
    requires i < j
    ensures Pow2(i) < Pow2(j)
  {
    if i + 1 < j {
      Pow2Increases(i, j - 1);
    }
  }

  /** The i-th size class, `(1 << i) * step`. */
  function ClassSize(step: nat, i: nat): (n: nat)
    ensures n >= step
  {
    if i == 0 then step else 2 * ClassSize(step, i - 1)
  }

  function Classes(step: nat, rank: nat): set<nat> {
    set i: nat | i < rank :: ClassSize(step, i)
  }

  lemma {:induction false} ClassSizeIsPow2(m: nat, i: nat)
    ensures ClassSize(Pow2(m), i) == Pow2(i + m)
  {
    if i > 0 {
      ClassSizeIsPow2(m, i - 1);
    }
  }

  lemma {:induction false} ClassSizeIncreases(step: nat, i: nat, j: nat)
    requires i <= j
    ensures ClassSize(step, i) <= ClassSize(step, j)
  {
    if i < j {
      ClassSizeIncreases(step, i, j - 1);
    }
  }

  lemma {:induction false} AndSelf(a: nat)
    ensures And(a, a) == a
  {
    if a > 0 {
      AndSelf(a / 2);
    }
  }

  lemma AndHalves(m: nat)
    requires m > 0
    ensures And(2 * m, 2 * m - 1) == 2 * And(m, m - 1)
    ensures And(2 * m + 1, 2 * m) == 2 * And(m, m)
  {
    assert (2 * m - 1) / 2 == m - 1 && (2 * m - 1) % 2 == 1;
    assert (2 * m + 1) / 2 == m && (2 * m) / 2 == m;
  }

  lemma Pow2Halves(m: nat)
    requires m > 0
    ensures IsPow2(2 * m) <==> IsPow2(m)
    ensures !IsPow2(2 * m + 1)
  {
    if IsPow2(m) {
      var k: nat :| m == Pow2(k);
      assert 2 * m == Pow2(k + 1);
    }
    if IsPow2(2 * m) {
      var k: nat :| 2 * m == Pow2(k);
      assert m == Pow2(k - 1);
    }
  }

  /** `size & (size - 1) == 0` is exactly the test for a power of two. */
  lemma {:induction false} PowerOfTwoTest(n: nat)
    requires n > 0
    ensures And(n, n - 1) == 0 <==> IsPow2(n)
  {
    if n == 1 {
      assert n == Pow2(0);
    } else {
      var m := n / 2;
      AndHalves(m);
      Pow2Halves(m);
      if n % 2 == 0 {
        assert n == 2 * m;
        PowerOfTwoTest(m);
      } else {
        assert n == 2 * m + 1;
        AndSelf(m);
      }
    }
  }

  class BufferPool {
    const step: nat
    const rank: nat
    const classes: set<nat>
    const max: nat
    ghost var puts: seq<array<byte>>

    ghost predicate Valid() {
      && IsPow2(step)
      && rank > 0
      && classes == Classes(step, rank)
      && max == ClassSize(step, rank - 1)
    }

    constructor (step: nat, rank: nat)
      requires IsPow2(step) && rank > 0
      ensures Valid() && this.step == step && this.rank == rank && puts == []
    {
      var known: set<nat> := {};
      var largest := 0;
      for i := 0 to rank
        invariant known == Classes(step, i)
        invariant i > 0 ==> largest == ClassSize(step, i - 1)
      {
        largest := ClassSize(step, i);
        known := known + {largest};
      }
      this.step, this.rank, classes, max := step, rank, known, largest;
      puts := [];
    }

    lemma PowerInRangeIsClass(size: nat)
      requires Valid() && IsPow2(size) && step < size <= max
      ensures size in classes
    {
      var k: nat :| size == Pow2(k);
      var m: nat :| step == Pow2(m);
      if k <= m {
        if k < m { Pow2Increases(k, m); }
        assert false;
      }
      ClassSizeIsPow2(m, k - m);
      ClassSizeIsPow2(m, rank - 1);
      if rank - 1 < k - m {
        Pow2Increases(rank - 1 + m, k);
        assert false;
      }
    }

    /** The smallest class that holds `size` bytes, or nothing when no class does. */
    method Get(size: int) returns (buf: array?<byte>)
      requires Valid()
      ensures buf == null <==> size > max
      ensures buf != null ==>
                && fresh(buf) && buf.Length in classes && 0 < buf.Length && size <= buf.Length <= max
                && forall c :: c in classes && size <= c ==> buf.Length <= c
    {
      if size > max {
        return null;
      }
      var target := step;
      assert step == ClassSize(step, 0);
      forall c | c in classes
        ensures step <= c
      {
        var i: nat :| i < rank && c == ClassSize(step, i);
        ClassSizeIncreases(step, 0, i);
      }
      if size > step {
        if And(size, size - 1) == 0 {
          target := size;
          PowerOfTwoTest(size);
          PowerInRangeIsClass(size);
        } else {
          var i := 0;
          while i < rank
            invariant 0 <= i <= rank
            invariant i > 0 ==> target == ClassSize(step, i - 1) && target < size
            decreases rank - i
          {
            target := ClassSize(step, i);
            if target >= size {
              break;
            }
            i := i + 1;
          }
          assert i < rank && target == ClassSize(step, i);
          forall c | c in classes && size <= c
            ensures target <= c
          {
            var j: nat :| j < rank && c == ClassSize(step, j);
            if j < i { ClassSizeIncreases(step, j, i - 1); } else { ClassSizeIncreases(step, i, j); }
          }
        }
      }
      var i: nat :| i < rank && target == ClassSize(step, i);
      ClassSizeIncreases(step, i, rank - 1);
      buf := new byte[target];
    }

    /** An empty buffer has no class and is dropped. */
    method Put(buf: array?<byte>)
      modifies this`puts
      ensures puts == if buf == null || buf.Length == 0 then old(puts) else old(puts) + [buf]
    {
      if buf != null && buf.Length > 0 {
        puts := puts + [buf];
      }
    }
  }
}
