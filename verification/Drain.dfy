/**
 How much one drain of a connection may move.  drainWrite hands its whole budget to every
 flush and stops once that much has been moved in total, so the last flush may go past it.
 A flush offers the socket no more than the first 64 entries of the write queue.
 */
module Drain {
  import opened Bytes

  const MAX_WRITEV_IOVECS := 64

  /** What the kernel does at one write: takes so many bytes or all there are, blocks, or fails. */
  datatype Answer = Takes(n: nat) | Blocks | Fails

  function Sum(ns: seq<nat>): nat {
    if ns == [] then 0 else Sum(ns[..|ns| - 1]) + ns[|ns| - 1]
  }

  /** Entries are never empty. */
  predicate Positive(sizes: seq<nat>) {
    forall i :: 0 <= i < |sizes| ==> sizes[i] > 0
  }

  /** The sizes of the entries that are left when the first `n` bytes are gone. */
  function Left(sizes: seq<nat>, n: nat): seq<nat> {
    if n == 0 || sizes == [] then sizes
    else if n < sizes[0] then [sizes[0] - n] + sizes[1..]
    else Left(sizes[1..], n - sizes[0])
  }

  /** The entries of one writev. */
  function First(sizes: seq<nat>): seq<nat> {
    if |sizes| <= MAX_WRITEV_IOVECS then sizes else sizes[..MAX_WRITEV_IOVECS]
  }

  /** How much one flush offers the socket.  A budget of 0 or less is no budget. */
  function Offer(sizes: seq<nat>, plan: int): nat {
    if 0 < plan < Sum(First(sizes)) then plan else Sum(First(sizes))
  }

  /**
   The flushes of one drain that moved something: each within what it offers, and another
   one only while the budget is not used up.
   */
  ghost predicate IsDrain(sizes: seq<nat>, plan: int, ns: seq<nat>) {
    forall i :: 0 <= i < |ns| ==>
      0 < ns[i] <= Offer(Left(sizes, Sum(ns[..i])), plan) && (plan > 0 ==> Sum(ns[..i]) < plan)
  }

  ghost predicate CanMove(sizes: seq<nat>, plan: int, total: nat) {
    exists ns :: IsDrain(sizes, plan, ns) && Sum(ns) == total
  }

  /** How far a flush gets that begins behind the first `n` bytes, if there is no budget. */
  function Window(sizes: seq<nat>, n: nat): nat {
    n + Sum(First(Left(sizes, n)))
  }

  // ----------------------------------------------------------------- sums and entries

  lemma SumSnoc(ns: seq<nat>, n: nat)
    ensures Sum(ns + [n]) == Sum(ns) + n
  {
    assert (ns + [n])[..|ns|] == ns;
  }

  lemma {:induction false} SumAppend(a: seq<nat>, b: seq<nat>)
    ensures Sum(a + b) == Sum(a) + Sum(b)
    decreases |b|
  {
    if b == [] {
      assert a + b == a;
    } else {
      var m := |b| - 1;
      assert (a + b)[..|a| + m] == a + b[..m];
      SumAppend(a, b[..m]);
    }
  }

  lemma SumFirst(ns: seq<nat>)
    requires ns != []
    ensures Sum(ns) == ns[0] + Sum(ns[1..])
  {
    assert ns == [ns[0]] + ns[1..] && [ns[0]][..0] == [];
    SumAppend([ns[0]], ns[1..]);
  }

  lemma SumPrefix(ns: seq<nat>, k: nat)
    requires k <= |ns|
    ensures Sum(ns[..k]) <= Sum(ns)
    ensures Positive(ns) && k < |ns| ==> Sum(ns[..k]) < Sum(ns)
  {
    assert ns == ns[..k] + ns[k..];
    SumAppend(ns[..k], ns[k..]);
    if k < |ns| {
      SumFirst(ns[k..]);
    }
  }

  /** Everything fits one writev exactly if the entries do. */
  lemma AllOfFirst(sizes: seq<nat>)
    requires Positive(sizes)
    ensures Sum(First(sizes)) <= Sum(sizes)
    ensures Sum(First(sizes)) == Sum(sizes) <==> |sizes| <= MAX_WRITEV_IOVECS
  {
    if |sizes| > MAX_WRITEV_IOVECS {
      SumPrefix(sizes, MAX_WRITEV_IOVECS);
    }
  }

  lemma LeftNothing(sizes: seq<nat>)
    ensures Left(sizes, 0) == sizes
    ensures forall n: nat :: Left([], n) == []
  {
  }

  lemma LeftBehindFirst(sizes: seq<nat>, first: nat, n: nat)
    requires first > 0
    ensures n >= first ==> Left([first] + sizes, n) == Left(sizes, n - first)
    ensures n < first ==> Left([first] + sizes, n) == [first - n] + sizes
  {
    assert ([first] + sizes)[1..] == sizes;
  }

  lemma {:induction false} LeftSum(sizes: seq<nat>, n: nat)
    requires Positive(sizes) && n <= Sum(sizes)
    ensures Sum(Left(sizes, n)) == Sum(sizes) - n && Positive(Left(sizes, n))
    decreases |sizes|
  {
    if sizes != [] && n > 0 {
      SumFirst(sizes);
      if n < sizes[0] {
        var less := [sizes[0] - n] + sizes[1..];
        assert less[1..] == sizes[1..];
        SumFirst(less);
      } else {
        LeftSum(sizes[1..], n - sizes[0]);
      }
    }
  }

  lemma {:induction false} LeftTwice(sizes: seq<nat>, m: nat, n: nat)
    requires Positive(sizes) && m <= Sum(sizes)
    ensures Left(Left(sizes, m), n) == Left(sizes, m + n)
    decreases |sizes|
  {
    if sizes != [] && m > 0 {
      SumFirst(sizes);
      if m < sizes[0] {
        var less := [sizes[0] - m] + sizes[1..];
        assert less[1..] == sizes[1..];
      } else {
        LeftTwice(sizes[1..], m - sizes[0], n);
      }
    }
  }

  /** A later flush gets at least as far. */
  lemma {:induction false} WindowGrows(sizes: seq<nat>, m: nat, n: nat)
    requires Positive(sizes) && m <= n <= Sum(sizes)
    ensures Window(sizes, m) <= Window(sizes, n)
    decreases n
  {
    hide Window, Sum, Positive;
    if m < n {
      WindowGrows(sizes, m, n - 1);
      WindowStep(sizes, n - 1);
    }
  }

  lemma WindowStep(sizes: seq<nat>, n: nat)
    requires Positive(sizes) && n < Sum(sizes)
    ensures Window(sizes, n) <= Window(sizes, n + 1)
  {
    hide Left, Sum, First, Positive;
    LeftSum(sizes, n);
    LeftTwice(sizes, n, 1);
    OneByteLess(Left(sizes, n));
  }

  lemma OneByteLess(sizes: seq<nat>)
    requires Positive(sizes) && Sum(sizes) > 0
    ensures Sum(First(sizes)) <= 1 + Sum(First(Left(sizes, 1)))
  {
    var first, less := First(sizes), Left(sizes, 1);
    SumFirst(first);
    if sizes[0] == 1 {
      assert Left(sizes[1..], 0) == sizes[1..] == less;
      assert first[1..] == First(less)[..|first| - 1];
      SumPrefix(First(less), |first| - 1);
    } else {
      assert First(less) == [sizes[0] - 1] + first[1..];
      assert First(less)[1..] == first[1..];
      SumFirst(First(less));
    }
  }

  lemma WindowFits(sizes: seq<nat>, n: nat)
    requires Positive(sizes) && n <= Sum(sizes)
    ensures Window(sizes, n) <= Sum(sizes)
    ensures Window(sizes, n) == Sum(sizes) <==> |Left(sizes, n)| <= MAX_WRITEV_IOVECS
    ensures n < Sum(sizes) ==> Window(sizes, n) > n
  {
    LeftSum(sizes, n);
    var left := Left(sizes, n);
    hide Left;
    AllOfFirst(left);
    if n < Sum(sizes) {
      SumFirst(First(left));
    }
  }

  // ---------------------------------------------------------------- all possible totals

  lemma NoFlush(sizes: seq<nat>, plan: int)
    ensures IsDrain(sizes, plan, []) && Sum([]) == 0
  {
  }

  /** One more flush. */
  lemma DrainGoesOn(sizes: seq<nat>, plan: int, ns: seq<nat>, n: nat)
    requires IsDrain(sizes, plan, ns) && 0 < n <= Offer(Left(sizes, Sum(ns)), plan) && (plan > 0 ==> Sum(ns) < plan)
    ensures IsDrain(sizes, plan, ns + [n]) && Sum(ns + [n]) == Sum(ns) + n
  {
    SumSnoc(ns, n);
    hide Sum, Offer, Left;
    var more := ns + [n];
    forall i | 0 <= i < |more|
      ensures 0 < more[i] <= Offer(Left(sizes, Sum(more[..i])), plan) && (plan > 0 ==> Sum(more[..i]) < plan)
    {
      assert more[..i] == ns[..i];
      assert i == |ns| ==> ns[..i] == ns;
    }
  }

  lemma {:induction false} DrainFits(sizes: seq<nat>, plan: int, ns: seq<nat>)
    requires Positive(sizes) && IsDrain(sizes, plan, ns)
    ensures Sum(ns) <= Sum(sizes)
  {
    if ns != [] {
      var m := |ns| - 1;
      DrainPrefix(sizes, plan, ns, m);
      DrainFits(sizes, plan, ns[..m]);
      WindowFits(sizes, Sum(ns[..m]));
      hide Left, First;
    }
  }

  lemma DrainPrefix(sizes: seq<nat>, plan: int, ns: seq<nat>, m: nat)
    requires IsDrain(sizes, plan, ns) && m <= |ns|
    ensures IsDrain(sizes, plan, ns[..m])
  {
    hide Sum, Offer, Left;
    forall i | 0 <= i < m
      ensures ns[..m][..i] == ns[..i]
    {
    }
  }

  lemma DrainIsBounded(sizes: seq<nat>, plan: int, ns: seq<nat>)
    requires Positive(sizes) && IsDrain(sizes, plan, ns)
    ensures Sum(ns) <= Sum(sizes)
    ensures plan > 0 ==> Sum(ns) < 2 * plan && Sum(ns) <= Window(sizes, Min(plan - 1, Sum(ns)))
  {
    DrainFits(sizes, plan, ns);
    if ns != [] && plan > 0 {
      var m := |ns| - 1;
      assert ns[m] > 0;
      SumSnoc(ns[..m], ns[m]);
      assert ns[..m] + [ns[m]] == ns;
      WindowGrows(sizes, Sum(ns[..m]), Min(plan - 1, Sum(ns)));
      hide Left, First;
    }
  }

  function Ones(k: nat): seq<nat> {
    seq(k, _ => 1)
  }

  /** A socket that takes one byte at a time. */
  lemma {:induction false} ByteByByte(sizes: seq<nat>, plan: int, k: nat)
    requires Positive(sizes) && k <= Sum(sizes) && (plan > 0 ==> k <= plan)
    ensures IsDrain(sizes, plan, Ones(k)) && Sum(Ones(k)) == k
  {
    if k == 0 {
      NoFlush(sizes, plan);
    } else {
      ByteByByte(sizes, plan, k - 1);
      WindowFits(sizes, k - 1);
      assert Ones(k - 1) + [1] == Ones(k);
      DrainGoesOn(sizes, plan, Ones(k - 1), 1);
      hide Left, First, IsDrain;
    }
  }

  lemma SomeDrain(sizes: seq<nat>, plan: int, total: nat) returns (ns: seq<nat>)
    requires Positive(sizes) && total <= Sum(sizes)
    requires plan > 0 ==> total < 2 * plan && total <= Window(sizes, Min(plan - 1, total))
    ensures IsDrain(sizes, plan, ns) && Sum(ns) == total
  {
    hide IsDrain, Sum, Left, First, Positive;
    var k := if plan > 0 then Min(plan - 1, total) else total;
    ns := Ones(k);
    ByteByByte(sizes, plan, k);
    if k < total {
      DrainGoesOn(sizes, plan, ns, total - k);
      ns := ns + [total - k];
    }
  }

  /**
   The totals of all possible drains: what is pending, less than twice the budget, and no
   further than the entries of a last writev reach that begins within the budget.
   */
  lemma TotalsExactly(sizes: seq<nat>, plan: int, total: nat)
    requires Positive(sizes)
    ensures CanMove(sizes, plan, total) <==>
            total <= Sum(sizes) && (plan > 0 ==> total < 2 * plan && total <= Window(sizes, Min(plan - 1, total)))
  {
    hide Window;
    if CanMove(sizes, plan, total) {
      var ns :| IsDrain(sizes, plan, ns) && Sum(ns) == total;
      DrainIsBounded(sizes, plan, ns);
    }
    if total <= Sum(sizes) && (plan > 0 ==> total < 2 * plan && total <= Window(sizes, Min(plan - 1, total))) {
      var ns := SomeDrain(sizes, plan, total);
    }
  }

  /**
   One drain can empty the queue: less than twice the budget is pending, and no more than 64
   entries are left behind what a first stretch within the budget can take.
   */
  predicate Empties(sizes: seq<nat>, plan: int) {
    plan <= 0 || (Sum(sizes) < 2 * plan && |Left(sizes, Min(plan - 1, Sum(sizes)))| <= MAX_WRITEV_IOVECS)
  }

  lemma EmptiesExactly(sizes: seq<nat>, plan: int)
    requires Positive(sizes)
    ensures CanMove(sizes, plan, Sum(sizes)) <==> Empties(sizes, plan)
  {
    TotalsExactly(sizes, plan, Sum(sizes));
    hide CanMove, Window, Sum, Left;
    if plan > 0 {
      WindowFits(sizes, Min(plan - 1, Sum(sizes)));
    }
  }

  /** A drain keeps to its budget whatever the socket accepts exactly if so little is pending, or the budget is one byte. */
  lemma KeepsToBudgetExactly(sizes: seq<nat>, plan: int)
    requires Positive(sizes) && plan > 0
    ensures (forall total: nat :: CanMove(sizes, plan, total) ==> total <= plan) <==> Sum(sizes) <= plan || plan == 1
  {
    hide Sum, Window, CanMove;
    if Sum(sizes) <= plan || plan == 1 {
      forall total: nat | CanMove(sizes, plan, total)
        ensures total <= plan
      {
        TotalsExactly(sizes, plan, total);
      }
    } else {
      TotalsExactly(sizes, plan, plan + 1);
      TwoMore(sizes, plan - 1);
      assert CanMove(sizes, plan, plan + 1);
    }
  }

  lemma TwoMore(sizes: seq<nat>, n: nat)
    requires Positive(sizes) && n + 2 <= Sum(sizes)
    ensures Window(sizes, n) >= n + 2
  {
    LeftSum(sizes, n);
    var left := Left(sizes, n);
    hide Left;
    SumFirst(left);
    SumFirst(First(left));
    if left[0] == 1 {
      SumFirst(First(left)[1..]);
    }
  }

  /** Three bytes pending, a budget of two, and a socket that first takes one byte and then two. */
  lemma MovesMoreThanItsBudget()
    ensures IsDrain([3], 2, [1, 2]) && Sum([1, 2]) > 2
  {
    NoFlush([3], 2);
    assert Left([3], 1) == [2];
    SumSnoc([], 3);
    SumSnoc([], 2);
    assert [] + [3] == [3] && [] + [2] == [2] && [] + [1] == [1] && [1] + [2] == [1, 2];
    DrainGoesOn([3], 2, [], 1);
    DrainGoesOn([3], 2, [1], 2);
  }

  lemma {:induction false} LeftOfOnes(k: nat, n: nat)
    requires n <= k
    ensures Left(Ones(k), n) == Ones(k - n)
  {
    if n > 0 {
      assert Ones(k)[1..] == Ones(k - 1);
      LeftOfOnes(k - 1, n - 1);
    }
  }

  lemma {:induction false} SumOfOnes(k: nat)
    ensures Sum(Ones(k)) == k
  {
    if k > 0 {
      assert Ones(k)[..k - 1] == Ones(k - 1);
      SumOfOnes(k - 1);
    }
  }

  /** 199 entries of one byte and a budget of 100: one drain cannot take more than 163 bytes. */
  lemma SlicesLimitIt()
    ensures Sum(Ones(199)) < 2 * 100 && forall total: nat :: CanMove(Ones(199), 100, total) ==> total <= 163
  {
    SumOfOnes(199);
    SumOfOnes(64);
    LeftOfOnes(199, 99);
    assert First(Ones(100)) == Ones(64);
    forall total: nat | CanMove(Ones(199), 100, total)
      ensures total <= 163
    {
      TotalsExactly(Ones(199), 100, total);
      hide CanMove, Sum, Left, First;
    }
  }
}
