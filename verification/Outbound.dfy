/**
 The outbound path of a plain connection: direct writes, the write queue and the
 vectored flush.  A system call may accept any prefix or fail.
 */
module Outbound {
  import opened Bytes
  import opened Pool
  import opened WriteQueue
  import opened Drain

  /** The amounts of a socket that only takes. */
  function Amounts(script: seq<Answer>): seq<nat> {
    seq(|script|, i requires 0 <= i < |script| => if script[i].Takes? then script[i].n else 0)
  }

  /** The kernel side of a socket: what it has in store, and the bytes it has accepted, in order. */
  class Socket {
    var script: seq<Answer>   // afterwards writes return EAGAIN
    ghost var wire: seq<byte>

    constructor (script: seq<Answer>)
      ensures this.script == script && wire == []
    {
      this.script := script;
      wire := [];
    }

    /** write(2) */
    method Write(b: seq<byte>) returns (n: int, err: Errno)
      modifies this
      ensures err == NoError ==> 0 <= n <= |b| && wire == old(wire) + b[..n]
      ensures err != NoError ==> n == -1 && wire == old(wire)
      ensures Answers(old(script), script, |b|, n, err)
    {
      n, err := -1, EAGAIN;
      if script == [] {
        return;
      }
      var first := script[0];
      script := script[1..];
      match first {
        case Blocks =>
        case Fails => err := OtherError;
        case Takes(k) =>
          n, err := Min(k, |b|), NoError;
          wire := wire + b[..n];
      }
    }

    /** writev(2) */
    method Writev(iovecs: seq<seq<byte>>) returns (n: int, err: Errno)
      modifies this
      ensures err == NoError ==> 0 <= n <= |Flatten(iovecs)| && wire == old(wire) + Flatten(iovecs)[..n]
      ensures err != NoError ==> n == -1 && wire == old(wire)
      ensures Answers(old(script), script, |Flatten(iovecs)|, n, err)
    {
      n, err := Write(Flatten(iovecs));
    }
  }

  /** What a write of `size` bytes returns, and what is in store afterwards. */
  ghost predicate Answers(script: seq<Answer>, script': seq<Answer>, size: nat, n: int, err: Errno) {
    if script == [] then script' == [] && err == EAGAIN
    else
      && script' == script[1..]
      && match script[0]
         case Takes(k) => err == NoError && n == Min(k, size)
         case Blocks => err == EAGAIN
         case Fails => err == OtherError
  }

  /** The socket has come to an answer that takes nothing, or to the end of its answers. */
  ghost predicate Stopped(script: seq<Answer>, left: seq<Answer>) {
    left == [] || (|left| < |script| && var last := script[|script| - |left| - 1]; !(last.Takes? && last.n > 0))
  }

  /** What is left of the answers. */
  ghost predicate IsTail(script: seq<Answer>, left: seq<Answer>) {
    |left| <= |script| && left == script[|script| - |left|..]
  }

  lemma TailOfTail(a: seq<Answer>, b: seq<Answer>, c: seq<Answer>)
    requires IsTail(a, b) && IsTail(b, c)
    ensures IsTail(a, c) && (Stopped(b, c) ==> Stopped(a, c))
  {
  }

  /** After one write of something. */
  lemma OneWrite(script: seq<Answer>, left: seq<Answer>, size: nat, n: int, err: Errno)
    requires Answers(script, left, size, n, err) && size > 0 && (err != NoError ==> n <= 0)
    ensures IsTail(script, left) && (n <= 0 ==> Stopped(script, left))
  {
  }

  /**
   The vector of slices for one writev: as much of the front of the queue as the byte
   limit and the number of slices allow.
   */
  method Gather(q: WriteQueue, maxBytes: int) returns (iovecs: seq<seq<byte>>)
    requires q.Valid()
    ensures q.Valid() && Flatten(iovecs) <= q.Contents()
    ensures |iovecs| <= MAX_WRITEV_IOVECS
    ensures forall i :: 0 <= i < |iovecs| ==> iovecs[i] != []
    ensures maxBytes > 0 ==> |Flatten(iovecs)| <= maxBytes
    ensures |iovecs| < MAX_WRITEV_IOVECS && (maxBytes <= 0 || |Flatten(iovecs)| < maxBytes) ==> Flatten(iovecs) == q.Contents()
    ensures q.Contents() != [] ==> iovecs != []
    ensures |Flatten(iovecs)| == Offer(q.Sizes(), maxBytes)
  {
    hide Flatten, Offer;
    q.FlattenSkipsConsumed();
    iovecs := [];
    FlattenNothing(iovecs);
    var remaining := maxBytes;
    var i := q.head;
    ghost var cut := false;   // the last slice was shortened
    FlattenNothing(q.chunks[q.head..i]);
    while i < |q.items| && |iovecs| < MAX_WRITEV_IOVECS
      invariant q.head <= i <= |q.items|
      invariant |iovecs| == i - q.head <= MAX_WRITEV_IOVECS
      invariant i > q.head ==> iovecs != []
      invariant forall j :: 0 <= j < |iovecs| ==> iovecs[j] != []
      invariant maxBytes > 0 ==> remaining == maxBytes - |Flatten(iovecs)| && remaining >= 0
      invariant if cut then maxBytes > 0 && remaining == 0 else Flatten(iovecs) == Flatten(q.chunks[q.head..i])
      invariant Flatten(iovecs) <= Flatten(q.chunks[q.head..i])
    {
      var item := q.items[i];
      var b := item.owner[item.off..item.size];
      if maxBytes > 0 {
        if remaining <= 0 {
          break;
        }
        if |b| > remaining {
          b := b[..remaining];
        }
        remaining := remaining - |b|;
      }
      assert q.chunks[q.head..i + 1] == q.chunks[q.head..i] + [q.chunks[i]];
      FlattenSnoc(q.chunks[q.head..i], q.chunks[i]);
      FlattenSnoc(iovecs, b);
      cut := |b| < |q.chunks[i]|;
      iovecs := iovecs + [b];
      i := i + 1;
    }
    assert q.chunks[q.head..] == q.chunks[q.head..i] + q.chunks[i..];
    FlattenAppend(q.chunks[q.head..i], q.chunks[i..]);
    if i == |q.items| {
      FlattenNothing(q.chunks[i..]);
    }
    Offered(q.chunks[q.head..], i - q.head, maxBytes);
    assert q.chunks[q.head..][..i - q.head] == q.chunks[q.head..i];
  }

  /** The first chunks, whole or cut at the byte limit. */
  lemma Offered(chunks: seq<seq<byte>>, k: nat, maxBytes: int)
    requires k <= |chunks| && k <= MAX_WRITEV_IOVECS
    ensures (k == MAX_WRITEV_IOVECS || k == |chunks|) && (maxBytes > 0 ==> |Flatten(chunks[..k])| <= maxBytes) ==>
              |Flatten(chunks[..k])| == Offer(SizesOf(chunks), maxBytes)
    ensures 0 < maxBytes <= |Flatten(chunks[..k])| ==> Offer(SizesOf(chunks), maxBytes) == maxBytes
  {
    hide Flatten, Sum;
    var first := First(SizesOf(chunks));
    FlattenSize(chunks[..k]);
    assert SizesOf(chunks[..k]) == first[..k];
    assert k == |first| ==> first[..k] == first;
    SumPrefix(first, k);
  }

  /** Sends the front of the queue with one writev and drops what the kernel took. */
  method FlushWriteQueue(fd: int, q: WriteQueue, maxBytes: int, sock: Socket) returns (n: int, err: Errno)
    requires q.Valid()
    modifies q, q.pool`puts, sock
    ensures q.Valid() && q.owned <= old(q.owned) && q.Accounted() == old(q.Accounted())
    ensures sock.wire + q.Contents() == old(sock.wire + q.Contents())
    ensures |sock.wire| == |old(sock.wire)| + (if n > 0 then n else 0)
    ensures maxBytes > 0 ==> n <= maxBytes
    ensures fd == 0 ==> n == 0 && err == EBADF
    ensures n > 0 ==> err == NoError
    ensures err == EAGAIN ==> n == 0
    ensures n <= Offer(old(q.Sizes()), maxBytes) && q.Sizes() == Left(old(q.Sizes()), if n > 0 then n else 0)
    ensures if fd == 0 || old(q.Contents()) == [] then n <= 0 && sock.script == old(sock.script)
            else Answers(old(sock.script), sock.script, Offer(old(q.Sizes()), maxBytes), n, err)
  {
    hide Flatten, Account, WriteQueue.Valid, WriteQueue.Contents, WriteQueue.Sizes, Offer, Left;
    LeftNothing(q.Sizes());
    if fd == 0 {
      return 0, EBADF;
    }
    if q.Pending() == 0 {
      return 0, NoError;
    }
    var iovecs := Gather(q, maxBytes);
    if |iovecs| == 0 {
      return 0, NoError;
    }
    n, err := sock.Writev(iovecs);
    if err == EAGAIN && n < 0 {
      n := 0;
    }
    if n <= 0 {
      return;
    }
    q.Consume(n);
  }

  // ---------------------------------------------------------- a socket that goes along

  /** The socket takes just the amounts of some drain. */
  ghost predicate TakesAll(script: seq<Answer>, sizes: seq<nat>, plan: int) {
    (forall i :: 0 <= i < |script| ==> script[i].Takes?) && IsDrain(sizes, plan, Amounts(script))
  }

  /** Flushes so far, and what the socket still has in store. */
  ghost predicate IsPart(script: seq<Answer>, left: seq<Answer>, ns: seq<nat>) {
    |ns| <= |script| && left == script[|ns|..] && ns == Amounts(script)[..|ns|]
  }

  /** Where more is to be taken, more is offered. */
  lemma MoreIsOffered(script: seq<Answer>, sizes: seq<nat>, plan: int, k: nat)
    requires TakesAll(script, sizes, plan) && k < |script|
    ensures var before := Sum(Amounts(script)[..k]);
            script[k].Takes? && 0 < script[k].n <= Offer(Left(sizes, before), plan) && (plan > 0 ==> before < plan)
  {
    hide Sum, Left, Offer;
    assert Amounts(script)[k] == script[k].n;
  }

  lemma TakesNothing(script: seq<Answer>, sizes: seq<nat>, plan: int)
    requires TakesAll(script, sizes, plan) && Sum(sizes) == 0 && Positive(sizes)
    ensures Amounts(script) == []
  {
    if script != [] {
      MoreIsOffered(script, sizes, plan, 0);
      AllOfFirst(sizes);
    }
  }

  /** One more flush takes the next amount, or there is none. */
  lemma TakesNext(script: seq<Answer>, left: seq<Answer>, left': seq<Answer>, sizes: seq<nat>, plan: int, ns: seq<nat>, n: int, err: Errno)
    requires TakesAll(script, sizes, plan) && IsPart(script, left, ns) && (n > 0 ==> err == NoError) && (err == EAGAIN ==> n <= 0)
    requires Positive(sizes) && Sum(ns) <= Sum(sizes)
    requires if Sum(ns) == Sum(sizes) then n <= 0 && left' == left else Answers(left, left', Offer(Left(sizes, Sum(ns)), plan), n, err)
    ensures if n > 0 then IsPart(script, left', ns + [n]) && (plan > 0 && Sum(ns) + n >= plan ==> ns + [n] == Amounts(script))
            else ns == Amounts(script)
  {
    hide Sum, Left, Offer, TakesAll;
    var k, ms := |ns|, Amounts(script);
    if k < |script| {
      MoreIsOffered(script, sizes, plan, k);
      LeftSum(sizes, Sum(ns));
      if Sum(ns) == Sum(sizes) {
        NothingOffered(Left(sizes, Sum(ns)), plan);
      }
      assert ms[..k + 1] == ms[..k] + [ms[k]] && ms[k] == script[k].n;
      assert script[k..][1..] == script[k + 1..];
      SumSnoc(ns, script[k].n);
      if k + 1 < |script| {
        MoreIsOffered(script, sizes, plan, k + 1);
      }
      assert ms[..|ms|] == ms;
    } else {
      assert ms[..k] == ms;
    }
  }

  lemma NothingOffered(sizes: seq<nat>, plan: int)
    requires Positive(sizes) && Sum(sizes) == 0
    ensures Offer(sizes, plan) == 0
  {
    AllOfFirst(sizes);
  }

  /** What happens to the outbound side of a connection. */
  datatype Step = Output(data: seq<byte>) | Command(data: seq<byte>) | Flush(maxBytes: int)

  function Data(step: Step): seq<byte> {
    if step.Flush? then [] else step.data
  }

  /** Everything a list of steps submits, in order. */
  function Submitted(steps: seq<Step>): seq<byte> {
    if steps == [] then [] else
      Submitted(steps[..|steps| - 1]) + Data(steps[|steps| - 1])
  }

  lemma SubmittedNext(steps: seq<Step>, i: nat)
    requires i < |steps|
    ensures Submitted(steps[..i + 1]) == Submitted(steps[..i]) + Data(steps[i])
  {
    assert steps[..i + 1][..i] == steps[..i];
  }

  lemma SubmittedNothing(steps: seq<Step>)
    ensures Submitted(steps[..0]) == []
  {
  }

  /** A prefix written directly and the rest queued behind nothing, or everything queued. */
  lemma Rejoin(wire: seq<byte>, queue: seq<byte>, out: seq<byte>, n: nat)
    requires n <= |out| && (queue == [] || n == 0)
    ensures (wire + out[..n]) + (queue + out[n..]) == (wire + queue) + out
    ensures wire + queue <= (wire + out[..n]) + queue <= (wire + queue) + out
    ensures n == |out| ==> (wire + out[..n]) + queue == (wire + queue) + out
    ensures n == 0 ==> wire + out[..n] == wire
  {
  }

  /** With nothing queued, what the socket takes is written directly. */
  ghost predicate WritesAtOnce(queue: seq<byte>, fd: int, script: seq<Answer>, wire: seq<byte>, wire': seq<byte>, out: seq<byte>) {
    fd != 0 && queue == [] && out != [] && script != [] && script[0].Takes? ==> wire' == wire + out[..Min(script[0].n, |out|)]
  }

  ghost predicate FailsFirst(script: seq<Answer>) {
    script != [] && script[0].Fails?
  }

  /** A plain connection: socket, descriptor (0 once closed), and pending output. */
  class PlainConn {
    var fd: int
    const sock: Socket
    const wq: WriteQueue
    const pool: BufferPool

    constructor (fd: int, sock: Socket, pool: BufferPool, coalesceMax: int, compactMax: int)
      requires pool.Valid()
      ensures Valid() && fresh(wq) && this.fd == fd && this.sock == sock && this.pool == pool
      ensures wq.Contents() == [] && wq.owned == {}
    {
      this.fd, this.sock, this.pool := fd, sock, pool;
      wq := new WriteQueue(pool, coalesceMax, compactMax);
    }

    ghost predicate Valid()
      reads this, wq, wq.owned
    {
      pool.Valid() && wq.pool == pool && wq.Valid()
    }

    /** Everything handed to the connection so far, in order: what the socket took, then what waits. */
    ghost function Stream(): seq<byte>
      reads this, wq, sock
    {
      sock.wire + wq.Contents()
    }

    method FlushN(maxBytes: int) returns (n: int, err: Errno)
      requires Valid()
      modifies wq, pool`puts, sock
      ensures Valid() && wq.owned <= old(wq.owned) && wq.Accounted() == old(wq.Accounted())
      ensures Stream() == old(Stream())
      ensures |sock.wire| == |old(sock.wire)| + (if n > 0 then n else 0)
      ensures maxBytes > 0 ==> n <= maxBytes
      ensures n > 0 ==> err == NoError
      ensures n <= Offer(old(wq.Sizes()), maxBytes) && wq.Sizes() == Left(old(wq.Sizes()), if n > 0 then n else 0)
      ensures if fd == 0 || old(wq.Contents()) == [] then n <= 0 && sock.script == old(sock.script)
              else Answers(old(sock.script), sock.script, Offer(old(wq.Sizes()), maxBytes), n, err)
    {
      n, err := FlushWriteQueue(fd, wq, maxBytes, sock);
    }

    /**
     drainWrite: flushes until the kernel takes no more, an error, or the budget `plan` is
     reached.  Every call gets the whole budget, so nearly twice the budget may go out.  Its
     flushes are a drain of the entries, and every drain happens: namely if the socket takes
     just these amounts.
     */
    method DrainWrite(plan: int) returns (total: int, err: Errno, ghost ns: seq<nat>)
      requires Valid()
      modifies wq, pool`puts, sock
      ensures Valid() && wq.owned <= old(wq.owned) && wq.Accounted() == old(wq.Accounted())
      ensures Stream() == old(Stream())
      ensures |sock.wire| == |old(sock.wire)| + total
      ensures IsDrain(old(wq.Sizes()), plan, ns) && total == Sum(ns) && (plan > 0 ==> total < 2 * plan)
      ensures wq.Sizes() == Left(old(wq.Sizes()), Sum(ns))
      ensures fd != 0 && TakesAll(old(sock.script), old(wq.Sizes()), plan) ==> ns == Amounts(old(sock.script))
    {
      hide WriteQueue.Valid, WriteQueue.Contents, WriteQueue.Sizes, Account, IsDrain, Sum, Left, Offer, Answers, TakesAll, Amounts;
      total, ns := 0, [];
      ghost var sizes, script := wq.Sizes(), sock.script;
      ghost var wanted := fd != 0 && TakesAll(script, sizes, plan);
      wq.SizesAddUp();
      NoFlush(sizes, plan);
      LeftNothing(sizes);
      assert script[0..] == script && Amounts(script)[..0] == [];
      if wq.Pending() == 0 {
        if wanted {
          TakesNothing(script, sizes, plan);
        }
        return 0, NoError, ns;
      }
      while true
        invariant Valid() && wq.owned <= old(wq.owned) && wq.Accounted() == old(wq.Accounted())
        invariant Stream() == old(Stream())
        invariant |sock.wire| == |old(sock.wire)| + total
        invariant IsDrain(sizes, plan, ns) && total == Sum(ns) && (plan > 0 ==> total < plan) && wq.Sizes() == Left(sizes, total)
        invariant wanted ==> IsPart(script, sock.script, ns)
        decreases |wq.Contents()|
      {
        ghost var left := sock.script;
        wq.SizesAddUp();
        LeftNothing(wq.Sizes());
        var n;
        n, err := FlushN(plan);
        if wanted {
          TakesNext(script, left, sock.script, sizes, plan, ns, n, err);
        }
        if err != NoError {
          return;
        }
        if n > 0 {
          DrainGoesOn(sizes, plan, ns, n);
          LeftTwice(sizes, total, n);
          ns := ns + [n];
          total := total + n;
        }
        if n <= 0 || (total >= plan && plan > 0) {
          return;
        }
      }
    }

    /** conn.Write: EBADF when closed. */
    method Write(b: seq<byte>) returns (n: int, err: Errno)
      modifies sock
      ensures err == NoError ==> 0 <= n <= |b| && sock.wire == old(sock.wire) + b[..n]
      ensures err != NoError ==> n <= 0 && sock.wire == old(sock.wire)
      ensures fd == 0 ==> err == EBADF
      ensures fd != 0 ==> Answers(old(sock.script), sock.script, |b|, n, err)
    {
      if fd == 0 {
        return 0, EBADF;
      }
      n, err := sock.Write(b);
    }

    /** Queues a copy of `rest` in a pool buffer. */
    method EnqueueCopy(rest: seq<byte>) returns (err: Errno)
      requires Valid()
      modifies wq, pool`puts, wq.owned
      ensures Valid() && fresh(wq.owned - old(wq.owned))
      ensures err == NoError ==> wq.Contents() == old(wq.Contents()) + rest
      ensures err != NoError ==> err == ENOMEM && |rest| > pool.max && wq.Contents() == old(wq.Contents())
    {
      hide WriteQueue.Valid, WriteQueue.Contents, Account;
      var owner := pool.Get(|rest|);
      if owner == null {
        return ENOMEM;
      }
      forall i | 0 <= i < |rest| {
        owner[i] := rest[i];
      }
      assert owner[..|rest|] == rest;
      wq.Enqueue(owner, |rest|);
      err := NoError;
    }

    /**
     emitOutput: writes directly when nothing is queued, and queues what is left over.
     Either all of `out` joins the stream, behind everything before it, or an error is
     reported and at most a prefix was written.
     */
    method EmitOutput(out: seq<byte>) returns (err: Errno)
      requires Valid()
      modifies wq, pool`puts, sock, wq.owned
      ensures Valid() && fresh(wq.owned - old(wq.owned))
      ensures err == NoError ==> Stream() == old(Stream()) + out
      ensures err != NoError ==> wq.Contents() == old(wq.Contents())
      ensures err != NoError ==> old(Stream()) <= Stream() <= old(Stream()) + out
      ensures WritesAtOnce(old(wq.Contents()), fd, old(sock.script), old(sock.wire), sock.wire, out)
      ensures fd != 0 && |out| <= pool.max && !FailsFirst(old(sock.script)) ==> err == NoError
    {
      hide WriteQueue.Valid, WriteQueue.Contents, Account;
      ghost var wire, queue := sock.wire, wq.Contents();
      var n := 0;
      Rejoin(wire, queue, out, n);
      if |out| == 0 {
        return NoError;
      }
      if wq.Pending() == 0 {
        n, err := Write(out);
        Rejoin(wire, queue, out, if n < 0 then 0 else n);
        if n == |out| {
          return NoError;
        }
        if err != NoError && err != EAGAIN {
          return;
        }
        if n < 0 {
          n := 0;
        }
      }
      err := EnqueueCopy(out[n..]);
    }

    /** One step; if it fails, part of its data may already have gone out. */
    method Act(step: Step) returns (err: Errno)
      requires Valid()
      modifies wq, wq.owned, sock, pool`puts
      ensures Valid() && fresh(wq.owned - old(wq.owned))
      ensures err == NoError ==> Stream() == old(Stream()) + Data(step)
      ensures err != NoError ==> old(Stream()) <= Stream() <= old(Stream()) + Data(step)
    {
      hide WriteQueue.Valid, WriteQueue.Contents, Account;
      match step {
        case Output(data) =>
          err := EmitOutput(data);
        case Command(data) =>
          err := EnqueueCopy(data);
        case Flush(maxBytes) =>
          var n;
          ghost var ns;
          n, err, ns := DrainWrite(maxBytes);
          if err == EAGAIN {
            err := NoError;
          }
          assert Stream() == old(Stream()) + [];
      }
    }

    /**
     Every run of the outbound side, with output, data commands and drains in any order and
     any partial writes: what the socket took followed by the queue is everything submitted,
     in order.  At a step that fails, part of its data may already have gone out.
     */
    method Run(steps: seq<Step>) returns (done: nat, err: Errno)
      requires Valid() && Stream() == []
      modifies wq, wq.owned, sock, pool`puts
      ensures Valid()
      ensures if err == NoError then done == |steps| else done < |steps|
      ensures err == NoError ==> sock.wire + wq.Contents() == Submitted(steps)
      ensures err != NoError ==> Submitted(steps[..done]) <= sock.wire + wq.Contents() <= Submitted(steps[..done + 1])
    {
      hide WriteQueue.Valid, WriteQueue.Contents, Account, Submitted;
      err := NoError;
      SubmittedNothing(steps);
      for i := 0 to |steps|
        invariant Valid() && err == NoError
        invariant fresh(wq.owned - old(wq.owned))
        invariant Stream() == Submitted(steps[..i])
      {
        SubmittedNext(steps, i);
        err := Act(steps[i]);
        if err != NoError {
          done := i;
          return;
        }
      }
      done := |steps|;
      assert steps[..done] == steps;
    }
  }
}
