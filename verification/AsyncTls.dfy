/**
 The userspace TLS connection: plaintext waits in the write queue, is sealed into
 records by the TLS engine, and the records wait in a ring buffer for the socket.

 The engine is represented by the record encoder `seal`: record number and plaintext
 to ciphertext.  It may cut plaintext into records as it likes, and it fails for good
 once a record could not be staged.
 */
module AsyncTls {
  import opened Bytes
  import opened Pool
  import opened WriteQueue
  import opened RingBuffer
  import opened Outbound
  import opened Drain

  const TLS_WRITE_CHUNK_SIZE := 16 * 1024

  type Seal = (nat, seq<byte>) -> seq<byte>

  /** The ciphertext of a list of records, numbered from `first`. */
  function Encode(seal: Seal, first: nat, records: seq<seq<byte>>): seq<byte>
    decreases |records|
  {
    if records == [] then [] else seal(first, records[0]) + Encode(seal, first + 1, records[1..])
  }

  lemma {:induction false} EncodeSnoc(seal: Seal, first: nat, records: seq<seq<byte>>, record: seq<byte>)
    ensures Encode(seal, first, records + [record])
            == Encode(seal, first, records) + seal(first + |records|, record)
    decreases |records|
  {
    if records == [] {
      assert records + [record] == [record];
      assert [record][1..] == [];
    } else {
      assert (records + [record])[1..] == records[1..] + [record];
      EncodeSnoc(seal, first + 1, records[1..], record);
    }
  }

  lemma WholeTail(script: seq<Answer>)
    ensures IsTail(script, script)
  {
  }

  class TlsConn {
    var fd: int
    var broken: bool            // the TLS engine has failed for good
    var seqNo: nat              // the number of the next record
    const sock: Socket
    const wq: WriteQueue        // plaintext not yet sealed
    const cout: RingBuffer      // ciphertext not yet taken by the socket
    const pool: BufferPool
    const seal: Seal

    ghost var records: seq<seq<byte>>   // the plaintext of each record sealed so far

    ghost predicate Valid()
      reads this, wq, wq.owned, cout, cout.buf
    {
      && pool.Valid() && wq.pool == pool && cout.pool == pool
      && wq.Valid() && cout.Valid() && cout.buf !in wq.owned
      && seqNo == |records|
    }

    /** All plaintext handed over so far, in order: sealed, then queued. */
    ghost function Plaintext(): seq<byte>
      reads this, wq
    {
      Flatten(records) + wq.Contents()
    }

    /** The socket took, and the ring still holds, exactly the records sealed so far, in order. */
    ghost predicate Ordered()
      requires Valid()
      reads this, wq, wq.owned, cout, cout.buf, sock
    {
      sock.wire + cout.Contents() == Encode(seal, 0, records)
    }

    constructor (fd: int, sock: Socket, pool: BufferPool, coalesceMax: int, compactMax: int, seal: Seal)
      requires pool.Valid() && sock.wire == []
      ensures Valid() && Ordered() && Plaintext() == []
    {
      this.fd, this.sock, this.pool, this.seal := fd, sock, pool, seal;
      broken, seqNo, records := false, 0, [];
      wq := new WriteQueue(pool, coalesceMax, compactMax);
      cout := new RingBuffer(pool);
    }

    function PendingWrite(): (n: int)
      requires Valid()
      reads this, wq, wq.owned, cout, cout.buf
      ensures n == |wq.Contents()| + |cout.Contents()|
    {
      wq.Pending() + cout.Has()
    }

    /** tlsBufferConn.Write: stages one record. */
    method Stage(record: seq<byte>) returns (ok: bool)
      requires Valid()
      modifies cout, cout.buf, pool`puts
      ensures Valid() && wq.Contents() == old(wq.Contents())
      ensures cout.buf == old(cout.buf) || fresh(cout.buf)
      ensures cout.Contents() == old(cout.Contents()) + (if ok then record else [])
    {
      hide WriteQueue.Valid, WriteQueue.Contents, View, Place;
      if |record| == 0 {
        assert cout.Contents() == old(cout.Contents()) + [];
        return true;
      }
      var data := new byte[|record|](i requires 0 <= i < |record| => record[i]);
      assert data[0..|record|] == record;
      var n := cout.Write(data, 0, |record|, |record|, true);
      ok := n >= 0;
    }

    /** Seals one record and stages it. */
    method SealRecord(chunk: seq<byte>) returns (ok: bool)
      requires Valid() && Ordered()
      modifies this`records, this`seqNo, cout, cout.buf, pool`puts
      ensures Valid() && Ordered() && wq.Contents() == old(wq.Contents())
      ensures cout.buf == old(cout.buf) || fresh(cout.buf)
      ensures old(records) <= records
      ensures Flatten(records) == old(Flatten(records)) + (if ok then chunk else [])
      ensures !ok ==> cout.Contents() == old(cout.Contents())
    {
      hide WriteQueue.Valid, WriteQueue.Contents, View, Place, Encode, Flatten;
      FlattenSnoc(records, chunk);
      EncodeSnoc(seal, 0, records, chunk);
      ok := Stage(seal(seqNo, chunk));
      assert !ok ==> cout.Contents() == old(cout.Contents()) + [];
      if ok {
        records := records + [chunk];
        seqNo := seqNo + 1;
      }
    }

    /** tls.Conn.Write: seals plaintext into records until done or until one cannot be staged. */
    method Encrypt(src: seq<byte>) returns (n: nat, err: Errno)
      requires Valid() && Ordered()
      modifies this`records, this`seqNo, this`broken, cout, cout.buf, pool`puts
      ensures Valid() && Ordered() && wq.Contents() == old(wq.Contents())
      ensures cout.buf == old(cout.buf) || fresh(cout.buf)
      ensures n <= |src| && (err == NoError ==> n == |src|) && err != EAGAIN && (err != NoError ==> broken)
      ensures n == 0 ==> cout.Contents() == old(cout.Contents())
      ensures old(records) <= records && Flatten(records) == old(Flatten(records)) + src[..n]
    {
      hide WriteQueue.Valid, WriteQueue.Contents, RingBuffer.Valid, RingBuffer.Contents, Encode, Flatten;
      n, err := 0, NoError;
      while n < |src|
        invariant Valid() && Ordered() && wq.Contents() == old(wq.Contents())
        invariant cout.buf == old(cout.buf) || fresh(cout.buf)
        invariant n <= |src| && err == NoError && (n == 0 ==> cout.Contents() == old(cout.Contents()))
        invariant old(records) <= records && Flatten(records) == old(Flatten(records)) + src[..n]
        decreases |src| - n
      {
        if broken {
          err := OtherError;
          return;
        }
        var m: nat :| 0 < m <= |src| - n;
        var chunk := src[n..n + m];
        assert src[..n + m] == src[..n] + chunk;
        var ok := SealRecord(chunk);
        if !ok {
          broken, err := true, ENOMEM;
          return;
        }
        n := n + m;
      }
    }

    /** The two slices cut down to `remaining` bytes when there is a limit. */
    method Limited(head: seq<byte>, tail: seq<byte>, limit: bool, remaining: int) returns (h: seq<byte>, t: seq<byte>)
      requires limit ==> remaining > 0
      ensures h + t == if limit && |head| + |tail| > remaining then (head + tail)[..remaining] else head + tail
    {
      h, t := head, tail;
      if limit {
        if |head| > remaining {
          h, t := head[..remaining], [];
        } else if |head| + |tail| > remaining {
          t := tail[..remaining - |head|];
        }
      }
    }

    /** One writev of staged ciphertext, at most `remaining` bytes of it when there is a limit. */
    method FlushStaged(limit: bool, remaining: int) returns (n: int, err: Errno)
      requires Valid() && Ordered() && |cout.Contents()| > 0 && (limit ==> remaining > 0)
      modifies sock, cout`r, cout`w
      ensures Valid() && Ordered() && wq.Contents() == old(wq.Contents())
      ensures n > 0 ==> err == NoError && |cout.Contents()| == |old(cout.Contents())| - n
      ensures |sock.wire| == |old(sock.wire)| + Max0(n)
      ensures limit ==> n <= remaining
      ensures IsTail(old(sock.script), sock.script) && (n <= 0 ==> Stopped(old(sock.script), sock.script))
    {
      hide WriteQueue.Valid, WriteQueue.Contents, RingBuffer.Valid, RingBuffer.Contents, View, Place, Encode, Flatten;
      var head, tail := cout.Peek2();
      ghost var all := head + tail;
      head, tail := Limited(head, tail, limit, remaining);
      var iovecs := (if |head| > 0 then [head] else []) + (if |tail| > 0 then [tail] else []);
      FlattenTwo(head, tail);
      n, err := sock.Writev(iovecs);
      OneWrite(old(sock.script), sock.script, |head + tail|, n, err);
      if err == EAGAIN && n < 0 {
        n := 0;
      }
      if n > 0 {
        assert (head + tail)[..n] == all[..n];
        var res := cout.Forward(n, OpRead);
      }
    }

    /**
     FlushN: alternates between flushing staged ciphertext and sealing more plaintext.
     It ends because every round takes plaintext out of the queue, or leaves the queue
     alone and takes ciphertext out of the ring.
     */
    method FlushN(maxBytes: int) returns (flushed: nat, err: Errno)
      requires Valid() && Ordered()
      modifies this`records, this`seqNo, this`broken, sock, wq, cout, cout.buf, pool`puts
      ensures Valid() && Ordered() && wq.owned <= old(wq.owned)
      ensures cout.buf == old(cout.buf) || fresh(cout.buf)
      ensures old(records) <= records && Plaintext() == old(Plaintext())
      ensures |sock.wire| == |old(sock.wire)| + flushed
      ensures maxBytes > 0 ==> flushed <= maxBytes
      ensures fd == 0 ==> flushed == 0 && err == EBADF
      ensures |wq.Contents()| < |old(wq.Contents())|
              || (wq.Contents() == old(wq.Contents()) && |cout.Contents()| == |old(cout.Contents())| - flushed)
      ensures IsTail(old(sock.script), sock.script)
      ensures fd != 0 && !broken ==>
                || (maxBytes > 0 && flushed == maxBytes) || (wq.Contents() == [] && cout.Contents() == [])
                || Stopped(old(sock.script), sock.script)
    {
      hide WriteQueue.Valid, WriteQueue.Contents, RingBuffer.Valid, RingBuffer.Contents, Encode, Flatten, Account, IsTail, Stopped;
      WholeTail(sock.script);
      flushed := 0;
      if fd == 0 {
        err := EBADF;
        return;
      }
      var limit := maxBytes > 0;
      var remaining := maxBytes;
      while true
        invariant Valid() && Ordered()
        invariant cout.buf == old(cout.buf) || fresh(cout.buf)
        invariant wq.owned <= old(wq.owned)
        invariant old(records) <= records && Plaintext() == old(Plaintext())
        invariant |sock.wire| == |old(sock.wire)| + flushed
        invariant limit ==> remaining >= 0 && flushed + remaining == maxBytes
        invariant IsTail(old(sock.script), sock.script)
        invariant |wq.Contents()| < |old(wq.Contents())|
                  || (wq.Contents() == old(wq.Contents()) && |cout.Contents()| == |old(cout.Contents())| - flushed)
        decreases |wq.Contents()|, |cout.Contents()|
      {
        if limit && remaining <= 0 {
          return flushed, NoError;
        }
        if cout.Has() > 0 {
          var n;
          ghost var script := sock.script;
          n, err := FlushStaged(limit, remaining);
          TailOfTail(old(sock.script), script, sock.script);
          if n > 0 {
            flushed := flushed + n;
            if limit {
              remaining := remaining - n;
            }
            continue;
          }
          return;
        }
        var more;
        more, err := SealMore(limit, remaining);
        if !more || err != NoError {
          return;
        }
      }
    }

    /** The next plaintext to seal. */
    method NextChunk(limit: bool, remaining: int) returns (src: seq<byte>)
      requires Valid() && (limit ==> remaining > 0)
      ensures src <= wq.Contents() && (src == [] <==> wq.Contents() == [])
    {
      hide WriteQueue.Valid, WriteQueue.Contents, WriteQueue.Sizes, RingBuffer.Valid, RingBuffer.Contents;
      src := wq.Peek();
      var chunkLimit := TLS_WRITE_CHUNK_SIZE;
      if limit && remaining < chunkLimit {
        chunkLimit := remaining;
      }
      if |src| > chunkLimit {
        src := src[..chunkLimit];
      }
    }

    /** Seals up to one chunk of queued plaintext. */
    method SealMore(limit: bool, remaining: int) returns (more: bool, err: Errno)
      requires Valid() && Ordered() && (limit ==> remaining > 0)
      modifies this`records, this`seqNo, this`broken, wq, cout, cout.buf, pool`puts
      ensures Valid() && Ordered()
      ensures cout.buf == old(cout.buf) || fresh(cout.buf)
      ensures old(records) <= records && Plaintext() == old(Plaintext())
      ensures wq.owned <= old(wq.owned)
      ensures more <==> old(wq.Contents()) != []
      ensures !more ==> err == NoError && wq.Contents() == [] && cout.Contents() == old(cout.Contents())
      ensures err != NoError ==> broken
      ensures more && err == NoError ==> |wq.Contents()| < |old(wq.Contents())|
      ensures |wq.Contents()| < |old(wq.Contents())| || (wq.Contents() == old(wq.Contents()) && cout.Contents() == old(cout.Contents()))
    {
      hide WriteQueue.Valid, WriteQueue.Contents, WriteQueue.Sizes, RingBuffer.Valid, RingBuffer.Contents, Encode, Flatten, Account;
      var src := NextChunk(limit, remaining);
      if |src| == 0 {
        return false, NoError;
      }
      ghost var queued := wq.Contents();
      var n;
      more := true;
      n, err := Encrypt(src);
      assert queued == src[..n] + queued[n..];
      if n > 0 {
        wq.Consume(n);
      }
    }

    /**
     drainWrite on this connection: it ends because a flush that moved something has shrunk
     the queue, or left it alone and shrunk the staged ciphertext.
     */
    method DrainWrite(plan: int) returns (total: nat, err: Errno)
      requires Valid() && Ordered()
      modifies this`records, this`seqNo, this`broken, sock, wq, cout, cout.buf, pool`puts
      ensures Valid() && Ordered() && wq.owned <= old(wq.owned)
      ensures cout.buf == old(cout.buf) || fresh(cout.buf)
      ensures old(records) <= records && Plaintext() == old(Plaintext())
      ensures |old(sock.wire)| + total <= |sock.wire| && (err == NoError ==> |sock.wire| == |old(sock.wire)| + total)
      ensures plan > 0 ==> |sock.wire| < |old(sock.wire)| + 2 * plan
      ensures fd != 0 && !broken ==>
                || (plan > 0 && |sock.wire| >= |old(sock.wire)| + plan) || (wq.Contents() == [] && cout.Contents() == [])
                || Stopped(old(sock.script), sock.script)
    {
      hide WriteQueue.Valid, WriteQueue.Contents, RingBuffer.Valid, RingBuffer.Contents, Encode, Flatten, Account, IsTail, Stopped;
      WholeTail(sock.script);
      total := 0;
      if PendingWrite() == 0 {
        return 0, NoError;
      }
      while true
        invariant Valid() && Ordered() && wq.owned <= old(wq.owned)
        invariant cout.buf == old(cout.buf) || fresh(cout.buf)
        invariant old(records) <= records && Plaintext() == old(Plaintext())
        invariant |sock.wire| == |old(sock.wire)| + total && (plan > 0 ==> total < plan)
        invariant IsTail(old(sock.script), sock.script)
        decreases |wq.Contents()|, |cout.Contents()|
      {
        var n;
        ghost var script := sock.script;
        n, err := FlushN(plan);
        TailOfTail(old(sock.script), script, sock.script);
        if err != NoError {
          return;   // what this flush has sent is not counted
        }
        total := total + n;
        if n <= 0 || (total >= plan && plan > 0) {
          return;
        }
      }
    }

    /** ATLSConn.Write */
    method Write(b: seq<byte>) returns (n: nat, err: Errno)
      requires Valid() && Ordered()
      modifies this`records, this`seqNo, this`broken, cout, cout.buf, pool`puts
      ensures Valid() && Ordered() && wq.Contents() == old(wq.Contents())
      ensures cout.buf == old(cout.buf) || fresh(cout.buf)
      ensures n <= |b| && (err == NoError ==> n == |b|) && err != EAGAIN
      ensures old(records) <= records && Flatten(records) == old(Flatten(records)) + b[..n]
    {
      hide WriteQueue.Valid, WriteQueue.Contents, RingBuffer.Valid, RingBuffer.Contents, Encode, Flatten;
      if fd == 0 {
        assert Flatten(records) == old(Flatten(records)) + b[..0];
        return 0, EBADF;
      }
      n, err := Encrypt(b);
    }

    /** emitOutput on this connection: output is sealed at once only when nothing at all is pending. */
    method EmitOutput(out: seq<byte>) returns (err: Errno)
      requires Valid() && Ordered()
      modifies this`records, this`seqNo, this`broken, wq, wq.owned, cout, cout.buf, pool`puts
      ensures Valid() && Ordered() && old(records) <= records
      ensures cout.buf == old(cout.buf) || fresh(cout.buf)
      ensures fresh(wq.owned - old(wq.owned))
      ensures err == NoError ==> Plaintext() == old(Plaintext()) + out
      ensures err != NoError ==> old(Plaintext()) <= Plaintext() <= old(Plaintext()) + out
    {
      hide WriteQueue.Valid, WriteQueue.Contents, RingBuffer.Valid, RingBuffer.Contents, Encode, Flatten, Account;
      if |out| == 0 {
        return NoError;
      }
      if PendingWrite() == 0 {
        var n;
        n, err := Write(out);
        assert wq.Contents() == [] && old(wq.Contents()) == [];
        assert Plaintext() == old(Plaintext()) + out[..n];
        if n == |out| {
          assert out[..n] == out;
          return NoError;
        }
        return;
      }
      err := EnqueueCopy(out);
    }

    /** Queues a copy of plaintext, as emitOutput does and as a data command does. */
    method EnqueueCopy(data: seq<byte>) returns (err: Errno)
      requires Valid() && Ordered()
      modifies wq, wq.owned, pool`puts
      ensures Valid() && Ordered() && fresh(wq.owned - old(wq.owned))
      ensures err == NoError || err == ENOMEM
      ensures Plaintext() == old(Plaintext()) + (if err == NoError then data else [])
    {
      hide WriteQueue.Valid, WriteQueue.Contents, RingBuffer.Valid, RingBuffer.Contents, Encode, Flatten, Account;
      var owner := pool.Get(|data|);
      if owner == null {
        assert Plaintext() == old(Plaintext()) + [];
        return ENOMEM;
      }
      forall i | 0 <= i < |data| {
        owner[i] := data[i];
      }
      assert owner[..|data|] == data;
      wq.Enqueue(owner, |data|);
      err := NoError;
    }

    /** One step; if it fails, part of its data may already have gone out. */
    method Act(step: Step) returns (err: Errno)
      requires Valid() && Ordered()
      modifies this`records, this`seqNo, this`broken, sock, wq, wq.owned, cout, cout.buf, pool`puts
      ensures Valid() && Ordered() && fresh(wq.owned - old(wq.owned))
      ensures cout.buf == old(cout.buf) || fresh(cout.buf)
      ensures err == NoError ==> Plaintext() == old(Plaintext()) + Data(step)
      ensures err != NoError ==> old(Plaintext()) <= Plaintext() <= old(Plaintext()) + Data(step)
    {
      hide WriteQueue.Valid, WriteQueue.Contents, RingBuffer.Valid, RingBuffer.Contents, Encode, Flatten, Account;
      match step {
        case Output(data) =>
          err := EmitOutput(data);
        case Command(data) =>
          err := EnqueueCopy(data);
        case Flush(maxBytes) =>
          var n;
          n, err := FlushN(maxBytes);
          if err == EAGAIN {
            err := NoError;
          }
          assert Plaintext() == old(Plaintext()) + [];
      }
    }

    /**
     Every run of the outbound side, with output, data commands and flushes in any order:
     the records the socket took and those still staged are the sealed records in order,
     and their plaintext followed by the queue is everything submitted, in order.  At a step
     that fails, part of its data may already be sealed.
     */
    method Run(steps: seq<Step>) returns (done: nat, err: Errno)
      requires Valid() && Ordered() && Plaintext() == []
      modifies this, sock, wq, wq.owned, cout, cout.buf, pool`puts
      ensures Valid()
      ensures sock.wire + cout.Contents() == Encode(seal, 0, records)
      ensures if err == NoError then done == |steps| else done < |steps|
      ensures err == NoError ==> Flatten(records) + wq.Contents() == Submitted(steps)
      ensures err != NoError ==> Submitted(steps[..done]) <= Flatten(records) + wq.Contents() <= Submitted(steps[..done + 1])
    {
      hide WriteQueue.Valid, WriteQueue.Contents, RingBuffer.Valid, RingBuffer.Contents, Encode, Flatten, Account, Submitted;
      err := NoError;
      SubmittedNothing(steps);
      for i := 0 to |steps|
        invariant Valid() && Ordered() && err == NoError
        invariant cout.buf == old(cout.buf) || fresh(cout.buf)
        invariant fresh(wq.owned - old(wq.owned))
        invariant Plaintext() == Submitted(steps[..i])
      {
        SubmittedNext(steps, i);
        err := Act(steps[i]);
        if err != NoError {
          done := i;
          return;
        }
      }
      done := |steps|;
      assert steps[..done] == steps;
    }
  }

  lemma FlattenTwo(a: seq<byte>, b: seq<byte>)
    ensures Flatten((if |a| > 0 then [a] else []) + (if |b| > 0 then [b] else [])) == a + b
  {
    FlattenSnoc(if |a| > 0 then [a] else [], b);
    FlattenSnoc([], a);
    assert [] + [a] == [a];
  }
}
