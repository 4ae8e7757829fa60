/** Bytes and big-endian integers. */
module Bytes {

  type byte = x: int | 0 <= x < 256

  /** binary.BigEndian.Uint16 */
  function U16(hi: byte, lo: byte): (n: nat)
    ensures n < 0x1_0000
  {
    256 * hi + lo
  }

  function Min(a: int, b: int): int {
    if a <= b then a else b
  }

  function Pow2(k: nat): (n: nat)
    ensures n > 0
  {
    if k == 0 then 1 else 2 * Pow2(k - 1)
  }

  lemma Pow2Octet(k: nat)
    ensures Pow2(k + 8) == 256 * Pow2(k)
  {
    assert Pow2(k + 8) == 4 * Pow2(k + 6);
    assert Pow2(k + 6) == 4 * Pow2(k + 4);
    assert Pow2(k + 4) == 4 * Pow2(k + 2);
  }

  lemma Pow2OfZero()
    ensures Pow2(0) == 1
  {
  }

  /** What a system call or an operation on a connection reports. */
  datatype Errno = NoError | EAGAIN | EBADF | ENOMEM | OtherError

  // ------------------------------------------------------- lists of byte strings

  function Flatten(chunks: seq<seq<byte>>): seq<byte> {
    if chunks == [] then [] else chunks[0] + Flatten(chunks[1..])
  }

  lemma {:induction false} FlattenAppend(a: seq<seq<byte>>, b: seq<seq<byte>>)
    ensures Flatten(a + b) == Flatten(a) + Flatten(b)
  {
    if a == [] {
      assert a + b == b;
    } else {
      assert (a + b)[1..] == a[1..] + b;
      FlattenAppend(a[1..], b);
    }
  }

  lemma FlattenSnoc(a: seq<seq<byte>>, last: seq<byte>)
    ensures Flatten(a + [last]) == Flatten(a) + last
  {
    FlattenAppend(a, [last]);
    assert [last][1..] == [];
    assert Flatten([last]) == last;
  }

  lemma {:induction false} FlattenEmpties(chunks: seq<seq<byte>>, n: nat)
    requires n <= |chunks| && forall i :: 0 <= i < n ==> chunks[i] == []
    ensures Flatten(chunks) == Flatten(chunks[n..])
  {
    if n > 0 {
      FlattenEmpties(chunks[1..], n - 1);
      assert chunks[1..][n - 1..] == chunks[n..];
    }
  }

  lemma FlattenNothing(chunks: seq<seq<byte>>)
    requires chunks == []
    ensures Flatten(chunks) == []
  {
  }
}
