/** Connection IDs made of a sequence number, a descriptor and a loop index. */
module SimpleId {
  import opened Bytes

  /** Bitwise or. */
  function Or(a: nat, b: nat): nat
    decreases a + b
  {
    if a == 0 && b == 0 then 0 else 2 * Or(a / 2, b / 2) + (if a % 2 == 1 || b % 2 == 1 then 1 else 0)
  }

  /** Shift to the left. */
  function Shl(v: nat, k: nat): nat {
    if k == 0 then v else 2 * Shl(v, k - 1)
  }

  /** buildSimpleID, in 64 bits. */
  function BuildId(seqNo: nat, fd: nat, loop: nat): nat {
    Or(Or(Shl(seqNo, 32), Shl(fd, 16)), loop) % 0x1_0000_0000_0000_0000
  }

  lemma {:induction false} OrNothing(a: nat)
    ensures Or(a, 0) == a && Or(0, a) == a
  {
    if a > 0 {
      OrNothing(a / 2);
    }
  }

  /** Bits that do not overlap add up. */
  lemma {:induction false} OrAdds(high: nat, low: nat, k: nat)
    requires low < Pow2(k)
    ensures Or(Shl(high, k), low) == Shl(high, k) + low
  {
    if k == 0 {
      OrNothing(high);
    } else {
      OrAdds(high, low / 2, k - 1);
      OrStep(Shl(high, k - 1), low);
    }
  }

  lemma OrStep(a: nat, b: nat)
    ensures Or(2 * a, b) == 2 * Or(a, b / 2) + b % 2
  {
    assert (2 * a) / 2 == a && (2 * a) % 2 == 0;
    if a == 0 && b == 0 {
      assert Or(0, 0) == 0;
    }
  }

  /** Shifting does not mix the bits. */
  lemma {:induction false} OrShl(a: nat, b: nat, k: nat)
    ensures Or(Shl(a, k), Shl(b, k)) == Shl(Or(a, b), k)
  {
    if k > 0 {
      OrShl(a, b, k - 1);
      OrStep(Shl(a, k - 1), Shl(b, k));
    }
  }

  lemma {:induction false} ShlIsMul(v: nat, k: nat)
    ensures Shl(v, k) == Pow2(k) * v
  {
    if k > 0 {
      ShlIsMul(v, k - 1);
      assert Pow2(k) * v == 2 * (Pow2(k - 1) * v);
    }
  }

  lemma Pow2Of16And32()
    ensures Pow2(16) == 0x1_0000 && Pow2(32) == 0x1_0000_0000
  {
    hide Pow2;
    Pow2OfZero();
    Pow2Octet(0);
    Pow2Octet(8);
    Pow2Octet(16);
    Pow2Octet(24);
  }

  /** What a connection can get: sequence numbers and descriptors start at 1, loop indices at 0. */
  predicate InRange(seqNo: nat, fd: nat, loop: nat, fds: nat, loops: nat) {
    1 <= seqNo < 0x1_0000_0000 && 1 <= fd < fds && loop < loops
  }

  /** With descriptor and loop index in 16 bits each, every part has its own digits. */
  lemma SmallPartsAdd(seqNo: nat, fd: nat, loop: nat)
    requires InRange(seqNo, fd, loop, 0x1_0000, 0x1_0000)
    ensures BuildId(seqNo, fd, loop) == 0x1_0000_0000 * seqNo + 0x1_0000 * fd + loop
  {
    Pow2Of16And32();
    ShlIsMul(seqNo, 32);
    ShlIsMul(fd, 16);
    hide Or, Shl, Pow2;
    OrAdds(seqNo, Shl(fd, 16), 32);
    var both := 0x1_0000 * seqNo + fd;
    ShlIsMul(both, 16);
    OrAdds(both, loop, 16);
  }

  /** No two connections share an ID. */
  ghost predicate AllDistinct(fds: nat, loops: nat) {
    forall s: nat, f: nat, l: nat, s': nat, f': nat, l': nat ::
      InRange(s, f, l, fds, loops) && InRange(s', f', l', fds, loops) && BuildId(s, f, l) == BuildId(s', f', l') ==>
        s == s' && f == f' && l == l'
  }

  /** The second and the third connection of a loop, both on descriptor 65536, share an ID. */
  lemma LargeDescriptorCollides()
    ensures BuildId(2, 0x1_0000, 0) == BuildId(3, 0x1_0000, 0)
  {
    Pow2Of16And32();
    ShlIsMul(2, 32);
    ShlIsMul(3, 32);
    ShlIsMul(0x1_0000, 16);
    ShlIsMul(1, 32);
    OrShl(2, 1, 32);
    OrShl(3, 1, 32);
    assert Or(2, 1) == 3 && Or(3, 1) == 3;
  }

  /** The first connections of loops 0 and 65536, both on descriptor 1, share an ID. */
  lemma LargeLoopCollides()
    ensures BuildId(1, 1, 0) == BuildId(1, 1, 0x1_0000)
  {
    Pow2Of16And32();
    ShlIsMul(1, 16);
    ShlIsMul(1, 32);
    var low := Shl(1, 16);
    OrAdds(1, low, 32);
    var both := 0x1_0001;
    ShlIsMul(both, 16);
    OrShl(both, 1, 16);
    OrNothing(Shl(both, 16));
    assert Or(0x1_0001, 1) == 0x1_0001 by {
      OrNothing(0x8000);
    }
    hide Or, Shl, Pow2;
  }

  /**
   IDs are unique for all sequence numbers, descriptors and loops exactly if descriptors and
   loop indices fit into 16 bits.
   */
  lemma UniqueExactly(fds: nat, loops: nat)
    requires fds >= 2 && loops >= 1
    ensures AllDistinct(fds, loops) <==> fds <= 0x1_0000 && loops <= 0x1_0000
  {
    hide BuildId;
    if fds <= 0x1_0000 && loops <= 0x1_0000 {
      forall s: nat, f: nat, l: nat, s': nat, f': nat, l': nat
        | InRange(s, f, l, fds, loops) && InRange(s', f', l', fds, loops) && BuildId(s, f, l) == BuildId(s', f', l')
        ensures s == s' && f == f' && l == l'
      {
        SmallPartsAdd(s, f, l);
        SmallPartsAdd(s', f', l');
      }
    } else if fds > 0x1_0000 {
      LargeDescriptorCollides();
      assert InRange(2, 0x1_0000, 0, fds, loops) && InRange(3, 0x1_0000, 0, fds, loops);
    } else {
      LargeLoopCollides();
      assert InRange(1, 1, 0, fds, loops) && InRange(1, 1, 0x1_0000, fds, loops);
    }
  }
}
