/**
 The first-bytes sniffer that decides whether a connection speaks HTTP or raw TCP.
 */
module Sniffer {
  import opened Bytes

  datatype Mode = Unknown | Tcp | Http

  const SPACE: byte := 0x20
  const MAX_METHOD_SCAN := 16

  /** httpMethods */
  const METHODS: seq<seq<byte>> := [
    [0x47, 0x45, 0x54],                            // GET
    [0x50, 0x4F, 0x53, 0x54],                      // POST
    [0x50, 0x55, 0x54],                            // PUT
    [0x50, 0x41, 0x54, 0x43, 0x48],                // PATCH
    [0x44, 0x45, 0x4C, 0x45, 0x54, 0x45],          // DELETE
    [0x48, 0x45, 0x41, 0x44],                      // HEAD
    [0x4F, 0x50, 0x54, 0x49, 0x4F, 0x4E, 0x53],    // OPTIONS
    [0x43, 0x4F, 0x4E, 0x4E, 0x45, 0x43, 0x54],    // CONNECT
    [0x54, 0x52, 0x41, 0x43, 0x45]]                // TRACE

  predicate Upper(b: byte) {
    0x41 <= b <= 0x5A
  }

  // ---------------------------------------------------------- what is being decided

  /** The input starts like an HTTP request line: a known method and a space. */
  ghost predicate StartsWithMethod(s: seq<byte>) {
    exists m :: m in METHODS && m + [SPACE] <= s
  }

  /** The input may still become one: it is the beginning of a known method. */
  ghost predicate MayBecomeMethod(s: seq<byte>) {
    exists m :: m in METHODS && s <= m
  }

  ghost function Classify(s: seq<byte>): Mode {
    if StartsWithMethod(s) then Http else if MayBecomeMethod(s) then Unknown else Tcp
  }

  // ----------------------------------------------------------------- the scanner

  /** The comparison loop shared by the two matchers. */
  method Matches(s: seq<byte>, m: seq<byte>) returns (match_: bool)
    requires |s| <= |m|
    ensures match_ <==> s <= m
  {
    match_ := true;
    var i := 0;
    while i < |s|
      invariant 0 <= i <= |s| && match_ && s[..i] == m[..i]
    {
      if s[i] != m[i] {
        return false;
      }
      i := i + 1;
    }
    assert s[..|s|] == s;
  }

  /** isHTTPMethodPrefix */
  method IsMethodPrefix(s: seq<byte>) returns (found: bool)
    ensures found <==> MayBecomeMethod(s)
  {
    if |s| == 0 {
      assert METHODS[0] in METHODS && s <= METHODS[0];
      return true;
    }
    for k := 0 to |METHODS|
      invariant forall i :: 0 <= i < k ==> !(s <= METHODS[i])
    {
      if |s| <= |METHODS[k]| {
        var same := Matches(s, METHODS[k]);
        if same {
          assert METHODS[k] in METHODS;
          return true;
        }
      }
    }
    return false;
  }

  /** isHTTPMethod */
  method IsMethod(s: seq<byte>) returns (found: bool)
    ensures found <==> s in METHODS
  {
    for k := 0 to |METHODS|
      invariant forall i :: 0 <= i < k ==> s != METHODS[i]
    {
      if |s| == |METHODS[k]| {
        var same := Matches(s, METHODS[k]);
        if same {
          assert s == METHODS[k];
          return true;
        }
      }
    }
    return false;
  }

  /** Methods are short and upper-case. */
  lemma MethodShape(m: seq<byte>)
    requires m in METHODS
    ensures 3 <= |m| <= 7 && forall i :: 0 <= i < |m| ==> Upper(m[i])
    ensures forall i :: 0 <= i < |m| ==> (m + [SPACE])[i] == m[i]
    ensures (m + [SPACE])[|m|] == SPACE
  {
    var k :| 0 <= k < |METHODS| && m == METHODS[k];
    assert METHODS[k] == METHODS[0] || METHODS[k] == METHODS[1] || METHODS[k] == METHODS[2] || METHODS[k] == METHODS[3]
        || METHODS[k] == METHODS[4] || METHODS[k] == METHODS[5] || METHODS[k] == METHODS[6] || METHODS[k] == METHODS[7]
        || METHODS[k] == METHODS[8];
  }

  /** A character that is neither a capital nor the first space rules both out. */
  lemma NotAMethod(s: seq<byte>, i: nat)
    requires i < |s| && s[i] != SPACE && !Upper(s[i]) && forall j :: 0 <= j < i ==> Upper(s[j])
    ensures Classify(s) == Tcp
  {
    forall m | m in METHODS
      ensures !(m + [SPACE] <= s) && !(s <= m)
    {
      MethodShape(m);
    }
  }

  /** With a space after capitals, the word before it decides. */
  lemma WordDecides(s: seq<byte>, n: nat)
    requires n < |s| && s[n] == SPACE && forall j :: 0 <= j < n ==> Upper(s[j])
    ensures Classify(s) == if s[..n] in METHODS then Http else Tcp
  {
    assert s[..n + 1] == s[..n] + [SPACE];
    forall m | m in METHODS
      ensures !(s <= m) && (m + [SPACE] <= s ==> m == s[..n])
    {
      MethodShape(m);
      if m + [SPACE] <= s {
        assert m == s[..n];
      }
    }
  }

  /** With capitals only there is no request line yet. */
  lemma CapitalsOnly(s: seq<byte>, limit: nat)
    requires limit == Min(|s|, MAX_METHOD_SCAN) && forall j :: 0 <= j < limit ==> Upper(s[j])
    ensures Classify(s) == if limit == |s| && MayBecomeMethod(s) then Unknown else Tcp
  {
    forall m | m in METHODS
      ensures !(m + [SPACE] <= s) && (s <= m ==> limit == |s|)
    {
      MethodShape(m);
    }
  }

  /** sniffProtoByFirstLine computes exactly the classification; an undecided input asks for one more byte. */
  method Sniff(s: seq<byte>) returns (mode: Mode, need: nat)
    ensures mode == Classify(s)
    ensures need == if mode == Unknown then |s| + 1 else 0
  {
    if |s| == 0 {
      CapitalsOnly(s, 0);
      assert METHODS[0] in METHODS && s <= METHODS[0];
      return Unknown, 1;
    }
    var methodEnd := -1;
    var limit := |s|;
    if limit > MAX_METHOD_SCAN {
      limit := MAX_METHOD_SCAN;
    }
    var i := 0;
    while i < limit
      invariant 0 <= i <= limit && methodEnd == -1 && forall j :: 0 <= j < i ==> Upper(s[j])
    {
      if s[i] == SPACE {
        methodEnd := i;
        break;
      }
      if s[i] < 0x41 || s[i] > 0x5A {
        NotAMethod(s, i);
        return Tcp, 0;
      }
      i := i + 1;
    }
    if methodEnd == -1 {
      CapitalsOnly(s, limit);
      if limit < |s| {
        return Tcp, 0;
      }
      assert s[..limit] == s;
      var prefix := IsMethodPrefix(s[..limit]);
      if prefix {
        return Unknown, |s| + 1;
      }
      return Tcp, 0;
    }
    WordDecides(s, methodEnd);
    var known := IsMethod(s[..methodEnd]);
    if known {
      return Http, 0;
    }
    return Tcp, 0;
  }

  // --------------------------------------------------------------- what it promises

  /** More input never changes a decision. */
  lemma DecisionStands(s: seq<byte>, more: seq<byte>)
    requires Classify(s) != Unknown
    ensures Classify(s + more) == Classify(s)
  {
    if StartsWithMethod(s) {
      var m :| m in METHODS && m + [SPACE] <= s;
      assert m + [SPACE] <= s + more;
    } else {
      forall m | m in METHODS
        ensures !(m + [SPACE] <= s + more) && !(s + more <= m)
      {
        assert !(s <= m) && !(m + [SPACE] <= s);
        BeginningsMeet(m, s, more);
        BeginningsMeet(m + [SPACE], s, more);
        BelongsToBoth(s, m);
      }
    }
  }

  /** A beginning of `s + more` either is one of `s` or goes on behind it. */
  lemma BeginningsMeet(m: seq<byte>, s: seq<byte>, more: seq<byte>)
    ensures m <= s + more ==> m <= s || s <= m
    ensures s + more <= m ==> s <= m
  {
    if m <= s + more {
      assert forall i :: 0 <= i < |m| && i < |s| ==> m[i] == (s + more)[i] == s[i];
    }
    if s + more <= m {
      assert forall i :: 0 <= i < |s| ==> m[i] == (s + more)[i] == s[i];
    }
  }

  lemma BelongsToBoth(s: seq<byte>, m: seq<byte>)
    ensures s <= m + [SPACE] ==> s <= m || s == m + [SPACE]
  {
    if s <= m + [SPACE] && |s| <= |m| {
      assert forall i :: 0 <= i < |s| ==> s[i] == (m + [SPACE])[i] == m[i];
    }
  }

  /** Eight bytes are enough, and an undecided input is the beginning of a method. */
  lemma DecidedInTime(s: seq<byte>)
    ensures Classify(s) == Unknown ==> |s| <= 7 && exists m :: m in METHODS && s <= m
  {
    if MayBecomeMethod(s) {
      var m :| m in METHODS && s <= m;
      MethodShape(m);
    }
  }

  /** An undecided input can still turn out either way, so it could not have been decided earlier. */
  lemma UndecidedIsOpen(s: seq<byte>) returns (http: seq<byte>, tcp: seq<byte>)
    requires Classify(s) == Unknown
    ensures Classify(s + http) == Http && Classify(s + tcp) == Tcp
  {
    var m :| m in METHODS && s <= m;
    MethodShape(m);
    http := m[|s|..] + [SPACE];
    assert s + http == m + [SPACE];
    tcp := [0];
    assert (s + tcp)[|s|] == 0;
    NotAMethod(s + tcp, |s|);
  }

  /** However the first bytes arrive, the first decision is that of the whole input. */
  lemma SplitDoesNotMatter(s: seq<byte>, k: nat)
    requires k <= |s|
    ensures Classify(s[..k]) == Unknown || Classify(s[..k]) == Classify(s)
  {
    assert s[..k] + s[k..] == s;
    if Classify(s[..k]) != Unknown {
      DecisionStands(s[..k], s[k..]);
    }
  }
}
