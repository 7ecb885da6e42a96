/**
 Sequences of distinct slot, descriptor or thread numbers.
 */
module Lists {

  predicate NoDup(s: seq<nat>) {
    forall i, j :: 0 <= i < j < |s| ==> s[i] != s[j]
  }

  function ToSet(s: seq<nat>): set<nat> {
    set x | x in s
  }

  function Reversed(s: seq<nat>): (r: seq<nat>)
    ensures |r| == |s|
    ensures forall k :: 0 <= k < |s| ==> r[k] == s[|s| - 1 - k]
  {
    seq(|s|, k requires 0 <= k < |s| => s[|s| - 1 - k])
  }

  lemma NoDupJoin(a: seq<nat>, b: seq<nat>)
    requires NoDup(a) && NoDup(b) && forall x: nat :: x in b ==> x !in a
    ensures NoDup(a + b)
  {
    forall i, j | 0 <= i < j < |a + b| ensures (a + b)[i] != (a + b)[j] {
      if i < |a| <= j {
        assert b[j - |a|] in b && a[i] in a;
      }
    }
  }

  lemma NoDupSplit(a: seq<nat>, b: seq<nat>)
    requires NoDup(a + b)
    ensures NoDup(a) && NoDup(b) && forall x: nat :: x in b ==> x !in a
  {
    forall i, j | 0 <= i < j < |a| ensures a[i] != a[j] {
      assert (a + b)[i] != (a + b)[j];
    }
    forall i, j | 0 <= i < j < |b| ensures b[i] != b[j] {
      assert (a + b)[|a| + i] != (a + b)[|a| + j];
    }
    forall i, j | 0 <= i < |a| && 0 <= j < |b| ensures a[i] != b[j] {
      assert (a + b)[i] != (a + b)[|a| + j];
    }
  }

  lemma ReversedMembers(s: seq<nat>, x: nat)
    ensures x in Reversed(s) <==> x in s
  {
    if x in s {
      var k :| 0 <= k < |s| && s[k] == x;
      assert Reversed(s)[|s| - 1 - k] == x;
    }
  }

  lemma ReversedNoDup(a: seq<nat>, b: seq<nat>)
    requires NoDup(a) && NoDup(b) && forall x: nat :: x in b ==> x !in a
    ensures NoDup(Reversed(a) + b)
  {
    var rev, n := Reversed(a), |a|;
    forall i, j | 0 <= i < j < n ensures rev[i] != rev[j] {
      assert a[n - 1 - j] != a[n - 1 - i];
    }
    forall x: nat | x in b ensures x !in rev {
      ReversedMembers(a, x);
    }
    NoDupJoin(rev, b);
  }

  lemma {:induction false} ToSetSize(s: seq<nat>)
    requires NoDup(s)
    ensures |ToSet(s)| == |s|
  {
    if s != [] {
      var init, last := s[..|s| - 1], s[|s| - 1];
      ToSetSize(init);
      assert s == init + [last];
      assert last !in ToSet(init);
      assert ToSet(s) == ToSet(init) + {last};
    }
  }

  function Upto(n: nat): set<nat> {
    if n == 0 then {} else Upto(n - 1) + {n - 1}
  }

  lemma {:induction false} UptoMembers(n: nat, x: nat)
    ensures x in Upto(n) <==> x < n
  {
    if n > 0 {
      UptoMembers(n - 1, x);
    }
  }

  lemma {:induction false} UptoSize(n: nat)
    ensures |Upto(n)| == n
  {
    if n > 0 {
      UptoSize(n - 1);
      UptoMembers(n - 1, n - 1);
    }
  }

  lemma {:induction false} SubsetSize(small: set<nat>, big: set<nat>)
    requires small <= big
    ensures |small| <= |big|
  {
    if small != {} {
      var x :| x in small;
      SubsetSize(small - {x}, big - {x});
    }
  }

  /** Pigeonhole: a set of numbers below n has at most n members. */
  lemma BelowSize(s: set<nat>, n: nat)
    requires forall x: nat :: x in s ==> x < n
    ensures |s| <= n
  {
    forall x: nat | x in s ensures x in Upto(n) {
      UptoMembers(n, x);
    }
    SubsetSize(s, Upto(n));
    UptoSize(n);
  }

  lemma DistinctBelow(s: seq<nat>, n: nat)
    requires NoDup(s) && forall k :: 0 <= k < |s| ==> s[k] < n
    ensures |s| <= n
  {
    ToSetSize(s);
    BelowSize(ToSet(s), n);
  }

  /** list_del on a list that holds the slot at most once. */
  function Without(s: seq<nat>, x: nat): seq<nat> {
    if s == [] then []
    else if s[0] == x then s[1..]
    else [s[0]] + Without(s[1..], x)
  }

  lemma {:induction false} WithoutProps(s: seq<nat>, x: nat)
    requires NoDup(s)
    ensures NoDup(Without(s, x))
    ensures forall k: nat :: k in Without(s, x) <==> k in s && k != x
  {
    if s != [] {
      assert s == [s[0]] + s[1..];
      assert s[0] !in s[1..];
      WithoutProps(s[1..], x);
    }
  }

  lemma {:induction false} WithoutLast(s: seq<nat>, x: nat)
    requires x !in s
    ensures Without(s + [x], x) == s && Without(s, x) == s
  {
    if s != [] {
      WithoutLast(s[1..], x);
      assert (s + [x])[1..] == s[1..] + [x];
    }
  }
}
