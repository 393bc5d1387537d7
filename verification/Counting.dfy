/** Counting the elements of a sequence that satisfy a predicate, and how the count moves when one
    element is replaced.  The protocol modules use it for "how many threads are in this state". */
module Counting {

  function B2N(b: bool): nat { if b then 1 else 0 }

  function CountIf<T>(p: T -> bool, s: seq<T>): nat {
    if s == [] then 0 else B2N(p(s[0])) + CountIf(p, s[1..])
  }

  /** Replacing one element moves the count by exactly that element's contribution. */
  lemma {:induction false} CountUpdate<T>(p: T -> bool, s: seq<T>, i: nat, x: T)
    requires i < |s|
    ensures CountIf(p, s[i := x]) + B2N(p(s[i])) == CountIf(p, s) + B2N(p(x))
  {
    if i == 0 {
      assert s[i := x][1..] == s[1..];
    } else {
      assert s[i := x][1..] == s[1..][i - 1 := x];
      CountUpdate(p, s[1..], i - 1, x);
    }
  }

  lemma {:induction false} CountBound<T>(p: T -> bool, s: seq<T>)
    ensures CountIf(p, s) <= |s|
  {
    if s != [] {
      CountBound(p, s[1..]);
    }
  }

  lemma {:induction false} CountZero<T>(p: T -> bool, s: seq<T>)
    ensures CountIf(p, s) == 0 <==> forall i :: 0 <= i < |s| ==> !p(s[i])
  {
    if s != [] {
      CountZero(p, s[1..]);
      assert forall i :: 0 < i < |s| ==> s[i] == s[1..][i - 1];
      assert forall i :: 0 <= i < |s| - 1 ==> s[1..][i] == s[i + 1];
    }
  }

  lemma {:induction false} CountFull<T>(p: T -> bool, s: seq<T>)
    ensures CountIf(p, s) == |s| <==> forall i :: 0 <= i < |s| ==> p(s[i])
  {
    if s != [] {
      CountFull(p, s[1..]);
      CountBound(p, s[1..]);
      assert forall i :: 0 < i < |s| ==> s[i] == s[1..][i - 1];
      assert forall i :: 0 <= i < |s| - 1 ==> s[1..][i] == s[i + 1];
    }
  }

  /** A count of at most one means no two positions satisfy the predicate. */
  lemma CountUnique<T>(p: T -> bool, s: seq<T>, i: nat, j: nat)
    requires i < |s| && j < |s| && i != j
    requires p(s[i]) && p(s[j])
    ensures CountIf(p, s) >= 2
  {
    var k, l := if i < j then i else j, if i < j then j else i;
    CountSplit(p, s, l);
    CountPositive(p, s[..l], k);
    CountPositive(p, s[l..], 0);
  }

  lemma {:induction false} CountSplit<T>(p: T -> bool, s: seq<T>, n: nat)
    requires n <= |s|
    ensures CountIf(p, s) == CountIf(p, s[..n]) + CountIf(p, s[n..])
  {
    if n > 0 {
      CountSplit(p, s[1..], n - 1);
      assert s[..n][1..] == s[1..][..n - 1];
      assert s[n..] == s[1..][n - 1..];
    } else {
      assert s[n..] == s;
    }
  }

  lemma CountPositive<T>(p: T -> bool, s: seq<T>, i: nat)
    requires i < |s| && p(s[i])
    ensures CountIf(p, s) >= 1
  {
    CountZero(p, s);
  }

  lemma {:induction false} CountImplies<T>(p: T -> bool, q: T -> bool, s: seq<T>)
    requires forall x :: x in s && p(x) ==> q(x)
    ensures CountIf(p, s) <= CountIf(q, s)
  {
    if s != [] {
      CountImplies(p, q, s[1..]);
    }
  }

  /** Two predicates that agree element by element, on two sequences of equal length, count the same. */
  lemma {:induction false} CountSame<T>(p: T -> bool, q: T -> bool, s: seq<T>, t: seq<T>)
    requires |s| == |t|
    requires forall i :: 0 <= i < |s| ==> p(s[i]) == q(t[i])
    ensures CountIf(p, s) == CountIf(q, t)
  {
    if s != [] {
      CountSame(p, q, s[1..], t[1..]);
    }
  }

  function SumOf<T>(f: T -> nat, s: seq<T>): nat {
    if s == [] then 0 else f(s[0]) + SumOf(f, s[1..])
  }

  lemma {:induction false} SumUpdate<T>(f: T -> nat, s: seq<T>, i: nat, x: T)
    requires i < |s|
    ensures SumOf(f, s[i := x]) + f(s[i]) == SumOf(f, s) + f(x)
  {
    if i == 0 {
      assert s[i := x][1..] == s[1..];
    } else {
      assert s[i := x][1..] == s[1..][i - 1 := x];
      SumUpdate(f, s[1..], i - 1, x);
    }
  }

  lemma {:induction false} SumSnoc<T>(f: T -> nat, s: seq<T>, x: T)
    ensures SumOf(f, s + [x]) == SumOf(f, s) + f(x)
  {
    if s != [] {
      assert (s + [x])[1..] == s[1..] + [x];
      SumSnoc(f, s[1..], x);
    }
  }

  /** If no element's weight grows by more than one, the sum grows by at most the length. */
  lemma {:induction false} SumGrowth<T>(f: T -> nat, s: seq<T>, t: seq<T>)
    requires |s| == |t|
    requires forall i :: 0 <= i < |s| ==> f(t[i]) <= f(s[i]) + 1
    ensures SumOf(f, t) <= SumOf(f, s) + |s|
  {
    if s != [] {
      SumGrowth(f, s[1..], t[1..]);
    }
  }
}
