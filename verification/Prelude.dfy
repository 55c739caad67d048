/** Counting and summing over sequences, shared by every component. */
module Prelude {

  datatype Option<+T> = None | Some(value: T)

  ghost function Indicator(b: bool): nat { if b then 1 else 0 }

  /** The sum of `f` over the elements of `s`. */
  function SumOf<T>(s: seq<T>, f: T -> int): int {
    if s == [] then 0 else SumOf(s[..|s| - 1], f) + f(s[|s| - 1])
  }

  /** The number of elements of `s` that satisfy `p`. */
  function CountIf<T>(s: seq<T>, p: T -> bool): nat {
    if s == [] then 0 else CountIf(s[..|s| - 1], p) + (if p(s[|s| - 1]) then 1 else 0)
  }

  lemma SumAppend<T>(s: seq<T>, x: T, f: T -> int)
    ensures SumOf(s + [x], f) == SumOf(s, f) + f(x)
  {
    assert (s + [x])[..|s|] == s;
  }

  lemma {:induction false} SumUpdate<T>(s: seq<T>, i: nat, x: T, f: T -> int)
    requires i < |s|
    ensures SumOf(s[i := x], f) == SumOf(s, f) - f(s[i]) + f(x)
  {
    var n := |s| - 1;
    if i == n {
      assert s[i := x][..n] == s[..n];
    } else {
      assert s[i := x][..n] == s[..n][i := x];
      SumUpdate(s[..n], i, x, f);
    }
  }

  /** Pointwise comparison of two sums over sequences of one length. */
  lemma {:induction false} SumLe<T>(s: seq<T>, s': seq<T>, f: T -> int)
    requires |s| == |s'|
    requires forall i :: 0 <= i < |s| ==> f(s[i]) <= f(s'[i])
    ensures SumOf(s, f) <= SumOf(s', f)
  {
    if s != [] {
      SumLe(s[..|s| - 1], s'[..|s| - 1], f);
    }
  }

  lemma {:induction false} SumLt<T>(s: seq<T>, s': seq<T>, f: T -> int, k: nat)
    requires |s| == |s'| && k < |s|
    requires forall i :: 0 <= i < |s| ==> f(s[i]) <= f(s'[i])
    requires f(s[k]) < f(s'[k])
    ensures SumOf(s, f) < SumOf(s', f)
  {
    var n := |s| - 1;
    if k == n {
      SumLe(s[..n], s'[..n], f);
    } else {
      SumLt(s[..n], s'[..n], f, k);
    }
  }

  lemma CountAppend<T>(s: seq<T>, x: T, p: T -> bool)
    ensures CountIf(s + [x], p) == CountIf(s, p) + (if p(x) then 1 else 0)
  {
    assert (s + [x])[..|s|] == s;
  }

  lemma {:induction false} CountUpdate<T>(s: seq<T>, i: nat, x: T, p: T -> bool)
    requires i < |s|
    ensures CountIf(s[i := x], p)
         == CountIf(s, p) - (if p(s[i]) then 1 else 0) + (if p(x) then 1 else 0)
  {
    var n := |s| - 1;
    if i == n {
      assert s[i := x][..n] == s[..n];
    } else {
      assert s[i := x][..n] == s[..n][i := x];
      CountUpdate(s[..n], i, x, p);
    }
  }

  /** Elements that satisfy `p` satisfy `q` or `r`. */
  lemma {:induction false} CountSplit<T>(s: seq<T>, p: T -> bool, q: T -> bool, r: T -> bool)
    requires forall i :: 0 <= i < |s| && p(s[i]) ==> q(s[i]) || r(s[i])
    ensures CountIf(s, p) <= CountIf(s, q) + CountIf(s, r)
  {
    if s != [] {
      CountSplit(s[..|s| - 1], p, q, r);
    }
  }

  /** Elements that satisfy `p` satisfy exactly one of `q` and `r`. */
  lemma {:induction false} CountPartition<T>(s: seq<T>, p: T -> bool, q: T -> bool, r: T -> bool)
    requires forall i :: 0 <= i < |s| ==> (p(s[i]) <==> q(s[i]) || r(s[i])) && !(q(s[i]) && r(s[i]))
    ensures CountIf(s, p) == CountIf(s, q) + CountIf(s, r)
  {
    if s != [] {
      CountPartition(s[..|s| - 1], p, q, r);
    }
  }

  lemma {:induction false} CountLe<T>(s: seq<T>, p: T -> bool, q: T -> bool)
    requires forall i :: 0 <= i < |s| && p(s[i]) ==> q(s[i])
    ensures CountIf(s, p) <= CountIf(s, q)
  {
    if s != [] {
      CountLe(s[..|s| - 1], p, q);
    }
  }

  /** A predicate that holds nowhere counts zero, and conversely. */
  lemma {:induction false} CountZero<T>(s: seq<T>, p: T -> bool)
    ensures CountIf(s, p) == 0 <==> forall i :: 0 <= i < |s| ==> !p(s[i])
  {
    if s != [] {
      var n := |s| - 1;
      CountZero(s[..n], p);
      assert forall i :: 0 <= i < n ==> s[..n][i] == s[i];
      if CountIf(s, p) == 0 {
        forall i | 0 <= i < |s| ensures !p(s[i]) {
          if i < n { assert !p(s[..n][i]); }
        }
      }
    }
  }

  /** A predicate that holds at one place at most counts one at most, and conversely. */
  lemma {:induction false} CountAtMostOne<T>(s: seq<T>, p: T -> bool)
    ensures CountIf(s, p) <= 1
       <==> forall i, j :: 0 <= i < j < |s| ==> !(p(s[i]) && p(s[j]))
  {
    if s != [] {
      var n := |s| - 1;
      var t := s[..n];
      CountAtMostOne(t, p);
      CountZero(t, p);
      assert forall i :: 0 <= i < n ==> t[i] == s[i];
      if CountIf(s, p) <= 1 {
        forall i, j | 0 <= i < j < |s| ensures !(p(s[i]) && p(s[j])) {
          if j < n { assert !(p(t[i]) && p(t[j])); } else { assert !p(t[i]) || !p(s[n]); }
        }
      } else if CountIf(t, p) == 1 {
        var i :| 0 <= i < |t| && p(t[i]);
        assert p(s[i]) && p(s[n]);
      } else {
        var i, j :| 0 <= i < j < |t| && p(t[i]) && p(t[j]);
        assert p(s[i]) && p(s[j]);
      }
    }
  }

  lemma {:induction false} CountPositive<T>(s: seq<T>, p: T -> bool, k: nat)
    requires k < |s| && p(s[k])
    ensures CountIf(s, p) >= 1
  {
    CountZero(s, p);
  }

  lemma {:induction false} CountSame<T>(s: seq<T>, t: seq<T>, p: T -> bool)
    requires |s| == |t| && forall i :: 0 <= i < |s| ==> p(s[i]) == p(t[i])
    ensures CountIf(s, p) == CountIf(t, p)
  {
    if s != [] {
      CountSame(s[..|s| - 1], t[..|t| - 1], p);
    }
  }
}
