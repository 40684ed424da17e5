// Adding up multisets over a sequence.
module Totals {

  function Total<T, K>(f: T -> multiset<K>, s: seq<T>): multiset<K>
  {
    if s == [] then multiset{} else Total(f, s[..|s| - 1]) + f(s[|s| - 1])
  }

  lemma TotalAppend<T, K>(f: T -> multiset<K>, s: seq<T>, x: T)
    ensures Total(f, s + [x]) == Total(f, s) + f(x)
  {
    assert (s + [x])[..|s|] == s;
  }

  lemma {:induction false} TotalUpdate<T, K>(f: T -> multiset<K>, s: seq<T>, i: nat, x: T)
    requires i < |s|
    ensures Total(f, s[i := x]) + f(s[i]) == Total(f, s) + f(x)
  {
    var n := |s| - 1;
    if i == n {
      assert s[i := x][..n] == s[..n];
    } else {
      TotalUpdate(f, s[..n], i, x);
      assert s[i := x][..n] == s[..n][i := x] && s[i := x][n] == s[n] && s[..n][i] == s[i];
      var a, b := Total(f, s[..n][i := x]), Total(f, s[..n]);
      assert Total(f, s[i := x]) == a + f(s[n]) && Total(f, s) == b + f(s[n]);
      assert a + f(s[n]) + f(s[i]) == (a + f(s[i])) + f(s[n]) == (b + f(x)) + f(s[n]) == b + f(s[n]) + f(x);
    }
  }

  lemma {:induction false} TotalRemove<T, K>(f: T -> multiset<K>, s: seq<T>, i: nat)
    requires i < |s|
    ensures Total(f, s) == Total(f, s[..i] + s[i + 1..]) + f(s[i])
  {
    var n := |s| - 1;
    if i == n {
      assert s[..i] + s[i + 1..] == s[..n];
    } else {
      TotalRemove(f, s[..n], i);
      var t := s[..i] + s[i + 1..];
      assert t[..|t| - 1] == s[..n][..i] + s[..n][i + 1..];
    }
  }

  // Two places that both contribute an element make its total at least two.
  lemma {:induction false} TotalOfTwo<T, K>(f: T -> multiset<K>, s: seq<T>, i: nat, j: nat, k: K)
    requires i < |s| && j < |s| && i != j
    requires k in f(s[i]) && k in f(s[j])
    ensures Total(f, s)[k] >= 2
  {
    TotalRemove(f, s, i);
    var t := s[..i] + s[i + 1..];
    TotalRemove(f, t, if j < i then j else j - 1);
  }

  lemma {:induction false} TotalOfOne<T, K>(f: T -> multiset<K>, s: seq<T>, i: nat)
    requires i < |s|
    ensures f(s[i]) <= Total(f, s)
  {
    TotalRemove(f, s, i);
  }
}
