/** What several of the modules share. */
module Common {

  datatype Option<+T> = None | Some(value: T)

  function Sum(s: seq<nat>): (n: nat) {
    if s == [] then 0 else Sum(s[..|s| - 1]) + s[|s| - 1]
  }

  lemma OneAtLeast(d: nat, k: int)
    requires k >= 1
    ensures d * k >= d
  {
    assert d * k == d + d * (k - 1);
  }

  /** Division with remainder has one answer. */
  lemma RemainderOf(q: int, d: nat, r: nat)
    requires r < d
    ensures (q * d + r) % d == r
  {
    var x := q * d + r;
    var k := q - x / d;
    assert d * k == q * d - d * (x / d);
    assert x == d * (x / d) + x % d;
    assert d * -k == -(d * k);
    if k >= 1 {
      OneAtLeast(d, k);
      assert false;
    } else if k <= -1 {
      OneAtLeast(d, -k);
      assert false;
    }
  }

  function DivCeil(a: nat, b: nat): (q: nat)
    requires b > 0
  {
    a / b + if a % b > 0 then 1 else 0
  }

  lemma DivCeilMonotone(a: nat, b: nat, d: nat)
    requires a <= b && d > 0
    ensures DivCeil(a, d) <= DivCeil(b, d)
  {
    var p, q := a / d, b / d;
    assert a == d * p + a % d && b == d * q + b % d;
    assert d * (p - q) == d * p - d * q;
    if p > q {
      OneAtLeast(d, p - q);
      assert false;
    } else if p < q {
      OneAtLeast(d, q - p);
    }
  }

  /** Strings in code point order. */
  predicate Leq(a: string, b: string) {
    a == "" || (b != "" && (a[0] < b[0] || (a[0] == b[0] && Leq(a[1..], b[1..]))))
  }

  /** The order is total, antisymmetric and transitive. */
  lemma {:induction false} LeqLaws(a: string, b: string, c: string)
    ensures Leq(a, b) || Leq(b, a)
    ensures Leq(a, b) && Leq(b, a) ==> a == b
    ensures Leq(a, b) && Leq(b, c) ==> Leq(a, c)
  {
    if a != "" && b != "" {
      LeqLaws(a[1..], b[1..], if c == "" then c else c[1..]);
      assert a == [a[0]] + a[1..] && b == [b[0]] + b[1..];
    }
  }

  lemma SameStart(a: string, b: string, k: nat)
    requires 0 < k <= |a| && k <= |b| && a[..k] == b[..k]
    ensures a[0] == b[0]
  {
    assert a[..k][0] == b[..k][0];
  }

  /** One string is a prefix of the other, or has the smaller character where they first differ. */
  lemma {:induction false} LeqMeaning(a: string, b: string)
    ensures Leq(a, b) <==> a <= b || exists k :: 0 <= k < |a| && k < |b| && a[..k] == b[..k] && a[k] < b[k]
  {
    if a != "" && b != "" {
      assert a == [a[0]] + a[1..] && b == [b[0]] + b[1..];
      if a[0] == b[0] {
        LeqMeaning(a[1..], b[1..]);
        if k :| 0 <= k < |a[1..]| && k < |b[1..]| && a[1..][..k] == b[1..][..k] && a[1..][k] < b[1..][k] {
          assert a[..k + 1] == [a[0]] + a[1..][..k] && b[..k + 1] == [b[0]] + b[1..][..k];
          assert a[k + 1] < b[k + 1];
        }
        if k :| 0 <= k < |a| && k < |b| && a[..k] == b[..k] && a[k] < b[k] {
          assert k > 0 && a[1..k] == a[..k][1..] && b[1..k] == b[..k][1..];
          assert a[1..][..k - 1] == a[1..k] && b[1..][..k - 1] == b[1..k] && a[1..][k - 1] < b[1..][k - 1];
        }
      } else if a[0] < b[0] {
        assert a[..0] == b[..0];
      } else {
        forall k | 0 <= k < |a| && k < |b| && a[..k] == b[..k] ensures k == 0 {
          if k > 0 {
            SameStart(a, b, k);
            assert false;
          }
        }
      }
    }
  }

  ghost predicate Ascending(s: seq<int>) {
    forall i, j :: 0 <= i < j < |s| ==> s[i] < s[j]
  }

  // ----- sorting

  ghost predicate TotalPreorder<T(!new)>(leq: (T, T) -> bool) {
    && (forall x, y :: leq(x, y) || leq(y, x))
    && (forall x, y, z :: leq(x, y) && leq(y, z) ==> leq(x, z))
  }

  ghost predicate SortedBy<T>(s: seq<T>, leq: (T, T) -> bool) {
    forall i, j :: 0 <= i < j < |s| ==> leq(s[i], s[j])
  }

  lemma PutBetween<T(!new)>(r: seq<T>, i: nat, x: T, leq: (T, T) -> bool)
    requires TotalPreorder(leq) && SortedBy(r, leq) && i <= |r|
    requires i > 0 ==> leq(r[i - 1], x)
    requires forall j :: i <= j < |r| ==> leq(x, r[j])
    ensures SortedBy(r[..i] + [x] + r[i..], leq)
  {
    var t := r[..i] + [x] + r[i..];
    assert forall j :: 0 <= j < i ==> leq(r[j], x);
    assert forall j :: 0 <= j < |t| ==> t[j] == if j < i then r[j] else if j == i then x else r[j - 1];
  }

  method PutIn<T(!new)>(s: seq<T>, x: T, leq: (T, T) -> bool) returns (r: seq<T>)
    requires TotalPreorder(leq) && SortedBy(s, leq)
    ensures SortedBy(r, leq) && multiset(r) == multiset(s) + multiset{x}
  {
    var i := |s|;
    while i > 0 && !leq(s[i - 1], x)
      invariant 0 <= i <= |s|
      invariant forall j :: i <= j < |s| ==> leq(x, s[j])
    {
      i := i - 1;
    }
    PutBetween(s, i, x, leq);
    hide TotalPreorder, SortedBy;
    assert s == s[..i] + s[i..];
    r := s[..i] + [x] + s[i..];
  }

  method SortBy<T(!new)>(s: seq<T>, leq: (T, T) -> bool) returns (r: seq<T>)
    requires TotalPreorder(leq)
    ensures SortedBy(r, leq) && multiset(r) == multiset(s)
  {
    r := [];
    for i := 0 to |s|
      invariant SortedBy(r, leq) && multiset(r) == multiset(s[..i])
    {
      hide TotalPreorder, SortedBy;
      assert s[..i + 1] == s[..i] + [s[i]];
      r := PutIn(r, s[i], leq);
    }
    assert s[..|s|] == s;
  }

  // ----- lists of lists

  /** The lists f gives for the elements, one after another. */
  function FlatMap<A, B>(s: seq<A>, f: A -> seq<B>): seq<B> {
    if s == [] then [] else FlatMap(s[..|s| - 1], f) + f(s[|s| - 1])
  }

  function Filter<A>(s: seq<A>, p: A -> bool): seq<A> {
    if s == [] then [] else Filter(s[..|s| - 1], p) + if p(s[|s| - 1]) then [s[|s| - 1]] else []
  }

  lemma {:induction false} FlatMapNext<A, B>(s: seq<A>, x: A, f: A -> seq<B>)
    ensures FlatMap(s + [x], f) == FlatMap(s, f) + f(x)
  {
    assert (s + [x])[..|s|] == s;
  }

  lemma {:induction false} FlatMapJoins<A, B>(a: seq<A>, b: seq<A>, f: A -> seq<B>)
    ensures FlatMap(a + b, f) == FlatMap(a, f) + FlatMap(b, f)
    decreases |b|
  {
    if b == [] {
      assert a + b == a;
    } else {
      var n := |b| - 1;
      FlatMapJoins(a, b[..n], f);
      assert a + b == (a + b[..n]) + [b[n]] && b == b[..n] + [b[n]];
      hide FlatMap;
      FlatMapNext(a + b[..n], b[n], f);
      FlatMapNext(b[..n], b[n], f);
    }
  }

  function Without<A>(s: seq<A>, i: nat): seq<A>
    requires i < |s|
  {
    s[..i] + s[i + 1..]
  }

  lemma WithoutOne<A, B>(s: seq<A>, i: nat, f: A -> seq<B>)
    requires i < |s|
    ensures |Without(s, i)| == |s| - 1 && multiset(Without(s, i)) == multiset(s) - multiset{s[i]}
    ensures multiset(FlatMap(s, f)) == multiset(FlatMap(Without(s, i), f)) + multiset(f(s[i]))
  {
    var left, x, right := s[..i], s[i], s[i + 1..];
    assert s == left + [x] + right;
    FlatMapNext(left, x, f);
    FlatMapJoins(left + [x], right, f);
    FlatMapJoins(left, right, f);
  }

  /** The order of the elements does not matter to how often each result occurs. */
  lemma {:induction false} FlatMapPermuted<A, B>(a: seq<A>, b: seq<A>, f: A -> seq<B>)
    requires multiset(a) == multiset(b)
    ensures multiset(FlatMap(a, f)) == multiset(FlatMap(b, f))
    decreases |a|
  {
    assert |a| == |multiset(a)| == |multiset(b)| == |b|;
    if a != [] {
      hide FlatMap, Without;
      assert a[0] in multiset(a);
      assert a[0] in b;
      var i :| 0 <= i < |b| && b[i] == a[0];
      WithoutOne(a, 0, f);
      WithoutOne(b, i, f);
      FlatMapPermuted(Without(a, 0), Without(b, i), f);
    }
  }

  /** Elements that give nothing may be left out. */
  lemma {:induction false} FlatMapFiltered<A, B>(s: seq<A>, p: A -> bool, f: A -> seq<B>)
    requires forall x :: x in s && !p(x) ==> f(x) == []
    ensures FlatMap(Filter(s, p), f) == FlatMap(s, f)
  {
    if s != [] {
      var n := |s| - 1;
      FlatMapFiltered(s[..n], p, f);
      if p(s[n]) {
        FlatMapNext(Filter(s[..n], p), s[n], f);
      } else {
        assert s[n] in s;
        assert Filter(s, p) == Filter(s[..n], p);
      }
    }
  }

  lemma {:induction false} FilterMeaning<A>(s: seq<A>, p: A -> bool, x: A)
    ensures multiset(Filter(s, p))[x] == if p(x) then multiset(s)[x] else 0
  {
    if s != [] {
      var rest, last := s[..|s| - 1], s[|s| - 1];
      FilterMeaning(rest, p, x);
      assert s == rest + [last];
      assert Filter(s, p) == Filter(rest, p) + if p(last) then [last] else [];
      hide Filter;
    }
  }

  lemma {:induction false} FlatMapMembers<A, B>(s: seq<A>, f: A -> seq<B>, y: B)
    ensures y in FlatMap(s, f) <==> exists x :: x in s && y in f(x)
  {
    if s != [] {
      var n := |s| - 1;
      FlatMapMembers(s[..n], f, y);
      assert s == s[..n] + [s[n]];
      hide FlatMap;
      assert FlatMap(s, f) == FlatMap(s[..n], f) + f(s[n]) by { FlatMapNext(s[..n], s[n], f); }
      if y in f(s[n]) {
        assert s[n] in s;
      }
    }
  }
}
