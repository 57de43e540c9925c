/** Levenshtein distance: the two-row computation, its recursive meaning, and the metric laws. */
module EditDistance {

  function Min(a: nat, b: nat): (m: nat) {
    if a <= b then a else b
  }

  function Min3(a: nat, b: nat, c: nat): (m: nat) {
    Min(Min(a, b), c)
  }

  /** The fewest insertions, deletions and substitutions that turn `a` into `b`, by their last characters. */
  function Distance(a: string, b: string): (d: nat)
    decreases |a| + |b|
  {
    if a == "" then |b|
    else if b == "" then |a|
    else
      var a', b' := a[..|a| - 1], b[..|b| - 1];
      Min3(Distance(a', b') + (if a[|a| - 1] != b[|b| - 1] then 1 else 0),
           Distance(a', b) + 1,
           Distance(a, b') + 1)
  }

  /** An edit script, applied from the left. */
  datatype Edit = Keep | Replace(c: char) | Insert(c: char) | Delete

  predicate Applies(script: seq<Edit>, a: string) {
    if script == [] then a == ""
    else
      var e, rest := script[|script| - 1], script[..|script| - 1];
      if e.Insert? then Applies(rest, a) else a != "" && Applies(rest, a[..|a| - 1])
  }

  function Apply(script: seq<Edit>, a: string): (b: string)
    requires Applies(script, a)
  {
    if script == [] then ""
    else
      var e, rest := script[|script| - 1], script[..|script| - 1];
      match e
      case Insert(c) => Apply(rest, a) + [c]
      case Keep => Apply(rest, a[..|a| - 1]) + [a[|a| - 1]]
      case Replace(c) => Apply(rest, a[..|a| - 1]) + [c]
      case Delete => Apply(rest, a[..|a| - 1])
  }

  function Cost(script: seq<Edit>): (n: nat) {
    if script == [] then 0
    else Cost(script[..|script| - 1]) + if script[|script| - 1].Keep? then 0 else 1
  }

  lemma Grow(script: seq<Edit>, e: Edit)
    ensures (script + [e])[..|script|] == script
    ensures Cost(script + [e]) == Cost(script) + if e.Keep? then 0 else 1
  {
  }

  /** Some script of that cost turns `a` into `b`. */
  lemma {:induction false} DistanceIsReached(a: string, b: string) returns (s: seq<Edit>)
    ensures Applies(s, a) && Apply(s, a) == b && Cost(s) == Distance(a, b)
    decreases |a| + |b|
  {
    if a == "" && b == "" {
      s := [];
    } else if b == "" || (a != "" && Distance(a, b) == Distance(a[..|a| - 1], b) + 1) {
      var rest := DistanceIsReached(a[..|a| - 1], b);
      Grow(rest, Delete);
      s := rest + [Delete];
    } else if a == "" || Distance(a, b) == Distance(a, b[..|b| - 1]) + 1 {
      var rest := DistanceIsReached(a, b[..|b| - 1]);
      Grow(rest, Insert(b[|b| - 1]));
      s := rest + [Insert(b[|b| - 1])];
    } else {
      var e := if a[|a| - 1] == b[|b| - 1] then Keep else Replace(b[|b| - 1]);
      var rest := DistanceIsReached(a[..|a| - 1], b[..|b| - 1]);
      Grow(rest, e);
      s := rest + [e];
    }
  }

  lemma OneCharacter(a: string, b: string, c: char)
    ensures Distance(a + [c], b) <= Distance(a, b) + 1
    ensures Distance(a, b + [c]) <= Distance(a, b) + 1
  {
    assert (a + [c])[..|a|] == a && (b + [c])[..|b|] == b;
  }

  /** No script is cheaper. */
  lemma {:induction false} DistanceIsLeast(script: seq<Edit>, a: string)
    requires Applies(script, a)
    ensures Distance(a, Apply(script, a)) <= Cost(script)
  {
    if script != [] {
      var e, rest := script[|script| - 1], script[..|script| - 1];
      if e.Insert? {
        DistanceIsLeast(rest, a);
        OneCharacter(a, Apply(rest, a), e.c);
      } else {
        var a', x := a[..|a| - 1], a[|a| - 1];
        assert a == a' + [x];
        DistanceIsLeast(rest, a');
        var b' := Apply(rest, a');
        match e {
          case Delete => OneCharacter(a', b', x);
          case Keep => assert (b' + [x])[..|b'|] == b';
          case Replace(c) => assert (b' + [c])[..|b'|] == b';
        }
      }
    }
  }

  lemma {:induction false} Symmetric(a: string, b: string)
    ensures Distance(a, b) == Distance(b, a)
    decreases |a| + |b|
  {
    if a != "" && b != "" {
      Symmetric(a[..|a| - 1], b[..|b| - 1]);
      Symmetric(a[..|a| - 1], b);
      Symmetric(a, b[..|b| - 1]);
    }
  }

  lemma {:induction false} ZeroIffEqual(a: string, b: string)
    ensures Distance(a, b) == 0 <==> a == b
    decreases |a| + |b|
  {
    if a != "" && b != "" {
      var a', b' := a[..|a| - 1], b[..|b| - 1];
      assert a == a' + [a[|a| - 1]] && b == b' + [b[|b| - 1]];
      ZeroIffEqual(a', b');
    }
  }

  lemma {:induction false} LengthBound(a: string, b: string)
    ensures |a| <= Distance(a, b) + |b| && |b| <= Distance(a, b) + |a| && Distance(a, b) <= |a| + |b|
    decreases |a| + |b|
  {
    if a != "" && b != "" {
      LengthBound(a[..|a| - 1], b[..|b| - 1]);
      LengthBound(a[..|a| - 1], b);
      LengthBound(a, b[..|b| - 1]);
    }
  }

  lemma {:induction false} Triangle(a: string, b: string, c: string)
    ensures Distance(a, c) <= Distance(a, b) + Distance(b, c)
    decreases |a| + |b| + |c|
  {
    LengthBound(a, b);
    LengthBound(b, c);
    LengthBound(a, c);
    if a != "" && b != "" && c != "" {
      var a', b', c' := a[..|a| - 1], b[..|b| - 1], c[..|c| - 1];
      Triangle(a', b', c');
      Triangle(a', b, c);
      Triangle(a, b', c);
      Triangle(a, b, c');
      Triangle(a', b', c);
      Triangle(a, b', c');
    }
  }

  /** Row `i` of the table: the distances from the first i characters of `a` to every prefix of `b`. */
  ghost predicate IsRow(row: seq<nat>, a: string, b: string, i: nat, upTo: nat)
    requires i <= |a| && upTo <= |b|
  {
    |row| == upTo + 1 && forall j :: 0 <= j <= upTo ==> row[j] == Distance(a[..i], b[..j])
  }

  lemma Cell(a: string, b: string, i: nat, j: nat)
    requires i < |a| && j < |b|
    ensures Distance(a[..i + 1], b[..j + 1]) ==
            Min3(Distance(a[..i], b[..j]) + (if a[i] != b[j] then 1 else 0),
                 Distance(a[..i], b[..j + 1]) + 1,
                 Distance(a[..i + 1], b[..j]) + 1)
  {
    assert a[..i + 1][..i] == a[..i] && b[..j + 1][..j] == b[..j];
  }

  lemma FirstRow(a: string, b: string)
    ensures forall j :: 0 <= j <= |b| ==> Distance(a[..0], b[..j]) == j
  {
  }

  lemma FirstColumn(a: string, b: string, i: nat)
    requires i <= |a|
    ensures Distance(a[..i], b[..0]) == i
  {
  }

  method Compute(a: string, b: string) returns (d: nat)
    ensures d == Distance(a, b)
  {
    hide Distance;
    var prev: seq<nat> := seq(|b| + 1, j requires 0 <= j => j);
    FirstRow(a, b);
    for i := 0 to |a|
      invariant IsRow(prev, a, b, i, |b|)
    {
      var cur: seq<nat> := [i + 1];
      FirstColumn(a, b, i + 1);
      for j := 0 to |b|
        invariant IsRow(cur, a, b, i + 1, j)
      {
        Cell(a, b, i, j);
        var substitute := prev[j] + if a[i] != b[j] then 1 else 0;
        cur := cur + [Min(Min(substitute, prev[j + 1] + 1), cur[j] + 1)];
      }
      prev := cur;
    }
    assert a[..|a|] == a && b[..|b|] == b;
    d := prev[|b|];
  }
}
