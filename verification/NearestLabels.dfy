/** The labels offered for a volume that was not found. */
module NearestLabels {
  import opened Common
  import opened EditDistance

  // ----- sorting

  ghost predicate Sorted(s: seq<string>) {
    forall i, j :: 0 <= i < j < |s| ==> Leq(s[i], s[j])
  }

  lemma Prepended(x: string, s: seq<string>)
    requires Sorted(s) && forall j :: 0 <= j < |s| ==> Leq(x, s[j])
    ensures Sorted([x] + s) && multiset([x] + s) == multiset(s) + multiset{x}
  {
    hide Leq;
  }

  lemma LeqAll(x: string, s: seq<string>)
    requires s != [] && Sorted(s) && Leq(x, s[0])
    ensures forall j :: 0 <= j < |s| ==> Leq(x, s[j])
  {
    hide Leq;
    forall j | 0 < j < |s| ensures Leq(x, s[j]) {
      LeqLaws(x, s[0], s[j]);
    }
  }

  lemma InsertedBehind(s: seq<string>, x: string, rest: seq<string>)
    requires s != [] && Sorted(s) && !Leq(x, s[0])
    requires Sorted(rest) && multiset(rest) == multiset(s[1..]) + multiset{x}
    ensures Sorted([s[0]] + rest) && multiset([s[0]] + rest) == multiset(s) + multiset{x}
  {
    hide Leq;
    assert s == [s[0]] + s[1..];
    LeqLaws(s[0], x, s[0]);
    forall j | 0 <= j < |rest| ensures Leq(s[0], rest[j]) {
      assert rest[j] in multiset(rest);
    }
    Prepended(s[0], rest);
  }

  function Inserted(s: seq<string>, x: string): (r: seq<string>)
    requires Sorted(s)
    ensures Sorted(r) && multiset(r) == multiset(s) + multiset{x}
  {
    if s == [] then [x]
    else if Leq(x, s[0]) then
      LeqAll(x, s);
      Prepended(x, s);
      [x] + s
    else
      var rest := Inserted(s[1..], x);
      InsertedBehind(s, x, rest);
      [s[0]] + rest
  }

  method Sort(s: seq<string>) returns (r: seq<string>)
    ensures Sorted(r) && multiset(r) == multiset(s)
  {
    r := [];
    for i := 0 to |s|
      invariant Sorted(r) && multiset(r) == multiset(s[..i])
    {
      assert s[..i + 1] == s[..i] + [s[i]];
      r := Inserted(r, s[i]);
    }
    assert s[..|s|] == s;
  }

  lemma SortedHeads(s: seq<string>, t: seq<string>)
    requires s != [] && t != [] && Sorted(s) && Sorted(t) && multiset(s) == multiset(t)
    ensures s[0] == t[0]
  {
    hide Leq;
    assert s[0] in multiset(t) && t[0] in multiset(s);
    LeqLaws(s[0], t[0], s[0]);
    LeqLaws(s[0], s[0], s[0]);
  }

  lemma SortedTail(s: seq<string>)
    requires s != [] && Sorted(s)
    ensures Sorted(s[1..]) && multiset(s[1..]) == multiset(s) - multiset{s[0]}
  {
    hide Leq;
    assert s == [s[0]] + s[1..];
  }

  /** Two sorted lists of the same labels are the same list. */
  lemma {:induction false} SortedIsUnique(s: seq<string>, t: seq<string>)
    requires Sorted(s) && Sorted(t) && multiset(s) == multiset(t)
    ensures s == t
  {
    hide Sorted;
    assert |multiset(s)| == |s| && |multiset(t)| == |t|;
    if s != [] {
      SortedHeads(s, t);
      SortedTail(s);
      SortedTail(t);
      SortedIsUnique(s[1..], t[1..]);
      assert s == [s[0]] + s[1..] && t == [t[0]] + t[1..];
    }
  }

  // ----- the selection

  const MOST_OFFERED: nat := 3

  function Limit(typed: string, lower: string -> string): nat {
    Min(|lower(typed)| / 3, 2)
  }

  function Away(typed: string, volume: string, lower: string -> string): nat {
    Distance(lower(typed), lower(volume))
  }

  /** At most two edits, and at most a third of what was typed. */
  lemma LimitMeaning(typed: string, lower: string -> string, d: nat)
    ensures d <= Limit(typed, lower) <==> d <= 2 && 3 * d <= |lower(typed)|
  {
  }

  /** Within the limit, and no other label of the catalog nearer. */
  ghost predicate Nearest(typed: string, volume: string, labels: seq<string>, lower: string -> string) {
    && volume in labels && volume != typed
    && Away(typed, volume, lower) <= Limit(typed, lower)
    && forall other :: other in labels && other != typed ==> Away(typed, volume, lower) <= Away(typed, other, lower)
  }

  /** How often each label is to be offered, before too many are dropped. */
  ghost predicate HoldsNearest(near: seq<string>, typed: string, labels: seq<string>, lower: string -> string) {
    forall volume :: multiset(near)[volume] ==
                    if Nearest(typed, volume, labels, lower) then multiset(labels)[volume] else 0
  }

  ghost predicate Offer(r: seq<string>, typed: string, labels: seq<string>, lower: string -> string) {
    Sorted(r) &&
    exists near :: HoldsNearest(near, typed, labels, lower) &&
                   multiset(r) == if |near| > MOST_OFFERED then multiset{} else multiset(near)
  }

  /** `near` holds the labels seen so far at the smallest distance `best` (none yet below zero). */
  ghost predicate Selected(near: seq<string>, best: int, typed: string, seen: seq<string>, lower: string -> string) {
    && (best < 0 ==> near == [])
    && (best >= 0 ==> best <= Limit(typed, lower) && near != [])
    && (forall l :: l in seen && l != typed ==>
          Away(typed, l, lower) >= (if best >= 0 then best else Limit(typed, lower) + 1))
    && (forall l :: multiset(near)[l] ==
          if l != typed && Away(typed, l, lower) == best then multiset(seen)[l] else 0)
  }

  /** One more label seen: kept, skipped, or the new nearest. */
  lemma SelectedNext(near: seq<string>, best: int, typed: string, seen: seq<string>, lower: string -> string, l: string)
    requires Selected(near, best, typed, seen, lower)
    ensures var d := Away(typed, l, lower);
      if l == typed || d > Limit(typed, lower) || (best >= 0 && d > best) then Selected(near, best, typed, seen + [l], lower)
      else if best >= 0 && d == best then Selected(near + [l], best, typed, seen + [l], lower)
      else Selected([l], d, typed, seen + [l], lower)
  {
    hide Distance;
    assert forall m :: m in seen + [l] <==> m in seen || m == l;
    assert l !in near ==> multiset(near)[l] == 0;
    if best >= 0 {
      assert near[0] in multiset(near);
    }
    forall m | m !in seen ensures multiset(seen)[m] == 0 {
      assert m !in multiset(seen);
    }
  }

  lemma SelectedAreNearest(near: seq<string>, best: int, typed: string, labels: seq<string>, lower: string -> string)
    requires Selected(near, best, typed, labels, lower)
    ensures HoldsNearest(near, typed, labels, lower)
  {
    hide Distance;
    if best >= 0 {
      assert near[0] in multiset(near);
      assert near[0] in multiset(labels);
    }
    forall l ensures multiset(near)[l] == if Nearest(typed, l, labels, lower) then multiset(labels)[l] else 0 {
      if l in labels && l != typed {
        assert Nearest(typed, l, labels, lower) <==> Away(typed, l, lower) == best;
      }
    }
  }

  lemma SortedEmpty()
    ensures Sorted([])
  {
  }

  method NearestTo(typed: string, labels: seq<string>, lower: string -> string) returns (r: seq<string>)
    ensures Offer(r, typed, labels, lower)
    ensures |r| <= MOST_OFFERED
  {
    hide Distance, Leq, HoldsNearest, Sorted;
    var limit := Limit(typed, lower);
    var best: int := -1;
    var near: seq<string> := [];
    for i := 0 to |labels|
      invariant Selected(near, best, typed, labels[..i], lower)
    {
      hide Selected;
      assert labels[..i + 1] == labels[..i] + [labels[i]];
      SelectedNext(near, best, typed, labels[..i], lower, labels[i]);
      if labels[i] == typed {
        continue;
      }
      var d := Compute(lower(typed), lower(labels[i]));
      if d > limit {
        continue;
      }
      if best >= 0 && d > best {
      } else if best >= 0 && d == best {
        near := near + [labels[i]];
      } else {
        best := d;
        near := [labels[i]];
      }
    }
    assert labels[..|labels|] == labels;
    SelectedAreNearest(near, best, typed, labels, lower);
    if |near| > MOST_OFFERED {
      r := [];
      assert Sorted(r) by { SortedEmpty(); }
    } else {
      r := Sort(near);
      assert |multiset(r)| == |r| && |multiset(near)| == |near|;
    }
  }

  /** Up to three nearest labels are all offered, and of more none is. */
  lemma OfferMeaning(typed: string, lower: string -> string, labels: seq<string>, r: seq<string>, near: seq<string>)
    requires Offer(r, typed, labels, lower) && HoldsNearest(near, typed, labels, lower)
    ensures |near| <= 3 ==> multiset(r) == multiset(near)
    ensures |near| > 3 ==> r == []
  {
    hide Nearest, Sorted;
    var near' :| HoldsNearest(near', typed, labels, lower) &&
                 multiset(r) == if |near'| > MOST_OFFERED then multiset{} else multiset(near');
    assert multiset(near) == multiset(near');
    assert |multiset(near)| == |near| && |multiset(near')| == |near'|;
    assert |multiset(r)| == |r|;
  }

  /** What is offered is near, and nothing in the catalog is nearer. */
  lemma OfferedIsNear(typed: string, lower: string -> string, labels: seq<string>, r: seq<string>, l: string)
    requires Offer(r, typed, labels, lower) && l in r
    ensures l in labels && l != typed
    ensures Distance(lower(typed), lower(l)) <= 2 && 3 * Distance(lower(typed), lower(l)) <= |lower(typed)|
    ensures forall other :: other in labels && other != typed ==> Distance(lower(typed), lower(l)) <= Distance(lower(typed), lower(other))
  {
    hide Distance, Sorted;
    assert l in multiset(r);
    LimitMeaning(typed, lower, Away(typed, l, lower));
  }

  /** The offer is the same for every ordering of the catalog. */
  lemma OfferIgnoresOrder(typed: string, lower: string -> string,
                          labels: seq<string>, labels': seq<string>, r: seq<string>, r': seq<string>)
    requires multiset(labels) == multiset(labels')
    requires Offer(r, typed, labels, lower) && Offer(r', typed, labels', lower)
    ensures r == r'
  {
    hide Distance, Sorted;
    assert forall l :: l in labels <==> l in multiset(labels);
    assert forall l :: l in labels' <==> l in multiset(labels');
    var near :| HoldsNearest(near, typed, labels, lower) &&
                multiset(r) == if |near| > MOST_OFFERED then multiset{} else multiset(near);
    var near' :| HoldsNearest(near', typed, labels', lower) &&
                 multiset(r') == if |near'| > MOST_OFFERED then multiset{} else multiset(near');
    forall l ensures multiset(near)[l] == multiset(near')[l] {
      assert Nearest(typed, l, labels, lower) <==> Nearest(typed, l, labels', lower);
    }
    assert multiset(near) == multiset(near');
    assert |multiset(near)| == |near| && |multiset(near')| == |near'|;
    SortedIsUnique(r, r');
  }
}
