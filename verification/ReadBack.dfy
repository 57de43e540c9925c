/** Reading a version back from the tapes that hold it: which tape gives which slices. */
module ReadBack {
  import opened Common

  datatype Holding = Holding(tape: string, slice: int)

  datatype Holder = Holder(tape: string, slices: seq<int>)

  datatype Command = Command(tape: string, unit: string, version: int, slices: seq<int>)

  /** One stage set: its slice numbers, which tape holds which of them, and what it takes in whole blocks. */
  datatype StageSet = StageSet(slices: seq<int>, holdings: seq<Holding>, paddedBytes: nat)

  // ----- holders

  ghost predicate DistinctTapes(held: seq<Holder>) {
    forall i, j :: 0 <= i < j < |held| ==> held[i].tape != held[j].tape
  }

  predicate HoldsSlice(h: Holder, tape: string, slice: int) {
    h.tape == tape && slice in h.slices
  }

  ghost predicate Grouped(held: seq<Holder>, holdings: seq<Holding>) {
    && DistinctTapes(held)
    && (forall t, n :: Holding(t, n) in holdings <==> exists k :: 0 <= k < |held| && HoldsSlice(held[k], t, n))
  }

  /** Tape a is named, and b is not named before it. */
  ghost predicate NamedBefore(holdings: seq<Holding>, a: string, b: string) {
    exists p :: 0 <= p < |holdings| && holdings[p].tape == a && forall q :: 0 <= q <= p ==> holdings[q].tape != b
  }

  ghost predicate InOrderNamed(held: seq<Holder>, holdings: seq<Holding>) {
    forall i, j :: 0 <= i < j < |held| ==> NamedBefore(holdings, held[i].tape, held[j].tape)
  }

  lemma NamedStillBefore(holdings: seq<Holding>, h: Holding, a: string, b: string)
    requires NamedBefore(holdings, a, b)
    ensures NamedBefore(holdings + [h], a, b)
  {
    var p :| 0 <= p < |holdings| && holdings[p].tape == a && forall q :: 0 <= q <= p ==> holdings[q].tape != b;
    assert (holdings + [h])[p].tape == a;
  }

  lemma OrderStep(held: seq<Holder>, seen: seq<Holding>, h: Holding, k: nat)
    requires Grouped(held, seen) && InOrderNamed(held, seen) && k <= |held|
    requires forall j :: 0 <= j < k ==> held[j].tape != h.tape
    requires forall j :: 0 <= j < |held| ==> held[j].slices != []
    ensures forall i, j :: 0 <= i < j < |held| ==> NamedBefore(seen + [h], held[i].tape, held[j].tape)
    ensures k == |held| ==> forall i :: 0 <= i < |held| ==> NamedBefore(seen + [h], held[i].tape, h.tape)
  {
    forall i, j | 0 <= i < j < |held| ensures NamedBefore(seen + [h], held[i].tape, held[j].tape) {
      NamedStillBefore(seen, h, held[i].tape, held[j].tape);
    }
    if k == |held| {
      forall q | 0 <= q < |seen| ensures seen[q].tape != h.tape {
        assert Holding(seen[q].tape, seen[q].slice) in seen;
      }
      forall i | 0 <= i < |held| ensures NamedBefore(seen + [h], held[i].tape, h.tape) {
        assert HoldsSlice(held[i], held[i].tape, held[i].slices[0]);
        assert Holding(held[i].tape, held[i].slices[0]) in seen;
        var p :| 0 <= p < |seen| && seen[p] == Holding(held[i].tape, held[i].slices[0]);
        NamedStillBefore(seen, h, held[i].tape, h.tape);
      }
    }
  }

  lemma NoneGrouped()
    ensures Grouped([], [])
  {
  }

  lemma GroupStep(held: seq<Holder>, seen: seq<Holding>, h: Holding, k: nat)
    requires Grouped(held, seen) && k <= |held|
    requires forall j :: 0 <= j < k ==> held[j].tape != h.tape
    requires k < |held| ==> held[k].tape == h.tape
    ensures var next := if k < |held| then held[k := Holder(h.tape, held[k].slices + [h.slice])]
                        else held + [Holder(h.tape, [h.slice])];
      Grouped(next, seen + [h])
  {
    var next := if k < |held| then held[k := Holder(h.tape, held[k].slices + [h.slice])]
                else held + [Holder(h.tape, [h.slice])];
    forall t, n
      ensures Holding(t, n) in seen + [h] <==> exists j :: 0 <= j < |next| && HoldsSlice(next[j], t, n)
    {
      if Holding(t, n) in seen {
        var j :| 0 <= j < |held| && HoldsSlice(held[j], t, n);
        assert HoldsSlice(next[j], t, n);
      } else if Holding(t, n) == h {
        assert HoldsSlice(next[k], t, n);
      }
      if j :| 0 <= j < |next| && HoldsSlice(next[j], t, n) {
        if j < |held| && HoldsSlice(held[j], t, n) {
          assert Holding(t, n) in seen;
        }
      }
    }
  }

  /** The holdings tape by tape, in the order each tape is first named. */
  method GroupHoldings(holdings: seq<Holding>) returns (held: seq<Holder>)
    ensures Grouped(held, holdings) && InOrderNamed(held, holdings)
  {
    hide Grouped, NamedBefore;
    held := [];
    assert Grouped(held, []) by { NoneGrouped(); }
    for i := 0 to |holdings|
      invariant Grouped(held, holdings[..i]) && InOrderNamed(held, holdings[..i])
      invariant forall j :: 0 <= j < |held| ==> held[j].slices != []
    {
      assert holdings[..i + 1] == holdings[..i] + [holdings[i]];
      var h := holdings[i];
      var k := 0;
      while k < |held| && held[k].tape != h.tape
        invariant k <= |held| && forall j :: 0 <= j < k ==> held[j].tape != h.tape
      {
        k := k + 1;
      }
      GroupStep(held, holdings[..i], h, k);
      OrderStep(held, holdings[..i], h, k);
      if k < |held| {
        held := held[k := Holder(h.tape, held[k].slices + [h.slice])];
      } else {
        held := held + [Holder(h.tape, [h.slice])];
      }
    }
    assert holdings[..|holdings|] == holdings;
  }

  // ----- one stage set

  function Count(left: seq<int>, slices: seq<int>): (n: nat) {
    if left == [] then 0 else (if left[0] in slices then 1 else 0) + Count(left[1..], slices)
  }

  function Keep(left: seq<int>, slices: seq<int>, which: bool): (r: seq<int>)
    ensures |r| <= |left|
  {
    if left == [] then []
    else (if (left[0] in slices) == which then [left[0]] else []) + Keep(left[1..], slices, which)
  }

  /** The count is of the slices left that are held. */
  lemma {:induction false} CountIsKept(left: seq<int>, slices: seq<int>)
    ensures Count(left, slices) == |Keep(left, slices, true)|
  {
    if left != [] {
      CountIsKept(left[1..], slices);
    }
  }

  lemma {:induction false} KeepMembers(left: seq<int>, slices: seq<int>, which: bool)
    ensures forall n :: n in Keep(left, slices, which) <==> n in left && ((n in slices) == which)
  {
    if left != [] {
      KeepMembers(left[1..], slices, which);
      assert left == [left[0]] + left[1..];
    }
  }

  lemma {:induction false} KeepAscending(left: seq<int>, slices: seq<int>, which: bool)
    requires Ascending(left)
    ensures Ascending(Keep(left, slices, which))
  {
    if left != [] {
      var rest := Keep(left[1..], slices, which);
      KeepAscending(left[1..], slices, which);
      KeepMembers(left[1..], slices, which);
      assert Keep(left, slices, which) == (if (left[0] in slices) == which then [left[0]] else []) + rest;
      hide Keep;
      forall j | 0 <= j < |rest| ensures left[0] < rest[j] {
        assert rest[j] in rest && rest[j] in left[1..];
      }
    }
  }

  /** An ascending list is no longer than one that holds all of it. */
  lemma {:induction false} AscendingWithin(a: seq<int>, b: seq<int>)
    requires Ascending(a) && forall n :: n in a ==> n in b
    ensures |a| <= |b|
  {
    if a != [] {
      var last := a[|a| - 1];
      assert last in a;
      var i :| 0 <= i < |b| && b[i] == last;
      var rest := b[..i] + b[i + 1..];
      forall n | n in a[..|a| - 1] ensures n in rest {
        assert n in b && n != last;
      }
      AscendingWithin(a[..|a| - 1], rest);
    }
  }

  /** The slices a holder gives and those it does not are together the slices left. */
  lemma {:induction false} KeepSplits(left: seq<int>, slices: seq<int>)
    ensures multiset(left) == multiset(Keep(left, slices, true)) + multiset(Keep(left, slices, false))
  {
    if left != [] {
      var x, rest := left[0], left[1..];
      KeepSplits(rest, slices);
      assert left == [x] + rest;
      assert multiset(left) == multiset{x} + multiset(rest);
      var yes, no := Keep(rest, slices, true), Keep(rest, slices, false);
      assert Keep(left, slices, true) == if x in slices then [x] + yes else yes;
      assert Keep(left, slices, false) == if x in slices then no else [x] + no;
      hide Keep;
      assert multiset([x] + yes) == multiset{x} + multiset(yes) && multiset([x] + no) == multiset{x} + multiset(no);
    }
  }

  /** Holder k holds the lowest slice left, as many of those left as any other that does, and is the first so. */
  ghost predicate Greedy(held: seq<Holder>, left: seq<int>, k: int) {
    && 0 <= k < |held| && left != [] && left[0] in held[k].slices
    && forall j :: 0 <= j < |held| && left[0] in held[j].slices ==>
         Count(left, held[j].slices) < Count(left, held[k].slices)
         || (Count(left, held[j].slices) == Count(left, held[k].slices) && k <= j)
  }

  ghost predicate GreedyStep(c: Command, held: seq<Holder>, before: seq<int>, k: int, left: seq<int>) {
    && Greedy(held, before, k)
    && c.tape == held[k].tape && c.slices == Keep(before, held[k].slices, true)
    && left == Keep(before, held[k].slices, false)
  }

  /** No tape with the lowest slice left gives more of those left than the command reads, and none before it as many. */
  lemma GreedyReadsMost(c: Command, held: seq<Holder>, before: seq<int>, k: int, left: seq<int>, j: int, given: seq<int>)
    requires GreedyStep(c, held, before, k, left)
    requires 0 <= j < |held| && before[0] in held[j].slices
    requires Ascending(before) && Ascending(given) && forall n :: n in given ==> n in before && n in held[j].slices
    ensures |given| <= |c.slices| && (j < k ==> |given| < |c.slices|)
  {
    CountIsKept(before, held[j].slices);
    CountIsKept(before, held[k].slices);
    KeepMembers(before, held[j].slices, true);
    KeepAscending(before, held[j].slices, true);
    AscendingWithin(given, Keep(before, held[j].slices, true));
  }

  ghost predicate ChosenGreedily(c: Command, held: seq<Holder>, before: seq<int>, left: seq<int>) {
    exists k :: GreedyStep(c, held, before, k, left)
  }

  /** Each command was the greedy choice for the slices left before it; `lefts` are those, step by step. */
  ghost predicate GreedyRun(commands: seq<Command>, held: seq<Holder>, lefts: seq<seq<int>>) {
    && |lefts| == |commands| + 1
    && forall i :: 0 <= i < |commands| ==> ChosenGreedily(commands[i], held, lefts[i], lefts[i + 1])
  }

  method BestHolder(held: seq<Holder>, left: seq<int>) returns (k: int)
    requires left != []
    ensures k >= 0 ==> Greedy(held, left, k)
    ensures k < 0 ==> forall j :: 0 <= j < |held| ==> left[0] !in held[j].slices
  {
    k := -1;
    for i := 0 to |held|
      invariant k < i
      invariant k >= 0 ==> Greedy(held[..i], left, k)
      invariant k < 0 ==> forall j :: 0 <= j < i ==> left[0] !in held[j].slices
    {
      assert forall j :: 0 <= j < i ==> held[..i + 1][j] == held[..i][j];
      if left[0] in held[i].slices && (k < 0 || Count(left, held[i].slices) > Count(left, held[k].slices)) {
        k := i;
      }
    }
    assert held[..|held|] == held;
  }

  /** Every command reads the version asked for. */
  ghost predicate AllOf(commands: seq<Command>, unit: string, version: int) {
    forall i :: 0 <= i < |commands| ==> commands[i].unit == unit && commands[i].version == version
  }

  lemma GreedyShrinks(held: seq<Holder>, left: seq<int>, k: int)
    requires Greedy(held, left, k)
    ensures 0 <= k < |held| && |Keep(left, held[k].slices, false)| < |left|
  {
    KeepSplits(left, held[k].slices);
    KeepMembers(left, held[k].slices, true);
    assert left[0] in Keep(left, held[k].slices, true);
    assert |multiset(left)| == |left|;
  }

  /** Cover the slices tape by tape; what is left is what no tape holds. */
  method CoverSet(unit: string, version: int, held: seq<Holder>, slices: seq<int>)
    returns (commands: seq<Command>, left: seq<int>, ghost lefts: seq<seq<int>>)
    ensures AllOf(commands, unit, version)
    ensures GreedyRun(commands, held, lefts) && lefts[0] == slices && lefts[|commands|] == left
    ensures left != [] ==> forall j :: 0 <= j < |held| ==> left[0] !in held[j].slices
  {
    left, commands := slices, [];
    lefts := [slices];
    while left != []
      invariant GreedyRun(commands, held, lefts) && lefts[0] == slices && lefts[|commands|] == left
      invariant AllOf(commands, unit, version)
      decreases |left|
    {
      hide Greedy, Count, Keep;
      var k := BestHolder(held, left);
      if k < 0 {
        return;
      }
      GreedyShrinks(held, left, k);
      var c := Command(held[k].tape, unit, version, Keep(left, held[k].slices, true));
      var rest := Keep(left, held[k].slices, false);
      assert GreedyStep(c, held, left, k, rest);
      assert ChosenGreedily(c, held, left, rest);
      commands, left, lefts := commands + [c], rest, lefts + [rest];
    }
  }

  // ----- what the commands are

  ghost function AllSlices(commands: seq<Command>): multiset<int> {
    if commands == [] then multiset{} else AllSlices(commands[..|commands| - 1]) + multiset(commands[|commands| - 1].slices)
  }

  ghost predicate OnItsTape(c: Command, held: seq<Holder>) {
    && c.slices != [] && Ascending(c.slices)
    && exists k :: 0 <= k < |held| && held[k].tape == c.tape && forall n :: n in c.slices ==> n in held[k].slices
  }

  /** No slice left is on the tape. */
  ghost predicate UsedUp(tape: string, held: seq<Holder>, left: seq<int>) {
    forall k, n :: 0 <= k < |held| && held[k].tape == tape && n in left ==> n !in held[k].slices
  }

  lemma StepDivides(c: Command, held: seq<Holder>, before: seq<int>, k: int, left: seq<int>)
    requires GreedyStep(c, held, before, k, left) && Ascending(before) && DistinctTapes(held)
    ensures Ascending(left) && OnItsTape(c, held) && UsedUp(c.tape, held, left)
    ensures multiset(c.slices) + multiset(left) == multiset(before)
    ensures forall n :: n in left ==> n in before
    ensures forall tape :: UsedUp(tape, held, before) ==> tape != c.tape
  {
    KeepMembers(before, held[k].slices, true);
    KeepMembers(before, held[k].slices, false);
    KeepAscending(before, held[k].slices, true);
    KeepAscending(before, held[k].slices, false);
    KeepSplits(before, held[k].slices);
    hide Keep, Count;
    assert before[0] in c.slices;
    assert before[0] in before && before[0] in held[k].slices;
  }

  /** The first m commands and what they leave divide the set's slices; each command's slices are on
      its tape, and no tape already used holds a slice still left. */
  lemma {:induction false} GreedyRunDivides(commands: seq<Command>, held: seq<Holder>, lefts: seq<seq<int>>, m: nat)
    requires GreedyRun(commands, held, lefts) && Ascending(lefts[0]) && DistinctTapes(held) && m <= |commands|
    ensures Ascending(lefts[m])
    ensures AllSlices(commands[..m]) + multiset(lefts[m]) == multiset(lefts[0])
    ensures forall i :: 0 <= i < m ==> OnItsTape(commands[i], held) && UsedUp(commands[i].tape, held, lefts[m])
    ensures forall i, j :: 0 <= i < j < m ==> commands[i].tape != commands[j].tape
  {
    if m > 0 {
      GreedyRunDivides(commands, held, lefts, m - 1);
      var c, before, left := commands[m - 1], lefts[m - 1], lefts[m];
      assert ChosenGreedily(c, held, before, left);
      var k :| GreedyStep(c, held, before, k, left);
      StepDivides(c, held, before, k, left);
      assert commands[..m][..m - 1] == commands[..m - 1];
      forall i | 0 <= i < m - 1 ensures commands[i].tape != c.tape && UsedUp(commands[i].tape, held, left) {
        assert UsedUp(commands[i].tape, held, before);
      }
    }
  }

  ghost predicate Held(slice: int, held: seq<Holder>) {
    exists k :: 0 <= k < |held| && slice in held[k].slices
  }

  lemma {:induction false} InSomeCommand(commands: seq<Command>, n: int) returns (i: nat)
    requires n in AllSlices(commands)
    ensures i < |commands| && n in commands[i].slices
  {
    var last := |commands| - 1;
    if n in commands[last].slices {
      i := last;
    } else {
      assert n !in multiset(commands[last].slices);
      i := InSomeCommand(commands[..last], n);
    }
  }

  /** The greedy cover finishes exactly when every slice is held by some tape. */
  lemma FinishesIffHeld(commands: seq<Command>, held: seq<Holder>, lefts: seq<seq<int>>)
    requires GreedyRun(commands, held, lefts) && Ascending(lefts[0]) && DistinctTapes(held)
    requires var left := lefts[|commands|];
      left != [] ==> forall j :: 0 <= j < |held| ==> left[0] !in held[j].slices
    ensures lefts[|commands|] == [] <==> forall n :: n in lefts[0] ==> Held(n, held)
  {
    var slices, left := lefts[0], lefts[|commands|];
    GreedyRunDivides(commands, held, lefts, |commands|);
    assert commands[..|commands|] == commands;
    if left == [] {
      forall n | n in slices ensures Held(n, held) {
        assert n in multiset(slices);
        assert AllSlices(commands) == multiset(slices);
        var i := InSomeCommand(commands, n);
        assert OnItsTape(commands[i], held);
      }
    } else {
      assert left[0] in multiset(left);
      assert left[0] in multiset(slices);
      assert left[0] in slices && !Held(left[0], held);
    }
  }

  // ----- the version

  ghost predicate HeldWhole(s: StageSet) {
    s.slices != [] && forall n :: n in s.slices ==> exists t :: Holding(t, n) in s.holdings
  }

  /** The commands read every slice of the set once, each from a tape that holds it, one command a tape. */
  ghost predicate ReadsWhole(commands: seq<Command>, s: StageSet) {
    && AllSlices(commands) == multiset(s.slices)
    && (forall i :: 0 <= i < |commands| ==> commands[i].slices != [] && Ascending(commands[i].slices))
    && (forall i, n :: 0 <= i < |commands| && n in commands[i].slices ==> Holding(commands[i].tape, n) in s.holdings)
    && (forall i, j :: 0 <= i < j < |commands| ==> commands[i].tape != commands[j].tape)
  }

  lemma HeldMeaning(held: seq<Holder>, s: StageSet)
    requires Grouped(held, s.holdings) && s.slices != []
    ensures HeldWhole(s) <==> forall n :: n in s.slices ==> Held(n, held)
  {
    if HeldWhole(s) {
      forall n | n in s.slices ensures Held(n, held) {
        var t :| Holding(t, n) in s.holdings;
        var k :| 0 <= k < |held| && HoldsSlice(held[k], t, n);
      }
    }
    forall n | n in s.slices && Held(n, held) ensures exists t :: Holding(t, n) in s.holdings {
      var k :| 0 <= k < |held| && n in held[k].slices;
      assert HoldsSlice(held[k], held[k].tape, n);
      assert Holding(held[k].tape, n) in s.holdings;
    }
  }

  lemma ReadsWholeWhenDone(commands: seq<Command>, held: seq<Holder>, lefts: seq<seq<int>>, s: StageSet)
    requires Grouped(held, s.holdings) && Ascending(s.slices)
    requires GreedyRun(commands, held, lefts) && lefts[0] == s.slices && lefts[|commands|] == []
    ensures ReadsWhole(commands, s)
  {
    GreedyRunDivides(commands, held, lefts, |commands|);
    hide GreedyRun;
    assert commands[..|commands|] == commands;
    forall i, n | 0 <= i < |commands| && n in commands[i].slices ensures Holding(commands[i].tape, n) in s.holdings {
      assert OnItsTape(commands[i], held);
      var k :| 0 <= k < |held| && held[k].tape == commands[i].tape && forall m :: m in commands[i].slices ==> m in held[k].slices;
      assert HoldsSlice(held[k], commands[i].tape, n);
    }
    forall i | 0 <= i < |commands| ensures commands[i].slices != [] && Ascending(commands[i].slices) {
      assert OnItsTape(commands[i], held);
    }
  }

  lemma EmptySet(s: StageSet)
    ensures s.slices == [] ==> !HeldWhole(s)
  {
  }

  lemma RunHasLefts(commands: seq<Command>, held: seq<Holder>, lefts: seq<seq<int>>)
    requires GreedyRun(commands, held, lefts)
    ensures |lefts| == |commands| + 1
  {
  }

  lemma GroupedTapes(held: seq<Holder>, holdings: seq<Holding>)
    requires Grouped(held, holdings)
    ensures DistinctTapes(held)
  {
  }

  /** The first stage set, in id order, that live tapes hold whole: its commands, and its bytes. */
  method ReadBackVersion(unit: string, version: int, sets: seq<StageSet>) returns (r: Option<(seq<Command>, nat)>, ghost which: nat)
    requires forall i :: 0 <= i < |sets| ==> Ascending(sets[i].slices)
    ensures r.None? <==> forall i :: 0 <= i < |sets| ==> !HeldWhole(sets[i])
    ensures r.Some? ==>
      && which < |sets| && HeldWhole(sets[which]) && ReadsWhole(r.value.0, sets[which])
      && AllOf(r.value.0, unit, version) && r.value.1 == sets[which].paddedBytes
      && forall i :: 0 <= i < which ==> !HeldWhole(sets[i])
  {
    hide HeldWhole, ReadsWhole, Grouped, GreedyRun, Ascending, DistinctTapes, Held;
    which := 0;
    for i := 0 to |sets|
      invariant forall j :: 0 <= j < i ==> !HeldWhole(sets[j])
    {
      if sets[i].slices == [] {
        EmptySet(sets[i]);
        continue;
      }
      var held := GroupHoldings(sets[i].holdings);
      GroupedTapes(held, sets[i].holdings);
      var commands, left, lefts := CoverSet(unit, version, held, sets[i].slices);
      RunHasLefts(commands, held, lefts);
      FinishesIffHeld(commands, held, lefts);
      HeldMeaning(held, sets[i]);
      if left == [] {
        ReadsWholeWhenDone(commands, held, lefts, sets[i]);
        return Some((commands, sets[i].paddedBytes)), i;
      }
    }
    r := None;
  }
}
