/** `stage for-location`: what one tape for a location takes, and that its write takes the same. */
module ForLocation {
  import opened Common
  import opened Placement
  import opened ReadBack

  // ----- the candidates and their order

  datatype Need = ForTarget(target: int, copiesHere: int, copies: int) | ForFloor(copies: int) | NoNeed

  datatype Candidate = Candidate(
    unit: string, version: Option<int>, need: Need, continuesSpan: bool,
    class_: PlanClass, bytes: nat, how: How)

  /** Where the bytes of a candidate come from. */
  datatype How = AlreadyStaged(stageSet: int) | Snapshotted | StagedAgain(snapshot: int) | ReadFromTape(commands: seq<Command>)

  const I64_MAX: int := 0x7fff_ffff_ffff_ffff

  /** The sort key, compared left to right: class, group, how far short, copies, unit name, newest version. */
  datatype Key = Key(rank: int, group: int, short: int, copies: int, unit: string, version: int)

  function KeyOf(c: Candidate): Key {
    var (group, short, copies) :=
      if c.continuesSpan then (0, 0, 0)
      else match c.need
           case ForTarget(target, here, copies) => (1, here - target, copies)
           case ForFloor(copies) => (2, 0, copies)
           case NoNeed => (3, 0, 0);
    Key(ClassRank(c.class_), group, short, copies, c.unit, -(if c.version.Some? then c.version.value else I64_MAX))
  }

  predicate KeyLeq(a: Key, b: Key) {
    if a.rank != b.rank then a.rank < b.rank
    else if a.group != b.group then a.group < b.group
    else if a.short != b.short then a.short < b.short
    else if a.copies != b.copies then a.copies < b.copies
    else if a.unit != b.unit then Leq(a.unit, b.unit)
    else a.version <= b.version
  }

  /** The order is total and transitive, and two candidates tie only on the whole key. */
  lemma KeyLeqLaws(a: Key, b: Key, c: Key)
    ensures KeyLeq(a, b) || KeyLeq(b, a)
    ensures KeyLeq(a, b) && KeyLeq(b, a) ==> a == b
    ensures KeyLeq(a, b) && KeyLeq(b, c) ==> KeyLeq(a, c)
  {
    hide Leq;
    LeqLaws(a.unit, b.unit, c.unit);
  }

  ghost predicate InOrder(s: seq<Candidate>) {
    forall i, j :: 0 <= i < j < |s| ==> KeyLeq(KeyOf(s[i]), KeyOf(s[j]))
  }

  /** Which of a, b goes first by what each needs, as each says it itself. */
  ghost predicate NeedsFirst(a: Candidate, b: Candidate) {
    && (b.continuesSpan ==> a.continuesSpan)
    && (!a.continuesSpan && !b.continuesSpan ==>
          match b.need
          case ForTarget(target, here, copies) =>
            a.need.ForTarget? && a.need.target - a.need.copiesHere >= target - here
            && (a.need.target - a.need.copiesHere == target - here ==> a.need.copies <= copies)
          case ForFloor(copies) => a.need.ForTarget? || (a.need.ForFloor? && a.need.copies <= copies)
          case NoNeed => true)
  }

  /** Each is as needed as the other. */
  ghost predicate NeedAlike(a: Candidate, b: Candidate) {
    NeedsFirst(a, b) && NeedsFirst(b, a)
  }

  /** What the order means: owed runs, then whole units, then sets that may span; in each a span that continues, then
      units short of a target here, the most short first and then those with the fewest copies, then units short of
      copies in all, the fewest first, then the rest; then by name, and the newest version first, one not yet made newest of all. */
  ghost predicate RightlyBefore(a: Candidate, b: Candidate) {
    && !(a.class_ == Whole && b.class_ == Owed) && (a.class_ == Spannable ==> b.class_ == Spannable)
    && (a.class_ == b.class_ ==>
          && NeedsFirst(a, b)
          && (NeedAlike(a, b) ==> Leq(a.unit, b.unit))
          && (NeedAlike(a, b) && a.unit == b.unit ==>
                match (a.version, b.version)
                case (Some(v), Some(w)) => v >= w
                case (Some(v), None) => v >= I64_MAX
                case (None, Some(w)) => I64_MAX >= w
                case (None, None) => true))
  }

  lemma KeyMeaning(a: Candidate, b: Candidate)
    ensures KeyLeq(KeyOf(a), KeyOf(b)) <==> RightlyBefore(a, b)
  {
    hide Leq;
    LeqLaws(a.unit, b.unit, a.unit);
    LeqLaws(a.unit, a.unit, a.unit);
  }

  lemma OrderMeaning(s: seq<Candidate>)
    ensures InOrder(s) <==> forall i, j :: 0 <= i < j < |s| ==> RightlyBefore(s[i], s[j])
  {
    hide KeyLeq, KeyOf, RightlyBefore;
    forall i, j | 0 <= i < j < |s| ensures KeyLeq(KeyOf(s[i]), KeyOf(s[j])) <==> RightlyBefore(s[i], s[j]) {
      KeyMeaning(s[i], s[j]);
    }
  }

  /** The candidates with one key, in the order given. */
  function WithKey(s: seq<Candidate>, k: Key): seq<Candidate> {
    if s == [] then []
    else WithKey(s[..|s| - 1], k) + if KeyOf(s[|s| - 1]) == k then [s[|s| - 1]] else []
  }

  /** Candidate i is in its key's list behind those of its key before it: the list is they all, as given. */
  lemma {:induction false} WithKeyMeaning(s: seq<Candidate>, k: Key)
    ensures forall i :: 0 <= i < |s| && KeyOf(s[i]) == k ==>
      |WithKey(s[..i], k)| < |WithKey(s, k)| && WithKey(s, k)[|WithKey(s[..i], k)|] == s[i]
    ensures forall c :: multiset(WithKey(s, k))[c] == if KeyOf(c) == k then multiset(s)[c] else 0
  {
    hide KeyOf;
    if s != [] {
      var n := |s| - 1;
      WithKeyMeaning(s[..n], k);
      assert s == s[..n] + [s[n]];
      forall i | 0 <= i < n && KeyOf(s[i]) == k
        ensures |WithKey(s[..i], k)| < |WithKey(s, k)| && WithKey(s, k)[|WithKey(s[..i], k)|] == s[i]
      {
        assert s[..n][..i] == s[..i];
      }
    }
  }

  lemma {:induction false} WithKeyJoins(a: seq<Candidate>, b: seq<Candidate>, k: Key)
    ensures WithKey(a + b, k) == WithKey(a, k) + WithKey(b, k)
  {
    hide KeyOf;
    if b == [] {
      assert a + b == a;
    } else {
      WithKeyJoins(a, b[..|b| - 1], k);
      assert (a + b)[..|a + b| - 1] == a + b[..|b| - 1];
    }
  }

  lemma {:induction false} WithKeyNone(s: seq<Candidate>, k: Key)
    requires forall i :: 0 <= i < |s| ==> KeyOf(s[i]) != k
    ensures WithKey(s, k) == []
  {
    if s != [] {
      WithKeyNone(s[..|s| - 1], k);
    }
  }

  lemma AllAfter(r: seq<Candidate>, i: nat, c: Candidate)
    requires InOrder(r) && i < |r| && !KeyLeq(KeyOf(r[i]), KeyOf(c))
    ensures forall j :: i <= j < |r| ==> !KeyLeq(KeyOf(r[j]), KeyOf(c))
  {
    hide KeyOf, KeyLeq;
    forall j | i <= j < |r| ensures !KeyLeq(KeyOf(r[j]), KeyOf(c)) {
      KeyLeqLaws(KeyOf(r[i]), KeyOf(r[j]), KeyOf(c));
    }
  }

  lemma Inserted(r: seq<Candidate>, i: nat, c: Candidate)
    requires InOrder(r) && i <= |r| && (i > 0 ==> KeyLeq(KeyOf(r[i - 1]), KeyOf(c)))
    requires forall j :: i <= j < |r| ==> !KeyLeq(KeyOf(r[j]), KeyOf(c))
    ensures InOrder(r[..i] + [c] + r[i..])
  {
    hide KeyOf, KeyLeq;
    forall j | 0 <= j < i ensures KeyLeq(KeyOf(r[j]), KeyOf(c)) {
      KeyLeqLaws(KeyOf(r[j]), KeyOf(r[i - 1]), KeyOf(c));
    }
    forall j | i <= j < |r| ensures KeyLeq(KeyOf(c), KeyOf(r[j])) {
      KeyLeqLaws(KeyOf(c), KeyOf(r[j]), KeyOf(c));
    }
    var t := r[..i] + [c] + r[i..];
    assert forall j :: 0 <= j < |t| ==> t[j] == if j < i then r[j] else if j == i then c else r[j - 1];
  }

  lemma InsertedKey(r: seq<Candidate>, i: nat, c: Candidate, k: Key)
    requires i <= |r| && forall j :: i <= j < |r| ==> !KeyLeq(KeyOf(r[j]), KeyOf(c))
    ensures WithKey(r[..i] + [c] + r[i..], k) == WithKey(r, k) + WithKey([c], k)
  {
    hide KeyOf, KeyLeq, WithKey;
    assert r == r[..i] + r[i..];
    WithKeyJoins(r[..i], r[i..], k);
    WithKeyJoins(r[..i] + [c], r[i..], k);
    WithKeyJoins(r[..i], [c], k);
    if k == KeyOf(c) {
      KeyLeqLaws(k, k, k);
      assert forall j :: 0 <= j < |r[i..]| ==> r[i..][j] == r[i + j];
      WithKeyNone(r[i..], k);
    } else {
      WithKeyNone([c], k);
    }
  }

  /** A stable sort by key. */
  method SortByKey(s: seq<Candidate>) returns (r: seq<Candidate>)
    ensures InOrder(r) && multiset(r) == multiset(s)
    ensures forall k :: WithKey(r, k) == WithKey(s, k)
  {
    hide KeyOf, KeyLeq, WithKey;
    r := [];
    for x := 0 to |s|
      invariant InOrder(r) && multiset(r) == multiset(s[..x])
      invariant forall k :: WithKey(r, k) == WithKey(s[..x], k)
    {
      var c := s[x];
      var i := |r|;
      while i > 0 && !KeyLeq(KeyOf(r[i - 1]), KeyOf(c))
        invariant 0 <= i <= |r|
        invariant forall j :: i <= j < |r| ==> !KeyLeq(KeyOf(r[j]), KeyOf(c))
      {
        i := i - 1;
        AllAfter(r, i, c);
      }
      Inserted(r, i, c);
      ghost var was := r;
      r := r[..i] + [c] + r[i..];
      assert s[..x + 1] == s[..x] + [c];
      assert was == was[..i] + was[i..];
      forall k ensures WithKey(r, k) == WithKey(s[..x + 1], k) {
        InsertedKey(was, i, c, k);
        WithKeyJoins(s[..x], [c], k);
      }
    }
    assert s[..|s|] == s;
  }

  // ----- the plan

  function Items(s: seq<Candidate>): (items: seq<PlanItem>)
    ensures |items| == |s|
  {
    seq(|s|, i requires 0 <= i < |s| => PlanItem(s[i].class_, s[i].bytes))
  }

  lemma ItemsAppended(s: seq<Candidate>, c: Candidate)
    ensures Items(s + [c]) == Items(s) + [PlanItem(c.class_, c.bytes)]
  {
  }

  /** Each unit added after the first `n` left everything planned so far on the tape. */
  ghost predicate AddedWhileFitting(b: Budget, planned: seq<Candidate>, n: nat) {
    forall m :: n < m <= |planned| ==> Fits(b, 0, Items(planned[..m]))
  }

  lemma OneMoreFits(b: Budget, planned: seq<Candidate>, n: nat, c: Candidate)
    requires AddedWhileFitting(b, planned, n) && Fits(b, 0, Items(planned + [c]))
    ensures AddedWhileFitting(b, planned + [c], n)
  {
    hide Fits, Items;
    var more := planned + [c];
    forall m | n < m <= |more| ensures Fits(b, 0, Items(more[..m])) {
      assert more[..m] == if m <= |planned| then planned[..m] else more;
    }
  }

  predicate EveryUnitOnThisTape(placed: seq<Placed>)
    ensures EveryUnitOnThisTape(placed) <==> AllOnTape(placed)
  {
    forall p :: p in placed ==> OnTape(p)
  }

  /** The riding sets the tape cannot hold. */
  function Overflow(riding: seq<Candidate>, placed: seq<Placed>): (r: seq<Candidate>)
    requires |riding| == |placed|
    ensures r == [] <==> AllOnTape(placed)
  {
    if riding == [] then []
    else
      var n := |riding| - 1;
      Overflow(riding[..n], placed[..n]) + if OnTape(placed[n]) then [] else [riding[n]]
  }

  /** The overflow is the riding sets that the placement of all of them defers or refuses. */
  ghost predicate OverflowOf(b: Budget, riding: seq<Candidate>, overflow: seq<Candidate>) {
    exists p, placed :: PlacedBy(b, 0, Items(riding), p, placed) && |placed| == |riding| && overflow == Overflow(riding, placed)
  }

  /** A set left off stands in the overflow behind those left off before it. */
  lemma {:induction false} OverflowHas(riding: seq<Candidate>, placed: seq<Placed>, i: nat)
    requires i < |riding| == |placed| && !OnTape(placed[i])
    ensures |Overflow(riding[..i], placed[..i])| < |Overflow(riding, placed)|
    ensures Overflow(riding, placed)[|Overflow(riding[..i], placed[..i])|] == riding[i]
    decreases |riding|
  {
    var n := |riding| - 1;
    if i < n {
      OverflowHas(riding[..n], placed[..n], i);
      assert riding[..n][..i] == riding[..i] && placed[..n][..i] == placed[..i];
    }
  }

  /** And nothing else stands there. */
  lemma {:induction false} OverflowOnly(riding: seq<Candidate>, placed: seq<Placed>, k: nat) returns (i: nat)
    requires |riding| == |placed| && k < |Overflow(riding, placed)|
    ensures i < |riding| && !OnTape(placed[i]) && |Overflow(riding[..i], placed[..i])| == k
    decreases |riding|
  {
    var n := |riding| - 1;
    if k < |Overflow(riding[..n], placed[..n])| {
      i := OverflowOnly(riding[..n], placed[..n], k);
      assert riding[..n][..i] == riding[..i] && placed[..n][..i] == placed[..i];
    } else {
      i := n;
    }
  }

  lemma OverflowShown(b: Budget, riding: seq<Candidate>, placed: seq<Placed>)
    requires |placed| == |riding| && exists p :: PlacedBy(b, 0, Items(riding), p, placed)
    ensures OverflowOf(b, riding, Overflow(riding, placed))
  {
    hide PlacedBy, Overflow, Items;
  }

  lemma NoneAdded(b: Budget, riding: seq<Candidate>)
    ensures AddedWhileFitting(b, riding, |riding|)
  {
  }

  lemma ItemsLength(s: seq<Candidate>)
    ensures |Items(s)| == |s|
  {
  }

  /** Next-fit: the riding sets, then units to stage while every unit planned is on this tape. */
  method PackTape(b: Budget, riding: seq<Candidate>, toStage: seq<Candidate>)
    returns (planned: seq<Candidate>, waiting: seq<Candidate>, overflow: seq<Candidate>)
    ensures planned + waiting == riding + toStage && riding <= planned
    ensures OverflowOf(b, riding, overflow) && (overflow == [] <==> Fits(b, 0, Items(riding)))
    ensures AddedWhileFitting(b, planned, |riding|)
    ensures overflow != [] ==> planned == riding
    ensures waiting != [] && overflow == [] ==> !Fits(b, 0, Items(planned + [waiting[0]]))
  {
    hide Fits, Items, AddedWhileFitting, PlacedBy, AllOnTape, EveryUnitOnThisTape, Overflow, OverflowOf, IsOrder;
    var items := Items(riding);
    ItemsLength(riding);
    var _, ridingPlaced, _ := Place(b, 0, items);
    overflow := Overflow(riding, ridingPlaced);
    OverflowShown(b, riding, ridingPlaced);
    planned, waiting := riding, [];
    var closed := overflow != [];
    assert AddedWhileFitting(b, riding, |riding|) by { NoneAdded(b, riding); }
    ghost var cut := 0;  // how many of the units to stage are planned
    for i := 0 to |toStage|
      invariant cut <= i && (!closed ==> cut == i && items == Items(planned))
      invariant planned == riding + toStage[..cut] && waiting == toStage[cut..i]
      invariant overflow != [] ==> closed && cut == 0
      invariant AddedWhileFitting(b, planned, |riding|)
      invariant closed && overflow == [] ==> cut < i && !Fits(b, 0, Items(planned + [toStage[cut]]))
    {
      var c := toStage[i];
      if !closed {
        items := items + [PlanItem(c.class_, c.bytes)];
        ItemsAppended(planned, c);
        var _, placed, _ := Place(b, 0, items);
        if EveryUnitOnThisTape(placed) {
          OneMoreFits(b, planned, |riding|, c);
          assert riding + toStage[..i] + [c] == riding + toStage[..i + 1];
          planned := planned + [c];
          cut := i + 1;
          continue;
        }
        items, closed := items[..|items| - 1], true;
      }
      assert toStage[cut..i + 1] == toStage[cut..i] + [c];
      waiting := waiting + [c];
    }
    assert toStage == toStage[..cut] + toStage[cut..];
  }

  /** The plan of one tape: riding sets first whatever their priority, then the units to stage by priority. */
  method PlanTape(b: Budget, riding: seq<Candidate>, toStage: seq<Candidate>)
    returns (planned: seq<Candidate>, waiting: seq<Candidate>, overflow: seq<Candidate>)
    ensures multiset(planned + waiting) == multiset(riding) + multiset(toStage)
    ensures |riding| <= |planned| && multiset(planned[..|riding|]) == multiset(riding) && InOrder(planned[..|riding|])
    ensures InOrder(planned[|riding|..] + waiting)
    ensures AddedWhileFitting(b, planned, |riding|)
    ensures OverflowOf(b, planned[..|riding|], overflow) && (overflow == [] <==> Fits(b, 0, Items(planned[..|riding|])))
    ensures overflow != [] ==> |planned| == |riding|
    ensures waiting != [] && overflow == [] ==> !Fits(b, 0, Items(planned + [waiting[0]]))
  {
    hide Fits, Items, AddedWhileFitting, InOrder, WithKey, OverflowOf;
    var first := SortByKey(riding);
    var second := SortByKey(toStage);
    planned, waiting, overflow := PackTape(b, first, second);
    assert |multiset(first)| == |first| && |multiset(riding)| == |riding|;
    assert planned[..|first|] == first;
    assert planned[|first|..] + waiting == second by {
      assert planned == first + planned[|first|..];
      assert (first + second)[|first|..] == second;
      assert (planned + waiting)[|first|..] == planned[|first|..] + waiting;
    }
  }

  // ----- what the plan rides is what the write takes

  datatype StagedRow = StagedRow(stageSet: int, version: int)

  datatype Verdict = ForHere | NotNeeded | SpanElsewhere

  /** A staged set judged for the location: whether it is for there, and how the plan sees it. */
  datatype Judgement = Judgement(verdict: Verdict, candidate: Candidate)

  datatype Policy = Resolvable | Unresolvable

  /** The statuses the catalog's schema allows. */
  datatype Status = Active | TapeOnly | Missing

  datatype Unit = Unit(name: string, status: Status, policy: Policy, staged: seq<StagedRow>)

  type Judge = (Unit, StagedRow) -> Judgement

  predicate Judged(u: Unit) {
    u.status == Active || u.status == TapeOnly || u.status == Missing
  }

  /** A staged set of the unit that is for the location. */
  ghost predicate IsForHere(u: Unit, s: StagedRow, judge: Judge) {
    s in u.staged && u.policy.Resolvable? && judge(u, s).verdict.ForHere?
  }

  function RowFor(u: Unit, judge: Judge): StagedRow -> seq<(Unit, StagedRow)> {
    (s: StagedRow) => if judge(u, s).verdict.ForHere? then [(u, s)] else []
  }

  /** A unit's staged sets for the location; one whose policy does not resolve has none. */
  function UnitSets(judge: Judge): Unit -> seq<(Unit, StagedRow)> {
    (u: Unit) => if u.policy.Resolvable? then FlatMap(u.staged, RowFor(u, judge)) else []
  }

  function SetsForHere(units: seq<Unit>, judge: Judge): seq<(Unit, StagedRow)> {
    FlatMap(units, UnitSets(judge))
  }

  lemma SetsMeaning(units: seq<Unit>, judge: Judge, u: Unit, s: StagedRow)
    ensures (u, s) in SetsForHere(units, judge) <==> u in units && IsForHere(u, s, judge)
  {
    FlatMapMembers(units, UnitSets(judge), (u, s));
    forall v ensures (u, s) in UnitSets(judge)(v) <==> v == u && IsForHere(u, s, judge) {
      FlatMapMembers(v.staged, RowFor(v, judge), (u, s));
    }
  }

  predicate ByName(a: Unit, b: Unit) {
    Leq(a.name, b.name)
  }

  lemma ByNameIsAnOrder()
    ensures TotalPreorder(ByName)
  {
    forall a: Unit, b: Unit ensures ByName(a, b) || ByName(b, a) {
      LeqLaws(a.name, b.name, a.name);
    }
    forall a: Unit, b: Unit, c: Unit | ByName(a, b) && ByName(b, c) ensures ByName(a, c) {
      LeqLaws(a.name, b.name, c.name);
    }
  }

  predicate HasStaged(u: Unit) {
    u.staged != []
  }

  lemma {:induction false} AllJudged(catalog: seq<Unit>)
    ensures Filter(catalog, Judged) == catalog
  {
    if catalog != [] {
      AllJudged(catalog[..|catalog| - 1]);
    }
  }

  /** The units the plan judges, by name. */
  method JudgedUnits(catalog: seq<Unit>) returns (units: seq<Unit>)
    ensures SortedBy(units, ByName) && multiset(units) == multiset(catalog)
    ensures forall i, j :: 0 <= i < j < |units| ==> Leq(units[i].name, units[j].name)
  {
    var kept := Filter(catalog, Judged);
    AllJudged(catalog);
    ByNameIsAnOrder();
    units := SortBy(kept, ByName);
  }

  /** The units with something staged, by name. */
  method UnitsWithStagedSets(catalog: seq<Unit>) returns (units: seq<Unit>)
    ensures SortedBy(units, ByName) && multiset(units) == multiset(Filter(catalog, HasStaged))
    ensures forall i, j :: 0 <= i < j < |units| ==> Leq(units[i].name, units[j].name)
    ensures forall u :: multiset(units)[u] == if u.staged == [] then 0 else multiset(catalog)[u]
  {
    ByNameIsAnOrder();
    units := SortBy(Filter(catalog, HasStaged), ByName);
    forall u ensures multiset(units)[u] == if u.staged == [] then 0 else multiset(catalog)[u] {
      FilterMeaning(catalog, HasStaged, u);
    }
  }

  predicate ById(a: (Unit, StagedRow), b: (Unit, StagedRow)) {
    a.1.stageSet <= b.1.stageSet
  }

  method UnitForHere(u: Unit, judge: Judge) returns (sets: seq<(Unit, StagedRow)>)
    ensures sets == FlatMap(u.staged, RowFor(u, judge))
  {
    sets := [];
    for j := 0 to |u.staged|
      invariant sets == FlatMap(u.staged[..j], RowFor(u, judge))
    {
      assert u.staged[..j + 1] == u.staged[..j] + [u.staged[j]];
      FlatMapNext(u.staged[..j], u.staged[j], RowFor(u, judge));
      if judge(u, u.staged[j]).verdict.ForHere? {
        sets := sets + [(u, u.staged[j])];
      }
    }
    assert u.staged[..|u.staged|] == u.staged;
  }

  /** Looking only at units with something staged misses no set, whatever their order. */
  lemma WriteTakesAll(catalog: seq<Unit>, units: seq<Unit>, judge: Judge)
    requires multiset(units) == multiset(Filter(catalog, HasStaged))
    ensures multiset(SetsForHere(units, judge)) == multiset(SetsForHere(catalog, judge))
  {
    FlatMapPermuted(units, Filter(catalog, HasStaged), UnitSets(judge));
    FlatMapFiltered(catalog, HasStaged, UnitSets(judge));
  }

  lemma TakenMeaning(catalog: seq<Unit>, taken: seq<(Unit, StagedRow)>, judge: Judge)
    requires multiset(taken) == multiset(SetsForHere(catalog, judge))
    ensures forall u, s :: (u, s) in taken <==> u in catalog && IsForHere(u, s, judge)
  {
    hide SetsForHere, IsForHere;
    forall u, s ensures (u, s) in taken <==> u in catalog && IsForHere(u, s, judge) {
      SetsMeaning(catalog, judge, u, s);
      assert (u, s) in taken <==> (u, s) in multiset(taken);
      assert (u, s) in SetsForHere(catalog, judge) <==> (u, s) in multiset(SetsForHere(catalog, judge));
    }
  }

  method SetsFound(units: seq<Unit>, judge: Judge) returns (found: seq<(Unit, StagedRow)>)
    ensures found == SetsForHere(units, judge)
  {
    found := [];
    for i := 0 to |units|
      invariant found == SetsForHere(units[..i], judge)
    {
      var u := units[i];
      assert units[..i + 1] == units[..i] + [u];
      FlatMapNext(units[..i], u, UnitSets(judge));
      if u.policy.Resolvable? {
        var sets := UnitForHere(u, judge);
        found := found + sets;
      }
    }
    assert units[..|units|] == units;
  }

  lemma ByIdIsAnOrder()
    ensures TotalPreorder(ById)
  {
  }

  /** The sets a write for the location takes, by stage set id. */
  method StagedSetsForLocation(catalog: seq<Unit>, judge: Judge) returns (taken: seq<(Unit, StagedRow)>)
    ensures forall i, j :: 0 <= i < j < |taken| ==> taken[i].1.stageSet <= taken[j].1.stageSet
    ensures multiset(taken) == multiset(SetsForHere(catalog, judge))
    ensures forall u, s :: (u, s) in taken <==> u in catalog && IsForHere(u, s, judge)
  {
    hide SetsForHere, IsForHere, HasStaged, Filter, TotalPreorder;
    var units := UnitsWithStagedSets(catalog);
    var found := SetsFound(units, judge);
    WriteTakesAll(catalog, units, judge);
    ByIdIsAnOrder();
    taken := SortBy(found, ById);
    TakenMeaning(catalog, taken, judge);
  }

  /** How the plan sees a staged set. */
  function AsCandidate(judge: Judge): ((Unit, StagedRow)) -> seq<Candidate> {
    (x: (Unit, StagedRow)) => [judge(x.0, x.1).candidate]
  }

  /** The candidates of a list of staged sets. */
  function CandidatesOf(sets: seq<(Unit, StagedRow)>, judge: Judge): seq<Candidate> {
    FlatMap(sets, AsCandidate(judge))
  }

  /** Each set is seen as it was judged. */
  lemma {:induction false} CandidatesMeaning(sets: seq<(Unit, StagedRow)>, judge: Judge)
    ensures |CandidatesOf(sets, judge)| == |sets|
    ensures forall i :: 0 <= i < |sets| ==> CandidatesOf(sets, judge)[i] == judge(sets[i].0, sets[i].1).candidate
  {
    if sets != [] {
      CandidatesMeaning(sets[..|sets| - 1], judge);
    }
  }

  /** The plan rides what the write takes, each set as often. */
  lemma PlanAgreesWithWrite(catalog: seq<Unit>, judged: seq<Unit>, taken: seq<(Unit, StagedRow)>, judge: Judge)
    requires multiset(judged) == multiset(catalog) && multiset(taken) == multiset(SetsForHere(catalog, judge))
    ensures multiset(SetsForHere(judged, judge)) == multiset(taken)
    ensures multiset(CandidatesOf(SetsForHere(judged, judge), judge)) == multiset(CandidatesOf(taken, judge))
  {
    FlatMapPermuted(judged, catalog, UnitSets(judge));
    FlatMapPermuted(SetsForHere(judged, judge), taken, AsCandidate(judge));
  }

  /** The order in which a unit's own versions are preferred: the key without the class. */
  predicate Preferred(a: Candidate, b: Candidate) {
    KeyLeq(KeyOf(a).(rank := 0), KeyOf(b).(rank := 0))
  }

  /** As the plan's order has it for two of one class. */
  lemma PreferredMeaning(a: Candidate, b: Candidate)
    ensures Preferred(a, b) <==> RightlyBefore(a.(class_ := Whole), b.(class_ := Whole))
  {
    hide RightlyBefore;
    KeyMeaning(a.(class_ := Whole), b.(class_ := Whole));
  }

  ghost predicate IsBest(options: seq<Candidate>, i: int) {
    && 0 <= i < |options|
    && (forall j :: 0 <= j < |options| ==> Preferred(options[i], options[j]))
    && (forall j :: 0 <= j < i ==> !Preferred(options[j], options[i]))
  }

  lemma PreferredLaws(a: Candidate, b: Candidate, c: Candidate)
    ensures Preferred(a, b) || Preferred(b, a)
    ensures Preferred(a, b) && Preferred(b, c) ==> Preferred(a, c)
  {
    KeyLeqLaws(KeyOf(a).(rank := 0), KeyOf(b).(rank := 0), KeyOf(c).(rank := 0));
  }

  lemma BestKept(options: seq<Candidate>, i: nat)
    requires options != [] && IsBest(options[..|options| - 1], i) && Preferred(options[i], options[|options| - 1])
    ensures IsBest(options, i)
  {
    hide Preferred;
    var first := options[..|options| - 1];
    forall j | 0 <= j < |options| ensures Preferred(options[i], options[j]) {
      assert j < |first| ==> options[j] == first[j];
    }
    assert forall j :: 0 <= j < i ==> options[j] == first[j];
  }

  lemma BestReplaced(options: seq<Candidate>, i: nat)
    requires options != [] && IsBest(options[..|options| - 1], i) && !Preferred(options[i], options[|options| - 1])
    ensures IsBest(options, |options| - 1)
  {
    hide Preferred;
    var n := |options| - 1;
    var first := options[..n];
    PreferredLaws(options[n], options[n], options[n]);
    forall j | 0 <= j < n ensures Preferred(options[n], options[j]) && !Preferred(options[j], options[n]) {
      assert Preferred(first[i], first[j]);
      PreferredLaws(options[n], options[i], options[j]);
      PreferredLaws(options[i], options[j], options[n]);
    }
  }

  lemma BestNext(options: seq<Candidate>, rest: Option<Candidate>, r: Candidate)
    requires options != []
    requires var first := options[..|options| - 1];
      (rest.None? <==> first == []) && (rest.Some? ==> exists i :: IsBest(first, i) && first[i] == rest.value)
    requires r == if rest.Some? && Preferred(rest.value, options[|options| - 1]) then rest.value else options[|options| - 1]
    ensures exists i :: IsBest(options, i) && options[i] == r
  {
    hide Preferred;
    var n := |options| - 1;
    if rest.None? {
      PreferredLaws(options[n], options[n], options[n]);
      assert IsBest(options, n);
    } else {
      var i :| IsBest(options[..n], i) && options[..n][i] == rest.value;
      hide IsBest;
      if Preferred(rest.value, options[n]) {
        BestKept(options, i);
      } else {
        BestReplaced(options, i);
      }
    }
  }

  /** The version a unit would stage: the most preferred, and of several the first. */
  function Best(options: seq<Candidate>): (r: Option<Candidate>)
    ensures r.None? <==> options == []
    ensures r.Some? ==> exists i :: IsBest(options, i) && options[i] == r.value
  {
    if options == [] then None
    else
      var n := |options| - 1;
      var rest := Best(options[..n]);
      var r := if rest.Some? && Preferred(rest.value, options[n]) then rest else Some(options[n]);
      BestNext(options, rest, r.value);
      r
  }

  /** What a unit gives to stage: its best version, and only when none of its staged sets rides. */
  function ToStageOf(judge: Judge, options: Unit -> seq<Candidate>): Unit -> seq<Candidate> {
    (u: Unit) => if u.policy.Resolvable? && UnitSets(judge)(u) == [] && Best(options(u)).Some? then [Best(options(u)).value] else []
  }

  lemma NoCandidates(judge: Judge)
    ensures CandidatesOf([], judge) == []
  {
  }

  /** One unit's share of the plan: the sets that ride, or else what it gives to stage. */
  method JudgeUnit(u: Unit, judge: Judge, options: Unit -> seq<Candidate>) returns (riding: seq<Candidate>, toStage: seq<Candidate>)
    ensures riding == CandidatesOf(UnitSets(judge)(u), judge) && toStage == ToStageOf(judge, options)(u)
  {
    hide FlatMap;
    riding, toStage := [], [];
    assert CandidatesOf([], judge) == [] by { NoCandidates(judge); }
    if u.policy.Resolvable? {
      var sets := UnitForHere(u, judge);
      riding := CandidatesOf(sets, judge);
      if sets == [] {
        var best := Best(options(u));
        if best.Some? {
          toStage := [best.value];
        }
      }
    }
  }

  /** One unit more adds its share. */
  lemma SharesNext(units: seq<Unit>, u: Unit, judge: Judge, options: Unit -> seq<Candidate>)
    ensures CandidatesOf(SetsForHere(units + [u], judge), judge) ==
            CandidatesOf(SetsForHere(units, judge), judge) + CandidatesOf(UnitSets(judge)(u), judge)
    ensures FlatMap(units + [u], ToStageOf(judge, options)) == FlatMap(units, ToStageOf(judge, options)) + ToStageOf(judge, options)(u)
  {
    FlatMapNext(units, u, UnitSets(judge));
    FlatMapNext(units, u, ToStageOf(judge, options));
    FlatMapJoins(SetsForHere(units, judge), UnitSets(judge)(u), AsCandidate(judge));
  }

  lemma NoShares(judge: Judge, options: Unit -> seq<Candidate>)
    ensures CandidatesOf(SetsForHere([], judge), judge) == [] && FlatMap([], ToStageOf(judge, options)) == []
  {
  }

  method JudgeUnits(units: seq<Unit>, judge: Judge, options: Unit -> seq<Candidate>) returns (riding: seq<Candidate>, toStage: seq<Candidate>)
    ensures riding == CandidatesOf(SetsForHere(units, judge), judge)
    ensures toStage == FlatMap(units, ToStageOf(judge, options))
  {
    NoShares(judge, options);
    hide FlatMap, CandidatesOf, SetsForHere, ToStageOf, UnitSets;
    riding, toStage := [], [];
    assert units[..0] == [];
    for i := 0 to |units|
      invariant riding == CandidatesOf(SetsForHere(units[..i], judge), judge)
      invariant toStage == FlatMap(units[..i], ToStageOf(judge, options))
    {
      assert units[..i + 1] == units[..i] + [units[i]];
      SharesNext(units[..i], units[i], judge, options);
      var rides, stages := JudgeUnit(units[i], judge, options);
      riding, toStage := riding + rides, toStage + stages;
    }
    assert units[..|units|] == units;
  }

  /** The plan of one tape for the location, from the catalog. */
  method PlanForLocation(b: Budget, catalog: seq<Unit>, judge: Judge, options: Unit -> seq<Candidate>)
    returns (planned: seq<Candidate>, waiting: seq<Candidate>, overflow: seq<Candidate>)
    ensures var riding := CandidatesOf(SetsForHere(catalog, judge), judge);
      // the sets for the location ride, all of them, first and by priority; the rest follow by priority
      && |riding| <= |planned| && multiset(planned[..|riding|]) == multiset(riding) && InOrder(planned[..|riding|])
      && multiset(planned + waiting) == multiset(riding) + multiset(FlatMap(catalog, ToStageOf(judge, options)))
      && InOrder(planned[|riding|..] + waiting)
      // the tape is filled while everything planned is on it, and not past that
      && AddedWhileFitting(b, planned, |riding|)
      && OverflowOf(b, planned[..|riding|], overflow) && (overflow == [] <==> Fits(b, 0, Items(planned[..|riding|])))
      && (overflow != [] ==> |planned| == |riding|)
      && (waiting != [] && overflow == [] ==> !Fits(b, 0, Items(planned + [waiting[0]])))
  {
    hide Fits, Items, AddedWhileFitting, InOrder, OverflowOf, FlatMap;
    var units := JudgedUnits(catalog);
    var riding, toStage := JudgeUnits(units, judge, options);
    ghost var all := CandidatesOf(SetsForHere(catalog, judge), judge);
    FlatMapPermuted(units, catalog, UnitSets(judge));
    FlatMapPermuted(SetsForHere(units, judge), SetsForHere(catalog, judge), AsCandidate(judge));
    FlatMapPermuted(units, catalog, ToStageOf(judge, options));
    assert |riding| == |multiset(riding)| == |multiset(all)| == |all|;
    planned, waiting, overflow := PlanTape(b, riding, toStage);
  }

  // ----- the read-back commands, a cartridge at a time

  function OfTape(commands: seq<Command>, tape: string): (r: seq<Command>) {
    if commands == [] then []
    else OfTape(commands[..|commands| - 1], tape)
         + if commands[|commands| - 1].tape == tape then [commands[|commands| - 1]] else []
  }

  function Joined(commands: seq<Command>, tapes: seq<string>): (r: seq<Command>) {
    if tapes == [] then [] else Joined(commands, tapes[..|tapes| - 1]) + OfTape(commands, tapes[|tapes| - 1])
  }

  /** Tape a is first needed before tape b. */
  ghost predicate NeededBefore(commands: seq<Command>, a: string, b: string) {
    exists p :: 0 <= p < |commands| && commands[p].tape == a && forall q :: 0 <= q <= p ==> commands[q].tape != b
  }

  ghost predicate TapesInOrder(tapes: seq<string>, commands: seq<Command>) {
    && (forall i, j :: 0 <= i < j < |tapes| ==> tapes[i] != tapes[j] && NeededBefore(commands, tapes[i], tapes[j]))
    && (forall t :: t in tapes <==> exists p :: 0 <= p < |commands| && commands[p].tape == t)
  }

  /** One tape's commands stand together, tapes in the order of first need. */
  ghost predicate LoadsOnce(out: seq<Command>, commands: seq<Command>) {
    forall i, j, k :: 0 <= i <= j <= k < |out| ==>
      && (out[i].tape == out[k].tape ==> out[j].tape == out[i].tape)
      && (out[i].tape != out[k].tape ==> NeededBefore(commands, out[i].tape, out[k].tape))
  }

  /** The commands one planned unit needs. */
  function NeedsOf(c: Candidate): seq<Command> {
    match c.how
    case ReadFromTape(commands) => commands
    case _ => []
  }

  lemma NeededBy(planned: seq<Candidate>, c: Command)
    ensures c in FlatMap(planned, NeedsOf) <==>
      exists i :: 0 <= i < |planned| && planned[i].how.ReadFromTape? && c in planned[i].how.commands
  {
    FlatMapMembers(planned, NeedsOf, c);
    if x :| x in planned && c in NeedsOf(x) {
      var i :| 0 <= i < |planned| && planned[i] == x;
      assert planned[i].how.ReadFromTape? && c in planned[i].how.commands;
    }
    if i :| 0 <= i < |planned| && planned[i].how.ReadFromTape? && c in planned[i].how.commands {
      assert planned[i] in planned && c in NeedsOf(planned[i]);
    }
  }

  lemma {:induction false} NoneOfTape(commands: seq<Command>, tape: string)
    requires forall p :: 0 <= p < |commands| ==> commands[p].tape != tape
    ensures OfTape(commands, tape) == []
  {
    if commands != [] {
      NoneOfTape(commands[..|commands| - 1], tape);
    }
  }

  lemma {:induction false} OfTapeMeaning(commands: seq<Command>, tape: string)
    ensures forall i :: 0 <= i < |OfTape(commands, tape)| ==> OfTape(commands, tape)[i].tape == tape
    ensures forall c :: multiset(OfTape(commands, tape))[c] == if c.tape == tape then multiset(commands)[c] else 0
  {
    if commands != [] {
      var last := |commands| - 1;
      OfTapeMeaning(commands[..last], tape);
      assert commands == commands[..last] + [commands[last]];
    }
  }

  lemma {:induction false} OfTapeJoins(a: seq<Command>, b: seq<Command>, tape: string)
    ensures OfTape(a + b, tape) == OfTape(a, tape) + OfTape(b, tape)
  {
    if b == [] {
      assert a + b == a;
    } else {
      var front, c := b[..|b| - 1], b[|b| - 1];
      OfTapeJoins(a, front, tape);
      assert (a + b)[..|a + b| - 1] == a + front && (a + b)[|a + b| - 1] == c;
      var more := if c.tape == tape then [c] else [];
      assert OfTape(a, tape) + OfTape(front, tape) + more == OfTape(a, tape) + (OfTape(front, tape) + more);
    }
  }

  lemma {:induction false} OfTapeOfTape(s: seq<Command>, tape: string, other: string)
    requires forall i :: 0 <= i < |s| ==> s[i].tape == other
    ensures OfTape(s, tape) == if tape == other then s else []
  {
    if s != [] {
      OfTapeOfTape(s[..|s| - 1], tape, other);
      assert s == s[..|s| - 1] + [s[|s| - 1]];
    }
  }

  /** Each tape's commands are all there, in the order the plan gives them. */
  lemma {:induction false} JoinedKeepsOrder(commands: seq<Command>, tapes: seq<string>, tape: string)
    requires forall i, j :: 0 <= i < j < |tapes| ==> tapes[i] != tapes[j]
    ensures OfTape(Joined(commands, tapes), tape) == if tape in tapes then OfTape(commands, tape) else []
  {
    hide OfTape;
    if tapes == [] {
      assert OfTape([], tape) == [] by { OfTapeOfTape([], tape, tape); }
    } else {
      var front, last := tapes[..|tapes| - 1], tapes[|tapes| - 1];
      JoinedKeepsOrder(commands, front, tape);
      OfTapeMeaning(commands, last);
      OfTapeJoins(Joined(commands, front), OfTape(commands, last), tape);
      OfTapeOfTape(OfTape(commands, last), tape, last);
      assert tape in tapes <==> tape in front || tape == last by {
        assert tapes == front + [last];
      }
      assert last !in front;
    }
  }

  lemma OfTapeAt(commands: seq<Command>, tape: string, i: nat)
    requires i < |OfTape(commands, tape)|
    ensures OfTape(commands, tape)[i].tape == tape
  {
    hide OfTape;
    OfTapeMeaning(commands, tape);
  }

  lemma {:induction false} JoinedTapes(commands: seq<Command>, tapes: seq<string>, i: nat) returns (t: nat)
    requires i < |Joined(commands, tapes)|
    ensures t < |tapes| && Joined(commands, tapes)[i].tape == tapes[t]
    ensures |Joined(commands, tapes[..t])| <= i < |Joined(commands, tapes[..t + 1])|
    decreases |tapes|
  {
    hide OfTape;
    var front := tapes[..|tapes| - 1];
    if i < |Joined(commands, front)| {
      t := JoinedTapes(commands, front, i);
      assert front[..t] == tapes[..t] && front[..t + 1] == tapes[..t + 1];
    } else {
      t := |tapes| - 1;
      OfTapeAt(commands, tapes[t], i - |Joined(commands, front)|);
      assert tapes[..t + 1] == tapes;
    }
  }

  lemma {:induction false} JoinedGrows(commands: seq<Command>, tapes: seq<string>, a: nat, b: nat)
    requires a <= b <= |tapes|
    ensures |Joined(commands, tapes[..a])| <= |Joined(commands, tapes[..b])|
    decreases b
  {
    if a < b {
      JoinedGrows(commands, tapes, a, b - 1);
      assert tapes[..b][..b - 1] == tapes[..b - 1];
    }
  }

  /** Between two commands of one tape there is none of another: each cartridge is loaded once. */
  lemma LoadedOnce(commands: seq<Command>, tapes: seq<string>, i: nat, j: nat, k: nat)
    requires TapesInOrder(tapes, commands) && i <= j <= k < |Joined(commands, tapes)|
    ensures var out := Joined(commands, tapes);
      && (out[i].tape == out[k].tape ==> out[j].tape == out[i].tape)
      && (out[i].tape != out[k].tape ==> NeededBefore(commands, out[i].tape, out[k].tape))
  {
    hide Joined;
    var a := JoinedTapes(commands, tapes, i);
    var b := JoinedTapes(commands, tapes, j);
    var c := JoinedTapes(commands, tapes, k);
    if a > b {
      JoinedGrows(commands, tapes, b + 1, a);
    }
    if b > c {
      JoinedGrows(commands, tapes, c + 1, b);
    }
  }

  /** The reads are those of the plan, each as often. */
  lemma ReadsArePermuted(commands: seq<Command>, tapes: seq<string>)
    requires TapesInOrder(tapes, commands)
    ensures multiset(Joined(commands, tapes)) == multiset(commands)
  {
    var out := Joined(commands, tapes);
    hide Joined;
    forall c ensures multiset(out)[c] == multiset(commands)[c] {
      JoinedKeepsOrder(commands, tapes, c.tape);
      OfTapeMeaning(out, c.tape);
      OfTapeMeaning(commands, c.tape);
      assert forall p :: 0 <= p < |commands| ==> commands[p].tape in tapes;
      if c.tape !in tapes {
        assert c !in commands;
        assert multiset(commands)[c] == 0;
      }
    }
  }

  lemma JoinedIsGrouped(commands: seq<Command>, tapes: seq<string>)
    requires TapesInOrder(tapes, commands)
    ensures var out := Joined(commands, tapes);
      && multiset(out) == multiset(commands) && LoadsOnce(out, commands)
      && forall tape :: OfTape(out, tape) == OfTape(commands, tape)
  {
    var out := Joined(commands, tapes);
    hide Joined, OfTape;
    ReadsArePermuted(commands, tapes);
    forall tape ensures OfTape(out, tape) == OfTape(commands, tape) {
      JoinedKeepsOrder(commands, tapes, tape);
      if tape !in tapes {
        NoneOfTape(commands, tape);
      }
    }
    forall i, j, k | 0 <= i <= j <= k < |out|
      ensures out[i].tape == out[k].tape ==> out[j].tape == out[i].tape
      ensures out[i].tape != out[k].tape ==> NeededBefore(commands, out[i].tape, out[k].tape)
    {
      LoadedOnce(commands, tapes, i, j, k);
    }
  }

  lemma TapesStep(tapes: seq<string>, seen: seq<Command>, c: Command)
    requires TapesInOrder(tapes, seen)
    ensures TapesInOrder(if c.tape in tapes then tapes else tapes + [c.tape], seen + [c])
  {
    var now := seen + [c];
    var next := if c.tape in tapes then tapes else tapes + [c.tape];
    forall i, j | 0 <= i < j < |next| ensures next[i] != next[j] && NeededBefore(now, next[i], next[j]) {
      assert next[i] in tapes;
      if j < |tapes| {
        assert NeededBefore(seen, tapes[i], tapes[j]);
        var p :| 0 <= p < |seen| && seen[p].tape == tapes[i] && forall q :: 0 <= q <= p ==> seen[q].tape != tapes[j];
        assert now[p].tape == next[i];
      } else {
        var p :| 0 <= p < |seen| && seen[p].tape == next[i];
        assert now[p].tape == next[i];
        assert forall q :: 0 <= q < |seen| ==> seen[q].tape in tapes;
      }
    }
    forall t ensures t in next <==> exists p :: 0 <= p < |now| && now[p].tape == t {
      if t in tapes {
        var p :| 0 <= p < |seen| && seen[p].tape == t;
        assert now[p].tape == t;
      } else if t == c.tape {
        assert now[|seen|].tape == t;
      }
      if p :| 0 <= p < |now| && now[p].tape == t {
        if p < |seen| {
          assert seen[p].tape == t;
        }
      }
    }
  }

  /** Each tape the commands need, in the order they first need it. */
  method TapesNeeded(commands: seq<Command>) returns (holders: seq<string>)
    ensures TapesInOrder(holders, commands)
  {
    holders := [];
    assert TapesInOrder(holders, commands[..0]);
    hide TapesInOrder;
    for i := 0 to |commands|
      invariant TapesInOrder(holders, commands[..i])
    {
      assert commands[..i + 1] == commands[..i] + [commands[i]];
      TapesStep(holders, commands[..i], commands[i]);
      if commands[i].tape !in holders {
        holders := holders + [commands[i].tape];
      }
    }
    assert commands[..|commands|] == commands;
  }

  /** One cartridge after another: what the plan's read-backs have the operator run. */
  method ReadSlices(planned: seq<Candidate>) returns (out: seq<Command>)
    ensures var commands := FlatMap(planned, NeedsOf);
      && multiset(out) == multiset(commands)
      && (forall tape :: OfTape(out, tape) == OfTape(commands, tape))
      && LoadsOnce(out, commands)
    // a unit that is read back has all its commands there, and no other has any
    ensures forall c :: c in out <==>
      exists i :: 0 <= i < |planned| && planned[i].how.ReadFromTape? && c in planned[i].how.commands
  {
    var commands := FlatMap(planned, NeedsOf);
    var holders := TapesNeeded(commands);
    out := [];
    assert out == Joined(commands, holders[..0]);
    for i := 0 to |holders|
      invariant out == Joined(commands, holders[..i])
    {
      hide OfTape, TapesInOrder;
      assert holders[..i + 1][..i] == holders[..i];
      out := out + OfTape(commands, holders[i]);
    }
    assert holders[..|holders|] == holders;
    JoinedIsGrouped(commands, holders);
    forall c ensures c in out <==> exists i :: 0 <= i < |planned| && planned[i].how.ReadFromTape? && c in planned[i].how.commands {
      assert c in out <==> c in multiset(out);
      assert c in commands <==> c in multiset(commands);
      NeededBy(planned, c);
    }
  }
}
