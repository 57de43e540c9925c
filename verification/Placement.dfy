/** A budget's placement of units on one tape, and when it takes all of them. */
module Placement {
  import opened Common

  datatype PlanClass = Owed | Whole | Spannable

  datatype PlanItem = PlanItem(class_: PlanClass, bytes: nat)

  datatype Placed = Committed | PastCeiling | Tail | Deferred | Refused

  datatype LayoutError =
    | PlanBoundExceeded(needed: nat, bound: nat)
    | CapacityExceeded(needed: nat, reserve: nat, available: nat)
    | SpanNeedsPostWarningBytes(needed: nat, reserve: nat, available: nat)

  /** `bound` is set only for a drive whose post-warning room is measured. */
  datatype Budget = Budget(available: nat, reserve: nat, bound: Option<nat>) {
    predicate UnderCeiling(end: nat) {
      end + reserve <= available
    }

    predicate WithinBound(end: nat) {
      bound.Some? && end <= bound.value
    }
  }

  /** The plan's end once the first n units after `start` are on it. */
  function End(start: nat, sizes: seq<nat>, n: nat): nat
    requires n <= |sizes|
  {
    start + Sum(sizes[..n])
  }

  lemma EndNext(start: nat, sizes: seq<nat>, n: nat)
    requires n < |sizes|
    ensures End(start, sizes, n + 1) == End(start, sizes, n) + sizes[n]
    ensures End(start, sizes, 0) == start
  {
    assert sizes[..n + 1][..n] == sizes[..n];
  }

  lemma {:induction false} EndMonotone(start: nat, sizes: seq<nat>, m: nat, n: nat)
    requires m <= n <= |sizes|
    ensures start <= End(start, sizes, m) <= End(start, sizes, n)
    decreases n
  {
    if m < n {
      EndMonotone(start, sizes, m, n - 1);
      EndNext(start, sizes, n - 1);
    }
  }

  predicate OnTape(p: Placed) {
    p != Deferred && p != Refused
  }

  ghost predicate AllOnTape(placed: seq<Placed>) {
    forall i :: 0 <= i < |placed| ==> OnTape(placed[i])
  }

  // ----- whole units

  /** How many whole units are committed, and how many planned in all. */
  ghost predicate IsWholeRun(b: Budget, start: nat, sizes: seq<nat>, past: bool, committed: nat, planned: nat) {
    && committed <= planned <= |sizes|
    && (forall m :: 0 < m <= committed ==> b.UnderCeiling(End(start, sizes, m)))
    && (committed < |sizes| ==> !b.UnderCeiling(End(start, sizes, committed + 1)))
    && (forall m :: committed < m <= planned ==> past && b.WithinBound(End(start, sizes, m)))
    && (planned < |sizes| ==> !(past && b.WithinBound(End(start, sizes, planned + 1))))
  }

  lemma EndZero(start: nat, sizes: seq<nat>)
    ensures End(start, sizes, 0) == start
  {
  }

  method WholeRun(b: Budget, start: nat, sizes: seq<nat>, past: bool) returns (committed: nat, planned: nat)
    ensures IsWholeRun(b, start, sizes, past, committed, planned)
  {
    hide Sum;
    var end := start;
    committed, planned := 0, 0;
    var crossed := false;
    assert End(start, sizes, 0) == start by { EndZero(start, sizes); }
    while planned < |sizes|
      invariant committed <= planned <= |sizes| && end == End(start, sizes, planned)
      invariant forall m :: 0 < m <= committed ==> b.UnderCeiling(End(start, sizes, m))
      invariant forall m :: committed < m <= planned ==> past && b.WithinBound(End(start, sizes, m))
      invariant !crossed ==> committed == planned
      invariant crossed ==> committed < |sizes| && !b.UnderCeiling(End(start, sizes, committed + 1))
    {
      EndNext(start, sizes, planned);
      end := end + sizes[planned];
      if !crossed && b.UnderCeiling(end) {
        committed := committed + 1;
        planned := planned + 1;
        continue;
      }
      crossed := true;
      if past && b.WithinBound(end) {
        planned := planned + 1;
      } else {
        break;
      }
    }
  }

  /** The rule leaves no choice: one count is committed and one planned. */
  lemma WholeRunIsDetermined(b: Budget, start: nat, sizes: seq<nat>, past: bool, c: nat, p: nat, c': nat, p': nat)
    requires IsWholeRun(b, start, sizes, past, c, p) && IsWholeRun(b, start, sizes, past, c', p')
    ensures c == c' && p == p'
  {
    hide End;
  }

  /** The units a run plans are planned again when the rest are left out. */
  lemma {:induction false} WholeRunOfPlanned(b: Budget, start: nat, sizes: seq<nat>, past: bool, c: nat, p: nat)
    requires IsWholeRun(b, start, sizes, past, c, p)
    ensures IsWholeRun(b, start, sizes[..p], past, c, p)
  {
    hide Sum;
    assert forall m :: 0 <= m <= p ==> sizes[..p][..m] == sizes[..m];
    assert forall m :: 0 <= m <= p ==> End(start, sizes[..p], m) == End(start, sizes, m);
  }

  predicate WholeFits(b: Budget, end: nat, past: bool) {
    b.UnderCeiling(end) || (past && b.WithinBound(end))
  }

  /** All whole units are planned exactly when the last of them is under the ceiling, or within the bound where that counts. */
  lemma {:induction false} WholeRunHoldsAll(b: Budget, start: nat, sizes: seq<nat>, past: bool, committed: nat, planned: nat)
    requires IsWholeRun(b, start, sizes, past, committed, planned)
    ensures planned == |sizes| <==> sizes == [] || WholeFits(b, start + Sum(sizes), past)
  {
    var end := End(start, sizes, |sizes|);
    assert end == start + Sum(sizes) by {
      assert sizes[..|sizes|] == sizes;
    }
    hide Sum, End;
    if planned < |sizes| {
      EndMonotone(start, sizes, planned + 1, |sizes|);
      EndMonotone(start, sizes, committed + 1, |sizes|);
      assert !b.UnderCeiling(end) && !(past && b.WithinBound(end));
    } else if committed < |sizes| {
      assert past && b.WithinBound(end);
    } else if sizes != [] {
      assert b.UnderCeiling(end);
    }
  }

  // ----- units that may span

  /** Where a unit that may span and ends the plan at `end` sits. */
  function SpanPlaced(b: Budget, end: nat): Placed {
    if b.UnderCeiling(end) then Committed
    else if b.bound.None? then Refused
    else if end <= b.bound.value then PastCeiling
    else Tail
  }

  /** The units up to the first that is refused or crosses the bound are placed by their ends.  The rest are not
      placed: deferred behind a tail, and called `after` behind a refusal. */
  ghost predicate IsSpanRun(b: Budget, start: nat, sizes: seq<nat>, after: Placed, placed: seq<Placed>, n: nat) {
    && |placed| == |sizes| && n <= |sizes| && !OnTape(after)
    && (forall i :: 0 <= i < n ==> placed[i] == SpanPlaced(b, End(start, sizes, i + 1)))
    && (forall i :: 0 <= i < n - 1 ==> placed[i] == Committed || placed[i] == PastCeiling)
    && (n < |sizes| ==> n > 0 && (placed[n - 1] == Tail || placed[n - 1] == Refused))
    && (forall i :: n <= i < |sizes| ==> placed[i] == if placed[n - 1] == Tail then Deferred else after)
  }

  /** The first unit refused, of those placed. */
  function FirstRefused(placed: seq<Placed>): (i: nat)
    requires Refused in placed
    ensures i < |placed| && placed[i] == Refused && forall j :: 0 <= j < i ==> placed[j] != Refused
  {
    var n := |placed| - 1;
    if Refused in placed[..n] then FirstRefused(placed[..n])
    else
      assert placed == placed[..n] + [placed[n]];
      n
  }

  /** One error, for the first unit refused: where the plan would end with it. */
  function SpanErrors(b: Budget, start: nat, sizes: seq<nat>, placed: seq<Placed>): seq<LayoutError>
    requires |placed| == |sizes|
  {
    if Refused in placed
    then [SpanNeedsPostWarningBytes(End(start, sizes, FirstRefused(placed) + 1), b.reserve, b.available)]
    else []
  }

  lemma NoSpanErrors(b: Budget, start: nat, sizes: seq<nat>, placed: seq<Placed>)
    requires |placed| == |sizes|
    ensures SpanErrors(b, start, sizes, placed) == [] <==> Refused !in placed
  {
  }

  lemma SpanErrorAt(b: Budget, start: nat, sizes: seq<nat>, after: Placed, placed: seq<Placed>, n: nat)
    requires IsSpanRun(b, start, sizes, after, placed, n)
    ensures SpanErrors(b, start, sizes, placed) ==
            if n > 0 && placed[n - 1] == Refused then [SpanNeedsPostWarningBytes(End(start, sizes, n), b.reserve, b.available)] else []
  {
    hide End, SpanPlaced;
    if n > 0 && placed[n - 1] == Refused {
      assert placed[n - 1] in placed;
    } else {
      assert forall i :: 0 <= i < |placed| ==> placed[i] != Refused;
    }
  }

  lemma SpanKinds(b: Budget, end: nat)
    ensures SpanPlaced(b, end) != Deferred
  {
  }

  ghost predicate SomeSpanRun(b: Budget, start: nat, sizes: seq<nat>, after: Placed, placed: seq<Placed>) {
    exists n :: IsSpanRun(b, start, sizes, after, placed, n)
  }

  method SpanRun(b: Budget, start: nat, sizes: seq<nat>, after: Placed)
    returns (placed: seq<Placed>, errors: seq<LayoutError>, n: nat)
    requires !OnTape(after)
    ensures IsSpanRun(b, start, sizes, after, placed, n)
    ensures SomeSpanRun(b, start, sizes, after, placed)
    ensures |placed| == |sizes| && errors == SpanErrors(b, start, sizes, placed)
  {
    hide Sum, SpanPlaced;
    var end := start;
    placed, errors, n := [], [], 0;
    var tail, refused := false, false;
    EndZero(start, sizes);
    for i := 0 to |sizes|
      invariant |placed| == i && n <= i
      invariant !tail && !refused ==> n == i && end == End(start, sizes, i)
      invariant n < i ==> tail || refused
      invariant tail || refused ==> n > 0 && (placed[n - 1] == Tail || placed[n - 1] == Refused)
      invariant forall j :: 0 <= j < n ==> placed[j] == SpanPlaced(b, End(start, sizes, j + 1))
      invariant forall j :: 0 <= j < (if tail || refused then n - 1 else n) ==> placed[j] == Committed || placed[j] == PastCeiling
      invariant tail == (n > 0 && placed[n - 1] == Tail) && refused == (n > 0 && placed[n - 1] == Refused)
      invariant errors == if refused then [SpanNeedsPostWarningBytes(End(start, sizes, n), b.reserve, b.available)] else []
      invariant forall j :: n <= j < i ==> placed[j] == if tail then Deferred else after
    {
      EndNext(start, sizes, i);
      if tail {
        placed := placed + [Deferred];
      } else if refused {
        placed := placed + [after];
      } else {
        end := end + sizes[i];
        var p := SpanPlaced(b, end);
        SpanKinds(b, end);
        tail, refused := p == Tail, p == Refused;
        if refused {
          errors := errors + [SpanNeedsPostWarningBytes(end, b.reserve, b.available)];
        }
        placed := placed + [p];
        n := i + 1;
      }
    }
    SpanErrorAt(b, start, sizes, after, placed, n);
  }

  /** `before` is the plan's end without the last unit, `end` with it; a unit alone has none before it. */
  predicate SpansFit(b: Budget, alone: bool, before: nat, end: nat) {
    b.UnderCeiling(end) || (b.bound.Some? && (alone || b.UnderCeiling(before) || before <= b.bound.value))
  }

  /** All of a run of spanning units are on the tape exactly when those before the last keep within the
      bound, and the last is not refused. */
  lemma {:induction false} SpanRunHoldsAll(b: Budget, start: nat, sizes: seq<nat>, after: Placed, placed: seq<Placed>, n: nat)
    requires IsSpanRun(b, start, sizes, after, placed, n)
    ensures AllOnTape(placed) <==> sizes == [] || SpansFit(b, |sizes| == 1, start + Sum(sizes[..|sizes| - 1]), start + Sum(sizes))
    ensures AllOnTape(placed) && sizes != [] ==> n == |sizes|
  {
    hide Sum;
    assert sizes[..|sizes|] == sizes;
    if sizes != [] {
      var last := |sizes| - 1;
      EndMonotone(start, sizes, last, |sizes|);
      if n < |sizes| {
        assert !OnTape(placed[n]);
        assert placed[n - 1] == SpanPlaced(b, End(start, sizes, n));
        EndMonotone(start, sizes, n, last);
      } else {
        assert placed[last] == SpanPlaced(b, End(start, sizes, last + 1));
        if last > 0 {
          assert placed[last - 1] == SpanPlaced(b, End(start, sizes, last));
        }
      }
    }
  }

  // ----- the three classes together

  /** The sizes of one class, in the caller's order. */
  function SizesOf(items: seq<PlanItem>, c: PlanClass): (s: seq<nat>)
    ensures |s| <= |items|
  {
    if items == [] then []
    else
      var last := items[|items| - 1];
      SizesOf(items[..|items| - 1], c) + if last.class_ == c then [last.bytes] else []
  }

  /** A set is larger than one tape when it does not fit between the fixed files and the bound. */
  predicate LargerThanOneTape(b: Budget, fixed: nat, bytes: nat) {
    b.bound.Some? && b.bound.value > fixed && bytes > b.bound.value - fixed
  }

  predicate Closed(placed: seq<Placed>) {
    Tail in placed || Refused in placed
  }

  predicate EndsWell(b: Budget, end: nat) {
    b.UnderCeiling(end) || b.WithinBound(end)
  }

  /** Nothing may follow a run exactly when its end passes the ceiling and the bound. */
  lemma {:induction false} OpenIff(b: Budget, start: nat, sizes: seq<nat>, after: Placed, placed: seq<Placed>, n: nat)
    requires IsSpanRun(b, start, sizes, after, placed, n)
    ensures !Closed(placed) <==> sizes == [] || EndsWell(b, start + Sum(sizes))
  {
    hide Sum;
    assert sizes[..|sizes|] == sizes;
    if n < |sizes| {
      EndMonotone(start, sizes, n, |sizes|);
      assert placed[n - 1] in placed && placed[n - 1] == SpanPlaced(b, End(start, sizes, n));
    } else if n > 0 {
      assert placed[n - 1] in placed && placed[n - 1] == SpanPlaced(b, End(start, sizes, n));
      assert forall p :: p in placed ==> p == placed[n - 1] || p == Committed || p == PastCeiling;
    }
  }

  /** The whole units: those the tape takes, those pushed to a later one, and those no plan of the budget holds. */
  function WholePlaced(total: nat, held: nat, committed: nat, kept: nat): (p: seq<Placed>)
    ensures |p| == total
    ensures AllOnTape(p) <==> total == 0 || (kept >= total && held >= total)
  {
    var p := seq(total, i =>
      if i >= held then Refused else if i < kept then (if i < committed then Committed else PastCeiling) else Deferred);
    assert total > 0 ==> p[total - 1] == if total - 1 >= held then Refused else if total - 1 < kept then (if total - 1 < committed then Committed else PastCeiling) else Deferred;
    p
  }

  /** What the plan puts where, and the figures that say why. */
  datatype Plan = Plan(
    owed: seq<Placed>, whole: seq<Placed>, spans: seq<Placed>, tried: nat, held: nat, kept: nat, errors: seq<LayoutError>)

  /** The whole units alone do not fit: by the bound where there is one, else by the ceiling. */
  function WholeErrors(b: Budget, fixed: nat, whole: seq<nat>, held: nat): seq<LayoutError> {
    if held >= |whole| then []
    else match b.bound
         case Some(bound) => [PlanBoundExceeded(fixed + Sum(whole), bound)]
         case None => [CapacityExceeded(fixed + Sum(whole), b.reserve, b.available)]
  }

  /** Some set that may span is the tail and is larger than one tape. */
  predicate LargeTail(b: Budget, fixed: nat, spans: seq<nat>, placed: seq<Placed>)
    requires |placed| == |spans|
  {
    exists t :: 0 <= t < |spans| && placed[t] == Tail && LargerThanOneTape(b, fixed, spans[t])
  }

  ghost predicate KeptOf(b: Budget, fixed: nat, owedEnd: nat, whole: seq<nat>, spans: seq<nat>, held: nat, kept: nat,
                         committed: nat, most: nat, placed: seq<Placed>)
    requires held <= |whole|
  {
    && IsWholeRun(b, owedEnd, whole[..held], spans == [], committed, most) && most <= held
    && SomeSpanRun(b, owedEnd + Sum(whole[..most]), spans, Refused, placed) && |placed| == |spans|
    && kept == if most > 0 && LargeTail(b, fixed, spans, placed) then 0 else most
  }

  /** The whole units the room after the owed runs holds are kept, unless the tail behind them is larger than one tape. */
  ghost predicate KeptRight(b: Budget, fixed: nat, owedEnd: nat, whole: seq<nat>, spans: seq<nat>, held: nat, kept: nat)
    requires held <= |whole|
  {
    exists committed, most, placed :: KeptOf(b, fixed, owedEnd, whole, spans, held, kept, committed, most, placed)
  }

  ghost predicate WholeSafe(b: Budget, owedEnd: nat, whole: seq<nat>, spans: seq<nat>, placed: seq<Placed>, held: nat, kept: nat)
    requires |placed| == |whole|
  {
    forall i :: 0 <= i < |whole| ==>
      && (placed[i] == Refused <==> i >= held)
      && (OnTape(placed[i]) <==> i < kept) && placed[i] != Tail
      && (placed[i] == Committed <==> i < kept && b.UnderCeiling(End(owedEnd, whole, i + 1)))
      && (placed[i] == PastCeiling ==> spans == [] && b.WithinBound(End(owedEnd, whole, i + 1)))
  }

  /** Every unit on the tape ends, in plan order (owed runs, the whole units kept, the sets that may
      span), where its place says; a whole unit is refused exactly when the whole units alone do not hold it. */
  ghost predicate Safe(b: Budget, fixed: nat, owed: seq<nat>, whole: seq<nat>, spans: seq<nat>, p: Plan) {
    var owedEnd := fixed + Sum(owed);
    && |p.whole| == |whole| && p.kept <= p.held <= |whole|
    && IsSpanRun(b, fixed, owed, Deferred, p.owed, p.tried)
    && (exists c :: IsWholeRun(b, fixed, whole, true, c, p.held))
    && WholeSafe(b, owedEnd, whole, spans, p.whole, p.held, p.kept)
    && |p.owed| == |owed| && |p.spans| == |spans|
    && (if Closed(p.owed) then p.kept == 0 && p.spans == seq(|spans|, i => Deferred)
        else
          && SomeSpanRun(b, owedEnd + Sum(whole[..p.kept]), spans, Refused, p.spans)
          && KeptRight(b, fixed, owedEnd, whole, spans, p.held, p.kept))
    && p.errors == WholeErrors(b, fixed, whole, p.held) + SpanErrors(b, fixed, owed, p.owed)
                   + SpanErrors(b, owedEnd + Sum(whole[..p.kept]), spans, p.spans)
  }

  lemma SpanRunIsDetermined(b: Budget, start: nat, sizes: seq<nat>, after: Placed, placed: seq<Placed>, n: nat, placed': seq<Placed>, n': nat)
    requires IsSpanRun(b, start, sizes, after, placed, n) && IsSpanRun(b, start, sizes, after, placed', n')
    ensures placed == placed' && n == n'
  {
    hide End, SpanPlaced;
    var m := if n < n' then n else n';
    assert m > 0 ==> placed[m - 1] == placed'[m - 1];
    assert n == n';
  }

  lemma SomeSpanRunIsDetermined(b: Budget, start: nat, sizes: seq<nat>, after: Placed, placed: seq<Placed>, placed': seq<Placed>)
    requires SomeSpanRun(b, start, sizes, after, placed) && SomeSpanRun(b, start, sizes, after, placed')
    ensures placed == placed'
  {
    hide IsSpanRun;
    var n :| IsSpanRun(b, start, sizes, after, placed, n);
    var n' :| IsSpanRun(b, start, sizes, after, placed', n');
    SpanRunIsDetermined(b, start, sizes, after, placed, n, placed', n');
  }

  lemma KeptIsDetermined(b: Budget, fixed: nat, owedEnd: nat, whole: seq<nat>, spans: seq<nat>, held: nat, kept: nat, kept': nat)
    requires held <= |whole|
    requires KeptRight(b, fixed, owedEnd, whole, spans, held, kept) && KeptRight(b, fixed, owedEnd, whole, spans, held, kept')
    ensures kept == kept'
  {
    hide IsWholeRun, SomeSpanRun, LargeTail, Sum;
    var c: nat, most: nat, placed :| KeptOf(b, fixed, owedEnd, whole, spans, held, kept, c, most, placed);
    var c': nat, most': nat, placed' :| KeptOf(b, fixed, owedEnd, whole, spans, held, kept', c', most', placed');
    WholeRunIsDetermined(b, owedEnd, whole[..held], spans == [], c, most, c', most');
    SomeSpanRunIsDetermined(b, owedEnd + Sum(whole[..most]), spans, Refused, placed, placed');
  }

  /** The rules leave no choice: there is one plan. */
  lemma PlanIsDetermined(b: Budget, fixed: nat, owed: seq<nat>, whole: seq<nat>, spans: seq<nat>, p: Plan, p': Plan)
    requires Safe(b, fixed, owed, whole, spans, p) && Safe(b, fixed, owed, whole, spans, p')
    ensures p == p'
  {
    hide IsWholeRun, IsSpanRun, SomeSpanRun, KeptRight, Sum, End, Closed, WholeErrors, SpanErrors;
    var owedEnd := fixed + Sum(owed);
    SpanRunIsDetermined(b, fixed, owed, Deferred, p.owed, p.tried, p'.owed, p'.tried);
    var c :| IsWholeRun(b, fixed, whole, true, c, p.held);
    var c' :| IsWholeRun(b, fixed, whole, true, c', p'.held);
    WholeRunIsDetermined(b, fixed, whole, true, c, p.held, c', p'.held);
    if !Closed(p.owed) {
      KeptIsDetermined(b, fixed, owedEnd, whole, spans, p.held, p.kept, p'.kept);
      SomeSpanRunIsDetermined(b, owedEnd + Sum(whole[..p.kept]), spans, Refused, p.spans, p'.spans);
    }
    assert p.whole == p'.whole;
  }

  /** What a place says, in bytes, of a unit that ends the plan at `end`. */
  ghost predicate EndsThere(b: Budget, end: nat, p: Placed) {
    match p
    case Committed => end + b.reserve <= b.available
    case PastCeiling => b.available < end + b.reserve && b.bound.Some? && end <= b.bound.value
    case Tail => b.available < end + b.reserve && b.bound.Some? && b.bound.value < end
    case Refused => b.available < end + b.reserve && b.bound.None?
    case Deferred => false
  }

  lemma SpanEnds(b: Budget, start: nat, sizes: seq<nat>, after: Placed, placed: seq<Placed>, i: nat)
    requires SomeSpanRun(b, start, sizes, after, placed) && i < |placed| == |sizes| && OnTape(placed[i])
    ensures EndsThere(b, start + Sum(sizes[..i + 1]), placed[i])
  {
    hide Sum;
    var n :| IsSpanRun(b, start, sizes, after, placed, n);
    assert i < n;
  }

  lemma WholeEndsThere(b: Budget, owedEnd: nat, whole: seq<nat>, spans: seq<nat>, placed: seq<Placed>, held: nat, kept: nat, i: nat)
    requires |placed| == |whole| && WholeSafe(b, owedEnd, whole, spans, placed, held, kept) && i < |whole| && OnTape(placed[i])
    ensures EndsThere(b, owedEnd + Sum(whole[..i + 1]), placed[i])
  {
    hide Sum;
  }

  /** Every unit on the tape ends where its place says: owed runs from the fixed files on, then the whole units kept,
      then the sets that may span, each in the caller's order. */
  lemma {:induction false} PlacesInBytes(b: Budget, fixed: nat, owed: seq<nat>, whole: seq<nat>, spans: seq<nat>, p: Plan)
    requires Safe(b, fixed, owed, whole, spans, p)
    ensures forall i :: 0 <= i < |owed| && OnTape(p.owed[i]) ==> EndsThere(b, fixed + Sum(owed[..i + 1]), p.owed[i])
    ensures forall i :: 0 <= i < |whole| && OnTape(p.whole[i]) ==> EndsThere(b, fixed + Sum(owed) + Sum(whole[..i + 1]), p.whole[i])
    ensures forall i :: 0 <= i < |spans| && OnTape(p.spans[i]) ==>
      EndsThere(b, fixed + Sum(owed) + Sum(whole[..p.kept]) + Sum(spans[..i + 1]), p.spans[i])
  {
    hide Sum, IsWholeRun, IsSpanRun, KeptRight, WholeErrors, SpanErrors, EndsThere;
    assert SomeSpanRun(b, fixed, owed, Deferred, p.owed);
    forall i | 0 <= i < |owed| && OnTape(p.owed[i]) ensures EndsThere(b, fixed + Sum(owed[..i + 1]), p.owed[i]) {
      SpanEnds(b, fixed, owed, Deferred, p.owed, i);
    }
    forall i | 0 <= i < |whole| && OnTape(p.whole[i]) ensures EndsThere(b, fixed + Sum(owed) + Sum(whole[..i + 1]), p.whole[i]) {
      WholeEndsThere(b, fixed + Sum(owed), whole, spans, p.whole, p.held, p.kept, i);
    }
    if !Closed(p.owed) {
      forall i | 0 <= i < |spans| && OnTape(p.spans[i])
        ensures EndsThere(b, fixed + Sum(owed) + Sum(whole[..p.kept]) + Sum(spans[..i + 1]), p.spans[i])
      {
        SpanEnds(b, fixed + Sum(owed) + Sum(whole[..p.kept]), spans, Refused, p.spans, i);
      }
    }
  }

  /** The figures an error gives show why the unit it stands for is refused. */
  ghost predicate ErrorIsTrue(b: Budget, e: LayoutError) {
    match e
    case PlanBoundExceeded(needed, bound) => b.bound == Some(bound) && bound < needed && b.available < needed + b.reserve
    case CapacityExceeded(needed, reserve, available) =>
      b.bound.None? && reserve == b.reserve && available == b.available && available < needed + reserve
    case SpanNeedsPostWarningBytes(needed, reserve, available) =>
      b.bound.None? && reserve == b.reserve && available == b.available && available < needed + reserve
  }

  lemma SpanErrorsTrue(b: Budget, start: nat, sizes: seq<nat>, after: Placed, placed: seq<Placed>, e: LayoutError)
    requires SomeSpanRun(b, start, sizes, after, placed) && |placed| == |sizes| && e in SpanErrors(b, start, sizes, placed)
    ensures ErrorIsTrue(b, e)
  {
    hide Sum, SpanErrors, FirstRefused;
    var n :| IsSpanRun(b, start, sizes, after, placed, n);
    SpanErrorAt(b, start, sizes, after, placed, n);
  }

  lemma {:induction false} WholeErrorsTrue(b: Budget, fixed: nat, whole: seq<nat>, c: nat, held: nat, e: LayoutError)
    requires IsWholeRun(b, fixed, whole, true, c, held) && e in WholeErrors(b, fixed, whole, held)
    ensures ErrorIsTrue(b, e)
  {
    WholeRunHoldsAll(b, fixed, whole, true, c, held);
    hide Sum, IsWholeRun;
  }

  lemma ErrorsAreTrue(b: Budget, fixed: nat, owed: seq<nat>, whole: seq<nat>, spans: seq<nat>, p: Plan, e: LayoutError)
    requires Safe(b, fixed, owed, whole, spans, p) && e in p.errors
    ensures ErrorIsTrue(b, e)
  {
    hide Sum, IsWholeRun, IsSpanRun, KeptRight, WholeErrors, SpanErrors, WholeSafe, ErrorIsTrue;
    var owedEnd := fixed + Sum(owed);
    if e in WholeErrors(b, fixed, whole, p.held) {
      var c :| IsWholeRun(b, fixed, whole, true, c, p.held);
      WholeErrorsTrue(b, fixed, whole, c, p.held, e);
    } else if e in SpanErrors(b, fixed, owed, p.owed) {
      assert SomeSpanRun(b, fixed, owed, Deferred, p.owed);
      SpanErrorsTrue(b, fixed, owed, Deferred, p.owed, e);
    } else {
      NoSpanErrors(b, owedEnd + Sum(whole[..p.kept]), spans, p.spans);
      if !Closed(p.owed) {
        SpanErrorsTrue(b, owedEnd + Sum(whole[..p.kept]), spans, Refused, p.spans, e);
      }
    }
  }

  /** Whole units go on no tape whose plan ends with a set of more than the bound leaves a tape. */
  lemma LargeTailIsAlone(b: Budget, fixed: nat, owed: seq<nat>, whole: seq<nat>, spans: seq<nat>, p: Plan, t: nat)
    requires Safe(b, fixed, owed, whole, spans, p) && t < |spans|
    requires p.spans[t] == Tail && b.bound.Some? && fixed < b.bound.value < fixed + spans[t]
    ensures p.kept == 0
  {
    hide IsWholeRun, SomeSpanRun, Sum, End;
    if !Closed(p.owed) {
      var owedEnd := fixed + Sum(owed);
      var c: nat, most: nat, placed :| KeptOf(b, fixed, owedEnd, whole, spans, p.held, p.kept, c, most, placed);
      if p.kept == most > 0 {
        SomeSpanRunIsDetermined(b, owedEnd + Sum(whole[..most]), spans, Refused, placed, p.spans);
        assert false;
      }
    }
  }

  /** Set t is the first whose end passes the ceiling and the bound, and is more than the bound leaves a tape. */
  ghost predicate TooLargeBehind(b: Budget, fixed: nat, start: nat, spans: seq<nat>, t: int) {
    && 0 <= t < |spans| && b.bound.Some? && fixed < b.bound.value < fixed + spans[t]
    && b.available < End(start, spans, t + 1) + b.reserve && b.bound.value < End(start, spans, t + 1)
    && forall m :: 0 < m <= t ==> End(start, spans, m) + b.reserve <= b.available || End(start, spans, m) <= b.bound.value
  }

  ghost predicate SomeTooLarge(b: Budget, fixed: nat, start: nat, spans: seq<nat>) {
    exists t :: TooLargeBehind(b, fixed, start, spans, t)
  }

  lemma {:induction false} LargeTailIff(b: Budget, fixed: nat, start: nat, spans: seq<nat>, placed: seq<Placed>, n: nat)
    requires IsSpanRun(b, start, spans, Refused, placed, n)
    ensures LargeTail(b, fixed, spans, placed) <==> SomeTooLarge(b, fixed, start, spans)
  {
    hide End;
    assert n > 0 ==> placed[n - 1] == SpanPlaced(b, End(start, spans, n));
    if LargeTail(b, fixed, spans, placed) {
      var t :| 0 <= t < |spans| && placed[t] == Tail && LargerThanOneTape(b, fixed, spans[t]);
      assert t == n - 1;
      assert forall m :: 0 < m <= t ==> placed[m - 1] == SpanPlaced(b, End(start, spans, m));
      assert TooLargeBehind(b, fixed, start, spans, t);
    }
    if t :| TooLargeBehind(b, fixed, start, spans, t) {
      if n <= t {
        assert false;
      }
      assert placed[t] == Tail;
    }
  }

  /** The whole units there is room for after the owed runs are all given up for such a set behind them, and for nothing else. */
  lemma {:induction false} GivenUpIff(b: Budget, fixed: nat, owed: seq<nat>, whole: seq<nat>, spans: seq<nat>, p: Plan, c: nat, most: nat)
    requires Safe(b, fixed, owed, whole, spans, p) && !Closed(p.owed)
    requires IsWholeRun(b, fixed + Sum(owed), whole[..p.held], spans == [], c, most)
    ensures most <= p.held && p.kept ==
            if SomeTooLarge(b, fixed, fixed + Sum(owed) + Sum(whole[..most]), spans) then 0 else most
  {
    hide IsWholeRun, IsSpanRun, LargeTail, SomeTooLarge, Sum, End;
    var owedEnd := fixed + Sum(owed);
    var c': nat, most': nat, placed :| KeptOf(b, fixed, owedEnd, whole, spans, p.held, p.kept, c', most', placed);
    WholeRunIsDetermined(b, owedEnd, whole[..p.held], spans == [], c, most, c', most');
    var n :| IsSpanRun(b, owedEnd + Sum(whole[..most]), spans, Refused, placed, n);
    LargeTailIff(b, fixed, owedEnd + Sum(whole[..most]), spans, placed, n);
  }

  lemma WholeEnds(b: Budget, start: nat, whole: seq<nat>, held: nat, past: bool, committed: nat, kept: nat)
    requires held <= |whole| && IsWholeRun(b, start, whole[..held], past, committed, kept)
    ensures kept <= |whole|
    ensures forall m :: 0 < m <= kept ==>
      if m <= committed then b.UnderCeiling(End(start, whole, m))
      else past && b.WithinBound(End(start, whole, m)) && !b.UnderCeiling(End(start, whole, m))
  {
    hide Sum;
    forall m | 0 < m <= kept
      ensures
        if m <= committed then b.UnderCeiling(End(start, whole, m))
        else past && b.WithinBound(End(start, whole, m)) && !b.UnderCeiling(End(start, whole, m))
    {
      assert whole[..held][..m] == whole[..m];
      assert End(start, whole[..held], m) == End(start, whole, m);
      if m > committed {
        EndMonotone(start, whole[..held], committed + 1, m);
      }
    }
  }

  lemma WholeRunBounds(b: Budget, start: nat, sizes: seq<nat>, past: bool, committed: nat, planned: nat)
    requires IsWholeRun(b, start, sizes, past, committed, planned)
    ensures committed <= planned <= |sizes|
  {
  }

  /** What `Safe` asks of the whole units, where `kept` of them stay on the tape. */
  lemma WholePlacedSafe(b: Budget, owedEnd: nat, whole: seq<nat>, spans: seq<nat>, held: nat, committed: nat, kept: nat)
    requires held <= |whole| && IsWholeRun(b, owedEnd, whole[..held], spans == [], committed, kept)
    ensures kept <= held
    ensures WholeSafe(b, owedEnd, whole, spans, WholePlaced(|whole|, held, committed, kept), held, kept)
    ensures WholeSafe(b, owedEnd, whole, spans, WholePlaced(|whole|, held, committed, 0), held, 0)
  {
    WholeEnds(b, owedEnd, whole, held, spans == [], committed, kept);
    hide Sum, End, IsWholeRun;
    WholeRunBounds(b, owedEnd, whole[..held], spans == [], committed, kept);
  }

  lemma SpanRunLength(b: Budget, start: nat, sizes: seq<nat>, after: Placed, placed: seq<Placed>, n: nat)
    requires IsSpanRun(b, start, sizes, after, placed, n)
    ensures |placed| == |sizes|
  {
  }

  function SumsOf(owed: seq<nat>, whole: seq<nat>, spans: seq<nat>): Sums {
    Sums(|owed|, |whole|, |spans|, Sum(owed), Sum(whole), Sum(spans),
         if spans != [] then spans[|spans| - 1] else if owed != [] then owed[|owed| - 1] else 0)
  }

  /** The closed form: everything is under the ceiling; or there is a bound, and whole units keep within it,
      a unit that may span crosses it only as the last, and beside whole units only when it is not larger
      than one tape and they are all under the ceiling. */
  predicate FitsBySums(b: Budget, fixed: nat, s: Sums) {
    var all := fixed + s.owed + s.whole + s.spans;
    || s.owedCount + s.wholeCount + s.spanCount == 0
    || b.UnderCeiling(all)
    || (b.bound.Some? &&
        if s.spanCount == 0 && s.wholeCount > 0 then all <= b.bound.value
        else
          && (s.owedCount + s.wholeCount + s.spanCount == 1 || (all >= s.last && EndsWell(b, all - s.last)))
          && (s.spanCount > 0 && s.wholeCount > 0 ==>
                && b.UnderCeiling(fixed + s.owed + s.whole)
                && (all <= b.bound.value || !LargerThanOneTape(b, fixed, s.last))))
  }

  predicate ClassesFit(b: Budget, fixed: nat, owed: seq<nat>, whole: seq<nat>, spans: seq<nat>) {
    FitsBySums(b, fixed, SumsOf(owed, whole, spans))
  }

  lemma SumLast(s: seq<nat>)
    ensures s != [] ==> Sum(s) == Sum(s[..|s| - 1]) + s[|s| - 1]
    ensures s == [] ==> Sum(s) == 0
    ensures |s| == 1 ==> Sum(s) == s[0]
  {
    assert |s| == 1 ==> s[..0] == [];
  }

  lemma {:induction false} ClosedFit(b: Budget, fixed: nat, owed: seq<nat>, whole: seq<nat>, spans: seq<nat>, owedPlaced: seq<Placed>, n: nat, p: Plan)
    requires IsSpanRun(b, fixed, owed, Deferred, owedPlaced, n) && Closed(owedPlaced)
    requires p.owed == owedPlaced && p.whole == WholePlaced(|whole|, p.held, 0, 0) && p.spans == seq(|spans|, i => Deferred)
    ensures AllOnTape(p.owed) && AllOnTape(p.whole) && AllOnTape(p.spans) <==> ClassesFit(b, fixed, owed, whole, spans)
  {
    SpanRunHoldsAll(b, fixed, owed, Deferred, owedPlaced, n);
    OpenIff(b, fixed, owed, Deferred, owedPlaced, n);
    SumLast(owed);
    SumLast(spans);
    hide IsSpanRun, Sum;
    assert spans != [] ==> p.spans[0] == Deferred;
  }

  /** An open plan, by its sums: `wholeAll`, `spansAll` and `large` are what the runs say of the whole
      units, the sets that may span, and a tail larger than one tape. */
  lemma OpenSums(b: Budget, fixed: nat, s: Sums, held: bool, kept: bool, spansAll: bool, large: bool)
    requires s.owedCount == 0 ==> s.owed == 0
    requires s.wholeCount == 0 ==> s.whole == 0
    requires s.spanCount == 0 ==> s.spans == 0 && (s.owedCount > 0 ==> s.last <= s.owed)
    requires s.spanCount > 0 ==> s.last <= s.spans && (s.spanCount == 1 ==> s.last == s.spans)
    requires s.owedCount == 0 || EndsWell(b, fixed + s.owed)
    requires held <==> s.wholeCount == 0 || WholeFits(b, fixed + s.whole, true)
    requires held ==> (kept <==> s.wholeCount == 0 || WholeFits(b, fixed + s.owed + s.whole, s.spanCount == 0))
    requires var end := fixed + s.owed + s.whole + s.spans;
      held && kept ==> (spansAll <==> s.spanCount == 0 || SpansFit(b, s.spanCount == 1, end - s.last, end))
    requires held && kept && spansAll ==>
      (large <==> s.spanCount > 0 && !EndsWell(b, fixed + s.owed + s.whole + s.spans) && LargerThanOneTape(b, fixed, s.last))
    ensures held && kept && spansAll && (s.wholeCount > 0 ==> !large) <==> FitsBySums(b, fixed, s)
  {
    if s.wholeCount == 0 {
      if s.spanCount == 0 {
      } else {
      }
    } else if s.spanCount == 0 {
    } else {
    }
  }

  lemma OpenAllOnTape(b: Budget, start: nat, sizes: seq<nat>, after: Placed, placed: seq<Placed>, n: nat)
    requires IsSpanRun(b, start, sizes, after, placed, n) && !Closed(placed)
    ensures AllOnTape(placed)
  {
    assert forall i :: 0 <= i < |placed| ==> placed[i] in placed;
  }

  /** When every set is on the tape only the last can be the tail. */
  lemma {:induction false} LargeTailIsLast(b: Budget, fixed: nat, start: nat, spans: seq<nat>, placed: seq<Placed>, m: nat)
    requires IsSpanRun(b, start, spans, Refused, placed, m) && AllOnTape(placed)
    ensures LargeTail(b, fixed, spans, placed) <==>
      spans != [] && !EndsWell(b, start + Sum(spans)) && LargerThanOneTape(b, fixed, spans[|spans| - 1])
  {
    SpanRunHoldsAll(b, start, spans, Refused, placed, m);
    hide Sum;
    if spans != [] {
      var last := |spans| - 1;
      assert spans[..last + 1] == spans;
      assert placed[last] == SpanPlaced(b, End(start, spans, last + 1)) && OnTape(placed[last]);
      assert forall t :: 0 <= t < last ==> placed[t] != Tail;
    }
  }

  lemma {:induction false} OpenFit(b: Budget, fixed: nat, owed: seq<nat>, whole: seq<nat>, spans: seq<nat>, owedPlaced: seq<Placed>, n: nat,
                c: nat, held: nat, committed: nat, kept: nat, spansPlaced: seq<Placed>, m: nat, p: Plan)
    requires IsSpanRun(b, fixed, owed, Deferred, owedPlaced, n) && !Closed(owedPlaced)
    requires IsWholeRun(b, fixed, whole, true, c, held) && held <= |whole|
    requires IsWholeRun(b, fixed + Sum(owed), whole[..held], spans == [], committed, kept) && kept <= held
    requires IsSpanRun(b, fixed + Sum(owed) + Sum(whole[..kept]), spans, Refused, spansPlaced, m) && |spansPlaced| == |spans|
    requires p.owed == owedPlaced && p.whole == WholePlaced(|whole|, held, committed, p.kept)
    requires if kept > 0 && LargeTail(b, fixed, spans, spansPlaced) then p.kept == 0
             else p.kept == kept && p.spans == spansPlaced
    ensures AllOnTape(p.owed) && AllOnTape(p.whole) && AllOnTape(p.spans) <==> ClassesFit(b, fixed, owed, whole, spans)
  {
    hide IsSpanRun, IsWholeRun, Sum, LargeTail, AllOnTape, WholePlaced, Closed, LargerThanOneTape, FitsBySums;
    var owedEnd := fixed + Sum(owed);
    OpenIff(b, fixed, owed, Deferred, owedPlaced, n);
    OpenAllOnTape(b, fixed, owed, Deferred, owedPlaced, n);
    SpanRunHoldsAll(b, owedEnd + Sum(whole[..kept]), spans, Refused, spansPlaced, m);
    WholeRunHoldsAll(b, fixed, whole, true, c, held);
    WholeRunHoldsAll(b, owedEnd, whole[..held], spans == [], committed, kept);
    SumLast(owed);
    SumLast(whole);
    SumLast(spans);
    assert whole[..|whole|] == whole;
    var large := LargeTail(b, fixed, spans, spansPlaced);
    if kept == |whole| && AllOnTape(spansPlaced) {
      LargeTailIsLast(b, fixed, owedEnd + Sum(whole), spans, spansPlaced, m);
    }
    var spansAll := AllOnTape(spansPlaced);
    OpenSums(b, fixed, SumsOf(owed, whole, spans), held == |whole|, kept == |whole|, spansAll, large);
  }

  method PlaceClasses(b: Budget, fixed: nat, owed: seq<nat>, whole: seq<nat>, spans: seq<nat>) returns (p: Plan)
    ensures |p.owed| == |owed| && |p.whole| == |whole| && |p.spans| == |spans|
    ensures Safe(b, fixed, owed, whole, spans, p)
    // whole units alone are placed as they are split: planned up to the first not held
    ensures owed == [] && spans == [] ==> p.kept == p.held
    ensures AllOnTape(p.owed) && AllOnTape(p.whole) && AllOnTape(p.spans) <==> ClassesFit(b, fixed, owed, whole, spans)
  {
    hide Sum, AllOnTape, IsSpanRun, IsWholeRun, End, ClassesFit, WholeErrors, SpanErrors;
    var c, held := WholeRun(b, fixed, whole, true);
    WholeRunBounds(b, fixed, whole, true, c, held);
    var owedPlaced, owedErrors, n := SpanRun(b, fixed, owed, Deferred);
    SpanRunLength(b, fixed, owed, Deferred, owedPlaced, n);
    var owedEnd := fixed + Sum(owed);
    if Closed(owedPlaced) {
      p := Plan(owedPlaced, WholePlaced(|whole|, held, 0, 0), seq(|spans|, i => Deferred), n, held, 0,
                WholeErrors(b, fixed, whole, held) + owedErrors);
      NoSpanErrors(b, owedEnd + Sum(whole[..0]), spans, p.spans);
      ClosedFit(b, fixed, owed, whole, spans, owedPlaced, n, p);
      return;
    }
    var committed, kept := WholeRun(b, owedEnd, whole[..held], spans == []);
    WholeRunBounds(b, owedEnd, whole[..held], spans == [], committed, kept);
    WholePlacedSafe(b, owedEnd, whole, spans, held, committed, kept);
    if owed == [] && spans == [] {
      SumLast(owed);
      WholeRunOfPlanned(b, fixed, whole, true, c, held);
      WholeRunIsDetermined(b, fixed, whole[..held], true, c, held, committed, kept);
    }
    ghost var firstKept := kept;
    var spansPlaced, spanErrors, m := SpanRun(b, owedEnd + Sum(whole[..kept]), spans, Refused);
    SpanRunLength(b, owedEnd + Sum(whole[..kept]), spans, Refused, spansPlaced, m);
    ghost var firstSpans := spansPlaced;
    ghost var firstM := m;
    assert SomeSpanRun(b, owedEnd + Sum(whole[..firstKept]), spans, Refused, firstSpans);
    if kept > 0 && LargeTail(b, fixed, spans, spansPlaced) {
      kept := 0;
      spansPlaced, spanErrors, m := SpanRun(b, owedEnd + Sum(whole[..0]), spans, Refused);
      SpanRunLength(b, owedEnd + Sum(whole[..0]), spans, Refused, spansPlaced, m);
    }
    p := Plan(owedPlaced, WholePlaced(|whole|, held, committed, kept), spansPlaced, n, held, kept,
              WholeErrors(b, fixed, whole, held) + owedErrors + spanErrors);
    assert KeptOf(b, fixed, owedEnd, whole, spans, held, kept, committed, firstKept, firstSpans);
    OpenFit(b, fixed, owed, whole, spans, owedPlaced, n, c, held, committed, firstKept, firstSpans, firstM, p);
  }

  // ----- when everything is on this tape

  /** The units of a plan by number and sum: `last` is the last in plan order that may span. */
  datatype Sums = Sums(owedCount: nat, wholeCount: nat, spanCount: nat, owed: nat, whole: nat, spans: nat, last: nat)

  // ----- item by item

  /** The place of the item, from the run of its class. */
  function PlaceOf(p: Plan, items: seq<PlanItem>, i: nat): (r: Placed)
    requires i < |items|
  {
    var run := match items[i].class_ case Owed => p.owed case Whole => p.whole case Spannable => p.spans;
    var at := |SizesOf(items[..i], items[i].class_)|;
    if at < |run| then run[at] else Deferred
  }

  ghost predicate PlacedBy(b: Budget, fixed: nat, items: seq<PlanItem>, p: Plan, placed: seq<Placed>) {
    && Safe(b, fixed, SizesOf(items, Owed), SizesOf(items, Whole), SizesOf(items, Spannable), p)
    && |placed| == |items| && forall i :: 0 <= i < |items| ==> placed[i] == PlaceOf(p, items, i)
  }

  /** Every unit of the plan is on this tape. */
  predicate Fits(b: Budget, fixed: nat, items: seq<PlanItem>) {
    ClassesFit(b, fixed, SizesOf(items, Owed), SizesOf(items, Whole), SizesOf(items, Spannable))
  }

  /** The items of one class, by index. */
  function IndicesOf(items: seq<PlanItem>, c: PlanClass): (r: seq<nat>)
    ensures |r| == |SizesOf(items, c)|
    ensures forall k :: 0 <= k < |r| ==> r[k] < |items|
  {
    if items == [] then []
    else
      var last: nat := |items| - 1;
      IndicesOf(items[..last], c) + if items[last].class_ == c then [last] else []
  }

  /** An item stands among its class's indices where its size stands among the sizes. */
  lemma {:induction false} IndexAt(items: seq<PlanItem>, c: PlanClass, i: nat)
    requires i < |items| && items[i].class_ == c
    ensures var at := |SizesOf(items[..i], c)|; at < |IndicesOf(items, c)| && IndicesOf(items, c)[at] == i
    decreases |items|
  {
    var last := |items| - 1;
    if i < last {
      IndexAt(items[..last], c, i);
      assert items[..last][..i] == items[..i];
    }
  }

  lemma {:induction false} IndicesMeaning(items: seq<PlanItem>, c: PlanClass)
    ensures Ascending(IndicesOf(items, c))
    ensures forall k :: 0 <= k < |IndicesOf(items, c)| ==>
      var i := IndicesOf(items, c)[k]; i < |items| && items[i].class_ == c && |SizesOf(items[..i], c)| == k
    decreases |items|
  {
    if items != [] {
      var last := |items| - 1;
      IndicesMeaning(items[..last], c);
      forall k | 0 <= k < |IndicesOf(items, c)|
        ensures var i := IndicesOf(items, c)[k]; i < |items| && items[i].class_ == c && |SizesOf(items[..i], c)| == k
      {
        if k < |IndicesOf(items[..last], c)| {
          var i := IndicesOf(items[..last], c)[k];
          assert items[..last][..i] == items[..i];
        }
      }
    }
  }

  /** Those of the indices whose unit is on the tape. */
  function OnTapeOf(ids: seq<nat>, placed: seq<Placed>): (r: seq<nat>)
    requires |ids| == |placed|
  {
    if ids == [] then []
    else
      var n := |ids| - 1;
      OnTapeOf(ids[..n], placed[..n]) + if OnTape(placed[n]) then [ids[n]] else []
  }

  lemma {:induction false} OnTapeOfMeaning(ids: seq<nat>, placed: seq<Placed>)
    requires |ids| == |placed|
    ensures forall x :: x in OnTapeOf(ids, placed) <==> exists k :: 0 <= k < |ids| && ids[k] == x && OnTape(placed[k])
    ensures Ascending(ids) ==> Ascending(OnTapeOf(ids, placed))
  {
    if ids != [] {
      var n := |ids| - 1;
      OnTapeOfMeaning(ids[..n], placed[..n]);
      var rest := OnTapeOf(ids[..n], placed[..n]);
      forall x ensures x in OnTapeOf(ids, placed) <==> exists k :: 0 <= k < |ids| && ids[k] == x && OnTape(placed[k]) {
        if exists k :: 0 <= k < |ids| && ids[k] == x && OnTape(placed[k]) {
          var k :| 0 <= k < |ids| && ids[k] == x && OnTape(placed[k]);
          assert k < n ==> ids[..n][k] == x && OnTape(placed[..n][k]);
        }
        if x in rest {
          var k :| 0 <= k < n && ids[..n][k] == x && OnTape(placed[..n][k]);
          assert ids[k] == x && OnTape(placed[k]);
        }
      }
      if Ascending(ids) {
        forall i | 0 <= i < |rest| ensures rest[i] < ids[n] {
          assert rest[i] in rest;
          var k :| 0 <= k < n && ids[..n][k] == rest[i] && OnTape(placed[..n][k]);
        }
      }
    }
  }

  function ClassRank(c: PlanClass): int {
    match c case Owed => 0 case Whole => 1 case Spannable => 2
  }

  /** Plan order: owed runs, whole units, sets that may span, each class in the caller's order. */
  predicate Earlier(items: seq<PlanItem>, x: nat, y: nat)
    requires x < |items| && y < |items|
  {
    ClassRank(items[x].class_) < ClassRank(items[y].class_) || (items[x].class_ == items[y].class_ && x < y)
  }

  predicate Listed(items: seq<PlanItem>, placed: seq<Placed>, x: nat)
    requires |placed| == |items| && x < |items|
  {
    OnTape(placed[x]) || (items[x].class_ == Owed && placed[x] == Refused)
  }

  /** The order lists the items on the tape, and an owed run that was refused, each once and in plan order. */
  ghost predicate IsOrder(items: seq<PlanItem>, placed: seq<Placed>, order: seq<nat>)
    requires |placed| == |items|
  {
    && (forall k :: 0 <= k < |order| ==> order[k] < |items|)
    && (forall i, j :: 0 <= i < j < |order| ==> Earlier(items, order[i], order[j]))
    && (forall x: nat :: x in order <==> x < |items| && Listed(items, placed, x))
  }

  lemma FirstIn(s: seq<nat>)
    ensures s != [] ==> s[0] in s
  {
  }

  lemma {:induction false} SameOrder(items: seq<PlanItem>, a: seq<nat>, b: seq<nat>)
    requires forall k :: 0 <= k < |a| ==> a[k] < |items|
    requires forall k :: 0 <= k < |b| ==> b[k] < |items|
    requires forall i, j :: 0 <= i < j < |a| ==> Earlier(items, a[i], a[j])
    requires forall i, j :: 0 <= i < j < |b| ==> Earlier(items, b[i], b[j])
    requires forall x: nat :: x in a <==> x in b
    ensures a == b
  {
    if a == [] {
      if b != [] {
        FirstIn(b);
        assert false;
      }
    } else {
      FirstIn(a);
      FirstIn(b);
      var i :| 0 <= i < |b| && b[i] == a[0];
      var j :| 0 <= j < |a| && a[j] == b[0];
      assert a[0] == b[0];
      forall x: nat ensures x in a[1..] <==> x in b[1..] {
        assert x in a[1..] <==> x in a && x != a[0] by {
          assert a == [a[0]] + a[1..];
        }
        assert x in b[1..] <==> x in b && x != b[0] by {
          assert b == [b[0]] + b[1..];
        }
      }
      SameOrder(items, a[1..], b[1..]);
    }
  }

  /** Such an order is the only one. */
  lemma OrderIsUnique(items: seq<PlanItem>, placed: seq<Placed>, a: seq<nat>, b: seq<nat>)
    requires |placed| == |items| && IsOrder(items, placed, a) && IsOrder(items, placed, b)
    ensures a == b
  {
    hide Listed;
    SameOrder(items, a, b);
  }

  /** The place of an item by its position in its class. */
  lemma PlaceAt(p: Plan, items: seq<PlanItem>, c: PlanClass, k: nat)
    requires |p.owed| == |SizesOf(items, Owed)| && |p.whole| == |SizesOf(items, Whole)| && |p.spans| == |SizesOf(items, Spannable)|
    requires k < |IndicesOf(items, c)|
    ensures var i := IndicesOf(items, c)[k];
      i < |items| && items[i].class_ == c &&
      PlaceOf(p, items, i) == (match c case Owed => p.owed case Whole => p.whole case Spannable => p.spans)[k]
  {
    IndicesMeaning(items, c);
    hide SizesOf, IndicesOf;
  }

  /** The owed runs tried, the whole units kept, and the sets on the tape. */
  function OrderOf(p: Plan, items: seq<PlanItem>): seq<nat>
    requires p.tried <= |IndicesOf(items, Owed)| && p.kept <= |IndicesOf(items, Whole)| && |p.spans| == |IndicesOf(items, Spannable)|
  {
    IndicesOf(items, Owed)[..p.tried] + IndicesOf(items, Whole)[..p.kept] + OnTapeOf(IndicesOf(items, Spannable), p.spans)
  }

  /** What each class's part of the order holds. */
  ghost predicate Part(items: seq<PlanItem>, c: PlanClass, placed: seq<Placed>, part: seq<nat>)
    requires |placed| == |items|
  {
    && Ascending(part)
    && (forall x: nat :: x in part <==> x < |items| && items[x].class_ == c && Listed(items, placed, x))
  }

  lemma PrefixPart(items: seq<PlanItem>, c: PlanClass, placed: seq<Placed>, n: nat)
    requires |placed| == |items| && n <= |IndicesOf(items, c)|
    requires forall k :: 0 <= k < |IndicesOf(items, c)| ==> (Listed(items, placed, IndicesOf(items, c)[k]) <==> k < n)
    ensures Part(items, c, placed, IndicesOf(items, c)[..n])
  {
    IndicesMeaning(items, c);
    var ids := IndicesOf(items, c);
    hide SizesOf, IndicesOf, Listed;
    forall x: nat | x < |items| && items[x].class_ == c && Listed(items, placed, x) ensures x in ids[..n] {
      IndexAt(items, c, x);
      var at := |SizesOf(items[..x], c)|;
      assert ids[at] == x;
      assert ids[..n][at] == x;
    }
    forall x: nat | x in ids[..n] ensures x < |items| && items[x].class_ == c && Listed(items, placed, x) {
      var k :| 0 <= k < n && ids[k] == x;
    }
  }

  lemma SpanPart(items: seq<PlanItem>, placed: seq<Placed>, spans: seq<Placed>)
    requires |placed| == |items| && |spans| == |IndicesOf(items, Spannable)|
    requires forall k :: 0 <= k < |spans| ==> (Listed(items, placed, IndicesOf(items, Spannable)[k]) <==> OnTape(spans[k]))
    ensures Part(items, Spannable, placed, OnTapeOf(IndicesOf(items, Spannable), spans))
  {
    var ids := IndicesOf(items, Spannable);
    IndicesMeaning(items, Spannable);
    OnTapeOfMeaning(ids, spans);
    hide SizesOf, IndicesOf, Listed, OnTapeOf;
    forall x: nat | x < |items| && items[x].class_ == Spannable && Listed(items, placed, x) ensures x in OnTapeOf(ids, spans) {
      IndexAt(items, Spannable, x);
      var at := |SizesOf(items[..x], Spannable)|;
      assert ids[at] == x && OnTape(spans[at]);
    }
    forall x: nat | x in OnTapeOf(ids, spans) ensures x < |items| && items[x].class_ == Spannable && Listed(items, placed, x) {
      var k :| 0 <= k < |ids| && ids[k] == x && OnTape(spans[k]);
    }
  }

  lemma PartsJoin(items: seq<PlanItem>, placed: seq<Placed>, a: seq<nat>, b: seq<nat>, c: seq<nat>)
    requires |placed| == |items|
    requires Part(items, Owed, placed, a) && Part(items, Whole, placed, b) && Part(items, Spannable, placed, c)
    ensures IsOrder(items, placed, a + b + c)
  {
    hide Listed;
    var order := a + b + c;
    forall k | 0 <= k < |order|
      ensures order[k] < |items|
      ensures items[order[k]].class_ == if k < |a| then Owed else if k < |a| + |b| then Whole else Spannable
    {
      assert order[k] in (if k < |a| then a else if k < |a| + |b| then b else c);
    }
    forall i, j | 0 <= i < j < |order| ensures Earlier(items, order[i], order[j]) {
    }
  }

  /** What the order needs of a safe plan. */
  lemma SafeParts(b: Budget, fixed: nat, owed: seq<nat>, whole: seq<nat>, spans: seq<nat>, p: Plan)
    requires Safe(b, fixed, owed, whole, spans, p)
    ensures |p.owed| == |owed| && |p.whole| == |whole| && |p.spans| == |spans| && p.tried <= |owed| && p.kept <= |whole|
    ensures forall k :: 0 <= k < |owed| ==> (OnTape(p.owed[k]) || p.owed[k] == Refused <==> k < p.tried)
    ensures forall k :: 0 <= k < |whole| ==> (OnTape(p.whole[k]) <==> k < p.kept)
  {
    hide End, Sum, KeptRight, SomeSpanRun, IsWholeRun, SpanErrors, WholeErrors;
    forall k | 0 <= k < |owed| ensures OnTape(p.owed[k]) || p.owed[k] == Refused <==> k < p.tried {
      if k < p.tried {
        SpanKinds(b, End(fixed, owed, k + 1));
      }
    }
  }

  lemma OrderIsRight(b: Budget, fixed: nat, items: seq<PlanItem>, p: Plan, placed: seq<Placed>)
    requires PlacedBy(b, fixed, items, p, placed)
    ensures p.tried <= |IndicesOf(items, Owed)| && p.kept <= |IndicesOf(items, Whole)| && |p.spans| == |IndicesOf(items, Spannable)|
    ensures IsOrder(items, placed, OrderOf(p, items))
  {
    var owed, whole, spans := IndicesOf(items, Owed), IndicesOf(items, Whole), IndicesOf(items, Spannable);
    SafeParts(b, fixed, SizesOf(items, Owed), SizesOf(items, Whole), SizesOf(items, Spannable), p);
    hide Safe, SizesOf, IndicesOf, OnTapeOf, PlaceOf;
    forall k | 0 <= k < |owed| ensures Listed(items, placed, owed[k]) <==> k < p.tried {
      PlaceAt(p, items, Owed, k);
    }
    forall k | 0 <= k < |whole| ensures Listed(items, placed, whole[k]) <==> k < p.kept {
      PlaceAt(p, items, Whole, k);
    }
    forall k | 0 <= k < |spans| ensures Listed(items, placed, spans[k]) <==> OnTape(p.spans[k]) {
      PlaceAt(p, items, Spannable, k);
    }
    PrefixPart(items, Owed, placed, p.tried);
    PrefixPart(items, Whole, placed, p.kept);
    SpanPart(items, placed, p.spans);
    PartsJoin(items, placed, owed[..p.tried], whole[..p.kept], OnTapeOf(spans, p.spans));
  }

  /** An item is refused exactly when its class's run refuses one. */
  lemma RefusedIff(items: seq<PlanItem>, p: Plan, placed: seq<Placed>, c: PlanClass)
    requires |p.owed| == |SizesOf(items, Owed)| && |p.whole| == |SizesOf(items, Whole)| && |p.spans| == |SizesOf(items, Spannable)|
    requires |placed| == |items| && forall i :: 0 <= i < |items| ==> placed[i] == PlaceOf(p, items, i)
    ensures Refused in (match c case Owed => p.owed case Whole => p.whole case Spannable => p.spans) <==>
            exists i :: 0 <= i < |items| && items[i].class_ == c && placed[i] == Refused
  {
    var run := match c case Owed => p.owed case Whole => p.whole case Spannable => p.spans;
    hide SizesOf, IndicesOf, PlaceOf;
    if Refused in run {
      var k :| 0 <= k < |run| && run[k] == Refused;
      PlaceAt(p, items, c, k);
      assert placed[IndicesOf(items, c)[k]] == Refused;
    }
    if exists i :: 0 <= i < |items| && items[i].class_ == c && placed[i] == Refused {
      var i :| 0 <= i < |items| && items[i].class_ == c && placed[i] == Refused;
      IndexAt(items, c, i);
      PlaceAt(p, items, c, |SizesOf(items[..i], c)|);
    }
  }

  lemma SafeErrors(b: Budget, fixed: nat, owed: seq<nat>, whole: seq<nat>, spans: seq<nat>, p: Plan)
    requires Safe(b, fixed, owed, whole, spans, p)
    ensures p.errors == [] <==> Refused !in p.owed && Refused !in p.whole && Refused !in p.spans
  {
    NoSpanErrors(b, fixed, owed, p.owed);
    NoSpanErrors(b, fixed + Sum(owed) + Sum(whole[..p.kept]), spans, p.spans);
    hide End, Sum, KeptRight, SomeSpanRun, IsWholeRun, IsSpanRun, SpanErrors;
    if p.held < |whole| {
      assert p.whole[p.held] == Refused;
    }
  }

  /** There is an error exactly when a unit is refused. */
  lemma ErrorsIff(b: Budget, fixed: nat, items: seq<PlanItem>, p: Plan, placed: seq<Placed>)
    requires PlacedBy(b, fixed, items, p, placed)
    ensures p.errors == [] <==> Refused !in placed
  {
    var owed, whole, spans := SizesOf(items, Owed), SizesOf(items, Whole), SizesOf(items, Spannable);
    SafeErrors(b, fixed, owed, whole, spans, p);
    SafeParts(b, fixed, owed, whole, spans, p);
    hide Safe, SizesOf, PlaceOf;
    RefusedIff(items, p, placed, Owed);
    RefusedIff(items, p, placed, Whole);
    RefusedIff(items, p, placed, Spannable);
  }

  lemma OwedRefusedIff(b: Budget, fixed: nat, owed: seq<nat>, placed: seq<Placed>, n: nat)
    requires IsSpanRun(b, fixed, owed, Deferred, placed, n)
    ensures Refused in placed <==> b.bound.None? && owed != [] && !b.UnderCeiling(fixed + Sum(owed))
  {
    OpenIff(b, fixed, owed, Deferred, placed, n);
    hide Sum, End;
    if b.bound.Some? {
      assert forall i :: 0 <= i < |placed| ==> placed[i] != Refused;
    } else {
      assert forall i :: 0 <= i < |placed| ==> placed[i] != Tail;
    }
  }

  lemma RefusedListed(items: seq<PlanItem>, placed: seq<Placed>, order: seq<nat>)
    requires |placed| == |items| && IsOrder(items, placed, order)
    ensures (exists x :: x in order && x < |items| && placed[x] == Refused) <==>
            exists i :: 0 <= i < |items| && items[i].class_ == Owed && placed[i] == Refused
  {
    if exists i :: 0 <= i < |items| && items[i].class_ == Owed && placed[i] == Refused {
      var i :| 0 <= i < |items| && items[i].class_ == Owed && placed[i] == Refused;
      var x: nat := i;
      assert x in order;
    }
  }

  /** The order lists a refused unit exactly when the drive has no bound and the owed runs pass the ceiling. */
  lemma {:induction false} OrderListsRefusedIff(b: Budget, fixed: nat, items: seq<PlanItem>, p: Plan, placed: seq<Placed>, order: seq<nat>)
    requires PlacedBy(b, fixed, items, p, placed) && IsOrder(items, placed, order)
    ensures (exists x :: x in order && x < |items| && placed[x] == Refused) <==>
            b.bound.None? && SizesOf(items, Owed) != [] && !b.UnderCeiling(fixed + Sum(SizesOf(items, Owed)))
  {
    var owed, whole, spans := SizesOf(items, Owed), SizesOf(items, Whole), SizesOf(items, Spannable);
    SafeParts(b, fixed, owed, whole, spans, p);
    OwedRefusedIff(b, fixed, owed, p.owed, p.tried);
    RefusedIff(items, p, placed, Owed);
    hide Safe, SizesOf, PlaceOf, Sum, PlacedBy;
    RefusedListed(items, placed, order);
  }

  /** One owed run, no bound and no room under the ceiling: it is refused, and it is in the order. */
  lemma RefusedRunIsListed(p: Plan, placed: seq<Placed>, order: seq<nat>)
    requires PlacedBy(Budget(0, 0, None), 0, [PlanItem(Owed, 1)], p, placed) && IsOrder([PlanItem(Owed, 1)], placed, order)
    ensures placed == [Refused] && order == [0]
  {
    var b, items := Budget(0, 0, None), [PlanItem(Owed, 1)];
    assert items[..0] == [];
    assert SizesOf(items, Owed) == [1] && [1][..0] == [] && Sum([1]) == 1;
    OrderListsRefusedIff(b, 0, items, p, placed, order);
    hide PlacedBy, SizesOf, Sum;
    assert placed[0] == Refused;
    OrderIsUnique(items, placed, order, [0]);
  }

  /** Without an error the order lists just the items on the tape. */
  lemma OrderWithoutErrors(items: seq<PlanItem>, placed: seq<Placed>, order: seq<nat>, x: nat)
    requires |placed| == |items| && IsOrder(items, placed, order) && Refused !in placed
    ensures x in order <==> x < |items| && OnTape(placed[x])
  {
    assert forall i :: 0 <= i < |placed| ==> placed[i] in placed;
  }

  lemma {:induction false} ItemOfSize(items: seq<PlanItem>, c: PlanClass, at: nat) returns (i: nat)
    requires at < |SizesOf(items, c)|
    ensures i < |items| && items[i].class_ == c && |SizesOf(items[..i], c)| == at
    decreases |items|
  {
    var last := |items| - 1;
    if at < |SizesOf(items[..last], c)| {
      i := ItemOfSize(items[..last], c, at);
      assert items[..last][..i] == items[..i];
    } else {
      i := last;
    }
  }

  lemma {:induction false} SizesGrow(items: seq<PlanItem>, c: PlanClass, i: nat)
    requires i < |items| && items[i].class_ == c
    ensures |SizesOf(items[..i], c)| < |SizesOf(items, c)|
    decreases |items|
  {
    var last := |items| - 1;
    if i < last {
      SizesGrow(items[..last], c, i);
      assert items[..last][..i] == items[..i];
    }
  }

  lemma EveryItemPlaced(items: seq<PlanItem>, p: Plan, placed: seq<Placed>)
    requires |p.owed| == |SizesOf(items, Owed)| && |p.whole| == |SizesOf(items, Whole)| && |p.spans| == |SizesOf(items, Spannable)|
    requires |placed| == |items| && forall i :: 0 <= i < |items| ==> placed[i] == PlaceOf(p, items, i)
    ensures AllOnTape(placed) <==> AllOnTape(p.owed) && AllOnTape(p.whole) && AllOnTape(p.spans)
  {
    hide SizesOf;
    forall i | 0 <= i < |items| && AllOnTape(p.owed) && AllOnTape(p.whole) && AllOnTape(p.spans) ensures OnTape(placed[i]) {
      SizesGrow(items, items[i].class_, i);
    }
    if AllOnTape(placed) {
      forall at | 0 <= at < |p.owed| ensures OnTape(p.owed[at]) {
        var i := ItemOfSize(items, Owed, at);
        assert OnTape(placed[i]);
      }
      forall at | 0 <= at < |p.whole| ensures OnTape(p.whole[at]) {
        var i := ItemOfSize(items, Whole, at);
        assert OnTape(placed[i]);
      }
      forall at | 0 <= at < |p.spans| ensures OnTape(p.spans[at]) {
        var i := ItemOfSize(items, Spannable, at);
        assert OnTape(placed[i]);
      }
    }
  }

  /** The placement of a plan's items: where each goes, in the caller's order; those on the tape in plan order; and
      the errors. */
  method Place(b: Budget, fixed: nat, items: seq<PlanItem>)
    returns (order: seq<nat>, placed: seq<Placed>, errors: seq<LayoutError>)
    ensures |placed| == |items|
    ensures AllOnTape(placed) <==> Fits(b, fixed, items)
    ensures IsOrder(items, placed, order)
    ensures errors == [] <==> Refused !in placed
    ensures exists p :: PlacedBy(b, fixed, items, p, placed) && p.errors == errors
  {
    hide Safe, ClassesFit;
    var p := PlaceClasses(b, fixed, SizesOf(items, Owed), SizesOf(items, Whole), SizesOf(items, Spannable));
    placed := seq(|items|, i requires 0 <= i < |items| => PlaceOf(p, items, i));
    assert PlacedBy(b, fixed, items, p, placed);
    EveryItemPlaced(items, p, placed);
    OrderIsRight(b, fixed, items, p, placed);
    ErrorsIff(b, fixed, items, p, placed);
    order, errors := OrderOf(p, items), p.errors;
  }
}
