/** `config set`'s readings of a value: every choice of literal or string per
    slot, fewest string fallbacks first, and the first that may be written. */
module ValueSearch {

  // ----- masks

  function Pow2(k: nat): (p: nat)
    ensures p > 0
  {
    if k == 0 then 1 else 2 * Pow2(k - 1)
  }

  /** mask & (1 << bit) != 0 */
  predicate BitSet(mask: nat, bit: nat)
    decreases bit
  {
    if bit == 0 then mask % 2 == 1 else BitSet(mask / 2, bit - 1)
  }

  function CountOnes(mask: nat): (n: nat) {
    if mask == 0 then 0 else mask % 2 + CountOnes(mask / 2)
  }

  /** The order the masks are tried in: by ones, then by value. */
  predicate Leq(a: nat, b: nat) {
    CountOnes(a) < CountOnes(b) || (CountOnes(a) == CountOnes(b) && a <= b)
  }

  ghost predicate SortedMasks(s: seq<nat>) {
    forall i, j :: 0 <= i < j < |s| ==> Leq(s[i], s[j])
  }

  ghost predicate Distinct<T>(s: seq<T>) {
    forall i, j :: 0 <= i < j < |s| ==> s[i] != s[j]
  }

  lemma DistinctInserted(s: seq<nat>, i: nat, x: nat)
    requires Distinct(s) && i <= |s| && x !in s
    ensures Distinct(s[..i] + [x] + s[i..])
  {
    var t := s[..i] + [x] + s[i..];
    assert forall j :: 0 <= j < |t| ==> t[j] == if j < i then s[j] else if j == i then x else s[j - 1];
    assert forall j :: 0 <= j < |s| ==> s[j] in s;
  }

  /** Every mask below n once, in order. */
  method SortedMasksBelow(n: nat) returns (r: seq<nat>)
    ensures SortedMasks(r) && Distinct(r)
    ensures forall m: nat :: m in r <==> m < n
    ensures forall i, j :: 0 <= i < j < |r| ==> CountOnes(r[i]) <= CountOnes(r[j]) && (CountOnes(r[i]) == CountOnes(r[j]) ==> r[i] < r[j])
  {
    hide CountOnes;
    r := [];
    for x := 0 to n
      invariant SortedMasks(r) && Distinct(r)
      invariant forall m: nat :: m in r <==> m < x
    {
      var i := |r|;
      while i > 0 && !Leq(r[i - 1], x)
        invariant 0 <= i <= |r|
        invariant forall j :: i <= j < |r| ==> Leq(x, r[j])
      {
        i := i - 1;
      }
      assert forall j :: 0 <= j < i ==> Leq(r[j], x);
      ghost var was := r;
      DistinctInserted(r, i, x);
      r := r[..i] + [x] + r[i..];
      assert forall m: nat :: m in r <==> m in was || m == x by {
        assert was == was[..i] + was[i..];
      }
    }
  }

  // ----- picks: for each slot, which of its candidates

  /** The number of slots with more than one candidate. */
  function Ambiguous(sizes: seq<nat>): (n: nat)
    ensures n <= |sizes|
  {
    if sizes == [] then 0 else (if sizes[0] > 1 then 1 else 0) + Ambiguous(sizes[1..])
  }

  ghost predicate Slots(sizes: seq<nat>) {
    forall i :: 0 <= i < |sizes| ==> 1 <= sizes[i] <= 2
  }

  ghost predicate IsPick(p: seq<nat>, sizes: seq<nat>) {
    |p| == |sizes| && forall i :: 0 <= i < |p| ==> p[i] < sizes[i]
  }

  /** How many slots fall back to the string reading. */
  function Fallbacks(p: seq<nat>): (n: nat) {
    if p == [] then 0 else p[0] + Fallbacks(p[1..])
  }

  /** The slots that can be read in two ways are those counted. */
  lemma {:induction false} AmbiguousCounted(sizes: seq<nat>)
    requires Slots(sizes)
    ensures Ambiguous(sizes) == multiset(sizes)[2]
  {
    if sizes != [] {
      AmbiguousCounted(sizes[1..]);
      assert sizes == [sizes[0]] + sizes[1..];
    }
  }

  /** And the fallbacks of a pick are the slots read the second way. */
  lemma {:induction false} FallbacksCounted(p: seq<nat>, sizes: seq<nat>)
    requires Slots(sizes) && IsPick(p, sizes)
    ensures Fallbacks(p) == multiset(p)[1]
  {
    if p != [] {
      FallbacksCounted(p[1..], sizes[1..]);
      assert p == [p[0]] + p[1..];
    }
  }

  /** Bit b of the mask chooses for the b-th ambiguous slot. */
  function PickOf(sizes: seq<nat>, mask: nat): (p: seq<nat>)
    ensures |p| == |sizes|
  {
    if sizes == [] then []
    else if sizes[0] > 1 then [mask % 2] + PickOf(sizes[1..], mask / 2)
    else [0] + PickOf(sizes[1..], mask)
  }

  /** The mask that makes a pick. */
  function MaskOf(sizes: seq<nat>, p: seq<nat>): (m: nat)
    requires |p| == |sizes|
  {
    if sizes == [] then 0
    else if sizes[0] > 1 then p[0] + 2 * MaskOf(sizes[1..], p[1..])
    else MaskOf(sizes[1..], p[1..])
  }

  lemma {:induction false} PickOfMaskOf(sizes: seq<nat>, p: seq<nat>)
    requires Slots(sizes) && IsPick(p, sizes)
    ensures MaskOf(sizes, p) < Pow2(Ambiguous(sizes)) && PickOf(sizes, MaskOf(sizes, p)) == p
  {
    if sizes != [] {
      PickOfMaskOf(sizes[1..], p[1..]);
      assert p == [p[0]] + p[1..];
    }
  }

  lemma {:induction false} MaskOfPickOf(sizes: seq<nat>, m: nat)
    requires Slots(sizes) && m < Pow2(Ambiguous(sizes))
    ensures IsPick(PickOf(sizes, m), sizes)
    ensures MaskOf(sizes, PickOf(sizes, m)) == m && Fallbacks(PickOf(sizes, m)) == CountOnes(m)
  {
    if sizes != [] {
      var p := PickOf(sizes, m);
      MaskOfPickOf(sizes[1..], if sizes[0] > 1 then m / 2 else m);
      assert p[1..] == PickOf(sizes[1..], if sizes[0] > 1 then m / 2 else m);
    }
  }

  /** Slot i's place among the ambiguous ones. */
  lemma {:induction false} PickAt(sizes: seq<nat>, mask: nat, i: nat)
    requires i < |sizes|
    ensures PickOf(sizes, mask)[i] == if sizes[i] > 1 && BitSet(mask, Ambiguous(sizes[..i])) then 1 else 0
  {
    if i > 0 {
      PickAt(sizes[1..], if sizes[0] > 1 then mask / 2 else mask, i - 1);
      assert sizes[..i][1..] == sizes[1..][..i - 1];
    }
  }

  lemma {:induction false} AmbiguousNext(sizes: seq<nat>, i: nat)
    requires i < |sizes|
    ensures Ambiguous(sizes[..i + 1]) == Ambiguous(sizes[..i]) + if sizes[i] > 1 then 1 else 0
  {
    if i > 0 {
      AmbiguousNext(sizes[1..], i - 1);
      assert sizes[..i + 1][1..] == sizes[1..][..i] && sizes[..i][1..] == sizes[1..][..i - 1];
    }
  }

  const MOST_AMBIGUOUS: nat := 10
  const MASK_BITS: nat := 32

  /** The pick one mask makes, slot by slot; only the mask's 32 bits can choose. */
  method MakePick(sizes: seq<nat>, mask: nat) returns (p: seq<nat>)
    ensures |p| == |sizes|
    ensures forall i :: 0 <= i < |p| ==>
      p[i] == if sizes[i] > 1 && Ambiguous(sizes[..i]) < MASK_BITS && BitSet(mask, Ambiguous(sizes[..i])) then 1 else 0
  {
    p := [];
    var bit := 0;
    for i := 0 to |sizes|
      invariant |p| == i && bit == Ambiguous(sizes[..i])
      invariant forall j :: 0 <= j < i ==>
        p[j] == if sizes[j] > 1 && Ambiguous(sizes[..j]) < MASK_BITS && BitSet(mask, Ambiguous(sizes[..j])) then 1 else 0
    {
      AmbiguousNext(sizes, i);
      p := p + [if sizes[i] > 1 && bit < MASK_BITS && BitSet(mask, bit) then 1 else 0];
      if sizes[i] > 1 {
        bit := bit + 1;
      }
    }
  }

  lemma {:induction false} FewBits(sizes: seq<nat>, i: nat)
    requires i <= |sizes|
    ensures Ambiguous(sizes[..i]) <= Ambiguous(sizes)
    decreases |sizes| - i
  {
    if i < |sizes| {
      AmbiguousNext(sizes, i);
      FewBits(sizes, i + 1);
    } else {
      assert sizes[..i] == sizes;
    }
  }

  /** Every pick exactly once, by fallbacks. */
  ghost predicate EveryPickOnce(r: seq<seq<nat>>, sizes: seq<nat>) {
    && (forall p :: p in r <==> IsPick(p, sizes))
    && Distinct(r)
    && forall i, j :: 0 <= i < j < |r| ==> Fallbacks(r[i]) <= Fallbacks(r[j])
  }

  ghost predicate MadeBy(r: seq<seq<nat>>, sizes: seq<nat>, masks: seq<nat>) {
    |r| == |masks| && forall i :: 0 <= i < |r| ==> r[i] == PickOf(sizes, masks[i])
  }

  lemma MasksMakeEveryPick(sizes: seq<nat>, masks: seq<nat>, r: seq<seq<nat>>)
    requires Slots(sizes) && SortedMasks(masks) && Distinct(masks)
    requires forall m: nat :: m in masks <==> m < Pow2(Ambiguous(sizes))
    requires MadeBy(r, sizes, masks)
    ensures EveryPickOnce(r, sizes)
  {
    hide PickOf, MaskOf, Fallbacks, CountOnes, Ambiguous, Pow2;
    forall p ensures p in r <==> IsPick(p, sizes) {
      if IsPick(p, sizes) {
        PickOfMaskOf(sizes, p);
        var m := MaskOf(sizes, p);
        assert m in masks;
        var i :| 0 <= i < |masks| && masks[i] == m;
        assert r[i] == p;
      }
      if p in r {
        var i :| 0 <= i < |r| && r[i] == p;
        assert masks[i] in masks;
        MaskOfPickOf(sizes, masks[i]);
      }
    }
    forall i, j | 0 <= i < j < |r| ensures r[i] != r[j] && Fallbacks(r[i]) <= Fallbacks(r[j]) {
      assert masks[i] in masks && masks[j] in masks;
      MaskOfPickOf(sizes, masks[i]);
      MaskOfPickOf(sizes, masks[j]);
      assert Leq(masks[i], masks[j]);
    }
  }

  lemma PickLength(sizes: seq<nat>, mask: nat)
    ensures |PickOf(sizes, mask)| == |sizes|
  {
  }

  lemma PickMade(sizes: seq<nat>, mask: nat, p: seq<nat>)
    requires Ambiguous(sizes) <= MOST_AMBIGUOUS && |p| == |sizes|
    requires forall i :: 0 <= i < |p| ==>
      p[i] == if sizes[i] > 1 && Ambiguous(sizes[..i]) < MASK_BITS && BitSet(mask, Ambiguous(sizes[..i])) then 1 else 0
    ensures p == PickOf(sizes, mask)
  {
    hide PickOf, Ambiguous, BitSet;
    forall i | 0 <= i < |p| ensures p[i] == PickOf(sizes, mask)[i] {
      PickAt(sizes, mask, i);
      FewBits(sizes, i);
    }
    assert |PickOf(sizes, mask)| == |sizes| by { PickLength(sizes, mask); }
  }

  ghost predicate AllLiteral(p: seq<nat>, sizes: seq<nat>) {
    |p| == |sizes| && forall i :: 0 <= i < |p| ==> p[i] == 0
  }

  /** Every ambiguous slot takes its string. */
  ghost predicate AllString(p: seq<nat>, sizes: seq<nat>) {
    |p| == |sizes| && forall i :: 0 <= i < |p| ==> p[i] == if sizes[i] > 1 then 1 else 0
  }

  lemma {:induction false} NotSet(bit: nat)
    ensures !BitSet(0, bit)
  {
    if bit > 0 {
      NotSet(bit - 1);
    }
  }

  lemma NoneSet()
    ensures forall bit: nat :: !BitSet(0, bit)
  {
    forall bit: nat ensures !BitSet(0, bit) {
      NotSet(bit);
    }
  }

  lemma {:induction false} LowBits(k: nat, bit: nat)
    requires bit < k
    ensures BitSet(Pow2(k) - 1, bit)
  {
    assert Pow2(k) - 1 == 2 * (Pow2(k - 1) - 1) + 1;
    if bit > 0 {
      LowBits(k - 1, bit - 1);
    }
  }

  lemma AllSet()
    ensures forall bit: nat :: bit < MASK_BITS ==> BitSet(0xffff_ffff, bit)
  {
    assert Pow2(8) == 256;
    assert Pow2(16) == 65536;
    assert Pow2(24) == 16777216;
    assert Pow2(32) == 0x1_0000_0000;
    forall bit: nat | bit < MASK_BITS ensures BitSet(0xffff_ffff, bit) {
      LowBits(MASK_BITS, bit);
    }
  }

  lemma {:induction false} SlotOfBit(sizes: seq<nat>, bit: nat) returns (i: nat)
    requires bit < Ambiguous(sizes)
    ensures i < |sizes| && sizes[i] > 1 && Ambiguous(sizes[..i]) == bit
    decreases |sizes|
  {
    var last := |sizes| - 1;
    AmbiguousNext(sizes, last);
    assert sizes[..last + 1] == sizes;
    if bit < Ambiguous(sizes[..last]) {
      i := SlotOfBit(sizes[..last], bit);
      assert sizes[..last][..i] == sizes[..i];
    } else {
      i := last;
    }
  }

  /** The full mask reads every ambiguous slot as a string only while it has a bit for each. */
  lemma AllStringIff(sizes: seq<nat>, p: seq<nat>)
    requires |p| == |sizes|
    requires forall i :: 0 <= i < |p| ==>
      p[i] == if sizes[i] > 1 && Ambiguous(sizes[..i]) < MASK_BITS && BitSet(0xffff_ffff, Ambiguous(sizes[..i])) then 1 else 0
    ensures AllString(p, sizes) <==> Ambiguous(sizes) <= MASK_BITS
  {
    hide Ambiguous, BitSet;
    AllSet();
    if Ambiguous(sizes) <= MASK_BITS {
      forall i | 0 <= i < |p| && sizes[i] > 1 ensures p[i] == 1 {
        AmbiguousNext(sizes, i);
        FewBits(sizes, i + 1);
      }
    } else {
      var i := SlotOfBit(sizes, MASK_BITS);
      assert p[i] == 0;
    }
  }

  method Combos(sizes: seq<nat>) returns (r: seq<seq<nat>>)
    requires Slots(sizes)
    ensures Ambiguous(sizes) <= 10 ==> EveryPickOnce(r, sizes)
    ensures Ambiguous(sizes) > 10 ==>
      |r| == 2 && AllLiteral(r[0], sizes) && (AllString(r[1], sizes) <==> Ambiguous(sizes) <= 32)
    ensures forall i :: 0 <= i < |r| ==> IsPick(r[i], sizes)
    ensures r != []
  {
    hide PickOf, Ambiguous, CountOnes, Pow2, BitSet;
    r := [];
    if Ambiguous(sizes) <= MOST_AMBIGUOUS {
      var masks := SortedMasksBelow(Pow2(Ambiguous(sizes)));
      for i := 0 to |masks|
        invariant |r| == i && forall j :: 0 <= j < i ==> r[j] == PickOf(sizes, masks[j])
      {
        var p := MakePick(sizes, masks[i]);
        PickMade(sizes, masks[i], p);
        r := r + [p];
      }
      MasksMakeEveryPick(sizes, masks, r);
      assert 0 in masks;
      assert forall i :: 0 <= i < |r| ==> r[i] in r;
    } else {
      var none := MakePick(sizes, 0);
      var all := MakePick(sizes, 0xffff_ffff);
      NoneSet();
      AllSet();
      AllStringIff(sizes, all);
      r := [none, all];
    }
  }

  // ----- past ten ambiguous slots

  lemma {:induction false} EverySlotAmbiguous(n: nat)
    ensures Ambiguous(seq(n, i => 2)) == n
  {
    if n > 0 {
      EverySlotAmbiguous(n - 1);
      assert seq(n, i => 2)[1..] == seq(n - 1, i => 2) && seq(n, i => 2)[..n - 1] == seq(n - 1, i => 2);
    }
  }

  /** At 33 ambiguous slots the second reading keeps a literal: that of the last slot, which no bit of the mask reaches. */
  lemma ThirtyThreeSlots(p: seq<nat>)
    requires |p| == 33
    requires var sizes := seq(33, i => 2);
      forall i :: 0 <= i < |p| ==>
        p[i] == if Ambiguous(sizes[..i]) < MASK_BITS && BitSet(0xffff_ffff, Ambiguous(sizes[..i])) then 1 else 0
    ensures var sizes := seq(33, i => 2);
      Ambiguous(sizes) == 33 && p[32] == 0 && !AllString(p, sizes)
  {
    var sizes := seq(33, i => 2);
    EverySlotAmbiguous(33);
    EverySlotAmbiguous(32);
    assert sizes[..32] == seq(32, i => 2);
    hide Ambiguous, BitSet;
    assert p[32] == 0;
    assert sizes[32] == 2;
  }

  // ----- the verdict on one reading

  /** What `config check` reports of a text. */
  datatype Report = Report(valid: bool, problems: seq<string>, bestEffort: bool, capProblems: seq<string>, typeError: bool)

  /** A text that does not load has its load error first among its problems. */
  predicate Sound(r: Report) {
    !r.valid ==> r.problems != []
  }

  ghost predicate NoneNew(before: seq<string>, after: seq<string>) {
    forall p :: p in after ==> p in before
  }

  /** Whether a text may be written over one that was reported `before`. */
  ghost predicate Acceptable(before: Report, after: Report)
    requires Sound(before) && Sound(after)
  {
    && NoneNew(before.capProblems, after.capProblems)
    && (after.valid ||
        (!before.valid && before.bestEffort && after.bestEffort && NoneNew(before.problems[1..], after.problems[1..])))
  }

  /** An edit that only takes problems away from a file that does not load is let through, whether or not it then loads. */
  lemma RepairIsAccepted(before: Report, after: Report)
    requires Sound(before) && Sound(after) && !before.valid && before.bestEffort && after.bestEffort
    requires forall i :: 1 <= i < |after.problems| ==> exists j :: 1 <= j < |before.problems| && before.problems[j] == after.problems[i]
    requires forall p :: p in after.capProblems ==> p in before.capProblems
    ensures Acceptable(before, after)
  {
    if !after.valid {
      forall p | p in after.problems[1..] ensures p in before.problems[1..] {
        var i :| 0 <= i < |after.problems[1..]| && after.problems[1..][i] == p;
        var j :| 1 <= j < |before.problems| && before.problems[j] == after.problems[i + 1];
        assert before.problems[1..][j - 1] == p;
      }
    }
  }

  /** A text that does not load is let through over no file that loads, and over none where either has no breakdown to compare. */
  lemma BrokenIsRefused(before: Report, after: Report)
    requires Sound(before) && Sound(after) && !after.valid
    requires before.valid || !before.bestEffort || !after.bestEffort
    ensures !Acceptable(before, after)
  {
  }

  /** A text that loads is let through over any file whose cap problems include its own. */
  lemma LoadingIsAccepted(before: Report, after: Report)
    requires Sound(before) && Sound(after) && after.valid
    ensures Acceptable(before, after) <==> forall p :: p in after.capProblems ==> p in before.capProblems
  {
  }

  /** A run of edits, each accepted over the last. */
  ghost predicate AcceptedRun(run: seq<Report>) {
    && run != []
    && (forall i :: 0 <= i < |run| ==> Sound(run[i]))
    && forall i :: 0 < i < |run| ==> Acceptable(run[i - 1], run[i])
  }

  /** Over any run of accepted edits no cap problem and no problem appears that the first file did
      not have, and a file that loads goes on loading. */
  lemma {:induction false} RunsOnlyRepair(run: seq<Report>)
    requires AcceptedRun(run)
    ensures var first, last := run[0], run[|run| - 1];
      && NoneNew(first.capProblems, last.capProblems)
      && (first.valid ==> last.valid)
      && (!last.valid ==> NoneNew(first.problems[1..], last.problems[1..]))
      && (|run| > 1 ==> Acceptable(first, last))
  {
    if |run| > 1 {
      var rest := run[..|run| - 1];
      assert rest[0] == run[0] && rest[|rest| - 1] == run[|run| - 2];
      RunsOnlyRepair(rest);
      assert Acceptable(run[|run| - 2], run[|run| - 1]);
    }
  }

  // ----- the search

  datatype Reading<T> = Applied(text: T, report: Report) | ApplyError

  datatype Found<V, T> =
    | Chosen(text: T, values: seq<V>)
    | Refused(explained: Report)
    | Failed

  /** The values a pick chooses. */
  function Values<V>(slots: seq<seq<V>>, p: seq<nat>): (v: seq<V>)
    requires |p| == |slots| && forall i :: 0 <= i < |p| ==> p[i] < |slots[i]|
    ensures |v| == |slots| && forall i :: 0 <= i < |v| ==> v[i] == slots[i][p[i]]
  {
    seq(|slots|, i requires 0 <= i < |slots| => slots[i][p[i]])
  }

  function Sizes<V>(slots: seq<seq<V>>): (s: seq<nat>)
    ensures |s| == |slots| && forall i :: 0 <= i < |s| ==> s[i] == |slots[i]|
  {
    seq(|slots|, i requires 0 <= i < |slots| => |slots[i]|)
  }

  /** A reading of the slots that may be written. */
  ghost predicate Writable<V, T>(slots: seq<seq<V>>, p: seq<nat>, before: Report, apply: seq<V> -> Reading<T>)
    requires Sound(before) && IsPick(p, Sizes(slots))
  {
    var r := apply(Values(slots, p));
    r.Applied? && Sound(r.report) && Acceptable(before, r.report)
  }

  ghost predicate Writes(before: Report, r: Report) {
    Sound(before) && Sound(r) && Acceptable(before, r)
  }

  /** `Acceptable`, as the code decides it. */
  predicate MayWrite(before: Report, after: Report)
    requires Sound(before) && Sound(after)
    ensures MayWrite(before, after) <==> Acceptable(before, after)
  {
    if exists i :: 0 <= i < |after.capProblems| && after.capProblems[i] !in before.capProblems then false
    else if after.valid then true
    else if before.valid || !before.bestEffort || !after.bestEffort then false
    else forall i :: 1 <= i < |after.problems| ==> after.problems[i] in before.problems[1..]
  }

  /** The reading a refusal explains: the first that is not a mere type error, else the first. */
  method Explained(refused: seq<Report>) returns (k: nat)
    requires refused != []
    ensures k < |refused|
    ensures refused[k].typeError ==> k == 0 && forall i :: 0 <= i < |refused| ==> refused[i].typeError
    ensures !refused[k].typeError ==> forall i :: 0 <= i < k ==> refused[i].typeError
  {
    k := 0;
    while k < |refused| && refused[k].typeError
      invariant k <= |refused| && forall i :: 0 <= i < k ==> refused[i].typeError
    {
      k := k + 1;
    }
    if k == |refused| {
      k := 0;
    }
  }

  method Search<V, T>(slots: seq<seq<V>>, before: Report, apply: seq<V> -> Reading<T>)
    returns (found: Found<V, T>, ghost pick: seq<nat>)
    requires Slots(Sizes(slots)) && Sound(before)
    requires forall v :: apply(v).Applied? ==> Sound(apply(v).report)
    ensures found.Chosen? ==>
      && IsPick(pick, Sizes(slots)) && Writable(slots, pick, before, apply)
      && found.values == Values(slots, pick) && found.text == apply(found.values).text
    ensures found.Failed? ==> exists v :: |v| == |slots| && apply(v).ApplyError?
    ensures found.Refused? ==> !Writes(before, found.explained)
    // with few enough slots and an edit that applies to every reading: the fewest fallbacks, or no reading at all
    ensures Ambiguous(Sizes(slots)) <= 10 && (forall v :: apply(v).Applied?) ==>
      && !found.Failed?
      && (found.Chosen? ==> forall p :: IsPick(p, Sizes(slots)) && Writable(slots, p, before, apply) ==> Fallbacks(pick) <= Fallbacks(p))
      && (found.Refused? ==> forall p :: IsPick(p, Sizes(slots)) ==> !Writable(slots, p, before, apply))
  {
    hide Fallbacks, Ambiguous, Acceptable;
    var sizes := Sizes(slots);
    var picks := Combos(sizes);
    var refused: seq<Report> := [];
    pick := [];
    for i := 0 to |picks|
      invariant |refused| == i
      invariant forall j :: 0 <= j < i ==> IsPick(picks[j], sizes) && !Writable(slots, picks[j], before, apply)
      invariant forall j :: 0 <= j < i ==> Sound(refused[j]) && !Acceptable(before, refused[j])
    {
      var values := Values(slots, picks[i]);
      var reading := apply(values);
      if reading.ApplyError? {
        return Failed, pick;
      }
      if MayWrite(before, reading.report) {
        pick := picks[i];
        return Chosen(reading.text, values), pick;
      }
      refused := refused + [reading.report];
    }
    var k := Explained(refused);
    return Refused(refused[k]), pick;
  }
}
