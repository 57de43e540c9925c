/** The one-process tape writer: fill to the first refusal, the post-warning
    slice with retries, filemark, seal block, filemark, walk to the hard end. */
module FillWriter {
  import opened Common
  import opened Tape
  import opened FillRecord

  datatype Options = Options(
    sliceBlocks: int, refusalRunLimit: int, stopAtWarning: bool, toHardEnd: bool,
    hardEndCap: int, maxFillBytes: int)

  const RUNS_KEPT: nat := 400

  lemma {:induction false} ExpandAppended(runs: seq<OutcomeRun>, r: OutcomeRun)
    ensures Expand(runs + [r]) == Expand(runs) + seq(r.length, i => r.outcome)
  {
    assert (runs + [r])[..|runs|] == runs;
  }

  /** Lengthening the last run appends one outcome. */
  lemma ExpandLengthened(runs: seq<OutcomeRun>, r: OutcomeRun)
    ensures Expand(runs + [r.(length := r.length + 1)]) == Expand(runs + [r]) + [r.outcome]
  {
    ExpandAppended(runs, r);
    ExpandAppended(runs, r.(length := r.length + 1));
    assert seq(r.length + 1, i => r.outcome) == seq(r.length, i => r.outcome) + [r.outcome];
  }

  lemma RunLengthened(out: seq<OutcomeRun>, o: Outcome)
    requires Canonical(out) && out != [] && out[|out| - 1].outcome == o
    ensures var last := |out| - 1;
      var next := out[..last] + [OutcomeRun(o, out[last].length + 1)];
      Expand(next) == Expand(out) + [o] && Canonical(next)
  {
    hide Expand;
    var last := |out| - 1;
    assert out == out[..last] + [out[last]];
    ExpandLengthened(out[..last], out[last]);
  }

  lemma {:induction false} RunStarted(out: seq<OutcomeRun>, o: Outcome)
    requires Canonical(out) && (out != [] ==> out[|out| - 1].outcome != o)
    ensures var next := out + [OutcomeRun(o, 1)]; Expand(next) == Expand(out) + [o] && Canonical(next)
  {
    ExpandAppended(out, OutcomeRun(o, 1));
    hide Expand;
    assert seq(1, i => o) == [o];
  }

  method RunLengths(s: seq<Outcome>) returns (out: seq<OutcomeRun>)
    ensures Expand(out) == s && Canonical(out)
  {
    out := [];
    assert Expand(out) == s[..0] && Canonical(out);
    hide Expand, Canonical;
    for i := 0 to |s|
      invariant Expand(out) == s[..i] && Canonical(out)
    {
      assert s[..i + 1] == s[..i] + [s[i]];
      var last := |out| - 1;
      if out != [] && out[last].outcome == s[i] {
        RunLengthened(out, s[i]);
        out := out[..last] + [OutcomeRun(s[i], out[last].length + 1)];
      } else {
        RunStarted(out, s[i]);
        out := out + [OutcomeRun(s[i], 1)];
      }
    }
    assert s[..|s|] == s;
  }

  lemma {:induction false} ExpandEmptyIff(runs: seq<OutcomeRun>)
    requires Canonical(runs)
    ensures Expand(runs) == [] <==> runs == []
  {
  }

  /** The runs without their last outcome. */
  function LastOff(runs: seq<OutcomeRun>): seq<OutcomeRun>
    requires runs != []
  {
    var last := |runs| - 1;
    runs[..last] + if runs[last].length > 1 then [OutcomeRun(runs[last].outcome, runs[last].length - 1)] else []
  }

  /** The runs with one outcome more. */
  function PutOn(runs: seq<OutcomeRun>, o: Outcome): seq<OutcomeRun> {
    var last := |runs| - 1;
    if runs != [] && runs[last].outcome == o then runs[..last] + [OutcomeRun(o, runs[last].length + 1)]
    else runs + [OutcomeRun(o, 1)]
  }

  lemma {:induction false} LastTaken(runs: seq<OutcomeRun>)
    requires Canonical(runs) && runs != []
    ensures Canonical(LastOff(runs))
    ensures Expand(runs) == Expand(LastOff(runs)) + [runs[|runs| - 1].outcome]
    ensures PutOn(LastOff(runs), runs[|runs| - 1].outcome) == runs
  {
    var last := |runs| - 1;
    var rest, r := runs[..last], runs[last];
    assert runs == rest + [r];
    if r.length > 1 {
      ExpandLengthened(rest, OutcomeRun(r.outcome, r.length - 1));
    } else {
      ExpandAppended(rest, r);
      assert seq(1, i => r.outcome) == [r.outcome];
      assert LastOff(runs) == rest;
    }
  }

  /** A canonical list is the only one for its outcomes. */
  lemma {:induction false} CanonicalIsUnique(a: seq<OutcomeRun>, b: seq<OutcomeRun>)
    requires Canonical(a) && Canonical(b) && Expand(a) == Expand(b)
    ensures a == b
    decreases |Expand(a)|
  {
    if a == [] {
      ExpandEmptyIff(b);
    } else {
      hide Canonical, Expand, LastOff, PutOn;
      ExpandEmptyIff(a);
      ExpandEmptyIff(b);
      LastTaken(a);
      LastTaken(b);
      var s := Expand(a);
      assert Expand(LastOff(a)) == s[..|s| - 1] == Expand(LastOff(b));
      assert a[|a| - 1].outcome == s[|s| - 1] == b[|b| - 1].outcome;
      CanonicalIsUnique(LastOff(a), LastOff(b));
    }
  }

  function Total(totals: map<Outcome, nat>, o: Outcome): nat {
    if o in totals then totals[o] else 0
  }

  lemma {:induction false} CountCopies(o: Outcome, n: nat)
    ensures multiset(seq(n, j => o)) == multiset{}[o := n]
  {
    if n > 0 {
      CountCopies(o, n - 1);
      assert seq(n, j => o) == seq(n - 1, j => o) + [o];
    }
  }

  /** Each outcome of the runs with the number of times it occurs. */
  ghost predicate TotalsRight(totals: map<Outcome, nat>, runs: seq<OutcomeRun>) {
    && (forall o :: Total(totals, o) == multiset(Expand(runs))[o])
    && (forall o :: o in totals <==> exists i :: 0 <= i < |runs| && runs[i].outcome == o)
  }

  lemma {:induction false} CountNext(runs: seq<OutcomeRun>, r: OutcomeRun, o: Outcome)
    ensures multiset(Expand(runs + [r]))[o] == multiset(Expand(runs))[o] + if o == r.outcome then r.length else 0
  {
    ExpandAppended(runs, r);
    CountCopies(r.outcome, r.length);
  }

  lemma {:induction false} TotalsNext(totals: map<Outcome, nat>, runs: seq<OutcomeRun>, r: OutcomeRun)
    requires TotalsRight(totals, runs)
    ensures TotalsRight(totals[r.outcome := Total(totals, r.outcome) + r.length], runs + [r])
  {
    hide Expand;
    var more, next := runs + [r], totals[r.outcome := Total(totals, r.outcome) + r.length];
    forall o ensures Total(next, o) == multiset(Expand(more))[o] {
      CountNext(runs, r, o);
    }
    hide Total;
    forall o ensures o in next <==> exists i :: 0 <= i < |more| && more[i].outcome == o {
      assert more[|runs|] == r && forall i :: 0 <= i < |runs| ==> more[i] == runs[i];
    }
  }

  lemma NoTotals()
    ensures TotalsRight(map[], [])
  {
  }

  method Totals(runs: seq<OutcomeRun>) returns (totals: map<Outcome, nat>)
    ensures TotalsRight(totals, runs)
  {
    totals := map[];
    NoTotals();
    hide TotalsRight, Total;
    assert runs[..0] == [];
    for i := 0 to |runs|
      invariant TotalsRight(totals, runs[..i])
    {
      assert runs[..i + 1] == runs[..i] + [runs[i]];
      TotalsNext(totals, runs[..i], runs[i]);
      totals := totals[runs[i].outcome := Total(totals, runs[i].outcome) + runs[i].length];
    }
    assert runs[..|runs|] == runs;
  }

  lemma {:induction false} ExpandPrefix(runs: seq<OutcomeRun>, k: nat)
    requires k <= |runs|
    ensures Expand(runs[..k]) <= Expand(runs)
  {
    if k == |runs| {
      assert runs[..k] == runs;
    } else {
      ExpandPrefix(runs[..|runs| - 1], k);
      assert runs[..|runs| - 1][..k] == runs[..k];
    }
  }

  lemma OutcomeAppended(s: seq<Outcome>, o: Outcome)
    ensures Refusals(s + [o]) == Refusals(s) + Bit(IsRefusal(o))
    ensures TrailingRun(s + [o]) == if IsRefusal(o) then TrailingRun(s) + 1 else 0
    ensures LongestRun(s + [o]) ==
            if TrailingRun(s + [o]) > LongestRun(s) then TrailingRun(s + [o]) else LongestRun(s)
  {
    assert (s + [o])[..|s|] == s;
  }

  lemma RunAppended(ks: Keystream, g: int, m: nat, n: nat)
    requires ks.Valid()
    ensures ks.Run(g, m) + ks.Run(g + m, n) == ks.Run(g, m + n)
  {
  }

  /** A fill of g blocks under way. */
  ghost predicate Filling(ks: Keystream, start: seq<Record>, rec: seq<Record>, g: nat, honest: bool, keeps: bool)
    requires ks.Valid()
  {
    honest || keeps ==> rec == start + ks.Run(0, g)
  }

  /** A fill of g blocks that has ended: a drive that keeps all it accepts may have kept the block it refused too. */
  ghost predicate FillEnded(ks: Keystream, start: seq<Record>, rec: seq<Record>, g: nat, refusal: bool, honest: bool, keeps: bool)
    requires ks.Valid()
  {
    && (honest ==> rec == start + ks.Run(0, g))
    && (keeps ==> rec == start + ks.Run(0, g) || (refusal && rec == start + ks.Run(0, g + 1)))
  }

  lemma NoneFilled(ks: Keystream, start: seq<Record>, honest: bool, keeps: bool)
    requires ks.Valid()
    ensures Filling(ks, start, start, 0, honest, keeps)
  {
    assert start + ks.Run(0, 0) == start;
  }

  lemma FillingEnds(ks: Keystream, start: seq<Record>, rec: seq<Record>, g: nat, honest: bool, keeps: bool)
    requires ks.Valid() && Filling(ks, start, rec, g, honest, keeps)
    ensures FillEnded(ks, start, rec, g, false, honest, keeps)
  {
  }

  lemma FillNext(ks: Keystream, start: seq<Record>, rec: seq<Record>, rec': seq<Record>, g: nat, o: Outcome, honest: bool, keeps: bool)
    requires ks.Valid() && Filling(ks, start, rec, g, honest, keeps)
    requires var block := Data(ks.At(g));
      && (rec' == rec || rec' == rec + [block])
      && (honest ==> rec' == rec + if o == Ok then [block] else [])
      && (keeps && o == Ok ==> rec' == rec + [block])
      && (keeps && o != Ok && !IsRefusal(o) ==> rec' == rec)
    ensures if o == Ok then Filling(ks, start, rec', g + 1, honest, keeps)
            else FillEnded(ks, start, rec', g, IsRefusal(o), honest, keeps)
  {
    assert start + ks.Run(0, g) + [Data(ks.At(g))] == start + ks.Run(0, g + 1);
  }

  /** From `start` to `rec` nothing changed but that at most `most` copies of `item` were appended. */
  ghost predicate OnlyAdds(start: seq<Record>, rec: seq<Record>, item: Record, most: int) {
    && |start| <= |rec| && (|rec| == |start| || |rec| <= |start| + most)
    && start <= rec && forall i :: |start| <= i < |rec| ==> rec[i] == item
  }

  lemma NoneAdded(rec: seq<Record>, item: Record)
    ensures OnlyAdds(rec, rec, item, 0)
  {
  }

  lemma AddedOne(start: seq<Record>, rec: seq<Record>, rec': seq<Record>, item: Record, n: nat)
    requires OnlyAdds(start, rec, item, n) && OnlyAdds(rec, rec', item, 1)
    ensures OnlyAdds(start, rec', item, n + 1)
    ensures |start| <= |rec| <= |rec'| && (|rec'| == |rec| ==> rec' == rec)
  {
  }

  ghost function AppendIf(start: seq<Record>, ok: bool, item: Record): seq<Record> {
    if ok then start + [item] else start
  }

  /** One block more would pass the cap. */
  predicate NoMoreFit(blocks: nat, bs: nat, cap: int) {
    (blocks + 1) * bs > cap
  }

  lemma MoreBlocks(a: nat, b: nat, bs: nat)
    requires a <= b
    ensures a * bs <= b * bs
  {
    assert b * bs == a * bs + (b - a) * bs;
  }

  lemma FillCap(most: int, bs: nat, g: nat)
    requires bs > 0
    ensures g <= most / bs ==> g * bs <= most
    ensures g >= most / bs <==> NoMoreFit(g, bs, most)
  {
    var cap := most / bs;
    assert most == cap * bs + most % bs;
    if cap < 0 {
      assert most < 0;
    } else if g < cap {
      MoreBlocks(g, cap, bs);
      MoreBlocks(g + 1, cap, bs);
    } else {
      MoreBlocks(cap + 1, g + 1, bs);
      assert (cap + 1) * bs == cap * bs + bs;
    }
  }

  /** What write(2) of a block reports for a drive's verdict. */
  function Answer(v: WriteVerdict, bs: nat): Outcome {
    match v
    case Accept => Ok
    case Drop => Ok
    case RefuseKept => Err(ENOSPC)
    case Count(n) => if n == bs then Ok else if n == 0 then Zero else Short(n)
    case FailWrite(e) => Err(e)
  }

  /** How many blocks are on the tape once a drive has been asked `a` times. */
  function BlocksAfter(verdict: (nat, nat) -> WriteVerdict, a: nat): nat {
    if a == 0 then 0
    else
      var before := BlocksAfter(verdict, a - 1);
      var v := verdict(a, before);
      before + Bit(v.Accept? || v.RefuseKept?)
  }

  /** What the drive answers to its a-th attempt. */
  function AnswerAt(verdict: (nat, nat) -> WriteVerdict, bs: nat, a: nat): Outcome
    requires a > 0
  {
    Answer(verdict(a, BlocksAfter(verdict, a - 1)), bs)
  }

  ghost predicate Answered(verdict: (nat, nat) -> WriteVerdict, bs: nat, a: nat, o: Outcome) {
    a > 0 && AnswerAt(verdict, bs, a) == o
  }

  /** What a filemark command reports for a drive's verdict. */
  function MarkAnswer(v: MarkVerdict): Outcome {
    if v.AcceptMark? then Ok else Err(v.merr)
  }

  /** The outcomes listed are the drive's answers to the filemarks after the first `from`. */
  /** An honest answer says exactly whether the block was put on the tape; a drive that drops nothing may put one there
      and say it did not, never the other way. */
  lemma HonestyMeaning(v: WriteVerdict, bs: nat)
    ensures HonestWrite(v, bs) <==> (v.Accept? || v.RefuseKept? <==> Answer(v, bs) == Ok)
    ensures KeepsAccepted(v, bs) <==> (Answer(v, bs) == Ok ==> v.Accept? || v.RefuseKept?)
  {
  }

  lemma MarkHonestyMeaning(v: MarkVerdict)
    ensures HonestMark(v) <==> (v.AcceptMark? || v.FailMarkKept? <==> MarkAnswer(v) == Ok)
  {
  }

  ghost predicate MarksListed(markVerdict: nat -> MarkVerdict, from: nat, list: seq<Outcome>) {
    forall i :: 0 <= i < |list| ==> list[i] == MarkAnswer(markVerdict(from + 1 + i))
  }

  lemma MarkListed(markVerdict: nat -> MarkVerdict, from: nat, list: seq<Outcome>)
    requires MarksListed(markVerdict, from, list)
    ensures MarksListed(markVerdict, from, list + [MarkAnswer(markVerdict(from + 1 + |list|))])
  {
  }

  /** The attempts after the first `from`, `more` of them, were all accepted. */
  ghost predicate AllAccepted(verdict: (nat, nat) -> WriteVerdict, bs: nat, from: nat, more: nat) {
    forall a: nat :: from < a <= from + more ==> Answered(verdict, bs, a, Ok)
  }

  lemma NoneAccepted(verdict: (nat, nat) -> WriteVerdict, bs: nat, from: nat)
    ensures AllAccepted(verdict, bs, from, 0)
  {
  }

  lemma OneMoreAccepted(verdict: (nat, nat) -> WriteVerdict, bs: nat, from: nat, g: nat, o: Outcome)
    requires AllAccepted(verdict, bs, from, g) && Answered(verdict, bs, from + g + 1, o)
    ensures o == Ok ==> AllAccepted(verdict, bs, from, g + 1)
  {
    hide Answered;
  }

  /** Some attempt after the first `from`, up to the `to`-th, was not accepted. */
  ghost predicate NotAllAccepted(verdict: (nat, nat) -> WriteVerdict, bs: nat, from: nat, to: nat) {
    exists a: nat, o: Outcome :: from < a <= to && o != Ok && Answered(verdict, bs, a, o)
  }

  lemma NotAllAcceptedInMore(verdict: (nat, nat) -> WriteVerdict, bs: nat, from: nat, to: nat, from': nat, to': nat)
    requires from' <= from && to <= to'
    ensures NotAllAccepted(verdict, bs, from, to) ==> NotAllAccepted(verdict, bs, from', to')
  {
  }

  /** The outcomes listed are the drive's answers, attempt by attempt. */
  ghost predicate AnswersListed(verdict: (nat, nat) -> WriteVerdict, bs: nat, from: nat, first: seq<Outcome>, list: seq<Outcome>) {
    forall i :: |first| <= i < |list| ==> Answered(verdict, bs, from + 1 + i - |first|, list[i])
  }

  lemma AnswerListed(verdict: (nat, nat) -> WriteVerdict, bs: nat, from: nat, first: seq<Outcome>, list: seq<Outcome>, o: Outcome)
    requires AnswersListed(verdict, bs, from, first, list) && |first| <= |list|
    requires Answered(verdict, bs, from + 1 + |list| - |first|, o)
    ensures AnswersListed(verdict, bs, from, first, list + [o])
  {
    hide Answered;
  }

  /** No attempt yet is one to stop at: each was accepted, or refused short of the run limit. */
  ghost predicate GoesOn(first: seq<Outcome>, list: seq<Outcome>, limit: int) {
    && |first| <= |list|
    && forall i :: |first| <= i < |list| ==> list[i] == Ok || (IsRefusal(list[i]) && TrailingRun(list[..i + 1]) < limit)
  }

  /** The reason given is the one the outcomes show, and it is the first there was. */
  ghost predicate StopsFor(stop: Stop, first: seq<Outcome>, list: seq<Outcome>, limit: int) {
    match stop
    case Complete => GoesOn(first, list, limit) && (|list| == |first| || list[|list| - 1] == Ok)
    case Interrupted => GoesOn(first, list, limit)
    case CapReached => false
    case _ =>
      && |first| < |list| && GoesOn(first, list[..|list| - 1], limit)
      && var last := list[|list| - 1];
         match stop
         case RefusalRun(n) => IsRefusal(last) && n == TrailingRun(list) >= limit
         case ShortCount(n) => last == Short(n)
         case Errored(e) => last == Err(e) && e != ENOSPC
         case _ => false
  }

  /** A run that stops before its end, and not for the stop flag, met an attempt that was not accepted. */
  lemma StopIsAnswered(verdict: (nat, nat) -> WriteVerdict, bs: nat, from: nat, stop: Stop, first: seq<Outcome>, list: seq<Outcome>, limit: int)
    requires AnswersListed(verdict, bs, from, first, list) && StopsFor(stop, first, list, limit)
    ensures stop.Complete? || stop.Interrupted? || NotAllAccepted(verdict, bs, from, from + |list| - |first|)
  {
    hide Answered, GoesOn, TrailingRun;
    if !stop.Complete? && !stop.Interrupted? {
      var last := |list| - 1;
      assert Answered(verdict, bs, from + 1 + last - |first|, list[last]) && list[last] != Ok;
    }
  }

  // ----- a drive that may refuse a block and keep it

  /** The records are blocks of the stream, numbered `nums`: from g0 on, each number the last again or the next,
      up to the last of n accepted blocks or to a copy of the one behind it. */
  ghost predicate InStep(ks: Keystream, added: seq<Record>, g0: nat, n: nat, nums: seq<nat>)
    requires ks.Valid()
  {
    && |nums| == |added| && (forall i :: 0 <= i < |nums| ==> added[i] == Data(ks.At(nums[i])))
    && (forall i, j :: 0 <= i && j == i + 1 && j < |nums| ==> nums[i] <= nums[j] <= nums[i] + 1)
    && (if nums == [] then n == 0
        else nums[0] == g0 && (nums[|nums| - 1] == g0 + n - 1 || nums[|nums| - 1] == g0 + n))
  }

  ghost predicate Repeats(ks: Keystream, added: seq<Record>, g0: nat, n: nat)
    requires ks.Valid()
  {
    exists nums :: InStep(ks, added, g0, n, nums)
  }

  lemma NoRepeats(ks: Keystream, g0: nat)
    requires ks.Valid()
    ensures Repeats(ks, [], g0, 0)
  {
    assert InStep(ks, [], g0, 0, []);
  }

  lemma InStepNext(ks: Keystream, added: seq<Record>, g0: nat, n: nat, nums: seq<nat>, ok: bool)
    requires ks.Valid() && InStep(ks, added, g0, n, nums)
    ensures Repeats(ks, added + [Data(ks.At(g0 + n))], g0, n + Bit(ok))
  {
    var last: nat := g0 + n;
    var more: seq<nat> := nums + [last];
    var all := added + [Data(ks.At(last))];
    assert forall i :: 0 <= i < |nums| ==> more[i] == nums[i] && all[i] == added[i];
    assert InStep(ks, all, g0, n + Bit(ok), more);
  }

  lemma RepeatsNext(ks: Keystream, added: seq<Record>, g0: nat, n: nat, kept: bool, ok: bool)
    requires ks.Valid() && Repeats(ks, added, g0, n) && (ok ==> kept)
    ensures Repeats(ks, if kept then added + [Data(ks.At(g0 + n))] else added, g0, n + Bit(ok))
  {
    var nums: seq<nat> :| InStep(ks, added, g0, n, nums);
    if kept {
      InStepNext(ks, added, g0, n, nums, ok);
    }
  }

  /** What stands on the tape once n blocks from g0 on were accepted: on an honest drive those blocks, and on one
      that may keep what it refuses, those blocks with repeats. */
  ghost predicate Streamed(ks: Keystream, start: seq<Record>, rec: seq<Record>, g0: nat, n: nat, honest: bool, keeps: bool)
    requires ks.Valid()
  {
    && start <= rec
    && (honest ==> rec == start + ks.Run(g0, n))
    && (keeps ==> Repeats(ks, rec[|start|..], g0, n))
  }

  lemma NoneStreamed(ks: Keystream, start: seq<Record>, g0: nat, honest: bool, keeps: bool)
    requires ks.Valid()
    ensures Streamed(ks, start, start, g0, 0, honest, keeps)
  {
    NoRepeats(ks, g0);
    assert start[|start|..] == [] && start + ks.Run(g0, 0) == start;
  }

  lemma StreamedNext(ks: Keystream, start: seq<Record>, rec: seq<Record>, rec': seq<Record>, g0: nat, n: nat, ok: bool,
                     honest: bool, keeps: bool)
    requires ks.Valid() && Streamed(ks, start, rec, g0, n, honest, keeps)
    requires var block := Data(ks.At(g0 + n));
      && (rec' == rec || rec' == rec + [block])
      && (honest ==> rec' == rec + if ok then [block] else [])
      && (keeps && ok ==> rec' == rec + [block])
    ensures Streamed(ks, start, rec', g0, n + Bit(ok), honest, keeps)
  {
    hide Repeats;
    var block := Data(ks.At(g0 + n));
    assert ks.Run(g0, n + 1) == ks.Run(g0, n) + [block];
    assert (rec + [block])[|start|..] == rec[|start|..] + [block];
    if keeps {
      RepeatsNext(ks, rec[|start|..], g0, n, rec' != rec, ok);
    }
  }

  /** No accepted block is missing, and nothing else is there but a copy of the block in hand. */
  lemma {:induction false} NoneSkipped(ks: Keystream, added: seq<Record>, g0: nat, n: nat, nums: seq<nat>, g: nat)
    requires ks.Valid() && InStep(ks, added, g0, n, nums)
    ensures g0 <= g < g0 + n ==> g in nums
    ensures g in nums ==> g0 <= g <= g0 + n
  {
    var i := 0;
    while i < |nums|
      invariant 0 <= i <= |nums|
      invariant i > 0 ==> g0 <= nums[i - 1]
      invariant i > 0 ==> forall x :: g0 <= x <= nums[i - 1] ==> x in nums
      invariant forall j :: 0 <= j < i ==> g0 <= nums[j] <= nums[i - 1]
    {
      i := i + 1;
    }
  }

  ghost predicate Counted(first: seq<Outcome>, list: seq<Outcome>, accepted: nat, refusals: nat, maxconsec: nat) {
    && first <= list
    && accepted == multiset(list[|first|..])[Ok]
    && refusals == Refusals(list) && maxconsec == LongestRun(list)
  }

  lemma GoesOnOrStops(first: seq<Outcome>, list: seq<Outcome>, limit: int, o: Outcome)
    requires GoesOn(first, list, limit)
    ensures o == Ok || (IsRefusal(o) && TrailingRun(list + [o]) < limit) ==> GoesOn(first, list + [o], limit)
    ensures GoesOn(first, (list + [o])[..|list|], limit) && |first| <= |list|
  {
    var more := list + [o];
    assert more[..|list|] == list;
    if o == Ok || (IsRefusal(o) && TrailingRun(more) < limit) {
      forall i | |first| <= i < |more|
        ensures more[i] == Ok || (IsRefusal(more[i]) && TrailingRun(more[..i + 1]) < limit)
      {
        if i < |list| {
          assert more[..i + 1] == list[..i + 1] && more[i] == list[i];
        } else {
          assert more[..i + 1] == more;
        }
      }
    }
  }

  lemma FirstCounted(event: Outcome)
    requires IsRefusal(event)
    ensures Counted([event], [event], 0, 1, 1) && TrailingRun([event]) == 1
  {
    assert [event][..0] == [] && [event][1..] == [];
  }

  lemma OneMore(first: seq<Outcome>, list: seq<Outcome>, accepted: nat, refusals: nat, maxconsec: nat, o: Outcome)
    requires Counted(first, list, accepted, refusals, maxconsec)
    ensures var run := if IsRefusal(o) then TrailingRun(list) + 1 else 0;
      && TrailingRun(list + [o]) == run
      && Counted(first, list + [o], accepted + Bit(o == Ok), refusals + Bit(IsRefusal(o)),
                 if run > maxconsec then run else maxconsec)
  {
    OutcomeAppended(list, o);
    assert (list + [o])[|first|..] == list[|first|..] + [o];
  }

  /** Each accepted block cost at most `limit` attempts; `spent` more went to the block in hand. */
  ghost predicate InBudget(first: seq<Outcome>, list: seq<Outcome>, limit: int, accepted: nat, spent: int) {
    |first| <= |list| && (limit >= 1 ==> |list| - |first| <= accepted * limit + spent)
  }

  ghost predicate Spent(first: seq<Outcome>, list: seq<Outcome>, limit: int, accepted: nat, stop: Stop, spent: nat) {
    InBudget(first, list, limit, accepted, spent) && (limit >= 1 ==> spent <= if stop.Complete? then 0 else limit)
  }

  lemma OneMoreInBudget(first: seq<Outcome>, list: seq<Outcome>, limit: int, accepted: nat, spent: int, o: Outcome)
    requires InBudget(first, list, limit, accepted, spent)
    ensures InBudget(first, list + [o], limit, accepted, spent + 1)
    ensures limit < 1 || spent < limit ==> InBudget(first, list + [o], limit, accepted + 1, 0)
  {
    assert (accepted + 1) * limit == accepted * limit + limit;
  }

  /** The attempts so far, none of them one to stop at, with the counts kept beside them. */
  ghost predicate Attempted(verdict: (nat, nat) -> WriteVerdict, bs: nat, from: nat, first: seq<Outcome>, list: seq<Outcome>,
                            limit: int, accepted: nat, refusals: nat, maxconsec: nat, consec: nat, spent: nat)
  {
    && Counted(first, list, accepted, refusals, maxconsec) && consec == TrailingRun(list)
    && InBudget(first, list, limit, accepted, spent) && spent <= consec && (consec < limit || spent == 0)
    && (spent == 0 ==> |list| <= |first| || list[|list| - 1] == Ok)
    && GoesOn(first, list, limit) && AnswersListed(verdict, bs, from, first, list)
  }

  /** The attempts made, and why they ended. */
  ghost predicate Finished(verdict: (nat, nat) -> WriteVerdict, bs: nat, from: nat, first: seq<Outcome>, list: seq<Outcome>,
                           limit: int, accepted: nat, refusals: nat, maxconsec: nat, stop: Stop)
  {
    && Counted(first, list, accepted, refusals, maxconsec)
    && StopsFor(stop, first, list, limit) && AnswersListed(verdict, bs, from, first, list)
    && exists spent :: Spent(first, list, limit, accepted, stop, spent)
  }

  lemma NoneTried(first: seq<Outcome>, limit: int, verdict: (nat, nat) -> WriteVerdict, bs: nat, from: nat, refusals: nat, consec: nat)
    requires Counted(first, first, 0, refusals, consec) && consec == TrailingRun(first)
    ensures Attempted(verdict, bs, from, first, first, limit, 0, refusals, consec, consec, 0)
  {
    hide Counted, TrailingRun;
  }

  lemma AttemptsEnd(verdict: (nat, nat) -> WriteVerdict, bs: nat, from: nat, first: seq<Outcome>, list: seq<Outcome>,
                    limit: int, accepted: nat, refusals: nat, maxconsec: nat, consec: nat, spent: nat)
    requires Attempted(verdict, bs, from, first, list, limit, accepted, refusals, maxconsec, consec, spent) && |first| <= |list|
    ensures Finished(verdict, bs, from, first, list, limit, accepted, refusals, maxconsec, Interrupted)
    ensures spent == 0 ==> Finished(verdict, bs, from, first, list, limit, accepted, refusals, maxconsec, Complete)
  {
    hide Counted, TrailingRun, GoesOn, AnswersListed, InBudget;
    assert Spent(first, list, limit, accepted, Interrupted, spent);
    assert spent == 0 ==> Spent(first, list, limit, accepted, Complete, spent);
  }

  lemma StopsAtLast(first: seq<Outcome>, list: seq<Outcome>, limit: int, accepted: nat, spent: nat, o: Outcome, stop: Stop)
    requires GoesOn(first, list, limit) && InBudget(first, list + [o], limit, accepted, spent + 1)
    requires limit >= 1 ==> spent + 1 <= limit
    requires match stop
      case RefusalRun(n) => IsRefusal(o) && n == TrailingRun(list + [o]) >= limit
      case ShortCount(n) => o == Short(n)
      case Errored(e) => o == Err(e) && e != ENOSPC
      case _ => false
    ensures StopsFor(stop, first, list + [o], limit) && Spent(first, list + [o], limit, accepted, stop, spent + 1)
  {
    GoesOnOrStops(first, list, limit, o);
    hide GoesOn, TrailingRun, InBudget;
    var more := list + [o];
    assert more[|more| - 1] == o && more[..|more| - 1] == list;
  }

  lemma AttemptedNext(verdict: (nat, nat) -> WriteVerdict, bs: nat, from: nat, first: seq<Outcome>, list: seq<Outcome>,
                      limit: int, accepted: nat, refusals: nat, maxconsec: nat, consec: nat, spent: nat, o: Outcome)
    requires Attempted(verdict, bs, from, first, list, limit, accepted, refusals, maxconsec, consec, spent)
    requires |first| <= |list| && Answered(verdict, bs, from + 1 + |list| - |first|, o)
    ensures var more, run := list + [o], consec + 1;
      var longest := if run > maxconsec then run else maxconsec;
      if o == Ok then Attempted(verdict, bs, from, first, more, limit, accepted + 1, refusals, maxconsec, 0, 0)
      else if IsRefusal(o) then
        if run < limit then Attempted(verdict, bs, from, first, more, limit, accepted, refusals + 1, longest, run, spent + 1)
        else Finished(verdict, bs, from, first, more, limit, accepted, refusals + 1, longest, RefusalRun(run))
      else Finished(verdict, bs, from, first, more, limit, accepted, refusals, maxconsec,
                    if o.Short? then ShortCount(o.count) else Errored(o.errno))
  {
    GoesOnOrStops(first, list, limit, o);
    OneMore(first, list, accepted, refusals, maxconsec, o);
    OneMoreInBudget(first, list, limit, accepted, spent, o);
    AnswerListed(verdict, bs, from, first, list, o);
    hide Counted, TrailingRun, GoesOn, AnswersListed, InBudget, Answered, StopsFor, Spent, LongestRun;
    var more := list + [o];
    if IsRefusal(o) && consec + 1 >= limit {
      StopsAtLast(first, list, limit, accepted, spent, o, RefusalRun(consec + 1));
    } else if !IsRefusal(o) && o != Ok {
      StopsAtLast(first, list, limit, accepted, spent, o, if o.Short? then ShortCount(o.count) else Errored(o.errno));
    }
  }

  /** The bound against any drive: no block costs more than `limit` attempts. */
  lemma AttemptBound(first: seq<Outcome>, list: seq<Outcome>, limit: int, nmax: int, accepted: nat, stop: Stop)
    requires exists spent :: Spent(first, list, limit, accepted, stop, spent)
    requires nmax >= 0 ==> accepted <= nmax && (!stop.Complete? ==> accepted < nmax)
    ensures limit >= 1 && nmax >= 0 ==> |list| - |first| <= nmax * limit
  {
    if limit >= 1 && nmax >= 0 {
      if stop.Complete? {
        assert accepted * limit <= nmax * limit;
      } else {
        assert accepted * limit + limit == (accepted + 1) * limit <= nmax * limit;
      }
    }
  }

  /** `full` is the canonical run list of the outcomes; the record counts its runs and keeps the first of them. */
  ghost predicate RunsKept(r: BlocksRec, full: seq<OutcomeRun>, list: seq<Outcome>) {
    && Canonical(full) && Expand(full) == list
    && r.runCount == |full|
    && r.runs == full[..if |full| <= RUNS_KEPT then |full| else RUNS_KEPT]
  }

  /** `r` is the summary of the outcome list that begins with `first`. */
  ghost predicate Describes(r: BlocksRec, first: seq<Outcome>, list: seq<Outcome>) {
    && first <= list
    && r.attempts == |list|
    && r.accepted == multiset(list[|first|..])[Ok]
    && r.refusals == Refusals(list) && r.longestRun == LongestRun(list)
    && (forall oc :: oc in r.totals <==> oc in list) && (forall oc :: oc in r.totals ==> r.totals[oc] == multiset(list)[oc])
    && exists full :: RunsKept(r, full, list)
  }

  /** One record describes an outcome list. */
  /** The outcomes can be read off the runs kept: all of them, or those of the first 400 runs where there are more. */
  lemma {:induction false} RunsTell(r: BlocksRec, first: seq<Outcome>, list: seq<Outcome>)
    requires Describes(r, first, list)
    ensures Expand(r.runs) <= list && |r.runs| == if r.runCount <= 400 then r.runCount else 400
    ensures r.runCount <= 400 ==> Expand(r.runs) == list
  {
    hide Expand, Canonical;
    var full :| RunsKept(r, full, list);
    assert full[..|full|] == full;
    ExpandPrefix(full, |r.runs|);
  }

  lemma DescribedOnce(r: BlocksRec, r': BlocksRec, first: seq<Outcome>, list: seq<Outcome>)
    requires Describes(r, first, list) && Describes(r', first, list)
    ensures r.attempts == r'.attempts && r.accepted == r'.accepted && r.refusals == r'.refusals
    ensures r.longestRun == r'.longestRun && r.runs == r'.runs && r.runCount == r'.runCount && r.totals == r'.totals
  {
    hide Canonical, Expand;
    var full :| RunsKept(r, full, list);
    var full' :| RunsKept(r', full', list);
    CanonicalIsUnique(full, full');
  }

  /** In a canonical list the outcomes of the runs are those that occur. */
  lemma {:induction false} RunOutcomes(runs: seq<OutcomeRun>, o: Outcome)
    requires Canonical(runs)
    ensures o in Expand(runs) <==> exists i :: 0 <= i < |runs| && runs[i].outcome == o
  {
    if runs != [] {
      var last := |runs| - 1;
      RunOutcomes(runs[..last], o);
      var tail := seq(runs[last].length, i => runs[last].outcome);
      assert tail[0] in tail && forall x :: x in tail ==> x == runs[last].outcome;
      assert Expand(runs) == Expand(runs[..last]) + tail;
      if o in Expand(runs[..last]) {
        var i :| 0 <= i < last && runs[..last][i].outcome == o;
        assert runs[i].outcome == o;
      }
    }
  }

  lemma TotalsOf(runs: seq<OutcomeRun>, totals: map<Outcome, nat>)
    requires Canonical(runs) && TotalsRight(totals, runs)
    ensures forall o :: o in totals <==> o in Expand(runs)
    ensures forall o :: o in totals ==> totals[o] == multiset(Expand(runs))[o]
  {
    forall o ensures o in totals <==> o in Expand(runs) {
      RunOutcomes(runs, o);
    }
    hide Expand, Canonical;
    forall o | o in totals ensures totals[o] == multiset(Expand(runs))[o] {
      assert Total(totals, o) == totals[o];
    }
  }

  method Describe(g0: nat, ghost first: seq<Outcome>, list: seq<Outcome>, accepted: nat, refusals: nat,
                  maxconsec: nat, stop: Stop) returns (r: BlocksRec)
    requires Counted(first, list, accepted, refusals, maxconsec)
    ensures Describes(r, first, list)
    ensures r.firstBlock == g0 && r.accepted == accepted && r.stop == stop && r.lbaStart == None && r.lbaAfter == None
  {
    var runs := RunLengths(list);
    var totals := Totals(runs);
    var kept := if |runs| <= RUNS_KEPT then |runs| else RUNS_KEPT;
    TotalsOf(runs, totals);
    r := BlocksRec(g0, accepted, |list|, refusals, maxconsec, stop, runs[..kept], |runs|, totals, None, None);
    assert RunsKept(r, runs, list);
  }

  ghost predicate ToldBy(verdict: (nat, nat) -> WriteVerdict, bs: nat, from: nat, first: seq<Outcome>, limit: int, r: BlocksRec,
                         stop: Stop, list: seq<Outcome>)
  {
    Describes(r, first, list) && AnswersListed(verdict, bs, from, first, list) && StopsFor(stop, first, list, limit)
  }

  /** The record is that of the drive's answers from the attempt after `from` on, ended for the reason given. */
  /** What stops a stretch: a short count or an error other than a full tape is the last outcome and the reason, and is
      never tried again; a run of refusals is that many writes of nothing or of a full tape; all else goes on. */
  lemma {:induction false} StopMeaning(stop: Stop, first: seq<Outcome>, list: seq<Outcome>, limit: int)
    requires StopsFor(stop, first, list, limit)
    ensures |first| <= |list|
    ensures forall i :: |first| <= i < |list| && list[i].Short? ==> i == |list| - 1 && stop == ShortCount(list[i].count)
    ensures forall i :: |first| <= i < |list| && list[i].Err? && list[i] != Err(ENOSPC) ==> i == |list| - 1 && stop == Errored(list[i].errno)
    ensures stop.RefusalRun? ==>
      && limit <= stop.length <= |list|
      && (forall i :: |list| - stop.length <= i < |list| ==> list[i] == Zero || list[i] == Err(ENOSPC))
      && (stop.length < |list| ==> list[|list| - stop.length - 1] != Zero && list[|list| - stop.length - 1] != Err(ENOSPC))
    ensures stop.ShortCount? || stop.Errored? ==>
      list[|list| - 1] == if stop.ShortCount? then Short(stop.count) else Err(stop.errno)
  {
    TrailingRunIsMaximal(list);
    if stop.RefusalRun? && stop.length < |list| {
      var a := |list| - stop.length - 1;
      assert !RefusedWindow(list, a, |list|);
    }
  }

  ghost predicate Told(verdict: (nat, nat) -> WriteVerdict, bs: nat, from: nat, first: seq<Outcome>, limit: int, r: BlocksRec, stop: Stop) {
    exists list :: ToldBy(verdict, bs, from, first, limit, r, stop, list)
  }

  lemma ToldOf(verdict: (nat, nat) -> WriteVerdict, bs: nat, from: nat, first: seq<Outcome>, limit: int, r: BlocksRec, r': BlocksRec,
               stop: Stop, list: seq<Outcome>)
    requires ToldBy(verdict, bs, from, first, limit, r, stop, list)
    requires r' == r.(lbaStart := r'.lbaStart, lbaAfter := r'.lbaAfter, stop := r'.stop)
    ensures Told(verdict, bs, from, first, limit, r', stop) && r'.attempts == |list|
  {
    hide AnswersListed, StopsFor, Canonical, Expand, Refusals, LongestRun;
    var full :| RunsKept(r, full, list);
    assert RunsKept(r', full, list);
    assert ToldBy(verdict, bs, from, first, limit, r', stop, list);
  }

  lemma SameAnswers(verdict: (nat, nat) -> WriteVerdict, bs: nat, from: nat, first: seq<Outcome>, list: seq<Outcome>, list': seq<Outcome>)
    requires AnswersListed(verdict, bs, from, first, list) && AnswersListed(verdict, bs, from, first, list')
    requires first <= list && first <= list' && |list| == |list'|
    ensures list == list'
  {
    hide AnswerAt;
    forall i | 0 <= i < |list| ensures list[i] == list'[i] {
      if i >= |first| {
        assert Answered(verdict, bs, from + 1 + i - |first|, list[i]) && Answered(verdict, bs, from + 1 + i - |first|, list'[i]);
      }
    }
  }

  /** The record is the only one for as many attempts. */
  lemma ToldOnce(verdict: (nat, nat) -> WriteVerdict, bs: nat, from: nat, first: seq<Outcome>, limit: int,
                 r: BlocksRec, stop: Stop, r': BlocksRec, stop': Stop)
    requires Told(verdict, bs, from, first, limit, r, stop) && Told(verdict, bs, from, first, limit, r', stop')
    requires r.attempts == r'.attempts
    ensures r.accepted == r'.accepted && r.refusals == r'.refusals && r.longestRun == r'.longestRun
    ensures r.runs == r'.runs && r.runCount == r'.runCount && r.totals == r'.totals
  {
    var list :| ToldBy(verdict, bs, from, first, limit, r, stop, list);
    var list' :| ToldBy(verdict, bs, from, first, limit, r', stop', list');
    SameAnswers(verdict, bs, from, first, list, list');
    hide AnswersListed, StopsFor;
    DescribedOnce(r, r', first, list);
  }

  /** The last position that was answered. */
  function LastSeen(before: Option<nat>, positions: seq<Option<nat>>): Option<nat> {
    if positions == [] then before
    else
      var last := positions[|positions| - 1];
      if last.Some? then last else LastSeen(before, positions[..|positions| - 1])
  }

  /** READ POSITION shows that the attempt left something on the tape. */
  predicate Moved(before: Option<nat>, positions: seq<Option<nat>>, i: nat)
    requires i < |positions|
  {
    var prev := LastSeen(before, positions[..i]);
    prev.Some? && positions[i].Some? && positions[i] != prev
  }

  /** Every attempt so far was refused and left nothing behind that READ POSITION shows. */
  ghost predicate Refused(attempts: seq<Outcome>, positions: seq<Option<nat>>, before: Option<nat>, limit: int) {
    && |positions| == |attempts| && (attempts != [] ==> |attempts| <= limit)
    && forall i :: 0 <= i < |attempts| ==> IsRefusal(attempts[i]) && !Moved(before, positions, i)
  }

  /** Attempts go on while they are refused and leave nothing behind, up to the limit and no further. */
  ghost predicate Retried(attempts: seq<Outcome>, positions: seq<Option<nat>>, before: Option<nat>, ok: bool, limit: int) {
    && |positions| == |attempts| && (attempts != [] ==> |attempts| <= limit)
    && (ok <==> attempts != [] && attempts[|attempts| - 1] == Ok)
    && if |attempts| >= limit && Refused(attempts, positions, before, limit) then true
       else
         && attempts != []
         && var last := |attempts| - 1;
            && Refused(attempts[..last], positions[..last], before, limit)
            && (!IsRefusal(attempts[last]) || Moved(before, positions, last))
  }

  lemma NoneRefused(before: Option<nat>, limit: int)
    ensures Refused([], [], before, limit) && LastSeen(before, []) == before
    ensures limit <= 0 ==> Retried([], [], before, false, limit)
  {
  }

  lemma Retry(attempts: seq<Outcome>, positions: seq<Option<nat>>, before: Option<nat>, limit: int, o: Outcome, pos: Option<nat>)
    requires Refused(attempts, positions, before, limit) && |attempts| < limit
    ensures var attempts', positions', prev := attempts + [o], positions + [pos], LastSeen(before, positions);
      var moved := prev.Some? && pos.Some? && pos != prev;
      && LastSeen(before, positions') == (if pos.Some? then pos else prev)
      && (IsRefusal(o) && !moved ==> Refused(attempts', positions', before, limit))
      && (!IsRefusal(o) || moved || |attempts'| >= limit ==> Retried(attempts', positions', before, o == Ok, limit))
  {
    var attempts', positions' := attempts + [o], positions + [pos];
    assert attempts'[..|attempts|] == attempts && positions'[..|attempts|] == positions;
    forall i | 0 <= i < |attempts| ensures Moved(before, positions', i) == Moved(before, positions, i) {
      assert positions'[..i] == positions[..i];
    }
  }

  /** An object tried so far and always refused: where the tape is for it, and what was noted.  `answers` is whether READ
      POSITION always answers, `honest` whether the drive keeps just what it accepts. */
  ghost predicate StillTrying(start: seq<Record>, rec: seq<Record>, item: Record, outs: seq<Outcome>, positions: seq<Option<nat>>,
                              before: Option<nat>, prev: Option<nat>, limit: int, answers: bool, honest: bool)
  {
    && Refused(outs, positions, before, limit) && prev == LastSeen(before, positions)
    && OnlyAdds(start, rec, item, |outs|)
    && (answers ==> rec == start && prev == Some(|rec|))
    && (honest ==> rec == start)
  }

  /** An object tried to the end. */
  ghost predicate DoneTrying(start: seq<Record>, rec: seq<Record>, item: Record, outs: seq<Outcome>, positions: seq<Option<nat>>,
                             before: Option<nat>, ok: bool, limit: int, answers: bool, honest: bool)
  {
    && Retried(outs, positions, before, ok, limit)
    && OnlyAdds(start, rec, item, |outs|)
    && (answers ==> OnlyAdds(start, rec, item, 1))
    && (honest ==> rec == AppendIf(start, ok, item))
  }

  lemma TryStart(start: seq<Record>, item: Record, before: Option<nat>, limit: int, answers: bool, honest: bool)
    requires answers ==> before == Some(|start|)
    ensures StillTrying(start, start, item, [], [], before, before, limit, answers, honest)
  {
    NoneRefused(before, limit);
    NoneAdded(start, item);
  }

  lemma TryNext(start: seq<Record>, rec: seq<Record>, rec': seq<Record>, item: Record, outs: seq<Outcome>, positions: seq<Option<nat>>,
                before: Option<nat>, prev: Option<nat>, limit: int, answers: bool, honest: bool, o: Outcome, pos: Option<nat>)
    requires StillTrying(start, rec, item, outs, positions, before, prev, limit, answers, honest) && |outs| < limit
    requires OnlyAdds(rec, rec', item, 1) && (answers ==> pos == Some(|rec'|)) && (honest ==> rec' == AppendIf(rec, o == Ok, item))
    ensures var outs', positions' := outs + [o], positions + [pos];
      if IsRefusal(o) && !(prev.Some? && pos.Some? && pos != prev)
      then StillTrying(start, rec', item, outs', positions', before, if pos.Some? then pos else prev, limit, answers, honest)
      else DoneTrying(start, rec', item, outs', positions', before, o == Ok, limit, answers, honest)
  {
    AddedOne(start, rec, rec', item, |outs|);
    Retry(outs, positions, before, limit, o, pos);
    hide Refused, Retried, LastSeen, OnlyAdds;
  }

  lemma TryEnd(start: seq<Record>, rec: seq<Record>, item: Record, outs: seq<Outcome>, positions: seq<Option<nat>>,
               before: Option<nat>, prev: Option<nat>, limit: int, answers: bool, honest: bool)
    requires StillTrying(start, rec, item, outs, positions, before, prev, limit, answers, honest) && |outs| >= limit
    ensures DoneTrying(start, rec, item, outs, positions, before, false, limit, answers, honest)
  {
    hide LastSeen, Moved;
  }

  /** At most the larger of the cap and what the slice alone already took. */
  predicate WithinCap(bytes: int, cap: int, slice: int) {
    bytes <= cap || bytes <= slice
  }

  /** The blocks left under the cap once the slice is counted. */
  function WalkBlocks(cap: int, k: nat, bs: nat): (b: nat)
    requires bs > 0
    ensures WithinCap((k + b) * bs, cap, k * bs) && NoMoreFit(k + b, bs, cap)
  {
    var room := (cap - k * bs) / bs;
    assert (k + room + 1) * bs == k * bs + room * bs + bs > cap;
    if room > 0 then
      assert (k + room) * bs == k * bs + room * bs <= cap;
      room
    else
      assert (k + 1) * bs >= (k + room + 1) * bs;
      0
  }

  function BytesPast(cap: int, k: nat, most: nat, accepted: nat, bs: nat): (bytes: nat)
    requires accepted <= most && WithinCap((k + most) * bs, cap, k * bs)
    ensures bytes == (k + accepted) * bs && WithinCap(bytes, cap, k * bs)
  {
    assert (k + accepted) * bs <= (k + most) * bs;
    (k + accepted) * bs
  }

  lemma SliceAppended(ks: Keystream, rec: seq<Record>, res: Results)
    requires ks.Valid() && res.slice.Some? && res.hardEnd.None? && Says(res.lba0, 0)
    requires res.mark1 == res.mark2 == NO_MARK && res.seal == NO_SEAL
    requires rec == ks.Run(0, res.fillBlocks) + ks.Run(res.fillBlocks, res.slice.value.accepted)
    requires Says(res.slice.value.lbaAfter, |rec|)
    ensures AsWritten(ks, rec, res)
  {
    RunAppended(ks, 0, res.fillBlocks, res.slice.value.accepted);
    assert rec == rec + Objects(ks.bs, res) + ks.Run(res.fillBlocks + res.slice.value.accepted, 0);
  }

  lemma AppendedObjects(rec: seq<Record>, rec': seq<Record>, bs: nat, res: Results)
    requires |res.seal.text| <= bs
    requires rec' == AppendIf(AppendIf(AppendIf(rec, res.mark1.ok, Mark),
                                       res.seal.ok, Data(Padded(res.seal.text, bs))), res.mark2.ok, Mark)
    ensures rec' == rec + Objects(bs, res)
  {
  }

  lemma ObjectsAppended(ks: Keystream, rec: seq<Record>, rec': seq<Record>, res: Results, res': Results)
    requires ks.Valid() && AsWritten(ks, rec, res) && res.slice.Some? && res.hardEnd.None?
    requires res.mark1 == res.mark2 == NO_MARK && res.seal == NO_SEAL
    requires res' == res.(mark1 := res'.mark1, seal := res'.seal, mark2 := res'.mark2)
    requires SealText(res'.seal.text, ks.bs)
    requires rec' == AppendIf(AppendIf(AppendIf(rec, res'.mark1.ok, Mark),
                                       res'.seal.ok, Data(Padded(res'.seal.text, ks.bs))), res'.mark2.ok, Mark)
    requires PositionsRight(|rec|, res')
    ensures AsWritten(ks, rec', res')
  {
    hide Padded;
    var at := res.fillBlocks + res.slice.value.accepted;
    assert Objects(ks.bs, res) == [];
    assert rec == ks.Run(0, at);
    AppendedObjects(rec, rec', ks.bs, res');
    assert rec' == rec + Objects(ks.bs, res') + ks.Run(at, 0);
  }

  lemma HardEndAppended(ks: Keystream, rec: seq<Record>, rec': seq<Record>, res: Results, he: BlocksRec, bytesPast: nat)
    requires ks.Valid() && AsWritten(ks, rec, res) && res.slice.Some? && res.hardEnd.None?
    requires rec' == rec + ks.Run(res.fillBlocks + res.slice.value.accepted, he.accepted)
    requires Says(he.lbaStart, |rec|) && Says(he.lbaAfter, |rec'|)
    ensures AsWritten(ks, rec', res.(hardEnd := Some(he), bytesPastRefusal := bytesPast))
  {
    hide Padded;
    var at := res.fillBlocks + res.slice.value.accepted;
    assert rec == ks.Run(0, at) + Objects(ks.bs, res) + ks.Run(at, 0) == ks.Run(0, at) + Objects(ks.bs, res);
    assert Objects(ks.bs, res.(hardEnd := Some(he), bytesPastRefusal := bytesPast)) == Objects(ks.bs, res);
  }

  // ----- the whole tape of a drive that may keep what it refuses

  ghost function Copies(item: Record, n: nat): seq<Record> {
    seq(n, i => item)
  }

  lemma AddsCopies(start: seq<Record>, rec: seq<Record>, item: Record, most: int)
    requires OnlyAdds(start, rec, item, most)
    ensures rec == start + Copies(item, |rec| - |start|)
  {
  }

  /** i marks, j copies of the seal and l marks: no more than were tried, one at least of what was accepted, and one
      at most while READ POSITION answers. */
  ghost predicate ObjectsAre(objects: seq<Record>, seal: Record, m1: MarkRec, s: SealRec, m2: MarkRec, answers: bool, i: nat, j: nat, l: nat) {
    && objects == Copies(Mark, i) + Copies(seal, j) + Copies(Mark, l)
    && i <= |m1.attempts| && j <= |s.attempts| && l <= |m2.attempts|
    && (m1.ok ==> i > 0) && (s.ok ==> j > 0) && (m2.ok ==> l > 0)
    && (answers ==> i <= 1 && j <= 1 && l <= 1)
  }

  /** The fill, and the slice with repeats; the marks and the seal; the walk with repeats. */
  ghost predicate RepeatedBy(ks: Keystream, rec: seq<Record>, res: Results, answers: bool,
                             body: seq<Record>, objects: seq<Record>, walk: seq<Record>)
    requires ks.Valid() && res.slice.Some?
  {
    var n, k := res.fillBlocks, res.slice.value.accepted;
    && rec == body + objects + walk
    && ks.Run(0, n) <= body && Repeats(ks, body[n..], n, k)
    && |res.seal.text| <= ks.bs
    && (exists i, j, l ::
          ObjectsAre(objects, Data(Padded(res.seal.text, ks.bs)), res.mark1, res.seal, res.mark2, answers, i, j, l))
    && Repeats(ks, walk, n + k, HardEndAccepted(res)) && (res.hardEnd.None? ==> walk == [])
  }

  ghost predicate FilledSo(ks: Keystream, rec: seq<Record>, n: nat)
    requires ks.Valid()
  {
    rec == ks.Run(0, n) || rec == ks.Run(0, n + 1)
  }

  /** What stands on the tape when the drive keeps all it accepts and may keep what it refuses. */
  ghost predicate AsRepeated(ks: Keystream, rec: seq<Record>, res: Results, answers: bool)
    requires ks.Valid()
  {
    && Says(res.lba0, 0)
    && (res.slice.None? ==> FilledSo(ks, rec, res.fillBlocks))
    && (res.slice.Some? ==> exists body, objects, walk :: RepeatedBy(ks, rec, res, answers, body, objects, walk))
  }

  lemma FillRecorded(ks: Keystream, rec: seq<Record>, res: Results, refusal: bool, honest: bool, keeps: bool, answers: bool)
    requires ks.Valid() && res.slice.None? && Says(res.lba0, 0) && FillEnded(ks, [], rec, res.fillBlocks, refusal, honest, keeps)
    ensures honest ==> AsWritten(ks, rec, res)
    ensures keeps ==> AsRepeated(ks, rec, res, answers)
    ensures refusal ==> FillEnded(ks, [], rec, res.fillBlocks, true, honest, keeps)
  {
    assert [] + ks.Run(0, res.fillBlocks) == ks.Run(0, res.fillBlocks);
    assert [] + ks.Run(0, res.fillBlocks + 1) == ks.Run(0, res.fillBlocks + 1);
  }

  lemma FillFacts(ks: Keystream, rec: seq<Record>, n: nat, honest: bool, keeps: bool)
    requires ks.Valid() && FillEnded(ks, [], rec, n, true, honest, keeps)
    ensures (honest ==> rec == ks.Run(0, n)) && (keeps ==> FilledSo(ks, rec, n))
  {
    assert [] + ks.Run(0, n) == ks.Run(0, n) && [] + ks.Run(0, n + 1) == ks.Run(0, n + 1);
  }

  lemma InStepBehind(ks: Keystream, added: seq<Record>, n: nat, k: nat, nums: seq<nat>)
    requires ks.Valid() && InStep(ks, added, n, k, nums)
    ensures Repeats(ks, [Data(ks.At(n))] + added, n, k)
  {
    var first: nat := n;
    assert InStep(ks, [Data(ks.At(n))] + added, n, k, [first] + nums);
  }

  lemma RepeatsJoin(ks: Keystream, rec: seq<Record>, added: seq<Record>, n: nat, k: nat)
    requires ks.Valid() && FilledSo(ks, rec, n) && Repeats(ks, added, n, k)
    ensures ks.Run(0, n) <= rec + added && Repeats(ks, (rec + added)[n..], n, k)
  {
    var nums: seq<nat> :| InStep(ks, added, n, k, nums);
    if rec == ks.Run(0, n) {
      assert (rec + added)[n..] == added;
    } else {
      InStepBehind(ks, added, n, k, nums);
      hide InStep;
      assert (rec + added)[n..] == [Data(ks.At(n))] + added;
      assert ks.Run(0, n) <= ks.Run(0, n + 1);
    }
  }

  lemma SliceRepeated(ks: Keystream, rec: seq<Record>, added: seq<Record>, res: Results, answers: bool)
    requires ks.Valid() && res.slice.Some? && res.hardEnd.None? && Says(res.lba0, 0)
    requires res.mark1 == res.mark2 == NO_MARK && res.seal == NO_SEAL
    requires FilledSo(ks, rec, res.fillBlocks) && Repeats(ks, added, res.fillBlocks, res.slice.value.accepted)
    ensures AsRepeated(ks, rec + added, res, answers)
  {
    RepeatsJoin(ks, rec, added, res.fillBlocks, res.slice.value.accepted);
    NoRepeats(ks, res.fillBlocks + res.slice.value.accepted);
    hide Repeats, FilledSo;
    var body := rec + added;
    assert body == body + [] + [];
    assert ObjectsAre([], Data(Padded("", ks.bs)), NO_MARK, NO_SEAL, NO_MARK, answers, 0, 0, 0);
    assert RepeatedBy(ks, body, res, answers, body, [], []);
  }

  /** The records before a mark, before the seal, before the second mark and at the end, and what was noted of each step. */
  ghost predicate Between(rec: seq<Record>, rec1: seq<Record>, rec2: seq<Record>, rec3: seq<Record>, seal: Record,
                          m1: MarkRec, s: SealRec, m2: MarkRec, answers: bool, keeps: bool, honest: bool)
  {
    && OnlyAdds(rec, rec1, Mark, |m1.attempts|) && OnlyAdds(rec1, rec2, seal, |s.attempts|) && OnlyAdds(rec2, rec3, Mark, |m2.attempts|)
    && (answers ==> OnlyAdds(rec, rec1, Mark, 1) && OnlyAdds(rec1, rec2, seal, 1) && OnlyAdds(rec2, rec3, Mark, 1))
    && (m1.ok ==> |rec| < |rec1|) && (keeps && s.ok ==> |rec1| < |rec2|) && (m2.ok ==> |rec2| < |rec3|)
    && Says(m1.lbaBefore, |rec|) && Says(m1.lbaAfter, |rec1|) && Says(m2.lbaBefore, |rec2|) && Says(m2.lbaAfter, |rec3|)
    && (honest ==> rec3 == AppendIf(AppendIf(AppendIf(rec, m1.ok, Mark), s.ok, seal), m2.ok, Mark)
                   && rec1 == AppendIf(rec, m1.ok, Mark) && rec2 == AppendIf(rec1, s.ok, seal))
  }

  lemma NothingTouched(rec: seq<Record>, rec1: seq<Record>, rec2: seq<Record>, rec3: seq<Record>, seal: Record,
                       m1: MarkRec, s: SealRec, m2: MarkRec, answers: bool, keeps: bool, honest: bool)
    requires Between(rec, rec1, rec2, rec3, seal, m1, s, m2, answers, keeps, honest)
    ensures rec <= rec3 && (answers ==> |rec3| <= |rec| + 3)
    ensures keeps ==> Between(rec, rec1, rec2, rec3, seal, m1, s, m2, answers, true, false)
  {
  }

  lemma ObjectsWritten(ks: Keystream, rec: seq<Record>, rec1: seq<Record>, rec2: seq<Record>, rec3: seq<Record>, res: Results, res': Results,
                       answers: bool, keeps: bool)
    requires ks.Valid() && AsWritten(ks, rec, res) && res.slice.Some? && res.hardEnd.None?
    requires res.mark1 == res.mark2 == NO_MARK && res.seal == NO_SEAL
    requires res' == res.(mark1 := res'.mark1, seal := res'.seal, mark2 := res'.mark2) && SealText(res'.seal.text, ks.bs)
    requires Between(rec, rec1, rec2, rec3, Data(Padded(res'.seal.text, ks.bs)), res'.mark1, res'.seal, res'.mark2, answers, keeps, true)
    ensures AsWritten(ks, rec3, res')
  {
    var at := res.fillBlocks + res.slice.value.accepted;
    assert rec == ks.Run(0, at);
    assert PositionsRight(|rec|, res');
    hide OnlyAdds, Padded;
    ObjectsAppended(ks, rec, rec3, res, res');
  }

  lemma BetweenObjects(rec: seq<Record>, rec1: seq<Record>, rec2: seq<Record>, rec3: seq<Record>, seal: Record,
                       m1: MarkRec, s: SealRec, m2: MarkRec, answers: bool) returns (between: seq<Record>)
    requires Between(rec, rec1, rec2, rec3, seal, m1, s, m2, answers, true, false)
    ensures rec3 == rec + between
    ensures exists i, j, l :: ObjectsAre(between, seal, m1, s, m2, answers, i, j, l)
  {
    AddsCopies(rec, rec1, Mark, |m1.attempts|);
    AddsCopies(rec1, rec2, seal, |s.attempts|);
    AddsCopies(rec2, rec3, Mark, |m2.attempts|);
    hide Copies;
    var i: nat, j: nat, l: nat := |rec1| - |rec|, |rec2| - |rec1|, |rec3| - |rec2|;
    between := Copies(Mark, i) + Copies(seal, j) + Copies(Mark, l);
    assert rec3 == rec + between;
    assert ObjectsAre(between, seal, m1, s, m2, answers, i, j, l);
  }

  /** Before anything follows the slice the tape is the body alone. */
  lemma BareBody(ks: Keystream, rec: seq<Record>, res: Results, answers: bool, body: seq<Record>, objects: seq<Record>, walk: seq<Record>)
    requires ks.Valid() && res.slice.Some? && res.hardEnd.None? && RepeatedBy(ks, rec, res, answers, body, objects, walk)
    requires res.mark1 == res.mark2 == NO_MARK && res.seal == NO_SEAL
    ensures rec == body
  {
    hide Repeats;
    var i, j, l :| ObjectsAre(objects, Data(Padded(res.seal.text, ks.bs)), res.mark1, res.seal, res.mark2, answers, i, j, l);
    assert objects == [];
  }

  lemma ObjectsJoin(ks: Keystream, rec: seq<Record>, between: seq<Record>, res: Results, res': Results, answers: bool,
                    objects: seq<Record>, walk: seq<Record>)
    requires ks.Valid() && res.slice.Some? && res.hardEnd.None? && RepeatedBy(ks, rec, res, answers, rec, objects, walk)
    requires Repeats(ks, [], res.fillBlocks + res.slice.value.accepted, 0)
    requires res' == res.(mark1 := res'.mark1, seal := res'.seal, mark2 := res'.mark2) && |res'.seal.text| <= ks.bs
    requires exists i, j, l ::
      ObjectsAre(between, Data(Padded(res'.seal.text, ks.bs)), res'.mark1, res'.seal, res'.mark2, answers, i, j, l)
    ensures RepeatedBy(ks, rec + between, res', answers, rec, between, [])
  {
    hide Repeats, ObjectsAre, Padded;
    assert rec + between == rec + between + [];
  }

  lemma ObjectsRepeated(ks: Keystream, rec: seq<Record>, rec1: seq<Record>, rec2: seq<Record>, rec3: seq<Record>, res: Results, res': Results, answers: bool)
    requires ks.Valid() && res.slice.Some? && res.hardEnd.None? && AsRepeated(ks, rec, res, answers)
    requires res.mark1 == res.mark2 == NO_MARK && res.seal == NO_SEAL
    requires res' == res.(mark1 := res'.mark1, seal := res'.seal, mark2 := res'.mark2) && |res'.seal.text| <= ks.bs
    requires Between(rec, rec1, rec2, rec3, Data(Padded(res'.seal.text, ks.bs)), res'.mark1, res'.seal, res'.mark2, answers, true, false)
    ensures AsRepeated(ks, rec3, res', answers)
  {
    var body, objects, walk :| RepeatedBy(ks, rec, res, answers, body, objects, walk);
    BareBody(ks, rec, res, answers, body, objects, walk);
    NoRepeats(ks, res.fillBlocks + res.slice.value.accepted);
    var between := BetweenObjects(rec, rec1, rec2, rec3, Data(Padded(res'.seal.text, ks.bs)), res'.mark1, res'.seal, res'.mark2, answers);
    hide RepeatedBy, Repeats, ObjectsAre, Padded, Between;
    ObjectsJoin(ks, rec, between, res, res', answers, objects, walk);
  }

  lemma ObjectsRecorded(ks: Keystream, rec: seq<Record>, rec1: seq<Record>, rec2: seq<Record>, rec3: seq<Record>, res: Results, res': Results,
                        answers: bool, keeps: bool, honest: bool)
    requires ks.Valid() && res.slice.Some? && res.hardEnd.None?
    requires (honest ==> AsWritten(ks, rec, res)) && (keeps ==> AsRepeated(ks, rec, res, answers))
    requires res.mark1 == res.mark2 == NO_MARK && res.seal == NO_SEAL
    requires res' == res.(mark1 := res'.mark1, seal := res'.seal, mark2 := res'.mark2) && SealText(res'.seal.text, ks.bs)
    requires Between(rec, rec1, rec2, rec3, Data(Padded(res'.seal.text, ks.bs)), res'.mark1, res'.seal, res'.mark2, answers, keeps, honest)
    ensures rec <= rec3 && (answers ==> |rec3| <= |rec| + 3)
    ensures (honest ==> AsWritten(ks, rec3, res')) && (keeps ==> AsRepeated(ks, rec3, res', answers))
  {
    hide AsWritten, AsRepeated, Between, Padded;
    NothingTouched(rec, rec1, rec2, rec3, Data(Padded(res'.seal.text, ks.bs)), res'.mark1, res'.seal, res'.mark2, answers, keeps, honest);
    if honest {
      ObjectsWritten(ks, rec, rec1, rec2, rec3, res, res', answers, keeps);
    }
    if keeps {
      ObjectsRepeated(ks, rec, rec1, rec2, rec3, res, res', answers);
    }
  }

  lemma WalkRepeated(ks: Keystream, rec: seq<Record>, added: seq<Record>, res: Results, he: BlocksRec, bytesPast: nat, answers: bool)
    requires ks.Valid() && res.slice.Some? && res.hardEnd.None? && AsRepeated(ks, rec, res, answers)
    requires Repeats(ks, added, res.fillBlocks + res.slice.value.accepted, he.accepted)
    ensures AsRepeated(ks, rec + added, res.(hardEnd := Some(he), bytesPastRefusal := bytesPast), answers)
  {
    hide Repeats, ObjectsAre, Padded;
    var body, objects, walk :| RepeatedBy(ks, rec, res, answers, body, objects, walk);
    assert rec + added == body + objects + added;
    assert RepeatedBy(ks, rec + added, res.(hardEnd := Some(he), bytesPastRefusal := bytesPast), answers, body, objects, added);
  }

  // ----- the steps of a run

  /** What ends the tries: the last attempt alone may be anything but a refusal, and one that is not accepted is tried
      again exactly when it is a refusal, left nothing behind that READ POSITION shows, and the limit allows. */
  lemma {:induction false} RetriedMeaning(attempts: seq<Outcome>, positions: seq<Option<nat>>, before: Option<nat>, ok: bool, limit: int)
    requires Retried(attempts, positions, before, ok, limit)
    ensures |positions| == |attempts|
    ensures forall i :: 0 <= i < |attempts| - 1 ==>
      (attempts[i] == Zero || attempts[i] == Err(ENOSPC)) && !Moved(before, positions, i)
    ensures |attempts| < limit ==>
      && attempts != []
      && var last := |attempts| - 1;
         (attempts[last] != Zero && attempts[last] != Err(ENOSPC)) || Moved(before, positions, last)
  {
    if attempts != [] {
      var last := |attempts| - 1;
      forall i | 0 <= i < last
        ensures (attempts[i] == Zero || attempts[i] == Err(ENOSPC)) && !Moved(before, positions, i)
      {
        if Refused(attempts[..last], positions[..last], before, limit) {
          assert attempts[..last][i] == attempts[i] && positions[..last][..i] == positions[..i] && positions[..last][i] == positions[i];
          assert !Moved(before, positions[..last], i);
        }
      }
    }
  }

  /** Both marks and the seal were tried, each as often as it must be, and the seal names this fill and this slice. */
  ghost predicate Sealed(o: Options, header: (nat, nat, Stop) -> string, m1: MarkRec, s: SealRec, m2: MarkRec, n: nat, k: nat, stop: Stop) {
    && Retried(m1.attempts, m1.positions, m1.lbaBefore, m1.ok, o.refusalRunLimit)
    && Retried(s.attempts, s.positions, s.lbaBefore, s.ok, o.refusalRunLimit)
    && Retried(m2.attempts, m2.positions, m2.lbaBefore, m2.ok, o.refusalRunLimit)
    && s.text == header(n, k, stop)
  }

  /** The walk keeps to the cap, and ends at it, at a stop, or at an attempt that was not accepted. */
  ghost predicate Walked(o: Options, bs: nat, k: nat, he: BlocksRec, bytesPast: nat, stopped: bool, refused: bool) {
    && bytesPast == (k + he.accepted) * bs && WithinCap(bytesPast, o.hardEndCap, k * bs)
    && match he.stop
       case CapReached => NoMoreFit(k + he.accepted, bs, o.hardEndCap)
       case Interrupted => stopped
       case Complete => false
       case _ => refused
  }

  /** The slice takes the blocks asked for unless it was stopped or an attempt was not accepted. */
  ghost predicate SliceTaken(o: Options, n: nat, sl: BlocksRec, stopped: bool, refused: bool) {
    && sl.firstBlock == n
    && (sl.accepted > 0 ==> sl.accepted <= o.sliceBlocks) && (sl.stop.Complete? <==> sl.accepted >= o.sliceBlocks)
    && (sl.stop.Complete? || (sl.stop.Interrupted? && stopped) || (!sl.stop.Interrupted? && refused))
  }

  /** The seal follows any slice that was not stopped. */
  ghost predicate SealTaken(o: Options, header: (nat, nat, Stop) -> string, n: nat, sl: BlocksRec, m1: MarkRec, s: SealRec, m2: MarkRec) {
    if sl.stop.Interrupted? then m1 == m2 == NO_MARK && s == NO_SEAL else Sealed(o, header, m1, s, m2, n, sl.accepted, sl.stop)
  }

  /** The walk follows a complete slice where it is asked for and no stop was seen, and only then. */
  ghost predicate WalkTaken(o: Options, bs: nat, sl: BlocksRec, hardEnd: Option<BlocksRec>, bytesPast: nat, stopped: bool, refused: bool) {
    match hardEnd
    case None => o.toHardEnd && sl.stop.Complete? ==> stopped
    case Some(he) => o.toHardEnd && sl.stop.Complete? && Walked(o, bs, sl.accepted, he, bytesPast, stopped, refused)
  }

  /** Every step past the warning. */
  ghost predicate AllStepsTaken(o: Options, header: (nat, nat, Stop) -> string, bs: nat, res: Results, stopped: bool, refused: bool) {
    res.slice.Some? &&
    var sl := res.slice.value;
    && SliceTaken(o, res.fillBlocks, sl, stopped, refused)
    && SealTaken(o, header, res.fillBlocks, sl, res.mark1, res.seal, res.mark2)
    && WalkTaken(o, bs, sl, res.hardEnd, res.bytesPastRefusal, stopped, refused)
  }

  /** Every outcome of the marks, the seal and the walk is the drive's answer to its own attempt: `a2` attempts and `m0`
      filemarks were made before, and `tries` attempts are made in all. */
  ghost predicate RestTold(o: Options, verdict: (nat, nat) -> WriteVerdict, markVerdict: nat -> MarkVerdict, bs: nat,
                           a2: nat, m0: nat, m1: MarkRec, s: SealRec, m2: MarkRec, hardEnd: Option<BlocksRec>, tries: nat)
  {
    var a3 := a2 + |s.attempts|;
    && MarksListed(markVerdict, m0, m1.attempts)
    && AnswersListed(verdict, bs, a2, [], s.attempts)
    && MarksListed(markVerdict, m0 + |m1.attempts|, m2.attempts)
    && match hardEnd
       case None => tries == a3
       case Some(he) =>
         && Told(verdict, bs, a3, [], o.refusalRunLimit, he, if he.stop.CapReached? then Complete else he.stop)
         && tries == a3 + he.attempts
  }

  /** And so is every outcome of the slice, which begins with the answer `event` to attempt `a1`. */
  ghost predicate RunTold(o: Options, verdict: (nat, nat) -> WriteVerdict, markVerdict: nat -> MarkVerdict, bs: nat,
                          a1: nat, event: Outcome, m0: nat, res: Results, tries: nat)
  {
    res.slice.Some? && res.slice.value.attempts >= 1 &&
    var sl := res.slice.value;
    && Told(verdict, bs, a1, [event], o.refusalRunLimit, sl, sl.stop)
    && RestTold(o, verdict, markVerdict, bs, a1 + sl.attempts - 1, m0, res.mark1, res.seal, res.mark2, res.hardEnd, tries)
  }

  lemma NothingToTell(o: Options, verdict: (nat, nat) -> WriteVerdict, markVerdict: nat -> MarkVerdict, bs: nat, a2: nat, m0: nat)
    ensures RestTold(o, verdict, markVerdict, bs, a2, m0, NO_MARK, NO_SEAL, NO_MARK, None, a2)
  {
  }

  lemma SliceTakenStill(o: Options, n: nat, sl: BlocksRec, stopped: bool, refused: bool, stopped': bool, refused': bool)
    requires SliceTaken(o, n, sl, stopped, refused) && (stopped ==> stopped') && (refused ==> refused')
    ensures SliceTaken(o, n, sl, stopped', refused')
  {
  }

  lemma NoStepsAfterStop(o: Options, header: (nat, nat, Stop) -> string, bs: nat, n: nat, sl: BlocksRec, stopped: bool, refused: bool)
    requires sl.stop.Interrupted?
    ensures SealTaken(o, header, n, sl, NO_MARK, NO_SEAL, NO_MARK) && WalkTaken(o, bs, sl, None, 0, stopped, refused)
  {
  }

  lemma WalkTakenStill(o: Options, bs: nat, sl: BlocksRec, hardEnd: Option<BlocksRec>, bytesPast: nat,
                       stopped: bool, refused: bool, stopped': bool, refused': bool)
    requires WalkTaken(o, bs, sl, hardEnd, bytesPast, stopped, refused) && (stopped ==> stopped') && (refused ==> refused')
    ensures WalkTaken(o, bs, sl, hardEnd, bytesPast, stopped', refused')
  {
  }

  lemma StepsStillTaken(o: Options, header: (nat, nat, Stop) -> string, bs: nat, res: Results, stopped: bool, refused: bool, stopped': bool)
    requires AllStepsTaken(o, header, bs, res, stopped, refused) && (stopped ==> stopped')
    ensures AllStepsTaken(o, header, bs, res, stopped', refused)
  {
    hide SealTaken, SliceTaken, WalkTaken;
    SliceTakenStill(o, res.fillBlocks, res.slice.value, stopped, refused, stopped', refused);
    WalkTakenStill(o, bs, res.slice.value, res.hardEnd, res.bytesPastRefusal, stopped, refused, stopped', refused);
  }

  /** How often a walk looks at the stop flag: before it, at each attempt, and once more when it is found set. */
  function WalkLooks(o: Options, sl: BlocksRec, hardEnd: Option<BlocksRec>): nat {
    Bit(o.toHardEnd && sl.stop.Complete?) +
    match hardEnd
    case None => 0
    case Some(he) => he.attempts + Bit(he.stop.Interrupted?)
  }

  /** How often a run looks at the stop flag past the warning; the first outcome of the slice is the fill's. */
  function LooksPast(o: Options, res: Results): int {
    match res.slice
    case None => 0
    case Some(sl) => sl.attempts - 1 + Bit(sl.stop.Interrupted?) + WalkLooks(o, sl, res.hardEnd)
  }

  ghost predicate AnsweredRefusal(verdict: (nat, nat) -> WriteVerdict, bs: nat, a: nat) {
    a > 0 && (AnswerAt(verdict, bs, a) == Zero || AnswerAt(verdict, bs, a) == Err(ENOSPC))
  }

  ghost predicate AnsweredError(verdict: (nat, nat) -> WriteVerdict, bs: nat, a: nat) {
    a > 0 && (AnswerAt(verdict, bs, a).Short? || (AnswerAt(verdict, bs, a).Err? && AnswerAt(verdict, bs, a) != Err(ENOSPC)))
  }

  lemma DataAppended(rec: seq<Record>, x: Record)
    ensures DataCount(rec + [x]) == DataCount(rec) + Bit(x.Data?)
  {
    assert (rec + [x])[..|rec|] == rec;
  }

  class Writer {
    const tape: FakeTape
    const ks: Keystream
    const o: Options
    const header: (nat, nat, Stop) -> string  // the seal's text, by fill blocks, slice blocks and stop
    const stops: nat -> bool                  // the stop flag, as the i-th look at it finds it
    var buf: Block
    var bufG: Option<nat>
    var polls: nat
    var res: Results

    ghost predicate Configured() {
      && ks.Valid() && ks.bs == tape.bs
      && forall n, k, s :: SealText(header(n, k, s), tape.bs)
    }

    /** The head stands at the end of the data, and the drive has put there what it was asked to so far. */
    ghost predicate AtEnd()
      reads tape`rec, tape`pos, tape`attempts
    {
      tape.pos == |tape.rec| && DataCount(tape.rec) == BlocksAfter(tape.verdict, tape.attempts)
    }

    /** The tape stands at its end, and the cached buffer is the block it claims to be. */
    ghost predicate Valid()
      reads this, tape
    {
      && Configured() && AtEnd()
      && (bufG.Some? ==> buf == ks.At(bufG.value))
    }

    constructor (tape: FakeTape, ks: Keystream, o: Options, header: (nat, nat, Stop) -> string, stops: nat -> bool)
      requires ks.Valid()
      ensures this.tape == tape && this.ks == ks && this.o == o && this.header == header && this.stops == stops
      ensures bufG == None && polls == 0
      ensures res == Results(None, 0, None, NO_MARK, NO_SEAL, NO_MARK, None, 0)
    {
      this.tape, this.ks, this.o, this.header, this.stops := tape, ks, o, header, stops;
      buf := Zeros(ks.bs);
      bufG, polls := None, 0;
      res := Results(None, 0, None, NO_MARK, NO_SEAL, NO_MARK, None, 0);
    }

    /** The stop flag was found set by one of the looks at it from the i-th up to the j-th. */
    ghost predicate Stopped(i: nat, j: nat) {
      exists p :: i <= p < j && stops(p)
    }

    method PollStop() returns (b: bool)
      modifies `polls
      ensures polls == old(polls) + 1 && b == stops(old(polls))
    {
      b := stops(polls);
      polls := polls + 1;
    }

    method WriteBuf(buf: Block) returns (o: Outcome)
      requires |buf| == tape.bs && AtEnd()
      modifies tape`rec, tape`pos, tape`attempts
      ensures AtEnd() && tape.attempts == old(tape.attempts) + 1
      ensures tape.rec == old(tape.rec) || tape.rec == old(tape.rec) + [Data(buf)]
      ensures Answered(tape.verdict, tape.bs, tape.attempts, o)
      ensures tape.HonestWrites() ==> tape.rec == old(tape.rec) + (if o.Ok? then [Data(buf)] else [])
      ensures tape.NeverDrops() && o.Ok? ==> tape.rec == old(tape.rec) + [Data(buf)]
      ensures tape.NeverDrops() && !IsRefusal(o) && o != Ok ==> tape.rec == old(tape.rec)
    {
      assert tape.NeverDrops() ==> KeepsAccepted(tape.verdict(tape.attempts + 1, DataCount(tape.rec)), tape.bs);
      assert tape.rec[..tape.pos] == tape.rec;
      assert tape.HonestWrites() ==>
             HonestWrite(tape.verdict(tape.attempts + 1, DataCount(tape.rec)), tape.bs);
      DataAppended(tape.rec, Data(buf));
      var r := tape.Write(buf);
      match r {
        case Raised(e) => o := Err(e);
        case WroteBytes(n) => o := if n == tape.bs then Ok else if n == 0 then Zero else Short(n);
      }
    }

    method BlockBuf(g: nat) returns (b: Block)
      requires Valid()
      modifies `buf, `bufG
      ensures Valid() && bufG == Some(g)
      ensures b == ks.At(g) && |b| == tape.bs
    {
      if bufG != Some(g) {
        buf := ks.At(g);
        bufG := Some(g);
      }
      b := buf;
    }

    /** One block of the fill. */
    method FillBlock(g: nat, ghost start: seq<Record>, ghost from: nat) returns (event: Outcome)
      requires Configured() && AtEnd() && tape.attempts == from + g
      requires Filling(ks, start, tape.rec, g, tape.HonestWrites(), tape.NeverDrops()) && AllAccepted(tape.verdict, tape.bs, from, g)
      modifies `buf, tape`rec, tape`pos, tape`attempts
      ensures AtEnd() && tape.attempts == from + g + 1 && Answered(tape.verdict, tape.bs, tape.attempts, event)
      ensures event == Ok ==>
        && Filling(ks, start, tape.rec, g + 1, tape.HonestWrites(), tape.NeverDrops())
        && AllAccepted(tape.verdict, tape.bs, from, g + 1)
      ensures event != Ok ==>
        FillEnded(ks, start, tape.rec, g, IsRefusal(event), tape.HonestWrites(), tape.NeverDrops())
    {
      hide Answered, AllAccepted, AtEnd, Filling, FillEnded;
      ghost var rec := tape.rec;
      buf := ks.At(g);
      event := WriteBuf(buf);
      OneMoreAccepted(tape.verdict, tape.bs, from, g, event);
      FillNext(ks, start, rec, tape.rec, g, event, tape.HonestWrites(), tape.NeverDrops());
    }

    /** Blocks of the stream until one is not accepted, the cap is reached, or a stop is seen. */
    method Fill() returns (end: FillEnd, g: nat, event: Outcome)
      requires Valid()
      modifies `buf, `bufG, `polls, tape`rec, tape`pos, tape`attempts
      ensures Valid()
      ensures FillEnded(ks, old(tape.rec), tape.rec, g, end.Refusal?, tape.HonestWrites(), tape.NeverDrops())
      ensures end.Refusal? ==> event == Zero || event == Err(ENOSPC)
      ensures end.Error? ==> event.Short? || (event.Err? && event != Err(ENOSPC))
      ensures g > 0 ==> g * tape.bs <= o.maxFillBytes
      // it stops for no other reason
      ensures AllAccepted(tape.verdict, tape.bs, old(tape.attempts), g)
      ensures end.Refusal? || end.Error? ==> Answered(tape.verdict, tape.bs, tape.attempts, event)
      ensures end.Refusal? || end.Error? ==> !NoMoreFit(g, tape.bs, o.maxFillBytes)
      ensures tape.attempts == old(tape.attempts) + g + Bit(end.Refusal? || end.Error?)
      ensures end.Cap? ==> NoMoreFit(g, tape.bs, o.maxFillBytes)
      ensures polls == old(polls) + g + 1 && (end.FillInterrupted? ==> Stopped(old(polls), polls))
    {
      ghost var start, from, v := tape.rec, tape.attempts, tape.verdict;
      NoneAccepted(v, tape.bs, from);
      NoneFilled(ks, start, tape.HonestWrites(), tape.NeverDrops());
      var cap := o.maxFillBytes / tape.bs;
      g, event := 0, Ok;
      hide NoMoreFit, Answer, Answered, AllAccepted, AtEnd, Filling, FillEnded;
      while true
        invariant AtEnd() && tape.attempts == from + g && polls == old(polls) + g
        invariant Filling(ks, start, tape.rec, g, tape.HonestWrites(), tape.NeverDrops())
        invariant g > 0 ==> g <= cap
        invariant AllAccepted(v, tape.bs, from, g)
        decreases cap - g
      {
        FillingEnds(ks, start, tape.rec, g, tape.HonestWrites(), tape.NeverDrops());
        var stop := PollStop();
        if stop {
          end := FillInterrupted;
          break;
        }
        if g >= cap {
          end := Cap;
          break;
        }
        event := FillBlock(g, start, from);
        if event != Ok {
          end := if IsRefusal(event) then Refusal else Error;
          break;
        }
        g := g + 1;
      }
      bufG := None;
      FillCap(o.maxFillBytes, tape.bs, g);
    }

    /** The blocks from g0 on that were accepted since the tape held `start`. */
    ghost predicate OnTheTape(start: seq<Record>, g0: nat, n: nat)
      requires ks.Valid()
      reads tape
    {
      Streamed(ks, start, tape.rec, g0, n, tape.HonestWrites(), tape.NeverDrops())
    }

    /** One write(2) of stream block g0 + done. */
    method WriteStream(g0: nat, done: nat, ghost start: seq<Record>) returns (outcome: Outcome)
      requires Valid() && OnTheTape(start, g0, done)
      modifies `buf, `bufG, tape`rec, tape`pos, tape`attempts
      ensures Valid() && tape.attempts == old(tape.attempts) + 1
      ensures Answered(tape.verdict, tape.bs, tape.attempts, outcome)
      ensures OnTheTape(start, g0, done + Bit(outcome == Ok))
    {
      hide Answer, Answered, Streamed, AtEnd, BlocksAfter, DataCount;
      var block := BlockBuf(g0 + done);
      outcome := WriteBuf(block);
      StreamedNext(ks, start, old(tape.rec), tape.rec, g0, done, outcome == Ok, tape.HonestWrites(), tape.NeverDrops());
    }

    /** One attempt, and the counts after it; a reason to end, where it gives one. */
    method AttemptOne(g0: nat, ghost first: seq<Outcome>, list: seq<Outcome>, accepted: nat, refusals: nat, maxconsec: nat,
                      consec: nat, ghost spent: nat, ghost from: nat, ghost start: seq<Record>)
      returns (more: seq<Outcome>, accepted': nat, refusals': nat, maxconsec': nat, consec': nat,
               ended: Option<Stop>, ghost spent': nat)
      requires Valid() && OnTheTape(start, g0, accepted)
      requires |first| <= |list| && tape.attempts == from + |list| - |first|
      requires Attempted(tape.verdict, tape.bs, from, first, list, o.refusalRunLimit, accepted, refusals, maxconsec, consec, spent)
      modifies `buf, `bufG, tape`rec, tape`pos, tape`attempts
      ensures Valid() && OnTheTape(start, g0, accepted')
      ensures |more| == |list| + 1 && tape.attempts == from + |more| - |first|
      ensures accepted' == accepted || (accepted' == accepted + 1 && spent' == 0 && ended.None?)
      ensures match ended
        case None =>
          && Attempted(tape.verdict, tape.bs, from, first, more, o.refusalRunLimit, accepted', refusals', maxconsec', consec', spent')
          && (accepted' == accepted ==> consec < consec' < o.refusalRunLimit)
        case Some(stop) =>
          && accepted' == accepted && !stop.Complete? && !stop.Interrupted?
          && Finished(tape.verdict, tape.bs, from, first, more, o.refusalRunLimit, accepted', refusals', maxconsec', stop)
    {
      hide Attempted, Finished, OnTheTape, Answered;
      var outcome := WriteStream(g0, accepted, start);
      AttemptedNext(tape.verdict, tape.bs, from, first, list, o.refusalRunLimit, accepted, refusals, maxconsec, consec, spent, outcome);
      more, accepted', refusals', maxconsec', consec', ended, spent' :=
        list + [outcome], accepted, refusals, maxconsec, consec, None, spent + 1;
      if outcome == Ok {
        accepted', consec', spent' := accepted + 1, 0, 0;
      } else if IsRefusal(outcome) {
        refusals', consec' := refusals + 1, consec + 1;
        maxconsec' := if consec' > maxconsec then consec' else maxconsec;
        if consec' >= o.refusalRunLimit {
          ended := Some(RefusalRun(consec'));
        }
      } else {
        ended := Some(if outcome.Short? then ShortCount(outcome.count) else Errored(outcome.errno));
      }
    }

    /** The attempts of `WriteBlocks`, with the running counts it keeps beside them. */
    method AttemptBlocks(g0: nat, nmax: int, consec0: nat, refusals0: nat, first: seq<Outcome>)
      returns (list: seq<Outcome>, accepted: nat, refusals: nat, maxconsec: nat, stop: Stop)
      requires Valid()
      requires Counted(first, first, 0, refusals0, consec0) && consec0 == TrailingRun(first)
      modifies `buf, `bufG, `polls, tape`rec, tape`pos, tape`attempts
      ensures Valid() && OnTheTape(old(tape.rec), g0, accepted)
      ensures accepted <= (if nmax < 0 then 0 else nmax) && (stop.Complete? <==> accepted >= nmax)
      ensures polls == old(polls) + |list| - |first| + Bit(stop.Interrupted?) && (stop.Interrupted? ==> Stopped(old(polls), polls))
      ensures |first| <= |list| && tape.attempts - old(tape.attempts) == |list| - |first|
      ensures Finished(tape.verdict, tape.bs, old(tape.attempts), first, list, o.refusalRunLimit,
                       accepted, refusals, maxconsec, stop)
    {
      ghost var v, bs, from := tape.verdict, tape.bs, tape.attempts;
      var limit := o.refusalRunLimit;
      list, accepted, refusals, maxconsec := first, 0, refusals0, consec0;
      var consec: nat := consec0;
      stop := Complete;
      ghost var spent: nat := 0;  // attempts on the block in hand
      NoneTried(first, limit, v, bs, from, refusals0, consec0);
      NoneStreamed(ks, tape.rec, g0, tape.HonestWrites(), tape.NeverDrops());
      hide Counted, TrailingRun, Attempted, Finished, Streamed, Answered;
      while accepted < nmax
        invariant Valid() && OnTheTape(old(tape.rec), g0, accepted)
        invariant |first| <= |list| && polls == old(polls) + |list| - |first|
        invariant accepted > 0 ==> accepted <= nmax
        invariant tape.attempts == from + |list| - |first|
        invariant Attempted(v, bs, from, first, list, limit, accepted, refusals, maxconsec, consec, spent)
        invariant accepted >= nmax ==> spent == 0
        decreases nmax - accepted, if consec < limit then limit - consec else 0
      {
        var stopNow := PollStop();
        if stopNow {
          AttemptsEnd(v, bs, from, first, list, limit, accepted, refusals, maxconsec, consec, spent);
          stop := Interrupted;
          return;
        }
        var ended;
        list, accepted, refusals, maxconsec, consec, ended, spent :=
          AttemptOne(g0, first, list, accepted, refusals, maxconsec, consec, spent, from, old(tape.rec));
        if ended.Some? {
          stop := ended.value;
          return;
        }
      }
      AttemptsEnd(v, bs, from, first, list, limit, accepted, refusals, maxconsec, consec, spent);
    }

    /** Put nmax blocks of the stream on the tape from block g0 on; a refused block is tried again. */
    method WriteBlocks(g0: nat, nmax: int, consec0: nat, refusals0: nat, first: seq<Outcome>)
      returns (r: BlocksRec, ghost outcomes: seq<Outcome>)
      requires Valid()
      requires Counted(first, first, 0, refusals0, consec0) && consec0 == TrailingRun(first)
      modifies `buf, `bufG, `polls, tape`rec, tape`pos, tape`attempts
      ensures Valid()
      // what is on the tape
      ensures tape.HonestWrites() ==> tape.rec == old(tape.rec) + ks.Run(g0, r.accepted)
      // a drive that may keep what it refuses, but keeps all it accepts: no block is skipped, only repeated
      ensures old(tape.rec) <= tape.rec
      ensures tape.NeverDrops() ==> Repeats(ks, tape.rec[|old(tape.rec)|..], g0, r.accepted)
      // why it stopped
      ensures r.firstBlock == g0 && r.accepted <= (if nmax < 0 then 0 else nmax)
      ensures (r.stop.Complete? <==> r.accepted >= nmax) && !r.stop.CapReached?
      ensures StopsFor(r.stop, first, outcomes, o.refusalRunLimit)
      ensures polls == old(polls) + |outcomes| - |first| + Bit(r.stop.Interrupted?) && (r.stop.Interrupted? ==> Stopped(old(polls), polls))
      ensures tape.attempts - old(tape.attempts) == |outcomes| - |first| >= 0
      ensures AnswersListed(tape.verdict, tape.bs, old(tape.attempts), first, outcomes)
      ensures r.stop.Complete? || r.stop.Interrupted? || NotAllAccepted(tape.verdict, tape.bs, old(tape.attempts), tape.attempts)
      // the record is that of the outcome list
      ensures Describes(r, first, outcomes) && r.attempts == |outcomes|
      ensures ToldBy(tape.verdict, tape.bs, old(tape.attempts), first, o.refusalRunLimit, r, r.stop, outcomes)
      ensures r.lbaStart == None && r.lbaAfter == None
      // against any drive
      ensures o.refusalRunLimit >= 1 && nmax >= 0 ==> |outcomes| - |first| <= nmax * o.refusalRunLimit
    {
      var list, accepted, refusals, maxconsec, stop := AttemptBlocks(g0, nmax, consec0, refusals0, first);
      AttemptBound(first, list, o.refusalRunLimit, nmax, accepted, stop);
      StopIsAnswered(tape.verdict, tape.bs, old(tape.attempts), stop, first, list, o.refusalRunLimit);
      assert !stop.CapReached?;
      hide AnswersListed, NotAllAccepted, Repeats, StopsFor;
      outcomes := list;
      r := Describe(g0, first, list, accepted, refusals, maxconsec, stop);
    }

    method TryMark() returns (err: Option<Errno>, pos: Option<nat>)
      requires AtEnd()
      modifies tape`rec, tape`pos, tape`markAttempts, tape`posCalls
      ensures AtEnd() && tape.pos == |tape.rec| && tape.markAttempts == old(tape.markAttempts) + 1
      ensures MarkAnswer(tape.markVerdict(tape.markAttempts)) == if err.None? then Ok else Err(err.value)
      ensures |old(tape.rec)| <= |tape.rec| && (err.None? ==> |tape.rec| == |old(tape.rec)| + 1)
      ensures OnlyAdds(old(tape.rec), tape.rec, Mark, 1)
      ensures tape.HonestMarks() ==> tape.rec == AppendIf(old(tape.rec), err.None?, Mark)
      ensures tape.PositionsAnswer() ==> pos == Some(|tape.rec|)
    {
      assert tape.HonestMarks() ==> HonestMark(tape.markVerdict(tape.markAttempts + 1));
      assert tape.rec[..tape.pos] == tape.rec;
      DataAppended(tape.rec, Mark);
      err := tape.WriteMark();
      pos := tape.ReadPosition();
    }

    method TryBlock(block: Block) returns (outcome: Outcome, pos: Option<nat>)
      requires AtEnd() && |block| == tape.bs
      modifies tape`rec, tape`pos, tape`attempts, tape`posCalls
      ensures AtEnd() && tape.pos == |tape.rec| && tape.attempts == old(tape.attempts) + 1
      ensures Answered(tape.verdict, tape.bs, tape.attempts, outcome)
      ensures |old(tape.rec)| <= |tape.rec| && (tape.NeverDrops() && outcome == Ok ==> |tape.rec| == |old(tape.rec)| + 1)
      ensures OnlyAdds(old(tape.rec), tape.rec, Data(block), 1)
      ensures tape.HonestWrites() ==> tape.rec == AppendIf(old(tape.rec), outcome == Ok, Data(block))
      ensures tape.PositionsAnswer() ==> pos == Some(|tape.rec|)
    {
      outcome := WriteBuf(block);
      pos := tape.ReadPosition();
    }

    method MarkTries(before: Option<nat>) returns (ok: bool, outs: seq<Outcome>, positions: seq<Option<nat>>)
      requires AtEnd() && (tape.PositionsAnswer() ==> before == Some(|tape.rec|))
      modifies tape`rec, tape`pos, tape`markAttempts, tape`posCalls
      ensures AtEnd() && (ok ==> |old(tape.rec)| < |tape.rec|)
      ensures tape.markAttempts == old(tape.markAttempts) + |outs| && MarksListed(tape.markVerdict, old(tape.markAttempts), outs)
      ensures DoneTrying(old(tape.rec), tape.rec, Mark, outs, positions, before, ok, o.refusalRunLimit,
                         tape.PositionsAnswer(), tape.HonestMarks())
    {
      ghost var start, from, answers, honest := tape.rec, tape.markAttempts, tape.PositionsAnswer(), tape.HonestMarks();
      ok, outs, positions := false, [], [];
      var prev := before;
      assert MarksListed(tape.markVerdict, from, outs);
      TryStart(start, Mark, before, o.refusalRunLimit, answers, honest);
      hide StillTrying, DoneTrying, AtEnd, MarksListed, MarkAnswer, OnlyAdds;
      while |outs| < o.refusalRunLimit
        invariant AtEnd() && |start| <= |tape.rec| && tape.markAttempts == from + |outs|
        invariant MarksListed(tape.markVerdict, from, outs) && !ok
        invariant StillTrying(start, tape.rec, Mark, outs, positions, before, prev, o.refusalRunLimit, answers, honest)
      {
        ghost var rec := tape.rec;
        var err, pos := TryMark();
        var out := if err.None? then Ok else Err(err.value);
        MarkListed(tape.markVerdict, from, outs);
        TryNext(start, rec, tape.rec, Mark, outs, positions, before, prev, o.refusalRunLimit, answers, honest, out, pos);
        ok, outs, positions := err.None?, outs + [out], positions + [pos];
        if ok || err != Some(ENOSPC) {
          return;
        }
        if prev.Some? && pos.Some? && pos != prev {
          return;
        }
        prev := if pos.Some? then pos else prev;
      }
      TryEnd(start, tape.rec, Mark, outs, positions, before, prev, o.refusalRunLimit, answers, honest);
    }

    /** One filemark, retried while it is refused and READ POSITION shows no mark was left behind. */
    method Filemark() returns (m: MarkRec)
      requires AtEnd()
      modifies tape`rec, tape`pos, tape`markAttempts, tape`posCalls
      ensures AtEnd()
      ensures Says(m.lbaBefore, |old(tape.rec)|) && Says(m.lbaAfter, |tape.rec|)
      ensures tape.HonestMarks() ==> tape.rec == AppendIf(old(tape.rec), m.ok, Mark)
      // any drive: marks only, no more than attempts, and one at most while READ POSITION answers
      ensures OnlyAdds(old(tape.rec), tape.rec, Mark, |m.attempts|)
      ensures tape.PositionsAnswer() ==> OnlyAdds(old(tape.rec), tape.rec, Mark, 1)
      ensures m.ok ==> |old(tape.rec)| < |tape.rec|
      // each attempt as the drive answered it
      ensures tape.markAttempts == old(tape.markAttempts) + |m.attempts|
      ensures MarksListed(tape.markVerdict, old(tape.markAttempts), m.attempts)
      ensures Retried(m.attempts, m.positions, m.lbaBefore, m.ok, o.refusalRunLimit)
    {
      var before := tape.ReadPosition();
      var ok, outs, positions := MarkTries(before);
      var after := tape.ReadPosition();
      m := MarkRec(ok, outs, positions, before, after);
    }

    method SealTries(block: Block, before: Option<nat>) returns (ok: bool, outs: seq<Outcome>, positions: seq<Option<nat>>)
      requires AtEnd() && |block| == tape.bs && (tape.PositionsAnswer() ==> before == Some(|tape.rec|))
      modifies tape`rec, tape`pos, tape`attempts, tape`posCalls
      ensures AtEnd() && (tape.NeverDrops() && ok ==> |old(tape.rec)| < |tape.rec|)
      ensures tape.attempts == old(tape.attempts) + |outs| && AnswersListed(tape.verdict, tape.bs, old(tape.attempts), [], outs)
      ensures DoneTrying(old(tape.rec), tape.rec, Data(block), outs, positions, before, ok, o.refusalRunLimit,
                         tape.PositionsAnswer(), tape.HonestWrites())
    {
      ghost var start, from, answers, honest := tape.rec, tape.attempts, tape.PositionsAnswer(), tape.HonestWrites();
      ok, outs, positions := false, [], [];
      var prev := before;
      assert AnswersListed(tape.verdict, tape.bs, from, [], outs);
      TryStart(start, Data(block), before, o.refusalRunLimit, answers, honest);
      hide StillTrying, DoneTrying, AtEnd, AnswersListed, Answered, OnlyAdds;
      while |outs| < o.refusalRunLimit
        invariant AtEnd() && |start| <= |tape.rec| && tape.attempts == from + |outs|
        invariant AnswersListed(tape.verdict, tape.bs, from, [], outs) && !ok
        invariant StillTrying(start, tape.rec, Data(block), outs, positions, before, prev, o.refusalRunLimit, answers, honest)
      {
        ghost var rec := tape.rec;
        var outcome, pos := TryBlock(block);
        AnswerListed(tape.verdict, tape.bs, from, [], outs, outcome);
        TryNext(start, rec, tape.rec, Data(block), outs, positions, before, prev, o.refusalRunLimit, answers, honest, outcome, pos);
        outs, positions := outs + [outcome], positions + [pos];
        if outcome == Ok {
          ok := true;
          return;
        }
        if !IsRefusal(outcome) {
          return;
        }
        if prev.Some? && pos.Some? && pos != prev {
          return;
        }
        prev := if pos.Some? then pos else prev;
      }
      TryEnd(start, tape.rec, Data(block), outs, positions, before, prev, o.refusalRunLimit, answers, honest);
    }

    /** The seal block, retried while it is refused and READ POSITION shows no block was left behind. */
    method Seal(n: nat, k: nat, stop: Stop) returns (s: SealRec)
      requires Configured() && AtEnd()
      modifies tape`rec, tape`pos, tape`attempts, tape`posCalls
      ensures AtEnd()
      ensures s.text == header(n, k, stop) && SealText(s.text, tape.bs)
      ensures Says(s.lbaBefore, |old(tape.rec)|)
      ensures var seal := Data(Padded(s.text, tape.bs));
        && (tape.HonestWrites() ==> tape.rec == AppendIf(old(tape.rec), s.ok, seal))
        // any drive: copies of the seal only, no more than attempts, and one at most while READ POSITION answers
        && OnlyAdds(old(tape.rec), tape.rec, seal, |s.attempts|)
        && (tape.PositionsAnswer() ==> OnlyAdds(old(tape.rec), tape.rec, seal, 1))
      ensures tape.NeverDrops() && s.ok ==> |old(tape.rec)| < |tape.rec|
      // each attempt as the drive answered it
      ensures tape.attempts == old(tape.attempts) + |s.attempts|
      ensures AnswersListed(tape.verdict, tape.bs, old(tape.attempts), [], s.attempts)
      ensures Retried(s.attempts, s.positions, s.lbaBefore, s.ok, o.refusalRunLimit)
    {
      var text := header(n, k, stop);
      assert SealText(text, tape.bs);
      var block := Padded(text, tape.bs);
      HeadOfPadded(text, tape.bs);
      hide Head, AnswersListed, Retried, OnlyAdds;
      var before := tape.ReadPosition();
      var ok, outs, positions := SealTries(block, before);
      s := SealRec(ok, outs, positions, before, Head(block));
    }

    /** Write on until an error, a run of refusals, or the cap on bytes past the first refusal. */
    method HardEnd(n: nat, k: nat) returns (he: BlocksRec, bytesPast: nat)
      requires Valid()
      modifies `buf, `bufG, `polls, tape`rec, tape`pos, tape`attempts, tape`posCalls
      ensures Valid()
      ensures tape.HonestWrites() ==> tape.rec == old(tape.rec) + ks.Run(n + k, he.accepted)
      ensures old(tape.rec) <= tape.rec && (tape.NeverDrops() ==> Repeats(ks, tape.rec[|old(tape.rec)|..], n + k, he.accepted))
      ensures Says(he.lbaStart, |old(tape.rec)|) && Says(he.lbaAfter, |tape.rec|)
      ensures tape.PositionsAnswer() ==> he.lbaStart.Some?
      ensures polls == old(polls) + he.attempts + Bit(he.stop.Interrupted?) && tape.attempts == old(tape.attempts) + he.attempts
      ensures Told(tape.verdict, tape.bs, old(tape.attempts), [], o.refusalRunLimit, he, if he.stop.CapReached? then Complete else he.stop)
      ensures Walked(o, tape.bs, k, he, bytesPast, Stopped(old(polls), polls),
                     NotAllAccepted(tape.verdict, tape.bs, old(tape.attempts), tape.attempts))
    {
      hide WithinCap, NoMoreFit, Describes, StopsFor, Repeats, AnswersListed, NotAllAccepted, Stopped, ToldBy, Told;
      var capBlocks := WalkBlocks(o.hardEndCap, k, tape.bs);
      var lba0 := tape.ReadPosition();
      var walk, outcomes := WriteBlocks(n + k, capBlocks, 0, 0, []);
      var lba := tape.ReadPosition();
      he := walk.(lbaStart := lba0, lbaAfter := lba, stop := if walk.stop.Complete? then CapReached else walk.stop);
      ToldOf(tape.verdict, tape.bs, old(tape.attempts), [], o.refusalRunLimit, walk, he, walk.stop, outcomes);
      bytesPast := BytesPast(o.hardEndCap, k, capBlocks, walk.accepted, tape.bs);
    }

    ghost predicate Honest() {
      tape.HonestWrites() && tape.HonestMarks()
    }

    /** The record is true of the tape: exactly on an honest drive, and with repeats on one that keeps all it accepts. */
    ghost predicate Recorded()
      requires ks.Valid()
      reads `res, tape`rec
    {
      && (Honest() ==> AsWritten(ks, tape.rec, res))
      && (tape.NeverDrops() ==> AsRepeated(ks, tape.rec, res, tape.PositionsAnswer()))
    }

    /** The two marks and the seal, as tape and records. */
    method MarkSealMark(n: nat, k: nat, stop: Stop) returns (m1: MarkRec, s: SealRec, m2: MarkRec, ghost rec1: seq<Record>, ghost rec2: seq<Record>)
      requires Configured() && AtEnd()
      modifies tape`rec, tape`pos, tape`attempts, tape`markAttempts, tape`posCalls
      ensures AtEnd() && SealText(s.text, tape.bs)
      ensures Sealed(o, header, m1, s, m2, n, k, stop)
      ensures Between(old(tape.rec), rec1, rec2, tape.rec, Data(Padded(s.text, tape.bs)), m1, s, m2,
                      tape.PositionsAnswer(), tape.NeverDrops(), Honest())
      ensures tape.attempts == old(tape.attempts) + |s.attempts| && AnswersListed(tape.verdict, tape.bs, old(tape.attempts), [], s.attempts)
      ensures MarksListed(tape.markVerdict, old(tape.markAttempts), m1.attempts)
      ensures MarksListed(tape.markVerdict, old(tape.markAttempts) + |m1.attempts|, m2.attempts)
    {
      hide AtEnd, OnlyAdds, Retried, AnswersListed, MarksListed, Padded, SealText;
      m1 := Filemark();
      rec1 := tape.rec;
      s := Seal(n, k, stop);
      rec2 := tape.rec;
      m2 := Filemark();
    }

    method FilemarkSealFilemark(n: nat, k: nat, stop: Stop)
      requires Valid() && res.slice.Some? && res.hardEnd.None?
      requires n == res.fillBlocks && k == res.slice.value.accepted
      requires res.mark1 == res.mark2 == NO_MARK && res.seal == NO_SEAL
      requires Recorded()
      modifies `res, tape`rec, tape`pos, tape`attempts, tape`markAttempts, tape`posCalls
      ensures Valid() && Recorded()
      ensures res == old(res).(mark1 := res.mark1, seal := res.seal, mark2 := res.mark2)
      ensures Sealed(o, header, res.mark1, res.seal, res.mark2, n, k, stop)
      // each attempt as the drive answered it
      ensures tape.attempts == old(tape.attempts) + |res.seal.attempts|
      ensures AnswersListed(tape.verdict, tape.bs, old(tape.attempts), [], res.seal.attempts)
      ensures MarksListed(tape.markVerdict, old(tape.markAttempts), res.mark1.attempts)
      ensures MarksListed(tape.markVerdict, old(tape.markAttempts) + |res.mark1.attempts|, res.mark2.attempts)
      // any drive: nothing already written is touched, and while READ POSITION answers nothing stacks
      ensures old(tape.rec) <= tape.rec
      ensures tape.PositionsAnswer() ==> |tape.rec| <= |old(tape.rec)| + 3
    {
      hide AtEnd, Sealed, AnswersListed, MarksListed, AsWritten, AsRepeated, Retried, Between, Padded;
      ghost var rec := tape.rec;
      var mark1, seal, mark2, rec1, rec2 := MarkSealMark(n, k, stop);
      res := res.(mark1 := mark1, seal := seal, mark2 := mark2);
      ObjectsRecorded(ks, rec, rec1, rec2, tape.rec, old(res), res, tape.PositionsAnswer(), tape.NeverDrops(), Honest());
    }

    method Slice(n: nat, event: Outcome) returns (sl: BlocksRec)
      requires Valid() && IsRefusal(event)
      requires res == Results(res.lba0, n, None, NO_MARK, NO_SEAL, NO_MARK, None, 0) && Says(res.lba0, 0)
      requires FillEnded(ks, [], tape.rec, n, true, tape.HonestWrites(), tape.NeverDrops())
      modifies `buf, `bufG, `polls, `res, tape`rec, tape`pos, tape`attempts, tape`posCalls
      ensures Valid() && res == old(res).(slice := Some(sl)) && Recorded()
      ensures polls == old(polls) + sl.attempts - 1 + Bit(sl.stop.Interrupted?)
      ensures SliceTaken(o, n, sl, Stopped(old(polls), polls),
                         NotAllAccepted(tape.verdict, tape.bs, old(tape.attempts), tape.attempts))
      ensures sl.attempts >= 1 && tape.attempts == old(tape.attempts) + sl.attempts - 1
      ensures Told(tape.verdict, tape.bs, old(tape.attempts), [event], o.refusalRunLimit, sl, sl.stop)
    {
      hide Describes, StopsFor, Repeats, AnswersListed, NotAllAccepted, Stopped, ToldBy, Told, AsRepeated, AsWritten, BlocksAfter, DataCount;
      FirstCounted(event);
      FillFacts(ks, tape.rec, n, tape.HonestWrites(), tape.NeverDrops());
      hide FillEnded, FilledSo;
      ghost var rec := tape.rec;
      var blocks, outcomes := WriteBlocks(n, o.sliceBlocks, 1, 1, [event]);
      var lba := tape.ReadPosition();
      sl := blocks.(lbaAfter := lba);
      ToldOf(tape.verdict, tape.bs, old(tape.attempts), [event], o.refusalRunLimit, blocks, sl, sl.stop, outcomes);
      res := res.(slice := Some(sl));
      if Honest() {
        SliceAppended(ks, tape.rec, res);
      }
      if tape.NeverDrops() {
        assert tape.rec == rec + tape.rec[|rec|..];
        SliceRepeated(ks, rec, tape.rec[|rec|..], res, tape.PositionsAnswer());
      }
    }

    method Walk(n: nat, k: nat)
      requires Valid() && res.slice.Some? && res.hardEnd.None?
      requires n == res.fillBlocks && k == res.slice.value.accepted
      requires Recorded()
      modifies `buf, `bufG, `polls, `res, tape`rec, tape`pos, tape`attempts, tape`posCalls
      ensures Valid() && res.hardEnd.Some? && Recorded()
      ensures res == old(res).(hardEnd := res.hardEnd, bytesPastRefusal := res.bytesPastRefusal)
      ensures tape.PositionsAnswer() ==> res.hardEnd.value.lbaStart.Some?
      ensures polls == old(polls) + res.hardEnd.value.attempts + Bit(res.hardEnd.value.stop.Interrupted?)
      ensures tape.attempts == old(tape.attempts) + res.hardEnd.value.attempts
      ensures var he := res.hardEnd.value;
        Told(tape.verdict, tape.bs, old(tape.attempts), [], o.refusalRunLimit, he, if he.stop.CapReached? then Complete else he.stop)
      ensures Walked(o, tape.bs, k, res.hardEnd.value, res.bytesPastRefusal, Stopped(old(polls), polls),
                     NotAllAccepted(tape.verdict, tape.bs, old(tape.attempts), tape.attempts))
    {
      hide Walked, Stopped, NotAllAccepted, Told, Repeats, AsRepeated, AsWritten;
      ghost var rec := tape.rec;
      var he, bytesPast := HardEnd(n, k);
      if Honest() {
        HardEndAppended(ks, rec, tape.rec, res, he, bytesPast);
      }
      if tape.NeverDrops() {
        assert tape.rec == rec + tape.rec[|rec|..];
        WalkRepeated(ks, rec, tape.rec[|rec|..], res, he, bytesPast, tape.PositionsAnswer());
      }
      res := res.(hardEnd := Some(he), bytesPastRefusal := bytesPast);
    }

    lemma StopInMore(i: nat, j: nat, i': nat, j': nat)
      requires i' <= i && j <= j'
      ensures Stopped(i, j) ==> Stopped(i', j')
    {
    }

    lemma OneLook(i: nat)
      ensures Stopped(i, i + 1) <==> stops(i)
    {
    }

    /** The walk, where the options and the slice call for it. */
    method MaybeWalk(n: nat, sl: BlocksRec, ghost looks: nat, ghost tries: nat)
      requires Valid() && res.slice == Some(sl) && res.hardEnd.None? && n == res.fillBlocks && Recorded()
      requires looks <= polls && tries <= tape.attempts
      modifies `buf, `bufG, `polls, `res, tape`rec, tape`pos, tape`attempts, tape`posCalls
      ensures Valid() && Recorded()
      ensures res == old(res).(hardEnd := res.hardEnd, bytesPastRefusal := res.bytesPastRefusal)
      ensures tape.PositionsAnswer() && res.hardEnd.Some? ==> res.hardEnd.value.lbaStart.Some?
      ensures polls == old(polls) + WalkLooks(o, sl, res.hardEnd)
      ensures WalkTaken(o, tape.bs, sl, res.hardEnd, res.bytesPastRefusal, Stopped(looks, polls),
                        NotAllAccepted(tape.verdict, tape.bs, tries, tape.attempts))
      ensures match res.hardEnd
        case None => tape.attempts == old(tape.attempts)
        case Some(he) =>
          && Told(tape.verdict, tape.bs, old(tape.attempts), [], o.refusalRunLimit, he, if he.stop.CapReached? then Complete else he.stop)
          && tape.attempts == old(tape.attempts) + he.attempts
    {
      hide Recorded, Told, NotAllAccepted, Stopped, Walked;
      if o.toHardEnd && sl.stop.Complete? {
        OneLook(polls);
        StopInMore(polls, polls + 1, looks, polls + 1);
        var stopNow := PollStop();
        if !stopNow {
          ghost var walkLooks, walkTries := polls, tape.attempts;
          Walk(n, sl.accepted);
          StopInMore(walkLooks, polls, looks, polls);
          NotAllAcceptedInMore(tape.verdict, tape.bs, walkTries, tape.attempts, tries, tape.attempts);
          WalkTakenStill(o, tape.bs, sl, res.hardEnd, res.bytesPastRefusal,
                         Stopped(walkLooks, polls), NotAllAccepted(tape.verdict, tape.bs, walkTries, tape.attempts),
                         Stopped(looks, polls), NotAllAccepted(tape.verdict, tape.bs, tries, tape.attempts));
        }
      }
    }

    /** What follows a slice that was not stopped. */
    method SealAndWalk(n: nat, sl: BlocksRec, ghost looks: nat, ghost tries: nat)
      requires Valid() && Recorded() && !sl.stop.Interrupted?
      requires res == Results(res.lba0, n, Some(sl), NO_MARK, NO_SEAL, NO_MARK, None, 0)
      requires looks <= polls && tries <= tape.attempts
      modifies `buf, `bufG, `polls, `res, tape`rec, tape`pos, tape`attempts, tape`markAttempts, tape`posCalls
      ensures Valid() && Recorded()
      ensures res == old(res).(mark1 := res.mark1, seal := res.seal, mark2 := res.mark2,
                               hardEnd := res.hardEnd, bytesPastRefusal := res.bytesPastRefusal)
      ensures tape.PositionsAnswer() && res.hardEnd.Some? ==> res.hardEnd.value.lbaStart.Some?
      ensures polls == old(polls) + WalkLooks(o, sl, res.hardEnd) && old(tape.attempts) <= tape.attempts
      ensures SealTaken(o, header, n, sl, res.mark1, res.seal, res.mark2)
      ensures WalkTaken(o, tape.bs, sl, res.hardEnd, res.bytesPastRefusal, Stopped(looks, polls),
                        NotAllAccepted(tape.verdict, tape.bs, tries, tape.attempts))
      ensures RestTold(o, tape.verdict, tape.markVerdict, tape.bs, old(tape.attempts), old(tape.markAttempts),
                       res.mark1, res.seal, res.mark2, res.hardEnd, tape.attempts)
    {
      hide Recorded, Told, NotAllAccepted, Stopped, WalkTaken, Sealed, MarksListed, AnswersListed;
      FilemarkSealFilemark(n, sl.accepted, sl.stop);
      MaybeWalk(n, sl, looks, tries);
    }

    method PastWarning(n: nat, event: Outcome)
      requires Valid() && IsRefusal(event)
      requires res == Results(res.lba0, n, None, NO_MARK, NO_SEAL, NO_MARK, None, 0) && Says(res.lba0, 0)
      requires FillEnded(ks, [], tape.rec, n, true, tape.HonestWrites(), tape.NeverDrops())
      modifies `buf, `bufG, `polls, `res, tape`rec, tape`pos, tape`attempts, tape`markAttempts, tape`posCalls
      ensures Valid() && res.slice.Some? && Recorded()
      ensures RunTold(o, tape.verdict, tape.markVerdict, tape.bs, old(tape.attempts), event, old(tape.markAttempts), res, tape.attempts)
      ensures tape.PositionsAnswer() && res.hardEnd.Some? ==> res.hardEnd.value.lbaStart.Some?
      ensures res == old(res).(slice := res.slice, mark1 := res.mark1, seal := res.seal, mark2 := res.mark2,
                               hardEnd := res.hardEnd, bytesPastRefusal := res.bytesPastRefusal)
      // no step is left out but for a stop or an attempt that was not accepted
      ensures polls == old(polls) + LooksPast(o, res) && old(tape.attempts) <= tape.attempts
      ensures AllStepsTaken(o, header, tape.bs, res, Stopped(old(polls), polls),
                            NotAllAccepted(tape.verdict, tape.bs, old(tape.attempts), tape.attempts))
    {
      hide Recorded, Told, FillEnded, NotAllAccepted, Stopped, SliceTaken, SealTaken, WalkTaken, RestTold;
      ghost var v, bs, looks, tries := tape.verdict, tape.bs, polls, tape.attempts;
      var sl := Slice(n, event);
      ghost var sliceLooks, sliceTries := polls, tape.attempts;
      if sl.stop.Interrupted? {
        NothingToTell(o, v, tape.markVerdict, bs, sliceTries, tape.markAttempts);
        NoStepsAfterStop(o, header, bs, n, sl, Stopped(looks, polls), NotAllAccepted(v, bs, tries, tape.attempts));
        return;
      }
      SealAndWalk(n, sl, looks, tries);
      StopInMore(looks, sliceLooks, looks, polls);
      NotAllAcceptedInMore(v, bs, tries, sliceTries, tries, tape.attempts);
      SliceTakenStill(o, n, sl, Stopped(looks, sliceLooks), NotAllAccepted(v, bs, tries, sliceTries),
                      Stopped(looks, polls), NotAllAccepted(v, bs, tries, tape.attempts));
    }

    /** The fill and its record. */
    method Begin() returns (end: FillEnd, n: nat, event: Outcome)
      requires Valid() && tape.rec == [] && tape.attempts == 0
      requires res == Results(None, 0, None, NO_MARK, NO_SEAL, NO_MARK, None, 0)
      modifies `buf, `bufG, `polls, `res, tape`rec, tape`pos, tape`attempts, tape`posCalls
      ensures Valid() && Recorded()
      ensures res == Results(res.lba0, n, None, NO_MARK, NO_SEAL, NO_MARK, None, 0) && Says(res.lba0, 0)
      ensures tape.PositionsAnswer() ==> res.lba0.Some?
      ensures polls == old(polls) + n + 1 && tape.attempts == n + Bit(end.Refusal? || end.Error?)
      ensures AllAccepted(tape.verdict, tape.bs, 0, n)
      ensures end.Refusal? ==>
        && IsRefusal(event) && event == AnswerAt(tape.verdict, tape.bs, n + 1) && AnsweredRefusal(tape.verdict, tape.bs, n + 1)
        && !NoMoreFit(n, tape.bs, o.maxFillBytes)
        && FillEnded(ks, [], tape.rec, n, true, tape.HonestWrites(), tape.NeverDrops())
      ensures end.Error? ==> AnsweredError(tape.verdict, tape.bs, n + 1)
      ensures end.Cap? ==> NoMoreFit(n, tape.bs, o.maxFillBytes)
      ensures end.FillInterrupted? ==> Stopped(old(polls), polls)
    {
      hide AsWritten, AsRepeated, NoMoreFit, AllAccepted, FillEnded, AnswerAt, Stopped;
      assert tape.pos == 0;
      var lba0 := tape.ReadPosition();
      res := res.(lba0 := lba0);
      end, n, event := Fill();
      res := res.(fillBlocks := n);
      FillRecorded(ks, tape.rec, res, end.Refusal?, tape.HonestWrites(), tape.NeverDrops(), tape.PositionsAnswer());
    }

    /** The whole run; the exit code. */
    method Execute() returns (rc: int)
      requires Valid() && tape.rec == [] && tape.attempts == 0 && tape.markAttempts == 0
      requires res == Results(None, 0, None, NO_MARK, NO_SEAL, NO_MARK, None, 0)
      modifies `buf, `bufG, `polls, `res, tape`rec, tape`pos, tape`attempts, tape`markAttempts, tape`posCalls
      ensures Valid()
      ensures Recorded()
      ensures tape.PositionsAnswer() ==> res.lba0.Some? && (res.hardEnd.Some? ==> res.hardEnd.value.lbaStart.Some?)
      ensures polls == old(polls) + res.fillBlocks + 2 + LooksPast(o, res)
      // what each exit code means
      ensures rc in {0, 3, 4, 5} && (rc == 3 ==> Stopped(old(polls), polls))
      ensures rc == 0 ==> res.slice.Some? || o.stopAtWarning
      ensures rc == 4 ==> NoMoreFit(res.fillBlocks, tape.bs, o.maxFillBytes)
      ensures rc == 5 ==> AnsweredError(tape.verdict, tape.bs, res.fillBlocks + 1)
      // the fill, and what follows the refusal that ends it
      ensures AllAccepted(tape.verdict, tape.bs, 0, res.fillBlocks)
      ensures rc == 0 || res.slice.Some? ==>
        && AnsweredRefusal(tape.verdict, tape.bs, res.fillBlocks + 1)
        && !NoMoreFit(res.fillBlocks, tape.bs, o.maxFillBytes)
      ensures res.slice.None? ==> res.fillBlocks <= tape.attempts <= res.fillBlocks + 1
      ensures rc == 5 ==> res.slice.None? && tape.attempts == res.fillBlocks + 1
      ensures rc == 4 ==> res.slice.None? && tape.attempts == res.fillBlocks
      ensures res.slice.None? && tape.attempts == res.fillBlocks + 1 && rc != 5 ==>
        rc == 3 || (rc == 0 && AnsweredRefusal(tape.verdict, tape.bs, res.fillBlocks + 1))
      ensures res.slice.Some? ==>
        && !o.stopAtWarning && rc in {0, 3}
        && AllStepsTaken(o, header, tape.bs, res, Stopped(old(polls), polls),
                         NotAllAccepted(tape.verdict, tape.bs, res.fillBlocks + 1, tape.attempts))
        && RunTold(o, tape.verdict, tape.markVerdict, tape.bs, res.fillBlocks + 1,
                   AnswerAt(tape.verdict, tape.bs, res.fillBlocks + 1), 0, res, tape.attempts)
    {
      hide Recorded, NoMoreFit, AllAccepted, NotAllAccepted, AllStepsTaken, RunTold, FillEnded, AnswerAt, Stopped;
      hide AnsweredError, AnsweredRefusal, WalkLooks, AtEnd;
      var end, n, event := Begin();
      ghost var looks := polls;
      rc := 0;
      match end {
        case Refusal =>
          if !o.stopAtWarning {
            ghost var tries := tape.attempts;
            PastWarning(n, event);
            StopInMore(looks, polls, old(polls), polls + 1);
            StepsStillTaken(o, header, tape.bs, res, Stopped(looks, polls), NotAllAccepted(tape.verdict, tape.bs, tries, tape.attempts),
                            Stopped(old(polls), polls + 1));
          }
        case Error =>
          rc := 5;
        case Cap =>
          rc := 4;
        case FillInterrupted =>
          rc := 3;
      }
      OneLook(polls);
      StopInMore(polls, polls + 1, old(polls), polls + 1);
      StopInMore(old(polls), looks, old(polls), polls + 1);
      var stopNow := PollStop();
      if stopNow {
        rc := 3;
      }
    }
  }
}
