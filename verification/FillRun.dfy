/** Whole runs: a fill on a drive of any behaviour, and the readback of the tape it left. */
module FillRun {
  import opened Common
  import opened Tape
  import opened FillRecord
  import opened FillWriter
  import opened FillReader

  /** The readback was to LOCATE and the drive cannot: the slice on `--route locate`, or
      the walk's blocks when no slice block was accepted, where auto has no LOCATE to fall back from. */
  predicate LocateMissing(asked: Route, locates: bool, res: Results) {
    && res.slice.Some? && !locates && TakesLocate(asked, locates, res)
    && (res.slice.value.accepted > 0 || (HardEndAccepted(res) > 0 && res.hardEnd.value.lbaStart.Some?))
  }

  lemma ObjectCount(bs: nat, res: Results)
    requires res.seal.ok ==> |res.seal.text| <= bs
    ensures |Objects(bs, res)| == |Expected(res)| == Bit(res.mark1.ok) + Bit(res.seal.ok) + Bit(res.mark2.ok)
  {
  }

  lemma ObjectKinds(bs: nat, res: Results, i: nat)
    requires bs > 0 && (res.seal.ok ==> SealText(res.seal.text, bs)) && i < |Objects(bs, res)|
    ensures i < |Expected(res)| && ObjectAt(Objects(bs, res), i, bs) == Expected(res)[i]
  {
    if res.seal.ok {
      HeadOfPadded(res.seal.text, bs);
    }
  }

  /** A block of the stream is never taken for a seal. */
  lemma StreamIsData(ks: Keystream, g: int)
    requires ks.Valid() && ks.NeverASeal()
    ensures ObjectAt([Data(ks.At(g))], 0, ks.bs) == DATA
  {
    assert Head(ks.At(g)) <= ks.At(g);
  }

  lemma HonestIsPinned(ks: Keystream, rec: seq<Record>, res: Results)
    requires ks.Valid() && ks.NeverASeal() && AsWritten(ks, rec, res) && res.slice.Some?
    ensures Pinned(ks, rec, res.fillBlocks, res.fillBlocks, res.slice.value.accepted, res)
  {
    hide Head, PositionsRight;
    var n, k := res.fillBlocks, res.slice.value.accepted;
    var at, objects := n + k, Objects(ks.bs, res);
    ObjectCount(ks.bs, res);
    assert HoldsRun(ks, rec, n, n, k);
    if Expected(res) == [] {
      if at < |rec| {
        assert rec[at] == Data(ks.At(at));
        StreamIsData(ks, at);
      }
    } else {
      forall i | 0 <= i < |objects| ensures ObjectAt(rec, at + i, ks.bs) == Expected(res)[i] {
        ObjectKinds(ks.bs, res, i);
        assert rec[at + i] == objects[i];
      }
    }
    if res.seal.ok {
      assert rec[at + Bit(res.mark1.ok)] == objects[Bit(res.mark1.ok)];
    }
  }

  lemma HonestSpacing(ks: Keystream, rec: seq<Record>, tail: nat, res: Results)
    requires ks.Valid() && ks.NeverASeal() && AsWritten(ks, rec, res) && res.slice.Some?
    ensures SpacingClean(ks, rec, tail, res.fillBlocks, res.slice.value.accepted, res)
  {
    hide Pinned;
    HonestIsPinned(ks, rec, res);
    ObjectCount(ks.bs, res);
  }

  lemma HonestFsf(ks: Keystream, rec: seq<Record>, res: Results)
    requires ks.Valid() && ks.NeverASeal() && AsWritten(ks, rec, res) && res.slice.Some?
    requires res.slice.value.accepted > 0 && res.mark1.ok && res.seal.ok
    ensures var last := res.fillBlocks + res.slice.value.accepted - 1; FsfLands(ks, rec, last, last)
  {
    hide Head;
    HonestIsPinned(ks, rec, res);
  }

  lemma HonestWalk(ks: Keystream, rec: seq<Record>, locates: bool, res: Results)
    requires ks.Valid() && AsWritten(ks, rec, res) && res.slice.Some?
    ensures WalkLocated(ks, rec, locates, res.fillBlocks + res.slice.value.accepted, res.hardEnd) <==>
            locates || HardEndAccepted(res) == 0 || res.hardEnd.value.lbaStart.None?
  {
    hide Head;
    ObjectCount(ks.bs, res);
  }

  lemma HonestLocate(ks: Keystream, rec: seq<Record>, locates: bool, res: Results)
    requires ks.Valid() && ks.NeverASeal() && AsWritten(ks, rec, res) && res.slice.Some?
    ensures var n, k := res.fillBlocks, res.slice.value.accepted;
      LocateClean(ks, rec, locates, n, k, res) <==>
      locates || (k == 0 && (HardEndAccepted(res) == 0 || res.hardEnd.value.lbaStart.None?))
  {
    hide Pinned, FsfLands, WalkLocated;
    HonestIsPinned(ks, rec, res);
    HonestWalk(ks, rec, locates, res);
    if res.slice.value.accepted > 0 && res.mark1.ok && res.seal.ok {
      HonestFsf(ks, rec, res);
    }
  }

  /** On the tape of an honest drive the readback is clean, except where it must LOCATE and cannot. */
  lemma HonestIsClean(ks: Keystream, rec: seq<Record>, locates: bool, asked: Route, tail: nat, res: Results)
    requires ks.Valid() && ks.NeverASeal() && AsWritten(ks, rec, res)
    ensures Clean(ks, rec, locates, asked, tail, res) <==> !LocateMissing(asked, locates, res)
  {
    hide SpacingClean, LocateClean;
    if res.slice.Some? {
      HonestSpacing(ks, rec, tail, res);
      HonestLocate(ks, rec, locates, res);
      assert PositionsAgree(Start(res), res.slice.value.accepted, res);
    }
  }

  // ----- when an honest drive may raise an alarm

  /** What the options of the two commands say of it: the drive cannot LOCATE, a fill can reach a refusal, and either
      `--route locate` is asked for and a slice is to be written, or no slice is and a walk is. */
  predicate MayAlarm(o: Options, bs: nat, asked: Route, locates: bool) {
    && !locates && !o.stopAtWarning && bs <= o.maxFillBytes
    && if o.sliceBlocks >= 1 then asked == Locate else asked != Spacing && o.toHardEnd && bs <= o.hardEndCap
  }

  /** A run that left a LOCATE missing was given such options. */
  lemma MissingOnlyIfMayAlarm(o: Options, header: (nat, nat, Stop) -> string, bs: nat, res: Results, stopped: bool, refused: bool,
                              asked: Route, locates: bool)
    requires bs > 0 && AllStepsTaken(o, header, bs, res, stopped, refused)
    requires !o.stopAtWarning && !NoMoreFit(res.fillBlocks, bs, o.maxFillBytes)
    requires LocateMissing(asked, locates, res)
    ensures MayAlarm(o, bs, asked, locates)
  {
  }

  /** And with such options a run that nothing stops and no refusal follows leaves one missing. */
  lemma MissingIfMayAlarm(o: Options, header: (nat, nat, Stop) -> string, bs: nat, res: Results, asked: Route, locates: bool)
    requires bs > 0 && MayAlarm(o, bs, asked, locates) && AllStepsTaken(o, header, bs, res, false, false)
    requires res.lba0.Some? && (res.hardEnd.Some? ==> res.hardEnd.value.lbaStart.Some?)
    ensures LocateMissing(asked, locates, res)
  {
  }

  /** The alarm at one input: `--slice-blocks 0 --to-hard-end`, blocks of 21 bytes, a refusal at once and none after it,
      READ POSITION answers, LOCATE does not work.  The record is that of the run and true of its tape, and the
      readback on auto calls the tape a failure. */
  lemma WalkWithoutSliceNeedsLocate(tail: nat)
    ensures var x := "xxxxxxxxxxxxxxxxxxxxx";
      var ks := Keystream(21, [x]);
      var o := Options(0, 8, false, true, 21, 21);
      var none := BlocksRec(0, 0, 1, 1, 1, Complete, [OutcomeRun(Err(ENOSPC), 1)], 1, map[Err(ENOSPC) := 1], None, Some(0));
      var mark1 := MarkRec(true, [Ok], [Some(1)], Some(0), Some(1));
      var seal := SealRec(true, [Ok], [Some(2)], Some(1), SEAL_MARKER);
      var mark2 := MarkRec(true, [Ok], [Some(3)], Some(2), Some(3));
      var walk := BlocksRec(0, 1, 1, 0, 0, CapReached, [OutcomeRun(Ok, 1)], 1, map[Ok := 1], Some(3), Some(4));
      var res := Results(Some(0), 0, Some(none), mark1, seal, mark2, Some(walk), 21);
      var rec := [Mark, Data(SEAL_MARKER), Mark, Data(x)];
      && ks.Valid() && ks.NeverASeal()
      && AllStepsTaken(o, (n, k, s) => SEAL_MARKER, 21, res, false, false)
      && AsWritten(ks, rec, res)
      && !Clean(ks, rec, false, Auto, tail, res)
  {
    var x := "xxxxxxxxxxxxxxxxxxxxx";
    var ks := Keystream(21, [x]);
    assert SEAL_MARKER[0] != x[0];
    assert Padded(SEAL_MARKER, 21) == SEAL_MARKER;
    assert [Mark, Data(SEAL_MARKER), Mark, Data(x)] == ks.Run(0, 0) + [Mark, Data(SEAL_MARKER), Mark] + ks.Run(0, 1);
  }

  // ----- a drive that may keep what it refuses

  /** The j-th record has a number at most j on from the first, so none of the n accepted blocks is short of a record. */
  lemma NumbersBounded(ks: Keystream, added: seq<Record>, g0: nat, n: nat, nums: seq<nat>)
    requires ks.Valid() && InStep(ks, added, g0, n, nums)
    ensures n <= |added|
  {
    var j := 0;
    while j < |nums|
      invariant 0 <= j <= |nums| && (j > 0 ==> nums[j - 1] <= g0 + j - 1)
    {
      assert j > 0 ==> nums[j - 1] <= nums[j] <= nums[j - 1] + 1;
      j := j + 1;
    }
  }

  /** A record of the body is read as data. */
  lemma BodyIsData(ks: Keystream, rec: seq<Record>, body: seq<Record>, n: nat, k: nat, nums: seq<nat>, j: nat)
    requires ks.Valid() && ks.NeverASeal() && body <= rec && n <= |body| && InStep(ks, body[n..], n, k, nums) && j < |nums|
    ensures ObjectAt(rec, n + j, ks.bs) == DATA
  {
    assert rec[n + j] == body[n..][j] == Data(ks.At(nums[j]));
    StreamIsData(ks, nums[j]);
  }

  /** A slice that is found with an object behind it is the slice and no more: nothing refused was kept before that object. */
  lemma BodyIsExact(ks: Keystream, rec: seq<Record>, body: seq<Record>, n: nat, k: nat)
    requires ks.Valid() && ks.NeverASeal()
    requires body <= rec && ks.Run(0, n) <= body && Repeats(ks, body[n..], n, k)
    requires HoldsRun(ks, rec, n, n, k) && ObjectAt(rec, n + k, ks.bs) in {FM, SEAL}
    ensures body == ks.Run(0, n + k)
  {
    var nums: seq<nat> :| InStep(ks, body[n..], n, k, nums);
    NumbersBounded(ks, body[n..], n, k, nums);
    if |nums| > k {
      BodyIsData(ks, rec, body, n, k, nums, k);
      assert false;
    }
    hide Head, ObjectAt, InStep;
    assert forall j :: 0 <= j < n + k ==> body[j] == rec[j];
    assert forall j :: 0 <= j < n ==> body[j] == ks.Run(0, n)[j];
  }

  /** Objects that are found, in records that are marks or whole blocks, are those reported. */
  lemma ObjectsExact(rec: seq<Record>, p: nat, bs: nat, res: Results, i: nat)
    requires bs > 0 && ObjectsPinned(rec, p, bs, res) && i < |Expected(res)| && p + i < |rec|
    requires rec[p + i].Mark? || |rec[p + i].bytes| == bs
    ensures (res.seal.ok ==> |res.seal.text| <= bs) && i < |Objects(bs, res)| && rec[p + i] == Objects(bs, res)[i]
  {
    ObjectCount(bs, res);
    assert ObjectAt(rec, p + i, bs) == Expected(res)[i];
    hide Head, Padded;
  }

  lemma PrefixJoined(a: seq<Record>, b: seq<Record>, rec: seq<Record>)
    requires a <= rec && |a| + |b| <= |rec| && forall i :: 0 <= i < |b| ==> rec[|a| + i] == b[i]
    ensures a + b <= rec
  {
    assert a + b == rec[..|a| + |b|];
  }

  /** The tape begins with the fill, the slice and the objects reported after it. */
  ghost predicate ExactlyReported(ks: Keystream, rec: seq<Record>, res: Results)
    requires ks.Valid() && res.slice.Some? && (res.seal.ok ==> |res.seal.text| <= ks.bs)
  {
    ks.Run(0, res.fillBlocks + res.slice.value.accepted) + Objects(ks.bs, res) <= rec
  }

  /** Every record past the body is a mark or a whole block. */
  lemma WholeRecords(ks: Keystream, rec: seq<Record>, res: Results, answers: bool,
                     body: seq<Record>, objects: seq<Record>, walk: seq<Record>, p: nat)
    requires ks.Valid() && res.slice.Some? && RepeatedBy(ks, rec, res, answers, body, objects, walk)
    requires |body| <= p < |rec|
    ensures rec[p].Mark? || |rec[p].bytes| == ks.bs
  {
    if p < |body| + |objects| {
      var i, j, l :| ObjectsAre(objects, Data(Padded(res.seal.text, ks.bs)), res.mark1, res.seal, res.mark2, answers, i, j, l);
      assert rec[p] == objects[p - |body|];
    } else {
      var nums: seq<nat> :| InStep(ks, walk, res.fillBlocks + res.slice.value.accepted, HardEndAccepted(res), nums);
      assert rec[p] == walk[p - |body| - |objects|];
    }
  }

  lemma BodyFirst(ks: Keystream, rec: seq<Record>, res: Results, answers: bool, body: seq<Record>, objects: seq<Record>, walk: seq<Record>)
    requires ks.Valid() && res.slice.Some? && RepeatedBy(ks, rec, res, answers, body, objects, walk)
    ensures body <= rec && ks.Run(0, res.fillBlocks) <= body && Repeats(ks, body[res.fillBlocks..], res.fillBlocks, res.slice.value.accepted)
  {
    hide Repeats;
  }

  lemma PinnedObject(ks: Keystream, rec: seq<Record>, res: Results, n: nat, k: nat, i: nat)
    requires ks.Valid() && Pinned(ks, rec, n, n, k, res) && i < |Expected(res)|
    ensures n + k + i < |rec| && ObjectAt(rec, n + k + i, ks.bs) == Expected(res)[i] && Expected(res)[i] in {FM, SEAL}
    ensures HoldsRun(ks, rec, n, n, k) && ObjectsPinned(rec, n + k, ks.bs, res)
  {
    hide ObjectAt;
  }

  lemma {:induction false} ObjectFound(ks: Keystream, rec: seq<Record>, res: Results, answers: bool,
                                       body: seq<Record>, objects: seq<Record>, walk: seq<Record>, i: nat)
    requires ks.Valid() && res.slice.Some? && RepeatedBy(ks, rec, res, answers, body, objects, walk)
    requires |body| == res.fillBlocks + res.slice.value.accepted && i < |Expected(res)|
    requires Pinned(ks, rec, res.fillBlocks, res.fillBlocks, res.slice.value.accepted, res)
    ensures (res.seal.ok ==> |res.seal.text| <= ks.bs) && i < |Objects(ks.bs, res)|
    ensures |body| + i < |rec| && rec[|body| + i] == Objects(ks.bs, res)[i]
  {
    hide Repeats, RepeatedBy, Padded, Objects, Pinned, ObjectsPinned, HoldsRun, ObjectAt, Expected;
    PinnedObject(ks, rec, res, res.fillBlocks, res.slice.value.accepted, i);
    WholeRecords(ks, rec, res, answers, body, objects, walk, |body| + i);
    ObjectsExact(rec, |body|, ks.bs, res, i);
  }

  lemma {:induction false} AllFound(ks: Keystream, rec: seq<Record>, res: Results, body: seq<Record>)
    requires ks.Valid() && res.slice.Some? && (res.seal.ok ==> |res.seal.text| <= ks.bs)
    requires body <= rec && body == ks.Run(0, res.fillBlocks + res.slice.value.accepted)
    requires |body| + |Objects(ks.bs, res)| <= |rec|
    requires forall i :: 0 <= i < |Objects(ks.bs, res)| ==> rec[|body| + i] == Objects(ks.bs, res)[i]
    ensures ExactlyReported(ks, rec, res)
  {
    hide Objects;
    PrefixJoined(body, Objects(ks.bs, res), rec);
  }

  lemma SealFits(rec: seq<Record>, p: nat, bs: nat, res: Results)
    requires ObjectsPinned(rec, p, bs, res)
    ensures res.seal.ok ==> |res.seal.text| <= bs
  {
  }

  lemma {:induction false} RepeatedPinnedBy(ks: Keystream, rec: seq<Record>, res: Results, answers: bool,
                                            body: seq<Record>, objects: seq<Record>, walk: seq<Record>)
    requires ks.Valid() && ks.NeverASeal() && res.slice.Some? && RepeatedBy(ks, rec, res, answers, body, objects, walk)
    requires Pinned(ks, rec, res.fillBlocks, res.fillBlocks, res.slice.value.accepted, res) && Expected(res) != []
    ensures (res.seal.ok ==> |res.seal.text| <= ks.bs) && ExactlyReported(ks, rec, res)
  {
    var n, k := res.fillBlocks, res.slice.value.accepted;
    hide Repeats, RepeatedBy, Objects, Pinned, ObjectsPinned, HoldsRun, ObjectAt, Expected, ExactlyReported, Keystream.NeverASeal;
    BodyFirst(ks, rec, res, answers, body, objects, walk);
    PinnedObject(ks, rec, res, n, k, 0);
    BodyIsExact(ks, rec, body, n, k);
    SealFits(rec, n + k, ks.bs, res);
    ObjectCount(ks.bs, res);
    forall i | 0 <= i < |Objects(ks.bs, res)| ensures |body| + i < |rec| && rec[|body| + i] == Objects(ks.bs, res)[i] {
      ObjectFound(ks, rec, res, answers, body, objects, walk, i);
    }
    ObjectFound(ks, rec, res, answers, body, objects, walk, |Expected(res)| - 1);
    AllFound(ks, rec, res, body);
  }

  /** A readback that passes pins the whole tape of such a drive: the fill and the slice without a repeat, and every object
      reported after them. */
  lemma {:induction false} RepeatedPinned(ks: Keystream, rec: seq<Record>, res: Results, answers: bool)
    requires ks.Valid() && ks.NeverASeal()
    requires res.slice.Some? && AsRepeated(ks, rec, res, answers)
    requires Pinned(ks, rec, res.fillBlocks, res.fillBlocks, res.slice.value.accepted, res) && Expected(res) != []
    ensures (res.seal.ok ==> |res.seal.text| <= ks.bs) && ExactlyReported(ks, rec, res)
  {
    hide RepeatedBy, Pinned, Expected, ExactlyReported, FilledSo;
    var body, objects, walk :| RepeatedBy(ks, rec, res, answers, body, objects, walk);
    RepeatedPinnedBy(ks, rec, res, answers, body, objects, walk);
  }

  // ----- the runs

  /** The stop flag was found set by one of the first `looks` looks at it. */
  ghost predicate StopSeen(stops: nat -> bool, looks: nat) {
    exists p: nat :: p < looks && stops(p)
  }

  lemma LooksSeen(writer: Writer, looks: nat)
    ensures writer.Stopped(0, looks) <==> StopSeen(writer.stops, looks)
  {
  }

  /** The readback of the tape in the drive. */
  method ReadBack(tape: FakeTape, ks: Keystream, asked: Route, chunk: nat, tail: nat, res: Results) returns (route: Route, checks: seq<Check>)
    requires ks.Valid() && 0 < chunk <= SPACE_MAX && tape.bs == ks.bs && tape.spaceCounts == []
    modifies tape`pos, tape`spaceCounts
    ensures checks == Report(ks, tape.rec, tape.bs, tape.locates, asked, tail, res)
    ensures NoFail(checks) <==> Clean(ks, tape.rec, tape.locates, asked, tail, res)
    ensures res.slice.Some? ==> route == if TakesLocate(asked, tape.locates, res) then Locate else Spacing
    ensures NoFail(checks) && res.slice.Some? && res.slice.value.accepted > 0 ==> SlicePass(checks, res)
    ensures SlicePass(checks, res) ==>
      && res.slice.Some?
      && Pinned(ks, tape.rec, SliceAt(route, res), res.fillBlocks, res.slice.value.accepted, res)
  {
    hide Clean, NoFail, SlicePass, Pinned;
    var reader := new Reader(tape, ks, asked, chunk, tail);
    reader.RunChecks(res);
    route, checks := reader.route, reader.checks;
  }

  lemma SliceIsAtFill(ks: Keystream, rec: seq<Record>, res: Results, route: Route, answers: bool)
    requires ks.Valid() && AsRepeated(ks, rec, res, answers)
    ensures SliceAt(route, res) == res.fillBlocks
  {
  }

  /** What an honest tape and the options say of the readback. */
  lemma HonestAlarm(ks: Keystream, o: Options, header: (nat, nat, Stop) -> string, rec: seq<Record>, res: Results, stopped: bool, refused: bool,
                    asked: Route, locates: bool, tail: nat)
    requires ks.Valid() && ks.NeverASeal() && AsWritten(ks, rec, res)
    requires res.slice.Some? ==>
      && AllStepsTaken(o, header, ks.bs, res, stopped, refused)
      && !o.stopAtWarning && !NoMoreFit(res.fillBlocks, ks.bs, o.maxFillBytes)
    ensures Clean(ks, rec, locates, asked, tail, res) <==> !LocateMissing(asked, locates, res)
    ensures LocateMissing(asked, locates, res) ==> MayAlarm(o, ks.bs, asked, locates)
  {
    HonestIsClean(ks, rec, locates, asked, tail, res);
    hide Clean, AllStepsTaken, AsWritten, MayAlarm;
    if LocateMissing(asked, locates, res) {
      MissingOnlyIfMayAlarm(o, header, ks.bs, res, stopped, refused, asked, locates);
    }
  }

  /** One fill on a blank tape, and its readback. */
  method Scenario(ks: Keystream, o: Options, header: (nat, nat, Stop) -> string, stops: nat -> bool,
                  verdict: (nat, nat) -> WriteVerdict, markVerdict: nat -> MarkVerdict,
                  answers: nat -> bool, locates: bool, asked: Route, chunk: nat, tail: nat)
    returns (rc: int, res: Results, rec: seq<Record>, route: Route, checks: seq<Check>, ghost tries: nat, ghost looks: nat)
    requires ks.Valid() && ks.NeverASeal() && 0 < chunk <= SPACE_MAX
    requires forall n, k, s :: SealText(header(n, k, s), ks.bs)
    // the readback is of this tape against this record, every check of it
    ensures checks == Report(ks, rec, ks.bs, locates, asked, tail, res)
    // no false alarm
    ensures HonestDrive(verdict, markVerdict, ks.bs) ==>
      && AsWritten(ks, rec, res)
      && (NoFail(checks) <==> !LocateMissing(asked, locates, res))
      && (!MayAlarm(o, ks.bs, asked, locates) ==> NoFail(checks))
    // no drive passes what is not on the tape, and nothing is left unchecked
    ensures SlicePass(checks, res) ==>
      && res.slice.Some?
      && Pinned(ks, rec, SliceAt(route, res), res.fillBlocks, res.slice.value.accepted, res)
    ensures NoFail(checks) && res.slice.Some? && res.slice.value.accepted > 0 ==> SlicePass(checks, res)
    ensures res.slice.Some? ==> route == if TakesLocate(asked, locates, res) then Locate else Spacing
    // a drive that may keep what it refuses: repeats only, and none where the slice passes with an object after it
    ensures DropsNothing(verdict, ks.bs) ==> AsRepeated(ks, rec, res, forall i: nat :: answers(i))
    ensures DropsNothing(verdict, ks.bs) && SlicePass(checks, res) && Expected(res) != [] ==>
      (res.seal.ok ==> |res.seal.text| <= ks.bs) && ExactlyReported(ks, rec, res)
    // what each exit code means
    ensures rc in {0, 3, 4, 5} && (rc == 3 ==> StopSeen(stops, looks))
    ensures rc == 0 ==> res.slice.Some? || o.stopAtWarning
    ensures rc == 4 ==> NoMoreFit(res.fillBlocks, ks.bs, o.maxFillBytes)
    ensures rc == 5 ==> AnsweredError(verdict, ks.bs, res.fillBlocks + 1)
    // the fill, the refusal that ends it, and every step after it
    ensures AllAccepted(verdict, ks.bs, 0, res.fillBlocks)
    ensures rc == 0 || res.slice.Some? ==>
      AnsweredRefusal(verdict, ks.bs, res.fillBlocks + 1) && !NoMoreFit(res.fillBlocks, ks.bs, o.maxFillBytes)
    ensures res.slice.None? ==> res.fillBlocks <= tries <= res.fillBlocks + 1
    ensures rc == 5 ==> res.slice.None? && tries == res.fillBlocks + 1
    ensures rc == 4 ==> res.slice.None? && tries == res.fillBlocks
    ensures res.slice.None? && tries == res.fillBlocks + 1 && rc != 5 ==>
      rc == 3 || (rc == 0 && AnsweredRefusal(verdict, ks.bs, res.fillBlocks + 1))
    ensures res.slice.Some? ==>
      && !o.stopAtWarning && rc in {0, 3}
      && AllStepsTaken(o, header, ks.bs, res, StopSeen(stops, looks), NotAllAccepted(verdict, ks.bs, res.fillBlocks + 1, tries))
      && RunTold(o, verdict, markVerdict, ks.bs, res.fillBlocks + 1, AnswerAt(verdict, ks.bs, res.fillBlocks + 1), 0, res, tries)
    ensures looks == res.fillBlocks + 2 + LooksPast(o, res)
    ensures (forall i: nat :: answers(i)) ==> res.lba0.Some? && (res.hardEnd.Some? ==> res.hardEnd.value.lbaStart.Some?)
  {
    hide AsWritten, AsRepeated, Clean, AllStepsTaken, RunTold, NoMoreFit, MayAlarm, LocateMissing, AllAccepted, NotAllAccepted;
    hide AnsweredError, AnsweredRefusal, AnswerAt, NoFail, SlicePass, Pinned, LooksPast, Expected, ExactlyReported, StopSeen;
    hide SealText, Keystream.NeverASeal, WritesHonestly, MarksHonestly, DropsNothing;
    var tape := new FakeTape(ks.bs, verdict, markVerdict, answers, locates);
    var writer := new Writer(tape, ks, o, header, stops);
    rc := writer.Execute();
    res, rec, tries, looks := writer.res, tape.rec, tape.attempts, writer.polls;
    ghost var stopped := StopSeen(stops, looks);
    LooksSeen(writer, looks);
    if res.slice.Some? {
      StepsStillTaken(o, header, ks.bs, res, writer.Stopped(0, looks), NotAllAccepted(verdict, ks.bs, res.fillBlocks + 1, tries), stopped);
    }
    if HonestDrive(verdict, markVerdict, ks.bs) {
      HonestAlarm(ks, o, header, rec, res, stopped, NotAllAccepted(verdict, ks.bs, res.fillBlocks + 1, tries), asked, locates, tail);
    }
    route, checks := ReadBack(tape, ks, asked, chunk, tail, res);
    if DropsNothing(verdict, ks.bs) && SlicePass(checks, res) && Expected(res) != [] {
      SliceIsAtFill(ks, rec, res, route, forall i: nat :: answers(i));
      RepeatedPinned(ks, rec, res, forall i: nat :: answers(i));
    }
  }

  lemma NoStopSeen(stops: nat -> bool, looks: nat)
    requires forall i: nat :: !stops(i)
    ensures !StopSeen(stops, looks)
  {
  }

  lemma BlockFits(o: Options, bs: nat, asked: Route)
    requires MayAlarm(o, bs, asked, false)
    ensures !NoMoreFit(0, bs, o.maxFillBytes) && !o.stopAtWarning
  {
  }

  lemma OnlyFirstRefused(verdict: (nat, nat) -> WriteVerdict, bs: nat, n: nat, tries: nat)
    requires forall a: nat, w: nat :: verdict(a, w) == if a == 1 then FailWrite(ENOSPC) else Accept
    ensures AllAccepted(verdict, bs, 0, n) ==> n == 0
    ensures !NotAllAccepted(verdict, bs, 1, tries) && !AnsweredError(verdict, bs, 1)
  {
    assert n >= 1 && AllAccepted(verdict, bs, 0, n) ==> Answered(verdict, bs, 1, Ok);
  }

  /** For every choice of options that may alarm there is an honest drive whose run ends well and whose tape is failed:
      one that refuses its first write, accepts every other, answers every READ POSITION and cannot LOCATE. */
  method FalseAlarm(ks: Keystream, o: Options, header: (nat, nat, Stop) -> string, asked: Route, chunk: nat, tail: nat)
    returns (verdict: (nat, nat) -> WriteVerdict, markVerdict: nat -> MarkVerdict, rc: int, res: Results, rec: seq<Record>, checks: seq<Check>)
    requires ks.Valid() && ks.NeverASeal() && 0 < chunk <= SPACE_MAX
    requires forall n, k, s :: SealText(header(n, k, s), ks.bs)
    requires MayAlarm(o, ks.bs, asked, false)
    ensures HonestDrive(verdict, markVerdict, ks.bs) && rc == 0
    ensures AllStepsTaken(o, header, ks.bs, res, false, false) && AsWritten(ks, rec, res)
    ensures LocateMissing(asked, false, res) && !Clean(ks, rec, false, asked, tail, res) && !NoFail(checks)
  {
    hide AsWritten, AsRepeated, Clean, AllStepsTaken, RunTold, LocateMissing, NoFail, SlicePass, Pinned, SealText, LooksPast;
    hide AllAccepted, NotAllAccepted, AnsweredError, AnsweredRefusal, AnswerAt, NoMoreFit, StopSeen, MayAlarm, Expected, ExactlyReported;
    verdict := (a, w) => if a == 1 then FailWrite(ENOSPC) else Accept;
    markVerdict := a => AcceptMark;
    var stops: nat -> bool := i => false;
    var route;
    ghost var tries, looks;
    rc, res, rec, route, checks, tries, looks :=
      Scenario(ks, o, header, stops, verdict, markVerdict, i => true, false, asked, chunk, tail);
    OnlyFirstRefused(verdict, ks.bs, res.fillBlocks, tries);
    NoStopSeen(stops, looks);
    BlockFits(o, ks.bs, asked);
    MissingIfMayAlarm(o, header, ks.bs, res, asked, false);
    HonestIsClean(ks, rec, false, asked, tail, res);
  }

  ghost predicate FillEndsWith(ks: Keystream, rec: seq<Record>, n: nat, tail: nat)
    requires ks.Valid()
  {
    && n <= |rec|
    && (forall j :: 0 <= j < n ==> rec[j].Data?)
    && (forall j :: 0 <= j && n - tail <= j < n ==> rec[j] == Data(ks.At(j)))
  }

  lemma TailMeaning(ks: Keystream, rec: seq<Record>, n: nat, tail: nat)
    requires ks.Valid() && TailHolds(ks, rec, n, Tail(tail, n))
    ensures FillEndsWith(ks, rec, n, tail)
  {
  }

  /** The readback of whatever tape is found, against whatever record is kept of it. */
  method VerifyTape(bs: nat, rec: seq<Record>, locates: bool, ks: Keystream, res: Results, asked: Route, chunk: nat, tail: nat)
    returns (route: Route, checks: seq<Check>, spaceCounts: seq<nat>)
    requires ks.Valid() && 0 < chunk <= SPACE_MAX
    // every check noted, in order
    ensures checks == Report(ks, rec, bs, locates, asked, tail, res)
    ensures NoFail(checks) <==> bs == ks.bs && Clean(ks, rec, locates, asked, tail, res)
    ensures bs == ks.bs && res.slice.Some? ==> route == if TakesLocate(asked, locates, res) then Locate else Spacing
    // nothing is left unchecked
    ensures NoFail(checks) && res.slice.Some? ==>
      && (res.slice.value.accepted > 0 ==> SlicePass(checks, res))
      && (route == Spacing && tail > 0 && res.fillBlocks > 0 ==> Passed(checks, FillTailBlocks))
    ensures SlicePass(checks, res) ==>
      && res.slice.Some? && res.slice.value.accepted > 0
      && Pinned(ks, rec, SliceAt(route, res), res.fillBlocks, res.slice.value.accepted, res)
    // the last `tail` blocks of the fill, or all of a shorter one, and only data before them
    ensures Passed(checks, FillTailBlocks) || (NoFail(checks) && res.slice.Some? && route == Spacing) ==>
      FillEndsWith(ks, rec, res.fillBlocks, tail)
    ensures Passed(checks, FillTailBlocks) ==>
      && tail > 0 && res.fillBlocks > 0
      && Chunked(spaceCounts, chunk) && (forall i :: 0 <= i < |spaceCounts| ==> 1 <= spaceCounts[i] < 0x80_0000)
      && PrefixSums(spaceCounts, if tail < res.fillBlocks then res.fillBlocks - tail else 0)
  {
    var tape := new FakeTape.Found(bs, rec, locates);
    var reader := new Reader(tape, ks, asked, chunk, tail);
    reader.RunChecks(res);
    route, checks, spaceCounts := reader.route, reader.checks, tape.spaceCounts;
    if TailHolds(ks, rec, res.fillBlocks, Tail(tail, res.fillBlocks)) {
      TailMeaning(ks, rec, res.fillBlocks, tail);
    }
  }
}
