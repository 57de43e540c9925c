/** The readback: what is on the tape, re-derived by LOCATE or by rewind and SPACE. */
module FillReader {
  import opened Common
  import opened Tape
  import opened FillRecord

  datatype Route = Auto | Locate | Spacing

  datatype CheckName =
    | BlockSize | PostWarningSlice
    | PhysicalBlockCount | PositionAfterMark1 | PositionAfterSealAndMark2
    | FillTailBlocks | SliceBlocks | SliceFirstBlock | SliceLastBlock | SliceAllBlocks
    | ObjectsAfterSlice | SealBlockContent | ReadAfterFinalMark | FsfFromLastSliceBlock
    | HardEndFirstBlock | HardEndLastBlock | HardEndBlocks | HardEndBlockCount

  datatype Status = Pass | Fail | Skip | Info

  function StatusOf(ok: Option<bool>): Status {
    match ok
    case None => Skip
    case Some(b) => if b then Pass else Fail
  }

  datatype Check = Check(name: CheckName, status: Status)

  ghost predicate NoFail(cs: seq<Check>) {
    cs == [] || (cs[|cs| - 1].status != Fail && NoFail(cs[..|cs| - 1]))
  }

  lemma {:induction false} NoFailMeaning(cs: seq<Check>)
    ensures NoFail(cs) <==> forall i :: 0 <= i < |cs| ==> cs[i].status != Fail
  {
    if cs != [] {
      NoFailMeaning(cs[..|cs| - 1]);
    }
  }

  ghost predicate Passed(cs: seq<Check>, name: CheckName) {
    Check(name, Pass) in cs
  }

  /** No new verdict on the slice and what follows it. */
  ghost predicate SliceAsBefore(was: seq<Check>, now: seq<Check>) {
    && (Passed(now, SliceAllBlocks) <==> Passed(was, SliceAllBlocks))
    && (Passed(now, ObjectsAfterSlice) <==> Passed(was, ObjectsAfterSlice))
    && (Passed(now, SealBlockContent) <==> Passed(was, SealBlockContent))
  }

  ghost predicate TailAsBefore(was: seq<Check>, now: seq<Check>) {
    Passed(now, FillTailBlocks) <==> Passed(was, FillTailBlocks)
  }

  // ----- what stands on the tape

  datatype Kind = DataRead | MarkRead | ShortRead | ErrRead(errno: Errno)

  function KindAt(rec: seq<Record>, p: nat, bs: nat): Kind {
    if p >= |rec| then ErrRead(EIO)
    else if rec[p].Mark? || |rec[p].bytes| == 0 then MarkRead
    else if |rec[p].bytes| == bs then DataRead
    else ShortRead
  }

  datatype Object = FM | SEAL | DATA | EOD

  function ObjectAt(rec: seq<Record>, p: nat, bs: nat): Object {
    match KindAt(rec, p, bs)
    case MarkRead => FM
    case DataRead => if SEAL_MARKER <= Head(rec[p].bytes) then SEAL else DATA
    case _ => EOD
  }

  ghost predicate HoldsRun(ks: Keystream, rec: seq<Record>, p: int, g: int, count: nat)
    requires ks.Valid()
  {
    0 <= p && p + count <= |rec| && forall j :: p <= j < p + count ==> rec[j] == Data(ks.At(g + j - p))
  }

  function Expected(res: Results): seq<Object> {
    (if res.mark1.ok then [FM] else []) + (if res.seal.ok then [SEAL] else []) + (if res.mark2.ok then [FM] else [])
  }

  ghost predicate ObjectsFollow(rec: seq<Record>, p: nat, bs: nat, want: seq<Object>) {
    if want == [] then ObjectAt(rec, p, bs) !in {FM, SEAL}
    else p + |want| <= |rec| && forall i :: 0 <= i < |want| ==> ObjectAt(rec, p + i, bs) == want[i]
  }

  ghost predicate ObjectsPinned(rec: seq<Record>, p: nat, bs: nat, res: Results) {
    && ObjectsFollow(rec, p, bs, Expected(res))
    && (res.seal.ok ==>
          && |res.seal.text| <= bs && '\0' !in res.seal.text
          && rec[p + Bit(res.mark1.ok)] == Data(Padded(res.seal.text, bs)))
  }

  /** The k records from p are keystream blocks n .. n+k-1, then come exactly
      the marks and the zero-padded seal block that were reported. */
  ghost predicate Pinned(ks: Keystream, rec: seq<Record>, p: int, n: nat, k: nat, res: Results)
    requires ks.Valid()
  {
    HoldsRun(ks, rec, p, n, k) && ObjectsPinned(rec, p + k, ks.bs, res)
  }

  function Tail(tail: nat, n: nat): (t: nat)
    ensures t <= n
  {
    if tail < n then tail else n
  }

  /** The address the slice starts at, by READ POSITION at BOT. */
  function Start(res: Results): nat {
    (if res.lba0.Some? then res.lba0.value else 0) + res.fillBlocks
  }

  function SliceAt(route: Route, res: Results): nat {
    if route == Locate then Start(res) else res.fillBlocks
  }

  ghost predicate PrefixSums(counts: seq<nat>, total: nat) {
    exists j :: 0 <= j <= |counts| && Sum(counts[..j]) == total
  }

  ghost predicate Chunked(counts: seq<nat>, chunk: nat) {
    forall i :: 0 <= i < |counts| ==> 0 < counts[i] <= chunk
  }

  lemma NoCounts(counts: seq<nat>, chunk: nat)
    ensures counts == [] ==> Chunked(counts, chunk)
  {
  }

  lemma CountsJoined(counts: seq<nat>, all: seq<nat>, chunk: nat)
    requires counts <= all && Chunked(counts, chunk) && Chunked(all[|counts|..], chunk)
    ensures Chunked(all, chunk) && PrefixSums(all, Sum(counts))
  {
    assert all[..|counts|] == counts;
    forall i | 0 <= i < |all| ensures 0 < all[i] <= chunk {
      if i >= |counts| {
        assert all[i] == all[|counts|..][i - |counts|];
      }
    }
  }

  predicate PositionsAgree(start: nat, k: nat, res: Results)
    requires res.slice.Some?
  {
    var m1, m2 := res.mark1, res.mark2;
    && Says(res.slice.value.lbaAfter, start + k)
    && (m1.lbaBefore.Some? ==> Says(m1.lbaAfter, m1.lbaBefore.value + Bit(m1.ok)))
    && (m1.lbaAfter.Some? && m2.lbaBefore.Some? && m2.lbaAfter.Some? ==>
          && m2.lbaBefore.value == m1.lbaAfter.value + Bit(res.seal.ok)
          && m2.lbaAfter.value == m2.lbaBefore.value + Bit(m2.ok))
  }

  ghost predicate WalkFollows(ks: Keystream, rec: seq<Record>, at: nat, g0: nat, accepted: nat)
    requires ks.Valid() && accepted > 0
  {
    var last := accepted - 1;
    && HoldsRun(ks, rec, at, g0, 1)
    && (last > 0 ==> AllData(rec, at + 1, at + last) && HoldsRun(ks, rec, at + last, g0 + last, 1))
  }

  predicate WalkCounted(he: BlocksRec) {
    he.lbaStart.Some? && he.lbaAfter.Some? ==> he.lbaAfter.value - he.lbaStart.value == he.accepted
  }

  ghost predicate ReadOnClean(ks: Keystream, rec: seq<Record>, n: nat, k: nat, res: Results)
    requires ks.Valid()
  {
    && (k > 0 ==> Pinned(ks, rec, n, n, k, res))
    && (res.hardEnd.Some? && res.hardEnd.value.accepted > 0 ==>
          && (k > 0 && res.mark2.ok ==>
                WalkFollows(ks, rec, n + k + |Expected(res)|, n + k, res.hardEnd.value.accepted))
          && WalkCounted(res.hardEnd.value))
  }

  ghost predicate TailHolds(ks: Keystream, rec: seq<Record>, n: nat, t: nat)
    requires ks.Valid() && t <= n
  {
    AllData(rec, 0, n - t) && HoldsRun(ks, rec, n - t, n - t, t)
  }

  /** What the spacing route asks of a tape. */
  ghost predicate SpacingClean(ks: Keystream, rec: seq<Record>, tail: nat, n: nat, k: nat, res: Results)
    requires ks.Valid()
  {
    && TailHolds(ks, rec, n, Tail(tail, n))
    && ReadOnClean(ks, rec, n, k, res)
  }

  ghost predicate FsfLands(ks: Keystream, rec: seq<Record>, q: nat, g: nat)
    requires ks.Valid()
  {
    HoldsRun(ks, rec, q, g, 1) && ObjectAt(rec, AfterMark(rec, q + 1), ks.bs) == SEAL
  }

  ghost predicate WalkLocated(ks: Keystream, rec: seq<Record>, locates: bool, g0: nat, hardEnd: Option<BlocksRec>)
    requires ks.Valid()
  {
    hardEnd.Some? && hardEnd.value.accepted > 0 && hardEnd.value.lbaStart.Some? ==>
      var at, last := hardEnd.value.lbaStart.value, hardEnd.value.accepted - 1;
      && locates
      && HoldsRun(ks, rec, at, g0, 1) && HoldsRun(ks, rec, at + last, g0 + last, 1)
      && WalkCounted(hardEnd.value)
  }

  /** What the LOCATE route asks of a tape. */
  ghost predicate LocateClean(ks: Keystream, rec: seq<Record>, locates: bool, n: nat, k: nat, res: Results)
    requires ks.Valid()
  {
    && (k > 0 ==>
          && locates && Pinned(ks, rec, Start(res), n, k, res)
          && (res.mark1.ok && res.seal.ok ==> FsfLands(ks, rec, Start(res) + k - 1, n + k - 1)))
    && WalkLocated(ks, rec, locates, n + k, res.hardEnd)
  }

  /** auto takes LOCATE when an address was recorded, and falls back when the LOCATE to the slice fails. */
  predicate TakesLocate(asked: Route, locates: bool, res: Results)
    requires res.slice.Some?
  {
    asked == Locate || (asked == Auto && res.lba0.Some? && (res.slice.value.accepted == 0 || locates))
  }

  ghost predicate Clean(ks: Keystream, rec: seq<Record>, locates: bool, asked: Route, tail: nat, res: Results)
    requires ks.Valid()
  {
    res.slice.Some? ==>
      var n, k := res.fillBlocks, res.slice.value.accepted;
      && PositionsAgree(Start(res), k, res)
      && if TakesLocate(asked, locates, res) then LocateClean(ks, rec, locates, n, k, res)
         else SpacingClean(ks, rec, tail, n, k, res)
  }

  ghost predicate ObjectsPass(checks: seq<Check>, res: Results) {
    Passed(checks, ObjectsAfterSlice) && (res.seal.ok ==> Passed(checks, SealBlockContent))
  }

  ghost predicate SlicePass(checks: seq<Check>, res: Results) {
    Passed(checks, SliceAllBlocks) && ObjectsPass(checks, res)
  }

  ghost predicate NotYet(checks: seq<Check>) {
    !Passed(checks, SliceAllBlocks) && !Passed(checks, ObjectsAfterSlice) && !Passed(checks, SealBlockContent)
  }

  /** The bytes up to the first NUL are the text, and the rest are NULs. */
  predicate SealContent(raw: Block, text: string) {
    Head(raw) == text && forall i :: |text| <= i < |raw| ==> raw[i] == '\0'
  }

  lemma SealContentIff(raw: Block, text: string)
    ensures SealContent(raw, text) <==>
            |text| <= |raw| && '\0' !in text && raw == Padded(text, |raw|)
  {
    if SealContent(raw, text) {
      PaddedOfHead(raw, text);
    }
    if |text| <= |raw| && '\0' !in text && raw == Padded(text, |raw|) {
      HeadOfPadded(text, |raw|);
    }
  }

  /** The seal stands at one place among the objects reported. */
  lemma ExpectedSeal(res: Results, at: nat)
    requires at < |Expected(res)| && Expected(res)[at] == SEAL
    ensures res.seal.ok && at == Bit(res.mark1.ok)
  {
  }

  ghost predicate SealSeen(rec: seq<Record>, p: nat, found: seq<Object>, at: nat, raw: Block) {
    at < |found| && found[at] == SEAL && p + at < |rec| && rec[p + at] == Data(raw)
  }

  lemma SealContentMeaning(rec: seq<Record>, p: nat, bs: nat, res: Results, sealAt: nat, raw: Block)
    requires res.seal.ok && ObjectsFollow(rec, p, bs, Expected(res))
    requires SealSeen(rec, p, Expected(res), sealAt, raw)
    ensures SealContent(raw, res.seal.text) <==> ObjectsPinned(rec, p, bs, res)
  {
    ExpectedSeal(res, sealAt);
    assert ObjectAt(rec, p + sealAt, bs) == SEAL;
    assert |raw| == bs;
    SealContentIff(raw, res.seal.text);
  }

  predicate Agrees(found: seq<Object>, want: seq<Object>) {
    if want == [] then FM !in found && SEAL !in found else found == want
  }

  /** Reading until `count` objects or the end of data finds what was wanted exactly when it is there. */
  lemma FoundAgrees(rec: seq<Record>, p: nat, bs: nat, want: seq<Object>, found: seq<Object>)
    requires EOD !in want && 0 < |found| <= (if want == [] then 1 else |want|)
    requires forall i :: 0 <= i < |found| ==> found[i] == ObjectAt(rec, p + i, bs)
    requires want != [] && |found| < |want| ==> found[|found| - 1] == EOD
    ensures ObjectsFollow(rec, p, bs, want) <==> Agrees(found, want)
  {
    if want == [] {
      assert found == [ObjectAt(rec, p, bs)];
    } else {
      assert want[|found| - 1] in want;
      if found == want {
        assert p + |want| <= |rec|;
      }
      if ObjectsFollow(rec, p, bs, want) {
        assert forall i :: 0 <= i < |found| ==> found[i] == want[i];
      }
    }
  }

  // ----- the report

  function Verdict(ok: bool): Status {
    if ok then Pass else Fail
  }

  /** The k records from p on each read as a block. */
  ghost predicate AllBlocks(rec: seq<Record>, p: nat, k: nat, bs: nat) {
    forall j :: p <= j < p + k ==> KindAt(rec, j, bs) == DataRead
  }

  /** How many of k records differ from the stream from block n on. */
  ghost function Differing(ks: Keystream, rec: seq<Record>, p: nat, n: nat, k: nat): nat
    requires ks.Valid() && p + k <= |rec|
  {
    if k == 0 then 0 else Differing(ks, rec, p, n, k - 1) + Bit(rec[p + k - 1] != Data(ks.At(n + k - 1)))
  }

  ghost function BlockCountNotes(start: nat, k: nat, got: Option<nat>): seq<Check> {
    [Check(PhysicalBlockCount, if got.None? then Skip else Verdict(got.value == start + k))]
  }

  ghost function FirstMarkNotes(m1: MarkRec): seq<Check> {
    if m1.lbaBefore.Some? && m1.lbaAfter.Some?
    then [Check(PositionAfterMark1, Verdict(m1.lbaAfter.value == m1.lbaBefore.value + Bit(m1.ok)))] else []
  }

  ghost function SecondMarkNotes(m1: MarkRec, seal: SealRec, m2: MarkRec): seq<Check> {
    if m1.lbaAfter.Some? && m2.lbaBefore.Some? && m2.lbaAfter.Some?
    then [Check(PositionAfterSealAndMark2, Verdict(m2.lbaBefore.value == m1.lbaAfter.value + Bit(seal.ok)
                                                   && m2.lbaAfter.value == m2.lbaBefore.value + Bit(m2.ok)))] else []
  }

  ghost function PositionNotes(start: nat, k: nat, res: Results): seq<Check>
    requires res.slice.Some?
  {
    BlockCountNotes(start, k, res.slice.value.lbaAfter) + FirstMarkNotes(res.mark1) + SecondMarkNotes(res.mark1, res.seal, res.mark2)
  }

  /** Of the objects read from p on, up to `count` of them and no further than the end of data, the last seal is at q. */
  ghost predicate LastSeal(rec: seq<Record>, p: nat, bs: nat, count: nat, q: nat) {
    && p <= q < p + count && ObjectAt(rec, q, bs) == SEAL
    && (forall r: nat :: p <= r < q ==> ObjectAt(rec, r, bs) != EOD)
    && (forall r: nat :: q < r < p + count && ObjectAt(rec, r, bs) == SEAL ==> exists m: nat :: q < m < r && ObjectAt(rec, m, bs) == EOD)
  }

  ghost predicate SealHolds(rec: seq<Record>, p: nat, bs: nat, count: nat, text: string) {
    exists q: nat :: LastSeal(rec, p, bs, count, q) && q < |rec| && rec[q].Data? && SealContent(rec[q].bytes, text)
  }

  lemma OneLastSeal(rec: seq<Record>, p: nat, bs: nat, count: nat, a: nat, b: nat)
    requires LastSeal(rec, p, bs, count, a) && LastSeal(rec, p, bs, count, b)
    ensures a == b
  {
    assert ObjectAt(rec, a, bs) == ObjectAt(rec, b, bs) == SEAL;
  }

  lemma SealFound(rec: seq<Record>, p: nat, bs: nat, count: nat, found: seq<Object>, some: bool, at: nat)
    requires 0 < |found| <= count && (forall i :: 0 <= i < |found| ==> found[i] == ObjectAt(rec, p + i, bs))
    requires (forall i :: 0 <= i < |found| - 1 ==> found[i] != EOD) && (|found| < count ==> found[|found| - 1] == EOD)
    requires some <==> SEAL in found
    requires some ==> at < |found| && found[at] == SEAL && forall i :: at < i < |found| ==> found[i] != SEAL
    ensures some ==> LastSeal(rec, p, bs, count, p + at)
    ensures !some ==> forall q: nat :: !LastSeal(rec, p, bs, count, q)
  {
    var last := |found| - 1;
    assert forall r: nat :: p <= r < p + |found| ==> ObjectAt(rec, r, bs) == found[r - p];
    if some {
      forall r: nat | p + at < r < p + count && ObjectAt(rec, r, bs) == SEAL
        ensures exists m: nat :: p + at < m < r && ObjectAt(rec, m, bs) == EOD
      {
        assert ObjectAt(rec, p + last, bs) == EOD;
      }
    } else {
      forall q: nat ensures !LastSeal(rec, p, bs, count, q) {
        assert ObjectAt(rec, p + last, bs) == found[last];
      }
    }
  }

  lemma SealIsLast(rec: seq<Record>, p: nat, bs: nat, count: nat, text: string, raw: Option<Block>, q: nat)
    requires raw.Some? ==> LastSeal(rec, p, bs, count, q) && q < |rec| && rec[q] == Data(raw.value)
    requires raw.None? ==> forall r: nat :: !LastSeal(rec, p, bs, count, r)
    ensures SealHolds(rec, p, bs, count, text) <==> raw.Some? && SealContent(raw.value, text)
  {
    hide LastSeal, SealContent;
    if raw.Some? && SealHolds(rec, p, bs, count, text) {
      var r: nat :| LastSeal(rec, p, bs, count, r) && r < |rec| && rec[r].Data? && SealContent(rec[r].bytes, text);
      OneLastSeal(rec, p, bs, count, q, r);
    }
  }

  ghost function ObjectNotes(rec: seq<Record>, p: nat, bs: nat, res: Results): seq<Check> {
    var want := Expected(res);
    [Check(ObjectsAfterSlice, Verdict(ObjectsFollow(rec, p, bs, want)))]
    + (if res.seal.ok then [Check(SealBlockContent, Verdict(SealHolds(rec, p, bs, |want|, res.seal.text)))] else [])
    + (if want != [] && ObjectsFollow(rec, p, bs, want) && res.hardEnd.None? then [Check(ReadAfterFinalMark, Info)] else [])
  }

  /** Where the objects after a slice at p are read: behind it, unless its first block differs on the LOCATE route.
      Then the neighbours of its start were read last, and the head stands where that left it. */
  ghost function ReadFrom(ks: Keystream, rec: seq<Record>, p: nat, n: nat, k: nat, located: bool): nat
    requires ks.Valid()
  {
    if located && !HoldsRun(ks, rec, p, n, 1) then p + 2 + Bit(p + 2 < |rec|) else p + k
  }

  ghost function SliceNotes(ks: Keystream, rec: seq<Record>, p: nat, n: nat, k: nat, located: bool, res: Results): seq<Check>
    requires ks.Valid() && k > 0
  {
    var all := AllBlocks(rec, p, k, ks.bs);
    [Check(SliceFirstBlock, if KindAt(rec, p, ks.bs) != DataRead then Skip else Verdict(HoldsRun(ks, rec, p, n, 1))),
     Check(SliceLastBlock, if !all then Skip else Verdict(HoldsRun(ks, rec, p + k - 1, n + k - 1, 1))),
     Check(SliceAllBlocks, Verdict(HoldsRun(ks, rec, p, n, k)))]
    + if all then ObjectNotes(rec, ReadFrom(ks, rec, p, n, k, located), ks.bs, res) else []
  }

  /** The slice was read to its end, and a mark first after it. */
  ghost predicate MarkBehind(ks: Keystream, rec: seq<Record>, p: nat, n: nat, k: nat, located: bool)
    requires ks.Valid()
  {
    AllBlocks(rec, p, k, ks.bs) && ObjectAt(rec, ReadFrom(ks, rec, p, n, k, located), ks.bs) == FM
  }

  /** The slice was read to its end, and the objects reported after it, of which there are some. */
  ghost predicate AsReported(ks: Keystream, rec: seq<Record>, p: nat, n: nat, k: nat, located: bool, res: Results)
    requires ks.Valid()
  {
    && AllBlocks(rec, p, k, ks.bs) && Expected(res) != []
    && ObjectsFollow(rec, ReadFrom(ks, rec, p, n, k, located), ks.bs, Expected(res))
  }

  ghost function FsfNotes(ks: Keystream, rec: seq<Record>, locates: bool, markFirst: bool, start: nat, n: nat, k: nat, seal: SealRec): seq<Check>
    requires ks.Valid() && k > 0
  {
    [Check(FsfFromLastSliceBlock,
           if !markFirst || !seal.ok then Skip else Verdict(locates && FsfLands(ks, rec, start + k - 1, n + k - 1)))]
  }

  ghost function CountNotes(he: BlocksRec): seq<Check> {
    if he.lbaStart.Some? && he.lbaAfter.Some?
    then [Check(HardEndBlockCount, Verdict(he.lbaAfter.value == he.lbaStart.value + he.accepted))] else []
  }

  ghost function WalkNotes(ks: Keystream, rec: seq<Record>, locates: bool, g0: nat, hardEnd: Option<BlocksRec>): seq<Check>
    requires ks.Valid()
  {
    if hardEnd.None? || hardEnd.value.accepted == 0 then []
    else if hardEnd.value.lbaStart.None? then [Check(HardEndBlocks, Skip)]
    else
      var at, last := hardEnd.value.lbaStart.value, hardEnd.value.accepted - 1;
      [Check(HardEndFirstBlock, Verdict(locates && HoldsRun(ks, rec, at, g0, 1))),
       Check(HardEndLastBlock, Verdict(locates && HoldsRun(ks, rec, at + last, g0 + last, 1)))]
      + CountNotes(hardEnd.value)
  }

  ghost function LocateNotes(ks: Keystream, rec: seq<Record>, locates: bool, n: nat, k: nat, res: Results): seq<Check>
    requires ks.Valid()
  {
    (if k == 0 then [Check(SliceBlocks, Skip)]
     else if !locates then [Check(SliceFirstBlock, Fail)] + FsfNotes(ks, rec, locates, false, Start(res), n, k, res.seal)
     else SliceNotes(ks, rec, Start(res), n, k, true, res)
          + FsfNotes(ks, rec, locates, MarkBehind(ks, rec, Start(res), n, k, true), Start(res), n, k, res.seal))
    + WalkNotes(ks, rec, locates, n + k, res.hardEnd)
  }

  ghost function TailNotes(ks: Keystream, rec: seq<Record>, n: nat, t: nat): seq<Check>
    requires ks.Valid() && t <= n
  {
    [Check(FillTailBlocks, if AllData(rec, 0, n - t) && t == 0 then Skip else Verdict(TailHolds(ks, rec, n, t)))]
  }

  ghost function EndsNotes(ks: Keystream, rec: seq<Record>, at: nat, g0: nat, count: nat): seq<Check>
    requires ks.Valid() && count > 0
  {
    var last := count - 1;
    [Check(HardEndFirstBlock, Verdict(HoldsRun(ks, rec, at, g0, 1)))]
    + (if KindAt(rec, at, ks.bs) != DataRead then [Check(HardEndLastBlock, Skip)]
       else if last > 0
       then [Check(HardEndLastBlock, Verdict(AllData(rec, at + 1, at + last) && HoldsRun(ks, rec, at + last, g0 + last, 1)))]
       else [])
  }

  /** The walk's notes on the spacing route: its blocks are looked for only behind objects that read as reported. */
  ghost function WalkOnNotes(ks: Keystream, rec: seq<Record>, n: nat, k: nat, asReported: bool, res: Results): seq<Check>
    requires ks.Valid()
  {
    if HardEndAccepted(res) == 0 then []
    else (if asReported && res.mark2.ok then EndsNotes(ks, rec, n + k + |Expected(res)|, n + k, HardEndAccepted(res))
          else [Check(HardEndBlocks, Skip)])
         + CountNotes(res.hardEnd.value)
  }

  ghost function ReadOnNotes(ks: Keystream, rec: seq<Record>, n: nat, k: nat, res: Results): seq<Check>
    requires ks.Valid()
  {
    (if k == 0 then [Check(SliceBlocks, Skip)] else SliceNotes(ks, rec, n, n, k, false, res))
    + [Check(FsfFromLastSliceBlock, Skip)]
    + WalkOnNotes(ks, rec, n, k, k > 0 && AsReported(ks, rec, n, n, k, false, res), res)
  }

  ghost function SpacingNotes(ks: Keystream, rec: seq<Record>, tail: nat, n: nat, k: nat, res: Results): seq<Check>
    requires ks.Valid()
  {
    var t := Tail(tail, n);
    TailNotes(ks, rec, n, t)
    + if AllData(rec, 0, n - t) && AllBlocks(rec, n - t, t, ks.bs) then ReadOnNotes(ks, rec, n, k, res) else []
  }

  /** Every check the readback notes, in order, as the tape and the record decide it. */
  ghost function Report(ks: Keystream, rec: seq<Record>, bs: nat, locates: bool, asked: Route, tail: nat, res: Results): seq<Check>
    requires ks.Valid()
  {
    if bs != ks.bs then [Check(BlockSize, Fail)]
    else if res.slice.None? then [Check(PostWarningSlice, Skip)]
    else
      var n, k := res.fillBlocks, res.slice.value.accepted;
      PositionNotes(Start(res), k, res)
      + if TakesLocate(asked, locates, res) then LocateNotes(ks, rec, locates, n, k, res)
        else SpacingNotes(ks, rec, tail, n, k, res)
  }

  lemma {:induction false} NotesJoin(a: seq<Check>, b: seq<Check>)
    ensures NoFail(a + b) <==> NoFail(a) && NoFail(b)
    ensures forall name :: Passed(a + b, name) <==> Passed(a, name) || Passed(b, name)
  {
    NoFailMeaning(a);
    NoFailMeaning(b);
    NoFailMeaning(a + b);
    if NoFail(a + b) {
      assert forall i :: 0 <= i < |b| ==> b[i] == (a + b)[|a| + i];
      assert forall i :: 0 <= i < |a| ==> a[i] == (a + b)[i];
    }
  }

  /** A check of one name and status, alone. */
  lemma OneNote(c: Check)
    ensures NoFail([c]) <==> c.status != Fail
    ensures forall name :: Passed([c], name) <==> name == c.name && c.status == Pass
    ensures NoFail([]) && forall name :: !Passed([], name)
  {
    assert [c][..0] == [];
  }

  /** None of the checks that pin the slice or the fill's tail. */
  ghost predicate Aside(notes: seq<Check>) {
    !Passed(notes, SliceAllBlocks) && !Passed(notes, ObjectsAfterSlice) && !Passed(notes, SealBlockContent) && !Passed(notes, FillTailBlocks)
  }

  lemma AsideNoted(was: seq<Check>, notes: seq<Check>)
    requires Aside(notes)
    ensures SliceAsBefore(was, was + notes) && TailAsBefore(was, was + notes)
    ensures NoFail(was + notes) <==> NoFail(was) && NoFail(notes)
  {
    hide NoFail, Passed;
    NotesJoin(was, notes);
  }

  lemma FirstMarkMeans(m1: MarkRec)
    ensures Aside(FirstMarkNotes(m1))
    ensures NoFail(FirstMarkNotes(m1)) <==> (m1.lbaBefore.Some? ==> Says(m1.lbaAfter, m1.lbaBefore.value + Bit(m1.ok)))
  {
    hide NoFail, Passed;
    OneNote(Check(PositionAfterMark1, Fail));
    OneNote(Check(PositionAfterMark1, Pass));
  }

  lemma SecondMarkMeans(m1: MarkRec, seal: SealRec, m2: MarkRec)
    ensures Aside(SecondMarkNotes(m1, seal, m2))
    ensures NoFail(SecondMarkNotes(m1, seal, m2)) <==>
      (m1.lbaAfter.Some? && m2.lbaBefore.Some? && m2.lbaAfter.Some? ==>
         && m2.lbaBefore.value == m1.lbaAfter.value + Bit(seal.ok)
         && m2.lbaAfter.value == m2.lbaBefore.value + Bit(m2.ok))
  {
    hide NoFail, Passed;
    OneNote(Check(PositionAfterSealAndMark2, Fail));
    OneNote(Check(PositionAfterSealAndMark2, Pass));
  }

  lemma PositionsMean(start: nat, k: nat, res: Results)
    requires res.slice.Some?
    ensures var notes := PositionNotes(start, k, res); (NoFail(notes) <==> PositionsAgree(start, k, res)) && Aside(notes)
  {
    hide NoFail, Passed, FirstMarkNotes, SecondMarkNotes;
    var a, b := BlockCountNotes(start, k, res.slice.value.lbaAfter), FirstMarkNotes(res.mark1);
    var c := SecondMarkNotes(res.mark1, res.seal, res.mark2);
    OneNote(a[0]);
    FirstMarkMeans(res.mark1);
    SecondMarkMeans(res.mark1, res.seal, res.mark2);
    NotesJoin(a, b);
    NotesJoin(a + b, c);
  }

  /** The seal among objects that are there as reported is the one reported. */
  lemma ReportedSeal(rec: seq<Record>, p: nat, bs: nat, res: Results)
    requires res.seal.ok && ObjectsFollow(rec, p, bs, Expected(res))
    ensures SealHolds(rec, p, bs, |Expected(res)|, res.seal.text) <==> ObjectsPinned(rec, p, bs, res)
  {
    var want, q := Expected(res), p + Bit(res.mark1.ok);
    assert want[Bit(res.mark1.ok)] == SEAL && ObjectAt(rec, q, bs) == SEAL;
    assert forall r: nat :: p <= r < p + |want| ==> ObjectAt(rec, r, bs) == want[r - p];
    assert LastSeal(rec, p, bs, |want|, q);
    SealIsLast(rec, p, bs, |want|, res.seal.text, Some(rec[q].bytes), q);
    SealContentMeaning(rec, p, bs, res, Bit(res.mark1.ok), rec[q].bytes);
  }

  lemma ObjectsMean(rec: seq<Record>, p: nat, bs: nat, res: Results)
    ensures var notes := ObjectNotes(rec, p, bs, res);
      && (NoFail(notes) <==> ObjectsPinned(rec, p, bs, res)) && (ObjectsPass(notes, res) <==> ObjectsPinned(rec, p, bs, res))
      && !Passed(notes, SliceAllBlocks) && !Passed(notes, FillTailBlocks)
  {
    hide NoFail, Passed, SealHolds, ObjectsFollow;
    var want := Expected(res);
    var a := [Check(ObjectsAfterSlice, Verdict(ObjectsFollow(rec, p, bs, want)))];
    var b := if res.seal.ok then [Check(SealBlockContent, Verdict(SealHolds(rec, p, bs, |want|, res.seal.text)))] else [];
    var c := if want != [] && ObjectsFollow(rec, p, bs, want) && res.hardEnd.None? then [Check(ReadAfterFinalMark, Info)] else [];
    if res.seal.ok && ObjectsFollow(rec, p, bs, want) {
      ReportedSeal(rec, p, bs, res);
    }
    OneNote(a[0]);
    OneNote(Check(SealBlockContent, Verdict(SealHolds(rec, p, bs, |want|, res.seal.text))));
    OneNote(Check(ReadAfterFinalMark, Info));
    NotesJoin(a, b);
    NotesJoin(a + b, c);
  }

  lemma ObjectsNoted(was: seq<Check>, rec: seq<Record>, p: nat, bs: nat, res: Results)
    ensures var now := was + ObjectNotes(rec, p, bs, res);
      && TailAsBefore(was, now) && (Passed(now, SliceAllBlocks) <==> Passed(was, SliceAllBlocks))
      && (NoFail(now) <==> NoFail(was) && ObjectsPinned(rec, p, bs, res))
      && (ObjectsPass(now, res) && !Passed(was, ObjectsAfterSlice) && !Passed(was, SealBlockContent) ==> ObjectsPinned(rec, p, bs, res))
      && (ObjectsPinned(rec, p, bs, res) ==> ObjectsPass(now, res))
  {
    hide NoFail, Passed, ObjectNotes, ObjectsPinned;
    ObjectsMean(rec, p, bs, res);
    NotesJoin(was, ObjectNotes(rec, p, bs, res));
  }

  lemma PinnedFirst(rec: seq<Record>, p: nat, bs: nat, res: Results)
    ensures ObjectsPinned(rec, p, bs, res) ==> ObjectsFollow(rec, p, bs, Expected(res))
    ensures ObjectsPinned(rec, p, bs, res) ==> (ObjectAt(rec, p, bs) == FM <==> Expected(res) != [] && Expected(res)[0] == FM)
  {
    if ObjectsPinned(rec, p, bs, res) && Expected(res) != [] {
      assert ObjectAt(rec, p + 0, bs) == Expected(res)[0];
    }
  }

  lemma StreamBlock(ks: Keystream, g: nat)
    requires ks.Valid()
    ensures |ks.At(g)| == ks.bs > 0
  {
  }

  lemma RunIsBlocks(ks: Keystream, rec: seq<Record>, p: nat, n: nat, k: nat)
    requires ks.Valid() && k > 0 && HoldsRun(ks, rec, p, n, k)
    ensures AllBlocks(rec, p, k, ks.bs) && HoldsRun(ks, rec, p, n, 1) && HoldsRun(ks, rec, p + k - 1, n + k - 1, 1)
  {
  }

  lemma SliceMeans(ks: Keystream, rec: seq<Record>, p: nat, n: nat, k: nat, located: bool, res: Results)
    requires ks.Valid() && k > 0
    ensures var notes := SliceNotes(ks, rec, p, n, k, located, res);
      && (NoFail(notes) <==> Pinned(ks, rec, p, n, k, res)) && (SlicePass(notes, res) <==> Pinned(ks, rec, p, n, k, res))
      && !Passed(notes, FillTailBlocks)
  {
    hide NoFail, Passed, HoldsRun, AllBlocks, ObjectNotes, ObjectsPinned;
    if HoldsRun(ks, rec, p, n, k) {
      RunIsBlocks(ks, rec, p, n, k);
    }
    var all := AllBlocks(rec, p, k, ks.bs);
    var a := Check(SliceFirstBlock, if KindAt(rec, p, ks.bs) != DataRead then Skip else Verdict(HoldsRun(ks, rec, p, n, 1)));
    var b := Check(SliceLastBlock, if !all then Skip else Verdict(HoldsRun(ks, rec, p + k - 1, n + k - 1, 1)));
    var c := Check(SliceAllBlocks, Verdict(HoldsRun(ks, rec, p, n, k)));
    var from := ReadFrom(ks, rec, p, n, k, located);
    var d := if all then ObjectNotes(rec, from, ks.bs, res) else [];
    ObjectsMean(rec, from, ks.bs, res);
    OneNote(a);
    OneNote(b);
    OneNote(c);
    NotesJoin([a], [b]);
    NotesJoin([a] + [b], [c]);
    NotesJoin([a] + [b] + [c], d);
    assert [a] + [b] + [c] == [a, b, c];
  }

  lemma FirstIsBlock(rec: seq<Record>, p: nat, k: nat, bs: nat)
    requires k > 0
    ensures AllBlocks(rec, p, k, bs) ==> KindAt(rec, p, bs) == DataRead
  {
  }

  /** What the slice's notes add to those before them. */
  lemma SliceNoted(was: seq<Check>, ks: Keystream, rec: seq<Record>, p: nat, n: nat, k: nat, located: bool, res: Results)
    requires ks.Valid() && k > 0
    ensures var now := was + SliceNotes(ks, rec, p, n, k, located, res);
      && TailAsBefore(was, now)
      && (NoFail(now) <==> NoFail(was) && Pinned(ks, rec, p, n, k, res))
      && (SlicePass(now, res) && NotYet(was) ==> Pinned(ks, rec, p, n, k, res))
      && (Pinned(ks, rec, p, n, k, res) ==> SlicePass(now, res))
    ensures Pinned(ks, rec, p, n, k, res) ==> AllBlocks(rec, p, k, ks.bs) && ReadFrom(ks, rec, p, n, k, located) == p + k
  {
    if Pinned(ks, rec, p, n, k, res) {
      RunIsBlocks(ks, rec, p, n, k);
    }
    hide NoFail, Passed, Pinned, SliceNotes, AllBlocks;
    SliceMeans(ks, rec, p, n, k, located, res);
    NotesJoin(was, SliceNotes(ks, rec, p, n, k, located, res));
  }

  /** The objects are read behind the slice exactly when its first block matches, or no LOCATE found it, or it is as long
      as the neighbours reach. */
  lemma ReadBehindIff(ks: Keystream, rec: seq<Record>, p: nat, n: nat, k: nat, located: bool)
    requires ks.Valid()
    ensures ReadFrom(ks, rec, p, n, k, located) == p + k <==>
      !located || (p < |rec| && rec[p] == Data(ks.At(n))) || k == if p + 2 < |rec| then 3 else 2
  {
    assert HoldsRun(ks, rec, p, n, 1) <==> p < |rec| && rec[p] == Data(ks.At(n));
  }

  /** Otherwise a tape that holds all the objects reported behind the slice is said not to. */
  lemma ObjectsMissed(ks: Keystream, other: Block, text: string, res: Results)
    requires ks.Valid() && |other| == ks.bs && other != ks.At(0) && SealText(text, ks.bs)
    requires res.mark1.ok && res.seal.ok && res.mark2.ok && res.seal.text == text
    ensures var rec := [Data(other), Mark, Data(Padded(text, ks.bs)), Mark];
      && ObjectsPinned(rec, 1, ks.bs, res)
      && SliceNotes(ks, rec, 0, 0, 1, true, res)[3] == Check(ObjectsAfterSlice, Fail)
      && SliceNotes(ks, rec, 0, 0, 1, false, res)[3] == Check(ObjectsAfterSlice, Pass)
  {
    var seal := Padded(text, ks.bs);
    var rec := [Data(other), Mark, Data(seal), Mark];
    HeadOfPadded(text, ks.bs);
    var want := Expected(res);
    assert want == [FM, SEAL, FM];
    assert ObjectAt(rec, 1, ks.bs) == FM && ObjectAt(rec, 2, ks.bs) == SEAL && ObjectAt(rec, 3, ks.bs) == FM;
    assert forall i :: 0 <= i < 3 ==> ObjectAt(rec, 1 + i, ks.bs) == want[i];
    assert rec[0] != Data(ks.At(0));
    assert ReadFrom(ks, rec, 0, 0, 1, true) == 3;
    assert AllBlocks(rec, 0, 1, ks.bs);
  }

  /** The offset, if block g is that far from the start and LOCATE gets there. */
  ghost function FoundAt(ks: Keystream, rec: seq<Record>, locates: bool, start: nat, g: nat): int -> seq<int>
    requires ks.Valid()
  {
    (d: int) => if locates && start + d >= 0 && HoldsRun(ks, rec, start + d, g, 1) then [d] else []
  }

  lemma FsfMeans(ks: Keystream, rec: seq<Record>, locates: bool, markFirst: bool, start: nat, n: nat, k: nat, seal: SealRec)
    requires ks.Valid() && k > 0
    ensures var notes := FsfNotes(ks, rec, locates, markFirst, start, n, k, seal);
      Aside(notes) && (NoFail(notes) <==> (markFirst && seal.ok ==> locates && FsfLands(ks, rec, start + k - 1, n + k - 1)))
  {
    hide NoFail, Passed, FsfLands;
    OneNote(FsfNotes(ks, rec, locates, markFirst, start, n, k, seal)[0]);
  }

  lemma NoCountNotes(he: BlocksRec)
    ensures he.lbaStart.None? || he.lbaAfter.None? ==> CountNotes(he) == []
  {
  }

  lemma CountMeans(he: BlocksRec)
    ensures Aside(CountNotes(he)) && (NoFail(CountNotes(he)) <==> WalkCounted(he))
  {
    hide NoFail, Passed;
    OneNote(Check(HardEndBlockCount, Verdict(WalkCounted(he))));
  }

  lemma WalkMeans(ks: Keystream, rec: seq<Record>, locates: bool, g0: nat, hardEnd: Option<BlocksRec>)
    requires ks.Valid()
    ensures var notes := WalkNotes(ks, rec, locates, g0, hardEnd);
      Aside(notes) && (NoFail(notes) <==> WalkLocated(ks, rec, locates, g0, hardEnd))
  {
    hide NoFail, Passed, HoldsRun, CountNotes;
    OneNote(Check(HardEndBlocks, Skip));
    if hardEnd.Some? && hardEnd.value.accepted > 0 && hardEnd.value.lbaStart.Some? {
      var at, last := hardEnd.value.lbaStart.value, hardEnd.value.accepted - 1;
      var a := Check(HardEndFirstBlock, Verdict(locates && HoldsRun(ks, rec, at, g0, 1)));
      var b := Check(HardEndLastBlock, Verdict(locates && HoldsRun(ks, rec, at + last, g0 + last, 1)));
      OneNote(a);
      OneNote(b);
      CountMeans(hardEnd.value);
      NotesJoin([a], [b]);
      NotesJoin([a] + [b], CountNotes(hardEnd.value));
      assert [a] + [b] == [a, b];
    }
  }

  lemma PinnedMark(ks: Keystream, rec: seq<Record>, p: nat, n: nat, k: nat, located: bool, res: Results)
    requires ks.Valid() && k > 0 && Pinned(ks, rec, p, n, k, res)
    ensures MarkBehind(ks, rec, p, n, k, located) && res.seal.ok <==> res.mark1.ok && res.seal.ok
    ensures AsReported(ks, rec, p, n, k, located, res) <==> Expected(res) != []
  {
    RunIsBlocks(ks, rec, p, n, k);
    hide HoldsRun, AllBlocks, Padded;
    if Expected(res) != [] {
      assert ObjectAt(rec, p + k + 0, ks.bs) == Expected(res)[0];
    }
  }

  lemma LocateMeans(ks: Keystream, rec: seq<Record>, locates: bool, n: nat, k: nat, res: Results)
    requires ks.Valid()
    ensures var notes := LocateNotes(ks, rec, locates, n, k, res);
      && (NoFail(notes) <==> LocateClean(ks, rec, locates, n, k, res)) && !Passed(notes, FillTailBlocks)
      && (SlicePass(notes, res) <==> k > 0 && locates && Pinned(ks, rec, Start(res), n, k, res))
  {
    hide NoFail, Passed, Pinned, SliceNotes, WalkNotes, WalkLocated, FsfLands, MarkBehind, FsfNotes, AsReported;
    var start, walk := Start(res), WalkNotes(ks, rec, locates, n + k, res.hardEnd);
    WalkMeans(ks, rec, locates, n + k, res.hardEnd);
    OneNote(Check(SliceBlocks, Skip));
    OneNote(Check(SliceFirstBlock, Fail));
    if k == 0 {
      NotesJoin([Check(SliceBlocks, Skip)], walk);
    } else if !locates {
      var fsf := FsfNotes(ks, rec, locates, false, start, n, k, res.seal);
      FsfMeans(ks, rec, locates, false, start, n, k, res.seal);
      NotesJoin([Check(SliceFirstBlock, Fail)], fsf);
      NotesJoin([Check(SliceFirstBlock, Fail)] + fsf, walk);
    } else {
      var slice := SliceNotes(ks, rec, start, n, k, true, res);
      var fsf := FsfNotes(ks, rec, locates, MarkBehind(ks, rec, start, n, k, true), start, n, k, res.seal);
      SliceMeans(ks, rec, start, n, k, true, res);
      FsfMeans(ks, rec, locates, MarkBehind(ks, rec, start, n, k, true), start, n, k, res.seal);
      if Pinned(ks, rec, start, n, k, res) {
        PinnedMark(ks, rec, start, n, k, true, res);
      }
      NotesJoin(slice, fsf);
      NotesJoin(slice + fsf, walk);
    }
  }

  lemma TailMeans(ks: Keystream, rec: seq<Record>, n: nat, t: nat)
    requires ks.Valid() && t <= n
    ensures var notes := TailNotes(ks, rec, n, t);
      && (NoFail(notes) <==> TailHolds(ks, rec, n, t))
      && (Passed(notes, FillTailBlocks) <==> t > 0 && TailHolds(ks, rec, n, t))
      && !Passed(notes, SliceAllBlocks) && !Passed(notes, ObjectsAfterSlice) && !Passed(notes, SealBlockContent)
    ensures TailHolds(ks, rec, n, t) ==> AllData(rec, 0, n - t) && AllBlocks(rec, n - t, t, ks.bs)
  {
    hide NoFail, Passed;
    OneNote(TailNotes(ks, rec, n, t)[0]);
    if t > 0 && TailHolds(ks, rec, n, t) {
      RunIsBlocks(ks, rec, n - t, n - t, t);
    }
  }

  lemma RunOfNone(ks: Keystream, rec: seq<Record>, n: nat)
    requires ks.Valid()
    ensures AllData(rec, 0, n) ==> HoldsRun(ks, rec, n, n, 0)
  {
  }

  lemma EndsMean(ks: Keystream, rec: seq<Record>, at: nat, g0: nat, count: nat)
    requires ks.Valid() && count > 0
    ensures var notes := EndsNotes(ks, rec, at, g0, count);
      Aside(notes) && (NoFail(notes) <==> WalkFollows(ks, rec, at, g0, count))
  {
    var last := count - 1;
    var a := Check(HardEndFirstBlock, Verdict(HoldsRun(ks, rec, at, g0, 1)));
    var b := Check(HardEndLastBlock, Verdict(last > 0 ==> AllData(rec, at + 1, at + last) && HoldsRun(ks, rec, at + last, g0 + last, 1)));
    if HoldsRun(ks, rec, at, g0, 1) {
      RunIsBlocks(ks, rec, at, g0, 1);
      assert KindAt(rec, at, ks.bs) == DataRead;
    }
    hide NoFail, Passed, HoldsRun, AllData, KindAt;
    OneNote(a);
    OneNote(b);
    OneNote(Check(HardEndLastBlock, Skip));
    NotesJoin([a], [b]);
    NotesJoin([a], [Check(HardEndLastBlock, Skip)]);
    assert [a] + [] == [a];
  }

  lemma WalkOnMeans(ks: Keystream, rec: seq<Record>, n: nat, k: nat, asReported: bool, res: Results)
    requires ks.Valid()
    ensures var notes := WalkOnNotes(ks, rec, n, k, asReported, res);
      && Aside(notes)
      && (NoFail(notes) <==>
            (HardEndAccepted(res) > 0 ==>
               && (asReported && res.mark2.ok ==> WalkFollows(ks, rec, n + k + |Expected(res)|, n + k, HardEndAccepted(res)))
               && WalkCounted(res.hardEnd.value)))
  {
    hide NoFail, Passed, WalkFollows, EndsNotes, CountNotes;
    OneNote(Check(HardEndBlocks, Skip));
    if HardEndAccepted(res) > 0 {
      var count, at := HardEndAccepted(res), n + k + |Expected(res)|;
      var c := if asReported && res.mark2.ok then EndsNotes(ks, rec, at, n + k, count) else [Check(HardEndBlocks, Skip)];
      EndsMean(ks, rec, at, n + k, count);
      CountMeans(res.hardEnd.value);
      NotesJoin(c, CountNotes(res.hardEnd.value));
    }
  }

  lemma ReadOnMeans(ks: Keystream, rec: seq<Record>, n: nat, k: nat, res: Results)
    requires ks.Valid()
    ensures var notes := ReadOnNotes(ks, rec, n, k, res);
      && (NoFail(notes) <==> ReadOnClean(ks, rec, n, k, res)) && !Passed(notes, FillTailBlocks)
      && (SlicePass(notes, res) <==> k > 0 && Pinned(ks, rec, n, n, k, res))
  {
    hide NoFail, Passed, Pinned, SliceNotes, WalkFollows, AsReported, WalkOnNotes, MarkBehind;
    var a := if k == 0 then [Check(SliceBlocks, Skip)] else SliceNotes(ks, rec, n, n, k, false, res);
    var b := [Check(FsfFromLastSliceBlock, Skip)];
    var reported := k > 0 && AsReported(ks, rec, n, n, k, false, res);
    OneNote(Check(SliceBlocks, Skip));
    OneNote(Check(FsfFromLastSliceBlock, Skip));
    if k > 0 {
      SliceMeans(ks, rec, n, n, k, false, res);
      if Pinned(ks, rec, n, n, k, res) {
        PinnedMark(ks, rec, n, n, k, false, res);
      }
    }
    WalkOnMeans(ks, rec, n, k, reported, res);
    NotesJoin(a, b);
    NotesJoin(a + b, WalkOnNotes(ks, rec, n, k, reported, res));
  }

  lemma NotReported(ks: Keystream, rec: seq<Record>, p: nat, n: nat, k: nat, located: bool, res: Results)
    requires ks.Valid()
    ensures !AllBlocks(rec, p, k, ks.bs) ==> !AsReported(ks, rec, p, n, k, located, res) && !MarkBehind(ks, rec, p, n, k, located)
  {
  }

  lemma ReadOnNoted(was: seq<Check>, ks: Keystream, rec: seq<Record>, n: nat, k: nat, res: Results)
    requires ks.Valid()
    ensures var now := was + ReadOnNotes(ks, rec, n, k, res);
      && TailAsBefore(was, now)
      && (NoFail(now) <==> NoFail(was) && ReadOnClean(ks, rec, n, k, res))
      && (SlicePass(now, res) && NotYet(was) ==> k > 0 && Pinned(ks, rec, n, n, k, res))
      && (k > 0 && Pinned(ks, rec, n, n, k, res) ==> SlicePass(now, res))
  {
    hide NoFail, Passed, Pinned, ReadOnNotes, ReadOnClean;
    ReadOnMeans(ks, rec, n, k, res);
    NotesJoin(was, ReadOnNotes(ks, rec, n, k, res));
  }

  lemma NothingNoted(was: seq<Check>, res: Results)
    ensures TailAsBefore(was, was) && !(SlicePass(was, res) && NotYet(was))
  {
  }

  lemma LocateNoted(was: seq<Check>, ks: Keystream, rec: seq<Record>, locates: bool, n: nat, k: nat, res: Results)
    requires ks.Valid()
    ensures var now := was + LocateNotes(ks, rec, locates, n, k, res);
      && TailAsBefore(was, now)
      && (NoFail(now) <==> NoFail(was) && LocateClean(ks, rec, locates, n, k, res))
      && (SlicePass(now, res) && NotYet(was) ==> k > 0 && Pinned(ks, rec, Start(res), n, k, res))
      && (k > 0 && LocateClean(ks, rec, locates, n, k, res) ==> SlicePass(now, res))
  {
    hide NoFail, Passed, Pinned, LocateNotes, WalkLocated;
    LocateMeans(ks, rec, locates, n, k, res);
    NotesJoin(was, LocateNotes(ks, rec, locates, n, k, res));
  }

  lemma PositionsNoted(was: seq<Check>, start: nat, k: nat, res: Results)
    requires res.slice.Some?
    ensures var now := was + PositionNotes(start, k, res);
      SliceAsBefore(was, now) && TailAsBefore(was, now) && (NoFail(now) <==> NoFail(was) && PositionsAgree(start, k, res))
  {
    hide NoFail, Passed, PositionNotes, PositionsAgree;
    PositionsMean(start, k, res);
    AsideNoted(was, PositionNotes(start, k, res));
  }

  lemma SpacingMeans(ks: Keystream, rec: seq<Record>, tail: nat, n: nat, k: nat, res: Results)
    requires ks.Valid()
    ensures var notes := SpacingNotes(ks, rec, tail, n, k, res);
      && (NoFail(notes) <==> SpacingClean(ks, rec, tail, n, k, res))
      && (SlicePass(notes, res) ==> k > 0 && AllData(rec, 0, n - Tail(tail, n)) && Pinned(ks, rec, n, n, k, res))
      && (SpacingClean(ks, rec, tail, n, k, res) && k > 0 ==> SlicePass(notes, res))
      && (Passed(notes, FillTailBlocks) <==> Tail(tail, n) > 0 && TailHolds(ks, rec, n, Tail(tail, n)))
  {
    hide NoFail, Passed, Pinned, TailNotes, TailHolds, ReadOnNotes, AllBlocks, AllData, Tail;
    var t := Tail(tail, n);
    TailMeans(ks, rec, n, t);
    ReadOnMeans(ks, rec, n, k, res);
    OneNote(Check(SliceBlocks, Skip));
    NotesJoin(TailNotes(ks, rec, n, t), ReadOnNotes(ks, rec, n, k, res));
    NotesJoin(TailNotes(ks, rec, n, t), []);
  }

  /** What the spacing route's notes add to those before them. */
  lemma SpacingNoted(was: seq<Check>, ks: Keystream, rec: seq<Record>, tail: nat, n: nat, k: nat, res: Results)
    requires ks.Valid()
    ensures var now := was + SpacingNotes(ks, rec, tail, n, k, res);
      && (NoFail(now) <==> NoFail(was) && SpacingClean(ks, rec, tail, n, k, res))
      && (SlicePass(now, res) && NotYet(was) ==> k > 0 && AllData(rec, 0, n - Tail(tail, n)) && Pinned(ks, rec, n, n, k, res))
      && (SpacingClean(ks, rec, tail, n, k, res) ==>
            (k > 0 ==> SlicePass(now, res)) && (Tail(tail, n) > 0 ==> Passed(now, FillTailBlocks)))
      && (Passed(now, FillTailBlocks) && !Passed(was, FillTailBlocks) ==> Tail(tail, n) > 0 && TailHolds(ks, rec, n, Tail(tail, n)))
  {
    hide NoFail, Passed, Pinned, SpacingNotes, AllData, TailHolds, ReadOnClean, Tail;
    SpacingMeans(ks, rec, tail, n, k, res);
    NotesJoin(was, SpacingNotes(ks, rec, tail, n, k, res));
  }

  /** The report has no FAIL exactly when the tape is as the record says, and what its passes pin. */
  lemma ReportMeans(ks: Keystream, rec: seq<Record>, bs: nat, locates: bool, asked: Route, tail: nat, res: Results)
    requires ks.Valid()
    ensures var checks := Report(ks, rec, bs, locates, asked, tail, res);
      && (NoFail(checks) <==> bs == ks.bs && Clean(ks, rec, locates, asked, tail, res))
      && (SlicePass(checks, res) ==>
            && bs == ks.bs && res.slice.Some? && res.slice.value.accepted > 0
            && Pinned(ks, rec, if TakesLocate(asked, locates, res) then Start(res) else res.fillBlocks, res.fillBlocks,
                      res.slice.value.accepted, res))
      && (NoFail(checks) && res.slice.Some? && res.slice.value.accepted > 0 ==> SlicePass(checks, res))
      && (Passed(checks, FillTailBlocks) <==>
            && bs == ks.bs && res.slice.Some? && !TakesLocate(asked, locates, res)
            && Tail(tail, res.fillBlocks) > 0 && TailHolds(ks, rec, res.fillBlocks, Tail(tail, res.fillBlocks)))
  {
    hide NoFail, Passed, Pinned, PositionNotes, LocateNotes, SpacingNotes, PositionsAgree, Tail, TailHolds, TakesLocate, WalkLocated, ReadOnClean;
    OneNote(Check(BlockSize, Fail));
    OneNote(Check(PostWarningSlice, Skip));
    if bs == ks.bs && res.slice.Some? {
      var n, k := res.fillBlocks, res.slice.value.accepted;
      PositionsMean(Start(res), k, res);
      LocateMeans(ks, rec, locates, n, k, res);
      SpacingMeans(ks, rec, tail, n, k, res);
      NotesJoin(PositionNotes(Start(res), k, res), LocateNotes(ks, rec, locates, n, k, res));
      NotesJoin(PositionNotes(Start(res), k, res), SpacingNotes(ks, rec, tail, n, k, res));
    }
  }

  class Reader {
    const tape: FakeTape
    const ks: Keystream
    const asked: Route
    const chunk: nat
    const tail: nat
    var checks: seq<Check>
    var buf: Block
    var route: Route
    var foundMarkFirst: bool
    var afterSliceAsWritten: bool

    ghost predicate Valid() {
      ks.Valid() && ks.bs == tape.bs && 0 < chunk <= SPACE_MAX
    }

    constructor (tape: FakeTape, ks: Keystream, asked: Route, chunk: nat, tail: nat)
      requires ks.Valid() && 0 < chunk <= SPACE_MAX
      ensures this.tape == tape && this.ks == ks && this.asked == asked && this.chunk == chunk && this.tail == tail
      ensures checks == [] && route == Auto && !foundMarkFirst && !afterSliceAsWritten
    {
      this.tape, this.ks, this.asked, this.chunk, this.tail := tape, ks, asked, chunk, tail;
      checks, buf, route := [], Zeros(ks.bs), Auto;
      foundMarkFirst, afterSliceAsWritten := false, false;
    }

    method Note(name: CheckName, ok: Option<bool>)
      modifies `checks
      ensures checks == old(checks) + [Check(name, StatusOf(ok))]
    {
      checks := checks + [Check(name, StatusOf(ok))];
    }

    method Read() returns (kind: Kind)
      modifies `buf, tape`pos
      ensures kind == KindAt(tape.rec, old(tape.pos), tape.bs)
      ensures tape.pos == old(tape.pos) + Bit(old(tape.pos) < |tape.rec|)
      ensures kind == DataRead ==> buf == tape.rec[old(tape.pos)].bytes
    {
      var r := tape.Read();
      match r {
        case None => kind := ErrRead(EIO);
        case Some(Mark) => kind := MarkRead;
        case Some(Data(bytes)) =>
          if |bytes| == tape.bs && |bytes| != 0 {
            buf := bytes;
            kind := DataRead;
          } else {
            kind := if |bytes| == 0 then MarkRead else ShortRead;
          }
      }
    }

    /** Whether the next read is data, and whether it is keystream block `g`. */
    method ReadsBlock(g: nat) returns (data: bool, same: bool)
      requires Valid()
      modifies `buf, tape`pos
      ensures same <==> HoldsRun(ks, tape.rec, old(tape.pos), g, 1)
      ensures data <==> KindAt(tape.rec, old(tape.pos), tape.bs) == DataRead
      ensures same ==> data
      ensures data ==> tape.pos == old(tape.pos) + 1 <= |tape.rec|
      ensures tape.pos == old(tape.pos) + Bit(old(tape.pos) < |tape.rec|)
    {
      var kind := Read();
      data := kind == DataRead;
      same := data && buf == ks.At(g);
    }

    /** One read, as the kind of object it is. */
    method ReadObject() returns (thing: Object)
      modifies `buf, tape`pos
      ensures thing == ObjectAt(tape.rec, old(tape.pos), tape.bs)
      ensures tape.pos == old(tape.pos) + Bit(old(tape.pos) < |tape.rec|)
      ensures thing == SEAL ==> old(tape.pos) < |tape.rec| && tape.rec[old(tape.pos)] == Data(buf)
      ensures thing != EOD ==> old(tape.pos) < |tape.rec|
    {
      var kind := Read();
      match kind {
        case MarkRead => thing := FM;
        case DataRead => thing := if SEAL_MARKER <= Head(buf) then SEAL else DATA;
        case _ => thing := EOD;
      }
    }

    /** Compare the next k records with the stream from block n on. */
    method ReadSlice(n: nat, k: nat)
      returns (bad: nat, stopAt: Option<nat>, firstOk: Option<bool>, lastOk: Option<bool>)
      requires Valid() && k > 0
      modifies `buf, tape`pos
      ensures bad == 0 && stopAt.None? <==> HoldsRun(ks, tape.rec, old(tape.pos), n, k)
      ensures stopAt.None? ==> tape.pos == old(tape.pos) + k
      ensures bad == 0 && stopAt.None? ==> firstOk == lastOk == Some(true)
      // how far it was read, and what was found
      ensures stopAt.None? <==> AllBlocks(tape.rec, old(tape.pos), k, tape.bs)
      ensures stopAt.None? ==> old(tape.pos) + k <= |tape.rec| && bad == Differing(ks, tape.rec, old(tape.pos), n, k)
      ensures firstOk == if KindAt(tape.rec, old(tape.pos), tape.bs) != DataRead then None
                         else Some(HoldsRun(ks, tape.rec, old(tape.pos), n, 1))
      ensures lastOk == if stopAt.Some? then None else Some(HoldsRun(ks, tape.rec, old(tape.pos) + k - 1, n + k - 1, 1))
    {
      hide Keystream.At;
      bad, stopAt, firstOk, lastOk := 0, None, None, None;
      var i := 0;
      ghost var p := tape.pos;
      while i < k
        invariant 0 <= i <= k && stopAt.None? && tape.pos == p + i
        invariant i > 0 ==> p + i <= |tape.rec|
        invariant bad == 0 <==> HoldsRun(ks, tape.rec, p, n, i) || i == 0
        invariant bad == 0 && i > 0 ==> firstOk == Some(true)
        invariant bad == 0 && i == k ==> lastOk == Some(true)
        invariant AllBlocks(tape.rec, p, i, tape.bs)
        invariant i > 0 ==> bad == Differing(ks, tape.rec, p, n, i)
        invariant i == 0 ==> bad == 0 && firstOk.None?
        invariant i > 0 ==> firstOk == Some(HoldsRun(ks, tape.rec, p, n, 1))
        invariant lastOk == if i < k then None else Some(HoldsRun(ks, tape.rec, p + k - 1, n + k - 1, 1))
      {
        var kind := Read();
        StreamBlock(ks, n + i);
        if kind != DataRead {
          stopAt := Some(i);
          break;
        }
        var same := buf == ks.At(n + i);
        if i == 0 {
          firstOk := Some(same);
        }
        if i == k - 1 {
          lastOk := Some(same);
        }
        if !same {
          bad := bad + 1;
        }
        i := i + 1;
      }
    }

    /** Read on, as many objects as are wanted, or one when none is. */
    method ReadObjects(want: seq<Object>) returns (found: seq<Object>, sealRaw: Option<Block>, ghost sealAt: nat)
      requires Valid() && EOD !in want
      modifies `buf, tape`pos
      ensures found != [] && found[0] == ObjectAt(tape.rec, old(tape.pos), tape.bs)
      ensures ObjectsFollow(tape.rec, old(tape.pos), tape.bs, want) <==> Agrees(found, want)
      ensures want != [] && found == want ==> tape.pos == old(tape.pos) + |want|
      ensures sealRaw.Some? <==> SEAL in found
      ensures sealRaw.Some? ==> SealSeen(tape.rec, old(tape.pos), found, sealAt, sealRaw.value)
      ensures var count := if want == [] then 1 else |want|;
        && (sealRaw.Some? ==> LastSeal(tape.rec, old(tape.pos), tape.bs, count, old(tape.pos) + sealAt))
        && (sealRaw.None? ==> forall q: nat :: !LastSeal(tape.rec, old(tape.pos), tape.bs, count, q))
    {
      hide ObjectsFollow, LastSeal, Agrees, ObjectAt;
      found, sealRaw, sealAt := [], None, 0;
      ghost var p := tape.pos;
      var count := if want == [] then 1 else |want|;
      while |found| < count
        invariant |found| <= count && tape.pos == p + |found| && EOD !in found
        invariant found != [] ==> tape.pos <= |tape.rec|
        invariant forall i :: 0 <= i < |found| ==> found[i] == ObjectAt(tape.rec, p + i, tape.bs)
        invariant sealRaw.Some? <==> SEAL in found
        invariant sealRaw.Some? ==> SealSeen(tape.rec, p, found, sealAt, sealRaw.value)
        invariant sealRaw.Some? ==> forall i :: sealAt < i < |found| ==> found[i] != SEAL
      {
        var thing := ReadObject();
        if thing == SEAL {
          sealRaw, sealAt := Some(buf), |found|;
        }
        found := found + [thing];
        if thing == EOD {
          break;
        }
      }
      FoundAgrees(tape.rec, p, tape.bs, want, found);
      SealFound(tape.rec, p, tape.bs, count, found, sealRaw.Some?, sealAt);
    }

    /** Read the objects after the slice: whether they are those reported, and whether the seal
        block among them holds its text and zero padding alone. */
    method ReadReported(res: Results) returns (found: seq<Object>, agree: bool, content: bool)
      requires Valid()
      modifies `buf, tape`pos
      ensures agree && (res.seal.ok ==> content) <==> ObjectsPinned(tape.rec, old(tape.pos), tape.bs, res)
      ensures agree == Agrees(found, Expected(res)) && found != [] && found[0] == ObjectAt(tape.rec, old(tape.pos), tape.bs)
      ensures agree <==> ObjectsFollow(tape.rec, old(tape.pos), tape.bs, Expected(res))
      ensures res.seal.ok ==> (content <==> SealHolds(tape.rec, old(tape.pos), tape.bs, |Expected(res)|, res.seal.text))
      ensures agree && Expected(res) != [] ==> tape.pos == old(tape.pos) + |Expected(res)|
    {
      hide ObjectsFollow, LastSeal, SealHolds, ObjectAt, SealContent, Padded;
      var want := Expected(res);
      ghost var p := tape.pos;
      var sealRaw;
      ghost var sealAt;
      found, sealRaw, sealAt := ReadObjects(want);
      agree := Agrees(found, want);
      content := sealRaw.Some? && SealContent(sealRaw.value, res.seal.text);
      if res.seal.ok {
        SealIsLast(tape.rec, p, tape.bs, |want|, res.seal.text, sealRaw, p + sealAt);
      }
      if agree && res.seal.ok {
        assert want[Bit(res.mark1.ok)] == SEAL;
        SealContentMeaning(tape.rec, p, tape.bs, res, sealAt, sealRaw.value);
      }
    }

    /** Where the tape stands, and what was noted, once the objects read as written. */
    ghost predicate ObjectsRead(res: Results, p: nat)
      reads this, tape
    {
      var want := Expected(res);
      && afterSliceAsWritten == (want != [])
      && foundMarkFirst == (want != [] && want[0] == FM)
      && (want != [] && res.hardEnd.Some? ==> tape.pos == p + |want|)
    }

    /** Note whether the objects after the slice are those the record claims. */
    method ObjectChecks(res: Results)
      requires Valid()
      modifies `buf, `checks, `foundMarkFirst, `afterSliceAsWritten, tape`pos
      ensures TailAsBefore(old(checks), checks)
      ensures Passed(checks, SliceAllBlocks) <==> Passed(old(checks), SliceAllBlocks)
      ensures NoFail(checks) <==> NoFail(old(checks)) && ObjectsPinned(tape.rec, old(tape.pos), tape.bs, res)
      ensures ObjectsPass(checks, res) && !Passed(old(checks), ObjectsAfterSlice) && !Passed(old(checks), SealBlockContent) ==>
              ObjectsPinned(tape.rec, old(tape.pos), tape.bs, res)
      ensures ObjectsPinned(tape.rec, old(tape.pos), tape.bs, res) ==> ObjectsPass(checks, res) && ObjectsRead(res, old(tape.pos))
      ensures checks == old(checks) + ObjectNotes(tape.rec, old(tape.pos), tape.bs, res)
      ensures foundMarkFirst == (ObjectAt(tape.rec, old(tape.pos), tape.bs) == FM)
      ensures afterSliceAsWritten == (Expected(res) != [] && ObjectsFollow(tape.rec, old(tape.pos), tape.bs, Expected(res)))
      ensures afterSliceAsWritten && res.hardEnd.Some? ==> tape.pos == old(tape.pos) + |Expected(res)|
    {
      hide NoFail, Passed, ObjectsPinned, ObjectsFollow, SealHolds, ObjectAt;
      ghost var p, was := tape.pos, checks;
      var want := Expected(res);
      var found, agree, content := ReadReported(res);
      Note(ObjectsAfterSlice, Some(agree));
      if res.seal.ok {
        Note(SealBlockContent, Some(content));
      }
      if want != [] && found == want && res.hardEnd.None? {
        var _ := Read();
        checks := checks + [Check(ReadAfterFinalMark, Info)];
      }
      foundMarkFirst := found[0] == FM;
      afterSliceAsWritten := want != [] && found == want;
      assert checks == was + ObjectNotes(tape.rec, p, tape.bs, res);
      PinnedFirst(tape.rec, p, tape.bs, res);
      hide ObjectNotes;
      ObjectsNoted(was, tape.rec, p, tape.bs, res);
    }

    /** Read at the addresses around the slice's start: at which of them block g is.  The tape is left there. */
    method Neighbours(start: nat, g: nat) returns (found: seq<int>)
      requires Valid()
      modifies `buf, tape`pos
      ensures found == FlatMap([-2, -1, 1, 2], FoundAt(ks, tape.rec, tape.locates, start, g))
      ensures tape.pos == if tape.locates then start + 2 + Bit(start + 2 < |tape.rec|) else old(tape.pos)
    {
      var offsets := [-2, -1, 1, 2];
      found := [];
      for i := 0 to 4
        invariant found == FlatMap(offsets[..i], FoundAt(ks, tape.rec, tape.locates, start, g))
        invariant !tape.locates ==> tape.pos == old(tape.pos)
        invariant tape.locates && i == 4 ==> tape.pos == start + 2 + Bit(start + 2 < |tape.rec|)
      {
        FlatMapNext(offsets[..i], offsets[i], FoundAt(ks, tape.rec, tape.locates, start, g));
        assert offsets[..i + 1] == offsets[..i] + [offsets[i]];
        var ok := tape.Seek(start + offsets[i]);
        if ok {
          var _, same := ReadsBlock(g);
          if same {
            found := found + [offsets[i]];
          }
        }
      }
      assert offsets[..4] == offsets;
    }

    /** The slice from where the tape stands, and what follows it. */
    method SliceChecks(n: nat, k: nat, res: Results, locateStart: Option<nat>)
      requires Valid() && k > 0 && (locateStart.Some? ==> tape.locates && locateStart.value == tape.pos)
      modifies `buf, `checks, `foundMarkFirst, `afterSliceAsWritten, tape`pos
      ensures TailAsBefore(old(checks), checks)
      ensures NoFail(checks) <==> NoFail(old(checks)) && Pinned(ks, tape.rec, old(tape.pos), n, k, res)
      ensures SlicePass(checks, res) && NotYet(old(checks)) ==> Pinned(ks, tape.rec, old(tape.pos), n, k, res)
      ensures Pinned(ks, tape.rec, old(tape.pos), n, k, res) ==> SlicePass(checks, res) && ObjectsRead(res, old(tape.pos) + k)
      ensures checks == old(checks) + SliceNotes(ks, tape.rec, old(tape.pos), n, k, locateStart.Some?, res)
      ensures var p, located := old(tape.pos), locateStart.Some?;
        if AllBlocks(tape.rec, p, k, tape.bs) then
          && foundMarkFirst == MarkBehind(ks, tape.rec, p, n, k, located)
          && afterSliceAsWritten == AsReported(ks, tape.rec, p, n, k, located, res)
          && (afterSliceAsWritten && res.hardEnd.Some? ==> tape.pos == ReadFrom(ks, tape.rec, p, n, k, located) + |Expected(res)|)
        else foundMarkFirst == old(foundMarkFirst) && afterSliceAsWritten == old(afterSliceAsWritten)
    {
      hide NoFail, Passed, HoldsRun, ObjectsPinned, AllBlocks, ObjectNotes, ObjectsFollow, Differing, Expected;
      ghost var p, was := tape.pos, checks;
      var bad, stopAt, firstOk, lastOk := ReadSlice(n, k);
      if firstOk == Some(false) && locateStart.Some? {
        var _ := Neighbours(locateStart.value, n);
      }
      FirstIsBlock(tape.rec, p, k, tape.bs);
      Note(SliceFirstBlock, firstOk);
      Note(SliceLastBlock, lastOk);
      Note(SliceAllBlocks, Some(bad == 0 && stopAt.None?));
      if stopAt.None? {
        ObjectChecks(res);
      }
      assert checks == was + SliceNotes(ks, tape.rec, p, n, k, locateStart.Some?, res);
      SliceNoted(was, ks, tape.rec, p, n, k, locateStart.Some?, res);
    }

    /** Whether a filemark search that starts at the slice's end finds the seal. */
    method FsfCheck(n: nat, k: nat, start: nat, seal: SealRec)
      requires Valid() && k > 0
      modifies `buf, `checks, tape`pos
      ensures SliceAsBefore(old(checks), checks) && TailAsBefore(old(checks), checks)
      ensures NoFail(checks) <==>
              NoFail(old(checks)) &&
              (foundMarkFirst && seal.ok ==> tape.locates && FsfLands(ks, tape.rec, start + k - 1, n + k - 1))
      ensures checks == old(checks) + FsfNotes(ks, tape.rec, tape.locates, foundMarkFirst, start, n, k, seal)
    {
      hide NoFail, Passed, HoldsRun, ObjectAt, AfterMark;
      FsfMeans(ks, tape.rec, tape.locates, foundMarkFirst, start, n, k, seal);
      AsideNoted(checks, FsfNotes(ks, tape.rec, tape.locates, foundMarkFirst, start, n, k, seal));
      if !foundMarkFirst || !seal.ok {
        Note(FsfFromLastSliceBlock, None);
        return;
      }
      var ok := tape.Seek(start + k - 1);
      if !ok {
        Note(FsfFromLastSliceBlock, Some(false));
        return;
      }
      var _, lastSame := ReadsBlock(n + k - 1);
      tape.SpaceMark();
      var thing := ReadObject();
      Note(FsfFromLastSliceBlock, Some(lastSame && thing == SEAL));
    }

    method HardEndCountCheck(he: BlocksRec)
      requires he.lbaStart.Some? && he.lbaAfter.Some?
      modifies `checks
      ensures SliceAsBefore(old(checks), checks) && TailAsBefore(old(checks), checks)
      ensures NoFail(checks) <==> NoFail(old(checks)) && WalkCounted(he)
      ensures checks == old(checks) + CountNotes(he)
    {
      CountMeans(he);
      AsideNoted(checks, CountNotes(he));
      Note(HardEndBlockCount, Some(he.lbaAfter.value - he.lbaStart.value == he.accepted));
    }

    method HardEndBlockCheck(name: CheckName, address: nat, g: nat)
      requires Valid() && name in {HardEndFirstBlock, HardEndLastBlock}
      modifies `buf, `checks, tape`pos
      ensures SliceAsBefore(old(checks), checks) && TailAsBefore(old(checks), checks)
      ensures NoFail(checks) <==> NoFail(old(checks)) && tape.locates && HoldsRun(ks, tape.rec, address, g, 1)
      ensures checks == old(checks) + [Check(name, Verdict(tape.locates && HoldsRun(ks, tape.rec, address, g, 1)))]
    {
      hide NoFail, Passed, HoldsRun;
      ghost var was := checks;
      var ok := tape.Seek(address);
      var same := false;
      if ok {
        var _, block := ReadsBlock(g);
        same := block;
      }
      Note(name, Some(same));
      OneNote(Check(name, StatusOf(Some(same))));
      AsideNoted(was, [Check(name, StatusOf(Some(same)))]);
    }

    method HardEndChecks(g0: nat, hardEnd: Option<BlocksRec>)
      requires Valid()
      modifies `buf, `checks, tape`pos
      ensures SliceAsBefore(old(checks), checks) && TailAsBefore(old(checks), checks)
      ensures NoFail(checks) <==> NoFail(old(checks)) && WalkLocated(ks, tape.rec, tape.locates, g0, hardEnd)
      ensures checks == old(checks) + WalkNotes(ks, tape.rec, tape.locates, g0, hardEnd)
    {
      hide NoFail, Passed, HoldsRun, CountNotes, WalkLocated;
      WalkMeans(ks, tape.rec, tape.locates, g0, hardEnd);
      AsideNoted(checks, WalkNotes(ks, tape.rec, tape.locates, g0, hardEnd));
      hide Aside, SliceAsBefore, TailAsBefore;
      ghost var was := checks;
      if hardEnd.None? || hardEnd.value.accepted == 0 {
        assert checks == was + WalkNotes(ks, tape.rec, tape.locates, g0, hardEnd);
        return;
      }
      var he := hardEnd.value;
      if he.lbaStart.None? {
        Note(HardEndBlocks, None);
        return;
      }
      HardEndBlockCheck(HardEndFirstBlock, he.lbaStart.value, g0);
      HardEndBlockCheck(HardEndLastBlock, he.lbaStart.value + he.accepted - 1, g0 + he.accepted - 1);
      NoCountNotes(he);
      if he.lbaAfter.Some? {
        HardEndCountCheck(he);
      }
      assert checks == was + WalkNotes(ks, tape.rec, tape.locates, g0, hardEnd);
    }

    /** Move `count` records on, a chunk at a time, over data only. */
    method SpaceForward(count: nat) returns (spaced: nat, ok: bool)
      requires Valid() && tape.pos <= |tape.rec|
      modifies tape`pos, tape`spaceCounts
      ensures ok <==> AllData(tape.rec, old(tape.pos), old(tape.pos) + count)
      ensures ok ==> tape.pos == old(tape.pos) + count && spaced == count
      ensures old(tape.spaceCounts) <= tape.spaceCounts && Chunked(tape.spaceCounts[|old(tape.spaceCounts)|..], chunk)
      ensures ok ==> Sum(tape.spaceCounts) == Sum(old(tape.spaceCounts)) + count
    {
      spaced := 0;
      while spaced < count
        invariant spaced <= count && tape.pos == old(tape.pos) + spaced
        invariant AllData(tape.rec, old(tape.pos), tape.pos)
        invariant old(tape.spaceCounts) <= tape.spaceCounts
        invariant Chunked(tape.spaceCounts[|old(tape.spaceCounts)|..], chunk)
        invariant Sum(tape.spaceCounts) == Sum(old(tape.spaceCounts)) + spaced
      {
        var step := if count - spaced < chunk then count - spaced else chunk;
        ghost var counts := tape.spaceCounts;
        var done := tape.SpaceBlocks(step);
        assert (counts + [step])[..|counts|] == counts;
        assert (counts + [step])[|old(tape.spaceCounts)|..] == counts[|old(tape.spaceCounts)|..] + [step];
        if !done {
          ok := false;
          assert !AllData(tape.rec, old(tape.pos), old(tape.pos) + count);
          return;
        }
        spaced := spaced + step;
      }
      ok := true;
    }

    /** From the start of the tape to the last `t` blocks of the fill, which are read. */
    method FillTail(n: nat, t: nat) returns (go: bool)
      requires Valid() && t <= n
      modifies `buf, `checks, tape`pos, tape`spaceCounts
      ensures SliceAsBefore(old(checks), checks)
      ensures NoFail(checks) <==> NoFail(old(checks)) && TailHolds(ks, tape.rec, n, t)
      ensures go ==> tape.pos == n && AllData(tape.rec, 0, n - t)
      ensures Passed(checks, FillTailBlocks) && !Passed(old(checks), FillTailBlocks) ==>
              t > 0 && go && TailHolds(ks, tape.rec, n, t)
      ensures TailHolds(ks, tape.rec, n, t) ==> go && (t > 0 ==> Passed(checks, FillTailBlocks))
      ensures old(tape.spaceCounts) == [] ==> Chunked(tape.spaceCounts, chunk) && (go ==> Sum(tape.spaceCounts) == n - t)
      ensures checks == old(checks) + TailNotes(ks, tape.rec, n, t)
      ensures go <==> AllData(tape.rec, 0, n - t) && AllBlocks(tape.rec, n - t, t, tape.bs)
    {
      hide NoFail, Passed, HoldsRun;
      TailMeans(ks, tape.rec, n, t);
      NotesJoin(checks, TailNotes(ks, tape.rec, n, t));
      tape.Rewind();
      var spaced, ok := SpaceForward(n - t);
      assert tape.spaceCounts[0..] == tape.spaceCounts;
      if !ok {
        Note(FillTailBlocks, Some(false));
        return false;
      }
      if t == 0 {
        RunOfNone(ks, tape.rec, n);
        Note(FillTailBlocks, None);
        return true;
      }
      var bad, stopAt, firstOk, lastOk := ReadSlice(n - t, t);
      Note(FillTailBlocks, Some(bad == 0 && stopAt.None?));
      go := stopAt.None?;
    }

    /** The first and the last block of the walk, read where the head stands. */
    method SpacedEnds(g0: nat, count: nat)
      requires Valid() && count > 0
      modifies `buf, `checks, tape`pos, tape`spaceCounts
      ensures Valid()
      ensures SliceAsBefore(old(checks), checks) && TailAsBefore(old(checks), checks)
      ensures NoFail(checks) <==> NoFail(old(checks)) && WalkFollows(ks, tape.rec, old(tape.pos), g0, count)
      ensures checks == old(checks) + EndsNotes(ks, tape.rec, old(tape.pos), g0, count)
      ensures old(tape.spaceCounts) <= tape.spaceCounts && Chunked(tape.spaceCounts[|old(tape.spaceCounts)|..], chunk)
    {
      hide NoFail, Passed, AllData, HoldsRun, KindAt;
      EndsMean(ks, tape.rec, tape.pos, g0, count);
      AsideNoted(checks, EndsNotes(ks, tape.rec, tape.pos, g0, count));
      hide Aside, SliceAsBefore, TailAsBefore, WalkFollows;
      ghost var p, was := tape.pos, checks;
      var last := count - 1;
      var data, good := ReadsBlock(g0);
      Note(HardEndFirstBlock, Some(good));
      if !data {
        Note(HardEndLastBlock, None);
      } else if last > 0 {
        var spaced, ok := SpaceForward(last - 1);
        var same := false;
        if ok {
          var _, block := ReadsBlock(g0 + last);
          same := block;
        }
        Note(HardEndLastBlock, Some(same));
      }
      assert checks == was + EndsNotes(ks, tape.rec, p, g0, count);
    }

    /** The walk's first and last blocks, read on from the second filemark. */
    method SpacedHardEnd(g0: nat, he: BlocksRec, known: bool)
      requires Valid() && he.accepted > 0
      modifies `buf, `checks, tape`pos, tape`spaceCounts
      ensures SliceAsBefore(old(checks), checks) && TailAsBefore(old(checks), checks)
      ensures NoFail(checks) <==>
              NoFail(old(checks)) && (known ==> WalkFollows(ks, tape.rec, old(tape.pos), g0, he.accepted)) && WalkCounted(he)
      ensures checks == old(checks)
                        + (if known then EndsNotes(ks, tape.rec, old(tape.pos), g0, he.accepted) else [Check(HardEndBlocks, Skip)])
                        + CountNotes(he)
      ensures old(tape.spaceCounts) <= tape.spaceCounts && Chunked(tape.spaceCounts[|old(tape.spaceCounts)|..], chunk)
    {
      hide NoFail, Passed, WalkFollows, EndsNotes, CountNotes;
      ghost var was := checks;
      if known {
        SpacedEnds(g0, he.accepted);
      } else {
        Note(HardEndBlocks, None);
        OneNote(Check(HardEndBlocks, Skip));
        AsideNoted(was, [Check(HardEndBlocks, Skip)]);
      }
      NoCountNotes(he);
      if he.lbaStart.Some? && he.lbaAfter.Some? {
        HardEndCountCheck(he);
      }
    }

    method WalkOn(n: nat, k: nat, res: Results)
      requires Valid() && (afterSliceAsWritten && res.hardEnd.Some? ==> tape.pos == n + k + |Expected(res)|)
      modifies `buf, `checks, tape`pos, tape`spaceCounts
      ensures checks == old(checks) + WalkOnNotes(ks, tape.rec, n, k, afterSliceAsWritten, res)
      ensures old(tape.spaceCounts) <= tape.spaceCounts && Chunked(tape.spaceCounts[|old(tape.spaceCounts)|..], chunk)
    {
      hide NoFail, Passed, WalkFollows, EndsNotes, CountNotes, SliceAsBefore, TailAsBefore;
      if res.hardEnd.Some? && res.hardEnd.value.accepted > 0 {
        SpacedHardEnd(n + k, res.hardEnd.value, afterSliceAsWritten && res.mark2.ok);
      }
    }

    /** From the first slice block on, by reading alone. */
    method ReadOn(n: nat, k: nat, res: Results)
      requires Valid() && !afterSliceAsWritten && tape.pos == n
      modifies `buf, `checks, `foundMarkFirst, `afterSliceAsWritten, tape`pos, tape`spaceCounts
      ensures TailAsBefore(old(checks), checks)
      ensures NoFail(checks) <==> NoFail(old(checks)) && ReadOnClean(ks, tape.rec, n, k, res)
      ensures SlicePass(checks, res) && NotYet(old(checks)) ==> k > 0 && Pinned(ks, tape.rec, n, n, k, res)
      ensures k > 0 && Pinned(ks, tape.rec, n, n, k, res) ==> SlicePass(checks, res)
      ensures checks == old(checks) + ReadOnNotes(ks, tape.rec, n, k, res)
      ensures old(tape.spaceCounts) <= tape.spaceCounts && Chunked(tape.spaceCounts[|old(tape.spaceCounts)|..], chunk)
    {
      hide NoFail, Passed, Pinned, SliceNotes, WalkOnNotes, AllBlocks, ObjectsFollow, AsReported, MarkBehind;
      hide ReadOnClean, SlicePass, NotYet, TailAsBefore, Chunked;
      ghost var was := checks;
      if k == 0 {
        Note(SliceBlocks, None);
      } else {
        NotReported(ks, tape.rec, n, n, k, false, res);
        SliceChecks(n, k, res, None);
      }
      Note(FsfFromLastSliceBlock, None);
      WalkOn(n, k, res);
      assert checks == was + ReadOnNotes(ks, tape.rec, n, k, res);
      ReadOnNoted(was, ks, tape.rec, n, k, res);
    }

    /** The spacing route: no READ POSITION, no LOCATE. */
    method SpacingChecks(n: nat, k: nat, res: Results)
      requires Valid() && !afterSliceAsWritten && tape.spaceCounts == []
      modifies `buf, `checks, `foundMarkFirst, `afterSliceAsWritten, tape`pos, tape`spaceCounts
      ensures NoFail(checks) <==> NoFail(old(checks)) && SpacingClean(ks, tape.rec, tail, n, k, res)
      ensures checks == old(checks) + SpacingNotes(ks, tape.rec, tail, n, k, res)
      ensures SlicePass(checks, res) && NotYet(old(checks)) ==>
              k > 0 && AllData(tape.rec, 0, n - Tail(tail, n)) && Pinned(ks, tape.rec, n, n, k, res)
      ensures SpacingClean(ks, tape.rec, tail, n, k, res) ==>
              (k > 0 ==> SlicePass(checks, res)) && (Tail(tail, n) > 0 ==> Passed(checks, FillTailBlocks))
      ensures Passed(checks, FillTailBlocks) && !Passed(old(checks), FillTailBlocks) ==>
        && Tail(tail, n) > 0 && TailHolds(ks, tape.rec, n, Tail(tail, n))
        && Chunked(tape.spaceCounts, chunk) && PrefixSums(tape.spaceCounts, n - Tail(tail, n))
    {
      hide NoFail, Passed, Pinned, TailHolds, AllData, AllBlocks, TailNotes, ReadOnNotes, SpacingClean, ReadOnClean, Tail, Chunked;
      hide SliceAsBefore, SlicePass, NotYet, TailAsBefore;
      ghost var was := checks;
      var t := Tail(tail, n);
      var go := FillTail(n, t);
      ghost var counts := tape.spaceCounts;
      if go {
        ReadOn(n, k, res);
      }
      assert checks == was + SpacingNotes(ks, tape.rec, tail, n, k, res);
      SpacingNoted(was, ks, tape.rec, tail, n, k, res);
      TailMeans(ks, tape.rec, n, t);
      NoCounts(tape.spaceCounts[|counts|..], chunk);
      CountsJoined(counts, tape.spaceCounts, chunk);
    }

    method FirstMarkCheck(m1: MarkRec)
      modifies `checks
      ensures checks == old(checks) + FirstMarkNotes(m1)
    {
      if m1.lbaBefore.Some? && m1.lbaAfter.Some? {
        Note(PositionAfterMark1, Some(m1.lbaAfter.value - m1.lbaBefore.value == Bit(m1.ok)));
      }
    }

    method SecondMarkCheck(m1: MarkRec, seal: SealRec, m2: MarkRec)
      modifies `checks
      ensures checks == old(checks) + SecondMarkNotes(m1, seal, m2)
    {
      if m1.lbaAfter.Some? && m2.lbaBefore.Some? && m2.lbaAfter.Some? {
        Note(PositionAfterSealAndMark2,
             Some(m2.lbaBefore.value - m1.lbaAfter.value == Bit(seal.ok)
                  && m2.lbaAfter.value - m2.lbaBefore.value == Bit(m2.ok)));
      }
    }

    /** Whether the recorded addresses fit the objects that were accepted. */
    method PositionChecks(start: nat, k: nat, res: Results)
      requires res.slice.Some?
      modifies `checks
      ensures SliceAsBefore(old(checks), checks) && TailAsBefore(old(checks), checks)
      ensures NoFail(checks) <==> NoFail(old(checks)) && PositionsAgree(start, k, res)
      ensures checks == old(checks) + PositionNotes(start, k, res)
    {
      hide NoFail, Passed, PositionsAgree, FirstMarkNotes, SecondMarkNotes;
      PositionsNoted(checks, start, k, res);
      ghost var was := checks;
      var got := res.slice.value.lbaAfter;
      Note(PhysicalBlockCount, if got.None? then None else Some(got.value - start == k));
      FirstMarkCheck(res.mark1);
      SecondMarkCheck(res.mark1, res.seal, res.mark2);
      assert checks == was + PositionNotes(start, k, res);
    }

    /** The LOCATE route; `fallBack` when the LOCATE to the slice fails and auto may space instead. */
    method LocateChecks(n: nat, k: nat, start: nat, res: Results) returns (fallBack: bool)
      requires Valid() && !foundMarkFirst && start == Start(res)
      modifies `buf, `checks, `foundMarkFirst, `afterSliceAsWritten, tape`pos
      ensures fallBack == (k > 0 && asked == Auto && !tape.locates)
      ensures fallBack ==> checks == old(checks) && afterSliceAsWritten == old(afterSliceAsWritten)
      ensures !fallBack ==> (NoFail(checks) <==> NoFail(old(checks)) && LocateClean(ks, tape.rec, tape.locates, n, k, res))
      ensures TailAsBefore(old(checks), checks)
      ensures SlicePass(checks, res) && NotYet(old(checks)) ==> k > 0 && Pinned(ks, tape.rec, start, n, k, res)
      ensures !fallBack && k > 0 && LocateClean(ks, tape.rec, tape.locates, n, k, res) ==> SlicePass(checks, res)
      ensures !fallBack ==> checks == old(checks) + LocateNotes(ks, tape.rec, tape.locates, n, k, res)
      ensures fallBack ==> foundMarkFirst == old(foundMarkFirst)
    {
      hide NoFail, Passed, SliceNotes, WalkNotes, Pinned, LocateClean, FsfNotes, AllBlocks, AsReported, MarkBehind, WalkLocated, FsfLands;
      hide SliceAsBefore, SlicePass, NotYet, TailAsBefore;
      ghost var was := checks;
      LocateNoted(was, ks, tape.rec, tape.locates, n, k, res);
      fallBack := false;
      if k == 0 {
        Note(SliceBlocks, None);
      } else {
        var ok := tape.Seek(start);
        if !ok && asked == Auto {
          fallBack := true;
          NothingNoted(was, res);
          return;
        }
        if ok {
          NotReported(ks, tape.rec, start, n, k, true, res);
          SliceChecks(n, k, res, Some(start));
        } else {
          Note(SliceFirstBlock, Some(false));
        }
        FsfCheck(n, k, start, res.seal);
      }
      HardEndChecks(n + k, res.hardEnd);
      assert checks == was + LocateNotes(ks, tape.rec, tape.locates, n, k, res);
    }

    method RunChecks(res: Results)
      requires ks.Valid() && 0 < chunk <= SPACE_MAX
      requires checks == [] && !foundMarkFirst && !afterSliceAsWritten && tape.spaceCounts == []
      modifies `buf, `checks, `route, `foundMarkFirst, `afterSliceAsWritten, tape`pos, tape`spaceCounts
      ensures checks == Report(ks, tape.rec, tape.bs, tape.locates, asked, tail, res)
      ensures NoFail(checks) <==> tape.bs == ks.bs && Clean(ks, tape.rec, tape.locates, asked, tail, res)
      ensures tape.bs == ks.bs && res.slice.Some? ==>
        route == if TakesLocate(asked, tape.locates, res) then Locate else Spacing
      // nothing is left unchecked
      ensures NoFail(checks) && res.slice.Some? ==>
        && (res.slice.value.accepted > 0 ==> SlicePass(checks, res))
        && (route == Spacing && Tail(tail, res.fillBlocks) > 0 ==> Passed(checks, FillTailBlocks))
      ensures SlicePass(checks, res) ==>
        && res.slice.Some? && res.slice.value.accepted > 0
        && Pinned(ks, tape.rec, SliceAt(route, res), res.fillBlocks, res.slice.value.accepted, res)
      ensures Passed(checks, FillTailBlocks) ==>
        var n := res.fillBlocks;
        && Tail(tail, n) > 0 && TailHolds(ks, tape.rec, n, Tail(tail, n))
        && Chunked(tape.spaceCounts, chunk) && PrefixSums(tape.spaceCounts, n - Tail(tail, n))
    {
      hide NoFail, Passed, Pinned, Clean, Tail, TailHolds, Chunked, PrefixSums, PositionNotes, LocateNotes, SpacingNotes;
      hide LocateClean, SpacingClean, PositionsAgree;
      ReportMeans(ks, tape.rec, tape.bs, tape.locates, asked, tail, res);
      if tape.bs != ks.bs {
        Note(BlockSize, Some(false));
        return;
      }
      if res.slice.None? {
        Note(PostWarningSlice, None);
        return;
      }
      var n, k := res.fillBlocks, res.slice.value.accepted;
      var start := Start(res);
      PositionChecks(start, k, res);
      PositionsMean(start, k, res);
      assert checks == PositionNotes(start, k, res);
      route := if asked != Auto then asked else if res.lba0.None? then Spacing else Locate;
      if route == Locate {
        var fallBack := LocateChecks(n, k, start, res);
        if fallBack {
          route := Spacing;
        }
      }
      if route == Spacing {
        SpacingChecks(n, k, res);
      }
    }
  }
}
