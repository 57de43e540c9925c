/** What one fill run records, and what an honest drive leaves on the tape for it. */
module FillRecord {
  import opened Common
  import opened Tape

  const SEAL_MARKER: string := "LTO6-FILL-SEAL-MARKER"

  /** The file the stream is taken from.  The stream repeats it without end. */
  datatype Keystream = Keystream(bs: nat, blocks: seq<Block>) {
    ghost predicate Valid() {
      bs > 0 && |blocks| > 0 && forall i :: 0 <= i < |blocks| ==> |blocks[i]| == bs
    }

    ghost predicate NeverASeal() {
      forall i :: 0 <= i < |blocks| ==> !(SEAL_MARKER <= blocks[i])
    }

    function At(g: int): (b: Block)
      requires |blocks| > 0
    {
      blocks[g % |blocks|]
    }

    /** Stream blocks g .. g+count-1 as tape records. */
    function Run(g: int, count: nat): (r: seq<Record>)
      requires |blocks| > 0
      ensures |r| == count
    {
      seq(count, i => Data(At(g + i)))
    }
  }

  /** The stream is the file's blocks in order, over and over. */
  lemma {:induction false} StreamRepeatsTheFile(ks: Keystream, times: int, i: nat)
    requires i < |ks.blocks|
    ensures ks.At(times * |ks.blocks| + i) == ks.blocks[i]
  {
    RemainderOf(times, |ks.blocks|, i);
  }

  /** A run from the file's start holds its blocks in order, and one file further on the same again. */
  lemma {:induction false} RunIsTheFile(ks: Keystream, times: nat)
    requires |ks.blocks| > 0
    ensures ks.Run(times * |ks.blocks|, |ks.blocks|) == seq(|ks.blocks|, i requires 0 <= i < |ks.blocks| => Data(ks.blocks[i]))
  {
    forall i | 0 <= i < |ks.blocks| ensures ks.Run(times * |ks.blocks|, |ks.blocks|)[i] == Data(ks.blocks[i]) {
      StreamRepeatsTheFile(ks, times, i);
    }
  }

  // ----- outcomes of write(2)

  datatype Outcome = Ok | Zero | Short(count: nat) | Err(errno: Errno)

  predicate IsRefusal(o: Outcome) {
    o == Err(ENOSPC) || o.Zero?
  }

  datatype Stop =
    | Complete
    | Interrupted
    | RefusalRun(length: nat)
    | ShortCount(count: nat)
    | Errored(errno: Errno)
    | CapReached

  datatype FillEnd = Refusal | Error | Cap | FillInterrupted

  function Refusals(s: seq<Outcome>): (n: nat) {
    if s == [] then 0
    else Refusals(s[..|s| - 1]) + if IsRefusal(s[|s| - 1]) then 1 else 0
  }

  /** The refusals `s` ends with. */
  function TrailingRun(s: seq<Outcome>): (n: nat)
    ensures n <= |s|
  {
    if s == [] || !IsRefusal(s[|s| - 1]) then 0 else TrailingRun(s[..|s| - 1]) + 1
  }

  function LongestRun(s: seq<Outcome>): (n: nat) {
    if s == [] then 0
    else
      var before, here := LongestRun(s[..|s| - 1]), TrailingRun(s);
      if before < here then here else before
  }

  ghost predicate RefusedWindow(s: seq<Outcome>, a: int, b: int) {
    0 <= a <= b <= |s| && forall i :: a <= i < b ==> s[i] == Zero || s[i] == Err(ENOSPC)
  }

  /** A refusal is a write of no bytes or one that says the tape is full. */
  lemma {:induction false} RefusalsCounted(s: seq<Outcome>)
    ensures Refusals(s) == multiset(s)[Zero] + multiset(s)[Err(ENOSPC)]
  {
    if s != [] {
      RefusalsCounted(s[..|s| - 1]);
      assert s == s[..|s| - 1] + [s[|s| - 1]];
    }
  }

  lemma {:induction false} TrailingRunIsMaximal(s: seq<Outcome>)
    ensures RefusedWindow(s, |s| - TrailingRun(s), |s|)
    ensures forall a :: RefusedWindow(s, a, |s|) ==> |s| - a <= TrailingRun(s)
  {
    if s != [] {
      var t := s[..|s| - 1];
      TrailingRunIsMaximal(t);
      forall a | RefusedWindow(s, a, |s|) ensures |s| - a <= TrailingRun(s) {
        if a < |s| {
          assert IsRefusal(s[|s| - 1]);
          assert RefusedWindow(t, a, |t|);
        }
      }
    }
  }

  /** `LongestRun` is the length of some window of consecutive refusals, and no
      such window is longer. */
  lemma {:induction false} LongestRunIsLongest(s: seq<Outcome>)
    ensures exists a, b :: RefusedWindow(s, a, b) && b - a == LongestRun(s)
    ensures forall a, b :: RefusedWindow(s, a, b) ==> b - a <= LongestRun(s)
  {
    if s == [] {
      assert RefusedWindow(s, 0, 0);
    } else {
      var t := s[..|s| - 1];
      LongestRunIsLongest(t);
      TrailingRunIsMaximal(s);
      var a, b :| RefusedWindow(t, a, b) && b - a == LongestRun(t);
      assert RefusedWindow(s, a, b);
      assert RefusedWindow(s, |s| - TrailingRun(s), |s|);
      forall c, d | RefusedWindow(s, c, d) ensures d - c <= LongestRun(s) {
        if d < |s| {
          assert RefusedWindow(t, c, d);
        }
      }
    }
  }

  // ----- run-length lists

  datatype OutcomeRun = OutcomeRun(outcome: Outcome, length: nat)

  function Expand(runs: seq<OutcomeRun>): (s: seq<Outcome>) {
    if runs == [] then []
    else Expand(runs[..|runs| - 1]) + seq(runs[|runs| - 1].length, i => runs[|runs| - 1].outcome)
  }

  ghost predicate Canonical(runs: seq<OutcomeRun>) {
    && (forall i :: 0 <= i < |runs| ==> runs[i].length > 0)
    && (forall i :: 0 < i < |runs| ==> runs[i - 1].outcome != runs[i].outcome)
  }

  // ----- the record of a run

  datatype BlocksRec = BlocksRec(
    firstBlock: nat, accepted: nat, attempts: nat, refusals: nat, longestRun: nat, stop: Stop,
    runs: seq<OutcomeRun>, runCount: nat, totals: map<Outcome, nat>,
    lbaStart: Option<nat>, lbaAfter: Option<nat>)

  datatype MarkRec = MarkRec(
    ok: bool, attempts: seq<Outcome>, positions: seq<Option<nat>>, lbaBefore: Option<nat>, lbaAfter: Option<nat>)

  datatype SealRec = SealRec(
    ok: bool, attempts: seq<Outcome>, positions: seq<Option<nat>>, lbaBefore: Option<nat>, text: string)

  /** A mark or a seal never tried reads as one that was not accepted. */
  const NO_MARK := MarkRec(false, [], [], None, None)

  const NO_SEAL := SealRec(false, [], [], None, "")

  datatype Results = Results(
    lba0: Option<nat>, fillBlocks: nat, slice: Option<BlocksRec>,
    mark1: MarkRec, seal: SealRec, mark2: MarkRec,
    hardEnd: Option<BlocksRec>, bytesPastRefusal: nat)

  function Zeros(n: nat): (z: string)
    ensures |z| == n
  {
    seq(n, i => '\0')
  }

  /** A header, zero-padded to a block. */
  function Padded(text: string, bs: nat): (b: Block)
    requires |text| <= bs
    ensures |b| == bs
  {
    text + Zeros(bs - |text|)
  }

  /** The bytes before the first NUL. */
  function Head(raw: Block): (h: string)
    ensures h <= raw && '\0' !in h
    ensures |h| < |raw| ==> raw[|h|] == '\0'
  {
    if raw == "" || raw[0] == '\0' then ""
    else
      var t := Head(raw[1..]);
      [raw[0]] + t
  }

  /** Splitting a zero-padded block at its first NUL gives its text back. */
  lemma {:induction false} HeadOfPadded(text: string, bs: nat)
    requires |text| <= bs && '\0' !in text
    ensures Head(Padded(text, bs)) == text
  {
    if text != "" {
      HeadOfPadded(text[1..], bs - 1);
      assert Padded(text, bs)[1..] == Padded(text[1..], bs - 1);
    }
  }

  /** A block that splits into `text` and NULs alone is the zero-padded `text`. */
  lemma PaddedOfHead(raw: Block, text: string)
    requires Head(raw) == text && forall i :: |text| <= i < |raw| ==> raw[i] == '\0'
    ensures raw == Padded(text, |raw|)
  {
  }

  ghost predicate SealText(text: string, bs: nat) {
    SEAL_MARKER <= text && '\0' !in text && |text| <= bs
  }

  /** What the writer was told it wrote after the slice. */
  ghost function Objects(bs: nat, res: Results): seq<Record>
    requires res.seal.ok ==> |res.seal.text| <= bs
  {
    (if res.mark1.ok then [Mark] else [])
    + (if res.seal.ok then [Data(Padded(res.seal.text, bs))] else [])
    + (if res.mark2.ok then [Mark] else [])
  }

  function HardEndAccepted(res: Results): nat {
    if res.hardEnd.Some? then res.hardEnd.value.accepted else 0
  }

  /** A recorded position, where READ POSITION answered. */
  predicate Says(lba: Option<nat>, at: int) {
    lba.Some? ==> lba.value == at
  }

  function Bit(b: bool): nat {
    if b then 1 else 0
  }

  ghost predicate PositionsRight(at: nat, res: Results) {
    var a1 := at + Bit(res.mark1.ok);
    var a2 := a1 + Bit(res.seal.ok);
    var a3 := a2 + Bit(res.mark2.ok);
    && Says(res.mark1.lbaBefore, at) && Says(res.mark1.lbaAfter, a1)
    && Says(res.mark2.lbaBefore, a2) && Says(res.mark2.lbaAfter, a3)
    && (res.hardEnd.Some? ==>
          && Says(res.hardEnd.value.lbaStart, a3)
          && Says(res.hardEnd.value.lbaAfter, a3 + res.hardEnd.value.accepted))
  }

  /** The tape holds exactly what the record claims, and every recorded position is right. */
  ghost predicate AsWritten(ks: Keystream, rec: seq<Record>, res: Results)
    requires ks.Valid()
  {
    && Says(res.lba0, 0)
    && (res.slice.None? ==> rec == ks.Run(0, res.fillBlocks))
    && (res.slice.Some? ==>
          var n, k, h := res.fillBlocks, res.slice.value.accepted, HardEndAccepted(res);
          && (res.seal.ok ==> SealText(res.seal.text, ks.bs))
          && rec == ks.Run(0, n + k) + Objects(ks.bs, res) + ks.Run(n + k, h)
          && Says(res.slice.value.lbaAfter, n + k)
          && PositionsRight(n + k, res))
  }
}
