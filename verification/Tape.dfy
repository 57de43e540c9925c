/** The in-memory tape: a sequence of records, a head, and a drive whose every
    verdict comes from an oracle given at construction.  A byte is a `char`. */
module Tape {
  import opened Common

  type Block = string

  datatype Errno = ENOSPC | EIO | OtherErrno(code: int)

  datatype Record = Mark | Data(bytes: Block)

  /** What the drive does with one write(2). */
  datatype WriteVerdict =
    | Accept                  // reported written, and on the tape
    | Drop                    // a success to the caller, nothing on the tape
    | RefuseKept              // refused with ENOSPC, but the block is on the tape
    | Count(n: nat)           // a byte count is returned, nothing is on the tape
    | FailWrite(werr: Errno)  // an errno is raised, nothing is on the tape

  /** What the drive does with one filemark command. */
  datatype MarkVerdict =
    | AcceptMark
    | FailMark(merr: Errno)
    | FailMarkKept(merr: Errno)  // an error to the caller, a mark on the tape

  datatype Written = WroteBytes(wrote: nat) | Raised(err: Errno)

  /** The largest count one SPACE command can carry. */
  const SPACE_MAX: nat := 8388607

  function DataCount(rec: seq<Record>): nat {
    if rec == [] then 0
    else DataCount(rec[..|rec| - 1]) + (if rec[|rec| - 1].Data? then 1 else 0)
  }

  /** The drive appends exactly once when it reports success and leaves the
      tape alone otherwise. */
  predicate HonestWrite(v: WriteVerdict, bs: nat) {
    v.Accept? || v.FailWrite? || (v.Count? && v.n != bs)
  }

  predicate HonestMark(v: MarkVerdict) {
    !v.FailMarkKept?
  }

  ghost predicate WritesHonestly(verdict: (nat, nat) -> WriteVerdict, bs: nat) {
    forall a: nat, w: nat :: HonestWrite(verdict(a, w), bs)
  }

  ghost predicate MarksHonestly(markVerdict: nat -> MarkVerdict) {
    forall a: nat :: HonestMark(markVerdict(a))
  }

  ghost predicate HonestDrive(verdict: (nat, nat) -> WriteVerdict, markVerdict: nat -> MarkVerdict, bs: nat) {
    WritesHonestly(verdict, bs) && MarksHonestly(markVerdict)
  }

  /** A write the drive reports as a success is on the tape. */
  predicate KeepsAccepted(v: WriteVerdict, bs: nat) {
    !v.Drop? && !(v.Count? && v.n == bs)
  }

  ghost predicate DropsNothing(verdict: (nat, nat) -> WriteVerdict, bs: nat) {
    forall a: nat, w: nat :: KeepsAccepted(verdict(a, w), bs)
  }

  ghost predicate AllData(rec: seq<Record>, from: nat, to: nat) {
    to <= |rec| && forall i :: from <= i < to ==> rec[i].Data?
  }

  /** Just past the first mark at or after `p`; the end of data when there is none. */
  ghost function AfterMark(rec: seq<Record>, p: nat): (q: nat)
    ensures q <= |rec|
    decreases |rec| - p
  {
    if p >= |rec| then |rec| else if rec[p].Mark? then p + 1 else AfterMark(rec, p + 1)
  }

  class FakeTape {
    const bs: nat
    const verdict: (nat, nat) -> WriteVerdict  // by attempt number and data blocks on the tape
    const markVerdict: nat -> MarkVerdict      // by attempt number
    const answers: nat -> bool                 // whether the i-th READ POSITION answers
    const locates: bool                        // whether LOCATE works

    var rec: seq<Record>
    var pos: nat
    var attempts: nat
    var markAttempts: nat
    var posCalls: nat
    var spaceCounts: seq<nat>

    constructor (bs: nat, verdict: (nat, nat) -> WriteVerdict, markVerdict: nat -> MarkVerdict,
                 answers: nat -> bool, locates: bool)
      ensures this.bs == bs && this.verdict == verdict && this.markVerdict == markVerdict
      ensures this.answers == answers && this.locates == locates
      ensures rec == [] && pos == 0 && attempts == 0 && markAttempts == 0 && posCalls == 0 && spaceCounts == []
    {
      this.bs, this.verdict, this.markVerdict := bs, verdict, markVerdict;
      this.answers, this.locates := answers, locates;
      rec, pos, attempts, markAttempts, posCalls, spaceCounts := [], 0, 0, 0, 0, [];
    }

    /** A tape found as it is, to be read back. */
    constructor Found(bs: nat, rec: seq<Record>, locates: bool)
      ensures this.bs == bs && this.rec == rec && this.locates == locates
      ensures pos == 0 && attempts == 0 && markAttempts == 0 && posCalls == 0 && spaceCounts == []
    {
      this.bs, this.verdict, this.markVerdict := bs, (a, w) => FailWrite(EIO), a => FailMark(EIO);
      this.answers, this.locates := a => false, locates;
      this.rec, pos, attempts, markAttempts, posCalls, spaceCounts := rec, 0, 0, 0, 0, [];
    }

    ghost predicate HonestWrites() {
      WritesHonestly(verdict, bs)
    }

    ghost predicate HonestMarks() {
      MarksHonestly(markVerdict)
    }

    ghost predicate NeverDrops() {
      DropsNothing(verdict, bs)
    }

    ghost predicate PositionsAnswer() {
      forall i: nat :: answers(i)
    }

    method Put(item: Record)
      requires pos <= |rec|
      modifies `rec, `pos
      ensures rec == old(rec[..pos]) + [item] && pos == |rec|
    {
      rec := rec[..pos];
      rec := rec + [item];
      pos := pos + 1;
    }

    method Write(buf: Block) returns (r: Written)
      requires pos <= |rec|
      modifies `rec, `pos, `attempts
      ensures attempts == old(attempts) + 1
      ensures var v := verdict(old(attempts) + 1, DataCount(old(rec)));
        && r == (match v
                 case Accept => WroteBytes(|buf|)
                 case Drop => WroteBytes(|buf|)
                 case RefuseKept => Raised(ENOSPC)
                 case Count(n) => WroteBytes(n)
                 case FailWrite(e) => Raised(e))
        && (if v.Accept? || v.RefuseKept?
            then rec == old(rec[..pos]) + [Data(buf)] && pos == |rec|
            else rec == old(rec) && pos == old(pos))
    {
      attempts := attempts + 1;
      match verdict(attempts, DataCount(rec)) {
        case Accept =>
          Put(Data(buf));
          r := WroteBytes(|buf|);
        case RefuseKept =>
          Put(Data(buf));
          r := Raised(ENOSPC);
        case Drop =>
          r := WroteBytes(|buf|);
        case Count(n) =>
          r := WroteBytes(n);
        case FailWrite(e) =>
          r := Raised(e);
      }
    }

    method WriteMark() returns (err: Option<Errno>)
      requires pos <= |rec|
      modifies `rec, `pos, `markAttempts
      ensures markAttempts == old(markAttempts) + 1
      ensures var v := markVerdict(old(markAttempts) + 1);
        && err == (if v.AcceptMark? then None else Some(v.merr))
        && (if v.FailMark? then rec == old(rec) && pos == old(pos)
            else rec == old(rec[..pos]) + [Mark] && pos == |rec|)
    {
      markAttempts := markAttempts + 1;
      match markVerdict(markAttempts) {
        case AcceptMark =>
          Put(Mark);
          err := None;
        case FailMarkKept(e) =>
          Put(Mark);
          err := Some(e);
        case FailMark(e) =>
          err := Some(e);
      }
    }

    method ReadPosition() returns (p: Option<nat>)
      modifies `posCalls
      ensures posCalls == old(posCalls) + 1
      ensures p == if answers(old(posCalls)) then Some(pos) else None
    {
      p := if answers(posCalls) then Some(pos) else None;
      posCalls := posCalls + 1;
    }

    /** LOCATE.  An address below zero is refused. */
    method Seek(address: int) returns (ok: bool)
      modifies `pos
      ensures ok == (locates && address >= 0)
      ensures pos == if ok then address else old(pos)
    {
      ok := locates && address >= 0;
      if ok {
        pos := address;
      }
    }

    method Rewind()
      modifies `pos
      ensures pos == 0
    {
      pos := 0;
    }

    /** SPACE one filemark forward: past the next mark, or to the end of data. */
    method SpaceMark()
      modifies `pos
      ensures pos == AfterMark(rec, old(pos))
    {
      while pos < |rec| && rec[pos].Data?
        invariant AfterMark(rec, pos) == AfterMark(rec, old(pos))
      {
        pos := pos + 1;
      }
      pos := if pos + 1 < |rec| then pos + 1 else |rec|;
    }

    /** SPACE blocks forward.  A mark stops it, and so does the end of data; the head is then past the mark, or at that end. */
    method SpaceBlocks(count: nat) returns (ok: bool)
      requires 0 < count <= SPACE_MAX
      modifies `pos, `spaceCounts
      ensures ok <==> AllData(rec, old(pos), old(pos) + count)
      ensures ok ==> pos == old(pos) + count
      ensures !ok ==> pos == if old(pos) >= |rec| then old(pos) else AfterMark(rec, old(pos))
      ensures spaceCounts == old(spaceCounts) + [count]
    {
      spaceCounts := spaceCounts + [count];
      var i := 0;
      while i < count
        invariant 0 <= i <= count && pos == old(pos) + i
        invariant i > 0 ==> pos <= |rec|
        invariant spaceCounts == old(spaceCounts) + [count]
        invariant forall j :: old(pos) <= j < pos ==> j < |rec| && rec[j].Data?
        invariant i > 0 ==> AfterMark(rec, pos) == AfterMark(rec, old(pos))
      {
        if pos >= |rec| {
          return false;
        }
        pos := pos + 1;
        if rec[pos - 1].Mark? {
          return false;
        }
        i := i + 1;
      }
      ok := true;
    }

    /** One read(2): None is the EIO of a blank check at the end of data. */
    method Read() returns (r: Option<Record>)
      modifies `pos
      ensures old(pos) >= |rec| ==> r == None && pos == old(pos)
      ensures old(pos) < |rec| ==> r == Some(rec[old(pos)]) && pos == old(pos) + 1
    {
      if pos >= |rec| {
        return None;
      }
      r := Some(rec[pos]);
      pos := pos + 1;
    }
  }
}
