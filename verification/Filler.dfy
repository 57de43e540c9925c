/** The acceptance run's filler: one staged slice given many rows, renumbered in
    place under a uniqueness constraint. */
module Filler {
  import opened Common

  datatype Row = Row(number: int, sizeBytes: nat, encryptedBytes: nat, hash: string, path: string)

  /** Whole blocks, the fewest that hold the bytes. */
  function Padded(bytes: nat, block: nat): (p: nat)
    requires block > 0
    ensures bytes <= p < bytes + block && exists q: nat :: p == q * block
  {
    DivCeil(bytes, block) * block
  }

  // ----- how many copies

  datatype Copies = Copy(n: nat) | NoRoom | NoFullSlice | TooFew

  function PlanEnd(fixed: nat, copies: nat, slice: nat): nat {
    fixed + copies * slice
  }

  /** `--plan-end`: as many full slices as end at or before it. */
  function CopiesForEnd(end: nat, fixed: nat, slice: nat): (c: Copies)
    requires slice > 0
    ensures c.Copy? ==> c.n >= 1 && PlanEnd(fixed, c.n, slice) <= end < PlanEnd(fixed, c.n + 1, slice)
    ensures c.Copy? <==> PlanEnd(fixed, 1, slice) <= end
    ensures c.NoRoom? <==> end <= fixed
  {
    if end <= fixed then NoRoom
    else
      var n := (end - fixed) / slice;
      assert n * slice <= end - fixed < (n + 1) * slice by {
        assert (n + 1) * slice == n * slice + slice;
      }
      assert n >= 1 <==> end - fixed >= slice by {
        if n >= 1 {
          assert n * slice >= slice;
        } else {
          assert n * slice == 0;
        }
      }
      if n < 1 then NoFullSlice else Copy(n)
  }

  /** `--slices`: so that the set has n in all. */
  function CopiesForSlices(n: nat, rows: nat): (c: Copies)
    requires rows >= 1
    ensures c.Copy? <==> rows <= n
    ensures c.Copy? ==> c.n >= 1 && c.n + (rows - 1) == n
  {
    if n < rows then TooFew else Copy(n - (rows - 1))
  }

  datatype Slice = Slice(unit: string, encryptedBytes: nat)

  /** The padded bytes of the slices whose unit satisfies `which`. */
  ghost function SumWhere(slices: seq<Slice>, which: string -> bool, block: nat): nat
    requires block > 0
  {
    if slices == [] then 0
    else
      var last := slices[|slices| - 1];
      SumWhere(slices[..|slices| - 1], which, block) + if which(last.unit) then Padded(last.encryptedBytes, block) else 0
  }

  method BeforeAndAfter(others: seq<Slice>, sortsBefore: string -> bool, block: nat) returns (before: nat, after: nat)
    requires block > 0
    ensures before == SumWhere(others, sortsBefore, block)
    ensures after == SumWhere(others, u => !sortsBefore(u), block)
    ensures before + after == SumWhere(others, u => true, block)
  {
    hide Padded;
    before, after := 0, 0;
    for i := 0 to |others|
      invariant before == SumWhere(others[..i], sortsBefore, block)
      invariant after == SumWhere(others[..i], u => !sortsBefore(u), block)
      invariant before + after == SumWhere(others[..i], u => true, block)
    {
      assert others[..i + 1][..i] == others[..i];
      var p := Padded(others[i].encryptedBytes, block);
      if sortsBefore(others[i].unit) {
        before := before + p;
      } else {
        after := after + p;
      }
    }
    assert others[..|others|] == others;
  }

  // ----- the transaction

  ghost predicate UniqueNumbers(rows: seq<Row>) {
    forall i, j :: 0 <= i < j < |rows| ==> rows[i].number != rows[j].number
  }

  ghost predicate InSliceOrder(rows: seq<Row>) {
    forall i, j :: 0 <= i < j < |rows| ==> rows[i].number < rows[j].number
  }

  /** The rows once those from place i on have moved. */
  ghost function Shifted(rows: seq<Row>, i: nat, shift: int): (r: seq<Row>)
    ensures |r| == |rows|
  {
    seq(|rows|, k requires 0 <= k < |rows| =>
      if k < i then rows[k] else rows[k].(number := rows[k].number + shift))
  }

  /** Rows of slice 1 under the numbers from 2 on. */
  ghost function Copied(template: Row, count: nat, shared: string): (r: seq<Row>)
    ensures |r| == count
  {
    seq(count, k => template.(number := k + 2, path := shared))
  }

  /** Slice 1 names the shared file, the later slices follow the copies, and every number between is slice 1 again. */
  ghost function Filled(rows: seq<Row>, copies: nat, shared: string): seq<Row>
    requires rows != [] && copies >= 1
  {
    [rows[0].(path := shared)] + Shifted(rows, 1, copies - 1)[1..] + Copied(rows[0], copies - 1, shared)
  }

  /** One stage set's slice rows, listed in slice order when the transaction begins; a row is known by
      its place.  A statement that would hold a number twice cannot be issued. */
  class SliceTable {
    var rows: seq<Row>

    ghost predicate Valid()
      reads this
    {
      UniqueNumbers(rows)
    }

    constructor (rows: seq<Row>)
      requires InSliceOrder(rows)
      ensures Valid() && this.rows == rows
    {
      this.rows := rows;
    }

    method Renumber(i: nat, number: int)
      requires Valid() && i < |rows|
      requires forall j :: 0 <= j < |rows| && j != i ==> rows[j].number != number
      modifies `rows
      ensures Valid() && rows == old(rows)[i := old(rows)[i].(number := number)]
    {
      rows := rows[i := rows[i].(number := number)];
    }

    method SetPath(i: nat, path: string)
      requires Valid() && i < |rows|
      modifies `rows
      ensures Valid() && rows == old(rows)[i := old(rows)[i].(path := path)]
    {
      rows := rows[i := rows[i].(path := path)];
    }

    method Insert(row: Row)
      requires Valid()
      requires forall j :: 0 <= j < |rows| ==> rows[j].number != row.number
      modifies `rows
      ensures Valid() && rows == old(rows) + [row]
    {
      rows := rows + [row];
    }

    /** Move the set's later slices past the copies, highest first, then insert the copies. */
    method Fill(copies: nat, shared: string)
      requires Valid() && InSliceOrder(rows) && rows != [] && rows[0].number == 1 && copies >= 1
      modifies `rows
      ensures Valid() && rows == Filled(old(rows), copies, shared)
    {
      ghost var start := rows;
      var shift := copies - 1;
      var i := |rows|;
      while i > 1
        invariant 1 <= i <= |start| && Valid() && rows == Shifted(start, i, shift)
        decreases i
      {
        i := i - 1;
        assert start[i].number >= 1;
        Renumber(i, rows[i].number + shift);
        assert rows == Shifted(start, i, shift);
      }
      var template := rows[0];
      SetPath(0, shared);
      ghost var base := rows;
      var n := 2;
      while n <= copies
        invariant 2 <= n <= copies + 1 && Valid()
        invariant rows == base + Copied(template, n - 2, shared)
      {
        Insert(template.(number := n, path := shared));
        assert rows == base + Copied(template, n - 1, shared);
        n := n + 1;
      }
      assert rows == Filled(start, copies, shared);
    }
  }

  /** Rows numbered 1 to r end up as rows numbered 1 to r + copies - 1, every number held once. */
  lemma NumbersFilled(rows: seq<Row>, copies: nat, shared: string, n: int)
    requires rows != [] && copies >= 1
    requires forall i :: 0 <= i < |rows| ==> rows[i].number == i + 1
    ensures var after, total := Filled(rows, copies, shared), copies + |rows| - 1;
      && |after| == total
      && UniqueNumbers(after)
      && ((exists i :: 0 <= i < |after| && after[i].number == n) <==> 1 <= n <= total)
  {
    var after := Filled(rows, copies, shared);
    assert forall i :: 0 <= i < |after| ==>
      after[i].number == if i == 0 then 1 else if i < |rows| then i + copies else i - |rows| + 2;
    if 1 <= n <= |after| {
      var i := if n == 1 then 0 else if n <= copies then |rows| + n - 2 else n - copies;
      assert after[i].number == n;
    }
  }

  /** `--slices n` is refused exactly when the set has more already; else the set ends with slices 1 to n, each once. */
  lemma SlicesAskedFor(n: nat, rows: seq<Row>, shared: string, m: int)
    requires rows != [] && forall i :: 0 <= i < |rows| ==> rows[i].number == i + 1
    ensures var c := CopiesForSlices(n, |rows|);
      && (c.TooFew? <==> n < |rows|)
      && (!c.TooFew? ==>
            && c.Copy? && c.n >= 1
            && var after := Filled(rows, c.n, shared);
               && UniqueNumbers(after)
               && ((exists i :: 0 <= i < |after| && after[i].number == m) <==> 1 <= m <= n))
  {
    var c := CopiesForSlices(n, |rows|);
    if c.Copy? {
      NumbersFilled(rows, c.n, shared, m);
    }
  }

  ghost function PaddedSum(rows: seq<Row>, block: nat): nat
    requires block > 0
  {
    if rows == [] then 0 else PaddedSum(rows[..|rows| - 1], block) + Padded(rows[|rows| - 1].encryptedBytes, block)
  }

  /** The bytes the plan was sized by are those of the rows the table ends with. */
  lemma {:induction false} CopiedBytes(template: Row, count: nat, shared: string, block: nat)
    requires block > 0
    ensures PaddedSum(Copied(template, count, shared), block) == count * Padded(template.encryptedBytes, block)
  {
    hide Padded;
    if count > 0 {
      CopiedBytes(template, count - 1, shared, block);
      assert Copied(template, count, shared)[..count - 1] == Copied(template, count - 1, shared);
    }
  }

  lemma {:induction false} PaddedSumJoins(a: seq<Row>, b: seq<Row>, block: nat)
    requires block > 0
    ensures PaddedSum(a + b, block) == PaddedSum(a, block) + PaddedSum(b, block)
  {
    hide Padded;
    if b == [] {
      assert a + b == a;
    } else {
      PaddedSumJoins(a, b[..|b| - 1], block);
      assert (a + b)[..|a + b| - 1] == a + b[..|b| - 1];
    }
  }

  lemma {:induction false} SameBytes(a: seq<Row>, b: seq<Row>, block: nat)
    requires block > 0 && |a| == |b| && forall i :: 0 <= i < |a| ==> a[i].encryptedBytes == b[i].encryptedBytes
    ensures PaddedSum(a, block) == PaddedSum(b, block)
  {
    if a != [] {
      SameBytes(a[..|a| - 1], b[..|b| - 1], block);
    }
  }

  lemma {:induction false} FirstAndRest(rows: seq<Row>, block: nat)
    requires rows != [] && block > 0
    ensures PaddedSum(rows, block) == Padded(rows[0].encryptedBytes, block) + PaddedSum(rows[1..], block)
  {
    hide Padded;
    assert rows == [rows[0]] + rows[1..];
    PaddedSumJoins([rows[0]], rows[1..], block);
    assert [rows[0]][..0] == [];
  }

  /** Slice 1 and the later slices take the same bytes under their new paths and numbers. */
  lemma {:induction false} OwnBytes(rows: seq<Row>, shift: nat, shared: string, block: nat)
    requires rows != [] && block > 0
    ensures PaddedSum([rows[0].(path := shared)] + Shifted(rows, 1, shift)[1..], block) == PaddedSum(rows, block)
  {
    SameBytes([rows[0].(path := shared)] + Shifted(rows, 1, shift)[1..], rows, block);
  }

  /** The filled set takes what the plan counted: `copies` full slices and the set's own later ones. */
  lemma {:induction false} FilledBytes(rows: seq<Row>, copies: nat, shared: string, block: nat)
    requires rows != [] && copies >= 1 && block > 0
    ensures PaddedSum(Filled(rows, copies, shared), block) ==
            PlanEnd(PaddedSum(rows[1..], block), copies, Padded(rows[0].encryptedBytes, block))
  {
    hide Padded, PaddedSum, Shifted, Copied;
    PaddedSumJoins([rows[0].(path := shared)] + Shifted(rows, 1, copies - 1)[1..], Copied(rows[0], copies - 1, shared), block);
    CopiedBytes(rows[0], copies - 1, shared, block);
    OwnBytes(rows, copies - 1, shared, block);
    FirstAndRest(rows, block);
    var t := Padded(rows[0].encryptedBytes, block);
    assert copies * t == (copies - 1) * t + t;
  }

  /** With `--plan-end`, the rows the table ends with keep the plan at or before the end asked for,
      and one slice more would pass it. */
  lemma PlanEndIsTight(end: nat, rest: nat, rows: seq<Row>, shared: string, block: nat)
    requires rows != [] && block > 0 && rows[0].encryptedBytes > 0
    ensures var slice := Padded(rows[0].encryptedBytes, block);
      var c := CopiesForEnd(end, rest + PaddedSum(rows[1..], block), slice);
      c.Copy? ==>
        var planned := rest + PaddedSum(Filled(rows, c.n, shared), block);
        planned <= end < planned + slice
  {
    var slice := Padded(rows[0].encryptedBytes, block);
    hide Padded;
    var fixed := rest + PaddedSum(rows[1..], block);
    var c := CopiesForEnd(end, fixed, slice);
    if c.Copy? {
      FilledBytes(rows, c.n, shared, block);
      assert (c.n + 1) * slice == c.n * slice + slice;
    }
  }
}
