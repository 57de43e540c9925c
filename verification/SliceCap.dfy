/** The slice size a measured post-warning room can still seal. */
module SliceCap {
  import opened Common

  const SEAL_ALLOWANCE: nat := 16 * 1024 * 1024
  const TAPE_BLOCK: nat := 512 * 1024
  const AGE_CHUNK: nat := 64 * 1024
  const AGE_TAG: nat := 16
  const AGE_HEADER_ALLOWANCE: nat := 4096
  const I64_MAX: nat := 0x7fff_ffff_ffff_ffff
  const U64_MAX: nat := 0xffff_ffff_ffff_ffff

  /** Ciphertext of one slice: its bytes, one tag per 64 KiB chunk, and the header. */
  function CipherBytes(slice: nat): nat {
    slice + DivCeil(slice, AGE_CHUNK) * AGE_TAG + AGE_HEADER_ALLOWANCE
  }

  /** Every chunk begun takes one tag more, and nothing else but the bytes themselves grows. */
  lemma TagPerChunk(slice: nat)
    ensures CipherBytes(0) == 4096
    ensures CipherBytes(slice + 1) == CipherBytes(slice) + 1 + if slice % 65536 == 0 then 16 else 0
  {
    var q, r := slice / AGE_CHUNK, slice % AGE_CHUNK;
    assert slice == AGE_CHUNK * q + r;
    if r + 1 == AGE_CHUNK {
      assert slice + 1 == AGE_CHUNK * (q + 1);
    } else {
      assert (slice + 1) / AGE_CHUNK == q && (slice + 1) % AGE_CHUNK == r + 1;
    }
  }

  function BytesOnTape(slice: nat): nat {
    DivCeil(CipherBytes(slice), TAPE_BLOCK) * TAPE_BLOCK
  }

  predicate Fits(slice: nat, budget: nat) {
    BytesOnTape(slice) + SEAL_ALLOWANCE <= budget
  }

  /** What goes on the tape is whole blocks, at least the ciphertext and less than a block over it. */
  lemma OnTapeIsTight(slice: nat)
    ensures BytesOnTape(slice) % 524288 == 0
    ensures slice < CipherBytes(slice) <= BytesOnTape(slice) < CipherBytes(slice) + 524288
  {
    assert slice < CipherBytes(slice);
    hide CipherBytes;
    var c := CipherBytes(slice);
    assert c == TAPE_BLOCK * (c / TAPE_BLOCK) + c % TAPE_BLOCK;
  }

  lemma OnTapeMonotone(a: nat, b: nat)
    requires a <= b
    ensures BytesOnTape(a) <= BytesOnTape(b)
  {
    DivCeilMonotone(a, b, AGE_CHUNK);
    assert CipherBytes(a) <= CipherBytes(b);
    hide CipherBytes;
    DivCeilMonotone(CipherBytes(a), CipherBytes(b), TAPE_BLOCK);
  }

  lemma FitsMonotone(a: nat, b: nat, budget: nat)
    requires a <= b && Fits(b, budget)
    ensures Fits(a, budget)
  {
    OnTapeMonotone(a, b);
  }

  /** No step of the computation leaves 64 bits for a slice size that fits an i64. */
  lemma NoOverflow(slice: nat)
    requires slice <= I64_MAX
    ensures CipherBytes(slice) <= U64_MAX && BytesOnTape(slice) + SEAL_ALLOWANCE <= U64_MAX
  {
    OnTapeIsTight(slice);
    assert DivCeil(slice, AGE_CHUNK) * AGE_TAG <= slice / 4096 + AGE_TAG;
  }

  /** `slice` fits and one byte more does not. */
  ghost predicate IsLargest(slice: nat, budget: nat) {
    slice >= 1 && Fits(slice, budget) && !Fits(slice + 1, budget)
  }

  ghost function Largest(budget: nat): (r: Option<nat>) {
    if exists s: nat :: IsLargest(s, budget) then
      var s: nat :| IsLargest(s, budget);
      Some(s)
    else None
  }

  lemma LargestIsUnique(a: nat, b: nat, budget: nat)
    requires IsLargest(a, budget) && IsLargest(b, budget)
    ensures a == b
  {
    hide BytesOnTape;
    if a < b {
      FitsMonotone(a + 1, b, budget);
    } else if b < a {
      FitsMonotone(b + 1, a, budget);
    }
  }

  lemma LargestIs(budget: nat, r: Option<nat>)
    requires if r.None? then !Fits(1, budget) else IsLargest(r.value, budget)
    ensures Largest(budget) == r
  {
    hide Fits;
    if exists s: nat :: IsLargest(s, budget) {
      var s: nat :| IsLargest(s, budget);
      FitsMonotone(1, s, budget);
      LargestIsUnique(Largest(budget).value, if r.Some? then r.value else s, budget);
    }
  }

  /** The binary search for the largest slice size that fits. */
  method MaxSliceWithin(budget: nat) returns (r: Option<nat>)
    ensures r.None? <==> !Fits(1, budget)
    ensures r.Some? ==> r.value >= 1 && Fits(r.value, budget) && !Fits(r.value + 1, budget)
    ensures r == Largest(budget)
  {
    hide BytesOnTape;
    if budget < BytesOnTape(1) + SEAL_ALLOWANCE {
      LargestIs(budget, None);
      return None;
    }
    var lo, hi := 1, budget;
    OnTapeIsTight(budget + 1);
    while lo < hi
      invariant 1 <= lo <= hi <= budget
      invariant Fits(lo, budget) && !Fits(hi + 1, budget)
      decreases hi - lo
    {
      var mid := lo + DivCeil(hi - lo, 2);
      if BytesOnTape(mid) + SEAL_ALLOWANCE <= budget {
        lo := mid;
      } else {
        hi := mid - 1;
      }
    }
    LargestIs(budget, Some(lo));
    r := Some(lo);
  }

  // ----- the refusal

  /** Each drive's measured room, where it declares one that parses. */
  type Rooms = seq<Option<nat>>

  /** The drive with the smallest measured room, the first of several. */
  function TightestDrive(rooms: Rooms): (d: Option<nat>)
    ensures d.None? <==> forall i :: 0 <= i < |rooms| ==> rooms[i].None?
    ensures d.Some? ==>
      && d.value < |rooms| && rooms[d.value].Some?
      && forall i :: 0 <= i < |rooms| && rooms[i].Some? ==>
           rooms[d.value].value < rooms[i].value || (rooms[d.value].value == rooms[i].value && d.value <= i)
  {
    if rooms == [] then None
    else
      var n := |rooms| - 1;
      var rest := TightestDrive(rooms[..n]);
      if rooms[n].None? then rest
      else if rest.Some? && rooms[rest.value].value <= rooms[n].value then rest
      else Some(n)
  }

  function SmallestRoom(rooms: Rooms): (r: Option<nat>)
    ensures r.None? <==> forall i :: 0 <= i < |rooms| ==> rooms[i].None?
    ensures r.Some? ==> r in rooms && forall i :: 0 <= i < |rooms| && rooms[i].Some? ==> r.value <= rooms[i].value
  {
    var d := TightestDrive(rooms);
    if d.None? then None else rooms[d.value]
  }

  /** The slice size is not refused. */
  predicate CapAccepts(rooms: Rooms, slice: nat) {
    var room := SmallestRoom(rooms);
    room.None? || BytesOnTape(slice) + SEAL_ALLOWANCE <= room.value / 2
  }

  /** An accepted slice size is one that seals within half the room of every measured drive. */
  lemma AcceptedFitsEveryDrive(rooms: Rooms, slice: nat)
    ensures CapAccepts(rooms, slice) <==>
            forall i :: 0 <= i < |rooms| && rooms[i].Some? ==> 2 * (BytesOnTape(slice) + 16777216) <= rooms[i].value
  {
    hide BytesOnTape;
    var room := SmallestRoom(rooms);
    if room.Some? {
      var k :| 0 <= k < |rooms| && rooms[k] == room;
    }
  }

  lemma LargestExists(budget: nat)
    ensures Largest(budget).Some? <==> Fits(1, budget)
    ensures Largest(budget).Some? ==> IsLargest(Largest(budget).value, budget)
  {
    hide BytesOnTape;
    if Fits(1, budget) {
      var s := 1;
      OnTapeIsTight(budget + 1);
      while Fits(s + 1, budget)
        invariant 1 <= s <= budget && Fits(s, budget)
        decreases budget - s
      {
        OnTapeIsTight(s + 1);
        s := s + 1;
      }
      assert IsLargest(s, budget);
    } else if exists s: nat :: IsLargest(s, budget) {
      var s: nat :| IsLargest(s, budget);
      FitsMonotone(1, s, budget);
    }
  }

  /** The check refuses exactly what the advice would lower. */
  lemma AcceptedIffAtMostMaximum(rooms: Rooms, slice: nat)
    requires slice >= 1 && SmallestRoom(rooms).Some?
    ensures var max := Largest(SmallestRoom(rooms).value / 2);
      CapAccepts(rooms, slice) <==> max.Some? && slice <= max.value
  {
    hide BytesOnTape;
    var half := SmallestRoom(rooms).value / 2;
    LargestExists(half);
    var max := Largest(half);
    if max.Some? {
      if slice <= max.value {
        FitsMonotone(slice, max.value, half);
      } else if Fits(slice, half) {
        FitsMonotone(max.value + 1, slice, half);
      }
    } else if Fits(slice, half) {
      FitsMonotone(1, slice, half);
    }
  }

  /** There is no maximum exactly when the seal and one block do not fit. */
  lemma NoMaximumIff(budget: nat)
    ensures Largest(budget).None? <==> budget < 16777216 + 524288
  {
    LargestExists(budget);
    assert BytesOnTape(1) == TAPE_BLOCK;
  }

  /** So the words the refusal has for it, that even the seal alone does not fit, are wrong of
      half a room like this one: the seal alone fits. */
  lemma SealAloneFitsYetNoMaximum()
    ensures SEAL_ALLOWANCE <= 17039360 && Largest(17039360).None?
  {
    NoMaximumIff(17039360);
  }
}
