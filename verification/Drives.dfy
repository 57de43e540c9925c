/** Which configured drive a write uses, whatever order the drives are listed in. */
module Drives {
  import opened Common

  datatype Drive = Drive(name: string, deviceTape: string)

  /** A path's canonical form, where the filesystem has one. */
  type Canonical = string -> Option<string>

  predicate DeviceMatches(configured: string, requested: string, canon: Canonical) {
    configured == requested ||
    (canon(configured).Some? && canon(requested).Some? && canon(configured) == canon(requested))
  }

  /** Two paths match exactly when they are one, or the filesystem has one form for both. */
  lemma MatchingIff(a: string, b: string, canon: Canonical)
    ensures DeviceMatches(a, b, canon) <==> a == b || exists path :: canon(a) == Some(path) && canon(b) == Some(path)
  {
    if canon(a).Some? && canon(a) == canon(b) {
      assert canon(a) == Some(canon(a).value);
    }
  }

  lemma MatchingIsAnEquivalence(a: string, b: string, c: string, canon: Canonical)
    ensures DeviceMatches(a, a, canon)
    ensures DeviceMatches(a, b, canon) <==> DeviceMatches(b, a, canon)
    ensures DeviceMatches(a, b, canon) && DeviceMatches(b, c, canon) ==> DeviceMatches(a, c, canon)
  {
  }

  datatype Problem = SameName(i: nat, j: nat) | SameDevice(i: nat, j: nat)

  ghost predicate IsProblem(p: Problem, drives: seq<Drive>, canon: Canonical) {
    p.i < p.j < |drives| &&
    if p.SameName? then drives[p.i].name == drives[p.j].name
    else DeviceMatches(drives[p.i].deviceTape, drives[p.j].deviceTape, canon)
  }

  /** `p` is found before the comparison of drives i and j. */
  predicate Earlier(p: Problem, i: nat, j: nat) {
    p.i < i || (p.i == i && p.j < j)
  }

  /** Every pair that shares a name or a drive. */
  method AmbiguityProblems(drives: seq<Drive>, canon: Canonical) returns (problems: seq<Problem>)
    ensures forall p :: p in problems <==> IsProblem(p, drives, canon)
  {
    problems := [];
    for i := 0 to |drives|
      invariant forall p :: p in problems <==> IsProblem(p, drives, canon) && p.i < i
    {
      for j := i + 1 to |drives|
        invariant forall p :: p in problems <==> IsProblem(p, drives, canon) && Earlier(p, i, j)
      {
        if drives[i].name == drives[j].name {
          problems := problems + [SameName(i, j)];
        }
        if DeviceMatches(drives[i].deviceTape, drives[j].deviceTape, canon) {
          problems := problems + [SameDevice(i, j)];
        }
      }
    }
  }

  ghost predicate Unambiguous(drives: seq<Drive>, canon: Canonical) {
    forall i, j :: 0 <= i < j < |drives| ==>
      drives[i].name != drives[j].name &&
      !DeviceMatches(drives[i].deviceTape, drives[j].deviceTape, canon)
  }

  datatype Resolved =
    | Use(drive: Drive)
    | Ambiguous | NoSuchDevice | NoDrive | SeveralDrives | BadPairing

  lemma AmbiguityIsProblems(drives: seq<Drive>, canon: Canonical, problems: seq<Problem>)
    requires forall p :: p in problems <==> IsProblem(p, drives, canon)
    ensures problems == [] <==> Unambiguous(drives, canon)
  {
    hide DeviceMatches;
    if problems != [] {
      var p := problems[0];
      assert p in problems;
    }
    forall i, j | 0 <= i < j < |drives| && problems == []
      ensures drives[i].name != drives[j].name && !DeviceMatches(drives[i].deviceTape, drives[j].deviceTape, canon)
    {
      assert SameName(i, j) !in problems && SameDevice(i, j) !in problems;
    }
  }

  /** The entries a requested device matches. */
  ghost function Matching(drives: seq<Drive>, requested: string, canon: Canonical): set<Drive> {
    set d | d in drives && DeviceMatches(d.deviceTape, requested, canon)
  }

  /** Once the list is unambiguous, a requested device matches at most one entry. */
  lemma OnlyOneMatches(drives: seq<Drive>, requested: string, canon: Canonical, i: nat)
    requires Unambiguous(drives, canon) && i < |drives|
    requires DeviceMatches(drives[i].deviceTape, requested, canon)
    ensures forall k :: 0 <= k < |drives| && DeviceMatches(drives[k].deviceTape, requested, canon) ==> k == i
    ensures Matching(drives, requested, canon) == {drives[i]}
  {
    hide DeviceMatches;
    forall k | 0 <= k < |drives| && DeviceMatches(drives[k].deviceTape, requested, canon) ensures k == i {
      MatchingIsAnEquivalence(drives[k].deviceTape, requested, drives[i].deviceTape, canon);
      MatchingIsAnEquivalence(drives[i].deviceTape, requested, drives[k].deviceTape, canon);
    }
  }

  /** The drive by the set of entries alone: no entry's place in the list is consulted. */
  ghost function Resolution(drives: seq<Drive>, device: Option<string>, canon: Canonical, badPairing: Drive -> bool): Resolved {
    if !Unambiguous(drives, canon) then Ambiguous
    else
      var candidates := if device.Some? then Matching(drives, device.value, canon) else set d | d in drives;
      if candidates == {} then (if device.Some? then NoSuchDevice else NoDrive)
      else if d :| d in candidates && candidates == {d} then (if badPairing(d) then BadPairing else Use(d))
      else SeveralDrives
  }

  /** The drive for a write: refuse an ambiguous list, then take the one asked for, or the only one. */
  method Resolve(drives: seq<Drive>, device: Option<string>, canon: Canonical, badPairing: Drive -> bool)
    returns (r: Resolved)
    ensures r == Resolution(drives, device, canon, badPairing)
    ensures r.Use? ==>
      && r.drive in drives && !badPairing(r.drive)
      && (device.Some? ==> forall d :: d in drives ==> (DeviceMatches(d.deviceTape, device.value, canon) <==> d == r.drive))
      && (device.None? ==> drives == [r.drive])
  {
    hide DeviceMatches;
    var problems := AmbiguityProblems(drives, canon);
    AmbiguityIsProblems(drives, canon, problems);
    if problems != [] {
      return Ambiguous;
    }
    var found: Drive;
    if device.Some? {
      var i := 0;
      while i < |drives| && !DeviceMatches(drives[i].deviceTape, device.value, canon)
        invariant 0 <= i <= |drives|
        invariant forall k :: 0 <= k < i ==> !DeviceMatches(drives[k].deviceTape, device.value, canon)
      {
        i := i + 1;
      }
      if i == |drives| {
        assert Matching(drives, device.value, canon) == {};
        return NoSuchDevice;
      }
      found := drives[i];
      OnlyOneMatches(drives, device.value, canon, i);
      assert forall d :: d in drives ==> (d in Matching(drives, device.value, canon) <==> d == found);
    } else if |drives| == 0 {
      return NoDrive;
    } else if |drives| == 1 {
      found := drives[0];
      assert (set d | d in drives) == {found};
    } else {
      assert drives[0].name != drives[1].name;
      ghost var all := set d | d in drives;
      assert drives[0] in all && drives[1] in all;
      assert forall d :: d in all ==> all != {d};
      return SeveralDrives;
    }
    r := if badPairing(found) then BadPairing else Use(found);
  }

  lemma CountTwice(s: seq<Drive>, i: nat, j: nat)
    requires i < j < |s| && s[i] == s[j]
    ensures multiset(s)[s[i]] >= 2
  {
    assert s == s[..j] + [s[j]] + s[j + 1..];
    assert s[i] in s[..j];
  }

  lemma SecondPlace(s: seq<Drive>, p: nat) returns (q: nat)
    requires p < |s| && multiset(s)[s[p]] >= 2
    ensures q < |s| && q != p && s[q] == s[p]
  {
    assert s == s[..p] + [s[p]] + s[p + 1..];
    assert multiset(s)[s[p]] == multiset(s[..p])[s[p]] + 1 + multiset(s[p + 1..])[s[p]];
    if s[p] in s[..p] {
      q :| 0 <= q < p && s[..p][q] == s[p];
    } else {
      assert s[p] in multiset(s[p + 1..]);
      var k :| 0 <= k < |s[p + 1..]| && s[p + 1..][k] == s[p];
      q := p + 1 + k;
    }
  }

  /** Two entries of one list stand at two places of the other, in one order or the other. */
  lemma TwoPlaces(drives: seq<Drive>, other: seq<Drive>, canon: Canonical, i: nat, j: nat)
    requires multiset(drives) == multiset(other) && Unambiguous(drives, canon) && i < j < |other|
    ensures other[i].name != other[j].name && !DeviceMatches(other[i].deviceTape, other[j].deviceTape, canon)
  {
    hide DeviceMatches;
    var a, b := other[i], other[j];
    assert a in multiset(other) && b in multiset(other);
    var p :| 0 <= p < |drives| && drives[p] == a;
    if a == b {
      CountTwice(other, i, j);
      var q := SecondPlace(drives, p);
    } else {
      var q :| 0 <= q < |drives| && drives[q] == b;
      MatchingIsAnEquivalence(a.deviceTape, b.deviceTape, a.deviceTape, canon);
    }
  }

  lemma AmbiguityIgnoresOrder(drives: seq<Drive>, other: seq<Drive>, canon: Canonical)
    requires multiset(drives) == multiset(other) && Unambiguous(drives, canon)
    ensures Unambiguous(other, canon)
  {
    hide DeviceMatches;
    forall i, j | 0 <= i < j < |other|
      ensures other[i].name != other[j].name && !DeviceMatches(other[i].deviceTape, other[j].deviceTape, canon)
    {
      TwoPlaces(drives, other, canon, i, j);
    }
  }

  /** Every reordering of the list resolves to the same drive, or to the same refusal. */
  lemma ResolutionIgnoresOrder(drives: seq<Drive>, other: seq<Drive>, device: Option<string>, canon: Canonical, badPairing: Drive -> bool)
    requires multiset(drives) == multiset(other)
    ensures Resolution(drives, device, canon, badPairing) == Resolution(other, device, canon, badPairing)
  {
    hide DeviceMatches;
    if Unambiguous(drives, canon) {
      AmbiguityIgnoresOrder(drives, other, canon);
    }
    if Unambiguous(other, canon) {
      AmbiguityIgnoresOrder(other, drives, canon);
    }
    hide Unambiguous;
    assert forall d :: d in drives <==> d in multiset(drives);
    assert forall d :: d in other <==> d in multiset(other);
    if device.Some? {
      assert Matching(drives, device.value, canon) == Matching(other, device.value, canon);
    }
    assert (set d | d in drives) == (set d | d in other);
  }
}
