/** Dotted configuration keys: `collections[movies].root`. */
module KeyPath {
  import opened Common

  datatype Selector = Index(i: nat) | Name(n: string)

  datatype Seg = Seg(key: string, select: Option<Selector>)

  datatype KeyError = BadChar(c: char) | EmptyName | NotClosed | EmptySelector | AfterSelector(c: char)

  datatype Parsed = Segs(segs: seq<Seg>) | Refused(error: KeyError)

  const USIZE_MAX: nat := 0xffff_ffff_ffff_ffff

  // ----- numbers

  predicate IsDigit(c: char) {
    '0' <= c <= '9'
  }

  predicate AllDigits(s: string) {
    forall i :: 0 <= i < |s| ==> IsDigit(s[i])
  }

  function Value(s: string): (v: nat)
    requires AllDigits(s)
  {
    if s == "" then 0 else Value(s[..|s| - 1]) * 10 + (s[|s| - 1] - '0') as nat
  }

  function Decimal(n: nat): (s: string)
    ensures s != "" && AllDigits(s)
  {
    if n < 10 then ['0' + n as char] else Decimal(n / 10) + ['0' + (n % 10) as char]
  }

  lemma {:induction false} ValueOfDecimal(n: nat)
    ensures Value(Decimal(n)) == n
  {
    if n >= 10 {
      ValueOfDecimal(n / 10);
      assert Decimal(n)[..|Decimal(n)| - 1] == Decimal(n / 10);
    }
  }

  // ----- the printer

  function PrintSelector(sel: Selector): string {
    match sel
    case Index(i) => Decimal(i)
    case Name(n) => n
  }

  function PrintSeg(seg: Seg): string {
    match seg.select
    case None => seg.key
    case Some(sel) => seg.key + "[" + PrintSelector(sel) + "]"
  }

  function Dotted(segs: seq<Seg>): string {
    if segs == [] then ""
    else if |segs| == 1 then PrintSeg(segs[0])
    else PrintSeg(segs[0]) + "." + Dotted(segs[1..])
  }

  // ----- the parser

  predicate IsKeyChar(c: char) {
    'a' <= c <= 'z' || 'A' <= c <= 'Z' || IsDigit(c) || c == '_' || c == '-'
  }

  /** The letters and digits of ASCII, the underscore and the dash. */
  lemma KeyChars(c: char)
    ensures IsKeyChar(c) <==>
      c == '_' || c == '-' || 48 <= c as int < 58 || 65 <= c as int < 91 || 97 <= c as int < 123
  {
  }

  predicate AllKeyChars(s: string) {
    forall i :: 0 <= i < |s| ==> IsKeyChar(s[i])
  }

  /** How many key characters `s` begins with. */
  function KeyLength(s: string): (n: nat)
    ensures n <= |s| && AllKeyChars(s[..n]) && (n < |s| ==> !IsKeyChar(s[n]))
  {
    if s == "" || !IsKeyChar(s[0]) then 0
    else
      assert forall i :: 0 < i <= KeyLength(s[1..]) ==> s[i - 1 + 1] == s[i];
      1 + KeyLength(s[1..])
  }

  /** Where the selector that `s` begins with closes; |s| when it does not. */
  function CloseAt(s: string): (n: nat)
    ensures n <= |s| && ']' !in s[..n] && (n < |s| ==> s[n] == ']')
  {
    if s == "" || s[0] == ']' then 0
    else
      assert s[..1 + CloseAt(s[1..])] == [s[0]] + s[1..][..CloseAt(s[1..])];
      1 + CloseAt(s[1..])
  }

  /** A selector of digits alone that a usize holds is a position; anything else is a name. */
  function SelectorOf(inner: string): Selector {
    if inner != "" && AllDigits(inner) && Value(inner) <= USIZE_MAX then Index(Value(inner)) else Name(inner)
  }

  lemma {:induction false} LeadingZero(s: string)
    requires AllDigits(s)
    ensures AllDigits("0" + s) && Value("0" + s) == Value(s)
  {
    if s == "" {
      assert "0"[..0] == "";
    } else {
      LeadingZero(s[..|s| - 1]);
      assert ("0" + s)[..|s|] == "0" + s[..|s| - 1];
    }
  }

  /** Leading zeros make no other position, and digits a usize cannot hold are a name as written. */
  lemma SelectorOfDigits(s: string)
    requires s != "" && AllDigits(s)
    ensures Value(s) <= USIZE_MAX ==> SelectorOf(s) == SelectorOf("0" + s) == SelectorOf(Decimal(Value(s))) == Index(Value(s))
    ensures Value(s) > USIZE_MAX ==> SelectorOf(s) == Name(s)
  {
    LeadingZero(s);
    ValueOfDecimal(Value(s));
  }

  /** The segment `s` begins with, and what is left after it. */
  datatype OneSeg = OneSeg(seg: Seg, rest: string) | BadSeg(error: KeyError)

  function ParseSeg(s: string): (r: OneSeg)
    ensures r.OneSeg? ==> |r.rest| < |s|
  {
    var n := KeyLength(s);
    if n < |s| && s[n] != '.' && s[n] != '[' then BadSeg(BadChar(s[n]))
    else if n == 0 then BadSeg(EmptyName)
    else if n == |s| || s[n] == '.' then OneSeg(Seg(s[..n], None), s[n..])
    else
      var c := CloseAt(s[n + 1..]);
      if c == |s| - n - 1 then BadSeg(NotClosed)
      else if c == 0 then BadSeg(EmptySelector)
      else OneSeg(Seg(s[..n], Some(SelectorOf(s[n + 1..n + 1 + c]))), s[n + c + 2..])
  }

  function Parse(s: string): (r: Parsed)
    decreases |s|
  {
    match ParseSeg(s)
    case BadSeg(e) => Refused(e)
    case OneSeg(seg, rest) =>
      if rest == "" then Segs([seg])
      else if rest[0] != '.' then Refused(AfterSelector(rest[0]))
      else
        match Parse(rest[1..])
        case Refused(e) => Refused(e)
        case Segs(more) => Segs([seg] + more)
  }

  /** The key name at `at`: its end, and whether a character there cannot appear in a name. */
  method ScanName(key: string, at: nat) returns (name: string, i: nat, bad: bool)
    requires at <= |key|
    ensures i == at + KeyLength(key[at..]) <= |key| && name == key[at..i]
    ensures bad == (i < |key| && key[i] != '.' && key[i] != '[')
  {
    name, i, bad := "", at, false;
    while i < |key| && key[i] != '.' && key[i] != '['
      invariant at <= i <= |key| && name == key[at..i] && !bad
      invariant KeyLength(key[at..]) == i - at + KeyLength(key[i..])
    {
      if !IsKeyChar(key[i]) {
        bad := true;
        return;
      }
      assert key[i..][1..] == key[i + 1..];
      name := name + [key[i]];
      i := i + 1;
    }
  }

  /** The selector's text from `at` up to its ']', or to the end when none closes it. */
  method ScanSelector(key: string, at: nat) returns (inner: string, i: nat)
    requires at <= |key|
    ensures i == at + CloseAt(key[at..]) <= |key| && inner == key[at..i]
    ensures i < |key| ==> key[i] == ']'
  {
    inner, i := "", at;
    while i < |key| && key[i] != ']'
      invariant at <= i <= |key| && inner == key[at..i]
      invariant CloseAt(key[at..]) == i - at + CloseAt(key[i..])
    {
      assert key[i..][1..] == key[i + 1..];
      inner := inner + [key[i]];
      i := i + 1;
    }
  }

  method ParseSegAt(key: string, at: nat) returns (r: OneSeg, next: nat)
    requires at <= |key|
    ensures r == ParseSeg(key[at..])
    ensures r.OneSeg? ==> at < next <= |key| && r.rest == key[next..]
  {
    hide KeyLength, CloseAt, SelectorOf;
    ghost var s := key[at..];
    var name, i, bad := ScanName(key, at);
    next := i;
    if bad {
      return BadSeg(BadChar(key[i])), i;
    }
    if name == "" {
      return BadSeg(EmptyName), i;
    }
    ghost var n := i - at;
    assert s[..n] == name && s[n..] == key[i..];
    if i == |key| || key[i] == '.' {
      return OneSeg(Seg(name, None), key[i..]), i;
    }
    var inner, close := ScanSelector(key, i + 1);
    assert s[n + 1..] == key[i + 1..];
    if close == |key| {
      return BadSeg(NotClosed), i;
    }
    if inner == "" {
      return BadSeg(EmptySelector), i;
    }
    assert s[n + 1..close - at] == inner && s[close - at + 1..] == key[close + 1..];
    return OneSeg(Seg(name, Some(SelectorOf(inner))), key[close + 1..]), close + 1;
  }

  function Prepended(segs: seq<Seg>, r: Parsed): Parsed {
    if r.Segs? then Segs(segs + r.segs) else r
  }

  lemma PrependedMore(segs: seq<Seg>, seg: Seg, r: Parsed)
    ensures Prepended(segs, Prepended([seg], r)) == Prepended(segs + [seg], r)
  {
    if r.Segs? {
      assert segs + ([seg] + r.segs) == segs + [seg] + r.segs;
    }
  }

  /** `Parse` as a walk over the characters. */
  method ParseKey(key: string) returns (r: Parsed)
    ensures r == Parse(key)
  {
    hide ParseSeg;
    var segs: seq<Seg> := [];
    var at := 0;
    assert key[0..] == key;
    while true
      invariant 0 <= at <= |key|
      invariant Parse(key) == Prepended(segs, Parse(key[at..]))
      decreases |key| - at
    {
      var one, next := ParseSegAt(key, at);
      if one.BadSeg? {
        return Refused(one.error);
      }
      ghost var before := segs;
      segs := segs + [one.seg];
      if next == |key| {
        return Segs(segs);
      }
      if key[next] != '.' {
        return Refused(AfterSelector(key[next]));
      }
      at := next + 1;
      assert key[next..][1..] == key[at..];
      PrependedMore(before, one.seg, Parse(key[at..]));
    }
  }

  // ----- what they promise each other

  /** A segment the parser can produce. */
  ghost predicate WellFormedSeg(seg: Seg) {
    && seg.key != "" && AllKeyChars(seg.key)
    && (match seg.select
        case None => true
        case Some(Index(i)) => i <= USIZE_MAX
        case Some(Name(n)) => n != "" && ']' !in n && SelectorOf(n) == Name(n))
  }

  ghost predicate WellFormed(segs: seq<Seg>) {
    segs != [] && forall i :: 0 <= i < |segs| ==> WellFormedSeg(segs[i])
  }

  lemma {:induction false} KeyLengthOf(key: string, rest: string)
    requires AllKeyChars(key) && (rest != "" ==> !IsKeyChar(rest[0]))
    ensures KeyLength(key + rest) == |key|
  {
    if key != "" {
      KeyLengthOf(key[1..], rest);
      assert (key + rest)[1..] == key[1..] + rest;
    } else {
      assert key + rest == rest;
    }
  }

  lemma {:induction false} CloseAtOf(inner: string, rest: string)
    requires ']' !in inner
    ensures CloseAt(inner + "]" + rest) == |inner|
  {
    if inner != "" {
      CloseAtOf(inner[1..], rest);
      assert (inner + "]" + rest)[1..] == inner[1..] + "]" + rest;
    }
  }

  lemma SelectorPrinted(sel: Selector)
    requires WellFormedSeg(Seg("k", Some(sel)))
    ensures var inner := PrintSelector(sel); inner != "" && ']' !in inner && SelectorOf(inner) == sel
  {
    if sel.Index? {
      ValueOfDecimal(sel.i);
    }
  }

  lemma ParsePlainPrinted(key: string, rest: string)
    requires key != "" && AllKeyChars(key) && (rest != "" ==> rest[0] == '.')
    ensures ParseSeg(key + rest) == OneSeg(Seg(key, None), rest)
  {
    hide KeyLength, CloseAt;
    var s := key + rest;
    KeyLengthOf(key, rest);
    assert s[..|key|] == key && s[|key|..] == rest;
  }

  lemma ParseSelectedPrinted(key: string, inner: string, rest: string)
    requires key != "" && AllKeyChars(key) && inner != "" && ']' !in inner
    ensures ParseSeg(key + "[" + inner + "]" + rest) == OneSeg(Seg(key, Some(SelectorOf(inner))), rest)
  {
    hide KeyLength, CloseAt, SelectorOf;
    var s := key + "[" + inner + "]" + rest;
    var n := |key|;
    assert s == key + ("[" + inner + "]" + rest);
    KeyLengthOf(key, "[" + inner + "]" + rest);
    assert s[..n] == key && s[n] == '[';
    assert s[n + 1..] == inner + "]" + rest;
    CloseAtOf(inner, rest);
    assert s[n + 1..n + 1 + |inner|] == inner;
    assert s[n + |inner| + 2..] == rest;
  }

  lemma ParseSegPrinted(seg: Seg, rest: string)
    requires WellFormedSeg(seg) && (rest != "" ==> rest[0] == '.')
    ensures ParseSeg(PrintSeg(seg) + rest) == OneSeg(seg, rest)
  {
    hide ParseSeg;
    match seg.select {
      case None =>
        ParsePlainPrinted(seg.key, rest);
      case Some(sel) =>
        SelectorPrinted(sel);
        hide SelectorOf, PrintSelector;
        ParseSelectedPrinted(seg.key, PrintSelector(sel), rest);
    }
  }

  /** Printing and parsing again gives the segments back. */
  lemma {:induction false} ParseOfDotted(segs: seq<Seg>)
    requires WellFormed(segs)
    ensures Parse(Dotted(segs)) == Segs(segs)
  {
    hide ParseSeg, PrintSeg, WellFormedSeg;
    if |segs| == 1 {
      ParseSegPrinted(segs[0], "");
      assert PrintSeg(segs[0]) + "" == PrintSeg(segs[0]);
      assert segs == [segs[0]];
    } else {
      var tail := "." + Dotted(segs[1..]);
      ParseSegPrinted(segs[0], tail);
      assert Dotted(segs) == PrintSeg(segs[0]) + tail;
      assert tail[1..] == Dotted(segs[1..]);
      ParseOfDotted(segs[1..]);
      assert segs == [segs[0]] + segs[1..];
    }
  }

  lemma ParsedSegIsWellFormed(s: string)
    requires ParseSeg(s).OneSeg?
    ensures WellFormedSeg(ParseSeg(s).seg)
  {
    var n := KeyLength(s);
    if n < |s| && s[n] == '[' {
      var open := s[n + 1..];
      var c := CloseAt(open);
      assert s[n + 1..n + 1 + c] == open[..c];
    }
  }

  lemma RestIsShorter(s: string)
    ensures ParseSeg(s).OneSeg? ==> |ParseSeg(s).rest| < |s|
  {
  }

  lemma {:induction false} ParsedIsWellFormed(s: string)
    requires Parse(s).Segs?
    ensures WellFormed(Parse(s).segs)
    decreases |s|
  {
    hide ParseSeg, WellFormedSeg;
    ParsedSegIsWellFormed(s);
    var rest := ParseSeg(s).rest;
    if rest != "" {
      assert |rest| < |s| by { RestIsShorter(s); }
      ParsedIsWellFormed(rest[1..]);
    }
  }

  /** A list of segments comes back from its printed form exactly when the parser could have made it. */
  lemma RoundTripIff(segs: seq<Seg>)
    ensures Parse(Dotted(segs)) == Segs(segs) <==> WellFormed(segs)
  {
    hide WellFormed, Parse, Dotted;
    if WellFormed(segs) {
      ParseOfDotted(segs);
    }
    if Parse(Dotted(segs)) == Segs(segs) {
      ParsedIsWellFormed(Dotted(segs));
    }
  }

  /** Every key that is accepted keeps its meaning when it is printed and read again. */
  lemma ParseIsStable(key: string)
    requires Parse(key).Segs?
    ensures Parse(Dotted(Parse(key).segs)) == Parse(key)
  {
    hide WellFormed, Parse, Dotted;
    ParsedIsWellFormed(key);
    ParseOfDotted(Parse(key).segs);
  }
}
