/** The canonical text of an IPv6 address (sections 4.2.1 to 4.2.3 of RFC 5952), and its expansion
(section 2.2 of RFC 4291). */
module CanonicalIPv6 {
  import opened Ids

  const GROUPS := 8

  // ----- bytes and groups -----

  predicate IsAddress(b: seq<nat>)
  {
    |b| == 2 * GROUPS && forall i :: 0 <= i < |b| ==> b[i] < 0x100
  }

  predicate IsGroups(g: seq<nat>)
  {
    |g| == GROUPS && forall i :: 0 <= i < |g| ==> g[i] < 0x1_0000
  }

  function GroupsOf(b: seq<nat>): (g: seq<nat>)
    requires IsAddress(b)
    ensures IsGroups(g)
  {
    seq(GROUPS, i requires 0 <= i < GROUPS => b[2 * i] * 0x100 + b[2 * i + 1])
  }

  function BytesOf(g: seq<nat>): (b: seq<nat>)
    requires IsGroups(g)
    ensures IsAddress(b)
  {
    seq(2 * GROUPS, i requires 0 <= i < 2 * GROUPS => if i % 2 == 0 then g[i / 2] / 0x100 else g[i / 2] % 0x100)
  }

  lemma TwoBytes(hi: nat, lo: nat)
    requires hi < 0x100 && lo < 0x100
    ensures (hi * 0x100 + lo) / 0x100 == hi && (hi * 0x100 + lo) % 0x100 == lo
  {
  }

  lemma BytesAt(b: seq<nat>, h: nat)
    requires IsAddress(b) && h < GROUPS
    ensures var c := BytesOf(GroupsOf(b)); c[2 * h] == b[2 * h] && c[2 * h + 1] == b[2 * h + 1]
  {
    TwoBytes(b[2 * h], b[2 * h + 1]);
    var i := 2 * h;
    assert i / 2 == h && i % 2 == 0 && (i + 1) / 2 == h && (i + 1) % 2 == 1;
    assert GroupsOf(b)[h] == b[2 * h] * 0x100 + b[2 * h + 1];
  }

  lemma BytesOfGroups(b: seq<nat>)
    requires IsAddress(b)
    ensures BytesOf(GroupsOf(b)) == b
  {
    var c := BytesOf(GroupsOf(b));
    assert |c| == |b| == 2 * GROUPS;
    hide BytesOf, GroupsOf;
    forall i | 0 <= i < |b|
      ensures c[i] == b[i]
    {
      BytesAt(b, i / 2);
      assert i == 2 * (i / 2) || i == 2 * (i / 2) + 1;
    }
  }

  // ----- groups in hexadecimal -----

  function Digit(d: nat): char
    requires d < 16
  {
    "0123456789abcdef"[d]
  }

  function Hex(n: nat): string
  {
    if n < 16 then [Digit(n)] else Hex(n / 16) + [Digit(n % 16)]
  }

  /** The value of a hexadecimal digit, in either case. */
  function DigitValue(c: char): Option<nat>
  {
    if '0' <= c <= '9' then Some((c as int) - ('0' as int))
    else if 'a' <= c <= 'f' then Some((c as int) - ('a' as int) + 10)
    else if 'A' <= c <= 'F' then Some((c as int) - ('A' as int) + 10)
    else None
  }

  function HexValue(s: string): Option<nat>
  {
    if s == "" then Some(0)
    else
      var front, last := HexValue(s[..|s| - 1]), DigitValue(s[|s| - 1]);
      if front.Some? && last.Some? then Some(front.value * 16 + last.value) else None
  }

  /** One to four hexadecimal digits. */
  function ParseGroup(s: string): Option<nat>
  {
    if 1 <= |s| <= 4 then HexValue(s) else None
  }

  lemma DigitParses(d: nat)
    requires d < 16
    ensures DigitValue(Digit(d)) == Some(d) && Digit(d) != ':'
  {
  }

  lemma {:induction false} HexSize(n: nat)
    ensures |Hex(n)| >= 1 && (n < 16 ==> |Hex(n)| == 1)
    ensures n < 0x100 ==> |Hex(n)| <= 2
    ensures n < 0x1000 ==> |Hex(n)| <= 3
    ensures n < 0x1_0000 ==> |Hex(n)| <= 4
  {
    if n >= 16 {
      HexSize(n / 16);
    }
  }

  lemma {:induction false} HexParses(n: nat)
    ensures HexValue(Hex(n)) == Some(n) && Hex(n) != "" && NoColon(Hex(n))
    ensures n >= 16 ==> Hex(n)[0] != '0'
    ensures n < 16 ==> |Hex(n)| == 1
    ensures n < 0x1_0000 ==> |Hex(n)| <= 4
  {
    HexSize(n);
    DigitParses(n % 16);
    if n < 16 {
      assert Hex(n)[..0] == "";
    } else {
      HexParses(n / 16);
      assert Hex(n)[..|Hex(n)| - 1] == Hex(n / 16);
      if n / 16 < 16 {
        assert Hex(n / 16) == [Digit(n / 16)] && n / 16 > 0;
      }
    }
  }

  function HexAll(g: seq<nat>): (r: seq<string>)
    ensures |r| == |g| && forall i :: 0 <= i < |g| ==> r[i] == Hex(g[i])
  {
    seq(|g|, i requires 0 <= i < |g| => Hex(g[i]))
  }

  function Join(parts: seq<string>): string
  {
    if parts == [] then ""
    else if |parts| == 1 then parts[0]
    else Join(parts[..|parts| - 1]) + ":" + parts[|parts| - 1]
  }

  // ----- the run to compress -----

  /** `n` zero groups from `s` on. */
  predicate Zeros(g: seq<nat>, s: nat, n: nat)
  {
    s + n <= |g| && forall i :: s <= i < s + n ==> g[i] == 0
  }

  /** The leftmost of the longest runs of at least two zero groups; none when no two are adjacent. */
  ghost predicate BestRun(g: seq<nat>, best: Option<(nat, nat)>)
  {
    match best
    case None => forall s: nat, n: nat :: Zeros(g, s, n) ==> n <= 1
    case Some((start, length)) =>
      && Zeros(g, start, length) && length >= 2
      && (forall s: nat, n: nat :: Zeros(g, s, n) ==> n <= length && (n == length ==> start <= s))
  }

  lemma BestRunUnique(g: seq<nat>, a: Option<(nat, nat)>, b: Option<(nat, nat)>)
    requires BestRun(g, a) && BestRun(g, b)
    ensures a == b
  {
    if a.Some? {
      assert Zeros(g, a.value.0, a.value.1);
    }
    if b.Some? {
      assert Zeros(g, b.value.0, b.value.1);
    }
  }

  function Text(g: seq<nat>, best: Option<(nat, nat)>): string
  {
    match best
    case None => Join(HexAll(g))
    case Some((start, length)) =>
      if start + length <= |g| then Join(HexAll(g[..start])) + "::" + Join(HexAll(g[start + length..])) else ""
  }

  /** `text` shows the groups with exactly their best run compressed. */
  ghost predicate IsCanonical(g: seq<nat>, text: string)
  {
    exists best :: BestRun(g, best) && text == Text(g, best)
  }

  /** The best run of the first `i` groups, and the run that ends there. */
  ghost predicate Scanned(g: seq<nat>, i: nat, bestStart: int, bestLen: int, start: int)
    requires i <= |g|
  {
    && bestLen >= 1 && (bestStart < 0 <==> bestLen == 1) && bestStart >= -1
    && (bestStart >= 0 ==> Zeros(g, bestStart, bestLen) && bestStart + bestLen <= i)
    && (if start < 0 then start == -1 && (i > 0 ==> g[i - 1] != 0)
        else start < i && Zeros(g, start, i - start) && (start > 0 ==> g[start - 1] != 0))
    && (forall s: nat, n: nat :: Zeros(g, s, n) && s + n <= i ==>
          n <= bestLen && (n == bestLen && bestStart >= 0 ==> bestStart <= s))
  }

  /** A zero run that ends at group `i` begins no earlier than the current one. */
  lemma RunsEndingHere(g: seq<nat>, i: nat, start: nat, s: nat, n: nat)
    requires i < |g| && start <= i && Zeros(g, start, i + 1 - start) && (start > 0 ==> g[start - 1] != 0)
    requires Zeros(g, s, n) && s + n == i + 1 && n > 0
    ensures s >= start && n <= i + 1 - start
  {
    assert start > 0 ==> g[start - 1] != 0;
  }

  lemma ScanZero(g: seq<nat>, i: nat, bestStart: int, bestLen: int, start: int)
    requires i < |g| && g[i] == 0 && Scanned(g, i, bestStart, bestLen, start)
    ensures var from := if start < 0 then i else start;
      if i - from + 1 > bestLen then Scanned(g, i + 1, from, i - from + 1, from)
      else Scanned(g, i + 1, bestStart, bestLen, from)
  {
    var from := if start < 0 then i else start;
    assert Zeros(g, from, i + 1 - from);
    forall s: nat, n: nat | Zeros(g, s, n) && s + n <= i + 1
      ensures s + n <= i || n == 0 || (n <= i + 1 - from && s >= from)
    {
      if s + n == i + 1 && n > 0 {
        RunsEndingHere(g, i, from, s, n);
      }
    }
    if i - from + 1 > bestLen {
      forall s: nat, n: nat | Zeros(g, s, n) && s + n <= i + 1
        ensures n <= i - from + 1 && (n == i - from + 1 ==> from <= s)
      {
      }
    } else {
      forall s: nat, n: nat | Zeros(g, s, n) && s + n <= i + 1
        ensures n <= bestLen && (n == bestLen && bestStart >= 0 ==> bestStart <= s)
      {
        if s + n == i + 1 && n > 0 {
          ScanTie(g, i, bestStart, bestLen, start, s, n);
        }
      }
    }
  }

  lemma ScanTie(g: seq<nat>, i: nat, bestStart: int, bestLen: int, start: int, s: nat, n: nat)
    requires i < |g| && g[i] == 0 && Scanned(g, i, bestStart, bestLen, start)
    requires Zeros(g, s, n) && s + n == i + 1 && n > 0 && n <= bestLen
    ensures n == bestLen && bestStart >= 0 ==> bestStart <= s
  {
  }

  lemma ScanOther(g: seq<nat>, i: nat, bestStart: int, bestLen: int, start: int)
    requires i < |g| && g[i] != 0 && Scanned(g, i, bestStart, bestLen, start)
    ensures Scanned(g, i + 1, bestStart, bestLen, -1)
  {
    forall s: nat, n: nat | Zeros(g, s, n) && s + n <= i + 1
      ensures s + n <= i || n == 0
    {
      assert g[i] != 0;
    }
  }

  lemma ScanDone(g: seq<nat>, bestStart: int, bestLen: int, start: int)
    requires Scanned(g, |g|, bestStart, bestLen, start)
    ensures BestRun(g, if bestStart < 0 then None else Some((bestStart, bestLen)))
  {
  }

  /** The first `i` groups are printed. */
  ghost predicate Printed(g: seq<nat>, i: nat, parts: seq<string>)
  {
    i <= |g| && parts == HexAll(g[..i])
  }

  lemma HexNext(g: seq<nat>, i: nat, parts: seq<string>)
    requires i < |g| && Printed(g, i, parts)
    ensures Printed(g, i + 1, parts + [Hex(g[i])])
  {
    assert g[..i + 1][..i] == g[..i];
  }

  lemma HexDone(g: seq<nat>, parts: seq<string>)
    requires Printed(g, |g|, parts)
    ensures parts == HexAll(g) && |parts| == |g|
  {
    assert g[..|g|] == g;
  }

  lemma HexSides(g: seq<nat>, i: nat, j: nat)
    requires i <= j <= |g|
    ensures HexAll(g)[..i] == HexAll(g[..i]) && HexAll(g)[j..] == HexAll(g[j..])
  {
  }

  lemma ScanStart(g: seq<nat>)
    ensures Scanned(g, 0, -1, 1, -1) && Printed(g, 0, [])
  {
  }

  lemma ScanBounds(g: seq<nat>, i: nat, bestStart: int, bestLen: int, start: int)
    requires i <= |g| && Scanned(g, i, bestStart, bestLen, start)
    ensures bestLen >= 1 && start < i && (bestStart >= 0 ==> bestStart + bestLen <= i)
    ensures start < 0 ==> start == -1
  {
  }

  lemma GroupAt(b: seq<nat>, i: nat)
    requires IsAddress(b) && i < GROUPS
    ensures b[2 * i] * 0x100 + b[2 * i + 1] == GroupsOf(b)[i]
  {
  }

  /** The canonical text: lower-case groups without leading zeros, with the best run as "::". */
  method Canonical(b: seq<nat>) returns (text: string)
    requires IsAddress(b)
    ensures IsCanonical(GroupsOf(b), text)
  {
    ghost var g := GroupsOf(b);
    var parts: seq<string> := [];
    var bestStart, bestLen, start := -1, 1, -1;
    ScanStart(g);
    assert GROUPS == 8 && |b| == 16 && |g| == 8;
    hide *;
    for i := 0 to GROUPS
      invariant Printed(g, i, parts) && Scanned(g, i, bestStart, bestLen, start)
    {
      GroupAt(b, i);
      var n := b[2 * i] * 0x100 + b[2 * i + 1];
      HexNext(g, i, parts);
      parts := parts + [Hex(n)];
      if n == 0 {
        ScanZero(g, i, bestStart, bestLen, start);
        if start < 0 {
          start := i;
        }
        if i - start + 1 > bestLen {
          bestStart, bestLen := start, i - start + 1;
        }
        assert Scanned(g, i + 1, bestStart, bestLen, start);
      } else {
        ScanOther(g, i, bestStart, bestLen, start);
        start := -1;
      }
    }
    ShownIsCanonical(g, parts, bestStart, bestLen, start);
    return Shown(parts, bestStart, bestLen);
  }

  /** The printed groups with the run of `length` groups at `start` replaced; none is when `start` is
      negative. */
  function Shown(parts: seq<string>, start: int, length: int): string
    requires length >= 0 && (start >= 0 ==> start + length <= |parts|)
  {
    if start < 0 then Join(parts) else Join(parts[..start]) + "::" + Join(parts[start + length..])
  }

  lemma ShownIsCanonical(g: seq<nat>, parts: seq<string>, bestStart: int, bestLen: int, start: int)
    requires Scanned(g, |g|, bestStart, bestLen, start) && Printed(g, |g|, parts)
    ensures bestLen >= 0 && (bestStart >= 0 ==> bestStart + bestLen <= |parts|)
    ensures IsCanonical(g, Shown(parts, bestStart, bestLen))
  {
    hide *;
    ScanBounds(g, |g|, bestStart, bestLen, start);
    ScanDone(g, bestStart, bestLen, start);
    HexDone(g, parts);
    if bestStart < 0 {
      PlainIsText(g, parts, bestStart, bestLen);
      IsText(g, None, Shown(parts, bestStart, bestLen));
    } else {
      CompressedIsText(g, parts, bestStart, bestLen);
      IsText(g, Some((bestStart, bestLen)), Shown(parts, bestStart, bestLen));
    }
  }

  lemma PlainIsText(g: seq<nat>, parts: seq<string>, start: int, length: nat)
    requires start < 0 && parts == HexAll(g)
    ensures Shown(parts, start, length) == Text(g, None)
  {
    hide Join, HexAll;
  }

  lemma CompressedIsText(g: seq<nat>, parts: seq<string>, start: nat, length: nat)
    requires start + length <= |parts| == |g| && parts == HexAll(g)
    ensures Shown(parts, start, length) == Text(g, Some((start, length)))
  {
    hide Join, HexAll;
    HexSides(g, start, start + length);
  }

  lemma IsText(g: seq<nat>, best: Option<(nat, nat)>, text: string)
    requires BestRun(g, best) && text == Text(g, best)
    ensures IsCanonical(g, text)
  {
    hide BestRun, Text;
  }

  // ----- expansion -----

  function SplitColon(s: string): (r: seq<string>)
    ensures r != []
  {
    if s == "" then [""]
    else
      var front, c := SplitColon(s[..|s| - 1]), s[|s| - 1];
      if c == ':' then front + [""] else front[..|front| - 1] + [front[|front| - 1] + [c]]
  }

  function ParseGroups(parts: seq<string>): Option<seq<nat>>
  {
    if parts == [] then Some([])
    else
      var front, last := ParseGroups(parts[..|parts| - 1]), ParseGroup(parts[|parts| - 1]);
      if front.Some? && last.Some? then Some(front.value + [last.value]) else None
  }

  /** Groups between colons; an empty side of "::" has none. */
  function ParseSide(s: string): Option<seq<nat>>
  {
    if s == "" then Some([]) else ParseGroups(SplitColon(s))
  }

  /** The first "::" from position `i` on. */
  function FirstDouble(s: string, i: nat): Option<nat>
    decreases |s| - i
  {
    if i + 1 >= |s| then None
    else if s[i] == ':' && s[i + 1] == ':' then Some(i)
    else FirstDouble(s, i + 1)
  }

  function ZeroGroups(n: nat): seq<nat>
  {
    seq(n, i => 0)
  }

  /** The eight groups a text stands for: "::" stands for one or more zero groups, at most once. */
  function Expand(s: string): Option<seq<nat>>
  {
    match FirstDouble(s, 0)
    case None =>
      var g := ParseSide(s);
      if g.Some? && |g.value| == GROUPS then g else None
    case Some(i) =>
      if !(i + 2 <= |s|) then None
      else
        var left, right := ParseSide(s[..i]), ParseSide(s[i + 2..]);
        if left.Some? && right.Some? && |left.value| + |right.value| < GROUPS
        then Some(left.value + ZeroGroups(GROUPS - |left.value| - |right.value|) + right.value)
        else None
  }

  // ----- round trip -----

  predicate Printable(parts: seq<string>)
  {
    forall i :: 0 <= i < |parts| ==> parts[i] != "" && NoColon(parts[i])
  }

  lemma {:induction false} SplitTail(s: string, t: string)
    requires NoColon(t)
    ensures SplitColon(s + ":" + t) == SplitColon(s) + [t]
  {
    var all := s + ":" + t;
    if t == "" {
      assert all[..|all| - 1] == s && all[|all| - 1] == ':';
    } else {
      var front, c := t[..|t| - 1], t[|t| - 1];
      assert all[..|all| - 1] == s + ":" + front && all[|all| - 1] == c;
      SplitTail(s, front);
      assert front + [c] == t;
    }
  }

  lemma {:induction false} SplitPlain(t: string)
    requires NoColon(t)
    ensures SplitColon(t) == [t]
  {
    if t != "" {
      SplitPlain(t[..|t| - 1]);
      assert t[..|t| - 1] + [t[|t| - 1]] == t;
    }
  }

  lemma PrintableParts(parts: seq<string>)
    requires |parts| > 1 && Printable(parts)
    ensures var front, last := parts[..|parts| - 1], parts[|parts| - 1];
      Printable(front) && NoColon(last) && Join(parts) == Join(front) + ":" + last
  {
  }

  lemma {:induction false} SplitJoin(parts: seq<string>)
    requires parts != [] && Printable(parts)
    ensures SplitColon(Join(parts)) == parts
  {
    if |parts| == 1 {
      SplitPlain(parts[0]);
    } else {
      var front, last := parts[..|parts| - 1], parts[|parts| - 1];
      PrintableParts(parts);
      hide *;
      SplitJoin(front);
      SplitTail(Join(front), last);
      assert front + [last] == parts;
    }
  }

  /** Joined groups hold no "::", and begin and end with a digit. */
  lemma {:induction false} JoinNoDouble(parts: seq<string>)
    requires Printable(parts)
    ensures var s := Join(parts);
      && (forall j :: 0 <= j < |s| - 1 ==> s[j] != ':' || s[j + 1] != ':')
      && (parts != [] ==> s != "" && s[0] != ':' && s[|s| - 1] != ':')
  {
    if |parts| == 1 {
      assert parts[0] != "" && NoColon(parts[0]);
    } else if parts != [] {
      var front, last := parts[..|parts| - 1], parts[|parts| - 1];
      JoinNoDouble(front);
      assert last != "" && NoColon(last);
      var s, f := Join(parts), Join(front);
      assert s == f + ":" + last;
      assert forall j :: 0 <= j < |f| ==> s[j] == f[j];
      assert s[|f|] == ':' && forall j :: |f| < j < |s| ==> s[j] == last[j - |f| - 1];
    }
  }

  lemma {:induction false} DoubleAt(s: string, i: nat, k: nat)
    requires i <= k && k + 1 < |s| && s[k] == ':' && s[k + 1] == ':'
    requires forall j :: i <= j < k ==> s[j] != ':' || s[j + 1] != ':'
    ensures FirstDouble(s, i) == Some(k)
    decreases k - i
  {
    if i < k {
      DoubleAt(s, i + 1, k);
    }
  }

  lemma {:induction false} NoDouble(s: string, i: nat)
    requires forall j :: i <= j < |s| - 1 ==> s[j] != ':' || s[j + 1] != ':'
    ensures FirstDouble(s, i) == None
    decreases |s| - i
  {
    if i + 1 < |s| {
      NoDouble(s, i + 1);
    }
  }

  lemma {:induction false} GroupsParse(g: seq<nat>)
    requires forall i :: 0 <= i < |g| ==> g[i] < 0x1_0000
    ensures ParseGroups(HexAll(g)) == Some(g) && Printable(HexAll(g))
  {
    if g != [] {
      var front := g[..|g| - 1];
      assert HexAll(g)[..|g| - 1] == HexAll(front);
      GroupsParse(front);
      HexParses(g[|g| - 1]);
      assert g == front + [g[|g| - 1]];
      forall i | 0 <= i < |g|
        ensures HexAll(g)[i] != "" && NoColon(HexAll(g)[i])
      {
        HexParses(g[i]);
      }
    }
  }

  lemma SideParses(g: seq<nat>)
    requires forall i :: 0 <= i < |g| ==> g[i] < 0x1_0000
    ensures ParseSide(Join(HexAll(g))) == Some(g)
  {
    GroupsParse(g);
    if g == [] {
      assert HexAll(g) == [];
    } else {
      SplitJoin(HexAll(g));
      JoinNoDouble(HexAll(g));
    }
  }

  /** The first "::" of a compressed text is the one that the printer wrote. */
  lemma DoubleInText(left: seq<string>, right: seq<string>)
    requires Printable(left) && Printable(right)
    ensures FirstDouble(Join(left) + "::" + Join(right), 0) == Some(|Join(left)|)
  {
    JoinNoDouble(left);
    var s, l := Join(left) + "::" + Join(right), Join(left);
    assert forall j :: 0 <= j < |l| ==> s[j] == l[j];
    DoubleAt(s, 0, |l|);
  }

  lemma ExpandPlain(g: seq<nat>)
    requires IsGroups(g)
    ensures Expand(Join(HexAll(g))) == Some(g)
  {
    GroupsParse(g);
    JoinNoDouble(HexAll(g));
    NoDouble(Join(HexAll(g)), 0);
    SideParses(g);
    hide Join, HexAll, ParseSide, FirstDouble;
  }

  lemma ExpandSides(left: seq<nat>, right: seq<nat>)
    requires forall i :: 0 <= i < |left| ==> left[i] < 0x1_0000
    requires forall i :: 0 <= i < |right| ==> right[i] < 0x1_0000
    requires |left| + |right| < GROUPS
    ensures Expand(Join(HexAll(left)) + "::" + Join(HexAll(right))) ==
      Some(left + ZeroGroups(GROUPS - |left| - |right|) + right)
  {
    SideParses(left);
    SideParses(right);
    GroupsParse(left);
    GroupsParse(right);
    DoubleInText(HexAll(left), HexAll(right));
    hide *;
    ExpandAt(Join(HexAll(left)), Join(HexAll(right)), left, right);
  }

  lemma ExpandAt(l: string, r: string, left: seq<nat>, right: seq<nat>)
    requires FirstDouble(l + "::" + r, 0) == Some(|l|)
    requires ParseSide(l) == Some(left) && ParseSide(r) == Some(right) && |left| + |right| < GROUPS
    ensures Expand(l + "::" + r) == Some(left + ZeroGroups(GROUPS - |left| - |right|) + right)
  {
    hide ParseSide, FirstDouble, ZeroGroups;
    var s := l + "::" + r;
    assert s[..|l|] == l && s[|l| + 2..] == r;
    assert |l| + 2 <= |s|;
  }

  /** Expanding a printed text gives back the groups. */
  lemma ExpandText(g: seq<nat>, text: string)
    requires IsGroups(g) && IsCanonical(g, text)
    ensures Expand(text) == Some(g)
  {
    hide Expand, Join, HexAll;
    var best :| BestRun(g, best) && text == Text(g, best);
    match best
    case None => ExpandPlain(g);
    case Some((start, length)) =>
      var left, right := g[..start], g[start + length..];
      assert Zeros(g, start, length);
      ExpandSides(left, right);
      assert g == left + ZeroGroups(length) + right;
  }

  /** The printed text of an address expands to its sixteen bytes. */
  lemma RoundTrip(b: seq<nat>, text: string)
    requires IsAddress(b) && IsCanonical(GroupsOf(b), text)
    ensures Expand(text) == Some(GroupsOf(b)) && BytesOf(GroupsOf(b)) == b
  {
    ExpandText(GroupsOf(b), text);
    BytesOfGroups(b);
  }

  /** An address has one text, and two addresses never share it. */
  lemma CanonicalInjective(a: seq<nat>, b: seq<nat>, textA: string, textB: string)
    requires IsAddress(a) && IsCanonical(GroupsOf(a), textA)
    requires IsAddress(b) && IsCanonical(GroupsOf(b), textB)
    ensures textA == textB <==> a == b
  {
    RoundTrip(a, textA);
    RoundTrip(b, textB);
    hide Expand, Text, BytesOf;
    if a == b {
      var bestA :| BestRun(GroupsOf(a), bestA) && textA == Text(GroupsOf(a), bestA);
      var bestB :| BestRun(GroupsOf(b), bestB) && textB == Text(GroupsOf(b), bestB);
      BestRunUnique(GroupsOf(a), bestA, bestB);
    }
  }

  // ----- the characters of the text -----

  /** A digit, a small letter up to f, or a colon. */
  predicate LowerChar(c: char)
  {
    '0' <= c <= '9' || 'a' <= c <= 'f' || c == ':'
  }

  predicate LowerText(s: string)
  {
    forall i :: 0 <= i < |s| ==> LowerChar(s[i])
  }

  lemma LowerConcat(a: string, b: string)
    requires LowerText(a) && LowerText(b)
    ensures LowerText(a + b)
  {
  }

  lemma {:induction false} HexLower(n: nat)
    ensures LowerText(Hex(n))
  {
    assert LowerChar(Digit(n % 16));
    if n >= 16 {
      HexLower(n / 16);
      LowerConcat(Hex(n / 16), [Digit(n % 16)]);
    }
  }

  lemma {:induction false} JoinLower(parts: seq<string>)
    requires forall p :: p in parts ==> LowerText(p)
    ensures LowerText(Join(parts))
  {
    if |parts| == 1 {
      assert parts[0] in parts;
    } else if |parts| > 1 {
      var front, last := parts[..|parts| - 1], parts[|parts| - 1];
      assert last in parts && forall p :: p in front ==> p in parts;
      JoinLower(front);
      LowerConcat(Join(front), ":");
      LowerConcat(Join(front) + ":", last);
    }
  }

  lemma HexAllLower(g: seq<nat>)
    ensures LowerText(Join(HexAll(g)))
  {
    hide LowerText;
    forall p | p in HexAll(g)
      ensures LowerText(p)
    {
      var i :| 0 <= i < |g| && p == Hex(g[i]);
      HexLower(g[i]);
    }
    JoinLower(HexAll(g));
  }

  /** The canonical text has small letters only. */
  lemma CanonicalLower(g: seq<nat>, text: string)
    requires IsCanonical(g, text)
    ensures LowerText(text)
  {
    hide BestRun;
    var best :| BestRun(g, best) && text == Text(g, best);
    assert LowerText("") && LowerText("::");
    hide Join, HexAll, LowerText;
    match best
    case None => HexAllLower(g);
    case Some((start, length)) =>
      if start + length <= |g| {
        HexAllLower(g[..start]);
        HexAllLower(g[start + length..]);
        LowerConcat(Join(HexAll(g[..start])), "::");
        LowerConcat(Join(HexAll(g[..start])) + "::", Join(HexAll(g[start + length..])));
      }
  }
}
