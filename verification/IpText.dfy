/** IPv4 and IPv6 text, both ways, as in clients/core-ts/src/split.ts. Addresses are integers. */
module IpText {
  import opened Arithmetic
  import opened Common
  import opened Text

  // ---------------------------------------------------------------- IPv4

  predicate IsOctet(part: string) {
    && 1 <= |part| <= 3 && Numeral(part, 10)
    && !(|part| > 1 && part[0] == '0')
    && Value(part, 10) <= 255
  }

  /** Base-256 value of the octets read so far. */
  function OctetsValue(parts: seq<string>): nat {
    if parts == [] then 0
    else OctetsValue(parts[..|parts| - 1]) * 256 + Value(parts[|parts| - 1], 10)
  }

  function ParseIpv4(s: string): Option<int> {
    var parts := Split(s, '.');
    if |parts| != 4 || exists i :: 0 <= i < 4 && !IsOctet(parts[i]) then None
    else Some(OctetsValue(parts))
  }

  /** The loop: octet by octet, failing on the first bad one. */
  method ParseIpv4Loop(s: string) returns (r: Option<int>)
    ensures r == ParseIpv4(s)
  {
    var parts := Split(s, '.');
    if |parts| != 4 {
      return None;
    }
    var out := 0;
    for i := 0 to 4
      invariant forall j :: 0 <= j < i ==> IsOctet(parts[j])
      invariant out == OctetsValue(parts[..i])
    {
      assert parts[..i + 1][..i] == parts[..i];
      if !IsOctet(parts[i]) {
        return None;
      }
      out := out * 256 + Value(parts[i], 10);
    }
    assert parts[..4] == parts;
    r := Some(out);
  }

  function Octets(v: int): seq<string>
    requires 0 <= v < 0x1_0000_0000
  {
    [ToDigits(v / 0x100_0000 % 256, 10), ToDigits(v / 0x1_0000 % 256, 10), ToDigits(v / 0x100 % 256, 10), ToDigits(v % 256, 10)]
  }

  function FormatIpv4(v: int): string
    requires 0 <= v < 0x1_0000_0000
  {
    Join(Octets(v), '.')
  }

  lemma OctetRoundTrip(n: nat)
    requires n <= 255
    ensures IsOctet(ToDigits(n, 10)) && Value(ToDigits(n, 10), 10) == n
    ensures Without(ToDigits(n, 10), '.') && Without(ToDigits(n, 10), ':') && Without(ToDigits(n, 10), '/')
  {
    DigitsShape(n, 10);
    DigitsValue(n, 10);
    PowerThree(10);
    DigitsLength(n, 10, 3);
    if ToDigits(n, 10)[0] == '0' {
      assert ToDigits(0, 10) == [DigitChar(0)];
    }
  }

  lemma PowerThree(base: nat)
    ensures Power(base, 3) == base * (base * base)
  {
    PowerOne(base);
    assert Power(base, 2) == base * Power(base, 1);
    assert Power(base, 3) == base * Power(base, 2);
  }

  lemma FourValue(a: string, b: string, c: string, d: string)
    ensures OctetsValue([a, b, c, d])
         == ((Value(a, 10) * 256 + Value(b, 10)) * 256 + Value(c, 10)) * 256 + Value(d, 10)
  {
    assert [a, b, c, d][..3] == [a, b, c] && [a, b, c][..2] == [a, b] && [a, b][..1] == [a] && [a][..0] == [];
    assert OctetsValue([]) == 0 && OctetsValue([a]) == Value(a, 10);
    assert OctetsValue([a, b]) == Value(a, 10) * 256 + Value(b, 10);
    assert OctetsValue([a, b, c]) == OctetsValue([a, b]) * 256 + Value(c, 10);
  }

  lemma OctetsOf(v: int)
    requires 0 <= v < 0x1_0000_0000
    ensures (((v / 0x100_0000 % 256) * 256 + v / 0x1_0000 % 256) * 256 + v / 0x100 % 256) * 256 + v % 256 == v
  {
  }

  lemma Ipv4RoundTrip(v: int)
    requires 0 <= v < 0x1_0000_0000
    ensures ParseIpv4(FormatIpv4(v)) == Some(v)
  {
    hide Value, ToDigits, Split, Join, OctetsValue, IsOctet;
    var o := Octets(v);
    OctetRoundTrip(v / 0x100_0000 % 256);
    OctetRoundTrip(v / 0x1_0000 % 256);
    OctetRoundTrip(v / 0x100 % 256);
    OctetRoundTrip(v % 256);
    SplitJoin(o, '.');
    FourValue(o[0], o[1], o[2], o[3]);
    OctetsOf(v);
  }

  lemma OctetText(part: string)
    requires IsOctet(part)
    ensures ToDigits(Value(part, 10), 10) == part && 0 <= Value(part, 10) <= 255
  {
    forall i | 0 <= i < |part| ensures '0' <= part[i] <= '9' {
      assert DigitOf(part[i]) < 10;
    }
    ValueDigits(part, 10);
  }

  lemma OctetsSplit(a: int, b: int, c: int, d: int)
    requires 0 <= a <= 255 && 0 <= b <= 255 && 0 <= c <= 255 && 0 <= d <= 255
    ensures var v := ((a * 256 + b) * 256 + c) * 256 + d;
            && 0 <= v < 0x1_0000_0000 && v / 0x100_0000 % 256 == a && v / 0x1_0000 % 256 == b
            && v / 0x100 % 256 == c && v % 256 == d
  {
  }

  /** The accepted IPv4 texts are exactly the formatted ones: each address has one spelling. */
  lemma Ipv4Spelling(s: string)
    ensures ParseIpv4(s).Some? ==> 0 <= ParseIpv4(s).value < 0x1_0000_0000 && FormatIpv4(ParseIpv4(s).value) == s
  {
    hide Value, ToDigits, Split, Join, IsOctet;
    if ParseIpv4(s).Some? {
      var p := Split(s, '.');
      JoinSplit(s, '.');
      assert p == [p[0], p[1], p[2], p[3]];
      assert IsOctet(p[0]) && IsOctet(p[1]) && IsOctet(p[2]) && IsOctet(p[3]);
      FourValue(p[0], p[1], p[2], p[3]);
      OctetText(p[0]);
      OctetText(p[1]);
      OctetText(p[2]);
      OctetText(p[3]);
      OctetsSplit(Value(p[0], 10), Value(p[1], 10), Value(p[2], 10), Value(p[3], 10));
      assert Octets(ParseIpv4(s).value) == p;
    }
  }

  // ---------------------------------------------------------------- IPv6 text to groups

  predicate IsHexGroup(g: string) {
    1 <= |g| <= 4 && Numeral(g, 16)
  }

  /** The 16-bit groups the texts denote; only the last may be a dotted quad, worth two. */
  function GroupList(parts: seq<string>): Option<seq<int>> {
    if parts == [] then Some([])
    else if IsHexGroup(parts[0]) then
      match GroupList(parts[1..])
      case None => None
      case Some(r) => Some([Value(parts[0], 16)] + r)
    else if '.' in parts[0] && |parts| == 1 then
      match ParseIpv4(parts[0])
      case None => None
      case Some(v) => Some([v / 0x1_0000, v % 0x1_0000])
    else None
  }

  function ParseGroups(part: string): Option<seq<int>> {
    if part == "" then Some([]) else GroupList(Split(part, ':'))
  }

  /** Index of the first "::", |s| if there is none. */
  function FindDouble(s: string): (i: nat)
    ensures i <= |s| && (i < |s| ==> i + 2 <= |s|)
  {
    if |s| < 2 then |s|
    else if s[0] == ':' && s[1] == ':' then 0
    else 1 + FindDouble(s[1..])
  }

  /** s.split("::"). */
  function Halves(s: string): (h: seq<string>)
    ensures h != []
    decreases |s|
  {
    var i := FindDouble(s);
    if i == |s| then [s] else [s[..i]] + Halves(s[i + 2..])
  }

  function GroupsValue(gs: seq<int>): int {
    if gs == [] then 0 else GroupsValue(gs[..|gs| - 1]) * 0x1_0000 + gs[|gs| - 1]
  }

  function ParseIpv6(s: string): Option<int> {
    if Without(s, ':') then None
    else
      var halves := Halves(s);
      if |halves| > 2 then None
      else
        match (ParseGroups(halves[0]), if |halves| == 2 then ParseGroups(halves[1]) else Some([]))
        case (Some(head), Some(tail)) =>
          var count := |head| + |tail|;
          if (if |halves| == 2 then count > 7 else count != 8) then None
          else Some(GroupsValue(head + Zeros(8 - count) + tail))
        case _ => None
  }

  /** No part is empty or holds a colon. */
  predicate Parts(parts: seq<string>) {
    forall i :: 0 <= i < |parts| ==> parts[i] != "" && Without(parts[i], ':')
  }

  predicate NoDouble(s: string) {
    forall i :: 0 <= i < |s| - 1 ==> !(s[i] == ':' && s[i + 1] == ':')
  }

  lemma {:induction false} JoinClean(parts: seq<string>)
    requires Parts(parts)
    ensures NoDouble(Join(parts, ':')) && (parts == [] ==> Join(parts, ':') == "")
    ensures parts != [] ==> Join(parts, ':') != "" && Join(parts, ':')[0] != ':' && Join(parts, ':')[|Join(parts, ':')| - 1] != ':'
  {
    if |parts| > 1 {
      JoinClean(parts[1..]);
      var a, b := parts[0], Join(parts[1..], ':');
      var s := a + [':'] + b;
      forall i | 0 <= i < |s| - 1 ensures !(s[i] == ':' && s[i + 1] == ':') {
        if i > |a| { assert s[i] == b[i - |a| - 1] && s[i + 1] == b[i - |a|]; }
      }
    }
  }

  lemma {:induction false} FindDoubleAt(a: string, rest: string)
    requires NoDouble(a) && (a != "" ==> a[|a| - 1] != ':')
    ensures FindDouble(a + "::" + rest) == |a| && FindDouble(a) == |a|
  {
    var s := a + "::" + rest;
    if a != "" {
      FindDoubleAt(a[1..], rest);
      assert s[1..] == a[1..] + "::" + rest;
      assert |a| > 1 ==> s[1] == a[1];
    }
  }

  lemma ParseGroupsJoin(parts: seq<string>)
    requires Parts(parts)
    ensures ParseGroups(Join(parts, ':')) == GroupList(parts)
  {
    JoinClean(parts);
    if parts != [] { SplitJoin(parts, ':'); }
  }

  lemma ParsesCompressed(h: seq<string>, t: seq<string>)
    requires Parts(h) && Parts(t) && GroupList(h).Some? && GroupList(t).Some?
    requires |GroupList(h).value| + |GroupList(t).value| <= 7
    ensures ParseIpv6(Join(h, ':') + "::" + Join(t, ':'))
         == Some(GroupsValue(GroupList(h).value + Zeros(8 - |GroupList(h).value| - |GroupList(t).value|) + GroupList(t).value))
  {
    hide GroupList, GroupsValue, Join;
    var a, b := Join(h, ':'), Join(t, ':');
    var s := a + "::" + b;
    ParseGroupsJoin(h);
    ParseGroupsJoin(t);
    JoinClean(h);
    JoinClean(t);
    FindDoubleAt(a, b);
    assert b == "" ==> NoDouble(b);
    FindDoubleAt(b, "");
    assert s[..|a|] == a && s[|a| + 2..] == b;
    assert Halves(s) == [a, b];
    assert s[|a|] == ':';
  }

  lemma ParsesFull(h: seq<string>)
    requires Parts(h) && |h| >= 2 && GroupList(h).Some? && |GroupList(h).value| == 8
    ensures ParseIpv6(Join(h, ':')) == Some(GroupsValue(GroupList(h).value))
  {
    hide GroupList, GroupsValue;
    var s := Join(h, ':');
    ParseGroupsJoin(h);
    JoinClean(h);
    assert s == h[0] + [':'] + Join(h[1..], ':') && s[|h[0]|] == ':';
    hide Join;
    FindDoubleAt(s, "");
    assert Halves(s) == [s];
    assert GroupList(h).value + Zeros(0) + [] == GroupList(h).value;
  }

  lemma QuadGroups(q: string, v: int)
    requires '.' in q && ParseIpv4(q) == Some(v)
    ensures GroupList([q]) == Some([v / 0x1_0000, v % 0x1_0000])
  {
    hide ParseIpv4;
    assert DigitOf('.') == 16;
    assert !IsHexGroup(q);
    assert [q][0] == q;
  }

  lemma Ipv4Characters(v: int)
    requires 0 <= v < 0x1_0000_0000
    ensures Without(FormatIpv4(v), ':') && Without(FormatIpv4(v), '/') && '.' in FormatIpv4(v)
  {
    var o := Octets(v);
    OctetRoundTrip(v / 0x100_0000 % 256);
    OctetRoundTrip(v / 0x1_0000 % 256);
    OctetRoundTrip(v / 0x100 % 256);
    OctetRoundTrip(v % 256);
    assert Join(o, '.') == o[0] + ['.'] + Join(o[1..], '.');
    assert Join(o, '.')[|o[0]|] == '.';
    JoinWithout(o, '.', ':');
    JoinWithout(o, '.', '/');
  }

  lemma {:induction false} JoinWithout(parts: seq<string>, sep: char, c: char)
    requires c != sep && forall i :: 0 <= i < |parts| ==> Without(parts[i], c)
    ensures Without(Join(parts, sep), c)
  {
    if |parts| > 1 { JoinWithout(parts[1..], sep, c); }
  }

  // ---------------------------------------------------------------- the accepted IPv6 texts

  // The grammar of section 2.2 of RFC 4291, apart from the parser.

  /** Texts of 16-bit groups, in hex of either case, with up to four digits. */
  predicate HexOnly(parts: seq<string>) {
    forall i :: 0 <= i < |parts| ==> IsHexGroup(parts[i])
  }

  /** The texts are hex groups, but the last is the dotted quad of v. */
  predicate QuadLast(parts: seq<string>, v: int) {
    && 0 <= v < 0x1_0000_0000 && parts != []
    && HexOnly(parts[..|parts| - 1]) && parts[|parts| - 1] == FormatIpv4(v)
  }

  function HexValues(parts: seq<string>): (gs: seq<int>)
    ensures |gs| == |parts|
  {
    seq(|parts|, i requires 0 <= i < |parts| => Value(parts[i], 16))
  }

  function QuadValues(parts: seq<string>, v: int): seq<int>
    requires parts != []
  {
    HexValues(parts[..|parts| - 1]) + [v / 0x1_0000, v % 0x1_0000]
  }

  /** The groups these texts stand for. */
  ghost predicate Denotes(parts: seq<string>, gs: seq<int>) {
    || (HexOnly(parts) && gs == HexValues(parts))
    || (exists v :: QuadLast(parts, v) && gs == QuadValues(parts, v))
  }

  ghost predicate FullForm(s: string, h: seq<string>, gs: seq<int>) {
    s == Join(h, ':') && Denotes(h, gs) && |gs| == 8
  }

  ghost predicate CompressedForm(s: string, h: seq<string>, gh: seq<int>, t: seq<string>, gt: seq<int>) {
    s == Join(h, ':') + "::" + Join(t, ':') && Denotes(h, gh) && Denotes(t, gt) && |gh| + |gt| <= 7
  }

  /** Forms 1, 2 and 3: a quad may only end the text. */
  ghost predicate RfcText(s: string, v: int) {
    || (exists h, gs :: FullForm(s, h, gs) && v == GroupsValue(gs))
    || (exists h, gh, t, gt :: CompressedForm(s, h, gh, t, gt) && HexOnly(h) && v == GroupsValue(Filled(gh, gt)))
  }

  /** What the parser takes besides: a quad before "::". */
  ghost predicate LeadingQuadText(s: string, v: int) {
    exists h, gh, t, gt, q :: CompressedForm(s, h, gh, t, gt) && QuadLast(h, q) && v == GroupsValue(Filled(gh, gt))
  }

  function Filled(head: seq<int>, tail: seq<int>): seq<int>
    requires |head| + |tail| <= 8
  {
    head + Zeros(8 - |head| - |tail|) + tail
  }

  lemma HexGroupPlain(g: string)
    requires IsHexGroup(g)
    ensures g != "" && Without(g, ':') && Without(g, '.')
  {
    forall i | 0 <= i < |g| ensures g[i] != ':' && g[i] != '.' { assert DigitOf(g[i]) < 16; }
  }

  lemma HexOnlyPlain(parts: seq<string>)
    requires HexOnly(parts)
    ensures Parts(parts) && Without(Join(parts, ':'), '.')
  {
    forall i | 0 <= i < |parts| ensures parts[i] != "" && Without(parts[i], ':') && Without(parts[i], '.') {
      HexGroupPlain(parts[i]);
    }
    JoinWithout(parts, ':', '.');
  }

  lemma DenotesParts(parts: seq<string>, gs: seq<int>)
    requires Denotes(parts, gs)
    ensures Parts(parts)
  {
    hide FormatIpv4, Join;
    if HexOnly(parts) {
      HexOnlyPlain(parts);
    } else {
      var v :| QuadLast(parts, v) && gs == QuadValues(parts, v);
      HexOnlyPlain(parts[..|parts| - 1]);
      Ipv4Characters(v);
      forall i | 0 <= i < |parts| ensures parts[i] != "" && Without(parts[i], ':') {
        if i < |parts| - 1 { assert parts[i] == parts[..|parts| - 1][i]; }
      }
    }
  }

  lemma {:induction false} HexGroupList(parts: seq<string>)
    requires HexOnly(parts)
    ensures GroupList(parts) == Some(HexValues(parts))
  {
    if parts != [] {
      HexGroupList(parts[1..]);
      hide GroupList, Value;
      assert HexValues(parts) == [Value(parts[0], 16)] + HexValues(parts[1..]);
    }
  }

  lemma {:induction false} QuadGroupList(parts: seq<string>, v: int)
    requires QuadLast(parts, v)
    ensures GroupList(parts) == Some(QuadValues(parts, v))
  {
    hide FormatIpv4, ParseIpv4, Value;
    var front := parts[..|parts| - 1];
    if |parts| == 1 {
      Ipv4Characters(v);
      Ipv4RoundTrip(v);
      QuadGroups(parts[0], v);
      assert parts == [parts[0]] && front == [];
      assert QuadValues(parts, v) == [v / 0x1_0000, v % 0x1_0000];
    } else {
      assert parts[1..][..|parts[1..]| - 1] == front[1..];
      assert IsHexGroup(front[0]);
      QuadGroupList(parts[1..], v);
      assert HexValues(front) == [Value(parts[0], 16)] + HexValues(front[1..]);
      assert QuadValues(parts, v) == [Value(parts[0], 16)] + QuadValues(parts[1..], v);
    }
  }

  /** The parser's group list is the grammar's. */
  lemma {:induction false} GroupListMeaning(parts: seq<string>)
    requires GroupList(parts).Some?
    ensures Denotes(parts, GroupList(parts).value)
  {
    hide FormatIpv4, ParseIpv4, Value;
    if parts == [] {
      assert HexOnly(parts) && HexValues(parts) == [];
    } else if IsHexGroup(parts[0]) {
      GroupListMeaning(parts[1..]);
      ConsDenotes(parts, GroupList(parts[1..]).value);
    } else {
      var v := ParseIpv4(parts[0]).value;
      Ipv4Spelling(parts[0]);
      assert parts[..|parts| - 1] == [] && QuadLast(parts, v);
      assert QuadValues(parts, v) == [] + [v / 0x1_0000, v % 0x1_0000] == [v / 0x1_0000, v % 0x1_0000];
    }
  }

  lemma ConsDenotes(parts: seq<string>, gs: seq<int>)
    requires parts != [] && IsHexGroup(parts[0]) && Denotes(parts[1..], gs)
    ensures Denotes(parts, [Value(parts[0], 16)] + gs)
  {
    hide FormatIpv4, Value, IsHexGroup;
    var rest := parts[1..];
    if HexOnly(rest) && gs == HexValues(rest) {
      assert forall i :: 0 < i < |parts| ==> parts[i] == rest[i - 1];
      assert HexValues(parts) == [Value(parts[0], 16)] + HexValues(rest);
    } else {
      var v :| QuadLast(rest, v) && gs == QuadValues(rest, v);
      var front := parts[..|parts| - 1];
      assert forall i :: 0 < i < |front| ==> front[i] == rest[..|rest| - 1][i - 1];
      assert HexValues(front) == [Value(parts[0], 16)] + HexValues(rest[..|rest| - 1]);
      assert QuadLast(parts, v);
      assert QuadValues(parts, v) == [Value(parts[0], 16)] + gs;
    }
  }

  lemma DenotedList(parts: seq<string>, gs: seq<int>)
    requires Denotes(parts, gs)
    ensures Parts(parts) && GroupList(parts) == Some(gs)
  {
    hide GroupList, FormatIpv4, QuadValues, Parts, HexOnly;
    DenotesParts(parts, gs);
    if HexOnly(parts) && gs == HexValues(parts) {
      HexGroupList(parts);
    } else {
      var v :| QuadLast(parts, v) && gs == QuadValues(parts, v);
      QuadGroupList(parts, v);
    }
  }

  /** Form 1, and form 3 without "::": eight groups in full, leading zeros and either case allowed. */
  lemma AcceptsFull(s: string, h: seq<string>, gs: seq<int>)
    requires FullForm(s, h, gs)
    ensures ParseIpv6(s) == Some(GroupsValue(gs))
  {
    hide ParseIpv6, GroupsValue, GroupList, Join, HexOnly, QuadLast;
    DenotedList(h, gs);
    LongEnough(h, gs);
    ParsesFull(h);
  }

  lemma LongEnough(h: seq<string>, gs: seq<int>)
    requires Denotes(h, gs) && |gs| == 8
    ensures |h| >= 7
  {
    hide FormatIpv4, HexOnly;
  }

  /** Forms 2 and 3: "::" stands for the missing zero groups; the last text on a side may be a quad. */
  lemma AcceptsCompressed(s: string, h: seq<string>, gh: seq<int>, t: seq<string>, gt: seq<int>)
    requires CompressedForm(s, h, gh, t, gt)
    ensures ParseIpv6(s) == Some(GroupsValue(Filled(gh, gt)))
  {
    hide ParseIpv6, GroupsValue, GroupList, Join, Denotes;
    DenotedList(h, gh);
    DenotedList(t, gt);
    ParsesCompressed(h, t);
  }

  /** The parts of a side of an accepted text. */
  function SideParts(side: string): seq<string> {
    if side == "" then [] else Split(side, ':')
  }

  lemma SideMeaning(side: string)
    requires ParseGroups(side).Some?
    ensures Join(SideParts(side), ':') == side && Denotes(SideParts(side), ParseGroups(side).value)
  {
    hide GroupList, Denotes;
    if side == "" {
      NoGroups();
      GroupListMeaning([]);
    } else {
      JoinSplit(side, ':');
      GroupListMeaning(Split(side, ':'));
    }
  }

  lemma NoGroups()
    ensures GroupList([]) == Some([])
  {
  }

  lemma {:induction false} DoubleAt(s: string)
    requires FindDouble(s) < |s|
    ensures var i := FindDouble(s); s == s[..i] + "::" + s[i + 2..]
  {
    var i := FindDouble(s);
    if i > 0 {
      DoubleAt(s[1..]);
      assert s[1..][..i - 1] == s[1..i] && s[1..][i + 1..] == s[i + 2..];
      assert s == [s[0]] + s[1..];
      assert [s[0]] + s[1..i] == s[..i];
    }
  }

  lemma HalvesAre(s: string)
    ensures Halves(s)[0] == s[..FindDouble(s)]
    ensures |Halves(s)| == 1 <==> FindDouble(s) == |s|
    ensures |Halves(s)| == 2 ==> Halves(s)[1] == s[FindDouble(s) + 2..]
  {
    var i := FindDouble(s);
    if i < |s| {
      var rest := s[i + 2..];
      if FindDouble(rest) < |rest| { assert |Halves(rest)| >= 2; }
    }
  }

  /** The accepted texts are exactly those of RFC 4291 and those with a quad before "::", each read to
      the value it denotes. */
  lemma AcceptedIff(s: string, v: int)
    ensures ParseIpv6(s) == Some(v) <==> RfcText(s, v) || LeadingQuadText(s, v)
  {
    if RfcText(s, v) || LeadingQuadText(s, v) {
      AcceptedIf(s, v);
    }
    if ParseIpv6(s) == Some(v) {
      AcceptedOnlyIf(s, v);
    }
    hide ParseIpv6, RfcText, LeadingQuadText;
  }

  lemma AcceptedIf(s: string, v: int)
    requires RfcText(s, v) || LeadingQuadText(s, v)
    ensures ParseIpv6(s) == Some(v)
  {
    hide ParseIpv6, GroupsValue, FullForm, HexOnly, QuadLast;
    if h, gs :| FullForm(s, h, gs) && v == GroupsValue(gs) {
      AcceptsFull(s, h, gs);
    } else if RfcText(s, v) {
      var h, gh, t, gt :| CompressedForm(s, h, gh, t, gt) && HexOnly(h) && v == GroupsValue(Filled(gh, gt));
      AcceptsCompressed(s, h, gh, t, gt);
    } else {
      var h, gh, t, gt, q :| CompressedForm(s, h, gh, t, gt) && QuadLast(h, q) && v == GroupsValue(Filled(gh, gt));
      AcceptsCompressed(s, h, gh, t, gt);
    }
  }

  lemma AcceptedOnlyIf(s: string, v: int)
    requires ParseIpv6(s) == Some(v)
    ensures RfcText(s, v) || LeadingQuadText(s, v)
  {
    hide GroupsValue, ParseGroups, Denotes, Halves, HexOnly, QuadLast, SideParts;
    HalvesAre(s);
    var i := FindDouble(s);
    var halves := Halves(s);
    SideMeaning(halves[0]);
    var h, gh := SideParts(halves[0]), ParseGroups(halves[0]).value;
    if i == |s| {
      assert gh + Zeros(0) + [] == gh;
      assert FullForm(s, h, gh);
    } else {
      SideMeaning(halves[1]);
      var t, gt := SideParts(halves[1]), ParseGroups(halves[1]).value;
      DoubleAt(s);
      assert CompressedForm(s, h, gh, t, gt) && v == GroupsValue(Filled(gh, gt));
      EitherKind(h, gh);
    }
  }

  lemma EitherKind(h: seq<string>, gh: seq<int>)
    requires Denotes(h, gh)
    ensures HexOnly(h) || exists q :: QuadLast(h, q)
  {
  }

  /** So an accepted text is outside RFC 4291 exactly when a dot precedes its "::". */
  lemma BeyondRfcIff(s: string)
    requires ParseIpv6(s).Some?
    ensures !RfcText(s, ParseIpv6(s).value) <==> FindDouble(s) < |s| && '.' in s[..FindDouble(s)]
  {
    var v := ParseIpv6(s).value;
    AcceptedIff(s, v);
    hide ParseIpv6;
    if RfcText(s, v) {
      RfcHasNoDotBefore(s, v);
    } else {
      LeadingQuadHasDot(s, v);
    }
    hide RfcText, LeadingQuadText;
  }

  lemma RfcHasNoDotBefore(s: string, v: int)
    requires RfcText(s, v)
    ensures FindDouble(s) == |s| || '.' !in s[..FindDouble(s)]
  {
    hide GroupsValue, Denotes, HexOnly, Join;
    if h, gs :| FullForm(s, h, gs) && v == GroupsValue(gs) {
      DenotesParts(h, gs);
      JoinClean(h);
      FindDoubleAt(s, "");
    } else {
      var h, gh, t, gt :| CompressedForm(s, h, gh, t, gt) && HexOnly(h) && v == GroupsValue(Filled(gh, gt));
      HexOnlyPlain(h);
      JoinClean(h);
      FindDoubleAt(Join(h, ':'), Join(t, ':'));
      assert s[..FindDouble(s)] == Join(h, ':');
    }
  }

  lemma LeadingQuadHasDot(s: string, v: int)
    requires LeadingQuadText(s, v)
    ensures FindDouble(s) < |s| && '.' in s[..FindDouble(s)]
  {
    hide GroupsValue, Denotes, Join, FormatIpv4;
    var h, gh, t, gt, q :| CompressedForm(s, h, gh, t, gt) && QuadLast(h, q) && v == GroupsValue(Filled(gh, gt));
    DenotesParts(h, gh);
    JoinClean(h);
    FindDoubleAt(Join(h, ':'), Join(t, ':'));
    assert s[..FindDouble(s)] == Join(h, ':');
    Ipv4Characters(q);
    LastShows(h, '.');
  }

  lemma {:induction false} LastShows(parts: seq<string>, c: char)
    requires parts != [] && c in parts[|parts| - 1]
    ensures c in Join(parts, ':')
  {
    if |parts| > 1 {
      LastShows(parts[1..], c);
      var rest := Join(parts[1..], ':');
      assert Join(parts, ':')[|parts[0]| + 1..] == rest;
    }
  }

  /** Such a text: the quad of any address, then "::". */
  lemma AcceptsLeadingQuad(v: int)
    requires 0 <= v < 0x1_0000_0000
    ensures ParseIpv6(FormatIpv4(v) + "::") == Some(GroupsValue([v / 0x1_0000, v % 0x1_0000] + Zeros(6)))
    ensures !RfcText(FormatIpv4(v) + "::", GroupsValue([v / 0x1_0000, v % 0x1_0000] + Zeros(6)))
  {
    hide GroupsValue, FormatIpv4, RfcText, ParseIpv6;
    var q, gs := FormatIpv4(v), [v / 0x1_0000, v % 0x1_0000];
    assert [q][..0] == [] && QuadLast([q], v) && QuadValues([q], v) == [] + gs == gs;
    assert Denotes([q], gs) && Denotes([], []);
    assert Join([q], ':') == q && Join([], ':') == "";
    var s := q + "::";
    assert s == q + "::" + "";
    AcceptsCompressed(s, [q], gs, [], []);
    assert Filled(gs, []) == gs + Zeros(6);
    BeyondRfcIff(s);
    Ipv4Characters(v);
    DenotesParts([q], gs);
    JoinClean([q]);
    FindDoubleAt(q, "");
    assert s[..|q|] == q;
  }

  // ---------------------------------------------------------------- IPv6 address to text

  /** v >> 16 * k. */
  function ShiftGroups(v: nat, k: nat): nat {
    if k == 0 then v else ShiftGroups(v / 0x1_0000, k - 1)
  }

  function GroupsOf(v: nat, n: nat): (gs: seq<int>)
    ensures |gs| == n && forall i :: 0 <= i < n ==> 0 <= gs[i] < 0x1_0000
  {
    if n == 0 then [] else GroupsOf(v / 0x1_0000, n - 1) + [v % 0x1_0000]
  }

  lemma {:induction false} GroupsOfAt(v: nat, n: nat, i: nat)
    requires i < n
    ensures GroupsOf(v, n)[i] == ShiftGroups(v, n - 1 - i) % 0x1_0000
  {
    if i < n - 1 { GroupsOfAt(v / 0x1_0000, n - 1, i); }
  }

  lemma {:induction false} GroupsRoundTrip(v: nat, n: nat)
    requires v < Power(0x1_0000, n)
    ensures GroupsValue(GroupsOf(v, n)) == v
  {
    if n > 0 {
      assert Power(0x1_0000, n) == 0x1_0000 * Power(0x1_0000, n - 1);
      GroupsRoundTrip(v / 0x1_0000, n - 1);
      var gs := GroupsOf(v, n);
      assert gs[..|gs| - 1] == GroupsOf(v / 0x1_0000, n - 1);
    }
  }

  predicate ZeroRun(gs: seq<int>, i: int, n: int) {
    0 <= i && 0 <= n && i + n <= |gs| && forall k :: i <= k < i + n ==> gs[k] == 0
  }

  /** Sections 4.2.2 and 4.2.3 of RFC 5952: the longest run of at least two zero groups, the first of
      equals; start -1 if no run has two. */
  ghost predicate LongestRun(gs: seq<int>, start: int, len: int) {
    if start == -1 then len == 1 && forall i, n :: ZeroRun(gs, i, n) ==> n <= 1
    else
      && 2 <= len && ZeroRun(gs, start, len)
      && forall i, n :: ZeroRun(gs, i, n) ==> n <= len && (n == len ==> start <= i)
  }

  function ZeroEnd(gs: seq<int>, i: nat): (j: nat)
    requires i <= |gs|
    ensures i <= j <= |gs| && ZeroRun(gs, i, j - i) && (j < |gs| ==> gs[j] != 0)
    ensures i < |gs| && gs[i] == 0 ==> j > i
    decreases |gs| - i
  {
    if i < |gs| && gs[i] == 0 then ZeroEnd(gs, i + 1) else i
  }

  function Scan(gs: seq<int>, i: nat, best: (int, int)): (int, int)
    requires i <= |gs|
    decreases |gs| - i
  {
    if i == |gs| then best
    else if gs[i] != 0 then Scan(gs, i + 1, best)
    else
      var j := ZeroEnd(gs, i);
      Scan(gs, j, if j - i > best.1 then (i, j - i) else best)
  }

  /** Best among the runs that start before i, none of which crosses i. */
  ghost predicate BestBefore(gs: seq<int>, i: nat, best: (int, int)) {
    && (best.0 == -1 ==> best.1 == 1)
    && (best.0 != -1 ==> 2 <= best.1 && best.0 + best.1 <= i && ZeroRun(gs, best.0, best.1))
    && (forall k, n :: 0 <= k < i && ZeroRun(gs, k, n) && n >= 2 ==> k + n <= i && n <= best.1 && (n == best.1 ==> best.0 <= k))
  }

  lemma {:induction false} ScanFinds(gs: seq<int>, i: nat, best: (int, int))
    requires i <= |gs| && BestBefore(gs, i, best)
    ensures LongestRun(gs, Scan(gs, i, best).0, Scan(gs, i, best).1)
    decreases |gs| - i
  {
    if i < |gs| {
      if gs[i] != 0 {
        forall k, n | 0 <= k < i + 1 && ZeroRun(gs, k, n) && n >= 2
          ensures k + n <= i + 1 && n <= best.1 && (n == best.1 ==> best.0 <= k)
        {
        }
        ScanFinds(gs, i + 1, best);
      } else {
        var j := ZeroEnd(gs, i);
        var next := if j - i > best.1 then (i, j - i) else best;
        forall k, n | 0 <= k < j && ZeroRun(gs, k, n) && n >= 2
          ensures k + n <= j && n <= next.1 && (n == next.1 ==> next.0 <= k)
        {
        }
        ScanFinds(gs, j, next);
      }
    }
  }

  function HexTexts(gs: seq<int>): (hex: seq<string>)
    requires forall i :: 0 <= i < |gs| ==> 0 <= gs[i] < 0x1_0000
    ensures |hex| == |gs| && forall i :: 0 <= i < |gs| ==> hex[i] == ToDigits(gs[i], 16)
  {
    seq(|gs|, i requires 0 <= i < |gs| => ToDigits(gs[i], 16))
  }

  /** The groups in lower-case hex without leading zeros, the run [start, start + len) as "::". */
  function Render(gs: seq<int>, start: int, len: int): string
    requires forall i :: 0 <= i < |gs| ==> 0 <= gs[i] < 0x1_0000
    requires start == -1 || (0 <= start && 0 <= len && start + len <= |gs|)
  {
    var hex := HexTexts(gs);
    if start == -1 then Join(hex, ':')
    else Join(hex[..start], ':') + "::" + Join(hex[start + len..], ':')
  }

  /** Section 4 of RFC 5952. */
  ghost predicate IsRfc5952(s: string, v: nat) {
    exists start, len :: LongestRun(GroupsOf(v, 8), start, len) && s == Render(GroupsOf(v, 8), start, len)
  }

  function FormatIpv6(v: nat): (s: string) {
    var gs := GroupsOf(v, 8);
    var best := Scan(gs, 0, (-1, 1));
    ScanFinds(gs, 0, (-1, 1));
    Render(gs, best.0, best.1)
  }

  lemma LongestRunUnique(gs: seq<int>, s1: int, l1: int, s2: int, l2: int)
    requires LongestRun(gs, s1, l1) && LongestRun(gs, s2, l2)
    ensures s1 == s2 && l1 == l2
  {
  }

  /** The text is the one RFC 5952 prescribes, and no other is. */
  lemma Ipv6Canonical(v: nat, s: string)
    ensures s == FormatIpv6(v) <==> IsRfc5952(s, v)
  {
    var gs := GroupsOf(v, 8);
    var best := Scan(gs, 0, (-1, 1));
    ScanFinds(gs, 0, (-1, 1));
    hide Scan, GroupsOf, Render;
    if IsRfc5952(s, v) {
      var start, len :| LongestRun(gs, start, len) && s == Render(gs, start, len);
      LongestRunUnique(gs, start, len, best.0, best.1);
    }
  }

  /** The loops of formatIpv6. */
  method FormatIpv6Loop(v: nat) returns (s: string)
    ensures s == FormatIpv6(v)
  {
    var groups: seq<int> := [];
    var i := 7;
    while i >= 0
      invariant -1 <= i <= 7 && groups == GroupsOf(v, 8)[..7 - i]
    {
      GroupsOfAt(v, 8, 7 - i);
      groups := groups + [ShiftGroups(v, i) % 0x1_0000];
      i := i - 1;
    }
    var bestStart, bestLen := -1, 1;
    i := 0;
    while i < 8
      invariant 0 <= i <= 8 && Scan(groups, i, (bestStart, bestLen)) == Scan(groups, 0, (-1, 1))
      decreases 8 - i
    {
      if groups[i] != 0 {
        i := i + 1;
        continue;
      }
      var j := i;
      while j < 8 && groups[j] == 0
        invariant i <= j <= 8 && ZeroEnd(groups, j) == ZeroEnd(groups, i)
      {
        j := j + 1;
      }
      if j - i > bestLen {
        bestStart := i;
        bestLen := j - i;
      }
      i := j;
    }
    assert groups == GroupsOf(v, 8);
    ScanFinds(groups, 0, (-1, 1));
    assert (bestStart, bestLen) == Scan(groups, 0, (-1, 1));
    var hex := HexTexts(groups);
    if bestStart == -1 {
      return Join(hex, ':');
    }
    s := Join(hex[..bestStart], ':') + "::" + Join(hex[bestStart + bestLen..], ':');
  }

  lemma HexRoundTrip(n: nat)
    requires n < 0x1_0000
    ensures IsHexGroup(ToDigits(n, 16)) && Value(ToDigits(n, 16), 16) == n
    ensures Without(ToDigits(n, 16), ':') && Without(ToDigits(n, 16), '.') && Without(ToDigits(n, 16), '/')
  {
    DigitsShape(n, 16);
    DigitsValue(n, 16);
    PowerThree(16);
    assert Power(16, 4) == 16 * Power(16, 3);
    DigitsLength(n, 16, 4);
  }

  lemma {:induction false} HexTextsRead(gs: seq<int>)
    requires forall i :: 0 <= i < |gs| ==> 0 <= gs[i] < 0x1_0000
    ensures Parts(HexTexts(gs)) && GroupList(HexTexts(gs)) == Some(gs)
  {
    forall i | 0 <= i < |gs| ensures HexTexts(gs)[i] != "" && Without(HexTexts(gs)[i], ':') {
      HexRoundTrip(gs[i]);
    }
    if gs != [] {
      HexRoundTrip(gs[0]);
      HexTextsRead(gs[1..]);
      assert HexTexts(gs)[1..] == HexTexts(gs[1..]);
      assert gs == [gs[0]] + gs[1..];
    }
  }

  /** Every IPv6 address reads back from its text. */
  lemma Ipv6RoundTrip(v: nat)
    requires v < Power(0x1_0000, 8)
    ensures ParseIpv6(FormatIpv6(v)) == Some(v)
  {
    var gs := GroupsOf(v, 8);
    var best := Scan(gs, 0, (-1, 1));
    ScanFinds(gs, 0, (-1, 1));
    GroupsRoundTrip(v, 8);
    hide Scan, GroupsOf, GroupsValue, Power, ParseIpv6;
    RenderReads(gs, best.0, best.1);
  }

  lemma AroundRun(gs: seq<int>, start: int, len: int)
    requires LongestRun(gs, start, len)
    ensures start != -1 ==>
              0 <= start && 2 <= len && start + len <= |gs| && gs[..start] + Zeros(len) + gs[start + len..] == gs
  {
  }

  lemma RenderReads(gs: seq<int>, start: int, len: int)
    requires |gs| == 8 && forall i :: 0 <= i < |gs| ==> 0 <= gs[i] < 0x1_0000
    requires LongestRun(gs, start, len)
    ensures ParseIpv6(Render(gs, start, len)) == Some(GroupsValue(gs))
  {
    hide GroupsValue, Join, ParseIpv6, GroupList, LongestRun, Parts;
    AroundRun(gs, start, len);
    if start == -1 {
      HexTextsRead(gs);
      ParsesFull(HexTexts(gs));
    } else {
      var h, t := gs[..start], gs[start + len..];
      HexTextsRead(h);
      HexTextsRead(t);
      assert HexTexts(gs)[..start] == HexTexts(h) && HexTexts(gs)[start + len..] == HexTexts(t);
      ParsesCompressed(HexTexts(h), HexTexts(t));
    }
  }
}
