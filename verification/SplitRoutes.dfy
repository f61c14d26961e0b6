/** The route compiler of clients/core-ts/src/split.ts: CIDR text in, minimal CIDR text out. */
module SplitRoutes {
  import opened Arithmetic
  import opened Common
  import opened Text
  import opened Intervals
  import opened CidrCover
  import opened IpText

  // ---------------------------------------------------------------- one CIDR as text

  /** An address or CIDR string in canonical form, host bits masked off. */
  function ParseCidr(value: string): Option<Cidr> {
    var trimmed := Trim(value);
    var slash := Find(trimmed, '/');
    var addrPart := trimmed[..slash];
    match ParseAddress(addrPart)
    case None => None
    case Some((f, addr)) =>
      if slash == |trimmed| then Some(Masked(f, addr, FamilyBits(f)))
      else
        var prefixPart := trimmed[slash + 1..];
        if !(|prefixPart| <= 3 && Numeral(prefixPart, 10)) || Value(prefixPart, 10) > FamilyBits(f) then None
        else Some(Masked(f, addr, Value(prefixPart, 10)))
  }

  function ParseAddress(s: string): Option<(Family, int)> {
    match ParseIpv4(s)
    case Some(v) => Some((V4, v))
    case None =>
      match ParseIpv6(s)
      case Some(v) => Some((V6, v))
      case None => None
  }

  function Masked(f: Family, addr: int, prefix: nat): Cidr
    requires prefix <= FamilyBits(f)
  {
    Cidr(f, Start(addr, FamilyBits(f) - prefix), prefix)
  }

  function FormatAddress(f: Family, v: int): string
    requires 0 <= v < Space(f)
  {
    SpaceSizes();
    if f == V4 then FormatIpv4(v) else FormatIpv6(v)
  }

  function FormatCidr(c: Cidr): string
    requires ValidCidr(c)
  {
    FormatAddress(c.family, c.net) + "/" + ToDigits(c.prefix, 10)
  }

  lemma {:induction false} Pow2Sixteens(n: nat)
    ensures Pow2(16 * n) == Power(0x1_0000, n)
  {
    if n > 0 {
      Pow2Sixteens(n - 1);
      var m := 16 * (n - 1);
      Pow2Four(m);
      Pow2Four(m + 4);
      Pow2Four(m + 8);
      Pow2Four(m + 12);
    }
  }

  lemma Pow2Four(m: nat)
    ensures Pow2(m + 4) == 16 * Pow2(m)
  {
    assert Pow2(m + 1) == 2 * Pow2(m);
    assert Pow2(m + 2) == 2 * Pow2(m + 1);
    assert Pow2(m + 3) == 2 * Pow2(m + 2);
    assert Pow2(m + 4) == 2 * Pow2(m + 3);
  }

  lemma SpaceSizes()
    ensures Space(V4) == 0x1_0000_0000 && Space(V6) == Power(0x1_0000, 8)
  {
    Pow2Sixteens(2);
    Pow2Sixteens(8);
    PowerOne(0x1_0000);
    assert Power(0x1_0000, 2) == 0x1_0000 * Power(0x1_0000, 1);
  }

  lemma {:induction false} GroupsValueBound(gs: seq<int>)
    requires forall i :: 0 <= i < |gs| ==> 0 <= gs[i] < 0x1_0000
    ensures 0 <= GroupsValue(gs) < Power(0x1_0000, |gs|)
  {
    if gs != [] { GroupsValueBound(gs[..|gs| - 1]); }
  }

  lemma {:induction false} GroupListBound(parts: seq<string>)
    ensures GroupList(parts).Some? ==>
              forall i :: 0 <= i < |GroupList(parts).value| ==> 0 <= GroupList(parts).value[i] < 0x1_0000
  {
    hide ParseIpv4, Power;
    if parts != [] {
      GroupListBound(parts[1..]);
      if IsHexGroup(parts[0]) { HexGroupBound(parts[0]); }
      Ipv4Spelling(parts[0]);
    }
  }

  lemma HexGroupBound(g: string)
    requires IsHexGroup(g)
    ensures Value(g, 16) < 0x1_0000
  {
    ValueBound(g, 16);
    PowerThree(16);
    PowerOne(16);
    assert Power(16, 2) == 16 * Power(16, 1);
    assert Power(16, 4) == 16 * Power(16, 3);
  }

  lemma AddressBound(s: string)
    ensures ParseAddress(s).Some? ==> 0 <= ParseAddress(s).value.1 < Space(ParseAddress(s).value.0)
  {
    SpaceSizes();
    Ipv4Spelling(s);
    Ipv6Bound(s);
    hide ParseIpv4, ParseIpv6, Power;
  }

  lemma Ipv6Bound(s: string)
    ensures ParseIpv6(s).Some? ==> 0 <= ParseIpv6(s).value < Power(0x1_0000, 8)
  {
    hide GroupList, Halves, Split, Power, GroupsValue;
    if ParseIpv6(s).Some? {
      var halves := Halves(s);
      GroupListBound(Split(halves[0], ':'));
      if |halves| == 2 { GroupListBound(Split(halves[1], ':')); }
      var head := ParseGroups(halves[0]).value;
      var tail := if |halves| == 2 then ParseGroups(halves[1]).value else [];
      GroupsValueBound(head + Zeros(8 - |head| - |tail|) + tail);
    }
  }

  /** What the parser returns is a valid prefix. */
  lemma ParsedIsValid(value: string)
    ensures ParseCidr(value).Some? ==> ValidCidr(ParseCidr(value).value)
  {
    var trimmed := Trim(value);
    var addrPart := trimmed[..Find(trimmed, '/')];
    AddressBound(addrPart);
    hide ParseAddress, Trim, Find;
    if ParseCidr(value).Some? {
      var (f, addr) := ParseAddress(addrPart).value;
      MaskedValid(f, addr, ParseCidr(value).value.prefix);
    }
  }

  lemma MaskedValid(f: Family, addr: int, prefix: nat)
    requires prefix <= FamilyBits(f) && 0 <= addr < Space(f)
    ensures ValidCidr(Masked(f, addr, prefix))
  {
    hide Pow2;
    var e := FamilyBits(f) - prefix;
    StartAligned(addr, e);
    Nested(addr, e, FamilyBits(f));
    StartUnique(0, FamilyBits(f), addr);
    assert 0 % Pow2(FamilyBits(f)) == 0;
  }

  lemma MaskedItself(c: Cidr)
    requires ValidCidr(c)
    ensures Masked(c.family, c.net, c.prefix) == c
  {
    hide Pow2;
    StartUnique(c.net, FamilyBits(c.family) - c.prefix, c.net);
  }

  lemma Ipv6Characters(v: nat)
    requires v < Power(0x1_0000, 8)
    ensures Without(FormatIpv6(v), '/') && Without(FormatIpv6(v), '.') && FormatIpv6(v) != ""
    ensures !JsSpace(FormatIpv6(v)[0])
  {
    var gs := GroupsOf(v, 8);
    var best := Scan(gs, 0, (-1, 1));
    ScanFinds(gs, 0, (-1, 1));
    hide Scan, GroupsOf, Power;
    RenderCharacters(gs, best.0, best.1);
  }

  predicate AddressChars(s: string) {
    forall i :: 0 <= i < |s| ==> s[i] == ':' || '0' <= s[i] <= '9' || 'a' <= s[i] <= 'f'
  }

  lemma RenderCharacters(gs: seq<int>, start: int, len: int)
    requires |gs| == 8 && forall i :: 0 <= i < |gs| ==> 0 <= gs[i] < 0x1_0000
    requires LongestRun(gs, start, len)
    ensures AddressChars(Render(gs, start, len)) && Render(gs, start, len) != ""
  {
    var hex := HexTexts(gs);
    forall i | 0 <= i < 8 ensures AddressChars(hex[i]) {
      DigitsShape(gs[i], 16);
    }
    if start == -1 {
      JoinAddressChars(hex);
      assert Join(hex, ':') == hex[0] + [':'] + Join(hex[1..], ':');
    } else {
      JoinAddressChars(hex[..start]);
      JoinAddressChars(hex[start + len..]);
    }
  }

  lemma {:induction false} JoinAddressChars(parts: seq<string>)
    requires forall i :: 0 <= i < |parts| ==> AddressChars(parts[i])
    ensures AddressChars(Join(parts, ':'))
  {
    if |parts| > 1 { JoinAddressChars(parts[1..]); }
  }

  lemma AddressText(f: Family, v: int)
    requires 0 <= v < Space(f)
    ensures ParseAddress(FormatAddress(f, v)) == Some((f, v))
    ensures Without(FormatAddress(f, v), '/') && FormatAddress(f, v) != "" && !JsSpace(FormatAddress(f, v)[0])
  {
    SpaceSizes();
    hide ParseIpv4, ParseIpv6, FormatIpv6, FormatIpv4, Power, Pow2;
    if f == V4 {
      Ipv4RoundTrip(v);
      Ipv4Characters(v);
      Ipv4First(v);
    } else {
      Ipv6RoundTrip(v);
      Ipv6Characters(v);
      NotIpv4(FormatIpv6(v));
    }
  }

  lemma Ipv4First(v: int)
    requires 0 <= v < 0x1_0000_0000
    ensures FormatIpv4(v) != "" && !JsSpace(FormatIpv4(v)[0])
  {
    var o := Octets(v);
    DigitsShape(v / 0x100_0000 % 256, 10);
    assert Join(o, '.') == o[0] + ['.'] + Join(o[1..], '.');
  }

  lemma NotIpv4(s: string)
    requires Without(s, '.')
    ensures ParseIpv4(s) == None
  {
    FindAt(s, '.', "");
  }

  lemma TrimNothing(s: string)
    requires s != "" && !JsSpace(s[0]) && !JsSpace(s[|s| - 1])
    ensures Trim(s) == s
  {
  }

  lemma PositiveSize(c: Cidr)
    requires ValidCidr(c)
    ensures Size(c) >= 1
  {
  }

  /** Every valid prefix, IPv4 or IPv6, reads back from its text. */
  lemma CidrRoundTrip(c: Cidr)
    requires ValidCidr(c)
    ensures ParseCidr(FormatCidr(c)) == Some(c)
  {
    hide FormatAddress, ParseAddress, ToDigits, Value, Masked, Pow2, Power, Without;
    var a := FormatAddress(c.family, c.net);
    var p := ToDigits(c.prefix, 10);
    PositiveSize(c);
    AddressText(c.family, c.net);
    MaskedItself(c);
    DigitsShape(c.prefix, 10);
    DigitsValue(c.prefix, 10);
    PowerThree(10);
    DigitsLength(c.prefix, 10, 3);
    var s := a + ['/'] + p;
    assert s == FormatCidr(c);
    FindAt(a, '/', p);
    assert s[|s| - 1] == p[|p| - 1];
    TrimNothing(s);
    assert s[..|a|] == a && s[|a| + 1..] == p;
    hide Trim, Find;
  }

  /** Formatting what was parsed changes the spelling, never the prefix, and is idempotent. */
  lemma CanonicalSpelling(value: string)
    requires ParseCidr(value).Some?
    ensures ValidCidr(ParseCidr(value).value)
    ensures var text := FormatCidr(ParseCidr(value).value);
            ParseCidr(text) == ParseCidr(value) && FormatCidr(ParseCidr(text).value) == text
  {
    ParsedIsValid(value);
    CidrRoundTrip(ParseCidr(value).value);
  }

  // ---------------------------------------------------------------- lists of CIDRs

  /** Parses every string; None is the exception thrown on the first bad one. */
  function ParseAll(cidrs: seq<string>): Option<seq<Cidr>> {
    if cidrs == [] then Some([])
    else
      match (ParseAll(cidrs[..|cidrs| - 1]), ParseCidr(cidrs[|cidrs| - 1]))
      case (Some(front), Some(last)) => Some(front + [last])
      case _ => None
  }

  /** The intervals of the prefixes of one family, in order. */
  function IntervalsOf(cs: seq<Cidr>, f: Family): seq<Interval>
    requires Valid(cs)
  {
    if cs == [] then []
    else IntervalsOf(cs[..|cs| - 1], f) + (if cs[|cs| - 1].family == f then [ToInterval(cs[|cs| - 1])] else [])
  }

  /** Address x of family f is covered by some prefix of the list. */
  ghost predicate Reaches(cs: seq<Cidr>, f: Family, x: int)
    requires Valid(cs)
  {
    exists i :: 0 <= i < |cs| && cs[i].family == f && BlockHas(cs[i], x)
  }

  function MergedOf(cs: seq<Cidr>, f: Family): seq<Interval>
    requires Valid(cs)
  {
    Merged(IntervalsOf(cs, f))
  }

  lemma {:induction false} IntervalsOfMeaning(cs: seq<Cidr>, f: Family)
    requires Valid(cs)
    ensures NonEmpty(IntervalsOf(cs, f)) && AllInSpace(IntervalsOf(cs, f), f)
    ensures forall x :: Covers(IntervalsOf(cs, f), x) <==> Reaches(cs, f, x)
  {
    hide Pow2;
    if cs != [] {
      var front, c := cs[..|cs| - 1], cs[|cs| - 1];
      IntervalsOfMeaning(front, f);
      forall x ensures Covers(IntervalsOf(cs, f), x) <==> Reaches(cs, f, x) {
        if c.family == f {
          CoversConcat(IntervalsOf(front, f), [ToInterval(c)], x);
          CoversOne(ToInterval(c), x);
        } else {
          assert IntervalsOf(cs, f) == IntervalsOf(front, f);
        }
        assert cs == front + [c];
        ReachesConcat(front, [c], f, x);
        ReachesOne(c, f, x);
      }
    }
  }

  lemma ReachesOne(c: Cidr, f: Family, x: int)
    requires ValidCidr(c)
    ensures Reaches([c], f, x) <==> c.family == f && BlockHas(c, x)
  {
    assert [c][0] == c;
  }

  lemma ReachesConcat(a: seq<Cidr>, b: seq<Cidr>, f: Family, x: int)
    requires Valid(a) && Valid(b)
    ensures Valid(a + b) && (Reaches(a + b, f, x) <==> Reaches(a, f, x) || Reaches(b, f, x))
  {
    hide Pow2, BlockHas;
    if Reaches(a, f, x) {
      var i :| 0 <= i < |a| && a[i].family == f && BlockHas(a[i], x);
      assert BlockHas((a + b)[i], x);
    }
    if Reaches(b, f, x) {
      var i :| 0 <= i < |b| && b[i].family == f && BlockHas(b[i], x);
      assert BlockHas((a + b)[|a| + i], x);
    }
    if Reaches(a + b, f, x) {
      var i :| 0 <= i < |a + b| && (a + b)[i].family == f && BlockHas((a + b)[i], x);
      if i < |a| { assert BlockHas(a[i], x); } else { assert BlockHas(b[i - |a|], x); }
    }
  }

  lemma {:induction false} MergedInSpace(ivs: seq<Interval>, f: Family)
    requires NonEmpty(ivs) && AllInSpace(ivs, f)
    ensures Canonical(Merged(ivs)) && AllInSpace(Merged(ivs), f) && SameAddresses(Merged(ivs), ivs)
  {
    hide Pow2;
    MergedMeaning(ivs);
    WithinSpace(Merged(ivs), ivs, f);
  }

  lemma WithinSpace(a: seq<Interval>, b: seq<Interval>, f: Family)
    requires NonEmpty(a) && AllInSpace(b, f) && forall x :: Covers(a, x) ==> Covers(b, x)
    ensures AllInSpace(a, f)
  {
    hide Pow2;
    forall i | 0 <= i < |a| ensures InSpace(a[i], f) {
      assert Has(a[i], a[i].start) && Has(a[i], a[i].end);
      assert Covers(a, a[i].start) && Covers(a, a[i].end);
      var j :| 0 <= j < |b| && Has(b[j], a[i].start);
      var k :| 0 <= k < |b| && Has(b[k], a[i].end);
      assert InSpace(b[j], f) && InSpace(b[k], f);
    }
  }

  lemma MergedOfMeaning(cs: seq<Cidr>, f: Family)
    requires Valid(cs)
    ensures Canonical(MergedOf(cs, f)) && AllInSpace(MergedOf(cs, f), f)
    ensures forall x :: Covers(MergedOf(cs, f), x) <==> Reaches(cs, f, x)
  {
    IntervalsOfMeaning(cs, f);
    MergedInSpace(IntervalsOf(cs, f), f);
  }

  /** A pair of canonical lists, one per family, as one list of prefixes, IPv4 first. */
  function Both(v4: seq<Interval>, v6: seq<Interval>): seq<Cidr>
    requires AllInSpace(v4, V4) && AllInSpace(v6, V6)
  {
    Cidrs(v4, V4) + Cidrs(v6, V6)
  }

  lemma BothMeaning(v4: seq<Interval>, v6: seq<Interval>)
    requires AllInSpace(v4, V4) && AllInSpace(v6, V6) && Canonical(v4) && Canonical(v6)
    ensures Valid(Both(v4, v6))
    ensures forall f, x :: Reaches(Both(v4, v6), f, x) <==> Covers(if f == V4 then v4 else v6, x)
  {
    hide Pow2, Cidrs;
    CidrsMeaning(v4, V4);
    CidrsMeaning(v6, V6);
    forall f, x ensures Reaches(Both(v4, v6), f, x) <==> Covers(if f == V4 then v4 else v6, x) {
      ReachesConcat(Cidrs(v4, V4), Cidrs(v6, V6), f, x);
      OneFamily(Cidrs(v4, V4), V4, f, x);
      OneFamily(Cidrs(v6, V6), V6, f, x);
    }
  }

  lemma OneFamily(cs: seq<Cidr>, g: Family, f: Family, x: int)
    requires Valid(cs) && forall i :: 0 <= i < |cs| ==> cs[i].family == g
    ensures Reaches(cs, f, x) <==> f == g && BlocksCover(cs, x)
  {
  }

  function Texts(cs: seq<Cidr>): (ts: seq<string>)
    requires Valid(cs)
    ensures |ts| == |cs| && forall i :: 0 <= i < |cs| ==> ts[i] == FormatCidr(cs[i])
  {
    seq(|cs|, i requires 0 <= i < |cs| => FormatCidr(cs[i]))
  }

  lemma {:induction false} TextsRead(cs: seq<Cidr>)
    requires Valid(cs)
    ensures ParseAll(Texts(cs)) == Some(cs)
  {
    hide Pow2, FormatCidr, ParseCidr;
    if cs != [] {
      TextsRead(cs[..|cs| - 1]);
      CidrRoundTrip(cs[|cs| - 1]);
      assert Texts(cs)[..|cs| - 1] == Texts(cs[..|cs| - 1]);
      assert Texts(cs)[|cs| - 1] == FormatCidr(cs[|cs| - 1]);
      assert cs == cs[..|cs| - 1] + [cs[|cs| - 1]];
    }
  }

  lemma {:induction false} ParsedValid(cidrs: seq<string>)
    ensures ParseAll(cidrs).Some? ==> Valid(ParseAll(cidrs).value)
  {
    hide Pow2, ParseCidr;
    if cidrs != [] {
      ParsedValid(cidrs[..|cidrs| - 1]);
      ParsedIsValid(cidrs[|cidrs| - 1]);
    }
  }

  // ---------------------------------------------------------------- the route operations

  /** Address x of family f is covered by the parsed strings. */
  ghost predicate Routed(cidrs: seq<string>, f: Family, x: int) {
    ParsedValid(cidrs);
    ParseAll(cidrs).Some? && Reaches(ParseAll(cidrs).value, f, x)
  }

  function MergedCidrStrings(cidrs: seq<string>): Option<seq<string>> {
    match ParseAll(cidrs)
    case None => None
    case Some(cs) =>
      ParsedValid(cidrs);
      MergedOfMeaning(cs, V4);
      MergedOfMeaning(cs, V6);
      BothMeaning(MergedOf(cs, V4), MergedOf(cs, V6));
      Some(Texts(Both(MergedOf(cs, V4), MergedOf(cs, V6))))
  }

  function SubtractCidrStrings(a: seq<string>, b: seq<string>): Option<seq<string>> {
    match (ParseAll(a), ParseAll(b))
    case (Some(cs), Some(ds)) =>
      ParsedValid(a);
      ParsedValid(b);
      DifferenceMeaning(cs, ds, V4);
      DifferenceMeaning(cs, ds, V6);
      BothMeaning(Difference(cs, ds, V4), Difference(cs, ds, V6));
      Some(Texts(Both(Difference(cs, ds, V4), Difference(cs, ds, V6))))
    case _ => None
  }

  function Difference(cs: seq<Cidr>, ds: seq<Cidr>, f: Family): seq<Interval>
    requires Valid(cs) && Valid(ds)
  {
    Subtracted(MergedOf(cs, f), MergedOf(ds, f))
  }

  lemma DifferenceMeaning(cs: seq<Cidr>, ds: seq<Cidr>, f: Family)
    requires Valid(cs) && Valid(ds)
    ensures Canonical(Difference(cs, ds, f)) && AllInSpace(Difference(cs, ds, f), f)
    ensures forall x :: Covers(Difference(cs, ds, f), x) <==> Reaches(cs, f, x) && !Reaches(ds, f, x)
  {
    MergedOfMeaning(cs, f);
    MergedOfMeaning(ds, f);
    SubtractedMeaning(MergedOf(cs, f), MergedOf(ds, f));
    WithinSpace(Difference(cs, ds, f), MergedOf(cs, f), f);
  }

  /** The whole address space of a family minus the excluded prefixes. */
  function Complement(cs: seq<Cidr>, f: Family): seq<Interval>
    requires Valid(cs)
  {
    Subtracted([Interval(0, Space(f) - 1)], MergedOf(cs, f))
  }

  lemma ComplementMeaning(cs: seq<Cidr>, f: Family)
    requires Valid(cs)
    ensures Canonical(Complement(cs, f)) && AllInSpace(Complement(cs, f), f)
    ensures forall x :: Covers(Complement(cs, f), x) <==> 0 <= x < Space(f) && !Reaches(cs, f, x)
  {
    hide Pow2;
    var full := [Interval(0, Space(f) - 1)];
    MergedOfMeaning(cs, f);
    SubtractedMeaning(full, MergedOf(cs, f));
    forall x ensures Covers(full, x) <==> 0 <= x < Space(f) { CoversOne(full[0], x); }
    WithinSpace(Complement(cs, f), full, f);
  }

  /** The families a complement is asked for: 'v4', 'v6' or 'both'. */
  datatype Asked = OnlyV4 | OnlyV6 | BothFamilies

  predicate Asks(asked: Asked, f: Family) {
    asked == BothFamilies || (asked == OnlyV4 <==> f == V4)
  }

  function ComplementIf(cs: seq<Cidr>, f: Family, asked: Asked): seq<Interval>
    requires Valid(cs)
  {
    if Asks(asked, f) then Complement(cs, f) else []
  }

  lemma ComplementIfMeaning(cs: seq<Cidr>, f: Family, asked: Asked)
    requires Valid(cs)
    ensures Canonical(ComplementIf(cs, f, asked)) && AllInSpace(ComplementIf(cs, f, asked), f)
    ensures forall x :: Covers(ComplementIf(cs, f, asked), x) <==> Asks(asked, f) && 0 <= x < Space(f) && !Reaches(cs, f, x)
  {
    ComplementMeaning(cs, f);
    hide Complement, Reaches, Pow2;
  }

  function ComplementRoutes(excluded: seq<string>, asked: Asked): Option<seq<string>> {
    match ParseAll(excluded)
    case None => None
    case Some(cs) =>
      ParsedValid(excluded);
      ComplementIfMeaning(cs, V4, asked);
      ComplementIfMeaning(cs, V6, asked);
      BothMeaning(ComplementIf(cs, V4, asked), ComplementIf(cs, V6, asked));
      Some(Texts(Both(ComplementIf(cs, V4, asked), ComplementIf(cs, V6, asked))))
  }

  lemma {:induction false} ParseAllConcat(a: seq<string>, b: seq<string>)
    ensures ParseAll(a + b) == (if ParseAll(a).Some? && ParseAll(b).Some?
                                then Some(ParseAll(a).value + ParseAll(b).value) else None)
  {
    hide ParseCidr;
    if b == [] {
      assert a + b == a;
      if ParseAll(a).Some? { assert ParseAll(a).value + [] == ParseAll(a).value; }
    } else {
      assert (a + b)[..|a + b| - 1] == a + b[..|b| - 1];
      ParseAllConcat(a, b[..|b| - 1]);
      if ParseAll(a).Some? && ParseAll(b).Some? {
        assert ParseAll(a).value + ParseAll(b).value
            == (ParseAll(a).value + ParseAll(b[..|b| - 1]).value) + [ParseCidr(b[|b| - 1]).value];
      }
    }
  }

  lemma RoutedIs(cidrs: seq<string>, f: Family, x: int)
    requires ParseAll(cidrs).Some? && Valid(ParseAll(cidrs).value)
    ensures Routed(cidrs, f, x) <==> Reaches(ParseAll(cidrs).value, f, x)
  {
  }

  /** What the printed form of two canonical lists covers. */
  lemma PrintedMeaning(v4: seq<Interval>, v6: seq<Interval>)
    requires AllInSpace(v4, V4) && AllInSpace(v6, V6) && Canonical(v4) && Canonical(v6)
    ensures Valid(Both(v4, v6)) && ParseAll(Texts(Both(v4, v6))) == Some(Both(v4, v6))
    ensures forall f, x :: Routed(Texts(Both(v4, v6)), f, x) <==> Covers(if f == V4 then v4 else v6, x)
  {
    BothMeaning(v4, v6);
    TextsRead(Both(v4, v6));
    hide ParseAll, Both, Texts, Pow2;
  }

  /** The output strings cover exactly the addresses of the input strings. */
  lemma MergedStringsMeaning(cidrs: seq<string>)
    requires ParseAll(cidrs).Some?
    ensures MergedCidrStrings(cidrs).Some?
    ensures forall f, x :: Routed(MergedCidrStrings(cidrs).value, f, x) <==> Routed(cidrs, f, x)
  {
    var cs := ParseAll(cidrs).value;
    ParsedValid(cidrs);
    MergedOfMeaning(cs, V4);
    MergedOfMeaning(cs, V6);
    PrintedMeaning(MergedOf(cs, V4), MergedOf(cs, V6));
    hide ParseAll, Both, MergedOf, Texts, Pow2, Routed, Reaches;
    forall f, x ensures Routed(cidrs, f, x) <==> Reaches(cs, f, x) { RoutedIs(cidrs, f, x); }
  }

  /** Subtraction leaves exactly the addresses of a that b does not cover. */
  lemma SubtractedStringsMeaning(a: seq<string>, b: seq<string>)
    requires ParseAll(a).Some? && ParseAll(b).Some?
    ensures SubtractCidrStrings(a, b).Some?
    ensures forall f, x :: Routed(SubtractCidrStrings(a, b).value, f, x) <==> Routed(a, f, x) && !Routed(b, f, x)
  {
    var cs, ds := ParseAll(a).value, ParseAll(b).value;
    ParsedValid(a);
    ParsedValid(b);
    DifferenceMeaning(cs, ds, V4);
    DifferenceMeaning(cs, ds, V6);
    PrintedMeaning(Difference(cs, ds, V4), Difference(cs, ds, V6));
    hide ParseAll, Both, Difference, Texts, Pow2, Routed, Reaches;
    forall f, x ensures Routed(a, f, x) <==> Reaches(cs, f, x) { RoutedIs(a, f, x); }
    forall f, x ensures Routed(b, f, x) <==> Reaches(ds, f, x) { RoutedIs(b, f, x); }
  }

  /** The complement covers exactly the addresses of the families asked for that are not excluded. */
  lemma ComplementStringsMeaning(excluded: seq<string>, asked: Asked)
    requires ParseAll(excluded).Some?
    ensures ComplementRoutes(excluded, asked).Some?
    ensures forall f, x :: Routed(ComplementRoutes(excluded, asked).value, f, x)
                      <==> Asks(asked, f) && 0 <= x < Space(f) && !Routed(excluded, f, x)
  {
    hide ParseAll, Both, ComplementIf, Texts, Pow2, Routed, Reaches, Asks;
    var cs := ParseAll(excluded).value;
    ParsedValid(excluded);
    ComplementIfMeaning(cs, V4, asked);
    ComplementIfMeaning(cs, V6, asked);
    PrintedMeaning(ComplementIf(cs, V4, asked), ComplementIf(cs, V6, asked));
    forall f, x ensures Routed(excluded, f, x) <==> Reaches(cs, f, x) { RoutedIs(excluded, f, x); }
  }

  /** The merged strings depend only on the addresses covered: not on order, overlap or spelling. */
  lemma MergedDependsOnAddresses(a: seq<string>, b: seq<string>)
    requires ParseAll(a).Some? && ParseAll(b).Some?
    requires forall f, x :: Routed(a, f, x) <==> Routed(b, f, x)
    ensures MergedCidrStrings(a) == MergedCidrStrings(b)
  {
    var cs, ds := ParseAll(a).value, ParseAll(b).value;
    ParsedValid(a);
    ParsedValid(b);
    SameMerged(cs, ds, V4) by {
      forall x ensures Reaches(cs, V4, x) <==> Reaches(ds, V4, x) { assert Routed(a, V4, x) <==> Routed(b, V4, x); }
    }
    SameMerged(cs, ds, V6) by {
      forall x ensures Reaches(cs, V6, x) <==> Reaches(ds, V6, x) { assert Routed(a, V6, x) <==> Routed(b, V6, x); }
    }
  }

  lemma SameMerged(cs: seq<Cidr>, ds: seq<Cidr>, f: Family)
    requires Valid(cs) && Valid(ds) && forall x :: Reaches(cs, f, x) <==> Reaches(ds, f, x)
    ensures MergedOf(cs, f) == MergedOf(ds, f)
  {
    MergedOfMeaning(cs, f);
    MergedOfMeaning(ds, f);
    CanonicalUnique(MergedOf(cs, f), MergedOf(ds, f));
  }

  /** Complementing twice yields the canonical merge of the input. */
  lemma ComplementTwice(excluded: seq<string>)
    requires ParseAll(excluded).Some?
    ensures ComplementRoutes(excluded, BothFamilies).Some?
    ensures ComplementRoutes(ComplementRoutes(excluded, BothFamilies).value, BothFamilies) == MergedCidrStrings(excluded)
  {
    hide ParseAll, Both, Complement, MergedOf, Texts, Pow2, Reaches, Covers, AllInSpace, Canonical, Valid;
    ParsedValid(excluded);
    var cs := ParseAll(excluded).value;
    ComplementMeaning(cs, V4);
    ComplementMeaning(cs, V6);
    var once := Both(Complement(cs, V4), Complement(cs, V6));
    BothMeaning(Complement(cs, V4), Complement(cs, V6));
    assert ParseAll(Texts(once)) == Some(once) by { TextsRead(once); }
    assert Complement(once, V4) == MergedOf(cs, V4) by { TwiceInFamily(cs, once, V4); }
    assert Complement(once, V6) == MergedOf(cs, V6) by { TwiceInFamily(cs, once, V6); }
  }

  lemma TwiceInFamily(cs: seq<Cidr>, once: seq<Cidr>, f: Family)
    requires Valid(cs) && Valid(once)
    requires forall x :: Reaches(once, f, x) <==> 0 <= x < Space(f) && !Reaches(cs, f, x)
    ensures Complement(once, f) == MergedOf(cs, f)
  {
    hide Complement, MergedOf, Pow2, Reaches, Covers, Canonical, Valid, AllInSpace;
    ComplementMeaning(once, f);
    MergedOfMeaning(cs, f);
    forall x ensures Covers(Complement(once, f), x) <==> Covers(MergedOf(cs, f), x) {
      if Reaches(cs, f, x) { ReachedIsInSpace(cs, f, x); }
    }
    CanonicalUnique(Complement(once, f), MergedOf(cs, f));
  }

  lemma ReachedIsInSpace(cs: seq<Cidr>, f: Family, x: int)
    requires Valid(cs) && Reaches(cs, f, x)
    ensures 0 <= x < Space(f)
  {
    hide Pow2;
  }

  // ---------------------------------------------------------------- minimality across families

  function OfFamily(cs: seq<Cidr>, f: Family): seq<Cidr> {
    if cs == [] then [] else OfFamily(cs[..|cs| - 1], f) + (if cs[|cs| - 1].family == f then [cs[|cs| - 1]] else [])
  }

  lemma {:induction false} OfFamilySplits(cs: seq<Cidr>)
    ensures |OfFamily(cs, V4)| + |OfFamily(cs, V6)| == |cs|
  {
    if cs != [] { OfFamilySplits(cs[..|cs| - 1]); }
  }

  lemma {:induction false} OfFamilyMeaning(cs: seq<Cidr>, f: Family)
    requires Valid(cs)
    ensures Valid(OfFamily(cs, f)) && forall i :: 0 <= i < |OfFamily(cs, f)| ==> OfFamily(cs, f)[i].family == f
    ensures forall x :: Reaches(OfFamily(cs, f), f, x) <==> Reaches(cs, f, x)
  {
    hide Pow2;
    if cs != [] {
      var front, c := cs[..|cs| - 1], cs[|cs| - 1];
      OfFamilyMeaning(front, f);
      forall x ensures Reaches(OfFamily(cs, f), f, x) <==> Reaches(cs, f, x) {
        assert cs == front + [c];
        ReachesConcat(front, [c], f, x);
        ReachesOne(c, f, x);
        if c.family == f {
          ReachesConcat(OfFamily(front, f), [c], f, x);
        } else {
          assert OfFamily(cs, f) == OfFamily(front, f);
        }
      }
    }
  }

  /** No list of prefixes for the same addresses, both families together, is shorter. */
  lemma BothMinimal(v4: seq<Interval>, v6: seq<Interval>, cover: seq<Cidr>)
    requires AllInSpace(v4, V4) && AllInSpace(v6, V6) && Canonical(v4) && Canonical(v6)
    requires Valid(cover) && forall f, x :: Reaches(cover, f, x) <==> Covers(if f == V4 then v4 else v6, x)
    ensures |Both(v4, v6)| <= |cover|
  {
    hide Pow2, Cidrs;
    OfFamilySplits(cover);
    OfFamilyMeaning(cover, V4);
    OfFamilyMeaning(cover, V6);
    forall x ensures BlocksCover(OfFamily(cover, V4), x) <==> Covers(v4, x) {
      OneFamily(OfFamily(cover, V4), V4, V4, x);
      assert Reaches(cover, V4, x) <==> Covers(v4, x);
    }
    forall x ensures BlocksCover(OfFamily(cover, V6), x) <==> Covers(v6, x) {
      OneFamily(OfFamily(cover, V6), V6, V6, x);
      assert Reaches(cover, V6, x) <==> Covers(v6, x);
    }
    MinimalCover(v4, V4, OfFamily(cover, V4));
    MinimalCover(v6, V6, OfFamily(cover, V6));
  }

  /** Any other list of CIDR strings with the same coverage is at least as long as the merged one. */
  lemma MergedStringsMinimal(cidrs: seq<string>, other: seq<string>)
    requires ParseAll(cidrs).Some? && ParseAll(other).Some?
    requires forall f, x :: Routed(cidrs, f, x) <==> Routed(other, f, x)
    ensures MergedCidrStrings(cidrs).Some? && |MergedCidrStrings(cidrs).value| <= |other|
  {
    var cs, ds := ParseAll(cidrs).value, ParseAll(other).value;
    ParsedValid(cidrs);
    ParsedValid(other);
    MergedOfMeaning(cs, V4);
    MergedOfMeaning(cs, V6);
    forall f, x ensures Reaches(ds, f, x) <==> Covers(if f == V4 then MergedOf(cs, V4) else MergedOf(cs, V6), x) {
      assert Routed(cidrs, f, x) <==> Routed(other, f, x);
    }
    BothMeaning(MergedOf(cs, V4), MergedOf(cs, V6));
    BothMinimal(MergedOf(cs, V4), MergedOf(cs, V6), ds);
    ParsedLength(other);
  }

  lemma {:induction false} ParsedLength(cidrs: seq<string>)
    ensures ParseAll(cidrs).Some? ==> |ParseAll(cidrs).value| == |cidrs|
  {
    hide ParseCidr;
    if cidrs != [] { ParsedLength(cidrs[..|cidrs| - 1]); }
  }

  // ---------------------------------------------------------------- the policy compiler

  datatype Mode = Off | Exclude | Include

  datatype RuleKind = AppRule | DomainRule | CidrRule

  datatype Rule = Rule(kind: RuleKind, value: string, enabled: bool)

  datatype Policy = Policy(mode: Mode, rules: seq<Rule>, lanBypass: bool)

  /** The routes of a CompiledSplit. */
  datatype Compiled = Compiled(tunnelRoutes: seq<string>, bypassRoutes: seq<string>, isNoop: bool)

  const LAN_BYPASS_CIDRS: seq<string> := [
    "10.0.0.0/8",
    "172.16.0.0/12",
    "192.168.0.0/16",
    "169.254.0.0/16",
    "224.0.0.0/4",
    "255.255.255.255/32",
    "fe80::/10",
    "fc00::/7",
    "ff00::/8"
  ]

  // ---------------------------------------------------------------- the LAN list is well formed

  lemma PrefixParses(addr: string, prefix: string)
    requires ParseAddress(addr).Some? && Without(addr, '/') && addr != "" && !JsSpace(addr[0])
    requires 1 <= |prefix| <= 3 && Numeral(prefix, 10) && Value(prefix, 10) <= 32
    ensures ParseCidr(addr + "/" + prefix).Some?
  {
    hide ParseAddress, Value, Pow2;
    var s := addr + ['/'] + prefix;
    FindAt(addr, '/', prefix);
    assert s[|s| - 1] == prefix[|prefix| - 1];
    TrimNothing(s);
    assert s[..|addr|] == addr && s[|addr| + 1..] == prefix;
    hide Trim, Find;
  }

  lemma QuadParses(a: string, b: string, c: string, d: string)
    requires IsOctet(a) && IsOctet(b) && IsOctet(c) && IsOctet(d)
    ensures ParseAddress(a + "." + b + "." + c + "." + d).Some?
    ensures var s := a + "." + b + "." + c + "." + d;
            Without(s, '/') && s != "" && !JsSpace(s[0])
  {
    hide Split, Value, Join, Numeral, Without, IsOctet;
    var o := [a, b, c, d];
    OctetClean(a);
    OctetClean(b);
    OctetClean(c);
    OctetClean(d);
    QuadJoins(a, b, c, d);
    SplitJoin(o, '.');
    JoinWithout(o, '.', '/');
  }

  lemma OctetClean(part: string)
    requires IsOctet(part)
    ensures Without(part, '.') && Without(part, '/') && part != "" && !JsSpace(part[0])
  {
    hide Value;
    forall k | 0 <= k < |part| ensures part[k] != '.' && part[k] != '/' && !JsSpace(part[k]) {
      assert DigitOf(part[k]) < 10;
    }
  }

  lemma QuadJoins(a: string, b: string, c: string, d: string)
    ensures Join([a, b, c, d], '.') == a + "." + b + "." + c + "." + d
  {
    assert [a, b, c, d][1..] == [b, c, d] && [b, c, d][1..] == [c, d] && [c, d][1..] == [d];
    assert Join([c, d], '.') == c + ['.'] + d;
    assert Join([b, c, d], '.') == b + ['.'] + Join([c, d], '.');
    assert Join([a, b, c, d], '.') == a + ['.'] + Join([b, c, d], '.');
  }

  lemma PairValue(s: string)
    ensures |s| == 1 ==> Value(s, 10) == DigitOf(s[0])
    ensures |s| == 2 ==> Value(s, 10) == DigitOf(s[0]) * 10 + DigitOf(s[1])
    ensures |s| == 3 ==> Value(s, 10) == (DigitOf(s[0]) * 10 + DigitOf(s[1])) * 10 + DigitOf(s[2])
  {
    if |s| == 1 {
      assert s[..0] == [] && Value(s[..0], 10) == 0;
    } else if |s| == 2 {
      PairValue(s[..1]);
    } else if |s| == 3 {
      PairValue(s[..2]);
    }
  }

  lemma HexParses(g: string)
    requires IsHexGroup(g)
    ensures ParseAddress(g + "::").Some? && Without(g + "::", '/') && !JsSpace((g + "::")[0])
  {
    forall k | 0 <= k < |g| ensures g[k] != ':' && g[k] != '/' && g[k] != '.' { assert DigitOf(g[k]) < 16; }
    assert [g][0] == g && [g][1..] == [];
    ParsesCompressed([g], []);
    assert Join([g], ':') + "::" + Join([], ':') == g + "::";
    assert DigitOf(g[0]) < 16;
    NotIpv4(g + "::");
    hide ParseIpv4, ParseIpv6, Value;
  }

  lemma LanParses()
    ensures ParseAll(LAN_BYPASS_CIDRS).Some?
  {
    LanQuads();
    LanHexes();
    AllParse(LAN_BYPASS_CIDRS);
  }

  lemma {:induction false} AllParse(cidrs: seq<string>)
    requires forall i :: 0 <= i < |cidrs| ==> ParseCidr(cidrs[i]).Some?
    ensures ParseAll(cidrs).Some?
  {
    hide ParseCidr;
    if cidrs != [] { AllParse(cidrs[..|cidrs| - 1]); }
  }

  lemma Quad(a: string, b: string, c: string, d: string, prefix: string)
    requires IsOctet(a) && IsOctet(b) && IsOctet(c) && IsOctet(d)
    requires 1 <= |prefix| <= 2 && Numeral(prefix, 10) && Value(prefix, 10) <= 32
    ensures ParseCidr(a + "." + b + "." + c + "." + d + "/" + prefix).Some?
  {
    hide IsOctet, Value, ParseCidr, ParseAddress;
    QuadParses(a, b, c, d);
    PrefixParses(a + "." + b + "." + c + "." + d, prefix);
  }

  predicate Octet(s: string) {
    IsOctet(s)
  }

  lemma SmallTexts()
    ensures Octet("0") && Octet("10") && Octet("16") && Octet("168") && Octet("169") && Octet("172") && Octet("192")
    ensures Octet("224") && Octet("254") && Octet("255")
    ensures Value("4", 10) == 4 && Value("7", 10) == 7 && Value("8", 10) == 8 && Value("10", 10) == 10
    ensures Value("12", 10) == 12 && Value("16", 10) == 16 && Value("32", 10) == 32
  {
    PairValue("0"); PairValue("10"); PairValue("16"); PairValue("168"); PairValue("169"); PairValue("172");
    PairValue("192"); PairValue("224"); PairValue("254"); PairValue("255"); PairValue("4"); PairValue("7");
    PairValue("8"); PairValue("12"); PairValue("32");
    hide Value;
  }

  lemma LanQuads()
    ensures forall i :: 0 <= i < 6 ==> ParseCidr(LAN_BYPASS_CIDRS[i]).Some?
  {
    hide ParseCidr;
    LanTen();
    LanTwelve();
    LanSixteen();
    LanLink();
    LanMulticast();
    LanBroadcast();
  }

  lemma LanTen()
    ensures ParseCidr("10.0.0.0/8").Some?
  {
    hide Value, ParseCidr;
    SmallTexts();
    Quad("10", "0", "0", "0", "8");
    assert "10.0.0.0/8" == "10" + "." + "0" + "." + "0" + "." + "0" + "/" + "8";
  }

  lemma LanTwelve()
    ensures ParseCidr("172.16.0.0/12").Some?
  {
    hide Value, ParseCidr;
    SmallTexts();
    Quad("172", "16", "0", "0", "12");
    assert "172.16.0.0/12" == "172" + "." + "16" + "." + "0" + "." + "0" + "/" + "12";
  }

  lemma LanSixteen()
    ensures ParseCidr("192.168.0.0/16").Some?
  {
    hide Value, ParseCidr;
    SmallTexts();
    Quad("192", "168", "0", "0", "16");
    assert "192.168.0.0/16" == "192" + "." + "168" + "." + "0" + "." + "0" + "/" + "16";
  }

  lemma LanLink()
    ensures ParseCidr("169.254.0.0/16").Some?
  {
    hide Value, ParseCidr;
    SmallTexts();
    Quad("169", "254", "0", "0", "16");
    assert "169.254.0.0/16" == "169" + "." + "254" + "." + "0" + "." + "0" + "/" + "16";
  }

  lemma LanMulticast()
    ensures ParseCidr("224.0.0.0/4").Some?
  {
    hide Value, ParseCidr;
    SmallTexts();
    Quad("224", "0", "0", "0", "4");
    assert "224.0.0.0/4" == "224" + "." + "0" + "." + "0" + "." + "0" + "/" + "4";
  }

  lemma LanBroadcast()
    ensures ParseCidr("255.255.255.255/32").Some?
  {
    hide Value, ParseCidr;
    SmallTexts();
    Quad("255", "255", "255", "255", "32");
    assert "255.255.255.255/32" == "255" + "." + "255" + "." + "255" + "." + "255" + "/" + "32";
  }

  lemma LanHexes()
    ensures forall i :: 6 <= i < 9 ==> ParseCidr(LAN_BYPASS_CIDRS[i]).Some?
  {
    SmallTexts();
    hide Value, ParseCidr, ParseAddress, IsOctet;
    HexParses("fe80");
    HexParses("fc00");
    HexParses("ff00");
    PrefixParses("fe80" + "::", "10");
    PrefixParses("fc00" + "::", "7");
    PrefixParses("ff00" + "::", "8");
    assert LAN_BYPASS_CIDRS[6] == "fe80" + "::" + "/" + "10";
    assert LAN_BYPASS_CIDRS[7] == "fc00" + "::" + "/" + "7";
    assert LAN_BYPASS_CIDRS[8] == "ff00" + "::" + "/" + "8";
  }

  predicate ContainsAnyEndpoint(value: string, endpoints: seq<string>) {
    match ParseCidr(value)
    case None => false
    case Some(c) =>
      ParsedIsValid(value);
      exists i :: 0 <= i < |endpoints| && HoldsEndpoint(c, endpoints[i])
  }

  predicate HoldsEndpoint(c: Cidr, endpoint: string)
    requires ValidCidr(c)
  {
    match ParseCidr(endpoint)
    case None => false
    case Some(e) => e.family == c.family && Has(ToInterval(c), e.net)
  }

  /** The values of the enabled CIDR rules that hold no gateway endpoint. */
  function Surviving(rules: seq<Rule>, endpoints: seq<string>): seq<string> {
    if rules == [] then []
    else
      var r := rules[|rules| - 1];
      Surviving(rules[..|rules| - 1], endpoints)
      + (if r.enabled && r.kind == CidrRule && !ContainsAnyEndpoint(r.value, endpoints) then [r.value] else [])
  }

  /** What the exclude branch bypasses, before merging. */
  function BypassInput(p: Policy, endpoints: seq<string>): seq<string> {
    (if p.mode == Exclude then Surviving(p.rules, endpoints) else []) + (if p.lanBypass then LAN_BYPASS_CIDRS else [])
  }

  /** The routes of compileSplitPolicy; None is the exception a bad CIDR string throws. */
  function CompileRoutes(p: Policy, supportsExcludeRoute: bool, endpoints: seq<string>): Option<Compiled> {
    if p.mode == Off && !p.lanBypass then Some(Compiled([], [], true))
    else if p.mode == Include then
      var cidrs := Surviving(p.rules, endpoints);
      match (if p.lanBypass then SubtractCidrStrings(cidrs, LAN_BYPASS_CIDRS) else MergedCidrStrings(cidrs))
      case None => None
      case Some(included) => Some(Compiled(included, [], false))
    else
      match MergedCidrStrings(BypassInput(p, endpoints))
      case None => None
      case Some(bypass) =>
        if supportsExcludeRoute then Some(Compiled([], bypass, false))
        else
          match ComplementRoutes(bypass, BothFamilies)
          case None => None
          case Some(tunnel) => Some(Compiled(tunnel, [], false))
  }

  /** In exclude mode, and off with LAN bypass, both forms send the same addresses into the tunnel:
      those neither a surviving rule nor the LAN list covers. */
  lemma ExcludeFormsAgree(p: Policy, endpoints: seq<string>)
    requires p.mode == Exclude || (p.mode == Off && p.lanBypass)
    ensures var native, listed := CompileRoutes(p, true, endpoints), CompileRoutes(p, false, endpoints);
            && (native.Some? <==> (p.mode == Exclude ==> ParseAll(Surviving(p.rules, endpoints)).Some?))
            && (listed.Some? <==> native.Some?)
            && (native.Some? ==>
                  && native.value.tunnelRoutes == [] && listed.value.bypassRoutes == [] && !native.value.isNoop && !listed.value.isNoop
                  && forall f, x :: 0 <= x < Space(f) ==>
                       && (Routed(listed.value.tunnelRoutes, f, x) <==> !Routed(native.value.bypassRoutes, f, x))
                       && (Routed(native.value.bypassRoutes, f, x) <==> Routed(BypassInput(p, endpoints), f, x)))
  {
    var input := BypassInput(p, endpoints);
    BypassParses(p, endpoints);
    hide Pow2, BypassInput, Surviving, Routed, ParseAll;
    if ParseAll(input).Some? {
      MergedStringsMeaning(input);
      var bypass := MergedCidrStrings(input).value;
      assert ParseAll(bypass).Some? by { MergedParses(input); }
      ComplementStringsMeaning(bypass, BothFamilies);
    }
    hide MergedCidrStrings, ComplementRoutes;
  }

  lemma BypassParses(p: Policy, endpoints: seq<string>)
    ensures ParseAll(BypassInput(p, endpoints)).Some?
      <==> (p.mode == Exclude ==> ParseAll(Surviving(p.rules, endpoints)).Some?)
  {
    LanParses();
    assert ParseAll([]).Some?;
    hide ParseAll, Surviving;
    ParseAllConcat(if p.mode == Exclude then Surviving(p.rules, endpoints) else [], if p.lanBypass then LAN_BYPASS_CIDRS else []);
  }

  lemma MergedParses(cidrs: seq<string>)
    requires ParseAll(cidrs).Some?
    ensures MergedCidrStrings(cidrs).Some? && ParseAll(MergedCidrStrings(cidrs).value).Some?
  {
    var cs := ParseAll(cidrs).value;
    ParsedValid(cidrs);
    MergedOfMeaning(cs, V4);
    MergedOfMeaning(cs, V6);
    BothMeaning(MergedOf(cs, V4), MergedOf(cs, V6));
    TextsRead(Both(MergedOf(cs, V4), MergedOf(cs, V6)));
  }

  /** In include mode the tunnel takes exactly the included addresses, less the LAN when bypassed. */
  lemma IncludeMeaning(p: Policy, native: bool, endpoints: seq<string>)
    requires p.mode == Include && ParseAll(Surviving(p.rules, endpoints)).Some?
    ensures var c := CompileRoutes(p, native, endpoints);
            && c.Some? && c.value.bypassRoutes == [] && !c.value.isNoop
            && forall f, x :: Routed(c.value.tunnelRoutes, f, x)
                 <==> Routed(Surviving(p.rules, endpoints), f, x) && !(p.lanBypass && Routed(LAN_BYPASS_CIDRS, f, x))
  {
    LanParses();
    if p.lanBypass {
      SubtractedStringsMeaning(Surviving(p.rules, endpoints), LAN_BYPASS_CIDRS);
    } else {
      MergedStringsMeaning(Surviving(p.rules, endpoints));
    }
    hide SubtractCidrStrings, MergedCidrStrings, ParseAll, Surviving;
  }

  /** Only a policy that is off without LAN bypass leaves the tunnel alone. */
  lemma OffIsNoop(p: Policy, native: bool, endpoints: seq<string>)
    ensures var c := CompileRoutes(p, native, endpoints);
            && (c.Some? && c.value.isNoop <==> p.mode == Off && !p.lanBypass)
            && (c.Some? && c.value.isNoop ==> c.value.tunnelRoutes == [] && c.value.bypassRoutes == [])
  {
    hide MergedCidrStrings, SubtractCidrStrings, ComplementRoutes, Surviving;
  }

  /** Policies whose surviving rules cover the same addresses compile to the same route lists. */
  lemma RoutesDependOnAddresses(p: Policy, q: Policy, native: bool, endpoints: seq<string>)
    requires p.mode == q.mode && p.lanBypass == q.lanBypass
    requires ParseAll(Surviving(p.rules, endpoints)).Some? && ParseAll(Surviving(q.rules, endpoints)).Some?
    requires forall f, x :: Routed(Surviving(p.rules, endpoints), f, x) <==> Routed(Surviving(q.rules, endpoints), f, x)
    ensures CompileRoutes(p, native, endpoints) == CompileRoutes(q, native, endpoints)
  {
    var a, b := Surviving(p.rules, endpoints), Surviving(q.rules, endpoints);
    hide SubtractCidrStrings, MergedCidrStrings, ComplementRoutes, ParseAll, Surviving, Routed;
    if p.mode == Include {
      if p.lanBypass {
        SubtractDependsOnAddresses(a, b, LAN_BYPASS_CIDRS);
      } else {
        MergedDependsOnAddresses(a, b);
      }
    } else if p.mode == Exclude {
      AppendedDependsOnAddresses(a, b, if p.lanBypass then LAN_BYPASS_CIDRS else []);
    }
  }

  lemma AppendedDependsOnAddresses(a: seq<string>, b: seq<string>, lan: seq<string>)
    requires ParseAll(a).Some? && ParseAll(b).Some?
    requires forall f, x :: Routed(a, f, x) <==> Routed(b, f, x)
    ensures MergedCidrStrings(a + lan) == MergedCidrStrings(b + lan)
  {
    ParseAllConcat(a, lan);
    ParseAllConcat(b, lan);
    hide ParseAll, Routed;
    if ParseAll(lan).Some? {
      forall f, x ensures Routed(a + lan, f, x) <==> Routed(b + lan, f, x) {
        RoutedConcat(a, lan, f, x);
        RoutedConcat(b, lan, f, x);
      }
      MergedDependsOnAddresses(a + lan, b + lan);
    }
  }

  lemma RoutedConcat(a: seq<string>, b: seq<string>, f: Family, x: int)
    requires ParseAll(a).Some? && ParseAll(b).Some?
    ensures Routed(a + b, f, x) <==> Routed(a, f, x) || Routed(b, f, x)
  {
    ParseAllConcat(a, b);
    ParsedValid(a);
    ParsedValid(b);
    hide ParseAll, Pow2;
    ReachesConcat(ParseAll(a).value, ParseAll(b).value, f, x);
  }

  lemma SubtractDependsOnAddresses(a: seq<string>, b: seq<string>, c: seq<string>)
    requires ParseAll(a).Some? && ParseAll(b).Some?
    requires forall f, x :: Routed(a, f, x) <==> Routed(b, f, x)
    ensures SubtractCidrStrings(a, c) == SubtractCidrStrings(b, c)
  {
    var cs, ds := ParseAll(a).value, ParseAll(b).value;
    ParsedValid(a);
    ParsedValid(b);
    SameMerged(cs, ds, V4) by {
      forall x ensures Reaches(cs, V4, x) <==> Reaches(ds, V4, x) { assert Routed(a, V4, x) <==> Routed(b, V4, x); }
    }
    SameMerged(cs, ds, V6) by {
      forall x ensures Reaches(cs, V6, x) <==> Reaches(ds, V6, x) { assert Routed(a, V6, x) <==> Routed(b, V6, x); }
    }
  }
}
