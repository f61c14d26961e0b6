/** What the texts of addresses, prefixes and rules mean to clients/core-ts/src/split.ts, without its
    parser. */
module CidrGrammar {
  import opened Arithmetic
  import opened Common
  import opened Text
  import opened Intervals
  import opened CidrCover
  import opened IpText
  import opened SplitRoutes

  // ---------------------------------------------------------------- the grammar

  predicate AllSpace(s: string) {
    forall i :: 0 <= i < |s| ==> JsSpace(s[i])
  }

  /** t is s without the white space around it. */
  ghost predicate TrimsTo(s: string, t: string) {
    && (t == "" || (!JsSpace(t[0]) && !JsSpace(t[|t| - 1])))
    && exists a, b :: AllSpace(a) && AllSpace(b) && s == a + t + b
  }

  /** a is a text of address v: a dotted quad, or of one of the forms read for IPv6. */
  ghost predicate Spells(a: string, f: Family, v: int) {
    if f == V4 then 0 <= v < 0x1_0000_0000 && a == FormatIpv4(v) else RfcText(a, v) || LeadingQuadText(a, v)
  }

  /** A bare address is the prefix of all its bits; else one to three digits follow the slash. */
  ghost predicate PrefixText(t: string, a: string, f: Family, n: nat) {
    || (t == a && n == FamilyBits(f))
    || exists p: string :: t == a + "/" + p && |p| <= 3 && Numeral(p, 10) && Value(p, 10) == n && n <= FamilyBits(f)
  }

  /** The text means the prefix of n bits around address v. */
  ghost predicate Means(value: string, f: Family, v: int, n: nat) {
    exists t, a :: TrimsTo(value, t) && Spells(a, f, v) && Without(a, '/') && PrefixText(t, a, f, n)
  }

  // ---------------------------------------------------------------- trim

  lemma {:induction false} TrimStartMeaning(s: string) returns (a: string)
    ensures AllSpace(a) && s == a + TrimStart(s) && (TrimStart(s) != "" ==> !JsSpace(TrimStart(s)[0]))
  {
    a := "";
    if s != "" && JsSpace(s[0]) {
      var b := TrimStartMeaning(s[1..]);
      a := [s[0]] + b;
      assert s == [s[0]] + s[1..];
    }
  }

  lemma {:induction false} TrimEndMeaning(s: string) returns (b: string)
    ensures AllSpace(b) && s == TrimEnd(s) + b && (TrimEnd(s) != "" ==> !JsSpace(TrimEnd(s)[|TrimEnd(s)| - 1]))
  {
    b := "";
    if s != "" && JsSpace(s[|s| - 1]) {
      var n := |s| - 1;
      var a := TrimEndMeaning(s[..n]);
      b := a + [s[n]];
      assert s == s[..n] + [s[n]];
    }
  }

  lemma TrimMeaning(s: string)
    ensures TrimsTo(s, Trim(s))
  {
    var a := TrimStartMeaning(s);
    var b := TrimEndMeaning(TrimStart(s));
    var t := Trim(s);
    hide JsSpace, AllSpace;
    assert s == a + t + b;
    if t != "" { assert TrimStart(s)[0] == t[0]; }
  }

  lemma {:induction false} LeadingSpace(a: string, s: string)
    requires AllSpace(a) && (s == "" || !JsSpace(s[0]))
    ensures TrimStart(a + s) == s
  {
    if a == "" {
      assert a + s == s;
    } else {
      assert (a + s)[1..] == a[1..] + s;
      LeadingSpace(a[1..], s);
    }
  }

  lemma {:induction false} TrailingSpace(s: string, b: string)
    requires AllSpace(b) && (s == "" || !JsSpace(s[|s| - 1]))
    ensures TrimEnd(s + b) == s
  {
    if b == "" {
      assert s + b == s;
    } else {
      assert (s + b)[..|s + b| - 1] == s + b[..|b| - 1];
      TrailingSpace(s, b[..|b| - 1]);
    }
  }

  lemma {:induction false} OnlySpace(b: string)
    requires AllSpace(b)
    ensures TrimStart(b) == ""
  {
    if b != "" { OnlySpace(b[1..]); }
  }

  lemma TrimIs(s: string, t: string)
    requires TrimsTo(s, t)
    ensures Trim(s) == t
  {
    var a, b :| AllSpace(a) && AllSpace(b) && s == a + t + b;
    if t == "" {
      OnlySpace(a + b);
      assert s == a + b;
    } else {
      assert s == a + (t + b);
      LeadingSpace(a, t + b);
      TrailingSpace(t, b);
    }
  }

  // ---------------------------------------------------------------- addresses

  lemma AddressIff(a: string, f: Family, v: int)
    ensures ParseAddress(a) == Some((f, v)) <==> Spells(a, f, v)
  {
    hide ParseIpv4, ParseIpv6, FormatIpv4, RfcText, LeadingQuadText;
    AcceptedIff(a, v);
    QuadIff(a, v);
    QuadIsNoIpv6(a);
  }

  lemma QuadIff(a: string, v: int)
    ensures ParseIpv4(a) == Some(v) <==> 0 <= v < 0x1_0000_0000 && a == FormatIpv4(v)
  {
    Ipv4Spelling(a);
    if 0 <= v < 0x1_0000_0000 { Ipv4RoundTrip(v); }
    hide ParseIpv4, FormatIpv4;
  }

  lemma QuadIsNoIpv6(a: string)
    ensures ParseIpv4(a).Some? ==> ParseIpv6(a).None?
  {
    if ParseIpv4(a).Some? {
      Ipv4Spelling(a);
      Ipv4Characters(ParseIpv4(a).value);
      NoColonNoIpv6(a);
    }
    hide ParseIpv4, ParseIpv6;
  }

  lemma NoColonNoIpv6(a: string)
    requires Without(a, ':')
    ensures ParseIpv6(a).None?
  {
  }

  // ---------------------------------------------------------------- prefixes

  /** An address is in the masked block exactly if it shares the leading bits. */
  lemma MaskedMeaning(f: Family, v: int, n: nat, x: int)
    requires n <= FamilyBits(f) && 0 <= v < Space(f)
    ensures ValidCidr(Masked(f, v, n))
    ensures BlockHas(Masked(f, v, n), x) <==> x / Pow2(FamilyBits(f) - n) == v / Pow2(FamilyBits(f) - n)
  {
    MaskedValid(f, v, n);
    SameBlockIff(x, v, FamilyBits(f) - n);
    hide Pow2;
  }

  lemma SameBlockIff(x: int, v: int, e: nat)
    ensures Start(v, e) <= x < Start(v, e) + Pow2(e) <==> x / Pow2(e) == v / Pow2(e)
  {
    hide Pow2;
    var p := Pow2(e);
    assert x == (x / p) * p + x % p && v == (v / p) * p + v % p;
    if x / p != v / p { Apart(x / p, v / p, p); }
  }

  lemma Apart(a: int, b: int, p: int)
    requires a != b && p > 0
    ensures a * p >= b * p + p || a * p + p <= b * p
  {
    ProductBound(a - b, p);
    assert (a - b) * p == a * p - b * p;
  }

  /** The parser's answer for a text that means something. */
  lemma ParsesTo(value: string, f: Family, v: int, n: nat)
    requires Means(value, f, v, n)
    ensures 0 <= v < Space(f) && n <= FamilyBits(f)
    ensures ParseCidr(value) == Some(Masked(f, v, n))
  {
    hide Spells, Masked, ParseAddress, TrimsTo, PrefixText, Find, Value, Pow2;
    var t, a :| TrimsTo(value, t) && Spells(a, f, v) && Without(a, '/') && PrefixText(t, a, f, n);
    TrimIs(value, t);
    AddressIff(a, f, v);
    AddressBound(a);
    SlashAt(t, a, f, n);
    hide Trim;
  }

  lemma SlashAt(t: string, a: string, f: Family, n: nat)
    requires Without(a, '/') && PrefixText(t, a, f, n)
    ensures var slash := Find(t, '/');
            && t[..slash] == a && n <= FamilyBits(f)
            && (slash == |t| ==> n == FamilyBits(f))
            && (slash < |t| ==> |t[slash + 1..]| <= 3 && Numeral(t[slash + 1..], 10) && Value(t[slash + 1..], 10) == n)
  {
    hide Value;
    if t == a && n == FamilyBits(f) {
      FindAt(a, '/', "");
    } else {
      var p: string :| t == a + "/" + p && |p| <= 3 && Numeral(p, 10) && Value(p, 10) == n && n <= FamilyBits(f);
      FindAt(a, '/', p);
      assert t[|a| + 1..] == p && t[..|a|] == a;
    }
  }

  /** The parts the parser took a text apart into. */
  lemma ParsedParts(value: string) returns (f: Family, v: int, n: nat)
    requires ParseCidr(value).Some?
    ensures var t := Trim(value);
            var slash := Find(t, '/');
            && ParseAddress(t[..slash]) == Some((f, v)) && n <= FamilyBits(f)
            && (slash == |t| ==> n == FamilyBits(f))
            && (slash < |t| ==> |t[slash + 1..]| <= 3 && Numeral(t[slash + 1..], 10) && Value(t[slash + 1..], 10) == n)
  {
    hide Trim, Find, ParseAddress, Masked, Value, Numeral;
    var t := Trim(value);
    var slash := Find(t, '/');
    f, v := ParseAddress(t[..slash]).value.0, ParseAddress(t[..slash]).value.1;
    n := if slash == |t| then FamilyBits(f) else Value(t[slash + 1..], 10);
  }

  lemma SlashText(t: string, f: Family, n: nat)
    requires n <= FamilyBits(f)
    requires var slash := Find(t, '/');
             && (slash == |t| ==> n == FamilyBits(f))
             && (slash < |t| ==> |t[slash + 1..]| <= 3 && Numeral(t[slash + 1..], 10) && Value(t[slash + 1..], 10) == n)
    ensures Without(t[..Find(t, '/')], '/') && PrefixText(t, t[..Find(t, '/')], f, n)
  {
    hide Find, Value, Numeral, Without;
    var slash := Find(t, '/');
    if slash == |t| {
      assert t[..slash] == t;
    } else {
      var p := t[slash + 1..];
      assert t == t[..slash] + "/" + p;
    }
  }

  /** And every text it reads means something. */
  lemma ParsedMeans(value: string) returns (f: Family, v: int, n: nat)
    requires ParseCidr(value).Some?
    ensures Means(value, f, v, n)
  {
    hide ParseCidr, Trim, Find, TrimsTo, ParseAddress, Value, Numeral, Spells, PrefixText;
    f, v, n := ParsedParts(value);
    TrimMeaning(value);
    SlashText(Trim(value), f, n);
    AddressIff(Trim(value)[..Find(Trim(value), '/')], f, v);
  }

  lemma ReadIff(value: string)
    ensures ParseCidr(value).Some? <==> exists f, v, n: nat :: Means(value, f, v, n)
  {
    hide Means, ParseCidr;
    if ParseCidr(value).Some? {
      var f, v, n := ParsedMeans(value);
    }
    if f, v, n: nat :| Means(value, f, v, n) {
      ParsesTo(value, f, v, n);
    }
  }

  /** A text that means a prefix is read as the block of all addresses that share its bits with the
      address it names: a bare address as itself alone, host bits ignored. */
  lemma ReadAsMeant(value: string, f: Family, v: int, n: nat, x: int)
    requires Means(value, f, v, n)
    ensures n <= FamilyBits(f)
    ensures var c := ParseCidr(value);
            && c.Some? && ValidCidr(c.value) && c.value.family == f && c.value.prefix == n
            && (BlockHas(c.value, x) <==> x / Pow2(FamilyBits(f) - n) == v / Pow2(FamilyBits(f) - n))
  {
    hide Means, ParseCidr, BlockHas, Pow2;
    ParsesTo(value, f, v, n);
    MaskedMeaning(f, v, n, x);
  }

  // ---------------------------------------------------------------- addresses and prefixes as printed

  predicate Solid(s: string) {
    forall i :: 0 <= i < |s| ==> !JsSpace(s[i])
  }

  lemma {:induction false} JoinSolid(parts: seq<string>, c: char)
    requires !JsSpace(c) && forall i :: 0 <= i < |parts| ==> Solid(parts[i])
    ensures Solid(Join(parts, c))
  {
    if |parts| > 1 { JoinSolid(parts[1..], c); }
  }

  lemma DigitsSolid(n: nat, base: int)
    requires 2 <= base <= 16
    ensures Solid(ToDigits(n, base)) && ToDigits(n, base) != ""
  {
    DigitsShape(n, base);
    hide ToDigits;
  }

  lemma AddressSolid(f: Family, v: int)
    requires 0 <= v < Space(f)
    ensures Solid(FormatAddress(f, v)) && FormatAddress(f, v) != "" && Without(FormatAddress(f, v), '/')
    ensures Spells(FormatAddress(f, v), f, v)
  {
    hide Power, Pow2, RfcText, LeadingQuadText, ParseAddress, ToDigits, Join, GroupsOf, Scan, Render;
    AddressText(f, v);
    AddressIff(FormatAddress(f, v), f, v);
    SpaceSizes();
    if f == V4 {
      var o := Octets(v);
      forall i | 0 <= i < 4 ensures Solid(o[i]) { DigitsSolid(v / 0x100_0000 % 256, 10); DigitsSolid(v / 0x1_0000 % 256, 10); DigitsSolid(v / 0x100 % 256, 10); DigitsSolid(v % 256, 10); }
      JoinSolid(o, '.');
    } else {
      Ipv6Solid(v);
    }
  }

  lemma Ipv6Solid(v: nat)
    requires v < Power(0x1_0000, 8)
    ensures Solid(FormatIpv6(v))
  {
    var gs := GroupsOf(v, 8);
    var best := Scan(gs, 0, (-1, 1));
    ScanFinds(gs, 0, (-1, 1));
    hide Scan, GroupsOf, Power;
    RenderCharacters(gs, best.0, best.1);
    hide Render;
  }

  lemma SolidTrims(s: string)
    requires Solid(s)
    ensures TrimsTo(s, s)
  {
    assert AllSpace("") && s == "" + s + "";
  }

  /** Every address's own text means that one address. */
  lemma BareAddress(f: Family, v: int)
    requires 0 <= v < Space(f)
    ensures Means(FormatAddress(f, v), f, v, FamilyBits(f))
  {
    hide Spells, TrimsTo, FormatAddress;
    AddressSolid(f, v);
    SolidTrims(FormatAddress(f, v));
    assert PrefixText(FormatAddress(f, v), FormatAddress(f, v), f, FamilyBits(f));
    hide Pow2;
  }

  /** And followed by a slash and a length, aligned or not, that prefix. */
  lemma AddressAndLength(f: Family, v: int, n: nat)
    requires 0 <= v < Space(f) && n <= FamilyBits(f)
    ensures Means(FormatAddress(f, v) + "/" + ToDigits(n, 10), f, v, n)
  {
    hide Spells, TrimsTo, FormatAddress, ToDigits, Value, Power;
    var a, p := FormatAddress(f, v), ToDigits(n, 10);
    AddressSolid(f, v);
    DigitsSolid(n, 10);
    DigitsShape(n, 10);
    DigitsValue(n, 10);
    PowerThree(10);
    DigitsLength(n, 10, 3);
    SolidTrims(a + "/" + p);
    assert PrefixText(a + "/" + p, a, f, n);
    hide Pow2;
  }

  // ---------------------------------------------------------------- which rules survive

  /** The text names address x: itself if bare, the first of the block if a prefix. */
  ghost predicate Names(text: string, f: Family, x: int) {
    exists v, n: nat :: Means(text, f, v, n) && n <= FamilyBits(f) && x == v / Pow2(FamilyBits(f) - n) * Pow2(FamilyBits(f) - n)
  }

  lemma NamesIs(text: string, f: Family, x: int)
    ensures Names(text, f, x) <==> ParseCidr(text).Some? && ParseCidr(text).value.family == f && ParseCidr(text).value.net == x
  {
    hide Means, ParseCidr, Masked, Pow2;
    forall v, n: nat | Means(text, f, v, n) && n <= FamilyBits(f)
      ensures ParseCidr(text).Some? && ParseCidr(text).value.family == f
           && ParseCidr(text).value.net == v / Pow2(FamilyBits(f) - n) * Pow2(FamilyBits(f) - n)
    {
      ParsesTo(text, f, v, n);
      MaskedNet(f, v, n);
    }
    if ParseCidr(text).Some? {
      var g, v, n := ParsedMeans(text);
      ParsesTo(text, g, v, n);
      MaskedNet(g, v, n);
    }
  }

  lemma MaskedNet(f: Family, v: int, n: nat)
    requires n <= FamilyBits(f)
    ensures Masked(f, v, n).family == f && Masked(f, v, n).net == v / Pow2(FamilyBits(f) - n) * Pow2(FamilyBits(f) - n)
  {
    hide Pow2;
    var p := Pow2(FamilyBits(f) - n);
    assert v == (v / p) * p + v % p;
  }

  /** The rule covers an address that one of the endpoints names. */
  ghost predicate CoversEndpoint(value: string, endpoints: seq<string>) {
    exists i, f, x :: 0 <= i < |endpoints| && Names(endpoints[i], f, x) && Routed([value], f, x)
  }

  lemma RoutedOne(value: string, f: Family, x: int)
    ensures Routed([value], f, x) <==> ParseCidr(value).Some? && ParseCidr(value).value.family == f && ValidCidr(ParseCidr(value).value)
                                       && BlockHas(ParseCidr(value).value, x)
  {
    hide ParseCidr, BlockHas, Pow2;
    ParsedIsValid(value);
    ParsedValid([value]);
    assert [value][..0] == [] && ParseAll([]) == Some([]);
    if ParseCidr(value).Some? {
      var c := ParseCidr(value).value;
      assert ParseAll([value]) == Some([] + [c]) && [] + [c] == [c];
      if BlockHas(c, x) && c.family == f { assert [c][0] == c; }
    }
  }

  lemma CoversEndpointIs(value: string, endpoints: seq<string>)
    ensures CoversEndpoint(value, endpoints) <==> ContainsAnyEndpoint(value, endpoints)
  {
    hide Names, Routed, ParseCidr, Pow2;
    ParsedIsValid(value);
    if ContainsAnyEndpoint(value, endpoints) {
      var c := ParseCidr(value).value;
      var i :| 0 <= i < |endpoints| && HoldsEndpoint(c, endpoints[i]);
      var e := ParseCidr(endpoints[i]).value;
      NamesIs(endpoints[i], e.family, e.net);
      RoutedOne(value, e.family, e.net);
    }
    if i, f, x :| 0 <= i < |endpoints| && Names(endpoints[i], f, x) && Routed([value], f, x) {
      NamesIs(endpoints[i], f, x);
      RoutedOne(value, f, x);
      assert HoldsEndpoint(ParseCidr(value).value, endpoints[i]);
    }
  }

  /** A rule's value survives exactly if the rule is enabled, is a CIDR rule, and covers no endpoint. */
  lemma {:induction false} SurvivesIff(rules: seq<Rule>, endpoints: seq<string>, value: string)
    ensures value in Surviving(rules, endpoints)
       <==> !CoversEndpoint(value, endpoints) && exists r :: r in rules && r.enabled && r.kind == CidrRule && r.value == value
  {
    hide ContainsAnyEndpoint, CoversEndpoint;
    CoversEndpointIs(value, endpoints);
    if rules != [] {
      var n := |rules| - 1;
      SurvivesIff(rules[..n], endpoints, value);
      assert rules == rules[..n] + [rules[n]];
    }
  }

  /** So no endpoint is ever among the addresses the surviving rules route, whatever the rules are. */
  lemma EndpointsStayOut(rules: seq<Rule>, endpoints: seq<string>, i: nat, f: Family, x: int)
    requires i < |endpoints| && Names(endpoints[i], f, x)
    ensures !Routed(Surviving(rules, endpoints), f, x)
  {
    var cidrs := Surviving(rules, endpoints);
    hide Surviving, Names, Means;
    if Routed(cidrs, f, x) {
      var k := RoutedByOne(cidrs, f, x);
      SurvivesIff(rules, endpoints, cidrs[k]);
    }
  }

  lemma {:induction false} RoutedByOne(cidrs: seq<string>, f: Family, x: int) returns (k: nat)
    requires Routed(cidrs, f, x)
    ensures k < |cidrs| && Routed([cidrs[k]], f, x)
  {
    hide ParseCidr, Pow2;
    NothingRouted(f, x);
    var n := |cidrs| - 1;
    assert cidrs == cidrs[..n] + [cidrs[n]];
    ParseAllConcat(cidrs[..n], [cidrs[n]]);
    RoutedConcat(cidrs[..n], [cidrs[n]], f, x);
    if Routed([cidrs[n]], f, x) {
      k := n;
    } else {
      k := RoutedByOne(cidrs[..n], f, x);
    }
  }

  lemma NothingRouted(f: Family, x: int)
    ensures !Routed([], f, x)
  {
  }
}
