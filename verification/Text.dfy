/** JavaScript string operations the parsers use: split, join, trim, and numerals. */
module Text {
  import opened Arithmetic

  // ---------------------------------------------------------------- split and join

  predicate Without(s: string, c: char) {
    forall i :: 0 <= i < |s| ==> s[i] != c
  }

  /** Index of the first c, |s| if there is none. */
  function Find(s: string, c: char): (i: nat)
    ensures i <= |s| && Without(s[..i], c) && (i < |s| ==> s[i] == c)
  {
    if s == [] then 0
    else if s[0] == c then 0
    else
      var i := 1 + Find(s[1..], c);
      assert s[..i] == [s[0]] + s[1..][..i - 1];
      i
  }

  /** s.split(c). */
  function Split(s: string, c: char): (parts: seq<string>)
    ensures parts != []
    decreases |s|
  {
    var i := Find(s, c);
    if i == |s| then [s] else [s[..i]] + Split(s[i + 1..], c)
  }

  /** parts.join(c). */
  function Join(parts: seq<string>, c: char): string {
    if parts == [] then ""
    else if |parts| == 1 then parts[0]
    else parts[0] + [c] + Join(parts[1..], c)
  }

  lemma FindAt(a: string, c: char, rest: string)
    requires Without(a, c)
    ensures Find(a + [c] + rest, c) == |a| && Find(a, c) == |a|
  {
    var s := a + [c] + rest;
    assert s[|a|] == c;
    assert forall i :: 0 <= i < |a| ==> s[i] == a[i];
    assert forall i :: |a| < i <= |s| ==> s[..i][|a|] == c;
  }

  /** Splitting undoes joining when no part holds the separator. */
  lemma {:induction false} SplitJoin(parts: seq<string>, c: char)
    requires parts != [] && forall i :: 0 <= i < |parts| ==> Without(parts[i], c)
    ensures Split(Join(parts, c), c) == parts
  {
    hide Join, Split, Find, Without;
    if |parts| == 1 {
      SplitWhole(parts, c);
    } else {
      SplitJoin(parts[1..], c);
      JoinMore(parts, c);
      SplitMore(parts[0], c, Join(parts[1..], c));
      assert parts == [parts[0]] + parts[1..];
    }
  }

  lemma SplitWhole(parts: seq<string>, c: char)
    requires |parts| == 1 && Without(parts[0], c)
    ensures Split(Join(parts, c), c) == parts
  {
    FindAt(parts[0], c, "");
  }

  lemma JoinMore(parts: seq<string>, c: char)
    requires |parts| > 1
    ensures Join(parts, c) == parts[0] + [c] + Join(parts[1..], c)
  {
  }

  lemma SplitMore(a: string, c: char, rest: string)
    requires Without(a, c)
    ensures Split(a + [c] + rest, c) == [a] + Split(rest, c)
  {
    FindAt(a, c, rest);
    hide Find, Without;
    var s := a + [c] + rest;
    assert s[..|a|] == a && s[|a| + 1..] == rest;
  }

  /** Joining undoes splitting, always. */
  lemma {:induction false} JoinSplit(s: string, c: char)
    ensures Join(Split(s, c), c) == s
    ensures forall i :: 0 <= i < |Split(s, c)| ==> Without(Split(s, c)[i], c)
    decreases |s|
  {
    var i := Find(s, c);
    if i < |s| {
      JoinSplit(s[i + 1..], c);
      assert s == s[..i] + [c] + s[i + 1..];
      assert Split(s, c)[1..] == Split(s[i + 1..], c);
    } else {
      assert s[..i] == s;
    }
  }

  // ---------------------------------------------------------------- numerals

  function DigitChar(d: int): char
    requires 0 <= d < 16
  {
    if d < 10 then (d + 0x30) as char else (d - 10 + 0x61) as char
  }

  /** The value of a digit, in either case; 16 for anything else. */
  function DigitOf(c: char): (d: int)
    ensures 0 <= d <= 16
  {
    if '0' <= c <= '9' then c as int - 0x30
    else if 'a' <= c <= 'f' then c as int - 0x61 + 10
    else if 'A' <= c <= 'F' then c as int - 0x41 + 10
    else 16
  }

  predicate Numeral(s: string, base: int) {
    s != [] && forall i :: 0 <= i < |s| ==> DigitOf(s[i]) < base
  }

  /** n.toString(base). */
  function ToDigits(n: nat, base: int): (s: string)
    requires 2 <= base <= 16
    ensures s != []
    decreases n
  {
    if n < base then [DigitChar(n)]
    else
      QuotientShrinks(n, base);
      ToDigits(n / base, base) + [DigitChar(n % base)]
  }

  function Value(s: string, base: int): (v: nat)
    requires base >= 2
  {
    if s == [] then 0 else Value(s[..|s| - 1], base) * base + DigitOf(s[|s| - 1])
  }

  predicate Lowercase(s: string) {
    forall i :: 0 <= i < |s| ==> '0' <= s[i] <= '9' || 'a' <= s[i] <= 'f'
  }

  lemma DigitRoundTrip(d: int)
    requires 0 <= d < 16
    ensures DigitOf(DigitChar(d)) == d && Lowercase([DigitChar(d)]) && (DigitChar(d) == '0' ==> d == 0)
  {
  }

  lemma ValueSnoc(s: string, c: char, base: int)
    requires base >= 2
    ensures Value(s + [c], base) == Value(s, base) * base + DigitOf(c)
  {
    assert (s + [c])[..|s + [c]| - 1] == s;
  }

  lemma {:induction false} DigitsShape(n: nat, base: int)
    requires 2 <= base <= 16
    ensures Numeral(ToDigits(n, base), base) && Lowercase(ToDigits(n, base))
    ensures ToDigits(n, base)[0] == '0' ==> n == 0
    decreases n
  {
    if n < base {
      DigitRoundTrip(n);
    } else {
      QuotientShrinks(n, base);
      DigitsShape(n / base, base);
      DigitRoundTrip(n % base);
      SnocNumeral(ToDigits(n / base, base), DigitChar(n % base), base);
    }
  }

  /** The numeral of n reads back as n. */
  lemma {:induction false} DigitsValue(n: nat, base: int)
    requires 2 <= base <= 16
    ensures Value(ToDigits(n, base), base) == n
    decreases n
  {
    if n < base {
      DigitRoundTrip(n);
      assert "" + [DigitChar(n)] == [DigitChar(n)];
      ValueSnoc("", DigitChar(n), base);
    } else {
      QuotientShrinks(n, base);
      DigitsValue(n / base, base);
      DigitRoundTrip(n % base);
      ValueSnoc(ToDigits(n / base, base), DigitChar(n % base), base);
    }
  }

  lemma SnocNumeral(s: string, c: char, base: int)
    requires Numeral(s, base) && Lowercase(s) && DigitOf(c) < base && Lowercase([c])
    ensures Numeral(s + [c], base) && Lowercase(s + [c]) && (s + [c])[0] == s[0]
  {
    assert [c][0] == c;
  }

  lemma PowerOne(base: nat)
    ensures Power(base, 1) == base
  {
    assert Power(base, 1) == base * Power(base, 0);
  }

  lemma {:induction false} DigitsLength(n: nat, base: int, k: nat)
    requires 2 <= base <= 16 && k >= 1 && n < Power(base, k)
    ensures |ToDigits(n, base)| <= k
    decreases k
  {
    if n >= base {
      PowerOne(base);
      if k > 1 {
        FloorIs(n, base, Power(base, k - 1));
        assert Power(base, k - 1) * base == Power(base, k);
        DigitsLength(n / base, base, k - 1);
      }
    }
  }

  lemma DigitFits(v: nat, p: nat, base: nat, d: nat)
    requires v < p && d < base
    ensures v * base + d < base * p
  {
    var gap := p - 1 - v;
    assert p == gap + 1 + v;
    assert base * p == base * gap + base + base * v;
  }

  lemma {:induction false} ValueBound(s: string, base: nat)
    requires Numeral(s, base) && base >= 2
    ensures Value(s, base) < Power(base, |s|)
  {
    var front, d := s[..|s| - 1], DigitOf(s[|s| - 1]);
    if |s| == 1 {
      PowerOne(base);
      assert front == [] && Value(front, base) == 0;
    } else {
      ValueBound(front, base);
      var v, p := Value(front, base), Power(base, |s| - 1);
      DigitFits(v, p, base, d);
    }
  }

  lemma LastDigit(s: string, base: int)
    requires 2 <= base <= 16 && Numeral(s, base) && Lowercase(s)
    ensures var d := DigitOf(s[|s| - 1]); 0 <= d < base && DigitChar(d) == s[|s| - 1]
  {
  }

  lemma FrontNumeral(s: string, base: int)
    requires Numeral(s, base) && Lowercase(s) && |s| > 1
    ensures var front := s[..|s| - 1]; Numeral(front, base) && Lowercase(front) && front[0] == s[0]
  {
    hide DigitOf;
  }

  lemma LeadingDigit(s: string, base: int)
    requires base >= 2 && Lowercase(s) && |s| == 1 && s[0] != '0'
    ensures Value(s, base) >= 1
  {
    assert s[..0] == [] && Value(s[..0], base) == 0;
  }

  /** A numeral without superfluous leading zeros, in lower case, is the numeral of its value. */
  lemma {:induction false} ValueDigits(s: string, base: int)
    requires 2 <= base <= 16 && Numeral(s, base) && Lowercase(s)
    requires |s| > 1 ==> s[0] != '0'
    ensures ToDigits(Value(s, base), base) == s
    ensures |s| > 1 ==> Value(s, base) >= base
  {
    hide DigitOf, DigitChar;
    var front, d := s[..|s| - 1], DigitOf(s[|s| - 1]);
    LastDigit(s, base);
    if |s| == 1 {
      assert front == [] && Value(front, base) == 0;
    } else {
      FrontNumeral(s, base);
      ValueDigits(front, base);
      var v := Value(front, base);
      if |front| == 1 { LeadingDigit(front, base); }
      ProductBound(v, base);
      DivModUnique(v * base + d, base, v, d);
    }
  }

  // ---------------------------------------------------------------- trim

  predicate JsSpace(c: char) {
    var x := c as int;
    || 0x09 <= x <= 0x0d || x == 0x20 || x == 0xa0 || x == 0x1680 || 0x2000 <= x <= 0x200a
    || x == 0x2028 || x == 0x2029 || x == 0x202f || x == 0x205f || x == 0x3000 || x == 0xfeff
  }

  function TrimStart(s: string): string {
    if s != [] && JsSpace(s[0]) then TrimStart(s[1..]) else s
  }

  function TrimEnd(s: string): string {
    if s != [] && JsSpace(s[|s| - 1]) then TrimEnd(s[..|s| - 1]) else s
  }

  function Trim(s: string): string {
    TrimEnd(TrimStart(s))
  }
}
