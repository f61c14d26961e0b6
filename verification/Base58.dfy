/** base58Encode of gateway/internal/entitle/entitle.go: repeated division of a byte buffer in place. */
module Base58 {
  import opened Arithmetic
  import opened Common

  const ALPHABET: string :=
    "123456789" + "ABCDEFGH" + "JKLMN" + "PQRSTUVWXYZ" + "abcdefghijk" + "mnopqrstuvwxyz"

  type Byte = b: int | 0 <= b < 256

  // ---------------------------------------------------------------- positional numbers

  /** Big-endian value of digits in a base. */
  function FromDigits(ds: seq<int>, base: int): int {
    if ds == [] then 0 else FromDigits(ds[..|ds| - 1], base) * base + ds[|ds| - 1]
  }

  /** The digits of n, without a leading zero; none for 0. */
  function ToDigits(n: nat, base: int): seq<int>
    requires base >= 2
    decreases n
  {
    if n == 0 then []
    else
      QuotientShrinks(n, base);
      ToDigits(n / base, base) + [n % base]
  }

  function LeadingZeros(ds: seq<int>): (z: nat)
    ensures z <= |ds| && (forall i :: 0 <= i < z ==> ds[i] == 0) && (z < |ds| ==> ds[z] != 0)
  {
    if ds == [] || ds[0] != 0 then 0 else 1 + LeadingZeros(ds[1..])
  }

  predicate DigitsOf(ds: seq<int>, base: int) {
    forall i :: 0 <= i < |ds| ==> 0 <= ds[i] < base
  }

  lemma {:induction false} FromDigitsNat(ds: seq<int>, base: int)
    requires base >= 2 && DigitsOf(ds, base)
    ensures FromDigits(ds, base) >= 0
    ensures ds != [] && ds[0] != 0 ==> FromDigits(ds, base) > 0
  {
    if ds != [] {
      FromDigitsNat(ds[..|ds| - 1], base);
      var v := FromDigits(ds[..|ds| - 1], base);
      assert v * base >= 0;
      if v > 0 { ProductBound(v, base); }
    }
  }

  lemma SnocDigits(ds: seq<int>, d: int, base: int)
    requires base >= 2 && DigitsOf(ds, base) && 0 <= d < base
    ensures FromDigits(ds + [d], base) == FromDigits(ds, base) * base + d && DigitsOf(ds + [d], base)
  {
    assert (ds + [d])[..|ds + [d]| - 1] == ds;
  }

  lemma {:induction false} ToDigitsReads(n: nat, base: int)
    requires base >= 2
    ensures FromDigits(ToDigits(n, base), base) == n && DigitsOf(ToDigits(n, base), base)
    ensures n > 0 ==> ToDigits(n, base) != [] && ToDigits(n, base)[0] != 0
    decreases n
  {
    if n > 0 {
      QuotientShrinks(n, base);
      ToDigitsReads(n / base, base);
      SnocDigits(ToDigits(n / base, base), n % base, base);
    }
  }

  /** Writing out a value strips exactly the leading zeros. */
  lemma {:induction false} FromDigitsWrites(ds: seq<int>, base: int)
    requires base >= 2 && DigitsOf(ds, base)
    ensures FromDigits(ds, base) >= 0 && ToDigits(FromDigits(ds, base), base) == ds[LeadingZeros(ds)..]
  {
    FromDigitsNat(ds, base);
    if ds != [] {
      var front, d := ds[..|ds| - 1], ds[|ds| - 1];
      FromDigitsWrites(front, base);
      var v := FromDigits(front, base);
      var z := LeadingZeros(ds);
      StripFront(ds);
      if v == 0 {
        assert ToDigits(0, base) == [];
        if d > 0 {
          DivModUnique(d, base, 0, d);
          assert ToDigits(d, base) == [] + [d];
        }
      } else {
        DivModUnique(v * base + d, base, v, d);
        ProductBound(v, base);
      }
    }
  }

  lemma StripFront(ds: seq<int>)
    requires ds != []
    ensures var front := ds[..|ds| - 1];
            if LeadingZeros(front) == |front|
            then ds[LeadingZeros(ds)..] == (if ds[|ds| - 1] == 0 then [] else [ds[|ds| - 1]]) && front[LeadingZeros(front)..] == []
            else ds[LeadingZeros(ds)..] == front[LeadingZeros(front)..] + [ds[|ds| - 1]] && front[LeadingZeros(front)..] != []
  {
    var front := ds[..|ds| - 1];
    var z, w := LeadingZeros(ds), LeadingZeros(front);
    if w == |front| {
      assert z >= w;
    } else {
      assert ds[w] == front[w] && z == w;
    }
  }

  // ---------------------------------------------------------------- the code

  function CharOf(d: int): char
    requires 0 <= d < 58
  {
    ALPHABET[d]
  }

  function DigitOf(c: char): Option<int> {
    var x := c as int;
    if '1' <= c <= '9' then Some(x - '1' as int)
    else if 'A' <= c <= 'H' then Some(x - 'A' as int + 9)
    else if 'J' <= c <= 'N' then Some(x - 'J' as int + 17)
    else if 'P' <= c <= 'Z' then Some(x - 'P' as int + 22)
    else if 'a' <= c <= 'k' then Some(x - 'a' as int + 33)
    else if 'm' <= c <= 'z' then Some(x - 'm' as int + 44)
    else None
  }

  /** The characters of s stand for from, from + 1, ... */
  predicate Counts(s: string, from: int) {
    forall i :: 0 <= i < |s| ==> DigitOf(s[i]) == Some(from + i)
  }

  lemma CountsOn(a: string, b: string, from: int)
    requires Counts(a, from) && Counts(b, from + |a|)
    ensures Counts(a + b, from)
  {
  }

  lemma CountsHalves()
    ensures Counts("123456789", 0) && Counts("ABCDEFGH", 9) && Counts("JKLMN", 17)
    ensures Counts("PQRSTUVWXYZ", 22) && Counts("abcdefghijk", 33) && Counts("mnopqrstuvwxyz", 44)
  {
    hide Counts, DigitOf;
    CountsFirst();
    CountsUpper();
    CountsLower();
    CountsLast();
  }

  lemma CountsFirst()
    ensures Counts("123456789", 0) && Counts("ABCDEFGH", 9) && Counts("JKLMN", 17)
  {
  }

  lemma CountsUpper()
    ensures Counts("PQRSTUVWXYZ", 22)
  {
  }

  lemma CountsLower()
    ensures Counts("abcdefghijk", 33)
  {
  }

  lemma CountsLast()
    ensures Counts("mnopqrstuvwxyz", 44)
  {
  }

  lemma AlphabetCounts()
    ensures Counts(ALPHABET, 0)
  {
    var a, b, c := "123456789", "ABCDEFGH", "JKLMN";
    var d, e, f := "PQRSTUVWXYZ", "abcdefghijk", "mnopqrstuvwxyz";
    hide Counts, DigitOf;
    CountsHalves();
    CountsOn(a, b, 0);
    CountsOn(a + b, c, 0);
    CountsOn(a + b + c, d, 0);
    CountsOn(a + b + c + d, e, 0);
    CountsOn(a + b + c + d + e, f, 0);
  }

  lemma AlphabetRoundTrip(d: int)
    requires 0 <= d < 58
    ensures DigitOf(CharOf(d)) == Some(d) && (CharOf(d) == '1' <==> d == 0)
  {
    AlphabetCounts();
    var c := CharOf(d);
    assert DigitOf(c) == Some(d);
    hide CharOf;
  }

  function Ones(n: nat): string {
    seq(n, _ => '1')
  }

  function Chars(ds: seq<int>): (s: string)
    requires DigitsOf(ds, 58)
    ensures |s| == |ds| && forall i :: 0 <= i < |ds| ==> s[i] == CharOf(ds[i])
  {
    seq(|ds|, i requires 0 <= i < |ds| => CharOf(ds[i]))
  }

  /** One '1' per leading zero byte, then the base-58 digits of the value. */
  function Encode(bytes: seq<Byte>): string {
    FromDigitsNat(bytes, 256);
    ToDigitsReads(FromDigits(bytes, 256), 58);
    Ones(LeadingZeros(bytes)) + Chars(ToDigits(FromDigits(bytes, 256), 58))
  }

  /** Reading a code: digits in base 58, each leading '1' a zero byte. */
  function Decode(s: string): Option<seq<int>> {
    if exists i :: 0 <= i < |s| && DigitOf(s[i]).None? then None
    else
      var ds := seq(|s|, i requires 0 <= i < |s| => DigitOf(s[i]).value);
      FromDigitsNat(ds, 58);
      Some(Zeros(LeadingZeros(ds)) + ToDigits(FromDigits(ds, 58), 256))
  }

  lemma {:induction false} LeadingZerosOf(z: nat, ds: seq<int>)
    requires ds != [] ==> ds[0] != 0
    ensures LeadingZeros(Zeros(z) + ds) == z
  {
    var s := Zeros(z) + ds;
    assert forall i :: 0 <= i < z ==> s[i] == 0;
    assert ds != [] ==> s[z] == ds[0];
  }

  lemma {:induction false} ZerosAddNothing(z: nat, ds: seq<int>, base: int)
    requires base >= 2
    ensures FromDigits(Zeros(z) + ds, base) == FromDigits(ds, base)
    decreases |ds|, z
  {
    var s := Zeros(z) + ds;
    if ds == [] {
      if z > 0 {
        assert s[..|s| - 1] == Zeros(z - 1) + [];
        ZerosAddNothing(z - 1, [], base);
      } else {
        assert s == [];
      }
    } else {
      assert s[..|s| - 1] == Zeros(z) + ds[..|ds| - 1];
      ZerosAddNothing(z, ds[..|ds| - 1], base);
    }
  }

  /** The digits, leading zeros included, that Encode writes out. */
  function CodeDigits(bytes: seq<Byte>): seq<int> {
    FromDigitsNat(bytes, 256);
    Zeros(LeadingZeros(bytes)) + ToDigits(FromDigits(bytes, 256), 58)
  }

  lemma EncodeSpells(bytes: seq<Byte>)
    ensures |Encode(bytes)| == |CodeDigits(bytes)|
    ensures forall i :: 0 <= i < |Encode(bytes)| ==> DigitOf(Encode(bytes)[i]) == Some(CodeDigits(bytes)[i])
  {
    hide CharOf, DigitOf, ToDigits, FromDigits;
    FromDigitsNat(bytes, 256);
    ToDigitsReads(FromDigits(bytes, 256), 58);
    var z, ds := LeadingZeros(bytes), ToDigits(FromDigits(bytes, 256), 58);
    AlphabetRoundTrip(0);
    OneIsZero();
    forall i | 0 <= i < |Encode(bytes)| ensures DigitOf(Encode(bytes)[i]) == Some(CodeDigits(bytes)[i]) {
      if i >= z { AlphabetRoundTrip(ds[i - z]); }
    }
  }

  lemma OneIsZero()
    ensures CharOf(0) == '1'
  {
  }

  lemma DecodeSpelled(s: string, ds: seq<int>)
    requires |s| == |ds| && (forall i :: 0 <= i < |s| ==> DigitOf(s[i]) == Some(ds[i])) && DigitsOf(ds, 58)
    ensures FromDigits(ds, 58) >= 0
    ensures Decode(s) == Some(Zeros(LeadingZeros(ds)) + ToDigits(FromDigits(ds, 58), 256))
  {
    hide DigitOf, ToDigits, FromDigits;
    FromDigitsNat(ds, 58);
    assert seq(|s|, i requires 0 <= i < |s| => DigitOf(s[i]).value) == ds by {
      assert forall i :: 0 <= i < |s| ==> DigitOf(s[i]).Some?;
    }
  }

  /** Decoding gives the bytes back, so the encoding is injective. */
  lemma RoundTrip(bytes: seq<Byte>)
    ensures Decode(Encode(bytes)) == Some(bytes)
  {
    hide DigitOf, CharOf, Encode, Decode, ToDigits, FromDigits;
    var z, n := LeadingZeros(bytes), FromDigits(bytes, 256);
    FromDigitsWrites(bytes, 256);
    ToDigitsReads(n, 58);
    EncodeSpells(bytes);
    var ds := ToDigits(n, 58);
    ZeroHasNoDigits(58);
    DecodeSpelled(Encode(bytes), Zeros(z) + ds);
    LeadingZerosOf(z, ds);
    ZerosAddNothing(z, ds, 58);
    assert Zeros(z) + bytes[z..] == bytes;
  }

  lemma ZeroHasNoDigits(base: int)
    requires base >= 2
    ensures ToDigits(0, base) == []
  {
  }

  lemma Injective(a: seq<Byte>, b: seq<Byte>)
    requires Encode(a) == Encode(b)
    ensures a == b
  {
    hide Encode, Decode;
    RoundTrip(a);
    RoundTrip(b);
  }

  /** No surplus leading digit: past the '1's of the zero bytes the first digit is not zero. */
  lemma NoSurplusDigit(bytes: seq<Byte>)
    ensures var z := LeadingZeros(bytes);
            && z <= |Encode(bytes)| && (forall i :: 0 <= i < z ==> Encode(bytes)[i] == '1')
            && (z < |Encode(bytes)| ==> Encode(bytes)[z] != '1')
            && (z < |Encode(bytes)| <==> z < |bytes|)
  {
    var z, n := LeadingZeros(bytes), FromDigits(bytes, 256);
    FromDigitsWrites(bytes, 256);
    ToDigitsReads(n, 58);
    AlphabetRoundTrip(0);
    if n > 0 { AlphabetRoundTrip(ToDigits(n, 58)[0]); }
    if z == |bytes| {
      assert ToDigits(n, 256) == [];
    }
    hide DigitOf, CharOf, ToDigits, FromDigits;
  }

  // ---------------------------------------------------------------- length of a code

  /** k digits without a leading zero denote a value in [base^(k-1), base^k). */
  lemma {:induction false} DigitCount(n: nat, base: nat)
    requires base >= 2 && n > 0
    ensures Power(base, |ToDigits(n, base)| - 1) <= n < Power(base, |ToDigits(n, base)|)
    decreases n
  {
    QuotientShrinks(n, base);
    var q := n / base;
    var k := |ToDigits(q, base)|;
    assert |ToDigits(n, base)| == k + 1;
    if q == 0 {
      assert k == 0 && Power(base, 1) == base * Power(base, 0);
    } else {
      DigitCount(q, base);
      assert k >= 1;
      hide ToDigits;
      assert Power(base, k) == base * Power(base, k - 1) && Power(base, k + 1) == base * Power(base, k);
      hide Power;
      Between(q, n % base, base, Power(base, k - 1), Power(base, k));
    }
  }

  lemma Between(q: nat, r: nat, base: nat, low: nat, high: nat)
    requires low <= q < high && r < base
    ensures base * low <= q * base + r < base * high
  {
    assert base * low <= base * q;
    assert base * (q + 1) <= base * high;
    assert base * (q + 1) == q * base + base;
  }

  lemma {:induction false} Power58Below256(k: nat)
    ensures Power(58, k) <= Power(256, k)
  {
    if k > 0 { Power58Below256(k - 1); }
  }

  lemma {:induction false} PowerGrows(base: nat, j: nat, k: nat)
    requires base >= 1 && j <= k
    ensures 1 <= Power(base, j) <= Power(base, k)
    decreases k
  {
    if k > 0 && j < k {
      PowerGrows(base, j, k - 1);
      assert base * Power(base, k - 1) >= Power(base, k - 1);
    } else if k > 0 {
      PowerGrows(base, j - 1, k - 1);
      assert base * Power(base, k - 1) >= Power(base, k - 1);
    }
  }

  /** 58^8 outgrows (256/58)^m for every m up to 20. */
  lemma {:induction false} EightSpare(m: nat)
    requires m <= 20
    ensures Power(256, m) <= Power(58, m + 8)
    decreases 20 - m
  {
    if m == 20 {
      Twenty();
    } else {
      EightSpare(m + 1);
      var x, y := Power(256, m), Power(58, m + 8);
      assert Power(256, m + 1) == 256 * x && Power(58, m + 9) == 58 * y;
    }
  }

  lemma Twenty()
    ensures Power(256, 20) <= Power(58, 28)
  {
    assert Power(256, 5) == 0x100_0000_0000;
    assert Power(58, 7) == 2207984167552;
    PowerSum(256, 5, 5);
    PowerSum(256, 10, 10);
    PowerSum(58, 7, 7);
    PowerSum(58, 14, 14);
  }

  lemma Associate(a: int, b: int, c: int)
    ensures a * (b * c) == (a * b) * c
  {
  }

  lemma {:induction false} PowerSum(base: nat, j: nat, k: nat)
    ensures Power(base, j + k) == Power(base, j) * Power(base, k)
    decreases j
  {
    if j > 0 {
      PowerSum(base, j - 1, k);
      Associate(base, Power(base, j - 1), Power(base, k));
    }
  }

  /** A 20-byte hash gets a code of 20 to 28 characters. */
  lemma CodeLength(bytes: seq<Byte>)
    requires |bytes| == 20
    ensures 20 <= |Encode(bytes)| <= 28
  {
    hide ToDigits, FromDigits, Power, DigitOf, CharOf, Encode;
    var z, n := LeadingZeros(bytes), FromDigits(bytes, 256);
    EncodeSpells(bytes);
    FromDigitsWrites(bytes, 256);
    ZeroHasNoDigits(58);
    ZeroHasNoDigits(256);
    if n > 0 {
      var k, m := |ToDigits(n, 58)|, 20 - z;
      DigitCount(n, 58);
      DigitCount(n, 256);
      if k < m {
        Power58Below256(k);
        PowerGrows(256, k, m - 1);
      }
      if k > m + 8 {
        EightSpare(m);
        PowerGrows(58, m + 8, k - 1);
      }
    }
  }

  // ---------------------------------------------------------------- the imperative encoder

  /** base58Encode: divide a copy of the input in place, reverse the digits, put the zeros in front. */
  method Base58Encode(input: seq<Byte>) returns (s: string)
    ensures s == Encode(input)
  {
    hide ToDigits, FromDigits, CharOf, LeadingZeros;
    var zeros := CountZeros(input);
    var buf := new int[|input|](i requires 0 <= i < |input| => input[i]);
    assert buf[..] == input;
    FromDigitsNat(input, 256);
    DropZeros(input, zeros);
    assert buf[zeros..] == input[zeros..];
    var out, digits := Remainders(buf, zeros);
    var reversed := ReverseDigits(out);
    CharsReversed(digits);
    var prefix := new char[zeros](_ => '1');
    assert prefix[..] == Ones(zeros);
    s := prefix[..] + reversed;
  }

  /** The digits of the buffer's value from `zeros` on, lowest first; the buffer is used up. */
  method Remainders(buf: array<int>, zeros: nat) returns (out: string, ghost digits: seq<int>)
    requires zeros <= buf.Length && DigitsOf(buf[..], 256) && (zeros < buf.Length ==> buf[zeros] != 0)
    requires FromDigits(buf[zeros..], 256) >= 0
    modifies buf
    ensures DigitsOf(digits, 58) && out == Chars(digits)
    ensures Reversed(digits) == ToDigits(FromDigits(old(buf[zeros..]), 256), 58)
  {
    hide ToDigits, FromDigits, CharOf;
    ghost var n := FromDigits(buf[zeros..], 256);
    out, digits := "", [];
    var start := zeros;
    while start < buf.Length
      invariant zeros <= start <= buf.Length && DigitsOf(buf[..], 256)
      invariant start < buf.Length ==> buf[start] != 0
      invariant DigitsOf(digits, 58) && out == Chars(digits)
      invariant FromDigits(buf[start..], 256) >= 0
      invariant ToDigits(n, 58) == ToDigits(FromDigits(buf[start..], 256), 58) + Reversed(digits)
      decreases FromDigits(buf[start..], 256)
    {
      ghost var v := FromDigits(buf[start..], 256);
      FromDigitsNat(buf[start..], 256);
      var rem := DivideBy58(buf, start);
      ghost var q := FromDigits(buf[start..], 256);
      FromDigitsNat(buf[start..], 256);
      NextDigit(v, q, rem);
      CharsGrow(digits, rem);
      assert Reversed(digits + [rem]) == [rem] + Reversed(digits);
      out := out + [ALPHABET[rem]];
      digits := digits + [rem];
      if buf[start] == 0 {
        DropOneZero(buf[start..]);
        assert buf[start..][1..] == buf[start + 1..];
        start := start + 1;
      }
    }
    Exhausted(buf[start..]);
  }

  method CountZeros(input: seq<Byte>) returns (zeros: nat)
    ensures zeros == LeadingZeros(input)
  {
    zeros := 0;
    while zeros < |input| && input[zeros] == 0
      invariant zeros <= |input| && forall i :: 0 <= i < zeros ==> input[i] == 0
    {
      zeros := zeros + 1;
    }
  }

  /** One long division of buf[start..] by 58, in place: the quotient stays, the remainder comes out. */
  method DivideBy58(buf: array<int>, start: nat) returns (rem: int)
    requires start < buf.Length && DigitsOf(buf[..], 256)
    modifies buf
    ensures 0 <= rem < 58 && DigitsOf(buf[..], 256)
    ensures buf[..start] == old(buf[..start])
    ensures FromDigits(old(buf[start..]), 256) == FromDigits(buf[start..], 256) * 58 + rem
    ensures old(buf[start]) != 0 && buf[start] == 0 && start + 1 < buf.Length ==> buf[start + 1] != 0
  {
    hide FromDigits;
    rem := 0;
    var i := start;
    ghost var was := buf[..];
    EmptyIsZero();
    assert was[start..i] == [] && buf[start..i] == [];
    while i < buf.Length
      invariant start <= i <= buf.Length && 0 <= rem < 58
      invariant DigitsOf(buf[..], 256) && buf[..start] == was[..start] && buf[i..] == was[i..]
      invariant FromDigits(was[start..i], 256) == FromDigits(buf[start..i], 256) * 58 + rem
      invariant i == start + 1 && was[start] != 0 && buf[start] == 0 ==> rem > 0
      invariant i > start + 1 && was[start] != 0 && buf[start] == 0 ==> buf[start + 1] != 0
    {
      ghost var front, d := buf[start..i], was[i];
      assert buf[i] == buf[i..][0] && was[i] == was[i..][0];
      var acc := rem * 256 + buf[i];
      ByteQuotient(acc, rem, buf[i]);
      buf[i] := acc / 58;
      assert front == buf[start..i] && DigitsOf(front, 256);
      DivisionStep(was[start..i], front, d, rem, acc / 58, acc % 58);
      assert was[start..i + 1] == was[start..i] + [d];
      assert buf[start..i + 1] == front + [acc / 58];
      rem := acc % 58;
      i := i + 1;
    }
    assert was[start..buf.Length] == was[start..] && buf[start..buf.Length] == buf[start..];
  }

  lemma ByteQuotient(acc: int, rem: int, d: int)
    requires 0 <= rem < 58 && 0 <= d < 256 && acc == rem * 256 + d
    ensures 0 <= acc / 58 < 256 && acc == (acc / 58) * 58 + acc % 58
    ensures rem > 0 ==> acc / 58 > 0
    ensures acc / 58 == 0 && d > 0 ==> acc % 58 > 0
  {
  }

  lemma DivisionStep(was: seq<int>, quotient: seq<int>, d: int, rem: int, digit: int, left: int)
    requires DigitsOf(was, 256) && DigitsOf(quotient, 256) && 0 <= d < 256 && 0 <= digit < 256
    requires rem * 256 + d == digit * 58 + left
    requires FromDigits(was, 256) == FromDigits(quotient, 256) * 58 + rem
    ensures FromDigits(was + [d], 256) == FromDigits(quotient + [digit], 256) * 58 + left
  {
    hide FromDigits;
    SnocDigits(was, d, 256);
    SnocDigits(quotient, digit, 256);
    hide *;
    Rearrange(FromDigits(was, 256), FromDigits(quotient, 256), rem, d, digit, left);
  }

  lemma Rearrange(w: int, q: int, rem: int, d: int, digit: int, left: int)
    requires w == q * 58 + rem && rem * 256 + d == digit * 58 + left
    ensures w * 256 + d == (q * 256 + digit) * 58 + left
  {
  }

  lemma EmptyIsZero()
    ensures FromDigits([], 256) == 0
  {
  }

  lemma Exhausted(rest: seq<int>)
    requires rest == []
    ensures ToDigits(FromDigits(rest, 256), 58) == []
  {
  }

  lemma NextDigit(v: int, q: int, rem: int)
    requires v > 0 && q >= 0 && 0 <= rem < 58 && v == q * 58 + rem
    ensures ToDigits(v, 58) == ToDigits(q, 58) + [rem] && q < v
  {
    DivModUnique(v, 58, q, rem);
  }

  lemma DropOneZero(ds: seq<int>)
    requires ds != [] && ds[0] == 0
    ensures FromDigits(ds, 256) == FromDigits(ds[1..], 256)
  {
    assert ds == Zeros(1) + ds[1..];
    ZerosAddNothing(1, ds[1..], 256);
  }

  lemma DropZeros(ds: seq<int>, z: nat)
    requires z == LeadingZeros(ds)
    ensures FromDigits(ds, 256) == FromDigits(ds[z..], 256)
  {
    assert ds == Zeros(z) + ds[z..];
    ZerosAddNothing(z, ds[z..], 256);
  }

  lemma CharsGrow(ds: seq<int>, d: int)
    requires DigitsOf(ds, 58) && 0 <= d < 58
    ensures DigitsOf(ds + [d], 58) && Chars(ds + [d]) == Chars(ds) + [ALPHABET[d]]
  {
  }

  lemma CharsReversed(ds: seq<int>)
    requires DigitsOf(ds, 58)
    ensures DigitsOf(Reversed(ds), 58) && Chars(Reversed(ds)) == Reversed(Chars(ds))
  {
  }

  method ReverseDigits(digits: string) returns (out: string)
    ensures out == Reversed(digits)
  {
    out := digits;
    var i, j := 0, |out| - 1;
    while i < j
      invariant 0 <= i <= j + 1 && j == |digits| - 1 - i && |out| == |digits|
      invariant forall k :: 0 <= k < i || j < k < |out| ==> out[k] == digits[|digits| - 1 - k]
      invariant forall k :: i <= k <= j ==> out[k] == digits[k]
    {
      out := out[i := out[j]][j := out[i]];
      i, j := i + 1, j - 1;
    }
  }
}
