/** punycodeEncode of clients/core-ts/src/split.ts against the decoder of section 6.2 of RFC 3492. */
module Punycode {
  import opened Arithmetic
  import opened Common

  const BASE: int := 36
  const TMIN: int := 1
  const TMAX: int := 26
  const SKEW: int := 38
  const DAMP: int := 700
  const INITIAL_N: int := 128
  const INITIAL_BIAS: int := 72
  const MAX_CODE_POINT: int := 0x10FFFF
  /** Up to this many code points no delta reaches 2^31, where the source's `delta >> 1` wraps. */
  const SAFE_LENGTH: int := 1927

  type CodePoint = c: int | 0 <= c <= MAX_CODE_POINT

  // ---------------------------------------------------------------- RFC 3492

  function Threshold(k: int, bias: int): (t: int)
    ensures TMIN <= t <= TMAX
  {
    if k <= bias then TMIN else if k >= bias + TMAX then TMAX else k - bias
  }

  /** Section 5: a..z (either case) are 0..25, 0..9 are 26..35. */
  function DigitValue(c: char): Option<int> {
    if 'a' <= c <= 'z' then Some(c as int - 'a' as int)
    else if 'A' <= c <= 'Z' then Some(c as int - 'A' as int)
    else if '0' <= c <= '9' then Some(c as int - '0' as int + 26)
    else None
  }

  /** Section 6.1. */
  function Adapt(delta: nat, numPoints: int, first: bool): int
    requires numPoints > 0
  {
    var d := if first then delta / DAMP else delta / 2;
    Scale(d + d / numPoints, 0)
  }

  /** 455 is ((base - tmin) * tmax) / 2. */
  function Scale(d: int, k: int): int {
    if d > 455 then Scale(d / 35, k + BASE) else k + Slope(d)
  }

  /** (base - tmin + 1) * d / (d + skew), rounded down. */
  function Slope(d: int): int {
    FloorDiv(36 * d, d + SKEW)
  }

  /** Math.floor(a / b). A zero divisor (only with a negative numerator here) gives -Infinity, a bias
      for which every threshold is TMAX, as it is for 0. */
  function FloorDiv(a: int, b: int): int {
    if b > 0 then a / b else if b < 0 then (-a) / (-b) else 0
  }

  /** One generalized variable-length integer, from digit weight w at position k; also the rest. */
  function DecodeInteger(s: string, k: int, w: nat, bias: int): (r: Option<(nat, string)>)
    ensures r.Some? ==> |r.value.1| < |s|
  {
    if s == [] then None
    else
      match DigitValue(s[0])
      case None => None
      case Some(d) =>
        var t := Threshold(k, bias);
        if d < t then Some((d * w, s[1..]))
        else
          match DecodeInteger(s[1..], k + BASE, w * (BASE - t), bias)
          case None => None
          case Some(r) => Some((d * w + r.0, r.1))
  }

  datatype State = State(n: nat, i: nat, bias: int, output: seq<int>)

  /** The main loop of section 6.2; None is its failure. */
  function DecodeInsertions(s: string, st: State): Option<seq<int>>
    decreases |s|
  {
    if s == [] then Some(st.output)
    else
      match DecodeInteger(s, BASE, 1, st.bias)
      case None => None
      case Some(r) => DecodeInsertions(r.1, Inserted(st, r.0))
  }

  function Inserted(st: State, delta: nat): State {
    var size := |st.output| + 1;
    var at := (st.i + delta) % size;
    var n := st.n + (st.i + delta) / size;
    State(n, at + 1, Adapt(delta, size, st.i == 0), st.output[..at] + [n] + st.output[at..])
  }

  /** Position of the last delimiter, 0 if there is none. */
  function LastDelimiter(s: string): (b: nat)
    ensures b <= |s|
  {
    if s == [] then 0 else if s[|s| - 1] == '-' then |s| - 1 else LastDelimiter(s[..|s| - 1])
  }

  function CodesOf(s: string): (r: seq<int>)
    ensures |r| == |s|
  {
    seq(|s|, i requires 0 <= i < |s| => s[i] as int)
  }

  function Decode(s: string): Option<seq<int>> {
    var b := LastDelimiter(s);
    if exists i :: 0 <= i < b && s[i] as int >= INITIAL_N then None
    else
      var rest := if b > 0 then s[b + 1..] else s;
      DecodeInsertions(rest, State(INITIAL_N, 0, INITIAL_BIAS, CodesOf(s[..b])))
  }

  // ---------------------------------------------------------------- the source's digits and bias

  function Digit(d: int): char
    requires 0 <= d < BASE
  {
    if d < 26 then (d + 0x61) as char else (d - 26 + 0x30) as char
  }

  /** JavaScript's ToInt32, which `>>` applies first. */
  function ToInt32(x: int): int {
    (x + 0x8000_0000) % 0x1_0000_0000 - 0x8000_0000
  }

  /** The source's adaptation: `delta >> 1` goes through ToInt32. */
  function SourceAdapt(delta: nat, numPoints: int, firstTime: bool): int
    requires numPoints > 0
  {
    var d := if firstTime then delta / DAMP else ToInt32(delta) / 2;
    Scale(d + d / numPoints, 0)
  }

  /** The shift halves exactly the deltas below 2^31. */
  lemma ShiftHalvesIff(delta: nat)
    ensures ToInt32(delta) / 2 == delta / 2 <==> delta < 0x8000_0000
  {
  }

  lemma AdaptsAsRfc(delta: nat, numPoints: int, firstTime: bool)
    requires numPoints > 0 && (firstTime || delta < 0x8000_0000)
    ensures SourceAdapt(delta, numPoints, firstTime) == Adapt(delta, numPoints, firstTime)
  {
    ShiftHalvesIff(delta);
    hide Scale, ToInt32;
  }

  method AdaptBias(delta: nat, numPoints: int, firstTime: bool) returns (bias: int)
    requires numPoints > 0
    ensures bias == SourceAdapt(delta, numPoints, firstTime)
  {
    hide Slope, Scale, ToInt32;
    var d := if firstTime then delta / DAMP else ToInt32(delta) / 2;
    bias := ScaleDown(d + d / numPoints);
  }

  /** Its loop. */
  method ScaleDown(d0: int) returns (bias: int)
    ensures bias == Scale(d0, 0)
  {
    hide Slope;
    var d, k := d0, 0;
    while d > 455
      invariant Scale(d, k) == Scale(d0, 0)
    {
      d := d / 35;
      k := k + BASE;
    }
    bias := k + Slope(d);
  }

  // ---------------------------------------------------------------- integers round-trip

  /** The digit put out for q, and what is left of q after it. */
  function LowDigit(q: nat, t: int): (d: int)
    requires TMIN <= t <= TMAX && t <= q
    ensures t <= d < BASE
  {
    t + (q - t) % (BASE - t)
  }

  function Carry(q: nat, t: int): (r: nat)
    requires TMIN <= t <= TMAX && t <= q
    ensures r < q
  {
    QuotientSmaller(q - t, BASE - t);
    (q - t) / (BASE - t)
  }

  lemma QuotientSmaller(x: nat, m: int)
    requires m >= 2
    ensures 0 <= x / m <= x
  {
    if x > 0 { QuotientShrinks(x, m); }
  }

  function EncodeInteger(q: nat, k: int, bias: int): string
    decreases q
  {
    var t := Threshold(k, bias);
    if q < t then [Digit(q)]
    else [Digit(LowDigit(q, t))] + EncodeInteger(Carry(q, t), k + BASE, bias)
  }

  lemma DigitRoundTrip(d: int)
    requires 0 <= d < BASE
    ensures DigitValue(Digit(d)) == Some(d) && Digit(d) != '-' && Digit(d) as int < INITIAL_N
  {
  }

  lemma Weigh(q: nat, t: int, w: int)
    requires TMIN <= t <= TMAX && t <= q
    ensures LowDigit(q, t) * w + Carry(q, t) * (w * (BASE - t)) == q * w
  {
    var d, e, m := LowDigit(q, t), Carry(q, t), BASE - t;
    assert q == d + e * m;
    assert e * (w * m) == (e * m) * w;
    assert d * w + (e * m) * w == (d + e * m) * w;
  }

  lemma DecodeDigit(d: int, rest: string, k: int, w: nat, bias: int)
    requires 0 <= d < BASE
    ensures
            var t := Threshold(k, bias);
            var s := [Digit(d)] + rest;
            if d < t then DecodeInteger(s, k, w, bias) == Some((d * w, rest))
            else
              var r := DecodeInteger(rest, k + BASE, w * (BASE - t), bias);
              r.Some? ==> DecodeInteger(s, k, w, bias) == Some((d * w + r.value.0, r.value.1))
  {
    DigitRoundTrip(d);
    assert ([Digit(d)] + rest)[1..] == rest;
  }

  lemma {:induction false} IntegerRoundTrip(q: nat, k: int, w: nat, bias: int, rest: string)
    ensures DecodeInteger(EncodeInteger(q, k, bias) + rest, k, w, bias) == Some((q * w, rest))
    decreases q
  {
    hide Carry, LowDigit, DecodeInteger;
    var t := Threshold(k, bias);
    if q < t {
      DecodeDigit(q, rest, k, w, bias);
    } else {
      var tail := EncodeInteger(Carry(q, t), k + BASE, bias);
      IntegerRoundTrip(Carry(q, t), k + BASE, w * (BASE - t), bias, rest);
      DecodeDigit(LowDigit(q, t), tail + rest, k, w, bias);
      assert ([Digit(LowDigit(q, t))] + tail) + rest == [Digit(LowDigit(q, t))] + (tail + rest);
      Weigh(q, t, w);
    }
  }

  predicate IsExtended(s: string) {
    forall i :: 0 <= i < |s| ==> s[i] != '-' && s[i] as int < INITIAL_N
  }

  lemma {:induction false} IntegerDigitsBasic(q: nat, k: int, bias: int)
    ensures |EncodeInteger(q, k, bias)| > 0 && IsExtended(EncodeInteger(q, k, bias))
    decreases q
  {
    hide Carry, LowDigit;
    var t := Threshold(k, bias);
    if q < t {
      DigitRoundTrip(q);
    } else {
      DigitRoundTrip(LowDigit(q, t));
      IntegerDigitsBasic(Carry(q, t), k + BASE, bias);
    }
  }

  // ---------------------------------------------------------------- what is handled so far

  /** The code points below b, in order. */
  function Below(s: seq<int>, b: int): seq<int> {
    if s == [] then []
    else Below(s[..|s| - 1], b) + (if s[|s| - 1] < b then [s[|s| - 1]] else [])
  }

  lemma {:induction false} BelowConcat(a: seq<int>, c: seq<int>, b: int)
    ensures Below(a + c, b) == Below(a, b) + Below(c, b)
  {
    if c == [] {
      assert a + c == a;
    } else {
      assert (a + c)[..|a + c| - 1] == a + c[..|c| - 1];
      BelowConcat(a, c[..|c| - 1], b);
    }
  }

  lemma {:induction false} BelowSize(s: seq<int>, b: int)
    ensures |Below(s, b)| <= |s|
    ensures |Below(s, b)| == |s| ==> Below(s, b) == s
    ensures |Below(s, b)| < |s| ==> exists i :: 0 <= i < |s| && s[i] >= b
  {
    if s != [] {
      BelowSize(s[..|s| - 1], b);
      if |Below(s, b)| < |s| && s[|s| - 1] < b {
        var i :| 0 <= i < |s| - 1 && s[..|s| - 1][i] >= b;
        assert s[i] >= b;
      }
    }
  }

  lemma {:induction false} BelowGap(s: seq<int>, b: int, c: int)
    requires b <= c && forall i :: 0 <= i < |s| ==> !(b <= s[i] < c)
    ensures Below(s, b) == Below(s, c)
  {
    if s != [] { BelowGap(s[..|s| - 1], b, c); }
  }

  /** What has been written when the scan for code point n stands at index j. */
  function Handled(cps: seq<CodePoint>, n: int, j: nat): seq<int>
    requires j <= |cps|
  {
    Below(cps[..j], n + 1) + Below(cps[j..], n)
  }

  lemma HandledEnds(cps: seq<CodePoint>, n: int)
    ensures Handled(cps, n, 0) == Below(cps, n)
    ensures Handled(cps, n, |cps|) == Below(cps, n + 1)
  {
    assert cps[0..] == cps && cps[..|cps|] == cps;
  }

  function Only(c: int, b: int): seq<int>
  {
    if c < b then [c] else []
  }

  lemma BelowAround(cps: seq<CodePoint>, j: nat, b: int)
    requires j < |cps|
    ensures Below(cps[..j + 1], b) == Below(cps[..j], b) + Only(cps[j], b)
    ensures Below(cps[j..], b) == Only(cps[j], b) + Below(cps[j + 1..], b)
  {
    assert cps[..j + 1][..j] == cps[..j];
    assert [cps[j]][..0] == [];
    assert cps[j..] == [cps[j]] + cps[j + 1..];
    BelowConcat([cps[j]], cps[j + 1..], b);
  }

  /** Passing index j of the scan for n: n itself is inserted after everything handled to its left. */
  lemma HandledStep(cps: seq<CodePoint>, n: int, j: nat)
    requires j < |cps|
    ensures var p := |Below(cps[..j], n + 1)|;
            var h := Handled(cps, n, j);
            && p <= |h|
            && |Below(cps[..j + 1], n + 1)| == p + (if cps[j] <= n then 1 else 0)
            && Handled(cps, n, j + 1) == (if cps[j] == n then h[..p] + [n] + h[p..] else h)
  {
    hide Below;
    var a, c := Below(cps[..j], n + 1), Below(cps[j + 1..], n);
    BelowAround(cps, j, n + 1);
    BelowAround(cps, j, n);
    if cps[j] == n {
      SpliceIn(a, n, c);
    } else if cps[j] < n {
      assert a + ([cps[j]] + c) == (a + [cps[j]]) + c;
    }
  }

  lemma SpliceIn(a: seq<int>, n: int, c: seq<int>)
    ensures (a + [n]) + c == (a + c)[..|a|] + [n] + (a + c)[|a|..]
  {
    assert (a + c)[..|a|] == a && (a + c)[|a|..] == c;
  }

  // ---------------------------------------------------------------- decoder runs

  /** Decoding text t takes the decoder from st0 to st1, whatever follows. */
  ghost predicate Reaches(t: string, st0: State, st1: State) {
    forall rest: string :: DecodeInsertions(t + rest, st0) == DecodeInsertions(rest, st1)
  }

  lemma ReachesNext(t: string, st0: State, st1: State, delta: nat)
    requires Reaches(t, st0, st1)
    ensures Reaches(t + EncodeInteger(delta, BASE, st1.bias), st0, Inserted(st1, delta))
  {
    hide EncodeInteger, Inserted, DecodeInteger, IsExtended;
    var v := EncodeInteger(delta, BASE, st1.bias);
    forall rest: string
      ensures DecodeInsertions((t + v) + rest, st0) == DecodeInsertions(rest, Inserted(st1, delta))
    {
      assert (t + v) + rest == t + (v + rest);
      IntegerRoundTrip(delta, BASE, 1, st1.bias, rest);
      IntegerDigitsBasic(delta, BASE, st1.bias);
      assert v + rest != [];
    }
  }

  /** i == (n' - n) * size + p decodes to code point n' at position p. */
  lemma InsertedAt(st: State, delta: nat, n: int, p: nat)
    requires p <= |st.output|
    requires st.n * (|st.output| + 1) + st.i + delta == n * (|st.output| + 1) + p
    ensures Inserted(st, delta).n == n && Inserted(st, delta).i == p + 1
    ensures Inserted(st, delta).output == st.output[..p] + [n] + st.output[p..]
  {
    hide Adapt;
    var size := |st.output| + 1;
    Regroup(st.n, size, st.i + delta, n, p);
    DivModUnique(st.i + delta, size, n - st.n, p);
  }

  lemma Regroup(m: int, size: int, x: int, n: int, p: int)
    requires m * size + x == n * size + p
    ensures x == (n - m) * size + p
  {
  }

  // ---------------------------------------------------------------- the encoder

  /** The literal part splits off cleanly: the extended part holds no delimiter. */
  lemma SplitOff(basics: string, ext: string)
    requires IsExtended(ext) && forall i :: 0 <= i < |basics| ==> basics[i] as int < INITIAL_N
    ensures var s := basics + (if basics == [] then "" else "-") + ext;
            Decode(s) == DecodeInsertions(ext, State(INITIAL_N, 0, INITIAL_BIAS, CodesOf(basics)))
  {
    if basics == [] {
      LastDashNone(ext);
      assert "" + "" + ext == ext && ext[..0] == "";
      assert CodesOf(ext[..0]) == CodesOf(basics);
    } else {
      var s := basics + "-" + ext;
      LastDashAt(basics, ext);
      assert s[..|basics|] == basics && s[|basics| + 1..] == ext;
    }
  }

  lemma {:induction false} LastDashNone(ext: string)
    requires IsExtended(ext)
    ensures LastDelimiter(ext) == 0
  {
    if ext != [] { LastDashNone(ext[..|ext| - 1]); }
  }

  lemma {:induction false} LastDashAt(basics: string, ext: string)
    requires IsExtended(ext)
    ensures LastDelimiter(basics + "-" + ext) == |basics|
  {
    if ext == [] {
      assert basics + "-" + ext == basics + "-";
    } else {
      assert (basics + "-" + ext)[..|basics + "-" + ext| - 1] == basics + "-" + ext[..|ext| - 1];
      LastDashAt(basics, ext[..|ext| - 1]);
    }
  }

  /** The code points below 128, copied literally. */
  method Basics(cps: seq<CodePoint>) returns (output: string)
    ensures CodesOf(output) == Below(cps, INITIAL_N)
    ensures forall i :: 0 <= i < |output| ==> output[i] as int < INITIAL_N
  {
    output := "";
    for j := 0 to |cps|
      invariant CodesOf(output) == Below(cps[..j], INITIAL_N)
      invariant forall i :: 0 <= i < |output| ==> output[i] as int < INITIAL_N
    {
      assert cps[..j + 1][..j] == cps[..j];
      if cps[j] < INITIAL_N {
        output := output + [cps[j] as char];
      }
    }
    assert cps[..|cps|] == cps;
  }

  /** The smallest code point of at least n; past every code point (the source's Infinity) if none. */
  method SmallestFrom(cps: seq<CodePoint>, n: int) returns (m: int)
    requires n <= MAX_CODE_POINT + 1
    ensures n <= m <= MAX_CODE_POINT + 1
    ensures forall i :: 0 <= i < |cps| ==> !(n <= cps[i] < m)
    ensures (exists i :: 0 <= i < |cps| && cps[i] >= n) ==> m in cps
  {
    m := MAX_CODE_POINT + 1;
    for j := 0 to |cps|
      invariant n <= m <= MAX_CODE_POINT + 1
      invariant forall i :: 0 <= i < j ==> !(n <= cps[i] < m)
      invariant m == MAX_CODE_POINT + 1 || m in cps
    {
      if cps[j] >= n && cps[j] < m {
        m := cps[j];
      }
    }
  }

  /** One delta as a variable-length integer. */
  method PutInteger(delta: nat, bias: int) returns (text: string)
    ensures text == EncodeInteger(delta, BASE, bias)
  {
    hide LowDigit, Carry;
    var q, k := delta, BASE;
    text := "";
    var t := Threshold(k, bias);
    while q >= t
      invariant t == Threshold(k, bias)
      invariant text + EncodeInteger(q, k, bias) == EncodeInteger(delta, BASE, bias)
      decreases q
    {
      assert text + EncodeInteger(q, k, bias)
          == (text + [Digit(LowDigit(q, t))]) + EncodeInteger(Carry(q, t), k + BASE, bias);
      text := text + [Digit(LowDigit(q, t))];
      q := Carry(q, t);
      k := k + BASE;
      t := Threshold(k, bias);
    }
    text := text + [Digit(q)];
  }

  /** Where encoder and decoder stand relative to each other: the decoder fed everything written so
      far is in `st`, and `delta` is what separates it from (n, position of index j). */
  ghost predicate InStep(cps: seq<CodePoint>, n: int, j: nat, handled: int, delta: int, st: State, basic: int)
    requires j <= |cps|
  {
    && st.output == Handled(cps, n, j) && |st.output| == handled && basic <= handled <= |cps|
    && INITIAL_N <= st.n
    && st.n * (handled + 1) + st.i + delta == n * (handled + 1) + |Below(cps[..j], n + 1)|
    && (handled == basic <==> st.i == 0)
  }

  lemma InStepStart(cps: seq<CodePoint>, literal: seq<int>)
    requires literal == Below(cps, INITIAL_N)
    ensures InStep(cps, INITIAL_N, 0, |literal|, 0, State(INITIAL_N, 0, INITIAL_BIAS, literal), |literal|)
  {
    HandledEnds(cps, INITIAL_N);
    BelowSize(cps, INITIAL_N);
  }

  lemma InStepJump(cps: seq<CodePoint>, n: int, m: int, handled: int, delta: int, st: State, basic: int)
    requires InStep(cps, n, 0, handled, delta, st, basic) && n <= m
    requires forall i :: 0 <= i < |cps| ==> !(n <= cps[i] < m)
    ensures InStep(cps, m, 0, handled, delta + (m - n) * (handled + 1), st, basic)
  {
    HandledEnds(cps, n);
    HandledEnds(cps, m);
    BelowGap(cps, n, m);
    hide Below, Handled;
    assert (m - n) * (handled + 1) == m * (handled + 1) - n * (handled + 1);
    assert cps[..0] == [] && |Below(cps[..0], n + 1)| == |Below(cps[..0], m + 1)| by { BelowSize([], n + 1); BelowSize([], m + 1); }
  }

  lemma InStepSkip(cps: seq<CodePoint>, n: int, j: nat, handled: int, delta: int, st: State, basic: int)
    requires j < |cps| && cps[j] != n && InStep(cps, n, j, handled, delta, st, basic)
    ensures InStep(cps, n, j + 1, handled, if cps[j] < n then delta + 1 else delta, st, basic)
  {
    HandledStep(cps, n, j);
  }

  lemma InStepNext(cps: seq<CodePoint>, n: int, handled: int, delta: int, st: State, basic: int)
    requires InStep(cps, n, |cps|, handled, delta, st, basic)
    ensures InStep(cps, n + 1, 0, handled, delta + 1, st, basic)
  {
    HandledEnds(cps, n);
    HandledEnds(cps, n + 1);
    BelowSize([], n + 2);
    assert cps[..0] == [] && cps[..|cps|] == cps;
    hide Below, Handled;
    assert (n + 1) * (handled + 1) == n * (handled + 1) + handled + 1;
  }

  /** Code point n comes up at index j: the decoder inserts exactly it, exactly there. */
  lemma InStepInsert(cps: seq<CodePoint>, n: int, j: nat, handled: int, delta: nat, st: State, basic: int)
    requires j < |cps| && cps[j] == n >= INITIAL_N && InStep(cps, n, j, handled, delta, st, basic)
    ensures InStep(cps, n, j + 1, handled + 1, 0, Inserted(st, delta), basic)
  {
    HandledStep(cps, n, j);
    HandledFits(cps, n, j + 1);
    hide Below, Handled;
    var p := |Below(cps[..j], n + 1)|;
    InsertedAt(st, delta, n, p);
    hide Inserted;
    assert basic <= handled && st.output == Handled(cps, n, j);
    InStepBuild(cps, n, j + 1, Inserted(st, delta), basic);
  }

  lemma InStepBuild(cps: seq<CodePoint>, n: int, j: nat, st: State, basic: int)
    requires j <= |cps| && st.output == Handled(cps, n, j) && basic < |st.output| <= |cps|
    requires st.n == n >= INITIAL_N && st.i == |Below(cps[..j], n + 1)| > 0
    ensures InStep(cps, n, j, |st.output|, 0, st, basic)
  {
    hide Below, Handled;
  }

  lemma HandledFits(cps: seq<CodePoint>, n: int, j: nat)
    requires j <= |cps|
    ensures |Handled(cps, n, j)| <= |cps|
  {
    BelowSize(cps[..j], n + 1);
    BelowSize(cps[j..], n);
  }

  lemma InStepDone(cps: seq<CodePoint>, n: int, handled: int, delta: int, st: State, basic: int)
    requires InStep(cps, n, 0, handled, delta, st, basic)
    ensures handled == |cps| ==> st.output == cps
    ensures handled < |cps| ==> exists i :: 0 <= i < |cps| && cps[i] >= n
  {
    HandledEnds(cps, n);
    BelowSize(cps, n);
  }

  // ---------------------------------------------------------------- what the encoder computes

  /** Literal part, its delimiter if any, then ext. */
  function Text(literal: string, ext: string): string {
    literal + (if literal == [] then "" else "-") + ext
  }

  /** The code points below 128 as characters. */
  function Literal(cps: seq<int>): (t: string)
    requires forall i :: 0 <= i < |cps| ==> 0 <= cps[i]
  {
    BelowBounds(cps, INITIAL_N);
    var low := Below(cps, INITIAL_N);
    seq(|low|, i requires 0 <= i < |low| => low[i] as char)
  }

  lemma {:induction false} BelowBounds(s: seq<int>, b: int)
    requires forall i :: 0 <= i < |s| ==> 0 <= s[i]
    ensures forall i :: 0 <= i < |Below(s, b)| ==> 0 <= Below(s, b)[i] < b
  {
    if s != [] { BelowBounds(s[..|s| - 1], b); }
  }

  function Start(literal: seq<int>): State {
    State(INITIAL_N, 0, INITIAL_BIAS, literal)
  }

  /** The decoder's state after a list of deltas. */
  function InsertAll(st: State, ds: seq<nat>): State {
    if ds == [] then st else Inserted(InsertAll(st, ds[..|ds| - 1]), ds[|ds| - 1])
  }

  /** The largest code point, its last occurrence. */
  function LastMax(cps: seq<int>): (j: nat)
    requires cps != []
    ensures j < |cps| && (forall k :: 0 <= k < |cps| ==> cps[k] <= cps[j]) && (forall k :: j < k < |cps| ==> cps[k] < cps[j])
  {
    var n := |cps| - 1;
    if n == 0 then 0
    else
      var j := LastMax(cps[..n]);
      if cps[n] >= cps[j] then n else j
  }

  predicate HasExtended(cps: seq<int>) {
    cps != [] && cps[LastMax(cps)] >= INITIAL_N
  }

  /** Where the decoder stands once it has built cps: the last code point inserted, and past where. */
  function Mark(cps: seq<int>): (m: (nat, nat)) {
    if HasExtended(cps) then (cps[LastMax(cps)], LastMax(cps) + 1) else (INITIAL_N, 0)
  }

  function Dropped(cps: seq<int>, j: nat): seq<int>
    requires j < |cps|
  {
    cps[..j] + cps[j + 1..]
  }

  /** Section 6.3 without its loops: the deltas that insert, in the order of their values and then of their
      places, the code points from 128 up. */
  function Deltas(cps: seq<int>): (ds: seq<nat>)
    decreases |cps|
  {
    if !HasExtended(cps) then []
    else
      var j := LastMax(cps);
      var front := Dropped(cps, j);
      MarkBefore(cps);
      Deltas(front) + [(cps[j] - Mark(front).0) * |cps| + j - Mark(front).1]
  }

  lemma MarkBefore(cps: seq<int>)
    requires HasExtended(cps)
    ensures var j, m := LastMax(cps), Mark(Dropped(cps, LastMax(cps)));
            && m.0 <= cps[j] && m.1 <= |cps| && (m.0 == cps[j] ==> m.1 <= j)
            && (cps[j] - m.0) * |cps| + j - m.1 >= 0
  {
    hide LastMax, Mark, Dropped;
    MarkOrder(cps);
    var j, m := LastMax(cps), Mark(Dropped(cps, LastMax(cps)));
    GapFits(cps[j], m.0, m.1, |cps|, j);
  }

  lemma MarkOrder(cps: seq<int>)
    requires HasExtended(cps)
    ensures var j, m := LastMax(cps), Mark(Dropped(cps, LastMax(cps)));
            m.0 <= cps[j] && m.1 <= |cps| && (m.0 == cps[j] ==> m.1 <= j)
  {
    hide LastMax;
    var j := LastMax(cps);
    var front := Dropped(cps, j);
    if HasExtended(front) {
      var i := LastMax(front);
      if i < j {
        assert front[i] == cps[i];
      } else {
        assert front[i] == cps[i + 1];
      }
    }
  }

  lemma GapFits(n: int, m: int, i: int, size: nat, j: nat)
    requires m <= n && i <= size && (m == n ==> i <= j)
    ensures (n - m) * size + j - i >= 0
  {
    if m < n && size > 0 { ProductBound(n - m, size); }
  }

  /** Adapting as the source does, or as the RFC does. */
  function NextBias(wraps: bool, delta: nat, numPoints: nat, first: bool): int
    requires numPoints > 0
  {
    if wraps then SourceAdapt(delta, numPoints, first) else Adapt(delta, numPoints, first)
  }

  function BiasAfter(wraps: bool, ds: seq<nat>, basic: nat): int {
    if ds == [] then INITIAL_BIAS else NextBias(wraps, ds[|ds| - 1], basic + |ds|, |ds| == 1)
  }

  /** The deltas written out one after another. */
  function Written(wraps: bool, ds: seq<nat>, basic: nat): string {
    if ds == [] then ""
    else
      var n := |ds| - 1;
      Written(wraps, ds[..n], basic) + EncodeInteger(ds[n], BASE, BiasAfter(wraps, ds[..n], basic))
  }

  /** What the source puts out. */
  function Encoded(cps: seq<CodePoint>): string {
    Text(Literal(cps), Written(true, Deltas(cps), |Literal(cps)|))
  }

  /** What section 6.3 puts out. */
  function RfcEncoded(cps: seq<CodePoint>): string {
    Text(Literal(cps), Written(false, Deltas(cps), |Literal(cps)|))
  }

  // ---------------------------------------------------------------- deltas and labels determine each other

  lemma DroppedBelow(cps: seq<int>, j: nat, b: int)
    requires j < |cps| && cps[j] >= b
    ensures Below(Dropped(cps, j), b) == Below(cps, b)
  {
    assert cps == cps[..j] + ([cps[j]] + cps[j + 1..]);
    assert [cps[j]][..0] == [];
    BelowConcat(cps[..j], cps[j + 1..], b);
    BelowConcat([cps[j]], cps[j + 1..], b);
    BelowConcat(cps[..j], [cps[j]] + cps[j + 1..], b);
  }

  lemma {:induction false} NoExtended(cps: seq<int>)
    requires !HasExtended(cps)
    ensures Below(cps, INITIAL_N) == cps
  {
    BelowSize(cps, INITIAL_N);
  }

  /** The deltas of a label make the decoder build it. */
  lemma {:induction false} DeltasBuild(cps: seq<int>)
    requires forall i :: 0 <= i < |cps| ==> 0 <= cps[i]
    ensures var st := InsertAll(Start(Below(cps, INITIAL_N)), Deltas(cps));
            st.output == cps && st.n == Mark(cps).0 && st.i == Mark(cps).1
    decreases |cps|
  {
    if !HasExtended(cps) {
      NoExtended(cps);
    } else {
      hide LastMax, Deltas, Below, Inserted, InsertAll;
      var j := LastMax(cps);
      var front := Dropped(cps, j);
      DeltasBuild(front);
      DroppedBelow(cps, j, INITIAL_N);
      var delta := LastDelta(cps);
      var st := InsertAll(Start(Below(cps, INITIAL_N)), Deltas(front));
      UnfoldInsert(Start(Below(cps, INITIAL_N)), Deltas(front), delta);
      BuildLast(cps, st, delta);
    }
  }

  lemma LastDelta(cps: seq<int>) returns (delta: nat)
    requires HasExtended(cps)
    ensures var j, m := LastMax(cps), Mark(Dropped(cps, LastMax(cps)));
            delta == (cps[j] - m.0) * |cps| + j - m.1 && Deltas(cps) == Deltas(Dropped(cps, j)) + [delta]
  {
    hide LastMax, Mark, Dropped;
    MarkBefore(cps);
    var j, m := LastMax(cps), Mark(Dropped(cps, LastMax(cps)));
    delta := (cps[j] - m.0) * |cps| + j - m.1;
  }

  lemma BuildLast(cps: seq<int>, st: State, delta: nat)
    requires HasExtended(cps)
    requires var j, m := LastMax(cps), Mark(Dropped(cps, LastMax(cps)));
             && delta == (cps[j] - m.0) * |cps| + j - m.1
             && st.output == Dropped(cps, j) && st.n == m.0 && st.i == m.1
    ensures var st' := Inserted(st, delta);
            st'.output == cps && st'.n == Mark(cps).0 && st'.i == Mark(cps).1
  {
    hide LastMax, Inserted, Mark, HasExtended, Dropped;
    var j, m := LastMax(cps), Mark(Dropped(cps, LastMax(cps)));
    Meets(cps[j], m.0, m.1, |cps|, j, delta);
    Respliced(cps, j);
    MarkIs(cps);
    InsertedAt(st, delta, cps[j], j);
  }

  lemma Meets(n: int, m: int, i: int, size: nat, j: nat, delta: int)
    requires delta == (n - m) * size + j - i
    ensures m * size + i + delta == n * size + j
  {
    Distribute(n, m, size);
  }

  lemma Respliced(cps: seq<int>, j: nat)
    requires j < |cps|
    ensures var front := Dropped(cps, j);
            |front| + 1 == |cps| && front[..j] + [cps[j]] + front[j..] == cps
  {
    var front := Dropped(cps, j);
    assert front[..j] == cps[..j] && front[j..] == cps[j + 1..];
    assert cps == cps[..j] + [cps[j]] + cps[j + 1..];
  }

  lemma MarkIs(cps: seq<int>)
    requires HasExtended(cps)
    ensures cps != [] && cps[LastMax(cps)] >= 0 && Mark(cps) == (cps[LastMax(cps)], LastMax(cps) + 1)
  {
  }

  lemma Distribute(a: int, b: int, size: int)
    ensures (a - b) * size == a * size - b * size
  {
  }

  /** And no others do. */
  lemma {:induction false} DeltasUnique(literal: seq<int>, ds: seq<nat>)
    requires forall i :: 0 <= i < |literal| ==> 0 <= literal[i] < INITIAL_N
    ensures var st := InsertAll(Start(literal), ds);
            && Deltas(st.output) == ds && Below(st.output, INITIAL_N) == literal
            && st.n == Mark(st.output).0 && st.i == Mark(st.output).1 && |st.output| == |literal| + |ds|
  {
    hide Deltas, Below, LastMax, Inserted, Mark;
    if ds == [] {
      NoDeltas(literal);
    } else {
      var front, delta := ds[..|ds| - 1], ds[|ds| - 1];
      DeltasUnique(literal, front);
      OneMore(InsertAll(Start(literal), front), delta);
      UnfoldInsert(Start(literal), front, delta);
      assert ds == front + [delta];
    }
  }

  lemma NoDeltas(literal: seq<int>)
    requires forall i :: 0 <= i < |literal| ==> 0 <= literal[i] < INITIAL_N
    ensures Deltas(literal) == [] && Below(literal, INITIAL_N) == literal && Mark(literal) == (INITIAL_N, 0)
  {
    assert !HasExtended(literal);
    NoExtended(literal);
  }

  lemma UnfoldInsert(st: State, ds: seq<nat>, delta: nat)
    ensures InsertAll(st, ds + [delta]) == Inserted(InsertAll(st, ds), delta)
  {
    assert (ds + [delta])[..|ds + [delta]| - 1] == ds;
    hide Inserted;
  }

  lemma OneMore(before: State, delta: nat)
    requires before.n == Mark(before.output).0 && before.i == Mark(before.output).1
    ensures var st := Inserted(before, delta);
            && Deltas(st.output) == Deltas(before.output) + [delta] && Below(st.output, INITIAL_N) == Below(before.output, INITIAL_N)
            && st.n == Mark(st.output).0 && st.i == Mark(st.output).1 && |st.output| == |before.output| + 1
  {
    hide Below, LastMax, Deltas;
    var st := Inserted(before, delta);
    var size := |before.output| + 1;
    var at, rounds := PlaceOf(before, delta);
    ExtendedAt(before, st.output, at, st.n, rounds, delta, size);
    hide Inserted;
    assert Dropped(st.output, at) == before.output;
    DroppedBelow(st.output, at, INITIAL_N);
    var last := LastDelta(st.output);
  }

  lemma PlaceOf(before: State, delta: nat) returns (at: nat, rounds: nat)
    ensures var size := |before.output| + 1;
            && at < size && before.i + delta == rounds * size + at
            && Inserted(before, delta).n == before.n + rounds && Inserted(before, delta).i == at + 1
            && Inserted(before, delta).output == before.output[..at] + [before.n + rounds] + before.output[at..]
  {
    var size := |before.output| + 1;
    FloorIs(before.i + delta, size, 0);
    at, rounds := (before.i + delta) % size, (before.i + delta) / size;
  }

  lemma ExtendedAt(before: State, output: seq<int>, at: nat, n: nat, rounds: nat, delta: nat, size: nat)
    requires before.n == Mark(before.output).0 && before.i == Mark(before.output).1
    requires size == |before.output| + 1 && at < size && before.i + delta == rounds * size + at && n == before.n + rounds
    requires output == before.output[..at] + [n] + before.output[at..]
    ensures n >= INITIAL_N && HasExtended(output) && LastMax(output) == at
  {
    hide LastMax;
    var old' := before.output;
    forall k | 0 <= k < |old'| ensures old'[k] < n || (old'[k] == n && k < at) {
      if HasExtended(old') { assert old'[k] <= old'[LastMax(old')]; }
    }
    assert output[at] == n && output != [];
    forall k | 0 <= k < |output| ensures output[k] <= n && (k > at ==> output[k] < n) {
      if k < at { assert output[k] == old'[k]; }
      if k > at { assert output[k] == old'[k - 1]; }
    }
  }

  // ---------------------------------------------------------------- what is written is read

  lemma {:induction false} BiasFollows(literal: seq<int>, ds: seq<nat>)
    ensures var st := InsertAll(Start(literal), ds);
            && st.bias == BiasAfter(false, ds, |literal|) && |st.output| == |literal| + |ds| && (st.i == 0 <==> ds == [])
  {
    hide Adapt;
    if ds != [] {
      BiasFollows(literal, ds[..|ds| - 1]);
    }
  }

  lemma {:induction false} WrittenReaches(literal: seq<int>, ds: seq<nat>)
    ensures Reaches(Written(false, ds, |literal|), Start(literal), InsertAll(Start(literal), ds))
  {
    hide Adapt, EncodeInteger, Reaches, Inserted;
    if ds == [] {
      ReachesItself(Start(literal));
    } else {
      var n := |ds| - 1;
      WrittenReaches(literal, ds[..n]);
      BiasFollows(literal, ds[..n]);
      ReachesNext(Written(false, ds[..n], |literal|), Start(literal), InsertAll(Start(literal), ds[..n]), ds[n]);
    }
  }

  /** Lower-case digits, as the encoder writes them. */
  predicate Plain(s: string) {
    forall i :: 0 <= i < |s| ==> 'a' <= s[i] <= 'z' || '0' <= s[i] <= '9'
  }

  lemma {:induction false} WrittenPlain(wraps: bool, ds: seq<nat>, basic: nat)
    ensures Plain(Written(wraps, ds, basic)) && IsExtended(Written(wraps, ds, basic)) && |Written(wraps, ds, basic)| >= |ds|
  {
    hide EncodeInteger, NextBias;
    if ds != [] {
      var n := |ds| - 1;
      WrittenPlain(wraps, ds[..n], basic);
      IntegerDigitsBasic(ds[n], BASE, BiasAfter(wraps, ds[..n], basic));
      IntegerPlain(ds[n], BASE, BiasAfter(wraps, ds[..n], basic));
    }
  }

  lemma {:induction false} IntegerPlain(q: nat, k: int, bias: int)
    ensures Plain(EncodeInteger(q, k, bias))
    decreases q
  {
    hide Carry, LowDigit;
    var t := Threshold(k, bias);
    if q >= t { IntegerPlain(Carry(q, t), k + BASE, bias); }
  }

  lemma LiteralCodes(cps: seq<CodePoint>)
    ensures CodesOf(Literal(cps)) == Below(cps, INITIAL_N)
    ensures forall i :: 0 <= i < |Literal(cps)| ==> Literal(cps)[i] as int < INITIAL_N
  {
    BelowBounds(cps, INITIAL_N);
    hide Below;
  }

  /** The encoder of section 6.3 is right on every label. */
  lemma RfcRoundTrip(cps: seq<CodePoint>)
    ensures Decode(RfcEncoded(cps)) == Some(cps)
  {
    hide Deltas, Below, Written, InsertAll, Literal, DecodeInsertions, Decode, Reaches;
    var literal, ds := Literal(cps), Deltas(cps);
    LiteralCodes(cps);
    WrittenPlain(false, ds, |literal|);
    SplitOff(literal, Written(false, ds, |literal|));
    WrittenReaches(CodesOf(literal), ds);
    Finished(Written(false, ds, |literal|), Start(CodesOf(literal)), InsertAll(Start(CodesOf(literal)), ds));
    DeltasBuild(cps);
  }

  // ---------------------------------------------------------------- only what is written is read

  /** A decoded integer was written as the encoder writes it. */
  lemma {:induction false} IntegerSpelled(s: string, k: int, w: nat, bias: int) returns (q: nat)
    requires Plain(s) && w >= 1 && DecodeInteger(s, k, w, bias).Some?
    ensures var (v, rest) := DecodeInteger(s, k, w, bias).value;
            v == q * w && s == EncodeInteger(q, k, bias) + rest && Plain(rest)
    decreases |s|
  {
    hide LowDigit, Carry, EncodeInteger, Digit, DigitValue, Threshold;
    var t := Threshold(k, bias);
    PlainDigit(s[0]);
    var d := DigitValue(s[0]).value;
    assert s == [s[0]] + s[1..];
    if d < t {
      q := d;
      OneDigit(d, k, bias);
    } else {
      var m := BASE - t;
      Positive(w, m);
      var q' := IntegerSpelled(s[1..], k + BASE, w * m, bias);
      var rest := DecodeInteger(s[1..], k + BASE, w * m, bias).value.1;
      hide DecodeInteger;
      q := MoreDigits(d, q', k, bias, w);
      assert s == ([Digit(d)] + EncodeInteger(q', k + BASE, bias)) + rest;
    }
  }

  lemma Positive(w: nat, m: nat)
    requires w >= 1 && m >= 1
    ensures w * m >= 1
  {
  }

  lemma OneDigit(d: nat, k: int, bias: int)
    requires d < Threshold(k, bias)
    ensures EncodeInteger(d, k, bias) == [Digit(d)]
  {
  }

  lemma MoreDigits(d: nat, q': nat, k: int, bias: int, w: nat) returns (q: nat)
    requires Threshold(k, bias) <= d < BASE
    ensures EncodeInteger(q, k, bias) == [Digit(d)] + EncodeInteger(q', k + BASE, bias)
    ensures q * w == d * w + q' * (w * (BASE - Threshold(k, bias)))
  {
    hide LowDigit, Carry, Threshold, EncodeInteger;
    var t := Threshold(k, bias);
    NotLess(d, q', BASE - t);
    q := d + q' * (BASE - t);
    Unweigh(d, q', t, w);
    EncodeMore(q, k, bias);
  }

  lemma NotLess(d: nat, q: nat, m: nat)
    ensures d + q * m >= d
  {
  }

  lemma EncodeMore(q: nat, k: int, bias: int)
    requires Threshold(k, bias) <= q
    ensures var t := Threshold(k, bias);
            EncodeInteger(q, k, bias) == [Digit(LowDigit(q, t))] + EncodeInteger(Carry(q, t), k + BASE, bias)
  {
    hide LowDigit, Carry, Threshold;
  }

  lemma PlainDigit(c: char)
    requires 'a' <= c <= 'z' || '0' <= c <= '9'
    ensures DigitValue(c).Some? && 0 <= DigitValue(c).value < BASE && Digit(DigitValue(c).value) == c
  {
  }

  lemma Unweigh(d: nat, q: nat, t: int, w: nat)
    requires TMIN <= t <= TMAX && t <= d < BASE && q * (BASE - t) >= 0
    ensures LowDigit(d + q * (BASE - t), t) == d && Carry(d + q * (BASE - t), t) == q
    ensures (d + q * (BASE - t)) * w == d * w + q * (w * (BASE - t))
  {
    var m := BASE - t;
    DivModUnique(d + q * m - t, m, q, d - t);
    assert q * (w * m) == (q * m) * w;
  }

  /** The deltas as a decoder in state st reads them. */
  function Spelled(st: State, ds: seq<nat>): string {
    if ds == [] then ""
    else
      var n := |ds| - 1;
      Spelled(st, ds[..n]) + EncodeInteger(ds[n], BASE, InsertAll(st, ds[..n]).bias)
  }

  lemma {:induction false} SpelledFirst(st: State, d: nat, ds: seq<nat>)
    ensures InsertAll(st, [d] + ds) == InsertAll(Inserted(st, d), ds)
    ensures Spelled(st, [d] + ds) == EncodeInteger(d, BASE, st.bias) + Spelled(Inserted(st, d), ds)
  {
    hide EncodeInteger, Inserted;
    if ds == [] {
      assert [d] + ds == [d] && [d][..0] == [];
      assert InsertAll(st, []) == st && Spelled(st, []) == "";
    } else {
      var n := |ds| - 1;
      var all := [d] + ds;
      assert all[..|all| - 1] == [d] + ds[..n] && all[|all| - 1] == ds[n];
      SpelledFirst(st, d, ds[..n]);
    }
  }

  lemma {:induction false} InsertionsSpelled(s: string, st: State) returns (ds: seq<nat>)
    requires Plain(s) && DecodeInsertions(s, st).Some?
    ensures s == Spelled(st, ds) && DecodeInsertions(s, st) == Some(InsertAll(st, ds).output)
    decreases |s|
  {
    hide EncodeInteger, DecodeInteger, Inserted;
    if s == "" {
      ds := [];
    } else {
      var d := IntegerSpelled(s, BASE, 1, st.bias);
      var rest := DecodeInteger(s, BASE, 1, st.bias).value.1;
      var later := InsertionsSpelled(rest, Inserted(st, d));
      ds := [d] + later;
      SpelledFirst(st, d, later);
    }
  }

  lemma {:induction false} SpelledIsWritten(literal: seq<int>, ds: seq<nat>)
    ensures Spelled(Start(literal), ds) == Written(false, ds, |literal|)
  {
    hide EncodeInteger, Adapt, InsertAll;
    if ds != [] {
      SpelledIsWritten(literal, ds[..|ds| - 1]);
      BiasFollows(literal, ds[..|ds| - 1]);
    }
  }

  /** The source's text of a label decodes to it exactly when it is the text of section 6.3. */
  lemma DecodesIfSame(cps: seq<CodePoint>)
    ensures Decode(Encoded(cps)) == Some(cps) <==> Encoded(cps) == RfcEncoded(cps)
  {
    RfcRoundTrip(cps);
    if Decode(Encoded(cps)) == Some(cps) {
      hide Deltas, Below, Written, InsertAll, Literal, DecodeInsertions, Decode;
      var literal, ds := Literal(cps), Deltas(cps);
      var ext := Written(true, ds, |literal|);
      LiteralCodes(cps);
      WrittenPlain(true, ds, |literal|);
      SplitOff(literal, ext);
      var read := InsertionsSpelled(ext, Start(CodesOf(literal)));
      SpelledIsWritten(CodesOf(literal), read);
      BelowBounds(cps, INITIAL_N);
      DeltasUnique(CodesOf(literal), read);
    }
    hide Encoded, RfcEncoded;
  }

  // ---------------------------------------------------------------- equal texts have equal integers

  /** The k-th integer put out, and the text from it on. */
  function Piece(wraps: bool, ds: seq<nat>, basic: nat, k: nat): string
    requires k < |ds|
  {
    EncodeInteger(ds[k], BASE, BiasAfter(wraps, ds[..k], basic))
  }

  function TextFrom(wraps: bool, ds: seq<nat>, basic: nat, k: nat): string
    requires k <= |ds|
    decreases |ds| - k
  {
    if k == |ds| then "" else Piece(wraps, ds, basic, k) + TextFrom(wraps, ds, basic, k + 1)
  }

  lemma {:induction false} WrittenFrom(wraps: bool, ds: seq<nat>, basic: nat, k: nat)
    requires k <= |ds|
    ensures Written(wraps, ds, basic) == Written(wraps, ds[..k], basic) + TextFrom(wraps, ds, basic, k)
    decreases |ds| - k
  {
    hide EncodeInteger, BiasAfter;
    if k == |ds| {
      assert ds[..k] == ds;
    } else {
      WrittenFrom(wraps, ds, basic, k + 1);
      assert ds[..k + 1][..k] == ds[..k];
    }
  }

  lemma DigitInjective(d: int, e: int)
    requires 0 <= d < BASE && 0 <= e < BASE && Digit(d) == Digit(e)
    ensures d == e
  {
  }

  lemma ThresholdFalls(k: int, b: int, c: int)
    requires b <= c
    ensures Threshold(k, b) >= Threshold(k, c)
  {
  }

  lemma DigitAndCarry(q: nat, t: int)
    requires TMIN <= t <= TMAX && t <= q
    ensures q == LowDigit(q, t) + Carry(q, t) * (BASE - t)
  {
  }

  lemma LessTimes(c: nat, c': nat, m: nat, m': nat)
    requires 1 <= m <= m' && c < c'
    ensures c * m < c' * m'
  {
    ProductBound(c' - c, m);
    assert c' * m == c * m + (c' - c) * m && c' * m' == c' * m + c' * (m' - m) && c' * (m' - m) >= 0;
  }

  lemma CarryOrder(c: nat, c': nat, m: int, m': int)
    requires 1 <= m <= m' && c * m >= c' * m'
    ensures c >= c'
  {
    if c < c' { LessTimes(c, c', m, m'); }
  }

  lemma NoCarry(c: nat, m: int)
    requires m >= 1 && c * m <= 0
    ensures c == 0
  {
    if c > 0 { ProductBound(c, m); }
  }

  lemma ZeroDigit(k: int, bias: int)
    ensures EncodeInteger(0, k, bias) == "a"
  {
  }

  /** When one spelling of a number continues another, it does so by a single digit 0. */
  lemma {:induction false} Continues(r: nat, r': nat, k: int, b: int, b': int, u: string)
    requires EncodeInteger(r', k, b') == EncodeInteger(r, k, b) + u && u != ""
    requires b <= b' ==> r >= r'
    ensures u == "a"
    decreases r
  {
    hide EncodeInteger, LowDigit, Carry, Threshold, Digit;
    var t, t' := Threshold(k, b), Threshold(k, b');
    if b <= b' { ThresholdFalls(k, b, b'); } else { ThresholdFalls(k, b', b); }
    Spelling(r, k, b);
    Spelling(r', k, b');
    if r >= t {
      DigitAndCarry(r, t);
    }
    if r' >= t' {
      DigitAndCarry(r', t');
      var c' := Carry(r', t');
      if r < t {
        DigitInjective(r, LowDigit(r', t'));
        NoCarry(c', BASE - t');
        ZeroDigit(k + BASE, b');
      } else {
        DigitInjective(LowDigit(r, t), LowDigit(r', t'));
        if b <= b' { CarryOrder(Carry(r, t), c', BASE - t, BASE - t'); }
        Continues(Carry(r, t), c', k + BASE, b, b', u);
      }
    }
  }

  /** Its first digit, and the rest. */
  lemma Spelling(q: nat, k: int, bias: int)
    ensures var t, s := Threshold(k, bias), EncodeInteger(q, k, bias);
            && s != "" && s[0] == (if q < t then Digit(q) else Digit(LowDigit(q, t)))
            && s[1..] == (if q < t then "" else EncodeInteger(Carry(q, t), k + BASE, bias))
  {
    hide LowDigit, Carry, Threshold, Digit;
  }

  /** Only 0 is spelled with a leading digit 0. */
  lemma LeadingZero(q: nat, k: int, bias: int)
    requires EncodeInteger(q, k, bias)[..1] == "a"
    ensures q == 0
  {
    var t := Threshold(k, bias);
    Spelling(q, k, bias);
    assert EncodeInteger(q, k, bias)[0] == Digit(0);
    hide EncodeInteger, Digit;
    DigitInjective(if q < t then q else LowDigit(q, t), 0);
  }

  /** So the rest of one text is never the other's after a digit 0. */
  lemma {:induction false} NotAhead(wraps: bool, ds: seq<nat>, basic: nat, k: nat)
    requires k <= |ds|
    ensures TextFrom(wraps, ds, basic, k) != "a" + TextFrom(!wraps, ds, basic, k)
    decreases |ds| - k
  {
    hide EncodeInteger, BiasAfter;
    var x, y := TextFrom(wraps, ds, basic, k), TextFrom(!wraps, ds, basic, k);
    if k < |ds| && x == "a" + y {
      var p := Piece(wraps, ds, basic, k);
      Spelling(ds[k], BASE, BiasAfter(wraps, ds[..k], basic));
      assert p[..1] == x[..1] == "a";
      LeadingZero(ds[k], BASE, BiasAfter(wraps, ds[..k], basic));
      ZeroDigit(BASE, BiasAfter(wraps, ds[..k], basic));
      ZeroDigit(BASE, BiasAfter(!wraps, ds[..k], basic));
      assert x[1..] == TextFrom(wraps, ds, basic, k + 1);
      assert x[1..] == y;
      NotAhead(wraps, ds, basic, k + 1);
    }
  }

  lemma SamePiece(wraps: bool, ds: seq<nat>, basic: nat, k: nat)
    requires k < |ds| && TextFrom(wraps, ds, basic, k) == TextFrom(!wraps, ds, basic, k)
    requires |Piece(wraps, ds, basic, k)| <= |Piece(!wraps, ds, basic, k)|
    ensures Piece(wraps, ds, basic, k) == Piece(!wraps, ds, basic, k)
  {
    hide EncodeInteger, BiasAfter;
    var p, p' := Piece(wraps, ds, basic, k), Piece(!wraps, ds, basic, k);
    var x, y := TextFrom(wraps, ds, basic, k + 1), TextFrom(!wraps, ds, basic, k + 1);
    assert p + x == p' + y;
    assert p == (p + x)[..|p|] == p'[..|p|];
    var u := p'[|p|..];
    assert p' == p + u;
    if u != "" {
      Continues(ds[k], ds[k], BASE, BiasAfter(wraps, ds[..k], basic), BiasAfter(!wraps, ds[..k], basic), u);
      assert x == (p + x)[|p|..] == u + y;
      NotAhead(wraps, ds, basic, k + 1);
    }
  }

  lemma {:induction false} SamePieces(ds: seq<nat>, basic: nat, k: nat)
    requires k <= |ds|
    ensures TextFrom(true, ds, basic, k) == TextFrom(false, ds, basic, k)
       <==> forall j :: k <= j < |ds| ==> Piece(true, ds, basic, j) == Piece(false, ds, basic, j)
    decreases |ds| - k
  {
    hide Piece;
    if k < |ds| {
      SamePieces(ds, basic, k + 1);
      var p, p' := Piece(true, ds, basic, k), Piece(false, ds, basic, k);
      if TextFrom(true, ds, basic, k) == TextFrom(false, ds, basic, k) {
        if |p| <= |p'| { SamePiece(true, ds, basic, k); } else { SamePiece(false, ds, basic, k); }
        assert TextFrom(true, ds, basic, k)[|p|..] == TextFrom(true, ds, basic, k + 1);
        assert TextFrom(false, ds, basic, k)[|p|..] == TextFrom(false, ds, basic, k + 1);
      }
    }
  }

  // ---------------------------------------------------------------- exactly the labels that decode

  /** Wherever a delta after the first is one the shift wraps and another follows, the wrapped bias gives
      that one the digits of the right bias. */
  predicate WrapsHarmlessly(ds: seq<nat>, basic: nat) {
    forall k :: 1 <= k < |ds| - 1 && ds[k] >= 0x8000_0000 ==>
      EncodeInteger(ds[k + 1], BASE, SourceAdapt(ds[k], basic + k + 1, false))
        == EncodeInteger(ds[k + 1], BASE, Adapt(ds[k], basic + k + 1, false))
  }

  lemma PieceBias(wraps: bool, ds: seq<nat>, basic: nat, k: nat)
    requires k < |ds|
    ensures Piece(wraps, ds, basic, k)
         == EncodeInteger(ds[k], BASE, if k == 0 then INITIAL_BIAS else NextBias(wraps, ds[k - 1], basic + k, k == 1))
  {
    hide EncodeInteger, NextBias;
    if k > 0 { assert ds[..k][|ds[..k]| - 1] == ds[k - 1]; }
  }

  lemma PieceAlikeIff(ds: seq<nat>, basic: nat, k: nat)
    requires k < |ds|
    ensures k <= 1 || ds[k - 1] < 0x8000_0000 ==> Piece(true, ds, basic, k) == Piece(false, ds, basic, k)
    ensures k > 1 ==> (Piece(true, ds, basic, k) == Piece(false, ds, basic, k)
                 <==> EncodeInteger(ds[k], BASE, SourceAdapt(ds[k - 1], basic + k, false))
                        == EncodeInteger(ds[k], BASE, Adapt(ds[k - 1], basic + k, false)))
  {
    hide EncodeInteger, SourceAdapt, Adapt, Piece;
    PieceBias(true, ds, basic, k);
    PieceBias(false, ds, basic, k);
    if k == 1 || (k > 1 && ds[k - 1] < 0x8000_0000) { AdaptsAsRfc(ds[k - 1], basic + k, k == 1); }
  }

  lemma PiecesAlikeIff(ds: seq<nat>, basic: nat)
    ensures (forall k :: 0 <= k < |ds| ==> Piece(true, ds, basic, k) == Piece(false, ds, basic, k)) <==> WrapsHarmlessly(ds, basic)
  {
    hide EncodeInteger, SourceAdapt, Adapt, Piece;
    if WrapsHarmlessly(ds, basic) {
      forall k | 0 <= k < |ds| ensures Piece(true, ds, basic, k) == Piece(false, ds, basic, k) {
        PieceAlikeIff(ds, basic, k);
        if k > 1 && ds[k - 1] >= 0x8000_0000 { assert 1 <= k - 1 < |ds| - 1; }
      }
    }
    if forall k :: 0 <= k < |ds| ==> Piece(true, ds, basic, k) == Piece(false, ds, basic, k) {
      forall k | 1 <= k < |ds| - 1 && ds[k] >= 0x8000_0000
        ensures EncodeInteger(ds[k + 1], BASE, SourceAdapt(ds[k], basic + k + 1, false))
             == EncodeInteger(ds[k + 1], BASE, Adapt(ds[k], basic + k + 1, false))
      {
        PieceAlikeIff(ds, basic, k + 1);
      }
    }
  }

  lemma SameWrittenIff(ds: seq<nat>, basic: nat)
    ensures Written(true, ds, basic) == Written(false, ds, basic) <==> WrapsHarmlessly(ds, basic)
  {
    WrittenFrom(true, ds, basic, 0);
    WrittenFrom(false, ds, basic, 0);
    assert forall wraps :: Written(wraps, ds[..0], basic) + TextFrom(wraps, ds, basic, 0) == TextFrom(wraps, ds, basic, 0);
    SamePieces(ds, basic, 0);
    PiecesAlikeIff(ds, basic);
    hide Written, TextFrom, Piece, WrapsHarmlessly;
  }

  /** The text the source puts out for a label decodes to it exactly when every delta that the 32-bit shift
      wraps, the first and the last aside, does so harmlessly. */
  lemma DecodesIff(cps: seq<CodePoint>)
    ensures Decode(Encoded(cps)) == Some(cps) <==> WrapsHarmlessly(Deltas(cps), |Literal(cps)|)
  {
    hide Deltas, Written, Literal, WrapsHarmlessly, Decode;
    DecodesIfSame(cps);
    var literal := Literal(cps);
    SameWrittenIff(Deltas(cps), |literal|);
    SameTail(literal, Written(true, Deltas(cps), |literal|), Written(false, Deltas(cps), |literal|));
  }

  lemma SameTail(literal: string, ext: string, ext': string)
    ensures Text(literal, ext) == Text(literal, ext') <==> ext == ext'
  {
    var n := |Text(literal, "")|;
    assert Text(literal, ext)[n..] == ext && Text(literal, ext')[n..] == ext';
  }

  /** A test on the deltas alone, which no wrapped bias can upset. */
  lemma SafeDecodes(cps: seq<CodePoint>)
    requires SafeDeltas(Deltas(cps))
    ensures Decode(Encoded(cps)) == Some(cps)
  {
    hide Deltas, Written, Literal, EncodeInteger, SourceAdapt, Adapt, Decode;
    DecodesIff(cps);
  }

  // ---------------------------------------------------------------- labels that are safe

  /** No delta but the first and the last reaches 2^31: the first is adapted without the shift, the last
      bias is never used. */
  predicate SafeDeltas(ds: seq<nat>) {
    forall k :: 1 <= k < |ds| - 1 ==> ds[k] < 0x8000_0000
  }

  lemma {:induction false} SafeIsRfc(ds: seq<nat>, basic: nat)
    requires SafeDeltas(ds)
    ensures Written(true, ds, basic) == Written(false, ds, basic)
  {
    hide EncodeInteger, SourceAdapt, Adapt;
    if ds != [] {
      var n := |ds| - 1;
      SafeIsRfc(ds[..n], basic);
      if n > 0 { AdaptsAsRfc(ds[n - 1], basic + n, n == 1); }
    }
  }

  lemma {:induction false} DeltaBound(cps: seq<int>, k: nat)
    requires |cps| <= SAFE_LENGTH && (forall i :: 0 <= i < |cps| ==> 0 <= cps[i] <= MAX_CODE_POINT) && k < |Deltas(cps)|
    ensures Deltas(cps)[k] < 0x8000_0000
    decreases |cps|
  {
    assert HasExtended(cps);
    hide LastMax, Deltas;
    var j := LastMax(cps);
    var front := Dropped(cps, j);
    var delta := LastDelta(cps);
    if k < |Deltas(front)| {
      DeltaBound(front, k);
    } else {
      OneDelta(cps[j] - Mark(front).0, |cps|, j, Mark(front).1);
    }
  }

  lemma OneDelta(gap: int, size: nat, j: nat, i: nat)
    requires gap <= MAX_CODE_POINT - INITIAL_N && j < size <= SAFE_LENGTH
    ensures gap * size + j - i < 0x8000_0000
  {
    assert gap * size <= (MAX_CODE_POINT - INITIAL_N) * size;
  }

  /** Labels of up to SAFE_LENGTH code points always decode. */
  lemma ShortLabels(cps: seq<CodePoint>)
    requires |cps| <= SAFE_LENGTH
    ensures Encoded(cps) == RfcEncoded(cps)
  {
    hide Deltas, Written, Literal;
    forall k | 0 <= k < |Deltas(cps)| ensures Deltas(cps)[k] < 0x8000_0000 { DeltaBound(cps, k); }
    SafeIsRfc(Deltas(cps), |Literal(cps)|);
  }

  // ---------------------------------------------------------------- a label that is not

  function Letters(n: nat): (s: seq<CodePoint>)
    ensures |s| == n
  {
    seq(n, _ => 97)
  }

  /** 1890 letters, U+0080, U+10FFFF, 36 letters, U+10FFFF: 1929 code points. */
  function LongLabel(): seq<CodePoint> {
    Letters(1890) + [0x80, 0x10FFFF] + Letters(36) + [0x10FFFF]
  }

  const LONG_DELTA: nat := 2_147_759_224

  lemma {:induction false} LettersBelow(n: nat)
    ensures Below(Letters(n), INITIAL_N) == Letters(n)
  {
    if n > 0 {
      LettersBelow(n - 1);
      assert Letters(n)[..n - 1] == Letters(n - 1);
      assert Letters(n) == Letters(n - 1) + [97];
    }
  }

  lemma LongLabelDeltas()
    ensures Below(LongLabel(), INITIAL_N) == Letters(1926) && Deltas(LongLabel()) == [1890, LONG_DELTA, 36]
  {
    hide Deltas, Below, Inserted, Adapt, LastMax;
    var st0 := Start(Letters(1926));
    var st1 := Inserted(st0, 1890);
    InsertedAt(st0, 1890, 0x80, 1890);
    assert st1.output == Letters(1890) + [0x80] + Letters(36);
    var st2 := Inserted(st1, LONG_DELTA);
    InsertedAt(st1, LONG_DELTA, 0x10FFFF, 1891);
    assert st2.output == Letters(1890) + [0x80, 0x10FFFF] + Letters(36);
    var st3 := Inserted(st2, 36);
    InsertedAt(st2, 36, 0x10FFFF, 1928);
    assert st3.output == LongLabel();
    var ds: seq<nat> := [1890, LONG_DELTA, 36];
    UnfoldInsert(st0, [], 1890);
    UnfoldInsert(st0, [1890], LONG_DELTA);
    UnfoldInsert(st0, [1890, LONG_DELTA], 36);
    assert [] + [1890] == [1890] && [1890] + [LONG_DELTA] == [1890, LONG_DELTA] && [1890, LONG_DELTA] + [36] == ds;
    assert InsertAll(st0, []) == st0;
    DeltasUnique(Letters(1926), ds);
  }

  lemma ScaleOnce(d: int, k: int, q: int, r: int)
    requires d > 455 && d == q * 35 + r && 0 <= r < 35
    ensures Scale(d, k) == Scale(q, k + BASE)
  {
    DivModUnique(d, 35, q, r);
    hide Slope;
  }

  lemma RfcBias()
    ensures Adapt(LONG_DELTA, 1928, false) == 192
  {
    assert Scale(20, 180) == 192;
    DivModUnique(1073879612, 1928, 556991, 964);
    hide Scale;
    ScaleOnce(1074436603, 0, 30698188, 23);
    ScaleOnce(30698188, 36, 877091, 3);
    ScaleOnce(877091, 72, 25059, 26);
    ScaleOnce(25059, 108, 715, 34);
    ScaleOnce(715, 144, 20, 15);
  }

  lemma SourceBias()
    ensures SourceAdapt(LONG_DELTA, 1928, false) == 36
  {
    DivModUnique(-1073604036, 1928, -556849, 836);
    DivModUnique(36 * 1074160885, 1074160847, 36, 1368);
  }

  /** Its second delta wraps: the 36 that follows is written under bias 36 and read under 192, where it has
      no end. */
  lemma LongLabelMisread()
    ensures Decode(Encoded(LongLabel())) == None
  {
    hide Deltas, Below, Literal, Written, InsertAll, LongLabel, DecodeInsertions, Decode, SourceAdapt, Adapt;
    var cps, ds2: seq<nat> := LongLabel(), [1890, LONG_DELTA];
    var literal := Literal(cps);
    LongLabelDeltas();
    LiteralCodes(cps);
    assert |literal| == 1926 by { assert |CodesOf(literal)| == 1926; }
    var st0 := Start(CodesOf(literal));
    var st2 := InsertAll(st0, ds2);
    WrittenPlain(true, ds2 + [36], 1926);
    WrittenLast(ds2);
    SafeIsRfc(ds2, 1926);
    WrittenReaches(CodesOf(literal), ds2);
    BiasFollows(CodesOf(literal), ds2);
    SourceBias();
    RfcBias();
    var last := EncodeInteger(36, BASE, 36);
    assert Written(true, ds2 + [36], 1926) == Written(false, ds2, 1926) + last;
    SplitOff(literal, Written(true, ds2 + [36], 1926));
    assert ds2 + [36] == Deltas(cps);
    ReadsNothing(st2);
  }

  lemma WrittenLast(ds2: seq<nat>)
    requires |ds2| == 2
    ensures Written(true, ds2 + [36], 1926) == Written(true, ds2, 1926) + EncodeInteger(36, BASE, SourceAdapt(ds2[1], 1928, false))
  {
    assert (ds2 + [36])[..2] == ds2;
    hide EncodeInteger, SourceAdapt;
  }

  lemma ReadsNothing(st: State)
    requires st.bias == 192
    ensures DecodeInsertions(EncodeInteger(36, BASE, 36), st) == None
  {
    assert EncodeInteger(1, 72, 36) == [Digit(1)];
    assert EncodeInteger(36, 36, 36) == [Digit(1)] + [Digit(1)];
    assert DecodeInteger([Digit(1), Digit(1)], 36, 1, 192).None?;
  }

  // ---------------------------------------------------------------- the loops

  /** One non-basic code point is put out. */
  method PutCodePoint(ext: string, delta: nat, bias: int, handled: nat, first: bool) returns (ext': string, bias': int)
    ensures ext' == ext + EncodeInteger(delta, BASE, bias) && bias' == SourceAdapt(delta, handled + 1, first)
  {
    hide SourceAdapt, EncodeInteger;
    var text := PutInteger(delta, bias);
    ext' := ext + text;
    bias' := AdaptBias(delta, handled + 1, first);
  }

  /** Encoder and decoder in step: everything written so far is ds, which brings the decoder to st. */
  ghost predicate Stands(literal: seq<int>, ds: seq<nat>, ext: string, bias: int, handled: int, st: State) {
    && st == InsertAll(Start(literal), ds) && handled == |literal| + |ds|
    && ext == Written(true, ds, |literal|) && bias == BiasAfter(true, ds, |literal|)
  }

  lemma StandsNext(literal: seq<int>, ds: seq<nat>, ext: string, bias: int, handled: int, st: State, delta: nat)
    requires Stands(literal, ds, ext, bias, handled, st)
    ensures Stands(literal, ds + [delta], ext + EncodeInteger(delta, BASE, bias),
                   SourceAdapt(delta, handled + 1, handled == |literal|), handled + 1, Inserted(st, delta))
  {
    hide SourceAdapt, EncodeInteger, Inserted;
    assert (ds + [delta])[..|ds + [delta]| - 1] == ds;
  }

  /** The scan of the label for code point n; every occurrence is put out. */
  method PutAll(cps: seq<CodePoint>, n: int, ext0: string, delta0: nat, bias0: int, handled0: nat, basic: nat,
                ghost literal: seq<int>, ghost ds0: seq<nat>, ghost st0: State)
    returns (ext: string, delta: nat, bias: int, handled: nat, ghost ds: seq<nat>, ghost st: State)
    requires INITIAL_N <= n && InStep(cps, n, 0, handled0, delta0, st0, basic) && basic == |literal|
    requires Stands(literal, ds0, ext0, bias0, handled0, st0)
    ensures InStep(cps, n, |cps|, handled, delta, st, basic)
    ensures Stands(literal, ds, ext, bias, handled, st)
  {
    hide Handled, Below, Inserted, Stands;
    ext, delta, bias, handled, ds, st := ext0, delta0, bias0, handled0, ds0, st0;
    for j := 0 to |cps|
      invariant InStep(cps, n, j, handled, delta, st, basic)
      invariant Stands(literal, ds, ext, bias, handled, st)
    {
      if cps[j] != n {
        InStepSkip(cps, n, j, handled, delta, st, basic);
      }
      if cps[j] < n {
        delta := delta + 1;
      }
      if cps[j] == n {
        InStepInsert(cps, n, j, handled, delta, st, basic);
        StandsNext(literal, ds, ext, bias, handled, st, delta);
        ext, bias := PutCodePoint(ext, delta, bias, handled, handled == basic);
        st := Inserted(st, delta);
        ds := ds + [delta];
        delta := 0;
        handled := handled + 1;
      }
    }
  }

  /** Section 6.3 with the 32-bit shift. The output decodes to the label exactly when what the shift wraps is
      harmless, and then it is the RFC's; as for every label and every output of up to SAFE_LENGTH. */
  method PunycodeEncode(cps: seq<CodePoint>) returns (output: string)
    ensures output == Encoded(cps)
    ensures Decode(output) == Some(cps) <==> WrapsHarmlessly(Deltas(cps), |Literal(cps)|)
    ensures Decode(output) == Some(cps) <==> output == RfcEncoded(cps)
    ensures |cps| <= SAFE_LENGTH || |output| <= SAFE_LENGTH ==> Decode(output) == Some(cps)
    ensures |output| >= |cps| && forall i :: 0 <= i < |output| ==> output[i] as int < INITIAL_N
  {
    hide Handled, Below, Inserted, Stands, Written, Deltas, InsertAll, Literal, Decode, WrapsHarmlessly, Encoded, RfcEncoded;
    var n, delta, bias := INITIAL_N, 0, INITIAL_BIAS;
    var basic := Basics(cps);
    var handled, ext := |basic|, "";
    ghost var literal, ds: seq<nat> := CodesOf(basic), [];
    ghost var st := Start(literal);
    InStepStart(cps, literal);
    StandsFirst(literal);
    while handled < |cps|
      invariant INITIAL_N <= n <= MAX_CODE_POINT + 1 && delta >= 0 && handled >= 0
      invariant InStep(cps, n, 0, handled, delta, st, |basic|)
      invariant Stands(literal, ds, ext, bias, handled, st)
      decreases MAX_CODE_POINT + 1 - n
    {
      InStepDone(cps, n, handled, delta, st, |basic|);
      var m := SmallestFrom(cps, n);
      InStepJump(cps, n, m, handled, delta, st, |basic|);
      assert (m - n) * (handled + 1) >= 0;
      delta := delta + (m - n) * (handled + 1);
      n := m;
      ext, delta, bias, handled, ds, st := PutAll(cps, n, ext, delta, bias, handled, |basic|, literal, ds, st);
      InStepNext(cps, n, handled, delta, st, |basic|);
      delta := delta + 1;
      n := n + 1;
    }
    InStepDone(cps, n, handled, delta, st, |basic|);
    output := Text(basic, ext);
    IsEncoded(cps, basic, ds, ext, bias, handled, st);
    DecodesIff(cps);
    DecodesIfSame(cps);
    EncodedSize(cps);
    if |cps| <= SAFE_LENGTH { ShortLabels(cps); }
  }

  lemma StandsFirst(literal: seq<int>)
    ensures Stands(literal, [], "", INITIAL_BIAS, |literal|, Start(literal))
  {
  }

  lemma IsEncoded(cps: seq<CodePoint>, basic: string, ds: seq<nat>, ext: string, bias: int, handled: int, st: State)
    requires CodesOf(basic) == Below(cps, INITIAL_N) && Stands(CodesOf(basic), ds, ext, bias, handled, st) && st.output == cps
    ensures Text(basic, ext) == Encoded(cps)
  {
    hide Below, Deltas, Written, InsertAll, Literal;
    BelowBounds(cps, INITIAL_N);
    DeltasUnique(CodesOf(basic), ds);
    LiteralCodes(cps);
    assert forall i :: 0 <= i < |basic| ==> basic[i] as int == CodesOf(basic)[i];
    assert forall i :: 0 <= i < |basic| ==> Literal(cps)[i] as int == CodesOf(Literal(cps))[i];
    assert basic == Literal(cps);
  }

  lemma EncodedSize(cps: seq<CodePoint>)
    ensures |Encoded(cps)| >= |cps| && forall i :: 0 <= i < |Encoded(cps)| ==> Encoded(cps)[i] as int < INITIAL_N
  {
    hide Below, Deltas, Written, InsertAll, Literal;
    LiteralCodes(cps);
    WrittenPlain(true, Deltas(cps), |Literal(cps)|);
    DeltasBuild(cps);
    BiasFollows(CodesOf(Literal(cps)), Deltas(cps));
  }

  lemma ReachesItself(st: State)
    ensures Reaches("", st, st)
  {
    forall rest: string ensures DecodeInsertions("" + rest, st) == DecodeInsertions(rest, st) {
      assert "" + rest == rest;
    }
  }

  lemma Finished(ext: string, st0: State, st: State)
    requires Reaches(ext, st0, st)
    ensures DecodeInsertions(ext, st0) == Some(st.output)
  {
    assert ext + "" == ext;
    assert DecodeInsertions(ext + "", st0) == DecodeInsertions("", st);
  }
}
