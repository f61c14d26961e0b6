/** intervalToCidrs of clients/core-ts/src/split.ts: the greedy cover by aligned power-of-two blocks. */
module CidrCover {
  import opened Arithmetic
  import opened Intervals

  datatype Family = V4 | V6

  function FamilyBits(f: Family): nat {
    if f == V4 then 32 else 128
  }

  /** A prefix: the network address with host bits zero, and its length. */
  datatype Cidr = Cidr(family: Family, net: int, prefix: int)

  function Pow2(n: nat): (p: int)
    ensures p >= 1
  {
    if n == 0 then 1 else 2 * Pow2(n - 1)
  }

  /** One past the last address of the family. */
  function Space(f: Family): int {
    Pow2(FamilyBits(f))
  }

  predicate ValidCidr(c: Cidr) {
    && 0 <= c.prefix <= FamilyBits(c.family)
    && 0 <= c.net && c.net + Size(c) <= Space(c.family)
    && c.net % Size(c) == 0
  }

  function Size(c: Cidr): (s: int)
    requires c.prefix <= FamilyBits(c.family)
    ensures s >= 1
  {
    Pow2(FamilyBits(c.family) - c.prefix)
  }

  function ToInterval(c: Cidr): Interval
    requires c.prefix <= FamilyBits(c.family)
  {
    Interval(c.net, c.net + Size(c) - 1)
  }

  ghost predicate BlocksCover(cs: seq<Cidr>, x: int)
    requires forall i :: 0 <= i < |cs| ==> ValidCidr(cs[i])
  {
    exists i :: 0 <= i < |cs| && BlockHas(cs[i], x)
  }

  predicate BlockHas(c: Cidr, x: int)
    requires ValidCidr(c)
  {
    Has(ToInterval(c), x)
  }

  // ---------------------------------------------------------------- dyadic blocks

  /** The aligned block of size 2^e around x starts here. */
  function Start(x: int, e: nat): int {
    x - x % Pow2(e)
  }

  lemma StartUnique(net: int, e: nat, x: int)
    requires net % Pow2(e) == 0 && net <= x < net + Pow2(e)
    ensures Start(x, e) == net
  {
    var p := Pow2(e);
    assert net == (net / p) * p;
    DivModUnique(x, p, net / p, x - net);
  }

  lemma StartAligned(x: int, e: nat)
    ensures Start(x, e) % Pow2(e) == 0 && Start(x, e) <= x < Start(x, e) + Pow2(e)
  {
    var p := Pow2(e);
    assert x == (x / p) * p + x % p;
    DivModUnique(Start(x, e), p, x / p, 0);
  }

  /** Blocks around one address are nested. */
  lemma {:induction false} Nested(x: int, e: nat, f: nat)
    requires e <= f
    ensures Start(x, f) <= Start(x, e) && Start(x, e) + Pow2(e) <= Start(x, f) + Pow2(f)
    decreases f
  {
    if e < f {
      Nested(x, e, f - 1);
      UpperOrLower(x, f - 1);
    }
  }

  lemma UpperOrLower(x: int, e: nat)
    ensures Start(x, e + 1) == Start(x, e) || Start(x, e + 1) + Pow2(e) == Start(x, e)
  {
    var p := Pow2(e);
    StartAligned(x, e + 1);
    var s := Start(x, e + 1);
    var q := s / (2 * p);
    assert s == q * (2 * p) == (2 * q) * p;
    if x < s + p {
      DivModUnique(s, p, 2 * q, 0);
      StartUnique(s, e, x);
    } else {
      assert s + p == (2 * q + 1) * p;
      DivModUnique(s + p, p, 2 * q + 1, 0);
      StartUnique(s + p, e, x);
    }
  }

  /** An aligned block starting at `start` is aligned for every smaller size as well. */
  lemma AlignedDown(start: int, e: nat, f: nat)
    requires e <= f && start % Pow2(f) == 0
    ensures start % Pow2(e) == 0
  {
    StartUnique(start, f, start);
    Nested(start, e, f);
    StartAligned(start, e);
    assert Start(start, e) == start;
  }

  lemma {:induction false} Pow2Monotone(e: nat, f: nat)
    requires e <= f
    ensures Pow2(e) <= Pow2(f) && (e < f ==> 2 * Pow2(e) <= Pow2(f))
    decreases f
  {
    if e < f { Pow2Monotone(e, f - 1); }
  }

  // ---------------------------------------------------------------- the largest block

  /** log2 of the lowest set bit. */
  function TrailingZeros(n: int): (e: nat)
    requires n > 0
  {
    if n % 2 == 1 then 0 else 1 + TrailingZeros(n / 2)
  }

  /** start & -start: the lowest set bit. */
  function LowestBit(n: int): int
    requires n > 0
  {
    if n % 2 == 1 then 1 else 2 * LowestBit(n / 2)
  }

  lemma HalvesAlike(m: int, p: int)
    requires p > 0
    ensures m % p == 0 <==> (2 * m) % (2 * p) == 0
  {
    if m % p == 0 {
      assert 2 * m == (m / p) * (2 * p);
      DivModUnique(2 * m, 2 * p, m / p, 0);
    }
    if (2 * m) % (2 * p) == 0 {
      var q := (2 * m) / (2 * p);
      assert 2 * m == q * (2 * p);
      DivModUnique(m, p, q, 0);
    }
  }

  lemma {:induction false} TrailingZerosMeaning(n: int, f: nat)
    requires n > 0
    ensures LowestBit(n) == Pow2(TrailingZeros(n))
    ensures n % Pow2(TrailingZeros(n)) == 0 && Pow2(TrailingZeros(n)) <= n
    ensures n % Pow2(f) == 0 ==> f <= TrailingZeros(n)
    decreases n
  {
    if n % 2 == 0 {
      TrailingZerosMeaning(n / 2, if f > 0 then f - 1 else 0);
      HalvesAlike(n / 2, Pow2(TrailingZeros(n / 2)));
      assert n == 2 * (n / 2);
      if f > 0 {
        HalvesAlike(n / 2, Pow2(f - 1));
      }
    } else if f > 0 && n % Pow2(f) == 0 {
      AlignedDown(n, 1, f);
    }
  }

  /** Halved until it fits. */
  function Fit(e: nat, span: int): (r: nat)
    requires span >= 1
    ensures r <= e && Pow2(r) <= span && (r < e ==> span < 2 * Pow2(r))
  {
    if Pow2(e) > span then Fit(e - 1, span) else e
  }

  /** The exponent the greedy step picks at `start` with `span` addresses left. */
  function Pick(start: int, span: int, bits: nat): nat
    requires start >= 0 && span >= 1
  {
    Fit(if start == 0 then bits else TrailingZeros(start), span)
  }

  /** It is the largest aligned block that fits. */
  lemma PickIsLargest(start: int, span: int, bits: nat, f: nat)
    requires start >= 0 && span >= 1
    ensures start % Pow2(Pick(start, span, bits)) == 0 && Pow2(Pick(start, span, bits)) <= span
    ensures f <= bits && start % Pow2(f) == 0 && Pow2(f) <= span ==> f <= Pick(start, span, bits)
  {
    hide Pow2, LowestBit, TrailingZeros;
    var e := Pick(start, span, bits);
    if start > 0 {
      TrailingZerosMeaning(start, f);
      AlignedDown(start, e, TrailingZeros(start));
    } else {
      DivModUnique(0, Pow2(e), 0, 0);
    }
    if e < f && f <= bits && start % Pow2(f) == 0 && Pow2(f) <= span {
      Pow2Monotone(e, f);
    }
  }

  lemma PickFits(start: int, end: int, f: Family)
    requires 0 <= start <= end < Space(f)
    ensures Pick(start, end - start + 1, FamilyBits(f)) <= FamilyBits(f)
  {
    var e := Pick(start, end - start + 1, FamilyBits(f));
    if e > FamilyBits(f) {
      Pow2Monotone(FamilyBits(f), e);
    }
  }

  // ---------------------------------------------------------------- greedy cover

  predicate InSpace(iv: Interval, f: Family) {
    0 <= iv.start && iv.end < Space(f)
  }

  function Greedy(start: int, end: int, f: Family): seq<Cidr>
    requires 0 <= start && end < Space(f)
    decreases end - start + 1
  {
    if start > end then []
    else
      var e := Pick(start, end - start + 1, FamilyBits(f));
      [Cidr(f, start, FamilyBits(f) - e)] + Greedy(start + Pow2(e), end, f)
  }

  function BinaryLength(n: int): nat
    requires n > 0
  {
    if n == 1 then 1 else 1 + BinaryLength(n / 2)
  }

  lemma {:induction false} BinaryLengthOfPow2(e: nat)
    ensures BinaryLength(Pow2(e)) == e + 1
  {
    if e > 0 { BinaryLengthOfPow2(e - 1); }
  }

  /** The inner loop: the alignment cap, halved until the block fits. */
  method FittingSize(start: int, span: int, bits: nat) returns (size: int)
    requires start >= 0 && span >= 1
    ensures size == Pow2(Pick(start, span, bits))
  {
    size := if start == 0 then Pow2(bits) else LowestBit(start);
    ghost var e: nat := if start == 0 then bits else TrailingZeros(start);
    if start > 0 { TrailingZerosMeaning(start, 0); }
    while size > span
      invariant size == Pow2(e) && Pick(start, span, bits) == Fit(e, span)
      decreases e
    {
      size := size / 2;
      e := e - 1;
    }
  }

  method IntervalToCidrs(iv: Interval, f: Family) returns (out: seq<Cidr>)
    requires InSpace(iv, f)
    ensures out == Greedy(iv.start, iv.end, f)
  {
    hide Pow2, Pick;
    out := [];
    var start := iv.start;
    while start <= iv.end
      invariant iv.start <= start
      invariant out + Greedy(start, iv.end, f) == Greedy(iv.start, iv.end, f)
      decreases iv.end - start + 1
    {
      var size := FittingSize(start, iv.end - start + 1, FamilyBits(f));
      BinaryLengthOfPow2(Pick(start, iv.end - start + 1, FamilyBits(f)));
      var block := Cidr(f, start, FamilyBits(f) - (BinaryLength(size) - 1));
      GreedyUnfold(out, start, iv.end, f);
      out := out + [block];
      start := start + size;
    }
  }

  lemma GreedyUnfold(out: seq<Cidr>, start: int, end: int, f: Family)
    requires 0 <= start <= end < Space(f)
    ensures var e := Pick(start, end - start + 1, FamilyBits(f));
            out + Greedy(start, end, f)
            == (out + [Cidr(f, start, FamilyBits(f) - e)]) + Greedy(start + Pow2(e), end, f)
  {
    hide Pow2, Pick;
    var e := Pick(start, end - start + 1, FamilyBits(f));
    var rest := Greedy(start + Pow2(e), end, f);
    assert out + ([Cidr(f, start, FamilyBits(f) - e)] + rest) == (out + [Cidr(f, start, FamilyBits(f) - e)]) + rest;
  }

  /** Blocks that follow one another without gap or overlap from `start` to `end`. */
  predicate Tiles(cs: seq<Cidr>, start: int, end: int) {
    && (forall i :: 0 <= i < |cs| ==> ValidCidr(cs[i]))
    && if cs == [] then start == end + 1
       else cs[0].net == start && cs[0].prefix <= FamilyBits(cs[0].family) && Tiles(cs[1..], start + Size(cs[0]), end)
  }

  /** One greedy step: a valid block inside the interval, with room for the rest. */
  lemma StepBlock(start: int, end: int, f: Family) returns (c: Cidr)
    requires 0 <= start <= end < Space(f)
    ensures c == Cidr(f, start, FamilyBits(f) - Pick(start, end - start + 1, FamilyBits(f)))
    ensures ValidCidr(c) && Size(c) == Pow2(Pick(start, end - start + 1, FamilyBits(f)))
    ensures start + Size(c) <= end + 1
    ensures Greedy(start, end, f) == [c] + Greedy(start + Size(c), end, f)
  {
    hide Pow2, Pick;
    PickIsLargest(start, end - start + 1, FamilyBits(f), 0);
    PickFits(start, end, f);
    c := Cidr(f, start, FamilyBits(f) - Pick(start, end - start + 1, FamilyBits(f)));
  }

  lemma {:induction false} GreedyTiles(start: int, end: int, f: Family)
    requires 0 <= start <= end + 1 && end < Space(f)
    ensures Tiles(Greedy(start, end, f), start, end)
    ensures forall i :: 0 <= i < |Greedy(start, end, f)| ==> Greedy(start, end, f)[i].family == f
    decreases end - start + 1
  {
    hide Tiles, Pow2, Pick;
    if start > end {
      assert Tiles([], start, end) by { NoTiles(start); }
    } else {
      var c := StepBlock(start, end, f);
      hide Greedy;
      GreedyTiles(start + Size(c), end, f);
      TilesCons(c, Greedy(start + Size(c), end, f), start, end);
    }
  }

  lemma NoTiles(start: int)
    ensures Tiles([], start, start - 1)
  {
  }

  lemma TilesCons(c: Cidr, rest: seq<Cidr>, start: int, end: int)
    requires ValidCidr(c) && c.net == start && Tiles(rest, start + Size(c), end)
    ensures Tiles([c] + rest, start, end)
  {
    hide Pow2;
    assert ([c] + rest)[1..] == rest;
  }

  /** Tiling blocks are sorted and disjoint, and cover the interval exactly. */
  lemma {:induction false} TilesMeaning(cs: seq<Cidr>, start: int, end: int)
    requires Tiles(cs, start, end)
    ensures start <= end + 1
    ensures forall i :: 0 <= i < |cs| ==> start <= cs[i].net && cs[i].net + Size(cs[i]) <= end + 1
    ensures forall i, j :: 0 <= i < j < |cs| ==> cs[i].net + Size(cs[i]) <= cs[j].net
    ensures forall x :: BlocksCover(cs, x) <==> start <= x <= end
  {
    hide Pow2;
    if cs != [] {
      TilesMeaning(cs[1..], start + Size(cs[0]), end);
      forall x ensures BlocksCover(cs, x) <==> start <= x <= end {
        if start <= x < start + Size(cs[0]) {
          assert BlockHas(cs[0], x);
        } else if start + Size(cs[0]) <= x <= end {
          assert BlocksCover(cs[1..], x);
          var i :| 0 <= i < |cs[1..]| && BlockHas(cs[1..][i], x);
          assert BlockHas(cs[i + 1], x);
        }
      }
    }
  }

  predicate Within(q: Cidr, g: Cidr)
    requires ValidCidr(q) && g.prefix <= FamilyBits(g.family)
  {
    g.net <= q.net && q.net + Size(q) <= g.net + Size(g)
  }

  /** A block inside the interval that meets the greedy step's block lies inside it. */
  lemma StepMaximal(start: int, end: int, f: Family, q: Cidr)
    requires 0 <= start <= end < Space(f)
    requires ValidCidr(q) && q.family == f && start <= q.net && q.net + Size(q) - 1 <= end
    requires q.net < start + Pow2(Pick(start, end - start + 1, FamilyBits(f)))
    ensures q.net + Size(q) <= start + Pow2(Pick(start, end - start + 1, FamilyBits(f)))
  {
    hide Pow2, Pick;
    var e := Pick(start, end - start + 1, FamilyBits(f));
    var d := FamilyBits(f) - q.prefix;
    PickIsLargest(start, end - start + 1, FamilyBits(f), d);
    StartUnique(start, e, q.net);
    StartUnique(q.net, d, q.net);
    hide Start;
    if d > e {
      Nested(q.net, e, d);
    } else {
      Nested(q.net, d, e);
    }
  }

  /** Every aligned block inside the interval lies inside one block of the greedy cover. */
  lemma {:induction false} GreedyMaximal(start: int, end: int, f: Family, q: Cidr) returns (k: nat)
    requires 0 <= start && end < Space(f)
    requires ValidCidr(q) && q.family == f && start <= q.net && q.net + Size(q) - 1 <= end
    ensures k < |Greedy(start, end, f)| && ValidCidr(Greedy(start, end, f)[k])
    ensures Within(q, Greedy(start, end, f)[k])
    decreases end - start + 1
  {
    hide Greedy, Pow2, Pick;
    var c := StepBlock(start, end, f);
    hide Size;
    var rest := Greedy(start + Size(c), end, f);
    if q.net < start + Size(c) {
      assert q.net + Size(q) <= start + Size(c) by { StepMaximal(start, end, f, q); }
      k := 0;
    } else {
      var r := GreedyMaximal(start + Size(c), end, f, q);
      k := r + 1;
      assert ([c] + rest)[k] == rest[r];
    }
  }

  // ---------------------------------------------------------------- minimality

  predicate AllInSpace(ivs: seq<Interval>, f: Family) {
    forall i :: 0 <= i < |ivs| ==> InSpace(ivs[i], f)
  }

  predicate Valid(cs: seq<Cidr>) {
    forall i :: 0 <= i < |cs| ==> ValidCidr(cs[i])
  }

  /** flatMap(intervalToCidrs) over a list. */
  function Cidrs(ivs: seq<Interval>, f: Family): seq<Cidr>
    requires AllInSpace(ivs, f)
  {
    if ivs == [] then []
    else Cidrs(ivs[..|ivs| - 1], f) + Greedy(ivs[|ivs| - 1].start, ivs[|ivs| - 1].end, f)
  }

  predicate SortedDisjoint(cs: seq<Cidr>)
    requires Valid(cs)
  {
    forall i, j :: 0 <= i < j < |cs| ==> cs[i].net + Size(cs[i]) <= cs[j].net
  }

  lemma {:induction false} CidrsShape(ivs: seq<Interval>, f: Family)
    requires Canonical(ivs) && AllInSpace(ivs, f)
    ensures Valid(Cidrs(ivs, f)) && SortedDisjoint(Cidrs(ivs, f))
    ensures forall i :: 0 <= i < |Cidrs(ivs, f)| ==> Cidrs(ivs, f)[i].family == f
    ensures forall i :: 0 <= i < |Cidrs(ivs, f)| ==>
              ivs != [] && Cidrs(ivs, f)[i].net + Size(Cidrs(ivs, f)[i]) <= ivs[|ivs| - 1].end + 1
  {
    hide Pow2, Greedy, BlocksCover;
    if ivs != [] {
      var front, iv := ivs[..|ivs| - 1], ivs[|ivs| - 1];
      CidrsShape(front, f);
      GreedyTiles(iv.start, iv.end, f);
      var l, r := Cidrs(front, f), Greedy(iv.start, iv.end, f);
      TilesMeaning(r, iv.start, iv.end);
      forall i | 0 <= i < |l| ensures l[i].net + Size(l[i]) <= iv.start {
        assert front[|front| - 1].end + 1 < iv.start;
      }
      JoinedBlocks(l, r);
    }
  }

  lemma GreedyCovers(start: int, end: int, f: Family, x: int)
    requires 0 <= start <= end + 1 && end < Space(f)
    ensures Valid(Greedy(start, end, f)) && (BlocksCover(Greedy(start, end, f), x) <==> start <= x <= end)
  {
    GreedyTiles(start, end, f);
    TilesMeaning(Greedy(start, end, f), start, end);
    hide BlocksCover, Pow2, Greedy;
  }

  lemma FrontInSpace(ivs: seq<Interval>, f: Family)
    requires Canonical(ivs) && AllInSpace(ivs, f) && ivs != []
    ensures var front, iv := ivs[..|ivs| - 1], ivs[|ivs| - 1];
            && ivs == front + [iv] && Canonical(front) && AllInSpace(front, f)
            && 0 <= iv.start <= iv.end < Space(f)
  {
  }

  lemma {:induction false} CidrsCover(ivs: seq<Interval>, f: Family, x: int)
    requires Canonical(ivs) && AllInSpace(ivs, f) && Valid(Cidrs(ivs, f))
    ensures BlocksCover(Cidrs(ivs, f), x) <==> Covers(ivs, x)
  {
    hide Pow2, Greedy, BlocksCover, Covers, SortedDisjoint, Canonical, AllInSpace, Tiles;
    if ivs == [] {
      NothingCovered(x);
    } else {
      var front, iv := ivs[..|ivs| - 1], ivs[|ivs| - 1];
      FrontInSpace(ivs, f);
      CidrsShape(front, f);
      CidrsCover(front, f, x);
      GreedyCovers(iv.start, iv.end, f, x);
      var l, r := Cidrs(front, f), Greedy(iv.start, iv.end, f);
      BlocksCoverConcat(l, r, x);
      CoversConcat(front, [iv], x);
      CoversOne(iv, x);
    }
  }

  lemma NothingCovered(x: int)
    ensures !BlocksCover([], x) && !Covers([], x)
  {
  }

  /** The blocks are sorted, aligned, disjoint, and cover exactly the addresses of the list. */
  lemma CidrsMeaning(ivs: seq<Interval>, f: Family)
    requires Canonical(ivs) && AllInSpace(ivs, f)
    ensures Valid(Cidrs(ivs, f)) && SortedDisjoint(Cidrs(ivs, f))
    ensures forall i :: 0 <= i < |Cidrs(ivs, f)| ==> Cidrs(ivs, f)[i].family == f
    ensures forall x :: BlocksCover(Cidrs(ivs, f), x) <==> Covers(ivs, x)
    ensures forall i :: 0 <= i < |Cidrs(ivs, f)| ==>
              ivs != [] && Cidrs(ivs, f)[i].net + Size(Cidrs(ivs, f)[i]) <= ivs[|ivs| - 1].end + 1
  {
    hide BlocksCover, Covers, SortedDisjoint;
    CidrsShape(ivs, f);
    forall x ensures BlocksCover(Cidrs(ivs, f), x) <==> Covers(ivs, x) {
      CidrsCover(ivs, f, x);
    }
  }

  lemma JoinedBlocks(l: seq<Cidr>, r: seq<Cidr>)
    requires Valid(l) && Valid(r) && SortedDisjoint(l) && SortedDisjoint(r)
    requires forall i, j :: 0 <= i < |l| && 0 <= j < |r| ==> l[i].net + Size(l[i]) <= r[j].net
    ensures Valid(l + r) && SortedDisjoint(l + r)
  {
    hide Pow2;
  }

  lemma BlocksCoverConcat(l: seq<Cidr>, r: seq<Cidr>, x: int)
    requires Valid(l) && Valid(r)
    ensures BlocksCover(l + r, x) <==> BlocksCover(l, x) || BlocksCover(r, x)
  {
    hide Pow2, BlockHas;
    if BlocksCover(l, x) {
      var i :| 0 <= i < |l| && BlockHas(l[i], x);
      assert BlockHas((l + r)[i], x);
    }
    if BlocksCover(r, x) {
      var i :| 0 <= i < |r| && BlockHas(r[i], x);
      assert BlockHas((l + r)[|l| + i], x);
    }
    if BlocksCover(l + r, x) {
      var i :| 0 <= i < |l + r| && BlockHas((l + r)[i], x);
      if i < |l| { assert BlockHas(l[i], x); } else { assert BlockHas(r[i - |l|], x); }
    }
  }

  /** A block all of whose addresses are covered lies inside one of the canonical intervals. */
  lemma BlockInOneInterval(ivs: seq<Interval>, q: Cidr) returns (k: nat)
    requires Canonical(ivs) && ValidCidr(q)
    requires forall x :: BlockHas(q, x) ==> Covers(ivs, x)
    ensures k < |ivs| && ivs[k].start <= q.net && q.net + Size(q) - 1 <= ivs[k].end
  {
    hide Pow2;
    assert BlockHas(q, q.net);
    k :| 0 <= k < |ivs| && Has(ivs[k], q.net);
    assert BlockHas(q, ivs[k].end + 1) ==> Covers(ivs, ivs[k].end + 1);
  }

  /** Every aligned block of covered addresses lies inside one block of the list. */
  lemma {:induction false} CidrsMaximal(ivs: seq<Interval>, f: Family, k: nat, q: Cidr) returns (m: nat)
    requires AllInSpace(ivs, f) && k < |ivs| && ValidCidr(q) && q.family == f
    requires ivs[k].start <= q.net && q.net + Size(q) - 1 <= ivs[k].end
    ensures m < |Cidrs(ivs, f)| && ValidCidr(Cidrs(ivs, f)[m]) && Within(q, Cidrs(ivs, f)[m])
  {
    hide Pow2, Greedy;
    var front := ivs[..|ivs| - 1];
    if k == |ivs| - 1 {
      var r := GreedyMaximal(ivs[k].start, ivs[k].end, f, q);
      m := |Cidrs(front, f)| + r;
    } else {
      m := CidrsMaximal(front, f, k, q);
    }
  }

  predicate Distinct(s: seq<nat>) {
    forall i, j :: 0 <= i < j < |s| ==> s[i] != s[j]
  }

  /** n distinct numbers below m: n <= m. */
  lemma {:induction false} Pigeonhole(s: seq<nat>, m: nat)
    requires Distinct(s) && forall i :: 0 <= i < |s| ==> s[i] < m
    ensures |s| <= m
    decreases m
  {
    if s != [] {
      assert s[0] < m;
      if m - 1 in s {
        var k :| 0 <= k < |s| && s[k] == m - 1;
        var t := s[..k] + s[k + 1..];
        forall i | 0 <= i < |t| ensures t[i] < m - 1 {
          assert t[i] == s[if i < k then i else i + 1];
        }
        Pigeonhole(t, m - 1);
      } else {
        forall i | 0 <= i < |s| ensures s[i] < m - 1 { assert s[i] in s; }
        Pigeonhole(s, m - 1);
      }
    }
  }

  /** Which block of an exact cover holds the first address of block i; no block serves two. */
  lemma CoveringBlock(ivs: seq<Interval>, f: Family, cover: seq<Cidr>, i: nat) returns (c: nat)
    requires Canonical(ivs) && AllInSpace(ivs, f) && i < |Cidrs(ivs, f)|
    requires Valid(cover) && forall j :: 0 <= j < |cover| ==> cover[j].family == f
    requires forall x :: BlocksCover(cover, x) <==> Covers(ivs, x)
    requires Valid(Cidrs(ivs, f)) && SortedDisjoint(Cidrs(ivs, f))
    requires forall x :: BlocksCover(Cidrs(ivs, f), x) <==> Covers(ivs, x)
    ensures c < |cover| && Within(cover[c], Cidrs(ivs, f)[i])
  {
    hide Pow2, Cidrs;
    var g := Cidrs(ivs, f)[i];
    assert BlockHas(g, g.net);
    assert BlocksCover(Cidrs(ivs, f), g.net);
    c :| 0 <= c < |cover| && BlockHas(cover[c], g.net);
    forall x | BlockHas(cover[c], x) ensures Covers(ivs, x) {
      assert BlocksCover(cover, x);
    }
    var k := BlockInOneInterval(ivs, cover[c]);
    var m := CidrsMaximal(ivs, f, k, cover[c]);
    assert m == i;
  }

  /** No exact cover of the addresses by CIDR blocks, overlapping or not, uses fewer blocks. */
  lemma MinimalCover(ivs: seq<Interval>, f: Family, cover: seq<Cidr>)
    requires Canonical(ivs) && AllInSpace(ivs, f)
    requires Valid(cover) && forall j :: 0 <= j < |cover| ==> cover[j].family == f
    requires forall x :: BlocksCover(cover, x) <==> Covers(ivs, x)
    ensures |Cidrs(ivs, f)| <= |cover|
  {
    CidrsMeaning(ivs, f);
    hide Pow2, Cidrs, BlocksCover, Covers;
    var g := Cidrs(ivs, f);
    var chosen: seq<nat> := [];
    while |chosen| < |g|
      invariant |chosen| <= |g|
      invariant forall i :: 0 <= i < |chosen| ==> chosen[i] < |cover| && Within(cover[chosen[i]], g[i])
    {
      var c := CoveringBlock(ivs, f, cover, |chosen|);
      chosen := chosen + [c];
    }
    assert Distinct(chosen);
    Pigeonhole(chosen, |cover|);
  }

  /** In particular the cover of a single interval is minimal. */
  lemma MinimalSingle(iv: Interval, f: Family, cover: seq<Cidr>)
    requires iv.start <= iv.end && InSpace(iv, f)
    requires Valid(cover) && forall j :: 0 <= j < |cover| ==> cover[j].family == f
    requires forall x :: BlocksCover(cover, x) <==> Has(iv, x)
    ensures |Greedy(iv.start, iv.end, f)| <= |cover|
  {
    forall x ensures Covers([iv], x) <==> Has(iv, x) { CoversOne(iv, x); }
    MinimalCover([iv], f, cover);
    assert [iv][..0] == [];
  }
}
