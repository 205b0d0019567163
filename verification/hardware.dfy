/**
 * The hardware calculator: the RAM, CPU-core and GPU requirements attached to
 * each catalogue entry, estimated from its file size, quantization format and
 * the parameter count its name advertises. Sizes are bytes; one GiB is 2^30
 * bytes. Python's float arithmetic is read as exact rational arithmetic.
 */
module Hardware {
  import opened Wrappers
  import opened Text
  import opened Records
  import opened Config

  const GiB: int := 1024 * 1024 * 1024

  /** `size / (1024 * 1024 * 1024)` */
  function Gb(size: int): real {
    size as real / GiB as real
  }

  // ---------------------------------------------------------------------
  // Bucket ladders
  // ---------------------------------------------------------------------

  /** The first rung whose bound is at least `x`, or `|bounds|` when none is. */
  function Rung(x: real, bounds: seq<real>): (k: nat)
    ensures k <= |bounds|
    ensures forall j :: 0 <= j < k ==> x > bounds[j]
    ensures k < |bounds| ==> x <= bounds[k]
  {
    if bounds == [] then 0
    else if x <= bounds[0] then 0
    else 1 + Rung(x, bounds[1..])
  }

  /** A larger value never lands on a lower rung. */
  lemma {:induction false} RungMonotone(x: real, y: real, bounds: seq<real>)
    requires x <= y
    ensures Rung(x, bounds) <= Rung(y, bounds)
  {
  }

  /** `Rung` on a four-bound ladder, written out. */
  lemma Rung4(x: real, b0: real, b1: real, b2: real, b3: real)
    ensures Rung(x, [b0, b1, b2, b3]) ==
      if x <= b0 then 0 else if x <= b1 then 1 else if x <= b2 then 2 else if x <= b3 then 3 else 4
  {
    var bs := [b0, b1, b2, b3];
    assert bs[0] == b0 && bs[1] == b1 && bs[2] == b2 && bs[3] == b3;
  }

  predicate Increasing(vs: seq<nat>) {
    forall i, j :: 0 <= i < j < |vs| ==> vs[i] < vs[j]
  }

  /** RAM sizes on sale, in GB, and the base RAM each covers. */
  const RamSizes: seq<nat> := [8, 16, 32, 64, 128]
  const RamBounds: seq<real> := [8.0, 16.0, 32.0, 64.0]

  /** Core counts on sale. */
  const CoreCounts: seq<nat> := [4, 6, 8, 12, 16]

  /** The file-size ladder (in GiB) used when no parameter count is known. */
  const CoreSizeBounds: seq<real> := [2.0, 6.0, 15.0, 40.0]

  /** The parameter ladder: the configured small and medium thresholds, then 30 and 70 billion. */
  function CoreParamBounds(cfg: FilterConfig): seq<real> {
    [cfg.smallModelThreshold as real, cfg.mediumModelThreshold as real,
     30_000_000_000 as real, 70_000_000_000 as real]
  }

  // ---------------------------------------------------------------------
  // Efficient formats
  // ---------------------------------------------------------------------

  const EfficientPrefixes: seq<string> := ["Q4_", "Q3_", "Q2_", "IQ4_", "IQ3_", "IQ2_"]

  /** 4-bit or smaller formats: the upper-cased format starts with one of the prefixes. */
  predicate IsEfficientQuantization(q: string) {
    q != [] && exists k :: 0 <= k < |EfficientPrefixes| && StartsWith(ToUpper(q), EfficientPrefixes[k])
  }

  /** An empty label is not efficient, a lower-case Q4 label is (case is ignored), Q8 is not. */
  lemma EfficientExamples()
    ensures !IsEfficientQuantization("")
    ensures IsEfficientQuantization("q4_k_m")
    ensures !IsEfficientQuantization("Q8_0")
  {
    assert StartsWith(ToUpper("q4_k_m"), EfficientPrefixes[0]) by {
      assert ToUpper("q4_k_m")[..3] == "Q4_";
    }
    var u := ToUpper("Q8_0");
    assert u == "Q8_0";
    forall k | 0 <= k < |EfficientPrefixes| ensures !StartsWith(u, EfficientPrefixes[k]) {
      var p := EfficientPrefixes[k];
      assert 2 <= |p| <= |u| && p[1] != '8';
      assert u[..|p|][1] == '8';
    }
  }

  // ---------------------------------------------------------------------
  // RAM, CPU, GPU
  // ---------------------------------------------------------------------

  /** `size_GiB * ram_multiplier`, reduced by `quantization_ram_reduction` for efficient formats. */
  function BaseRam(cfg: FilterConfig, size: int, q: string): real {
    var base := Gb(size) * cfg.ramMultiplier;
    if IsEfficientQuantization(q) then base * (1.0 - cfg.quantizationRamReduction) else base
  }

  /** The RAM size on the ladder rung of the base RAM; 8 for an empty or negative size. */
  function RamRequirement(cfg: FilterConfig, size: int, q: string): (r: nat)
    ensures r in RamSizes
    ensures size <= 0 ==> r == 8
    ensures size > 0 ==> r == RamSizes[Rung(BaseRam(cfg, size, q), RamBounds)]
  {
    if size <= 0 then 8
    else
      var base := BaseRam(cfg, size, q);
      Rung4(base, 8.0, 16.0, 32.0, 64.0);
      if base <= 8.0 then 8
      else if base <= 16.0 then 16
      else if base <= 32.0 then 32
      else if base <= 64.0 then 64
      else 128
  }

  /** The RAM requirement is the smallest size on sale covering the base RAM, or 128 above 64. */
  lemma RamSmallestCover(cfg: FilterConfig, size: int, q: string)
    requires size > 0
    ensures var r := RamRequirement(cfg, size, q);
      && (r < 128 ==> BaseRam(cfg, size, q) <= r as real)
      && (r == 128 ==> BaseRam(cfg, size, q) > 64.0)
      && (forall k :: 0 <= k < |RamSizes| && RamSizes[k] < r ==> BaseRam(cfg, size, q) > RamSizes[k] as real)
  {
    var k := Rung(BaseRam(cfg, size, q), RamBounds);
    forall j | 0 <= j < k ensures RamSizes[j] as real == RamBounds[j] {
    }
  }

  /** Multiplying by a non-negative factor keeps order. */
  lemma MulMonotone(a: real, b: real, c: real)
    requires a <= b && c >= 0.0
    ensures a * c <= b * c
  {
    assert (b - a) * c >= 0.0;
  }

  /** More bytes never give fewer gigabytes. */
  lemma GbMonotone(s1: int, s2: int)
    requires s1 <= s2
    ensures Gb(s1) <= Gb(s2)
  {
    assert GiB as real == 1073741824.0;
  }

  /** A bigger file of the same format never needs less RAM. */
  lemma RamMonotone(cfg: FilterConfig, s1: int, s2: int, q: string)
    requires 0 < s1 <= s2
    requires cfg.ramMultiplier >= 0.0 && cfg.quantizationRamReduction <= 1.0
    ensures RamRequirement(cfg, s1, q) <= RamRequirement(cfg, s2, q)
  {
    BaseRamMonotone(cfg, s1, s2, q);
    RamLadderMonotone(BaseRam(cfg, s1, q), BaseRam(cfg, s2, q));
  }

  /** The base RAM estimate grows with the file size. */
  lemma BaseRamMonotone(cfg: FilterConfig, s1: int, s2: int, q: string)
    requires s1 <= s2
    requires cfg.ramMultiplier >= 0.0 && cfg.quantizationRamReduction <= 1.0
    ensures BaseRam(cfg, s1, q) <= BaseRam(cfg, s2, q)
  {
    var m, f := cfg.ramMultiplier, 1.0 - cfg.quantizationRamReduction;
    GbMonotone(s1, s2);
    MulMonotone(Gb(s1), Gb(s2), m);
    if IsEfficientQuantization(q) {
      MulMonotone(Gb(s1) * m, Gb(s2) * m, f);
    }
  }

  /** A larger estimate never lands on a smaller RAM rung. */
  lemma RamLadderMonotone(b1: real, b2: real)
    requires b1 <= b2
    ensures RamSizes[Rung(b1, RamBounds)] <= RamSizes[Rung(b2, RamBounds)]
  {
    RungMonotone(b1, b2, RamBounds);
  }

  /** Cores from the parameter count when there is one, otherwise from the file size. */
  function CpuRequirement(cfg: FilterConfig, params: Option<int>, size: int): (r: nat)
    ensures r in CoreCounts
    ensures params.Some? ==> r == CoreCounts[Rung(params.value as real, CoreParamBounds(cfg))]
    ensures params.None? ==> r == CoreCounts[Rung(Gb(size), CoreSizeBounds)]
  {
    match params
    case Some(p) =>
      Rung4(p as real, cfg.smallModelThreshold as real, cfg.mediumModelThreshold as real,
            30_000_000_000 as real, 70_000_000_000 as real);
      if p <= cfg.smallModelThreshold then 4
      else if p <= cfg.mediumModelThreshold then 6
      else if p <= 30_000_000_000 then 8
      else if p <= 70_000_000_000 then 12
      else 16
    case None =>
      var gb := Gb(size);
      Rung4(gb, 2.0, 6.0, 15.0, 40.0);
      if gb <= 2.0 then 4
      else if gb <= 6.0 then 6
      else if gb <= 15.0 then 8
      else if gb <= 40.0 then 12
      else 16
  }

  /** More parameters never need fewer cores. */
  lemma CpuMonotoneInParams(cfg: FilterConfig, p1: int, p2: int, size: int)
    requires p1 <= p2
    ensures CpuRequirement(cfg, Some(p1), size) <= CpuRequirement(cfg, Some(p2), size)
  {
    RungMonotone(p1 as real, p2 as real, CoreParamBounds(cfg));
    var k1, k2 := Rung(p1 as real, CoreParamBounds(cfg)), Rung(p2 as real, CoreParamBounds(cfg));
    assert CoreCounts[k1] <= CoreCounts[k2];
  }

  /** A GPU is optional only for a small efficient file whose parameter count is not known to be large. */
  function GpuRequirement(cfg: FilterConfig, params: Option<int>, size: int, q: string): (r: bool)
    ensures !r <==> (params.None? || params.value < cfg.gpuRequiredThreshold)
                    && size < 8 * GiB && IsEfficientQuantization(q) && size <= 4 * GiB
  {
    if params.Some? && params.value >= cfg.gpuRequiredThreshold then true
    else if Gb(size) >= 8.0 then true
    else if IsEfficientQuantization(q) && Gb(size) <= 4.0 then false
    else true
  }

  // ---------------------------------------------------------------------
  // Parameter estimation
  // ---------------------------------------------------------------------

  predicate IsB(c: char) { c == 'B' || c == 'b' }

  /** End of `\d+(?:\.\d+)?` starting at a digit at `i`. */
  function NumberEnd(s: string, i: nat): (e: nat)
    requires i < |s| && IsDigit(s[i])
    ensures i < e <= |s|
  {
    var k := DigitsEnd(s, i);
    if k + 1 < |s| && s[k] == '.' && IsDigit(s[k + 1]) then DigitsEnd(s, k + 1) else k
  }

  /** The four name patterns, tried in this order. */
  datatype ParamPattern =
    | Plain          // (\d+(?:\.\d+)?)[Bb](?:\s|$|-)
    | PlainDash      // (\d+(?:\.\d+)?)B-
    | DashDelimited  // -(\d+(?:\.\d+)?)[Bb]-
    | UnderscoreDelimited  // _(\d+(?:\.\d+)?)[Bb]_

  /** A number at `g` followed by a `B`: the number's end. */
  function NumberB(s: string, g: nat): (r: Option<nat>)
    ensures r.Some? ==> g < r.value < |s| && IsDigit(s[g]) && IsB(s[r.value])
  {
    if g < |s| && IsDigit(s[g]) then
      var e := NumberEnd(s, g);
      if e < |s| && IsB(s[e]) then Some(e) else None
    else None
  }

  /** The pattern matches at `i`; the result is the number's span `(start, end)`. */
  function MatchAt(p: ParamPattern, s: string, i: nat): (r: Option<(nat, nat)>)
    ensures r.Some? ==> i <= r.value.0 < r.value.1 < |s| && IsDigit(s[r.value.0])
  {
    match p
    case Plain =>
      (match NumberB(s, i)
       case Some(e) =>
         if e + 1 == |s| || IsSpace(s[e + 1]) || s[e + 1] == '-' then Some((i, e)) else None
       case None => None)
    case PlainDash =>
      (match NumberB(s, i)
       case Some(e) => if e + 1 < |s| && s[e + 1] == '-' then Some((i, e)) else None
       case None => None)
    case DashDelimited =>
      if i < |s| && s[i] == '-' then
        match NumberB(s, i + 1)
        case Some(e) => if e + 1 < |s| && s[e + 1] == '-' then Some((i + 1, e)) else None
        case None => None
      else None
    case UnderscoreDelimited =>
      if i < |s| && s[i] == '_' then
        match NumberB(s, i + 1)
        case Some(e) => if e + 1 < |s| && s[e + 1] == '_' then Some((i + 1, e)) else None
        case None => None
      else None
  }

  /** `re.search` for any matcher: the leftmost match at or after `from`. */
  function Search<T>(m: (string, nat) -> Option<T>, s: string, from: nat): Option<T>
    decreases |s| - from
  {
    if from >= |s| then None
    else if m(s, from).Some? then m(s, from)
    else Search(m, s, from + 1)
  }

  /** A search that finds something found a match at some position. */
  lemma {:induction false} SearchFound<T>(m: (string, nat) -> Option<T>, s: string, from: nat)
    requires Search(m, s, from).Some?
    ensures exists i :: from <= i && m(s, i) == Search(m, s, from)
    decreases |s| - from
  {
    if m(s, from).None? {
      SearchFound(m, s, from + 1);
    }
  }

  /** A search that finds nothing passed no matching position. */
  lemma {:induction false} SearchMissed<T>(m: (string, nat) -> Option<T>, s: string, from: nat)
    requires Search(m, s, from).None?
    ensures forall i :: from <= i < |s| ==> m(s, i).None?
    decreases |s| - from
  {
    if from < |s| {
      SearchMissed(m, s, from + 1);
    }
  }

  /** A search that fails before `i` and matches at `i` returns the match at `i`. */
  lemma {:induction false} SearchSkips<T>(m: (string, nat) -> Option<T>, s: string, from: nat, i: nat)
    requires from <= i < |s| && m(s, i).Some?
    requires forall j :: from <= j < i ==> m(s, j).None?
    ensures Search(m, s, from) == m(s, i)
    decreases i - from
  {
    if from < i {
      SearchSkips(m, s, from + 1, i);
    }
  }

  /** A match at some position makes the search succeed. */
  lemma {:induction false} SearchHits<T>(m: (string, nat) -> Option<T>, s: string, from: nat, i: nat)
    requires from <= i < |s| && m(s, i).Some?
    ensures Search(m, s, from).Some?
    decreases i - from
  {
    if m(s, from).None? {
      SearchHits(m, s, from + 1, i);
    }
  }

  /** With no match anywhere from `from` on, the search fails. */
  lemma {:induction false} SearchNone<T>(m: (string, nat) -> Option<T>, s: string, from: nat)
    requires forall i :: from <= i < |s| ==> m(s, i).None?
    ensures Search(m, s, from).None?
    decreases |s| - from
  {
    if from < |s| {
      SearchNone(m, s, from + 1);
    }
  }

  /** One name pattern as a matcher. */
  function Matcher(p: ParamPattern): (string, nat) -> Option<(nat, nat)> {
    (s: string, i: nat) => MatchAt(p, s, i)
  }

  /** `re.search` with one of the name patterns. */
  function SearchFrom(p: ParamPattern, s: string, from: nat): Option<(nat, nat)> {
    Search(Matcher(p), s, from)
  }

  /** A match found by the search spans a number inside the text. */
  lemma SearchSpan(p: ParamPattern, s: string, from: nat)
    requires SearchFrom(p, s, from).Some?
    ensures var span := SearchFrom(p, s, from).value;
      from <= span.0 < span.1 < |s| && IsDigit(s[span.0])
  {
    SearchFound(Matcher(p), s, from);
    var i :| from <= i && Matcher(p)(s, i) == SearchFrom(p, s, from);
    assert MatchAt(p, s, i) == SearchFrom(p, s, from);
  }

  function Pow10(n: nat): (r: nat)
    ensures r >= 1
  {
    if n == 0 then 1 else 10 * Pow10(n - 1)
  }

  /** All characters of `t` are decimal digits. */
  predicate AllDigits(t: string) {
    forall m :: 0 <= m < |t| ==> IsDigit(t[m])
  }

  /** `int(float(t) * 1_000_000_000)` for the number `ddd` or `ddd.ddd` at `g`, with exact arithmetic. */
  function ParamsAt(s: string, g: nat): (n: nat)
    requires g < |s| && IsDigit(s[g])
  {
    var k := DigitsEnd(s, g);
    var whole := DigitsIn(s, g, k);
    if k + 1 < |s| && s[k] == '.' && IsDigit(s[k + 1]) then
      var e := DigitsEnd(s, k + 1);
      Scaled(whole, DigitsIn(s, k + 1, e), e - (k + 1))
    else whole * 1_000_000_000
  }

  /** The value of the digits `s[i..j]`. */
  function DigitsIn(s: string, i: nat, j: nat): nat
    requires i <= j <= |s| && forall k :: i <= k < j ==> IsDigit(s[k])
  {
    assert forall k :: 0 <= k < j - i ==> s[i..j][k] == s[i + k];
    DigitsValue(s[i..j])
  }

  /** `whole.frac` with `width` fraction digits, times a billion, rounded down. */
  function Scaled(whole: nat, frac: nat, width: nat): nat {
    var p := Pow10(width);
    NatProduct(whole, p);
    var top: nat := whole * p + frac;
    NatProduct(top, 1_000_000_000);
    var num: nat := top * 1_000_000_000;
    NatQuotient(num, p);
    num / p
  }

  /** Dividing naturals gives a natural. */
  lemma NatQuotient(a: nat, b: nat)
    requires b > 0
    ensures a / b >= 0
  {
    var q := a / b;
    assert a == b * q + a % b && a % b < b;
    ProductSign(b, q);
  }

  /** A positive factor keeps a negative one at least that far below zero. */
  lemma ProductSign(b: int, q: int)
    requires b > 0
    ensures q < 0 ==> b * q <= -b
  {
    if q < 0 {
      assert b * q == -(b * -q);
      assert b * -q >= b * 1;
    }
  }

  /** Multiplying naturals gives a natural. */
  lemma NatProduct(a: nat, b: nat)
    ensures a * b >= 0
  {
  }

  /** The parameter count the name advertises: the first pattern, in order, that matches. */
  function ParamsFromName(name: string): (r: Option<nat>)
  {
    var pats := [Plain, PlainDash, DashDelimited, UnderscoreDelimited];
    FirstParams(name, pats)
  }

  function FirstParams(name: string, pats: seq<ParamPattern>): (r: Option<nat>)
    ensures r.None? <==> forall k :: 0 <= k < |pats| ==> SearchFrom(pats[k], name, 0).None?
  {
    if pats == [] then None
    else match SearchFrom(pats[0], name, 0)
      case Some(span) =>
        SearchSpan(pats[0], name, 0);
        Some(ParamsAt(name, span.0))
      case None =>
        var r := FirstParams(name, pats[1..]);
        assert r.None? <==> forall k :: 1 <= k < |pats| ==> SearchFrom(pats[k], name, 0).None? by {
          if r.Some? {
            var k :| 0 <= k < |pats[1..]| && SearchFrom(pats[1..][k], name, 0).Some?;
            assert pats[k + 1] == pats[1..][k];
          }
        }
        r
  }

  /** Wherever `B-` or `-<n>B-` matches, the first pattern already matches. */
  lemma DashPatternsSubsumed(s: string, i: nat)
    ensures MatchAt(PlainDash, s, i).Some? ==> MatchAt(Plain, s, i) == MatchAt(PlainDash, s, i)
    ensures MatchAt(DashDelimited, s, i).Some? ==> MatchAt(Plain, s, i + 1) == MatchAt(DashDelimited, s, i)
  {
  }

  /** Only the first and the underscore pattern ever decide the estimate. */
  lemma NameEstimateUsesTwoPatterns(name: string)
    ensures SearchFrom(Plain, name, 0).None? ==> SearchFrom(PlainDash, name, 0).None?
    ensures SearchFrom(Plain, name, 0).None? ==> SearchFrom(DashDelimited, name, 0).None?
  {
    PlainDashNeedsPlain(name);
    DashDelimitedNeedsPlain(name);
  }

  /** A "-7b" match contains a plain "7b" match. */
  lemma PlainDashNeedsPlain(name: string)
    ensures SearchFrom(PlainDash, name, 0).Some? ==> SearchFrom(Plain, name, 0).Some?
  {
    if SearchFrom(PlainDash, name, 0).Some? {
      SearchFound(Matcher(PlainDash), name, 0);
      var i :| 0 <= i && Matcher(PlainDash)(name, i) == SearchFrom(PlainDash, name, 0);
      DashPatternsSubsumed(name, i);
      assert Matcher(Plain)(name, i).Some?;
      SearchHits(Matcher(Plain), name, 0, i);
    }
  }

  /** A "-7b-" match contains a plain "7b" match. */
  lemma DashDelimitedNeedsPlain(name: string)
    ensures SearchFrom(DashDelimited, name, 0).Some? ==> SearchFrom(Plain, name, 0).Some?
  {
    if SearchFrom(DashDelimited, name, 0).Some? {
      SearchFound(Matcher(DashDelimited), name, 0);
      var i :| 0 <= i && Matcher(DashDelimited)(name, i) == SearchFrom(DashDelimited, name, 0);
      DashPatternsSubsumed(name, i);
      assert Matcher(Plain)(name, i + 1).Some?;
      SearchHits(Matcher(Plain), name, 0, i + 1);
    }
  }

  /** Files above 0.75 GiB: `size / 1.5 GiB > 0.5`. */
  const SizeEstimateFloor: int := 805306368

  /**
   * The parameter count from the name, otherwise from the file size at
   * 1.5 GiB per billion parameters, otherwise unknown.
   */
  function EstimateParameters(name: string, size: int): (r: Option<int>)
    ensures ParamsFromName(name).Some? ==> r == Some(ParamsFromName(name).value as int)
    ensures ParamsFromName(name).None? ==> (r.Some? <==> size > SizeEstimateFloor)
    ensures ParamsFromName(name).None? && r.Some? ==> r.value >= 500_000_000
    ensures ParamsFromName(name).None? && r.Some? ==>
              r.value * 3 * GiB <= size * 2_000_000_000 < (r.value + 1) * 3 * GiB
  {
    match ParamsFromName(name)
    case Some(n) => Some(n)
    case None =>
      if size > 0 then
        var billions := size as real / (1.5 * GiB as real);
        if billions > 0.5 then
          assert billions * 1_000_000_000.0 > 500_000_000.0;
          FloorOfSizeEstimate(size, billions * 1_000_000_000.0);
          Some((billions * 1_000_000_000.0).Floor)
        else
          None
      else None
  }

  /** `int(size / 1.5 GiB * 1e9)` is the floor of `size * 2e9 / 3 GiB`, cross-multiplied. */
  lemma FloorOfSizeEstimate(size: int, x: real)
    requires x == size as real / (1.5 * GiB as real) * 1_000_000_000.0
    ensures x.Floor * 3 * GiB <= size * 2_000_000_000 < (x.Floor + 1) * 3 * GiB
  {
    var d := (3 * GiB) as real;
    assert d == 3221225472.0;
    assert x == (size * 2_000_000_000) as real / d;
    var f := x.Floor;
    assert f as real <= x < (f + 1) as real;
    assert f as real * d <= x * d < (f + 1) as real * d;
    assert x * d == (size * 2_000_000_000) as real;
  }

  /** "7b" followed by a space is read as seven billion parameters. */
  lemma EstimatePlainExample()
    ensures ParamsFromName("Llama 2 7b Chat") == Some(7_000_000_000)
  {
    PlainExampleSearch();
    PlainExampleValue();
  }

  lemma PlainExampleSearch()
    ensures SearchFrom(Plain, "Llama 2 7b Chat", 0) == Some((8, 9))
  {
    PlainExampleMatch();
    PlainExampleNoEarlier();
    SearchSkips(Matcher(Plain), "Llama 2 7b Chat", 0, 8);
  }

  /** "7b" matches at offset 8. */
  lemma PlainExampleMatch()
    ensures MatchAt(Plain, "Llama 2 7b Chat", 8) == Some((8, 9))
  {
    var a := "Llama 2 7b Chat";
    assert DigitsEnd(a, 8) == 9 by { RunEndAt(a, 8, IsDigit, 9); }
  }

  /** No offset before 8 starts a match: the only earlier digit, "2", has no "b" after it. */
  lemma PlainExampleNoEarlier()
    ensures forall i :: 0 <= i < 8 ==> Matcher(Plain)("Llama 2 7b Chat", i).None?
  {
    var a := "Llama 2 7b Chat";
    assert DigitsEnd(a, 6) == 7 by { RunEndAt(a, 6, IsDigit, 7); }
    forall i | 0 <= i < 8 ensures Matcher(Plain)(a, i).None? {
      assert i == 6 || !IsDigit(a[i]);
    }
  }

  /** "7" at offset 8 reads as seven billion. */
  lemma PlainExampleValue()
    ensures ParamsAt("Llama 2 7b Chat", 8) == 7_000_000_000
  {
    var a := "Llama 2 7b Chat";
    assert DigitsEnd(a, 8) == 9 by { RunEndAt(a, 8, IsDigit, 9); }
    assert a[8..9] == "7";
    assert DigitsValue("7") == 7 by {
      assert "7"[..0] == "";
    }
  }

  /** "_1.5B_" is caught by the underscore pattern when the first finds nothing. */
  lemma EstimateUnderscoreExample()
    ensures ParamsFromName("x_1.5B_q") == Some(1_500_000_000)
  {
    UnderscoreExampleSearches();
    UnderscoreExampleValue();
  }

  lemma UnderscoreExampleSearches()
    ensures var b := "x_1.5B_q";
      && SearchFrom(Plain, b, 0).None? && SearchFrom(PlainDash, b, 0).None?
      && SearchFrom(DashDelimited, b, 0).None?
      && SearchFrom(UnderscoreDelimited, b, 0) == Some((2, 5))
  {
    UnderscoreExamplePlainMisses();
    NameEstimateUsesTwoPatterns("x_1.5B_q");
    UnderscoreExampleHit();
  }

  lemma UnderscoreExamplePlainMisses()
    ensures SearchFrom(Plain, "x_1.5B_q", 0).None?
  {
    var b := "x_1.5B_q";
    assert DigitsEnd(b, 2) == 3 by { RunEndAt(b, 2, IsDigit, 3); }
    assert DigitsEnd(b, 4) == 5 by { RunEndAt(b, 4, IsDigit, 5); }
    forall i | 0 <= i < |b| ensures Matcher(Plain)(b, i).None? {
      assert i == 2 || i == 4 || !IsDigit(b[i]);
    }
    SearchNone(Matcher(Plain), b, 0);
  }

  lemma UnderscoreExampleHit()
    ensures SearchFrom(UnderscoreDelimited, "x_1.5B_q", 0) == Some((2, 5))
  {
    var b := "x_1.5B_q";
    assert DigitsEnd(b, 2) == 3 by { RunEndAt(b, 2, IsDigit, 3); }
    assert DigitsEnd(b, 4) == 5 by { RunEndAt(b, 4, IsDigit, 5); }
    assert Matcher(UnderscoreDelimited)(b, 1) == Some((2, 5));
    assert Matcher(UnderscoreDelimited)(b, 0).None?;
    SearchSkips(Matcher(UnderscoreDelimited), b, 0, 1);
  }

  lemma UnderscoreExampleValue()
    ensures ParamsAt("x_1.5B_q", 2) == 1_500_000_000
  {
    var b := "x_1.5B_q";
    assert DigitsEnd(b, 2) == 3 by { RunEndAt(b, 2, IsDigit, 3); }
    assert DigitsEnd(b, 4) == 5 by { RunEndAt(b, 4, IsDigit, 5); }
    assert b[2..3] == "1" && b[4..5] == "5";
    assert DigitsValue("1") == 1 by {
      assert "1"[..0] == "";
    }
    assert DigitsValue("5") == 5 by {
      assert "5"[..0] == "";
    }
  }

  // ---------------------------------------------------------------------
  // The per-entry annotation
  // ---------------------------------------------------------------------

  /** The fallback's size in GiB: at least 1, and 1 when the size is missing or not positive. */
  function FallbackGb(size: Option<int>): (g: real)
    ensures g >= 1.0
    ensures (size.None? || size.value <= 0) ==> g == 1.0
    ensures size.Some? && size.value > 0 ==> g >= Gb(size.value) && (g == 1.0 || g == Gb(size.value))
  {
    if size.Some? && size.value > 0 then (if Gb(size.value) > 1.0 then Gb(size.value) else 1.0) else 1.0
  }

  /**
   * The fallback profile: 8 cores, GPU required, and the smallest of 8, 16
   * and 32 GiB covering three times the size, or 64 when none does.
   */
  function DefaultProfile(cfg: FilterConfig, size: Option<int>): (p: Profile)
    ensures p.minCpuCores == 8 && p.gpuRequired && p.osSupported == cfg.defaultOsSupport
    ensures p.minRamGB in [8, 16, 32, 64]
    ensures (size.None? || size.value <= 0) ==> p.minRamGB == 8
    ensures var need := 3.0 * FallbackGb(size);
      && (p.minRamGB < 64 ==> need <= p.minRamGB as real)
      && (p.minRamGB > 8 ==> need > 8.0)
      && (p.minRamGB > 16 ==> need > 16.0)
      && (p.minRamGB > 32 ==> need > 32.0)
  {
    var base := FallbackGb(size) * 3.0;
    var ram := if base <= 8.0 then 8 else if base <= 16.0 then 16 else if base <= 32.0 then 32 else 64;
    Profile(ram, 8, true, cfg.defaultOsSupport)
  }

  /** A larger file never falls back to less RAM. */
  lemma DefaultRamMonotone(cfg: FilterConfig, s1: int, s2: int)
    requires 0 < s1 <= s2
    ensures DefaultProfile(cfg, Some(s1)).minRamGB <= DefaultProfile(cfg, Some(s2)).minRamGB
  {
    GbMonotone(s1, s2);
  }

  /** `_apply_default_requirements`: the entry with the fallback profile and nothing else changed. */
  function ApplyDefaultRequirements(cfg: FilterConfig, e: Entry): (r: Entry)
    ensures r == e.(hardware := Some(DefaultProfile(cfg, e.fileSize)))
  {
    e.(hardware := Some(DefaultProfile(cfg, e.fileSize)))
  }

  /**
   * `calculate_requirements`: the entry with its computed profile; a missing
   * or negative size takes the fallback instead of failing.
   */
  function CalculateRequirements(cfg: FilterConfig, e: Entry): (r: Entry)
    ensures r.hardware.Some?
    ensures r.(hardware := e.hardware) == e
    ensures r.hardware.value.osSupported == cfg.defaultOsSupport
    ensures (e.fileSize.None? || e.fileSize.value < 0) ==> r == ApplyDefaultRequirements(cfg, e)
    ensures e.fileSize.Some? && e.fileSize.value >= 0 ==>
      var size := e.fileSize.value;
      var params := EstimateParameters(e.modelName, size);
      r.hardware.value == Profile(
        RamRequirement(cfg, size, e.quantFormat),
        CpuRequirement(cfg, params, size),
        GpuRequirement(cfg, params, size, e.quantFormat),
        cfg.defaultOsSupport)
  {
    match e.fileSize
    case None => ApplyDefaultRequirements(cfg, e)
    case Some(size) =>
      if size < 0 then ApplyDefaultRequirements(cfg, e)
      else
        var params := EstimateParameters(e.modelName, size);
        e.(hardware := Some(Profile(
          RamRequirement(cfg, size, e.quantFormat),
          CpuRequirement(cfg, params, size),
          GpuRequirement(cfg, params, size, e.quantFormat),
          cfg.defaultOsSupport)))
  }

  /** Every annotated profile draws its RAM and cores from the market ladders. */
  lemma ProfileInRange(cfg: FilterConfig, e: Entry)
    ensures var p := CalculateRequirements(cfg, e).hardware.value;
      p.minRamGB in RamSizes && p.minCpuCores in CoreCounts
  {
  }
}
