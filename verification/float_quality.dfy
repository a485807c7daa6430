/** The quality loop of `compressImageToWebP` (app/editprofile.tsx) as JavaScript evaluates it: the
    literals 0.6 and 0.05 are IEEE 754 binary64 numbers, and `quality -= 0.05` rounds every difference
    to the nearest binary64 number. Quantities are counted in units of 2^-108, the finest spacing any
    value of the loop needs, so every double here is a whole number of units. */
module FloatQuality {
  import ImageCompression

  function Pow2(n: nat): (p: nat)
    ensures p >= 1
  {
    if n == 0 then 1 else 2 * Pow2(n - 1)
  }

  lemma {:induction false} Pow2Add(a: nat, b: nat)
    ensures Pow2(a + b) == Pow2(a) * Pow2(b)
    decreases a
  {
    if a > 0 {
      Pow2Add(a - 1, b);
    }
  }

  lemma Pow2Small()
    ensures Pow2(0) == 1 && Pow2(3) == 8
  {
    assert Pow2(1) == 2 && Pow2(2) == 4;
  }

  lemma Pow2Of24()
    ensures Pow2(24) == 16777216
  {
    Pow2Small();
    Pow2Add(3, 3);
    Pow2Add(6, 6);
    Pow2Add(12, 12);
  }

  lemma Pow2Of51()
    ensures Pow2(51) == 2251799813685248
  {
    Pow2Of24();
    Pow2Small();
    Pow2Add(24, 24);
    Pow2Add(48, 3);
  }

  /** The spacings of the binades the loop's values lie in. */
  lemma Pow2Spacings()
    ensures Pow2(0) == 1
    ensures Pow2(51) == 2251799813685248
    ensures Pow2(52) == 4503599627370496
    ensures Pow2(53) == 9007199254740992
    ensures Pow2(54) == 18014398509481984
    ensures Pow2(55) == 36028797018963968
  {
    Pow2Of51();
    assert Pow2(52) == 2 * Pow2(51);
    assert Pow2(53) == 2 * Pow2(52);
    assert Pow2(54) == 2 * Pow2(53);
    assert Pow2(55) == 2 * Pow2(54);
  }

  /** The powers of two the loop's values use: the spacings and the bounds of their binades. */
  lemma Pow2Values()
    ensures Pow2(51) == 2251799813685248
    ensures Pow2(52) == 4503599627370496
    ensures Pow2(53) == 9007199254740992
    ensures Pow2(54) == 18014398509481984
    ensures Pow2(55) == 36028797018963968
    ensures Pow2(103) == 10141204801825835211973625643008
    ensures Pow2(104) == 20282409603651670423947251286016
    ensures Pow2(105) == 40564819207303340847894502572032
    ensures Pow2(106) == 81129638414606681695789005144064
    ensures Pow2(107) == 162259276829213363391578010288128
    ensures Pow2(108) == 324518553658426726783156020576256
  {
    Pow2Spacings();
    Pow2Add(51, 52);
    Pow2Add(103, 1);
    Pow2Add(104, 1);
    Pow2Add(105, 1);
    Pow2Add(106, 1);
    Pow2Add(107, 1);
  }

  lemma {:induction false} Pow2Monotone(m: nat, n: nat)
    requires m <= n
    ensures Pow2(m) <= Pow2(n)
    decreases n
  {
    if m < n {
      Pow2Monotone(m, n - 1);
    }
  }

  /** One unit, 2^-108, as a fraction of 1: a real `x` is `x * Scale` units. */
  const Scale: real := 324518553658426726783156020576256.0

  /** The positive normal double `mantissa * 2^(exponent - 108)`, with 2^52 <= mantissa < 2^53; the
      doubles of its binade lie `Pow2(exponent)` units apart. */
  datatype Double = Double(mantissa: nat, exponent: nat)

  predicate IsNormal(d: Double) {
    Pow2(52) <= d.mantissa < Pow2(53)
  }

  /** The value of a double, in units. */
  function Units(d: Double): int {
    d.mantissa * Pow2(d.exponent)
  }

  /** `x` units lie in the binade whose doubles are `Pow2(e)` apart: 2^52 * 2^e <= x < 2^53 * 2^e. */
  predicate InBinade(x: int, e: nat) {
    Pow2(52 + e) <= x < Pow2(53 + e)
  }

  /** Binades of different exponents do not overlap. */
  lemma BinadesAreDisjoint(a: nat, b: nat)
    ensures a < b ==> Pow2(53 + a) <= Pow2(52 + b)
  {
    if a < b {
      Pow2Monotone(53 + a, 52 + b);
    }
  }

  lemma BinadeIsUnique(x: int, a: nat, b: nat)
    requires InBinade(x, a) && InBinade(x, b)
    ensures a == b
  {
    BinadesAreDisjoint(a, b);
    BinadesAreDisjoint(b, a);
  }

  /** The quotient `m` by a spacing, with remainder `r`, rounded to nearest with ties to even (section
      4.3.1 of IEEE 754-2008): up when the remainder is more than half a spacing, or exactly half and `m`
      is odd. */
  function RoundQuotient(m: int, r: int, spacing: int): int {
    if 2 * r > spacing || (2 * r == spacing && m % 2 == 1) then m + 1 else m
  }

  /** `x` units rounded to a double of binade `e`, as a number of units. A quotient rounded up to 2^53 is
      the first double of the next binade, which has the same value. */
  function RoundIn(x: int, e: nat): int {
    RoundQuotient(x / Pow2(e), x % Pow2(e), Pow2(e)) * Pow2(e)
  }

  /** A non-zero multiple of `y` is at least `y` away from zero. */
  lemma MultipleBounds(k: int, y: nat)
    ensures k >= 1 ==> k * y >= y
    ensures k <= -1 ==> k * y <= -(y as int)
  {
    if k >= 1 {
      assert k * y == (k - 1) * y + y;
      assert (k - 1) * y >= 0;
    }
    if k <= -1 {
      assert k * y == (k + 1) * y - y;
      assert (k + 1) * y <= 0;
    }
  }

  /** Euclidean division has one quotient and one remainder. */
  lemma DivisionIsUnique(x: int, y: int, m: int, r: int)
    requires y > 0 && x == m * y + r && 0 <= r < y
    ensures x / y == m && x % y == r
  {
    var q, s := x / y, x % y;
    assert x == q * y + s;
    assert (q - m) * y == q * y - m * y == r - s;
    MultipleBounds(q - m, y);
  }

  /** The literal `0.05`, the step and the floor of the loop. */
  const Step: Double := Double(7205759403792794, 51)

  /** The literal `0.6`, the first quality. */
  const Start: Double := Double(5404319552844595, 55)

  /** Both literals are the doubles of their binades nearest to 0.6 and to 0.05. */
  lemma LiteralsAreNearest()
    ensures IsNormal(Start) && IsNormal(Step)
    ensures (Pow2(52) * Pow2(Start.exponent)) as real <= 0.6 * Scale < (Pow2(53) * Pow2(Start.exponent)) as real
    ensures -(Pow2(Start.exponent) as real) < 2.0 * (0.6 * Scale - Units(Start) as real) < Pow2(Start.exponent) as real
    ensures (Pow2(52) * Pow2(Step.exponent)) as real <= 0.05 * Scale < (Pow2(53) * Pow2(Step.exponent)) as real
    ensures -(Pow2(Step.exponent) as real) < 2.0 * (0.05 * Scale - Units(Step) as real) < Pow2(Step.exponent) as real
  {
    Pow2Values();
  }

  /** `d` units are `quality - 0.05` for a quality of `q` units: the exact difference lies in the binade of
      some normal double and is rounded there. */
  ghost predicate SubtractsTo(q: int, d: int) {
    var x := q - Units(Step);
    exists e: nat :: InBinade(x, e) && RoundIn(x, e) == d
  }

  /** The subtraction has one result: the binade of a difference is unique. */
  lemma SubtractionIsDeterministic(q: int, d1: int, d2: int)
    ensures SubtractsTo(q, d1) && SubtractsTo(q, d2) ==> d1 == d2
  {
    if SubtractsTo(q, d1) && SubtractsTo(q, d2) {
      var x := q - Units(Step);
      var e1: nat :| InBinade(x, e1) && RoundIn(x, e1) == d1;
      var e2: nat :| InBinade(x, e2) && RoundIn(x, e2) == d2;
      BinadeIsUnique(x, e1, e2);
    }
  }

  /** The subtraction evaluated in a known binade `e`, given the quotient `m` and remainder `r` of the
      difference by that binade's spacing. */
  lemma SubtractsThrough(q: int, e: nat, spacing: int, m: int, r: int, d: int)
    requires spacing == Pow2(e)
    requires q - Units(Step) == m * spacing + r && 0 <= r < spacing
    requires InBinade(q - Units(Step), e)
    requires d == RoundQuotient(m, r, spacing) * spacing
    ensures SubtractsTo(q, d)
  {
    var x := q - Units(Step);
    DivisionIsUnique(x, spacing, m, r);
    assert x / spacing == m && x % spacing == r;
    assert RoundIn(x, e) == RoundQuotient(m, r, spacing) * spacing;
    assert InBinade(x, e) && RoundIn(x, e) == d;
  }

  /** `qs` are the qualities, in units, the source's loop tries and `after` the quality it stops at: it
      starts at the literal 0.6, tries every quality above the literal 0.05, and replaces each by the
      rounded difference `quality - 0.05`. */
  ghost predicate IsSourceLoop(qs: seq<int>, after: int) {
    && |qs| > 0
    && qs[0] == Units(Start)
    && (forall k :: 0 <= k < |qs| ==> qs[k] > Units(Step))
    && (forall i, j :: 0 <= i < j < |qs| && j == i + 1 ==> SubtractsTo(qs[i], qs[j]))
    && SubtractsTo(qs[|qs| - 1], after)
    && after <= Units(Step)
  }

  /** Two runs of the source's loop are the same run: each subtraction has one result. */
  lemma {:induction false} SourceLoopIsDeterministic(qs: seq<int>, after: int, rs: seq<int>, last: int)
    requires IsSourceLoop(qs, after) && IsSourceLoop(rs, last)
    ensures qs == rs && after == last
  {
    var k := 0;
    while k < |qs| - 1
      invariant 0 <= k < |qs| && k < |rs|
      invariant forall j :: 0 <= j <= k ==> qs[j] == rs[j]
    {
      RunsAgreeOnNext(qs, after, rs, last, k);
      k := k + 1;
    }
    RunsStopTogether(qs, after, rs, last, k);
  }

  /** Runs that agree on a quality the first one goes on from agree on the next quality. */
  lemma RunsAgreeOnNext(qs: seq<int>, after: int, rs: seq<int>, last: int, k: nat)
    requires IsSourceLoop(qs, after) && IsSourceLoop(rs, last)
    requires k < |qs| - 1 && k < |rs| && qs[k] == rs[k]
    ensures k + 1 < |rs| && qs[k + 1] == rs[k + 1]
  {
    assert SubtractsTo(qs[k], qs[k + 1]);
    assert k + 1 < |rs| by {
      SubtractionIsDeterministic(rs[k], qs[k + 1], last);
    }
    SubtractionIsDeterministic(rs[k], qs[k + 1], rs[k + 1]);
  }

  /** Runs that agree on the last quality of the first one stop there together. */
  lemma RunsStopTogether(qs: seq<int>, after: int, rs: seq<int>, last: int, k: nat)
    requires IsSourceLoop(qs, after) && IsSourceLoop(rs, last)
    requires k == |qs| - 1 && k < |rs| && qs[k] == rs[k]
    ensures k == |rs| - 1 && after == last
  {
    assert k == |rs| - 1 by {
      SubtractionIsDeterministic(rs[k], after, rs[if k + 1 < |rs| then k + 1 else k]);
    }
    SubtractionIsDeterministic(rs[k], after, last);
  }

  /** The qualities the loop computes, in units: the doubles 0.6, 0.5499999999999999, 0.49999999999999994,
      0.44999999999999996, 0.39999999999999997, 0.35, 0.3, 0.25, 0.2, 0.15000000000000002,
      0.10000000000000002 and 0.05000000000000002. */
  const SourceQualities: seq<int> := [
    194711132195056028864134208552960,
    178485204512134678113457599938560,
    162259276829213345377179500806144,
    146033349146292012640901401673728,
    129807421463370679904623302541312,
    113581493780449347168345203408896,
    97355566097528014432067104276480,
    81129638414606681695789005144064,
    64903710731685348959510906011648,
    48677783048764016223232806879232,
    32451855365842678983355080376320,
    16225927682921341743477353873408]

  /** 2^-56, about 1.4e-17: the quality after the twelfth subtraction. */
  const QualityAfterLoop: Double := Double(4503599627370496, 0)

  /** `q` units are within 0.0001 of the quality `QualityAt(k)` hundredths the integer model tries at
      attempt `k`. */
  ghost predicate NearQuality(q: int, k: nat) {
    -0.0001 * Scale < q as real - (ImageCompression.QualityAt(k) as real / 100.0) * Scale < 0.0001 * Scale
  }

  /** What one entry of the table satisfies: the loop tries it, it is near the intended quality, and it
      subtracts to the next entry or, for the last one, to `QualityAfterLoop`. */
  ghost predicate EntryHolds(i: nat)
    requires i < |SourceQualities|
  {
    && SourceQualities[i] > Units(Step)
    && NearQuality(SourceQualities[i], i)
    && (i + 1 < |SourceQualities| ==> SubtractsTo(SourceQualities[i], SourceQualities[i + 1]))
    && (i + 1 == |SourceQualities| ==> SubtractsTo(SourceQualities[i], Units(QualityAfterLoop)))
  }

  /* One lemma per entry. Each names the binade of the difference and its quotient and remainder by the
     binade's spacing, from which the rounded difference follows. */

  /** 0.6 - 0.05 rounds down to 0.5499999999999999. */
  lemma Entry0(i: nat)
    requires i == 0
    ensures EntryHolds(i)
  {
    Pow2Values();
    SubtractsThrough(SourceQualities[i], 55, 36028797018963968, 4953959590107545, 13510798882111488, SourceQualities[i + 1]);
  }

  lemma Entry1(i: nat)
    requires i == 1
    ensures EntryHolds(i)
  {
    Pow2Values();
    SubtractsThrough(SourceQualities[i], 54, 18014398509481984, 9007199254740990, 13510798882111488, SourceQualities[i + 1]);
  }

  lemma Entry2(i: nat)
    requires i == 2
    ensures EntryHolds(i)
  {
    Pow2Values();
    SubtractsThrough(SourceQualities[i], 54, 18014398509481984, 8106479329266891, 13510798882111488, SourceQualities[i + 1]);
  }

  lemma Entry3(i: nat)
    requires i == 3
    ensures EntryHolds(i)
  {
    Pow2Values();
    SubtractsThrough(SourceQualities[i], 54, 18014398509481984, 7205759403792792, 13510798882111488, SourceQualities[i + 1]);
  }

  lemma Entry4(i: nat)
    requires i == 4
    ensures EntryHolds(i)
  {
    Pow2Values();
    SubtractsThrough(SourceQualities[i], 54, 18014398509481984, 6305039478318693, 13510798882111488, SourceQualities[i + 1]);
  }

  lemma Entry5(i: nat)
    requires i == 5
    ensures EntryHolds(i)
  {
    Pow2Values();
    SubtractsThrough(SourceQualities[i], 54, 18014398509481984, 5404319552844594, 13510798882111488, SourceQualities[i + 1]);
  }

  /** A tie with an odd quotient: 0.3 - 0.05 rounds up to 0.25, the first double of the binade above. */
  lemma Entry6(i: nat)
    requires i == 6
    ensures EntryHolds(i)
  {
    Pow2Values();
    SubtractsThrough(SourceQualities[i], 53, 9007199254740992, 9007199254740991, 4503599627370496, SourceQualities[i + 1]);
  }

  /** A tie with an even quotient: 0.25 - 0.05 rounds down to 0.2. */
  lemma Entry7(i: nat)
    requires i == 7
    ensures EntryHolds(i)
  {
    Pow2Values();
    SubtractsThrough(SourceQualities[i], 53, 9007199254740992, 7205759403792793, 4503599627370496, SourceQualities[i + 1]);
  }

  /** A tie with an even quotient: 0.2 - 0.05 rounds down to 0.15000000000000002. */
  lemma Entry8(i: nat)
    requires i == 8
    ensures EntryHolds(i)
  {
    Pow2Values();
    SubtractsThrough(SourceQualities[i], 53, 9007199254740992, 5404319552844595, 4503599627370496, SourceQualities[i + 1]);
  }

  /** Exact: 0.10000000000000002. */
  lemma Entry9(i: nat)
    requires i == 9
    ensures EntryHolds(i)
  {
    Pow2Values();
    SubtractsThrough(SourceQualities[i], 52, 4503599627370496, 7205759403792795, 0, SourceQualities[i + 1]);
  }

  /** Exact: 0.05000000000000002, two spacings above the literal 0.05. */
  lemma Entry10(i: nat)
    requires i == 10
    ensures EntryHolds(i)
  {
    Pow2Values();
    SubtractsThrough(SourceQualities[i], 51, 2251799813685248, 7205759403792796, 0, SourceQualities[i + 1]);
  }

  /** The last subtraction leaves 2^-56, below the literal 0.05. */
  lemma Entry11(i: nat)
    requires i == 11
    ensures EntryHolds(i)
  {
    Pow2Values();
    assert Pow2(0) == 1;
    SubtractsThrough(SourceQualities[i], 0, 1, 4503599627370496, 0, Units(QualityAfterLoop));
  }

  lemma TableEntry(i: nat)
    requires i < |SourceQualities|
    ensures EntryHolds(i)
  {
    if i == 0 { Entry0(i); }
    else if i == 1 { Entry1(i); }
    else if i == 2 { Entry2(i); }
    else if i == 3 { Entry3(i); }
    else if i == 4 { Entry4(i); }
    else if i == 5 { Entry5(i); }
    else if i == 6 { Entry6(i); }
    else if i == 7 { Entry7(i); }
    else if i == 8 { Entry8(i); }
    else if i == 9 { Entry9(i); }
    else if i == 10 { Entry10(i); }
    else { Entry11(i); }
  }

  /** The table is a run of the source's loop. */
  lemma TableIsSourceLoop()
    ensures IsSourceLoop(SourceQualities, Units(QualityAfterLoop))
  {
    var t := SourceQualities;
    forall k | 0 <= k < |t|
      ensures t[k] > Units(Step)
    {
      TableEntry(k);
    }
    forall i, j | 0 <= i < j < |t| && j == i + 1
      ensures SubtractsTo(t[i], t[j])
    {
      TableEntry(i);
    }
    TableEntry(|t| - 1);
    Pow2Spacings();
  }

  /** Any run of the source's loop is the table. */
  lemma SourceLoopIsTheTable(qs: seq<int>, after: int)
    requires IsSourceLoop(qs, after)
    ensures qs == SourceQualities && after == Units(QualityAfterLoop)
  {
    TableIsSourceLoop();
    SourceLoopIsDeterministic(qs, after, SourceQualities, Units(QualityAfterLoop));
  }

  /** As written, the loop makes one attempt more than the eleven its quality range promises. It has exactly
      one run, the table, and its twelfth quality is 0.05 up to two spacings of rounding error: the floor
      that the `quality > 0.05` test is there to exclude. In hundredths the qualities are 60, 55, ..., 10 and
      then 5. */
  lemma SourceLoopMakesTwelveAttempts()
    ensures IsSourceLoop(SourceQualities, Units(QualityAfterLoop))
    ensures forall qs, after :: IsSourceLoop(qs, after) ==> qs == SourceQualities
    ensures |SourceQualities| == ImageCompression.MaxAttempts + 1
    ensures forall k :: 0 <= k < |SourceQualities| ==> NearQuality(SourceQualities[k], k)
    ensures ImageCompression.QualityAt(|SourceQualities| - 1) == ImageCompression.QualityFloor
    ensures SourceQualities[|SourceQualities| - 1] == Units(Step) + 2 * Pow2(Step.exponent)
  {
    TableIsSourceLoop();
    forall qs, after | IsSourceLoop(qs, after)
      ensures qs == SourceQualities
    {
      SourceLoopIsTheTable(qs, after);
    }
    forall k | 0 <= k < |SourceQualities|
      ensures NearQuality(SourceQualities[k], k)
    {
      TableEntry(k);
    }
    Pow2Spacings();
  }
}
