/**
 * The midpoint-displacement terrain generator.
 *
 * The generator draws `numStartVals` values from the random source, then
 * runs `iterations` passes. A pass visits the elements of the current array
 * in order, up to the length the array had when the pass began. It appends
 * the first element unchanged; for every later element it appends a
 * displaced, clamped midpoint of that element and its predecessor, followed
 * by the element itself.
 *
 * The output array is created once, before the first pass, and from the
 * second pass on the current array IS the output array: every later pass
 * reads the array it is appending to. So a later pass keeps everything
 * produced so far as a prefix and appends the subdivision of that prefix,
 * and the length grows as L -> 3L - 1 rather than doubling.
 *
 * The seeded random source is an endless stream of draws: `rng(i)` is the
 * value the `i`-th call returns, counting from 0.
 */
module Terrain {

  // ---------------------------------------------------------------------
  // Specification
  // ---------------------------------------------------------------------

  /** How often `for (i = 0; i < x; i++)` runs its body. */
  function Count(x: int): nat {
    if x < 0 then 0 else x
  }

  /** 1.1 to the power `e`. */
  function Growth(e: nat): real {
    if e == 0 then 1.0 else Growth(e - 1) * 1.1
  }

  function IntPow(b: nat, e: nat): nat {
    if e == 0 then 1 else IntPow(b, e - 1) * b
  }

  /** The displacement scale of pass `pass` (counting from 0): 0.5, multiplied by 1.1 after every pass. */
  function Decay(pass: nat): real {
    0.5 * Growth(pass)
  }

  /**
   * The value inserted between `prev` and `cur`: their mean, displaced by
   * `(r - 0.5) * decay`, and clamped from above at 1. There is no lower clamp.
   */
  function Mid(prev: real, cur: real, r: real, decay: real): (m: real)
    ensures m <= 1.0
    ensures m <= (cur + prev) / 2.0 + (r - 0.5) * decay
    ensures (cur + prev) / 2.0 + (r - 0.5) * decay <= 1.0 ==> m == (cur + prev) / 2.0 + (r - 0.5) * decay
    ensures (cur + prev) / 2.0 + (r - 0.5) * decay > 1.0 ==> m == 1.0
  {
    var m := (cur + prev) / 2.0 + (r - 0.5) * decay;
    if m > 1.0 then 1.0 else m
  }

  /** The first `count` draws of the stream. */
  function Draws(rng: nat -> real, count: nat): seq<real> {
    if count == 0 then [] else Draws(rng, count - 1) + [rng(count - 1)]
  }

  /** The number of values one pass appends when it visits `len` elements. */
  function PassLength(len: nat): nat {
    if len == 0 then 0 else 2 * len - 1
  }

  /** The number of draws one pass consumes when it visits `len` elements: one per element after the first. */
  function PassDraws(len: nat): nat {
    if len == 0 then 0 else len - 1
  }

  /**
   * What one pass over `s` appends when the next unused draw is `rng(from)`:
   * `s[0]`, then for each later `s[j]` the midpoint of `s[j - 1]` and
   * `s[j]` displaced by draw `rng(from + j - 1)`, then `s[j]`.
   */
  function Subdivide(s: seq<real>, rng: nat -> real, from: nat, decay: real): seq<real>
    decreases |s|
  {
    if |s| <= 1 then s
    else
      var last := |s| - 1;
      Subdivide(s[..last], rng, from, decay) + [Mid(s[last - 1], s[last], rng(from + last - 1), decay), s[last]]
  }

  /** The length of the generator's output after `passes` passes from `n` start values. */
  function TerrainLength(n: nat, passes: nat): nat {
    if passes == 0 then n
    else
      var len := TerrainLength(n, passes - 1);
      if passes == 1 then PassLength(len) else len + PassLength(len)
  }

  /** The number of draws the generator consumes for `n` start values and `passes` passes. */
  function DrawsUsed(n: nat, passes: nat): nat {
    if passes == 0 then n
    else DrawsUsed(n, passes - 1) + PassDraws(TerrainLength(n, passes - 1))
  }

  /**
   * The generator's output after `passes` passes. The first pass writes its
   * subdivision into the fresh output array; every later pass appends to
   * the array it reads.
   */
  function Output(n: nat, passes: nat, rng: nat -> real): seq<real> {
    if passes == 0 then Draws(rng, n)
    else
      var prev := Output(n, passes - 1, rng);
      var added := Subdivide(prev, rng, DrawsUsed(n, passes - 1), Decay(passes - 1));
      if passes == 1 then added else prev + added
  }

  /** Every draw lies in [0, 1), as the random source promises. */
  ghost predicate UnitDraws(rng: nat -> real) {
    forall i: nat :: 0.0 <= rng(i) < 1.0
  }

  // ---------------------------------------------------------------------
  // Properties
  // ---------------------------------------------------------------------

  lemma {:induction false} DrawsLength(rng: nat -> real, count: nat)
    ensures |Draws(rng, count)| == count
    ensures forall i :: 0 <= i < count ==> Draws(rng, count)[i] == rng(i)
  {
    if count > 0 {
      DrawsLength(rng, count - 1);
    }
  }

  lemma {:induction false} SubdivideLength(s: seq<real>, rng: nat -> real, from: nat, decay: real)
    ensures |Subdivide(s, rng, from, decay)| == PassLength(|s|)
    decreases |s|
  {
    if |s| > 1 {
      SubdivideLength(s[..|s| - 1], rng, from, decay);
    }
  }

  /** The output has the length `TerrainLength` predicts. */
  lemma {:induction false} TerrainLengthIs(n: nat, passes: nat, rng: nat -> real)
    ensures |Output(n, passes, rng)| == TerrainLength(n, passes)
  {
    if passes == 0 {
      DrawsLength(rng, n);
    } else {
      TerrainLengthIs(n, passes - 1, rng);
      var prev := Output(n, passes - 1, rng);
      SubdivideLength(prev, rng, DrawsUsed(n, passes - 1), Decay(passes - 1));
    }
  }

  /** The draws consumed grow with the number of passes. */
  lemma {:induction false} DrawsUsedMonotone(n: nat, passes: nat, more: nat)
    requires passes <= more
    ensures DrawsUsed(n, passes) <= DrawsUsed(n, more)
    decreases more
  {
    if passes < more {
      DrawsUsedMonotone(n, passes, more - 1);
    }
  }

  /** The displacement scale starts at 0.5 and grows strictly from pass to pass. */
  lemma DecayGrows(pass: nat)
    ensures 0.5 <= Decay(pass) < Decay(pass + 1)
  {
    GrowthAtLeastOne(pass);
  }

  lemma {:induction false} GrowthAtLeastOne(e: nat)
    ensures Growth(e) >= 1.0
  {
    if e > 0 {
      GrowthAtLeastOne(e - 1);
    }
  }

  /**
   * The shape of one pass: the visited elements land at the even indices,
   * and the midpoint of `s[i - 1]` and `s[i]`, displaced by the pass's
   * `i`-th draw, lands just before `s[i]`.
   */
  lemma {:induction false} SubdivideAt(s: seq<real>, rng: nat -> real, from: nat, decay: real, i: nat)
    requires i < |s|
    ensures |Subdivide(s, rng, from, decay)| == 2 * |s| - 1
    ensures Subdivide(s, rng, from, decay)[2 * i] == s[i]
    ensures i >= 1 ==> Subdivide(s, rng, from, decay)[2 * i - 1] == Mid(s[i - 1], s[i], rng(from + i - 1), decay)
    decreases |s|
  {
    SubdivideLength(s, rng, from, decay);
    if |s| > 1 && i < |s| - 1 {
      var last := |s| - 1;
      SubdivideAt(s[..last], rng, from, decay, i);
      assert s[..last][i] == s[i];
      if i >= 1 {
        assert s[..last][i - 1] == s[i - 1];
      }
    }
  }

  /** Visiting one more element appends its midpoint and itself, or only itself when it is the first. */
  lemma SubdivideStep(s: seq<real>, rng: nat -> real, from: nat, decay: real, j: nat)
    requires j < |s|
    ensures j == 0 ==> Subdivide(s[..j + 1], rng, from, decay) == [s[0]]
    ensures j >= 1 ==> Subdivide(s[..j + 1], rng, from, decay)
                       == Subdivide(s[..j], rng, from, decay) + [Mid(s[j - 1], s[j], rng(from + j - 1), decay), s[j]]
  {
    if j >= 1 {
      assert s[..j + 1][..j] == s[..j];
    }
  }

  /** A pass never produces a value above 1 from values that are not above 1. */
  lemma {:induction false} SubdivideAtMostOne(s: seq<real>, rng: nat -> real, from: nat, decay: real)
    requires forall i :: 0 <= i < |s| ==> s[i] <= 1.0
    ensures forall i :: 0 <= i < |Subdivide(s, rng, from, decay)| ==> Subdivide(s, rng, from, decay)[i] <= 1.0
    decreases |s|
  {
    if |s| > 1 {
      SubdivideAtMostOne(s[..|s| - 1], rng, from, decay);
    }
  }

  /** A pass over `s` reads only the `|s| - 1` draws from `rng(from)` on. */
  lemma {:induction false} SubdivideReadsPrefix(s: seq<real>, rng: nat -> real, other: nat -> real, from: nat, decay: real)
    requires forall i: nat :: from <= i < from + |s| - 1 ==> rng(i) == other(i)
    ensures Subdivide(s, rng, from, decay) == Subdivide(s, other, from, decay)
    decreases |s|
  {
    if |s| > 1 {
      SubdivideReadsPrefix(s[..|s| - 1], rng, other, from, decay);
      assert rng(from + |s| - 2) == other(from + |s| - 2);
    }
  }

  /** Without passes the generator returns the first `n` draws, in order. */
  lemma NoPasses(n: nat, rng: nat -> real)
    ensures |Output(n, 0, rng)| == n
    ensures forall i :: 0 <= i < n ==> Output(n, 0, rng)[i] == rng(i)
  {
    DrawsLength(rng, n);
  }

  /**
   * After the first pass over `n >= 1` start values the output has `2n - 1`
   * values: start value `i` at index `2i` and, just before it, the midpoint
   * of start values `i - 1` and `i`, displaced by the `i`-th draw after the
   * start values with scale 0.5.
   */
  lemma FirstPass(n: nat, rng: nat -> real, i: nat)
    requires i < n
    ensures |Output(n, 1, rng)| == 2 * n - 1
    ensures Output(n, 1, rng)[2 * i] == rng(i)
    ensures i >= 1 ==> Output(n, 1, rng)[2 * i - 1] == Mid(rng(i - 1), rng(i), rng(n + i - 1), 0.5)
  {
    var start := Draws(rng, n);
    DrawsLength(rng, n);
    assert Decay(0) == 0.5;
    assert Output(n, 1, rng) == Subdivide(start, rng, n, 0.5);
    SubdivideAt(start, rng, n, 0.5, i);
  }

  /**
   * Every pass after the first keeps the current output as a prefix and
   * appends the subdivision of exactly that prefix, displaced with the
   * pass's own scale and the next unused draws.
   */
  lemma LaterPass(n: nat, passes: nat, rng: nat -> real)
    requires passes >= 1
    ensures var prev := Output(n, passes, rng);
            var next := Output(n, passes + 1, rng);
            |prev| <= |next|
            && next[..|prev|] == prev
            && next[|prev|..] == Subdivide(prev, rng, DrawsUsed(n, passes), Decay(passes))
  {
    var prev := Output(n, passes, rng);
    var added := Subdivide(prev, rng, DrawsUsed(n, passes), Decay(passes));
    var next := Output(n, passes + 1, rng);
    assert next == prev + added;
    assert next[..|prev|] == prev;
    assert next[|prev|..] == added;
  }

  /**
   * Once the first pass is done, nothing written is ever changed: the
   * output after pass `p` is a prefix of the output after every later pass.
   */
  lemma {:induction false} OutputPrefix(n: nat, p: nat, q: nat, rng: nat -> real)
    requires 1 <= p <= q
    ensures |Output(n, p, rng)| <= |Output(n, q, rng)|
    ensures Output(n, q, rng)[..|Output(n, p, rng)|] == Output(n, p, rng)
    decreases q
  {
    if p < q {
      OutputPrefix(n, p, q - 1, rng);
      LaterPass(n, q - 1, rng);
      var a, b, c := Output(n, p, rng), Output(n, q - 1, rng), Output(n, q, rng);
      assert c[..|b|] == b;
      assert c[..|a|] == c[..|b|][..|a|];
    }
  }

  lemma {:induction false} TerrainLengthPositive(n: nat, passes: nat)
    requires n >= 1
    ensures TerrainLength(n, passes) >= 1
  {
    if passes > 0 {
      TerrainLengthPositive(n, passes - 1);
    }
  }

  /**
   * The length after each pass: `2n - 1` after the first, and three times
   * the previous length minus one after every later one.
   */
  lemma LengthRecurrence(n: nat, passes: nat)
    requires n >= 1
    ensures TerrainLength(n, 1) == 2 * n - 1
    ensures passes >= 1 ==> TerrainLength(n, passes + 1) == 3 * TerrainLength(n, passes) - 1
  {
    TerrainLengthPositive(n, passes);
  }

  /** In closed form: twice the length after `k >= 1` passes is `(4n - 3) * 3^(k-1) + 1`. */
  lemma {:induction false} LengthClosedForm(n: nat, passes: nat)
    requires n >= 1 && passes >= 1
    ensures 2 * TerrainLength(n, passes) == (4 * n - 3) * IntPow(3, passes - 1) + 1
  {
    if passes > 1 {
      LengthClosedForm(n, passes - 1);
      LengthRecurrence(n, passes - 1);
      var p := IntPow(3, passes - 2);
      assert IntPow(3, passes - 1) == p * 3;
      TimesThree(4 * n - 3, p);
    }
  }

  lemma TimesThree(a: int, p: int)
    ensures a * (p * 3) == 3 * (a * p)
  {
  }

  /**
   * The length does not follow the doubling rule `(n - 1) * 2^k + 1`: two
   * start values and two passes give 8 values, not 5.
   */
  lemma NotDoubling()
    ensures TerrainLength(2, 2) == 8
    ensures (2 - 1) * IntPow(2, 2) + 1 == 5
  {
  }

  /**
   * The draws consumed: `n` up front, then one per visited element after
   * the first in each pass, which for `n >= 1` and `k >= 1` passes makes
   * twice the draws equal to the output length plus `2n - k`.
   */
  lemma {:induction false} DrawsClosedForm(n: nat, passes: nat)
    requires n >= 1 && passes >= 1
    ensures 2 * DrawsUsed(n, passes) == TerrainLength(n, passes) + 2 * n - passes
  {
    if passes > 1 {
      DrawsClosedForm(n, passes - 1);
      LengthRecurrence(n, passes - 1);
      TerrainLengthPositive(n, passes - 1);
    }
  }

  /** Given draws in [0, 1), no output value exceeds 1, after any number of passes. */
  lemma {:induction false} TerrainAtMostOne(n: nat, passes: nat, rng: nat -> real)
    requires UnitDraws(rng)
    ensures forall i :: 0 <= i < |Output(n, passes, rng)| ==> Output(n, passes, rng)[i] <= 1.0
  {
    if passes == 0 {
      DrawsLength(rng, n);
    } else {
      TerrainAtMostOne(n, passes - 1, rng);
      var prev := Output(n, passes - 1, rng);
      SubdivideAtMostOne(prev, rng, DrawsUsed(n, passes - 1), Decay(passes - 1));
    }
  }

  /** The output depends only on the draws it consumes: two streams that agree on them give the same terrain. */
  lemma {:induction false} TerrainDeterministic(n: nat, passes: nat, rng: nat -> real, other: nat -> real)
    requires forall i: nat :: i < DrawsUsed(n, passes) ==> rng(i) == other(i)
    ensures Output(n, passes, rng) == Output(n, passes, other)
  {
    if passes == 0 {
      DrawsReadsPrefix(rng, other, n);
    } else {
      DrawsUsedMonotone(n, passes - 1, passes);
      TerrainDeterministic(n, passes - 1, rng, other);
      var prev := Output(n, passes - 1, rng);
      TerrainLengthIs(n, passes - 1, rng);
      SubdivideReadsPrefix(prev, rng, other, DrawsUsed(n, passes - 1), Decay(passes - 1));
    }
  }

  lemma {:induction false} DrawsReadsPrefix(rng: nat -> real, other: nat -> real, count: nat)
    requires forall i: nat :: i < count ==> rng(i) == other(i)
    ensures Draws(rng, count) == Draws(other, count)
  {
    if count > 0 {
      DrawsReadsPrefix(rng, other, count - 1);
    }
  }

  /**
   * One more pass, given the state a pass starts from: the output so far,
   * the position of the next unused draw and the displacement scale.
   */
  lemma NextPass(n: nat, passes: nat, rng: nat -> real, current: seq<real>, from: nat, decay: real,
                 after: seq<real>, next: nat)
    requires current == Output(n, passes, rng) && from == DrawsUsed(n, passes) && decay == Decay(passes)
    requires after == (if passes == 0 then [] else current) + Subdivide(current, rng, from, decay)
    requires next == from + PassDraws(|current|)
    ensures after == Output(n, passes + 1, rng)
    ensures next == DrawsUsed(n, passes + 1)
    ensures decay * 1.1 == Decay(passes + 1)
  {
    TerrainLengthIs(n, passes, rng);
  }

  /** There is no lower clamp: low enough draws put a midpoint below 0. */
  lemma NoLowerClamp(rng: nat -> real)
    requires rng(0) == 0.0 && rng(1) == 0.0 && rng(2) == 0.0
    ensures Output(2, 1, rng) == [0.0, -0.25, 0.0]
  {
    assert Decay(0) == 0.5;
    assert Draws(rng, 2) == [0.0, 0.0];
    assert [0.0, 0.0][..1] == [0.0];
  }

  /** Three start values, one pass, neutral displacement draws. */
  lemma OnePassExample(rng: nat -> real)
    requires rng(0) == 0.2 && rng(1) == 0.8 && rng(2) == 0.4 && rng(3) == 0.5 && rng(4) == 0.5
    ensures Output(3, 1, rng) == [0.2, 0.5, 0.8, 0.6, 0.4]
  {
    assert Decay(0) == 0.5;
    var start := [0.2, 0.8, 0.4];
    assert Draws(rng, 3) == start;
    assert start[..2] == [0.2, 0.8];
    assert [0.2, 0.8][..1] == [0.2];
    assert Subdivide([0.2, 0.8], rng, 3, 0.5) == [0.2, 0.5, 0.8];
    assert Subdivide(start, rng, 3, 0.5) == [0.2, 0.5, 0.8, 0.6, 0.4];
  }

  /** A single start value is repeated by the second pass: the first pass leaves it alone, the second appends it. */
  lemma SingleStartRepeats(rng: nat -> real)
    ensures DrawsUsed(1, 2) == 1
    ensures Output(1, 2, rng) == [rng(0), rng(0)]
  {
    assert Draws(rng, 1) == [rng(0)];
  }

  // ---------------------------------------------------------------------
  // The generator
  // ---------------------------------------------------------------------

  /** A growable number array, shared by reference. */
  class NumArray {
    var elems: seq<real>

    constructor ()
      ensures elems == []
    {
      elems := [];
    }

    method Push(x: real)
      modifies this
      ensures elems == old(elems) + [x]
    {
      elems := elems + [x];
    }
  }

  /**
   * The callback of `origArr.map` for element `val` at index `j`: the first
   * element is appended as it is; a later one is preceded by its displaced,
   * clamped midpoint with `origArr[j - 1]`, which consumes draw `rng(pos)`.
   * Returns the position of the next unused draw.
   */
  method Visit(origArr: NumArray, mdArr: NumArray, val: real, j: nat, rng: nat -> real, pos: nat, decayFactor: real)
    returns (next: nat)
    requires j < |origArr.elems|
    modifies mdArr
    ensures j == 0 ==> next == pos && mdArr.elems == old(mdArr.elems) + [val]
    ensures j >= 1 ==> next == pos + 1
                       && mdArr.elems == old(mdArr.elems) + [Mid(old(origArr.elems[j - 1]), val, rng(pos), decayFactor), val]
  {
    if j == 0 {
      mdArr.Push(val);
      next := pos;
    } else {
      var midval := (val + origArr.elems[j - 1]) / 2.0 + (rng(pos) - 0.5) * decayFactor;
      if midval > 1.0 {
        midval := 1.0;
      }
      mdArr.Push(midval);
      mdArr.Push(val);
      next := pos + 1;
    }
  }

  /**
   * One pass: `origArr.map` visits every index below the length `origArr`
   * has when the pass begins, appending to `mdArr`. The two may be the same
   * array. Returns the position of the next unused draw.
   */
  method Pass(origArr: NumArray, mdArr: NumArray, rng: nat -> real, pos: nat, decayFactor: real) returns (next: nat)
    modifies mdArr
    ensures mdArr.elems == old(mdArr.elems) + Subdivide(old(origArr.elems), rng, pos, decayFactor)
    ensures next == pos + PassDraws(|old(origArr.elems)|)
  {
    var len := |origArr.elems|;
    ghost var before := origArr.elems;
    ghost var base := mdArr.elems;
    next := pos;
    var j := 0;
    while j < len
      invariant 0 <= j <= len
      invariant len <= |origArr.elems| && origArr.elems[..len] == before
      invariant origArr != mdArr ==> origArr.elems == before
      invariant origArr == mdArr ==> base == before
      invariant next == pos + PassDraws(j)
      invariant mdArr.elems == base + Subdivide(before[..j], rng, pos, decayFactor)
    {
      ghost var current := origArr.elems;
      assert current[..len][j] == current[j];
      if j >= 1 {
        assert current[..len][j - 1] == current[j - 1];
      }
      next := Visit(origArr, mdArr, origArr.elems[j], j, rng, next, decayFactor);
      SubdivideStep(before, rng, pos, decayFactor, j);
      assert origArr.elems[..len] == before by {
        assert origArr.elems == current || origArr.elems[..|current|] == current;
      }
      j := j + 1;
    }
    assert before[..len] == before;
  }

  /**
   * The body of the generator's outer loop, pass number `passes`: the first
   * pass reads the start values and writes the fresh output array, every
   * later one reads and extends the output array.
   */
  method Iteration(origArr: NumArray, mdArr: NumArray, rng: nat -> real, pos: nat, decayFactor: real,
                   ghost n: nat, ghost passes: nat)
    returns (next: nat)
    requires origArr.elems == Output(n, passes, rng) && pos == DrawsUsed(n, passes) && decayFactor == Decay(passes)
    requires passes == 0 ==> origArr != mdArr && mdArr.elems == []
    requires passes > 0 ==> origArr == mdArr
    modifies mdArr
    ensures mdArr.elems == Output(n, passes + 1, rng) && next == DrawsUsed(n, passes + 1)
    ensures decayFactor * 1.1 == Decay(passes + 1)
  {
    ghost var current := origArr.elems;
    next := Pass(origArr, mdArr, rng, pos, decayFactor);
    NextPass(n, passes, rng, current, pos, decayFactor, mdArr.elems, next);
  }

  /** The start values: the first `numStartVals` draws, in the order drawn, in a new array. */
  method StartValues(numStartVals: int, rng: nat -> real) returns (arr: NumArray, pos: nat)
    ensures fresh(arr)
    ensures arr.elems == Draws(rng, Count(numStartVals)) && pos == Count(numStartVals)
  {
    arr := new NumArray();
    pos := 0;
    var i := 0;
    while i < numStartVals
      invariant 0 <= i <= Count(numStartVals)
      invariant pos == i && arr.elems == Draws(rng, i)
    {
      arr.Push(rng(pos));
      pos := pos + 1;
      i := i + 1;
    }
  }

  /**
   * Generates the terrain from `numStartVals` start values and `iterations`
   * passes, drawing from `rng` in order. Returns the output and the number
   * of draws consumed.
   */
  method Midpoint(numStartVals: int, iterations: int, rng: nat -> real) returns (terrain: seq<real>, consumed: nat)
    ensures terrain == Output(Count(numStartVals), Count(iterations), rng)
    ensures consumed == DrawsUsed(Count(numStartVals), Count(iterations))
  {
    ghost var n := Count(numStartVals);
    ghost var k := Count(iterations);
    var arr, pos := StartValues(numStartVals, rng);
    var origArr := arr;
    var mdArr := new NumArray();
    var decayFactor := 0.5;
    var i := 0;
    while i < iterations
      invariant 0 <= i <= k
      invariant origArr.elems == Output(n, i, rng)
      invariant pos == DrawsUsed(n, i)
      invariant decayFactor == Decay(i)
      invariant i == 0 ==> origArr != mdArr && mdArr.elems == []
      invariant i > 0 ==> origArr == mdArr
    {
      pos := Iteration(origArr, mdArr, rng, pos, decayFactor, n, i);
      origArr := mdArr;
      decayFactor := decayFactor * 1.1;
      i := i + 1;
    }
    assert i == k;
    terrain := origArr.elems;
    consumed := pos;
  }
}
