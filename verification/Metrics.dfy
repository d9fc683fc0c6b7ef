/**
 The statistics of the task-time benchmark: the interpolated percentile, over reals, and
 the seeded shuffle that orders the runs.
 */
module Metrics {

  // ---- Sorting ----

  function Insert(x: real, s: seq<real>): (r: seq<real>)
    ensures |r| == |s| + 1
  {
    if s == [] || x <= s[0] then [x] + s else [s[0]] + Insert(x, s[1..])
  }

  /** The values in ascending order. */
  function Sort(values: seq<real>): (r: seq<real>)
    ensures |r| == |values|
  {
    if values == [] then [] else Insert(values[0], Sort(values[1..]))
  }

  ghost predicate Sorted(s: seq<real>) {
    forall i, j :: 0 <= i < j < |s| ==> s[i] <= s[j]
  }

  lemma {:induction false} InsertAbove(x: real, s: seq<real>, least: real)
    requires least <= x && forall i :: 0 <= i < |s| ==> least <= s[i]
    ensures forall i :: 0 <= i < |Insert(x, s)| ==> least <= Insert(x, s)[i]
  {
    if s != [] && x > s[0] { InsertAbove(x, s[1..], least); }
  }

  lemma {:induction false} InsertKeeps(x: real, s: seq<real>)
    ensures multiset(Insert(x, s)) == multiset{x} + multiset(s)
  {
    if s != [] {
      assert s == [s[0]] + s[1..];
      if x > s[0] { InsertKeeps(x, s[1..]); }
    }
  }

  lemma {:induction false} InsertSorts(x: real, s: seq<real>)
    requires Sorted(s)
    ensures Sorted(Insert(x, s))
  {
    if s != [] && x > s[0] {
      InsertSorts(x, s[1..]);
      InsertAbove(x, s[1..], s[0]);
    }
  }

  lemma {:induction false} SortSorts(values: seq<real>)
    ensures Sorted(Sort(values)) && multiset(Sort(values)) == multiset(values)
  {
    if values != [] {
      SortSorts(values[1..]);
      InsertSorts(values[0], Sort(values[1..]));
      InsertKeeps(values[0], Sort(values[1..]));
      assert values == [values[0]] + values[1..];
    }
  }

  lemma {:induction false} FirstIsLeast(s: seq<real>, x: real)
    requires Sorted(s) && x in multiset(s)
    ensures s != [] && s[0] <= x
  {
    var i :| 0 <= i < |s| && s[i] == x;
  }

  lemma {:induction false} RestKeeps(s: seq<real>)
    requires s != []
    ensures multiset(s) == multiset{s[0]} + multiset(s[1..])
  {
    assert s == [s[0]] + s[1..];
  }

  /** There is one ascending order of the same values. */
  lemma {:induction false} SortedUnique(s: seq<real>, t: seq<real>)
    requires Sorted(s) && Sorted(t) && multiset(s) == multiset(t)
    ensures s == t
  {
    assert |s| == |multiset(s)| && |t| == |multiset(t)|;
    if s != [] {
      assert s[0] in multiset(s) && t[0] in multiset(t);
      FirstIsLeast(s, t[0]);
      FirstIsLeast(t, s[0]);
      RestKeeps(s);
      RestKeeps(t);
      SameRest(multiset{s[0]}, multiset(s[1..]), multiset(t[1..]));
      SortedUnique(s[1..], t[1..]);
      assert s == [s[0]] + s[1..] && t == [t[0]] + t[1..];
    }
  }

  lemma {:induction false} SameRest(a: multiset<real>, b: multiset<real>, c: multiset<real>)
    requires a + b == a + c
    ensures b == c
  {
    assert b == (a + b) - a && c == (a + c) - a;
  }

  // ---- The percentile ----

  function Ceiling(r: real): int {
    if r.Floor as real == r then r.Floor else r.Floor + 1
  }

  /** An element, or what the source falls back to past the ends. */
  function ElementOr(s: seq<real>, k: int, fallback: real): real {
    if 0 <= k < |s| then s[k] else fallback
  }

  function Mix(low: real, high: real, t: real): real {
    low + (high - low) * t
  }

  function Rank(n: int, p: real): real {
    p / 100.0 * (n - 1) as real
  }

  /** What the source reads at a position, which may lie past the ends. */
  function ReadAt(s: seq<real>, r: real): real {
    var low := ElementOr(s, r.Floor, 0.0);
    Mix(low, ElementOr(s, Ceiling(r), low), r - r.Floor as real)
  }

  function Percentile(values: seq<real>, p: real): real {
    if values == [] then 0.0
    else
      var sorted := Sort(values);
      ReadAt(sorted, Rank(|sorted|, p))
  }

  /** Reading a sorted sequence at a fractional position. */
  function Interpolate(s: seq<real>, r: real): real
    requires s != [] && 0.0 <= r <= (|s| - 1) as real
  {
    var k := r.Floor;
    if r == k as real then s[k] else Mix(s[k], s[k + 1], r - k as real)
  }

  lemma {:induction false} Scaled(d: real, x: real, y: real)
    requires 0.0 <= d && x <= y
    ensures d * x <= d * y
  {
  }

  lemma {:induction false} MixMonotone(low: real, high: real, t: real, u: real)
    requires low <= high && t <= u
    ensures Mix(low, high, t) <= Mix(low, high, u) && Mix(low, high, 0.0) == low && Mix(low, high, 1.0) == high
  {
    Scaled(high - low, t, u);
  }

  lemma {:induction false} InterpolateBetween(s: seq<real>, r: real)
    requires s != [] && 0.0 <= r <= (|s| - 1) as real && Sorted(s)
    ensures var k := r.Floor; s[k] <= Interpolate(s, r) && (k + 1 < |s| ==> Interpolate(s, r) <= s[k + 1])
  {
    var k := r.Floor;
    if r != k as real {
      MixMonotone(s[k], s[k + 1], 0.0, r - k as real);
      MixMonotone(s[k], s[k + 1], r - k as real, 1.0);
    }
  }

  lemma {:induction false} InterpolateMonotone(s: seq<real>, r: real, t: real)
    requires s != [] && Sorted(s) && 0.0 <= r <= t <= (|s| - 1) as real
    ensures Interpolate(s, r) <= Interpolate(s, t)
  {
    InterpolateBetween(s, r);
    InterpolateBetween(s, t);
    var k := r.Floor;
    if k == t.Floor {
      if t != k as real { MixMonotone(s[k], s[k + 1], r - k as real, t - k as real); }
    } else {
      assert s[k + 1] <= s[t.Floor];
    }
  }

  lemma {:induction false} RankMonotone(n: int, p: real, q: real)
    requires n > 0 && p <= q
    ensures Rank(n, p) <= Rank(n, q)
  {
    Scaled((n - 1) as real, p / 100.0, q / 100.0);
  }

  lemma {:induction false} RankEnds(n: int)
    ensures Rank(n, 0.0) == 0.0 && Rank(n, 100.0) == (n - 1) as real
  {
  }

  lemma {:induction false} PercentileInterpolates(values: seq<real>, p: real)
    requires values != [] && 0.0 <= p <= 100.0
    ensures 0.0 <= Rank(|values|, p) <= (|values| - 1) as real
    ensures Percentile(values, p) == Interpolate(Sort(values), Rank(|values|, p))
  {
    RankEnds(|values|);
    RankMonotone(|values|, 0.0, p);
    RankMonotone(|values|, p, 100.0);
    ReadsSorted(Sort(values), Rank(|values|, p));
  }

  lemma {:induction false} ReadsSorted(s: seq<real>, r: real)
    requires s != [] && 0.0 <= r <= (|s| - 1) as real
    ensures ReadAt(s, r) == Interpolate(s, r)
  {
    if r == r.Floor as real { MixMonotone(s[r.Floor], s[r.Floor], 0.0, 0.0); }
  }

  /** Ascending with the same values: there is only one such list. */
  ghost predicate Ascending(values: seq<real>, s: seq<real>) {
    Sorted(s) && multiset(s) == multiset(values)
  }

  lemma {:induction false} MixWeighs(low: real, high: real, t: real)
    ensures Mix(low, high, t) == low * (1.0 - t) + high * t
    ensures Mix(low, high, 1.0) == high && Mix(low, high, 0.0) == low
  {
  }

  lemma {:induction false} InterpolateWeighs(s: seq<real>, r: real, k: nat)
    requires k + 1 < |s| && k as real <= r <= (k + 1) as real
    ensures Interpolate(s, r) == s[k] * (1.0 - (r - k as real)) + s[k + 1] * (r - k as real)
  {
    MixWeighs(s[k], s[k + 1], r - k as real);
    if r == (k + 1) as real {
      assert r.Floor == k + 1;
    } else {
      assert r.Floor == k;
    }
  }

  lemma {:induction false} PercentileOfAscending(values: seq<real>, p: real, s: seq<real>, r: real)
    requires 0.0 <= p <= 100.0 && Ascending(values, s) && s != [] && r == Rank(|s|, p)
    ensures 0.0 <= r <= (|s| - 1) as real && Percentile(values, p) == Interpolate(s, r)
  {
    assert |multiset(s)| == |s| && |multiset(values)| == |values|;
    SortSorts(values);
    SortedUnique(Sort(values), s);
    PercentileInterpolates(values, p);
  }

  /**
   The percentile stands p hundredths of the way through the values in ascending order: between
   two of them each counts by how near it is.
   */
  lemma {:induction false} WeighsNeighbours(values: seq<real>, p: real, s: seq<real>, r: real, k: nat)
    requires 0.0 <= p <= 100.0 && Ascending(values, s) && k + 1 < |s|
    requires r == p / 100.0 * (|s| - 1) as real && k as real <= r <= (k + 1) as real
    ensures Percentile(values, p) == s[k] * (1.0 - (r - k as real)) + s[k + 1] * (r - k as real)
  {
    assert r == Rank(|s|, p);
    PercentileOfAscending(values, p, s, r);
    InterpolateWeighs(s, r, k);
  }

  lemma {:induction false} PercentileReads(values: seq<real>, p: real, s: seq<real>)
    requires Ascending(values, s) && s != []
    ensures Percentile(values, p) == ReadAt(s, Rank(|s|, p))
  {
    assert |multiset(s)| == |s| && |multiset(values)| == |values|;
    SortSorts(values);
    SortedUnique(Sort(values), s);
  }

  lemma {:induction false} ReadsPastTheEnds(s: seq<real>, r: real)
    requires s != []
    ensures (|s| - 1) as real <= r < |s| as real ==> ReadAt(s, r) == s[|s| - 1]
    ensures -1.0 < r < 0.0 ==> ReadAt(s, r) == s[0] * (1.0 + r)
    ensures r <= -1.0 || |s| as real <= r ==> ReadAt(s, r) == 0.0
  {
    var k := r.Floor;
    var low, high := ElementOr(s, k, 0.0), ElementOr(s, Ceiling(r), ElementOr(s, k, 0.0));
    MixWeighs(low, high, r - k as real);
    if -1.0 < r < 0.0 {
      assert k == -1 && Ceiling(r) == 0;
    } else if r <= -1.0 || |s| as real <= r {
      assert low == 0.0 && high == 0.0;
    } else if (|s| - 1) as real <= r {
      assert k == |s| - 1;
    }
  }

  /**
   Past the ends, for every other p: above the last value it stays there until one whole place
   beyond, below the first it fades to zero over one place, and further out it is zero.
   */
  lemma {:induction false} PastTheEnds(values: seq<real>, p: real, s: seq<real>, r: real)
    requires Ascending(values, s) && s != [] && r == p / 100.0 * (|s| - 1) as real
    ensures (|s| - 1) as real <= r < |s| as real ==> Percentile(values, p) == s[|s| - 1]
    ensures -1.0 < r < 0.0 ==> Percentile(values, p) == s[0] * (1.0 + r)
    ensures r <= -1.0 || |s| as real <= r ==> Percentile(values, p) == 0.0
  {
    PercentileReads(values, p, s);
    assert r == Rank(|s|, p);
    ReadsPastTheEnds(s, r);
  }

  /** No values have no percentile but zero. */
  lemma {:induction false} EmptyIsZero(p: real)
    ensures Percentile([], p) == 0.0
  {
  }

  /** Only the values count, not their order. */
  lemma {:induction false} PermutationInvariant(a: seq<real>, b: seq<real>, p: real)
    requires multiset(a) == multiset(b)
    ensures Percentile(a, p) == Percentile(b, p)
  {
    SortSorts(a);
    SortSorts(b);
    SortedUnique(Sort(a), Sort(b));
  }

  /** A higher percentile is never smaller. */
  lemma {:induction false} MonotoneInP(values: seq<real>, p: real, q: real)
    requires 0.0 <= p <= q <= 100.0
    ensures Percentile(values, p) <= Percentile(values, q)
  {
    if values != [] {
      SortSorts(values);
      PercentileInterpolates(values, p);
      PercentileInterpolates(values, q);
      RankMonotone(|values|, p, q);
      InterpolateMonotone(Sort(values), Rank(|values|, p), Rank(|values|, q));
    }
  }

  ghost predicate IsMinimum(values: seq<real>, m: real) {
    m in values && forall i :: 0 <= i < |values| ==> m <= values[i]
  }

  ghost predicate IsMaximum(values: seq<real>, m: real) {
    m in values && forall i :: 0 <= i < |values| ==> values[i] <= m
  }

  /** The 0th percentile is the minimum and the 100th the maximum. */
  lemma {:induction false} EndsAreExtremes(values: seq<real>)
    requires values != []
    ensures IsMinimum(values, Percentile(values, 0.0)) && IsMaximum(values, Percentile(values, 100.0))
  {
    SortSorts(values);
    var s := Sort(values);
    PercentileInterpolates(values, 0.0);
    PercentileInterpolates(values, 100.0);
    RankEnds(|values|);
    assert s[0] in multiset(values) && s[|s| - 1] in multiset(values);
    forall i | 0 <= i < |values| ensures s[0] <= values[i] <= s[|s| - 1] {
      assert values[i] in multiset(s);
    }
  }

  /** Every percentile lies between the minimum and the maximum. */
  lemma {:induction false} BetweenExtremes(values: seq<real>, p: real, least: real, greatest: real)
    requires 0.0 <= p <= 100.0 && IsMinimum(values, least) && IsMaximum(values, greatest)
    ensures least <= Percentile(values, p) <= greatest
  {
    EndsAreExtremes(values);
    MonotoneInP(values, 0.0, p);
    MonotoneInP(values, p, 100.0);
  }

  // ---- The shuffle ----

  const WORD := 0x1_0000_0000

  function NextState(state: nat): (r: nat)
    ensures r < WORD
  {
    (1664525 * state + 1013904223) % WORD
  }

  /** floor(state / 2^32 * (index + 1)), in range because the quotient is below one. */
  function SwapIndex(state: nat, index: nat): (j: nat)
    requires state < WORD
    ensures j <= index
  {
    Fraction(state, index);
    state * (index + 1) / WORD
  }

  lemma {:induction false} Fraction(state: nat, index: nat)
    requires state < WORD
    ensures 0 <= state * (index + 1) / WORD <= index
  {
    assert state * (index + 1) <= (WORD - 1) * (index + 1);
    assert state * (index + 1) < WORD * (index + 1);
  }

  function Swap<T>(s: seq<T>, i: nat, j: nat): (r: seq<T>)
    requires i < |s| && j < |s|
    ensures |r| == |s|
  {
    s[i := s[j]][j := s[i]]
  }

  /** The swaps from `index` down to 1. */
  function SwapDown<T>(s: seq<T>, index: nat, state: nat): (r: seq<T>)
    requires index == 0 || index < |s|
    ensures |r| == |s|
    decreases index
  {
    if index == 0 then s
    else SwapDown(Swap(s, index, SwapIndex(NextState(state), index)), index - 1, NextState(state))
  }

  function Shuffled<T>(s: seq<T>, seed: int): (r: seq<T>)
    ensures |r| == |s|
  {
    if s == [] then s else SwapDown(s, |s| - 1, seed % WORD)
  }

  method ShuffleInPlace<T>(items: array<T>, seed: int)
    modifies items
    ensures items[..] == Shuffled(old(items[..]), seed)
  {
    var state: nat := seed % WORD;
    if items.Length == 0 { return; }
    var index := items.Length - 1;
    while index > 0
      invariant 0 <= index < items.Length
      invariant SwapDown(items[..], index, state) == Shuffled(old(items[..]), seed)
    {
      state := NextState(state);
      var swapIndex := SwapIndex(state, index);
      ghost var before := items[..];
      items[index], items[swapIndex] := items[swapIndex], items[index];
      assert items[..] == Swap(before, index, swapIndex);
      index := index - 1;
    }
  }

  /** Each place `i` of the result holds the item that stood at `places[i]`. */
  ghost predicate Arranges<T(!new)>(base: seq<T>, places: seq<nat>, s: seq<T>) {
    |s| == |places| && forall i :: 0 <= i < |s| ==> places[i] < |base| && s[i] == base[places[i]]
  }

  lemma {:induction false} SwapDownArranges<T(!new)>(base: seq<T>, places: seq<nat>, s: seq<T>, index: nat, state: nat)
    requires Arranges(base, places, s) && (index == 0 || index < |s|)
    ensures Arranges(base, SwapDown(places, index, state), SwapDown(s, index, state))
    decreases index
  {
    if index > 0 {
      var j := SwapIndex(NextState(state), index);
      SwapDownArranges(base, Swap(places, index, j), Swap(s, index, j), index - 1, NextState(state));
    }
  }

  lemma {:induction false} SwapMultiset<T>(s: seq<T>, i: nat, j: nat)
    requires i < |s| && j < |s|
    ensures multiset(Swap(s, i, j)) == multiset(s)
  {
  }

  lemma {:induction false} SwapDownMultiset<T>(s: seq<T>, index: nat, state: nat)
    requires index == 0 || index < |s|
    ensures multiset(SwapDown(s, index, state)) == multiset(s)
    decreases index
  {
    if index > 0 {
      var j := SwapIndex(NextState(state), index);
      SwapMultiset(s, index, j);
      SwapDownMultiset(Swap(s, index, j), index - 1, NextState(state));
    }
  }

  /** The generator is linear modulo 2^32, and its state divides the places evenly. */
  lemma {:induction false} DrawsEvenly(state: nat, index: nat)
    requires state < WORD
    ensures var j := SwapIndex(state, index); j * WORD <= state * (index + 1) < (j + 1) * WORD
    ensures exists turns: int :: NextState(state) == 1664525 * state + 1013904223 - turns * 0x1_0000_0000
  {
    var turns := (1664525 * state + 1013904223) / WORD;
    assert NextState(state) == 1664525 * state + 1013904223 - turns * 0x1_0000_0000;
  }

  lemma {:induction false} SwapDownPrefix<T>(s: seq<T>, index: nat, state: nat, n: nat)
    requires index < n <= |s|
    ensures SwapDown(s, index, state) == SwapDown(s[..n], index, state) + s[n..]
    decreases index
  {
    if index > 0 {
      var j := SwapIndex(NextState(state), index);
      assert Swap(s, index, j)[..n] == Swap(s[..n], index, j) && Swap(s, index, j)[n..] == s[n..];
      SwapDownPrefix(Swap(s, index, j), index - 1, NextState(state), n);
    }
  }

  /**
   The last place gets an item drawn from all of them, the last item takes its place, and the
   others are shuffled the same way.
   */
  lemma {:induction false} DrawsOneByOne<T>(s: seq<T>, state: nat)
    requires |s| > 1
    ensures var n := |s| - 1;
            var next := NextState(state);
            var j := SwapIndex(next, n);
            var rest := if j < n then s[..n][j := s[n]] else s[..n];
            SwapDown(s, n, state) == SwapDown(rest, n - 1, next) + [s[j]]
  {
    var n := |s| - 1;
    var j := SwapIndex(NextState(state), n);
    var swapped := Swap(s, n, j);
    SwapDownPrefix(swapped, n - 1, NextState(state), n);
    assert swapped[n..] == [s[j]];
    assert swapped[..n] == if j < n then s[..n][j := s[n]] else s[..n];
  }

  /** The shuffle starts from the seed modulo 2^32. */
  lemma {:induction false} StartsFromSeed<T>(s: seq<T>, seed: int, state: nat)
    requires s != [] && state < WORD && exists turns: int :: seed == state + turns * 0x1_0000_0000
    ensures Shuffled(s, seed) == SwapDown(s, |s| - 1, state)
  {
    var turns: int :| seed == state + turns * 0x1_0000_0000;
    assert seed % WORD == state;
  }

  function Places(n: nat): (r: seq<nat>)
    ensures |r| == n && forall i :: 0 <= i < n ==> r[i] == i
  {
    if n == 0 then [] else Places(n - 1) + [n - 1]
  }

  /**
   The shuffle is a permutation, and which one depends on the length and the seed alone: the
   shuffled places tell where every item went, whatever the items are.
   */
  lemma {:induction false} ShuffleIsPermutation<T(!new)>(s: seq<T>, seed: int)
    ensures multiset(Shuffled(s, seed)) == multiset(s)
    ensures multiset(Shuffled(Places(|s|), seed)) == multiset(Places(|s|))
    ensures Arranges(s, Shuffled(Places(|s|), seed), Shuffled(s, seed))
  {
    if s != [] {
      SwapDownMultiset(s, |s| - 1, seed % WORD);
      SwapDownMultiset(Places(|s|), |s| - 1, seed % WORD);
      SwapDownArranges(s, Places(|s|), s, |s| - 1, seed % WORD);
    }
  }
}
