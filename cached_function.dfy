/** The function wrappers of the integration library: a base counter of evaluate() calls,
    and two memoising wrappers that key a cache on the bin round(x/tol). The rounding
    function is a parameter (std::round followed by the cast to int). */
module CachedFunctions {

  /** The bin width both wrappers use when none is given: 1e-7. */
  const DefaultTolerance: real := 0.0000001

  /** The outcome of one cache lookup for a bin, given the value the wrapped function would
      return: the value handed back, the cache afterwards, and whether it was a hit. */
  datatype Lookup = Lookup(value: real, cache: map<int, real>, hit: bool)

  /** A hit returns the stored value and leaves the cache alone; a miss stores and returns
      the freshly computed value. */
  function CacheLookup(cache: map<int, real>, bin: int, computed: real): Lookup {
    if bin in cache then Lookup(cache[bin], cache, true)
    else Lookup(computed, cache[bin := computed], false)
  }

  /** After any lookup of a bin, the next lookup of the same bin hits, whatever the new
      argument's own value would be, returns the first value and changes nothing. */
  lemma SecondLookupHits(cache: map<int, real>, bin: int, computed: real, computed': real)
    ensures var first := CacheLookup(cache, bin, computed);
            var second := CacheLookup(first.cache, bin, computed');
            && second.hit && second.value == first.value && second.cache == first.cache
  {
  }

  /** A lookup only ever adds its own bin, and never changes the value of another bin. */
  lemma LookupFrame(cache: map<int, real>, bin: int, computed: real)
    ensures var l := CacheLookup(cache, bin, computed);
            && l.cache.Keys == cache.Keys + {bin}
            && (forall k :: k in cache && k != bin ==> l.cache[k] == cache[k])
            && (bin in cache ==> l.cache == cache)
  {
  }

  /** CachedFunction: the wrapped function, the bin width, the cache, and its own count of
      real evaluations; the base class's evaluate() counter is `count`. */
  class CachedFunction {
    const func: real -> real
    const tol: real
    const round: real -> int
    const usesCache: bool
    var count: nat
    var cache: map<int, real>
    var evaluationCount: int
    /** For each cached bin, the argument whose value was stored. */
    ghost var firstArg: map<int, real>

    /** Every cached value is the wrapped function at an argument that falls in that bin. */
    ghost predicate Valid()
      reads this
    {
      && tol != 0.0
      && cache.Keys == firstArg.Keys
      && (forall k :: k in cache ==> cache[k] == func(firstArg[k]) && round(firstArg[k] / tol) == k)
    }

    function Bin(x: real): int
      requires tol != 0.0
      reads this
    {
      round(x / tol)
    }

    /** The constructor: empty cache, both counters 0, caching flag left false. The tolerance
        defaults to 1e-7. */
    constructor (func: real -> real, round: real -> int, tolerance: real := DefaultTolerance)
      requires tolerance != 0.0
      ensures Valid() && this.func == func && this.round == round && tol == tolerance
      ensures cache == map[] && evaluationCount == 0 && count == 0 && !usesCache
    {
      this.func, this.round, tol := func, round, tolerance;
      usesCache := false;
      count, cache, evaluationCount := 0, map[], 0;
      firstArg := map[];
    }

    /** operator(): a hit returns the cached value with no evaluation; a miss evaluates,
        stores under the bin and counts one evaluation. Either way the value returned is the
        one computed for the first argument that fell in this bin. */
    method Call(x: real) returns (r: real)
      requires Valid()
      modifies this
      ensures Valid()
      ensures var l := CacheLookup(old(cache), Bin(x), func(x));
              && r == l.value && cache == l.cache
              && evaluationCount == old(evaluationCount) + (if l.hit then 0 else 1)
      ensures r == func(firstArg[Bin(x)])
      ensures Bin(x) in old(cache) ==> firstArg == old(firstArg)
      ensures Bin(x) !in old(cache) ==> firstArg == old(firstArg)[Bin(x) := x]
      ensures count == old(count)
    {
      var bin := round(x / tol);
      if bin in cache {
        return cache[bin];
      }
      var result := func(x);
      cache := cache[bin := result];
      firstArg := firstArg[bin := x];
      evaluationCount := evaluationCount + 1;
      r := result;
    }

    /** Function::evaluate: one more on the base counter, then operator(). */
    method Evaluate(x: real) returns (r: real)
      requires Valid()
      modifies this
      ensures Valid()
      ensures var l := CacheLookup(old(cache), Bin(x), func(x));
              && r == l.value && cache == l.cache
              && evaluationCount == old(evaluationCount) + (if l.hit then 0 else 1)
      ensures count == old(count) + 1
    {
      count := count + 1;
      r := Call(x);
    }

    /** resetCounter: zeroes the base counter only. */
    method ResetCounter()
      modifies this
      ensures count == 0
      ensures cache == old(cache) && evaluationCount == old(evaluationCount) && firstArg == old(firstArg)
    {
      count := 0;
    }

    /** resetEvaluations: zeroes the evaluation count, keeps the cache. */
    method ResetEvaluations()
      modifies this
      ensures evaluationCount == 0
      ensures cache == old(cache) && count == old(count) && firstArg == old(firstArg)
    {
      evaluationCount := 0;
    }

    /** clearCache: empties the cache, keeps both counters. */
    method ClearCache()
      requires Valid()
      modifies this
      ensures Valid() && cache == map[]
      ensures evaluationCount == old(evaluationCount) && count == old(count)
    {
      cache := map[];
      firstArg := map[];
    }
  }

  /** FastCachedFunction: the same binning cache, but a miss increments the base counter
      itself, and the caching flag is set. */
  class FastCachedFunction {
    const func: real -> real
    const tol: real
    const round: real -> int
    const usesCache: bool
    var count: nat
    var cache: map<int, real>
    ghost var firstArg: map<int, real>

    ghost predicate Valid()
      reads this
    {
      && tol != 0.0
      && cache.Keys == firstArg.Keys
      && (forall k :: k in cache ==> cache[k] == func(firstArg[k]) && round(firstArg[k] / tol) == k)
    }

    /** getBin: round(x / tol). */
    function Bin(x: real): int
      requires tol != 0.0
      reads this
    {
      round(x / tol)
    }

    constructor (func: real -> real, round: real -> int, tolerance: real := DefaultTolerance)
      requires tolerance != 0.0
      ensures Valid() && this.func == func && this.round == round && tol == tolerance
      ensures cache == map[] && count == 0 && usesCache
    {
      this.func, this.round, tol := func, round, tolerance;
      usesCache := true;
      count, cache := 0, map[];
      firstArg := map[];
    }

    /** operator(): a hit returns the cached value; a miss evaluates, stores it and adds one
        to the base counter. */
    method Call(x: real) returns (r: real)
      requires Valid()
      modifies this
      ensures Valid()
      ensures var l := CacheLookup(old(cache), Bin(x), func(x));
              && r == l.value && cache == l.cache
              && count == old(count) + (if l.hit then 0 else 1)
      ensures r == func(firstArg[Bin(x)])
    {
      var bin := Bin(x);
      if bin in cache {
        return cache[bin];
      }
      var result := func(x);
      cache := cache[bin := result];
      firstArg := firstArg[bin := x];
      count := count + 1;
      r := result;
    }

    /** Function::evaluate: the base counter goes up by one, and by one more on a miss. */
    method Evaluate(x: real) returns (r: real)
      requires Valid()
      modifies this
      ensures Valid()
      ensures var l := CacheLookup(old(cache), Bin(x), func(x));
              && r == l.value && cache == l.cache
              && count == old(count) + (if l.hit then 1 else 2)
    {
      count := count + 1;
      r := Call(x);
    }

    /** clearCache: empties the cache, keeps the counter. */
    method ClearCache()
      requires Valid()
      modifies this
      ensures Valid() && cache == map[] && count == old(count)
    {
      cache := map[];
      firstArg := map[];
    }
  }
}
