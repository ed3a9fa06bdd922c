/** The measurement record shared by the fetcher and the data view, and the
    `filter` / `map` / `reduce` pipeline steps the view applies to it. */
module Measurements {
  import opened Wrappers

  /** Local hour of day, as dayjs's `hour()` returns it. */
  type Hour = h: int | 0 <= h < 24

  /** One hourly noise reading. `timestamp` is in milliseconds since the
      epoch; `change` is the field the view writes on the latest reading. */
  datatype Measurement = Measurement(timestamp: int, mean: real, change: Option<real>)

  /** `s.filter(keep)`: the elements of `s` that satisfy `keep`, in order. */
  function Filter(s: seq<Measurement>, keep: Measurement -> bool): (r: seq<Measurement>)
    ensures |r| <= |s|
    ensures forall m :: m in r <==> m in s && keep(m)
  {
    if |s| == 0 then []
    else
      var rest := Filter(s[..|s| - 1], keep);
      if keep(s[|s| - 1]) then rest + [s[|s| - 1]] else rest
  }

  /** `s.map(m => m.mean)`. */
  function Values(s: seq<Measurement>): (means: seq<real>)
  {
    seq(|s|, i requires 0 <= i < |s| => s[i].mean)
  }

  /** `xs.reduce((acc, v) => acc + v, 0)`: a left fold from zero. */
  function Total(xs: seq<real>): (sum: real)
  {
    if |xs| == 0 then 0.0 else Total(xs[..|xs| - 1]) + xs[|xs| - 1]
  }

  /** `Total(xs) / xs.length`; JavaScript yields NaN (here `None`) for an empty `xs`. */
  function Average(xs: seq<real>): (r: Option<real>)
    ensures r.None? <==> |xs| == 0
    ensures r.Some? ==> r.value * (|xs| as real) == Total(xs)
  {
    if |xs| == 0 then None else Some(Total(xs) / (|xs| as real))
  }

  lemma FilterSnoc(s: seq<Measurement>, x: Measurement, keep: Measurement -> bool)
    ensures Filter(s + [x], keep) == Filter(s, keep) + (if keep(x) then [x] else [])
  {
    assert (s + [x])[..|s|] == s;
  }

  lemma ValuesSnoc(s: seq<Measurement>, x: Measurement)
    ensures Values(s + [x]) == Values(s) + [x.mean]
  {
  }

  /** One step of the fold: appending a value adds it to the sum. */
  lemma TotalSnoc(xs: seq<real>, v: real)
    ensures Total(xs + [v]) == Total(xs) + v
  {
    assert (xs + [v])[..|xs|] == xs;
  }

  lemma TotalValuesSnoc(s: seq<Measurement>, x: Measurement)
    ensures Total(Values(s + [x])) == Total(Values(s)) + x.mean
  {
    ValuesSnoc(s, x);
    TotalSnoc(Values(s), x.mean);
  }

  /** Two sequences of readings that differ at most in `change`. */
  predicate SameReadings(s: seq<Measurement>, t: seq<Measurement>)
  {
    |s| == |t| && forall i :: 0 <= i < |s| ==> s[i].timestamp == t[i].timestamp && s[i].mean == t[i].mean
  }

  /** A filter that looks only at timestamps picks matching readings from
      sequences that agree on timestamps and means. */
  lemma {:induction false} FilterSameReadings(s: seq<Measurement>, t: seq<Measurement>, keep: Measurement -> bool)
    requires SameReadings(s, t)
    requires forall m: Measurement, m': Measurement :: m.timestamp == m'.timestamp ==> keep(m) == keep(m')
    ensures SameReadings(Filter(s, keep), Filter(t, keep))
    ensures Values(Filter(s, keep)) == Values(Filter(t, keep))
  {
    if |s| > 0 {
      var n := |s| - 1;
      assert SameReadings(s[..n], t[..n]);
      FilterSameReadings(s[..n], t[..n], keep);
      assert keep(s[n]) == keep(t[n]);
    }
  }

  /** Filtering preserves order: it distributes over concatenation. */
  lemma {:induction false} FilterConcat(a: seq<Measurement>, b: seq<Measurement>, keep: Measurement -> bool)
    ensures Filter(a + b, keep) == Filter(a, keep) + Filter(b, keep)
  {
    if |b| > 0 {
      var b' := b[..|b| - 1];
      var x := b[|b| - 1];
      assert b == b' + [x];
      assert a + b == (a + b') + [x];
      FilterConcat(a, b', keep);
      FilterSnoc(a + b', x, keep);
      FilterSnoc(b', x, keep);
    } else {
      assert a + b == a;
    }
  }

  /** A filter that every element passes returns its input unchanged. */
  lemma {:induction false} FilterKeepsAll(s: seq<Measurement>, keep: Measurement -> bool)
    requires forall m :: m in s ==> keep(m)
    ensures Filter(s, keep) == s
  {
    if |s| > 0 {
      FilterKeepsAll(s[..|s| - 1], keep);
      assert s == s[..|s| - 1] + [s[|s| - 1]];
    }
  }

  /** A filter that no element passes returns nothing. */
  lemma {:induction false} FilterDropsAll(s: seq<Measurement>, keep: Measurement -> bool)
    requires forall m :: m in s ==> !keep(m)
    ensures Filter(s, keep) == []
  {
    if |s| > 0 {
      FilterDropsAll(s[..|s| - 1], keep);
    }
  }

  /** A sum of `n` copies of `c` is `c * n`. */
  lemma {:induction false} TotalOfConstant(xs: seq<real>, c: real)
    requires forall i :: 0 <= i < |xs| ==> xs[i] == c
    ensures Total(xs) == c * (|xs| as real)
  {
    if |xs| > 0 {
      TotalOfConstant(xs[..|xs| - 1], c);
    }
  }

  /** If every measurement satisfies exactly one of `a`, `b` and `c`, the
      three filtered subsets split the input's count and its sum of means. */
  lemma {:induction false} FilterPartition3(s: seq<Measurement>, a: Measurement -> bool, b: Measurement -> bool, c: Measurement -> bool)
    requires forall m :: a(m) || b(m) || c(m)
    requires forall m :: !(a(m) && b(m)) && !(a(m) && c(m)) && !(b(m) && c(m))
    ensures |Filter(s, a)| + |Filter(s, b)| + |Filter(s, c)| == |s|
    ensures Total(Values(Filter(s, a))) + Total(Values(Filter(s, b))) + Total(Values(Filter(s, c)))
            == Total(Values(s))
  {
    if |s| > 0 {
      var s' := s[..|s| - 1];
      var x := s[|s| - 1];
      assert s == s' + [x];
      FilterPartition3(s', a, b, c);
      FilterSnoc(s', x, a);
      FilterSnoc(s', x, b);
      FilterSnoc(s', x, c);
      TotalValuesSnoc(s', x);
      TotalValuesSnoc(Filter(s', a), x);
      TotalValuesSnoc(Filter(s', b), x);
      TotalValuesSnoc(Filter(s', c), x);
    }
  }
}
