/** The statistics accumulator of src/calculate.rs: one sample folded into
    running minimum, maximum and sum records, field by field, and the fold of
    a whole run's samples. */
module Calculate {
  import opened Request

  /** The three records `calculate_stats` updates in place. */
  datatype Accumulators = Accumulators(min: Stats, max: Stats, sum: Stats)

  function Min(a: nat, b: nat): nat {
    if a <= b then a else b
  }

  /** `calculate_stats`: each timing of `min` drops to the sample's if lower,
      each timing of `max` rises to it if higher, each timing of `sum` grows by
      it. The `length` fields are never touched. */
  function CalculateStats(acc: Accumulators, c: Stats): (r: Accumulators)
    ensures forall p :: Timing(r.min, p) <= Timing(acc.min, p) && Timing(r.min, p) <= Timing(c, p)
    ensures forall p :: Timing(r.min, p) == Timing(acc.min, p) || Timing(r.min, p) == Timing(c, p)
    ensures forall p :: Timing(r.max, p) >= Timing(acc.max, p) && Timing(r.max, p) >= Timing(c, p)
    ensures forall p :: Timing(r.max, p) == Timing(acc.max, p) || Timing(r.max, p) == Timing(c, p)
    ensures forall p :: Timing(r.sum, p) == Timing(acc.sum, p) + Timing(c, p)
    ensures r.min.length == acc.min.length && r.max.length == acc.max.length
    ensures r.sum.length == acc.sum.length
  {
    Accumulators(MinWith(acc.min, c), MaxWith(acc.max, c), SumWith(acc.sum, c))
  }

  /** Each timing of `m` lowered to the sample's when that is smaller. */
  function MinWith(m: Stats, c: Stats): (r: Stats)
    ensures forall p :: Timing(r, p) == Min(Timing(m, p), Timing(c, p))
    ensures r.length == m.length
  {
    Stats(Min(m.connect, c.connect), Min(m.handshake, c.handshake), Min(m.waiting, c.waiting),
      Min(m.writing, c.writing), Min(m.complete, c.complete), Min(m.read, c.read), m.length)
  }

  /** Each timing of `m` raised to the sample's when that is larger. */
  function MaxWith(m: Stats, c: Stats): (r: Stats)
    ensures forall p :: Timing(r, p) == Max(Timing(m, p), Timing(c, p))
    ensures r.length == m.length
  {
    Stats(Max(m.connect, c.connect), Max(m.handshake, c.handshake), Max(m.waiting, c.waiting),
      Max(m.writing, c.writing), Max(m.complete, c.complete), Max(m.read, c.read), m.length)
  }

  /** Each timing of `m` increased by the sample's. */
  function SumWith(m: Stats, c: Stats): (r: Stats)
    ensures forall p :: Timing(r, p) == Timing(m, p) + Timing(c, p)
    ensures r.length == m.length
  {
    Stats(m.connect + c.connect, m.handshake + c.handshake, m.waiting + c.waiting,
      m.writing + c.writing, m.complete + c.complete, m.read + c.read, m.length)
  }

  /** Folding two samples in either order gives the same accumulators. */
  lemma CalculateCommutes(acc: Accumulators, x: Stats, y: Stats)
    ensures CalculateStats(CalculateStats(acc, x), y) == CalculateStats(CalculateStats(acc, y), x)
  {
    MinWithCommutes(acc.min, x, y);
    MaxWithCommutes(acc.max, x, y);
    SumWithCommutes(acc.sum, x, y);
  }

  lemma MinWithCommutes(m: Stats, x: Stats, y: Stats)
    ensures MinWith(MinWith(m, x), y) == MinWith(MinWith(m, y), x)
  {
  }

  lemma MaxWithCommutes(m: Stats, x: Stats, y: Stats)
    ensures MaxWith(MaxWith(m, x), y) == MaxWith(MaxWith(m, y), x)
  {
  }

  lemma SumWithCommutes(m: Stats, x: Stats, y: Stats)
    ensures SumWith(SumWith(m, x), y) == SumWith(SumWith(m, y), x)
  {
  }

  /** The samples folded in order, first to last. */
  function Fold(acc: Accumulators, samples: seq<Stats>): Accumulators
    decreases |samples|
  {
    if |samples| == 0 then acc
    else CalculateStats(Fold(acc, samples[..|samples| - 1]), samples[|samples| - 1])
  }

  /** The sum of one timing over all samples. */
  function SumOf(samples: seq<Stats>, p: Phase): nat
    decreases |samples|
  {
    if |samples| == 0 then 0
    else SumOf(samples[..|samples| - 1], p) + Timing(samples[|samples| - 1], p)
  }

  /** Folding never raises a minimum and never lowers a maximum or a sum,
      and leaves every `length` as it was. */
  lemma {:induction false} FoldMonotone(acc: Accumulators, samples: seq<Stats>, p: Phase)
    ensures Timing(Fold(acc, samples).min, p) <= Timing(acc.min, p)
    ensures Timing(Fold(acc, samples).max, p) >= Timing(acc.max, p)
    ensures Timing(Fold(acc, samples).sum, p) >= Timing(acc.sum, p)
    ensures Fold(acc, samples).min.length == acc.min.length
    ensures Fold(acc, samples).max.length == acc.max.length
    ensures Fold(acc, samples).sum.length == acc.sum.length
    decreases |samples|
  {
    if |samples| > 0 {
      FoldMonotone(acc, samples[..|samples| - 1], p);
    }
  }

  /** After the fold every sample lies between the minimum and the maximum,
      and the sum has grown by exactly the samples' total. */
  lemma FoldBounds(acc: Accumulators, samples: seq<Stats>, p: Phase)
    ensures forall i :: 0 <= i < |samples| ==>
      Timing(Fold(acc, samples).min, p) <= Timing(samples[i], p) <= Timing(Fold(acc, samples).max, p)
    ensures Timing(Fold(acc, samples).sum, p) == Timing(acc.sum, p) + SumOf(samples, p)
  {
    forall i | 0 <= i < |samples|
      ensures Timing(Fold(acc, samples).min, p) <= Timing(samples[i], p) <= Timing(Fold(acc, samples).max, p)
    {
      BoundAt(acc, samples, p, i);
    }
    FoldSum(acc, samples, p);
  }

  /** Sample `i` lies between the folded minimum and maximum. */
  lemma {:induction false} BoundAt(acc: Accumulators, samples: seq<Stats>, p: Phase, i: nat)
    requires i < |samples|
    ensures Timing(Fold(acc, samples).min, p) <= Timing(samples[i], p) <= Timing(Fold(acc, samples).max, p)
    decreases |samples|
  {
    var n := |samples| - 1;
    if i < n {
      var front := samples[..n];
      BoundAt(acc, front, p, i);
      assert front[i] == samples[i];
    }
  }

  lemma {:induction false} FoldSum(acc: Accumulators, samples: seq<Stats>, p: Phase)
    ensures Timing(Fold(acc, samples).sum, p) == Timing(acc.sum, p) + SumOf(samples, p)
    decreases |samples|
  {
    if |samples| > 0 {
      FoldSum(acc, samples[..|samples| - 1], p);
    }
  }

  /** The minimum and maximum are attained: with at least one sample, each is
      either the starting value or some sample's value. */
  lemma FoldAttained(acc: Accumulators, samples: seq<Stats>, p: Phase)
    requires |samples| > 0
    ensures Timing(Fold(acc, samples).min, p) == Timing(acc.min, p)
      || exists i :: 0 <= i < |samples| && Timing(Fold(acc, samples).min, p) == Timing(samples[i], p)
    ensures Timing(Fold(acc, samples).max, p) == Timing(acc.max, p)
      || exists i :: 0 <= i < |samples| && Timing(Fold(acc, samples).max, p) == Timing(samples[i], p)
  {
    var i := MinFrom(acc, samples, p);
    var j := MaxFrom(acc, samples, p);
  }

  /** Where the minimum came from: `-1` for the starting value, else the
      position of a sample with that value. */
  lemma {:induction false} MinFrom(acc: Accumulators, samples: seq<Stats>, p: Phase) returns (i: int)
    ensures -1 <= i < |samples|
    ensures i == -1 ==> Timing(Fold(acc, samples).min, p) == Timing(acc.min, p)
    ensures i >= 0 ==> Timing(Fold(acc, samples).min, p) == Timing(samples[i], p)
    decreases |samples|
  {
    if |samples| == 0 {
      return -1;
    }
    var n := |samples| - 1;
    var front := samples[..n];
    if Timing(Fold(acc, samples).min, p) == Timing(samples[n], p) {
      return n;
    }
    i := MinFrom(acc, front, p);
    if i >= 0 {
      assert front[i] == samples[i];
    }
  }

  /** Where the maximum came from, as for the minimum. */
  lemma {:induction false} MaxFrom(acc: Accumulators, samples: seq<Stats>, p: Phase) returns (i: int)
    ensures -1 <= i < |samples|
    ensures i == -1 ==> Timing(Fold(acc, samples).max, p) == Timing(acc.max, p)
    ensures i >= 0 ==> Timing(Fold(acc, samples).max, p) == Timing(samples[i], p)
    decreases |samples|
  {
    if |samples| == 0 {
      return -1;
    }
    var n := |samples| - 1;
    var front := samples[..n];
    if Timing(Fold(acc, samples).max, p) == Timing(samples[n], p) {
      return n;
    }
    i := MaxFrom(acc, front, p);
    if i >= 0 {
      assert front[i] == samples[i];
    }
  }

  /** Each sample is at least the minimum and at most the maximum, so the sum
      of k samples lies between k times the minimum and k times the maximum. */
  lemma SumBetween(acc: Accumulators, samples: seq<Stats>, p: Phase)
    ensures Timing(Fold(acc, samples).min, p) * |samples| <= SumOf(samples, p)
    ensures SumOf(samples, p) <= Timing(Fold(acc, samples).max, p) * |samples|
  {
    FoldBounds(acc, samples, p);
    SumWithin(samples, p, Timing(Fold(acc, samples).min, p), Timing(Fold(acc, samples).max, p));
  }

  /** Samples that all lie in [lo, hi] add up to between lo and hi times their count. */
  lemma {:induction false} SumWithin(samples: seq<Stats>, p: Phase, lo: nat, hi: nat)
    requires forall i :: 0 <= i < |samples| ==> lo <= Timing(samples[i], p) <= hi
    ensures lo * |samples| <= SumOf(samples, p) <= hi * |samples|
    decreases |samples|
  {
    if |samples| > 0 {
      var n := |samples| - 1;
      var front := samples[..n];
      forall i | 0 <= i < |front| ensures lo <= Timing(front[i], p) <= hi {
        assert front[i] == samples[i];
      }
      SumWithin(front, p, lo, hi);
      assert lo <= Timing(samples[n], p) <= hi;
      SumStep(lo, hi, n, SumOf(front, p), Timing(samples[n], p));
    }
  }

  /** One more term between `lo` and `hi` keeps the sum between the bounds. */
  lemma SumStep(lo: nat, hi: nat, n: nat, sum: nat, t: nat)
    requires lo * n <= sum <= hi * n && lo <= t <= hi
    ensures lo * (n + 1) <= sum + t <= hi * (n + 1)
  {
    assert lo * (n + 1) == lo * n + lo;
    assert hi * (n + 1) == hi * n + hi;
  }

  /** Folding `a` then `b` is folding `a + b`. */
  lemma {:induction false} FoldAppend(acc: Accumulators, a: seq<Stats>, b: seq<Stats>)
    ensures Fold(Fold(acc, a), b) == Fold(acc, a + b)
    decreases |b|
  {
    if |b| == 0 {
      assert a + b == a;
    } else {
      var n := |b| - 1;
      FoldAppend(acc, a, b[..n]);
      LastOfAppend(a, b);
    }
  }

  lemma LastOfAppend<T>(a: seq<T>, b: seq<T>)
    requires |b| > 0
    ensures (a + b)[..|a + b| - 1] == a + b[..|b| - 1]
    ensures (a + b)[|a + b| - 1] == b[|b| - 1]
  {
  }

  /** Folding one more sample is one more `calculate_stats`. */
  lemma FoldSnoc(acc: Accumulators, s: seq<Stats>, x: Stats)
    ensures Fold(acc, s + [x]) == CalculateStats(Fold(acc, s), x)
  {
    Snoc(s, x);
  }

  lemma Snoc<T>(s: seq<T>, x: T)
    ensures (s + [x])[..|s|] == s && (s + [x])[|s|] == x
  {
  }

  /** A sample can be moved to the end of the fold without changing the result. */
  lemma {:induction false} FoldMoveLast(acc: Accumulators, a: seq<Stats>, x: Stats, b: seq<Stats>)
    ensures Fold(acc, a + [x] + b) == Fold(acc, a + b + [x])
    decreases |b|
  {
    if |b| == 0 {
      assert a + [x] + b == a + b + [x];
    } else {
      var n := |b| - 1;
      var y := b[n];
      var b' := b[..n];
      MoveLastShapes(a, x, b);
      FoldSnoc(acc, a + [x] + b', y);
      FoldMoveLast(acc, a, x, b');
      FoldSnoc(acc, a + b', x);
      CalculateCommutes(Fold(acc, a + b'), x, y);
      FoldSnoc(acc, a + b', y);
      FoldSnoc(acc, a + b, x);
    }
  }

  lemma MoveLastShapes<T>(a: seq<T>, x: T, b: seq<T>)
    requires |b| > 0
    ensures a + [x] + b == (a + [x] + b[..|b| - 1]) + [b[|b| - 1]]
    ensures a + b == (a + b[..|b| - 1]) + [b[|b| - 1]]
  {
    assert b == b[..|b| - 1] + [b[|b| - 1]];
  }

  /** Taking out the element at `j` leaves the rest of the multiset. */
  lemma RemoveAt(t: seq<Stats>, j: nat)
    requires j < |t|
    ensures multiset(t) == multiset(t[..j] + t[j + 1..]) + multiset{t[j]}
  {
    assert t == t[..j] + [t[j]] + t[j + 1..];
  }

  /** Order independence: any permutation of the samples gives the same
      minimum, maximum and sum records. */
  lemma {:induction false} FoldPermutation(acc: Accumulators, s: seq<Stats>, t: seq<Stats>)
    requires multiset(s) == multiset(t)
    ensures Fold(acc, s) == Fold(acc, t)
    decreases |s|
  {
    if |s| == 0 {
      assert |t| == |multiset(t)| == 0;
    } else {
      var n := |s| - 1;
      var x := s[n];
      var j := Position(s, t);
      var rest := t[..j] + t[j + 1..];
      RestSame(s, t, j);
      FoldPermutation(acc, s[..n], rest);
      PermutationShapes(s, t, j);
      FoldMoveLast(acc, t[..j], x, t[j + 1..]);
      FoldSnoc(acc, rest, x);
      FoldSnoc(acc, s[..n], x);
    }
  }

  lemma PermutationShapes<T>(s: seq<T>, t: seq<T>, j: nat)
    requires |s| > 0 && j < |t| && t[j] == s[|s| - 1]
    ensures t == t[..j] + [s[|s| - 1]] + t[j + 1..]
    ensures s == s[..|s| - 1] + [s[|s| - 1]]
  {
  }

  /** A position in `t` holding the last element of `s`. */
  lemma Position(s: seq<Stats>, t: seq<Stats>) returns (j: nat)
    requires |s| > 0 && multiset(s) == multiset(t)
    ensures j < |t| && t[j] == s[|s| - 1]
  {
    assert s[|s| - 1] in multiset(s);
    j :| 0 <= j < |t| && t[j] == s[|s| - 1];
  }

  /** Taking the last element out of `s` and the same value out of `t` at `j`
      leaves equal multisets. */
  lemma RestSame(s: seq<Stats>, t: seq<Stats>, j: nat)
    requires |s| > 0 && multiset(s) == multiset(t) && j < |t| && t[j] == s[|s| - 1]
    ensures multiset(s[..|s| - 1]) == multiset(t[..j] + t[j + 1..])
  {
    var n := |s| - 1;
    var x := s[n];
    var rest := t[..j] + t[j + 1..];
    assert s == s[..n] + [x];
    assert multiset(s) == multiset(s[..n]) + multiset{x};
    RemoveAt(t, j);
    forall v ensures multiset(s[..n])[v] == multiset(rest)[v] {
      assert (multiset(s[..n]) + multiset{x})[v] == (multiset(rest) + multiset{x})[v];
    }
  }
}
