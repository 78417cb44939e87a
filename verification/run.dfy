/** The benchmark run of `main` (src/main.rs) as a pure fold: accumulator
    set-up, port choice, the waves of requests and their collection, and
    the averages. The surrounding steps from parsed arguments to the report
    are in `Pipeline`. What each request did on the network is an input:
    for wave `w` and slot `j` a function gives the transport's outcome. */
module Run {
  import opened Results
  import opened Request
  import opened Calculate
  import opened Arith

  // ---------------------------------------------------------------------
  // Start of the run
  // ---------------------------------------------------------------------

  /** `u128::max_value()` and, on a 64-bit target, `usize::max_value()`. */
  const U128Max: nat := 0xFFFF_FFFF_FFFF_FFFF_FFFF_FFFF_FFFF_FFFF
  const UsizeMax: nat := 0xFFFF_FFFF_FFFF_FFFF

  /** A record with one value in all six timings. */
  function Uniform(t: nat, length: nat): (s: Stats)
    ensures forall p :: Timing(s, p) == t
    ensures s.length == length
  {
    Stats(connect := t, handshake := t, waiting := t, writing := t, read := t, complete := t, length := length)
  }

  /** min starts at the largest value, max and the running sum at zero. */
  const InitialAccumulators: Accumulators :=
    Accumulators(Uniform(U128Max, UsizeMax), Uniform(0, 0), Uniform(0, 0))

  /** A timing a `u128` can hold. */
  predicate Representable(s: Stats) {
    forall p :: Timing(s, p) <= U128Max
  }

  /** The sentinels are neutral: after the first sample, min, max and sum all
      equal that sample's timings. */
  lemma FirstSampleSetsAll(x: Stats)
    requires Representable(x)
    ensures forall p :: Timing(CalculateStats(InitialAccumulators, x).min, p) == Timing(x, p)
    ensures forall p :: Timing(CalculateStats(InitialAccumulators, x).max, p) == Timing(x, p)
    ensures forall p :: Timing(CalculateStats(InitialAccumulators, x).sum, p) == Timing(x, p)
  {
    var r := CalculateStats(InitialAccumulators, x);
    forall p ensures Timing(r.min, p) == Timing(x, p) && Timing(r.max, p) == Timing(x, p) {
      assert Timing(x, p) <= U128Max;
    }
  }

  /** From the sentinels, the min and max of a non-empty run are values that
      some sample actually had, and the sum is the plain sum. */
  lemma InitialFoldAttained(samples: seq<Stats>, p: Phase)
    requires |samples| > 0
    requires forall i :: 0 <= i < |samples| ==> Representable(samples[i])
    ensures exists i :: 0 <= i < |samples| && Timing(Fold(InitialAccumulators, samples).min, p) == Timing(samples[i], p)
    ensures exists i :: 0 <= i < |samples| && Timing(Fold(InitialAccumulators, samples).max, p) == Timing(samples[i], p)
    ensures Timing(Fold(InitialAccumulators, samples).sum, p) == SumOf(samples, p)
  {
    var f := Fold(InitialAccumulators, samples);
    FoldAttained(InitialAccumulators, samples, p);
    FoldBounds(InitialAccumulators, samples, p);
    assert Timing(f.min, p) <= Timing(samples[0], p) <= Timing(f.max, p);
    assert Representable(samples[0]);
    if Timing(f.min, p) == U128Max {
      assert Timing(f.min, p) == Timing(samples[0], p);
    }
    if Timing(f.max, p) == 0 {
      assert Timing(f.max, p) == Timing(samples[0], p);
    }
  }

  // ---------------------------------------------------------------------
  // Port
  // ---------------------------------------------------------------------

  const PortMessage: string := "Error while creating ip"

  /** The port connected to: the URI's own port, else the scheme's default. */
  function ResolvePort(uriPort: Option<nat>, scheme: string): (r: Result<nat>)
    ensures uriPort.Some? ==> r == Ok(uriPort.value)
    ensures uriPort.None? && scheme == "https" ==> r == Ok(443)
    ensures uriPort.None? && scheme == "http" ==> r == Ok(80)
    ensures r.Err? <==> uriPort.None? && scheme != "https" && scheme != "http"
    ensures r.Err? ==> r.msg == PortMessage
  {
    match uriPort
    case Some(port) => Ok(port)
    case None =>
      if scheme == "https" then Ok(443)
      else if scheme == "http" then Ok(80)
      else Err(PortMessage)
  }

  // ---------------------------------------------------------------------
  // Waves
  // ---------------------------------------------------------------------

  /** `try_join_all`: all the values in order, or an error one of the
      requests gave. The model picks the first in launch order; the real
      future reports whichever failure it polls first. */
  function TryJoinAll(results: seq<Result<Stats>>): (r: Result<seq<Stats>>)
    ensures r.Ok? <==> forall i :: 0 <= i < |results| ==> results[i].Ok?
    ensures r.Ok? ==> |r.value| == |results|
    ensures r.Ok? ==> forall i :: 0 <= i < |results| ==> r.value[i] == results[i].value
    ensures r.Err? ==> exists i :: 0 <= i < |results| && results[i] == Err(r.msg)
    decreases |results|
  {
    if |results| == 0 then Ok([])
    else
      match results[0]
      case Err(e) => Err(e)
      case Ok(s) =>
        match TryJoinAll(results[1..])
        case Err(e) => Err(e)
        case Ok(rest) => Ok([s] + rest)
  }

  /** One wave: slots `1..concurrency`, that is `concurrency - 1` requests. */
  function Wave(exec: (nat, nat) -> Result<Stats>, w: nat, c: nat): (results: seq<Result<Stats>>)
    requires c >= 1
    ensures |results| == c - 1
    ensures forall j :: 0 <= j < c - 1 ==> results[j] == exec(w, j + 1)
  {
    seq(c - 1, j requires 0 <= j < c - 1 => exec(w, j + 1))
  }

  /** Every request of the first `n` waves, in launch order. */
  function AllResults(exec: (nat, nat) -> Result<Stats>, c: nat, n: nat): (rs: seq<Result<Stats>>)
    requires c >= 1
    ensures |rs| == n * (c - 1)
  {
    if n == 0 then [] else AllResults(exec, c, n - 1) + Wave(exec, n - 1, c)
  }

  predicate AllOk(rs: seq<Result<Stats>>) {
    forall i :: 0 <= i < |rs| ==> rs[i].Ok?
  }

  function Values(rs: seq<Result<Stats>>): (vs: seq<Stats>)
    requires AllOk(rs)
    ensures |vs| == |rs|
  {
    seq(|rs|, i requires 0 <= i < |rs| && AllOk(rs) => rs[i].value)
  }

  /** Request `j` of wave `w` sits at position `w * (c - 1) + (j - 1)`. */
  lemma AllResultsAt(exec: (nat, nat) -> Result<Stats>, c: nat, n: nat, w: nat, j: nat)
    requires c >= 1 && w < n && 1 <= j < c
    ensures w * (c - 1) + (j - 1) < n * (c - 1)
    ensures AllResults(exec, c, n)[w * (c - 1) + (j - 1)] == exec(w, j)
  {
    var before := AllResults(exec, c, w);
    var upto := AllResults(exec, c, w + 1);
    assert upto == before + Wave(exec, w, c);
    InBack(before, Wave(exec, w, c), j - 1);
    AllResultsPrefix(exec, c, w + 1, n);
    MulLe(w + 1, n, c - 1);
    assert (w + 1) * (c - 1) == w * (c - 1) + (c - 1);
    PrefixAt(upto, AllResults(exec, c, n), w * (c - 1) + (j - 1));
  }

  /** The requests of the first `m` waves come first among those of `n >= m`. */
  lemma {:induction false} AllResultsPrefix(exec: (nat, nat) -> Result<Stats>, c: nat, m: nat, n: nat)
    requires c >= 1 && m <= n
    ensures AllResults(exec, c, m) <= AllResults(exec, c, n)
    decreases n
  {
    if m < n {
      AllResultsPrefix(exec, c, m, n - 1);
      PrefixExtend(AllResults(exec, c, m), AllResults(exec, c, n - 1), Wave(exec, n - 1, c));
    }
  }

  lemma PrefixExtend<T>(a: seq<T>, b: seq<T>, x: seq<T>)
    requires a <= b
    ensures a <= b + x
  {
    assert (b + x)[..|a|] == b[..|a|];
  }

  lemma PrefixAt<T>(a: seq<T>, b: seq<T>, i: nat)
    requires a <= b && i < |a|
    ensures b[i] == a[i]
  {
    assert b[..|a|] == a;
    assert b[..|a|][i] == b[i];
  }

  lemma InBack<T>(a: seq<T>, b: seq<T>, k: nat)
    requires k < |b|
    ensures (a + b)[|a| + k] == b[k]
  {
  }

  // ---------------------------------------------------------------------
  // Collection
  // ---------------------------------------------------------------------

  /** The run's mutable locals: the accumulators, the last length seen, and
      the completion times in arrival order. */
  datatype RunState = RunState(acc: Accumulators, len: nat, completed: seq<nat>)

  const InitialState: RunState := RunState(InitialAccumulators, 0, [])

  /** What the `for_each` over a joined wave leaves behind: every sample
      folded into the accumulators, every completion time appended in order,
      and the length of the last sample (or the old length when there is
      none). `CollectWave` computes it one sample at a time. */
  function Collect(st: RunState, samples: seq<Stats>): RunState {
    RunState(Fold(st.acc, samples), LastLength(st.len, samples), st.completed + Completes(samples))
  }

  function LastLength(len: nat, samples: seq<Stats>): nat {
    if |samples| == 0 then len else samples[|samples| - 1].length
  }

  /** The completion times of the samples, in order. */
  function Completes(samples: seq<Stats>): (ts: seq<nat>)
    ensures |ts| == |samples|
  {
    seq(|samples|, i requires 0 <= i < |samples| => samples[i].complete)
  }

  lemma CompletesAppend(a: seq<Stats>, b: seq<Stats>)
    ensures Completes(a + b) == Completes(a) + Completes(b)
  {
    forall i | 0 <= i < |a + b| ensures Completes(a + b)[i] == (Completes(a) + Completes(b))[i] {
      if i < |a| { assert (a + b)[i] == a[i]; } else { assert (a + b)[i] == b[i - |a|]; }
    }
  }

  /** Collecting two runs of samples one after the other is collecting them
      together. */
  lemma CollectAppend(st: RunState, a: seq<Stats>, b: seq<Stats>)
    ensures Collect(Collect(st, a), b) == Collect(st, a + b)
  {
    FoldAppend(st.acc, a, b);
    CompletesAppend(a, b);
    LastLengthAppend(st.len, a, b);
    AppendAssoc(st.completed, Completes(a), Completes(b));
  }

  lemma AppendAssoc<T>(x: seq<T>, y: seq<T>, z: seq<T>)
    ensures x + y + z == x + (y + z)
  {
  }

  lemma LastLengthAppend(len: nat, a: seq<Stats>, b: seq<Stats>)
    ensures LastLength(LastLength(len, a), b) == LastLength(len, a + b)
  {
    if |b| == 0 {
      assert a + b == a;
    } else {
      assert (a + b)[|a + b| - 1] == b[|b| - 1];
    }
  }

  // ---------------------------------------------------------------------
  // The loop over waves
  // ---------------------------------------------------------------------

  const ProtocolMessage: string := "Error with protocol"

  predicate KnownScheme(scheme: string) {
    scheme == "http" || scheme == "https"
  }

  /** The first `n` waves: each checks the scheme, joins its requests and
      collects them; the first failure ends the run. */
  function RunWaves(exec: (nat, nat) -> Result<Stats>, scheme: string, c: nat, n: nat): Result<RunState>
    requires c >= 1
    decreases n
  {
    if n == 0 then Ok(InitialState)
    else
      match RunWaves(exec, scheme, c, n - 1)
      case Err(e) => Err(e)
      case Ok(st) =>
        if !KnownScheme(scheme) then Err(ProtocolMessage)
        else
          match TryJoinAll(Wave(exec, n - 1, c))
          case Err(e) => Err(e)
          case Ok(samples) => Ok(Collect(st, samples))
  }

  /** `cycles`: the number of waves, `total_request / concurrency` rounded
      down. */
  function Cycles(total: nat, c: nat): (n: nat)
    requires c >= 1
    ensures n * c <= total < (n + 1) * c
  {
    total / c
  }

  /** A failed run stays failed with the same message. */
  lemma {:induction false} ErrSticky(exec: (nat, nat) -> Result<Stats>, scheme: string, c: nat, m: nat, n: nat)
    requires c >= 1 && m <= n
    requires RunWaves(exec, scheme, c, m).Err?
    ensures RunWaves(exec, scheme, c, n) == RunWaves(exec, scheme, c, m)
    decreases n
  {
    if m < n {
      ErrSticky(exec, scheme, c, m, n - 1);
    }
  }

  /** One more wave after a successful run, with a known scheme and every
      request of the wave successful, collects that wave. */
  lemma RunWavesOkStep(exec: (nat, nat) -> Result<Stats>, scheme: string, c: nat, n: nat, st: RunState)
    requires c >= 1 && RunWaves(exec, scheme, c, n) == Ok(st)
    requires KnownScheme(scheme) && TryJoinAll(Wave(exec, n, c)).Ok?
    ensures RunWaves(exec, scheme, c, n + 1) == Ok(Collect(st, TryJoinAll(Wave(exec, n, c)).value))
  {
  }

  /** A run succeeds exactly when it has no wave, or the scheme is known and
      every request succeeds; it then holds the fold of all the samples, one
      completion time per request, and the last request's length. */
  lemma {:induction false} RunOutcome(exec: (nat, nat) -> Result<Stats>, scheme: string, c: nat, n: nat)
    requires c >= 1
    ensures RunWaves(exec, scheme, c, n).Ok? <==>
      (n == 0 || KnownScheme(scheme)) && AllOk(AllResults(exec, c, n))
    ensures RunWaves(exec, scheme, c, n).Ok? ==>
      RunWaves(exec, scheme, c, n).value == Collect(InitialState, Values(AllResults(exec, c, n)))
    decreases n
  {
    if n > 0 {
      RunOutcome(exec, scheme, c, n - 1);
      var front := AllResults(exec, c, n - 1);
      var wave := Wave(exec, n - 1, c);
      assert AllResults(exec, c, n) == front + wave;
      AllOkAppend(front, wave);
      RunWavesUnfold(exec, scheme, c, n);
      if RunWaves(exec, scheme, c, n).Ok? {
        CollectNextWave(front, wave, RunWaves(exec, scheme, c, n - 1).value);
      }
    }
  }

  /** Collecting one more successful wave after the earlier ones is
      collecting all their values at once. */
  lemma CollectNextWave(front: seq<Result<Stats>>, wave: seq<Result<Stats>>, st: RunState)
    requires AllOk(front) && AllOk(wave) && st == Collect(InitialState, Values(front))
    ensures AllOk(front + wave)
    ensures Collect(st, Values(wave)) == Collect(InitialState, Values(front + wave))
  {
    AllOkAppend(front, wave);
    ValuesAppend(front, wave);
    CollectAppend(InitialState, Values(front), Values(wave));
  }

  /** One wave more: the run so far succeeded, the scheme is known and every
      request of the wave succeeded, and then the wave's values are
      collected. */
  lemma RunWavesUnfold(exec: (nat, nat) -> Result<Stats>, scheme: string, c: nat, n: nat)
    requires c >= 1 && n >= 1
    ensures RunWaves(exec, scheme, c, n).Ok? <==>
      RunWaves(exec, scheme, c, n - 1).Ok? && KnownScheme(scheme) && AllOk(Wave(exec, n - 1, c))
    ensures RunWaves(exec, scheme, c, n).Ok? ==>
      RunWaves(exec, scheme, c, n).value ==
        Collect(RunWaves(exec, scheme, c, n - 1).value, Values(Wave(exec, n - 1, c)))
  {
    if TryJoinAll(Wave(exec, n - 1, c)).Ok? {
      JoinedValues(Wave(exec, n - 1, c));
    }
  }

  lemma AllOkAppend(a: seq<Result<Stats>>, b: seq<Result<Stats>>)
    ensures AllOk(a + b) <==> AllOk(a) && AllOk(b)
  {
    if AllOk(a) && AllOk(b) {
      forall i | 0 <= i < |a + b| ensures (a + b)[i].Ok? {
        if i < |a| { assert (a + b)[i] == a[i]; } else { assert (a + b)[i] == b[i - |a|]; }
      }
    }
    if AllOk(a + b) {
      forall i | 0 <= i < |a| ensures a[i].Ok? { assert a[i] == (a + b)[i]; }
      forall i | 0 <= i < |b| ensures b[i].Ok? { assert b[i] == (a + b)[|a| + i]; }
    }
  }

  lemma ValuesAppend(a: seq<Result<Stats>>, b: seq<Result<Stats>>)
    requires AllOk(a) && AllOk(b) && AllOk(a + b)
    ensures Values(a + b) == Values(a) + Values(b)
  {
    forall i | 0 <= i < |a + b| ensures Values(a + b)[i] == (Values(a) + Values(b))[i] {
      if i < |a| { assert (a + b)[i] == a[i]; } else { assert (a + b)[i] == b[i - |a|]; }
    }
  }

  /** A successful join holds the values of its results. */
  lemma JoinedValues(rs: seq<Result<Stats>>)
    requires TryJoinAll(rs).Ok?
    ensures AllOk(rs) && TryJoinAll(rs).value == Values(rs)
  {
  }

  /** The loop as `main` runs it, wave by wave and sample by sample. */
  method RunLoop(exec: (nat, nat) -> Result<Stats>, scheme: string, c: nat, cycles: nat) returns (r: Result<RunState>)
    requires c >= 1
    ensures r == RunWaves(exec, scheme, c, cycles)
  {
    var st := InitialState;
    var w := 0;
    while w < cycles
      invariant w <= cycles
      invariant RunWaves(exec, scheme, c, w) == Ok(st)
    {
      if !KnownScheme(scheme) {
        ErrSticky(exec, scheme, c, w + 1, cycles);
        return Err(ProtocolMessage);
      }
      var joined := TryJoinAll(Wave(exec, w, c));
      if joined.Err? {
        ErrSticky(exec, scheme, c, w + 1, cycles);
        return Err(joined.msg);
      }
      var next := CollectWave(st, joined.value);
      RunWavesOkStep(exec, scheme, c, w, st);
      st := next;
      w := w + 1;
    }
    return Ok(st);
  }

  /** The `for_each` over one joined wave, sample by sample. */
  method CollectWave(st: RunState, samples: seq<Stats>) returns (next: RunState)
    ensures next == Collect(st, samples)
  {
    next := st;
    var k := 0;
    while k < |samples|
      invariant k <= |samples|
      invariant next == Collect(st, samples[..k])
    {
      var x := samples[k];
      CollectStep(st, samples, k);
      next := RunState(CalculateStats(next.acc, x), x.length, next.completed + [x.complete]);
      k := k + 1;
    }
    assert samples[..k] == samples;
  }

  /** Collecting one more sample. */
  lemma CollectStep(st: RunState, samples: seq<Stats>, k: nat)
    requires k < |samples|
    ensures var prev := Collect(st, samples[..k]);
      Collect(st, samples[..k + 1]) ==
        RunState(CalculateStats(prev.acc, samples[k]), samples[k].length, prev.completed + [samples[k].complete])
  {
    assert samples[..k + 1] == samples[..k] + [samples[k]];
    FoldSnoc(st.acc, samples[..k], samples[k]);
    CompletesAppend(samples[..k], [samples[k]]);
    assert Completes([samples[k]]) == [samples[k].complete];
  }

  /** A fully successful run records `cycles * (concurrency - 1)` samples:
      for 100 requests at concurrency 30, three waves of 29, so 87. */
  lemma SampleCount(exec: (nat, nat) -> Result<Stats>, scheme: string, total: nat, c: nat)
    requires c >= 1
    requires RunWaves(exec, scheme, c, Cycles(total, c)).Ok?
    ensures |RunWaves(exec, scheme, c, Cycles(total, c)).value.completed| == Cycles(total, c) * (c - 1)
    ensures |RunWaves(exec, scheme, c, Cycles(total, c)).value.completed| <= total
  {
    var n := Cycles(total, c);
    RunOutcome(exec, scheme, c, n);
    WavesWithinTotal(total, c);
  }

  lemma WavesWithinTotal(total: nat, c: nat)
    requires c >= 1
    ensures Cycles(total, c) * (c - 1) <= total
  {
    var n := Cycles(total, c);
    assert n * (c - 1) == n * c - n;
  }

  /** What a successful run of `Cycles(total, c)` waves holds, in terms of the
      requests it made. */
  lemma RunSummary(exec: (nat, nat) -> Result<Stats>, scheme: string, c: nat, total: nat)
    requires c >= 1
    requires RunWaves(exec, scheme, c, Cycles(total, c)).Ok?
    ensures AllOk(AllResults(exec, c, Cycles(total, c)))
    ensures var samples := Values(AllResults(exec, c, Cycles(total, c)));
      var st := RunWaves(exec, scheme, c, Cycles(total, c)).value;
      && |samples| == Cycles(total, c) * (c - 1) <= total
      && st.acc == Fold(InitialAccumulators, samples)
      && st.completed == Completes(samples)
      && (|samples| > 0 ==> st.len == samples[|samples| - 1].length)
  {
    var n := Cycles(total, c);
    RunOutcome(exec, scheme, c, n);
    WavesWithinTotal(total, c);
  }

  lemma EightySeven(exec: (nat, nat) -> Result<Stats>, scheme: string)
    requires RunWaves(exec, scheme, 30, Cycles(100, 30)).Ok?
    ensures |RunWaves(exec, scheme, 30, Cycles(100, 30)).value.completed| == 87
  {
    SampleCount(exec, scheme, 100, 30);
  }

  /** Any failing request in any wave aborts the run, and the error reported
      is the protocol error or one that a request gave. */
  lemma AnyErrorAborts(exec: (nat, nat) -> Result<Stats>, scheme: string, c: nat, n: nat, w: nat, j: nat)
    requires c >= 1 && w < n && 1 <= j < c
    requires exec(w, j).Err?
    ensures RunWaves(exec, scheme, c, n).Err?
  {
    RunOutcome(exec, scheme, c, n);
    RequestFailed(exec, c, n, w, j);
  }

  /** One failed request means not every request of the run succeeded. */
  lemma RequestFailed(exec: (nat, nat) -> Result<Stats>, c: nat, n: nat, w: nat, j: nat)
    requires c >= 1 && w < n && 1 <= j < c
    requires exec(w, j).Err?
    ensures !AllOk(AllResults(exec, c, n))
  {
    AllResultsHas(exec, c, n, w, j);
    FailedIn(AllResults(exec, c, n), exec(w, j));
  }

  /** Every request launched in the first `n` waves is among their results. */
  lemma AllResultsHas(exec: (nat, nat) -> Result<Stats>, c: nat, n: nat, w: nat, j: nat)
    requires c >= 1 && w < n && 1 <= j < c
    ensures exec(w, j) in AllResults(exec, c, n)
  {
    AllResultsAt(exec, c, n, w, j);
  }

  lemma FailedIn(rs: seq<Result<Stats>>, x: Result<Stats>)
    requires x in rs && x.Err?
    ensures !AllOk(rs)
  {
  }

  /** Some request in `rs` failed with `msg`. */
  predicate FailedWith(rs: seq<Result<Stats>>, msg: string) {
    exists i :: 0 <= i < |rs| && rs[i] == Err(msg)
  }

  lemma FailedWithAppend(a: seq<Result<Stats>>, b: seq<Result<Stats>>, msg: string)
    requires FailedWith(a, msg) || FailedWith(b, msg)
    ensures FailedWith(a + b, msg)
  {
    if FailedWith(a, msg) {
      var i :| 0 <= i < |a| && a[i] == Err(msg);
      assert (a + b)[i] == a[i];
    } else {
      var i :| 0 <= i < |b| && b[i] == Err(msg);
      assert (a + b)[|a| + i] == b[i];
    }
  }

  /** A failed run reports the protocol error or the error of one of its
      requests. */
  lemma {:induction false} ErrorFromSomewhere(exec: (nat, nat) -> Result<Stats>, scheme: string, c: nat, n: nat)
    requires c >= 1
    requires RunWaves(exec, scheme, c, n).Err?
    ensures RunWaves(exec, scheme, c, n).msg == ProtocolMessage
      || FailedWith(AllResults(exec, c, n), RunWaves(exec, scheme, c, n).msg)
    decreases n
  {
    var front := AllResults(exec, c, n - 1);
    var wave := Wave(exec, n - 1, c);
    var msg := RunWaves(exec, scheme, c, n).msg;
    assert AllResults(exec, c, n) == front + wave;
    if RunWaves(exec, scheme, c, n - 1).Err? {
      ErrorFromSomewhere(exec, scheme, c, n - 1);
      if msg != ProtocolMessage {
        FailedWithAppend(front, wave, msg);
      }
    } else if KnownScheme(scheme) {
      assert FailedWith(wave, msg);
      FailedWithAppend(front, wave, msg);
    }
  }

  // ---------------------------------------------------------------------
  // Averages
  // ---------------------------------------------------------------------

  /** Each summed timing divided by the configured total, rounding down;
      the length field is left as it is. */
  function Averages(sum: Stats, total: nat): (avg: Stats)
    requires total >= 1
    ensures forall p :: Timing(avg, p) * total <= Timing(sum, p) < (Timing(avg, p) + 1) * total
    ensures avg.length == sum.length
  {
    Stats(
      connect := Avg(sum.connect, total),
      handshake := Avg(sum.handshake, total),
      waiting := Avg(sum.waiting, total),
      read := Avg(sum.read, total),
      complete := Avg(sum.complete, total),
      writing := Avg(sum.writing, total),
      length := sum.length)
  }

  /** One average: the whole number of `t`s in `x`, rounding down. */
  function Avg(x: nat, t: nat): (a: nat)
    requires t >= 1
    ensures a * t <= x < (a + 1) * t
  {
    var a := x / t;
    assert x == a * t + x % t;
    assert (a + 1) * t == a * t + t;
    a
  }

  /** With no more samples than the configured total, no average exceeds the
      maximum. */
  lemma AverageAtMostMax(samples: seq<Stats>, total: nat, p: Phase)
    requires total >= 1 && |samples| <= total
    ensures Timing(Averages(Fold(InitialAccumulators, samples).sum, total), p)
      <= Timing(Fold(InitialAccumulators, samples).max, p)
  {
    var f := Fold(InitialAccumulators, samples);
    var mx := Timing(f.max, p);
    FoldBounds(InitialAccumulators, samples, p);
    SumBetween(InitialAccumulators, samples, p);
    DivBound(Timing(f.sum, p), mx, |samples|, total);
  }

  /** A sum of at most `k <= total` values, each at most `mx`, averages over
      `total` to at most `mx`. */
  lemma DivBound(sum: nat, mx: nat, k: nat, total: nat)
    requires total >= 1 && k <= total && sum <= mx * k
    ensures sum / total <= mx
  {
    MulLe(k, total, mx);
    assert mx * k == k * mx && mx * total == total * mx;
    assert sum < (mx + 1) * total;
    DivLess(sum, mx + 1, total);
  }

  /** Averages are not bounded below by the minimum: 87 samples of 10 ms
      against a total of 100 average 8 ms. */
  lemma AverageBelowMin()
    ensures var samples := seq(87, i => Uniform(10, 0));
      && Timing(Fold(InitialAccumulators, samples).min, Complete) == 10
      && Timing(Averages(Fold(InitialAccumulators, samples).sum, 100), Complete) == 8
  {
    var samples := seq(87, i => Uniform(10, 0));
    var f := Fold(InitialAccumulators, samples);
    FoldBounds(InitialAccumulators, samples, Complete);
    FoldAttained(InitialAccumulators, samples, Complete);
    SumWithin(samples, Complete, 10, 10);
    assert Timing(f.min, Complete) <= Timing(samples[0], Complete) == 10;
  }
}
