/** `main` from parsed arguments to the report (src/main.rs): the request
    is assembled, the body chosen, the head serialised and the port picked;
    then the waves run, and the averages and percentile rows are computed.
    Failures that `main` returns with `?` end as `Failed`; the three panics
    this model covers end as `Panicked`. DNS resolution, the spinner and
    the printing are not modelled. */
module Pipeline {
  import opened Results
  import opened Request
  import opened Calculate
  import opened Run
  import Sorting
  import Tables
  import HttpParser
  import Multipart
  import ArgsParser
  import Crlf
  import Arith

  // ---------------------------------------------------------------------
  // Request headers
  // ---------------------------------------------------------------------

  /** The value of the first header called `name`. */
  function Lookup(hs: seq<HttpParser.HeaderField>, name: string): Option<string>
    decreases |hs|
  {
    if |hs| == 0 then None
    else if hs[0].name == name then Some(hs[0].value)
    else Lookup(hs[1..], name)
  }

  predicate UniqueNames(hs: seq<HttpParser.HeaderField>) {
    forall i, j :: 0 <= i < j < |hs| ==> hs[i].name != hs[j].name
  }

  /** The position of the first header called `name`, or `|hs|`. */
  function IndexOf(hs: seq<HttpParser.HeaderField>, name: string): (k: nat)
    ensures k <= |hs|
    ensures k < |hs| ==> hs[k].name == name
    ensures forall i :: 0 <= i < k ==> hs[i].name != name
    decreases |hs|
  {
    if |hs| == 0 then 0
    else if hs[0].name == name then 0
    else 1 + IndexOf(hs[1..], name)
  }

  /** `HeaderMap::insert`: a header of the same name is replaced where it
      stands, otherwise the new header goes last. */
  function InsertHeader(hs: seq<HttpParser.HeaderField>, h: HttpParser.HeaderField): (r: seq<HttpParser.HeaderField>)
    requires UniqueNames(hs)
    ensures UniqueNames(r)
    ensures h in r
    ensures forall x :: x in r ==> x == h || x in hs
    ensures forall x :: x in hs && x.name != h.name ==> x in r
  {
    var k := IndexOf(hs, h.name);
    if k < |hs| then
      ReplaceKeeps(hs, k, h);
      hs[k := h]
    else
      assert forall i :: 0 <= i < |hs| ==> hs[i].name != h.name;
      hs + [h]
  }

  lemma ReplaceKeeps(hs: seq<HttpParser.HeaderField>, k: nat, h: HttpParser.HeaderField)
    requires k < |hs| && hs[k].name == h.name
    ensures h in hs[k := h]
    ensures forall x :: x in hs && x.name != h.name ==> x in hs[k := h]
  {
    var r := hs[k := h];
    assert r[k] == h;
    forall x | x in hs && x.name != h.name ensures x in r {
      var i :| 0 <= i < |hs| && hs[i] == x;
      assert r[i] == x;
    }
  }

  lemma {:induction false} LookupAt(hs: seq<HttpParser.HeaderField>, name: string)
    ensures Lookup(hs, name) == if IndexOf(hs, name) < |hs| then Some(hs[IndexOf(hs, name)].value) else None
    decreases |hs|
  {
    if |hs| > 0 && hs[0].name != name {
      LookupAt(hs[1..], name);
    }
  }

  /** Read back through lookup, inserting behaves as a map update: the new
      name gives the new value and every other name what it gave before. */
  lemma InsertThenLookup(hs: seq<HttpParser.HeaderField>, h: HttpParser.HeaderField, name: string)
    requires UniqueNames(hs)
    ensures Lookup(InsertHeader(hs, h), name) == if name == h.name then Some(h.value) else Lookup(hs, name)
  {
    var r := InsertHeader(hs, h);
    var k := IndexOf(hs, h.name);
    LookupAt(hs, name);
    LookupAt(r, name);
    var m := IndexOf(hs, name);
    var mr := IndexOf(r, name);
    if name == h.name {
      if k < |hs| {
        IndexOfFirst(r, name, k);
      } else {
        IndexOfFirst(r, name, |hs|);
      }
    } else {
      if m < |hs| {
        assert r[m] == hs[m];
        IndexOfFirst(r, name, m);
      } else {
        NameAbsent(r, hs, h, name);
      }
    }
  }

  lemma IndexOfFirst(hs: seq<HttpParser.HeaderField>, name: string, k: nat)
    requires k < |hs| && hs[k].name == name
    requires forall i :: 0 <= i < k ==> hs[i].name != name
    ensures IndexOf(hs, name) == k
  {
  }

  lemma NameAbsent(r: seq<HttpParser.HeaderField>, hs: seq<HttpParser.HeaderField>, h: HttpParser.HeaderField, name: string)
    requires forall x :: x in r ==> x == h || x in hs
    requires name != h.name
    requires IndexOf(hs, name) == |hs|
    ensures IndexOf(r, name) == |r|
  {
    forall i | 0 <= i < |r| ensures r[i].name != name {
      assert r[i] in r;
      if r[i] != h {
        var m :| 0 <= m < |hs| && hs[m] == r[i];
      }
    }
  }

  /** `-H` headers are inserted in the order given. */
  function InsertAll(hs: seq<HttpParser.HeaderField>, extra: seq<ArgsParser.Header>): (r: seq<HttpParser.HeaderField>)
    requires UniqueNames(hs)
    ensures UniqueNames(r)
    decreases |extra|
  {
    if |extra| == 0 then hs
    else InsertAll(InsertHeader(hs, HttpParser.HeaderField(extra[0].key, extra[0].value)), extra[1..])
  }

  /** The value of the last header in `extra` called `name`, if any. */
  function LastGiven(extra: seq<ArgsParser.Header>, name: string): Option<string>
    decreases |extra|
  {
    if |extra| == 0 then None
    else
      match LastGiven(extra[1..], name)
      case Some(v) => Some(v)
      case None => if extra[0].key == name then Some(extra[0].value) else None
  }

  /** After the `-H` loop, the last header given for a name wins, and a name
      never given keeps the value it had before. */
  lemma {:induction false} InsertAllLookup(hs: seq<HttpParser.HeaderField>, extra: seq<ArgsParser.Header>, name: string)
    requires UniqueNames(hs)
    ensures Lookup(InsertAll(hs, extra), name)
      == if LastGiven(extra, name).Some? then LastGiven(extra, name) else Lookup(hs, name)
    decreases |extra|
  {
    if |extra| > 0 {
      var h := HttpParser.HeaderField(extra[0].key, extra[0].value);
      var next := InsertHeader(hs, h);
      InsertAllLookup(next, extra[1..], name);
      InsertThenLookup(hs, h, name);
    }
  }

  // ---------------------------------------------------------------------
  // Body
  // ---------------------------------------------------------------------

  /** The fixed multipart boundary and the content type that announces it. */
  const Boundary: string := "----------------123456789"
  const MultipartType: string := "multipart/form-data; boundary=" + Boundary

  /** What the file system said about the `-f` path: its last component, the
      mime guess for it, and its contents or the error reading them. */
  datatype FileLookup = FileLookup(fileName: Option<string>, mimeGuess: Option<string>, contents: Result<string>)

  datatype Prepared = Prepared(headers: seq<HttpParser.HeaderField>, body: Body)

  /** The body: a file upload wins over `-d` data, which wins over none. A
      file also sets the multipart `content-type` header. */
  function ChooseBody(headers: seq<HttpParser.HeaderField>, file: Option<ArgsParser.ValuePair>,
                      data: Option<string>, lookup: FileLookup): (r: Result<Prepared>)
    requires UniqueNames(headers)
    ensures r.Err? <==> file.Some? && (lookup.fileName.None? || lookup.contents.Err?)
    ensures r.Ok? && file.Some? ==>
      && r.value.body.File?
      && Lookup(r.value.headers, "content-type") == Some(MultipartType)
      && Multipart.GetFileAsParts(Boundary, file.value.key, lookup.fileName, lookup.mimeGuess, lookup.contents)
         == Ok(Multipart.Parts(r.value.body.start, r.value.body.middle, r.value.body.end))
    ensures r.Ok? && file.None? ==> r.value.headers == headers
    ensures file.None? && data.Some? ==> r == Ok(Prepared(headers, Simple(data.value)))
    ensures file.None? && data.None? ==> r == Ok(Prepared(headers, NoBody))
  {
    match file
    case Some(pair) =>
      var hs := InsertHeader(headers, HttpParser.HeaderField("content-type", MultipartType));
      InsertThenLookup(headers, HttpParser.HeaderField("content-type", MultipartType), "content-type");
      (match Multipart.GetFileAsParts(Boundary, pair.key, lookup.fileName, lookup.mimeGuess, lookup.contents)
       case Err(e) => Err(e)
       case Ok(parts) => Ok(Prepared(hs, File(parts.start, parts.middle, parts.end))))
    case None =>
      match data
      case Some(d) => Ok(Prepared(headers, Simple(d)))
      case None => Ok(Prepared(headers, NoBody))
  }

  // ---------------------------------------------------------------------
  // Set-up
  // ---------------------------------------------------------------------

  /** The parsed command line. `verb` is the `-M` method as the http crate
      prints it. `auth` and `cookies` are accepted but never used. */
  datatype Args = Args(
    auth: Option<string>,
    cookies: seq<string>,
    verb: Option<string>,
    concurrency: nat,
    totalRequest: nat,
    headers: seq<ArgsParser.Header>,
    file: Option<ArgsParser.ValuePair>,
    data: Option<string>,
    uri: HttpParser.Uri)

  const NoSchemeMessage: string := "Error the protocol"
  const NoHostMessage: string := "Host not provided"

  /** Everything the waves need. */
  datatype Setup = Setup(scheme: string, host: string, port: nat, head: string, body: Body)

  /** The set-up half of `main`, in its order: body (and file read), scheme,
      host, request head, port. */
  function Prepare(args: Args, lookup: FileLookup): (r: Result<Setup>)
    ensures r.Ok? ==> args.uri.scheme.Some? && args.uri.host.Some? && args.uri.pathAndQuery.Some?
    ensures r.Ok? ==> r.value.scheme == args.uri.scheme.value && r.value.host == args.uri.host.value
    ensures r.Ok? && args.uri.port.None? ==> KnownScheme(r.value.scheme)
    ensures args.file.Some? && lookup.fileName.None? ==> r == Err(Multipart.NoFileMessage)
    ensures args.file.None? && args.uri.scheme.None? ==> r == Err(NoSchemeMessage)
  {
    var verb := match args.verb case Some(m) => m case None => "GET";
    var headers := InsertAll([], args.headers);
    match ChooseBody(headers, args.file, args.data, lookup)
    case Err(e) => Err(e)
    case Ok(prepared) =>
      match args.uri.scheme
      case None => Err(NoSchemeMessage)
      case Some(scheme) =>
        match args.uri.host
        case None => Err(NoHostMessage)
        case Some(host) =>
          var req := HttpParser.HttpRequest(verb, args.uri, prepared.headers);
          match HttpParser.HttpString(req, None)
          case Err(e) => Err(e)
          case Ok(head) =>
            match ResolvePort(args.uri.port, scheme)
            case Err(e) => Err(e)
            case Ok(port) => Ok(Setup(scheme, host, port, head, prepared.body))
  }

  // ---------------------------------------------------------------------
  // Measurement
  // ---------------------------------------------------------------------

  /** One request of the run: plaintext for `http`, encrypted for `https`,
      each reduced to its measurement. */
  function Attempt(setup: Setup, plain: (nat, nat) -> Transport<PlainReadings>,
                   tls: (nat, nat) -> Transport<TlsReadings>, w: nat, j: nat): (r: Result<Stats>)
    ensures setup.scheme == "http" ==> (r.Ok? <==> plain(w, j).Completed?)
    ensures setup.scheme == "https" ==> (r.Ok? <==> tls(w, j).Completed?)
    ensures setup.scheme == "http" && r.Ok? ==> r.value.handshake == 0
  {
    if setup.scheme == "http" then
      match MakeHttpRequest(setup.head, setup.body, plain(w, j))
      case Err(e) => Err(e)
      case Ok(x) => Ok(x.stats)
    else if setup.scheme == "https" then
      match MakeHttpsRequest(setup.head, setup.body, tls(w, j))
      case Err(e) => Err(e)
      case Ok(x) => Ok(x.stats)
    else Err(ProtocolMessage)
  }

  function Executor(setup: Setup, plain: (nat, nat) -> Transport<PlainReadings>,
                    tls: (nat, nat) -> Transport<TlsReadings>): (nat, nat) -> Result<Stats>
  {
    (w: nat, j: nat) => Attempt(setup, plain, tls, w, j)
  }

  /** The figures behind the printed tables: target, last response length,
      min, max and mean per phase, and the percentile rows of the completion
      times. The `read` phase is computed like the others, but the task
      table does not print it. */
  datatype Report = Report(
    scheme: string,
    host: string,
    port: nat,
    length: nat,
    min: Stats,
    max: Stats,
    average: Stats,
    percentiles: Tables.PercentRows)

  /** `main`'s result: the report, an error it returned, or a panic. */
  datatype Outcome = Finished(report: Report) | Failed(msg: string) | Panicked(reason: string)

  const DivisionByZero: string := "attempt to divide by zero"
  const IndexOutOfBounds: string := "index out of bounds"

  /** The measurement half of `main`. */
  function Measure(setup: Setup, concurrency: nat, total: nat,
                   plain: (nat, nat) -> Transport<PlainReadings>, tls: (nat, nat) -> Transport<TlsReadings>): (o: Outcome)
    ensures concurrency == 0 ==> o == Panicked(DivisionByZero)
    ensures o.Finished? ==> concurrency >= 1 && total >= 1
  {
    if concurrency == 0 then Panicked(DivisionByZero)
    else
      match RunWaves(Executor(setup, plain, tls), setup.scheme, concurrency, Cycles(total, concurrency))
      case Err(e) => Failed(e)
      case Ok(st) =>
        if total == 0 then Panicked(DivisionByZero)
        else if |st.completed| == 0 then Panicked(IndexOutOfBounds)
        else
          var sorted := Sorting.Sort(st.completed);
          Finished(Report(setup.scheme, setup.host, setup.port, st.len, st.acc.min, st.acc.max,
                          Averages(st.acc.sum, total), Tables.CreatePercentTable(sorted)))
  }

  /** The whole of `main`. */
  function Benchmark(args: Args, lookup: FileLookup, plain: (nat, nat) -> Transport<PlainReadings>,
                     tls: (nat, nat) -> Transport<TlsReadings>): (o: Outcome)
    ensures Prepare(args, lookup).Err? ==> o == Failed(Prepare(args, lookup).msg)
    ensures Prepare(args, lookup).Ok? && args.concurrency == 0 ==> o == Panicked(DivisionByZero)
  {
    match Prepare(args, lookup)
    case Err(e) => Failed(e)
    case Ok(setup) => Measure(setup, args.concurrency, args.totalRequest, plain, tls)
  }

  // ---------------------------------------------------------------------
  // Properties of the whole run
  // ---------------------------------------------------------------------

  /** A report is built from a successful run of `Cycles(total, c)` waves. */
  lemma MeasureReport(setup: Setup, c: nat, total: nat,
                      plain: (nat, nat) -> Transport<PlainReadings>, tls: (nat, nat) -> Transport<TlsReadings>)
    requires Measure(setup, c, total, plain, tls).Finished?
    ensures c >= 1 && total >= 1
    ensures RunWaves(Executor(setup, plain, tls), setup.scheme, c, Cycles(total, c)).Ok?
    ensures var st := RunWaves(Executor(setup, plain, tls), setup.scheme, c, Cycles(total, c)).value;
      && |st.completed| >= 1
      && Measure(setup, c, total, plain, tls).report
         == Report(setup.scheme, setup.host, setup.port, st.len, st.acc.min, st.acc.max,
                   Averages(st.acc.sum, total), Tables.CreatePercentTable(Sorting.Sort(st.completed)))
  {
  }

  lemma AveragesBelowMax(samples: seq<Stats>, total: nat, average: Stats, max: Stats)
    requires total >= 1 && |samples| <= total
    requires average == Averages(Fold(InitialAccumulators, samples).sum, total)
    requires max == Fold(InitialAccumulators, samples).max
    ensures forall p :: Timing(average, p) <= Timing(max, p)
  {
    forall p ensures Timing(average, p) <= Timing(max, p) {
      AverageAtMostMax(samples, total, p);
    }
  }

  /** A report means every request of every wave completed; its rows are
      read from the sorted completion times of all `cycles * (c - 1)`
      samples, min and max are the fold of those samples, the length is the
      last sample's, and no average exceeds its maximum. */
  lemma FinishedMeans(setup: Setup, c: nat, total: nat,
                      plain: (nat, nat) -> Transport<PlainReadings>, tls: (nat, nat) -> Transport<TlsReadings>)
    requires Measure(setup, c, total, plain, tls).Finished?
    ensures c >= 1 && total >= 1
    ensures AllOk(AllResults(Executor(setup, plain, tls), c, Cycles(total, c)))
    ensures |AllResults(Executor(setup, plain, tls), c, Cycles(total, c))| >= 1
    ensures var samples := Values(AllResults(Executor(setup, plain, tls), c, Cycles(total, c)));
      var report := Measure(setup, c, total, plain, tls).report;
      && report.min == Fold(InitialAccumulators, samples).min
      && report.max == Fold(InitialAccumulators, samples).max
      && report.length == samples[|samples| - 1].length
      && report.percentiles == Tables.CreatePercentTable(Sorting.Sort(Completes(samples)))
      && forall p :: Timing(report.average, p) <= Timing(report.max, p)
  {
    var exec := Executor(setup, plain, tls);
    var n := Cycles(total, c);
    MeasureReport(setup, c, total, plain, tls);
    RunSummary(exec, setup.scheme, c, total);
    var rs := AllResults(exec, c, n);
    var samples := Values(rs);
    var st := RunWaves(exec, setup.scheme, c, n).value;
    var report := Measure(setup, c, total, plain, tls).report;
    assert st.acc == Fold(InitialAccumulators, samples);
    assert st.completed == Completes(samples);
    assert |rs| == |samples| == |st.completed| >= 1;
    assert report.min == st.acc.min && report.max == st.acc.max;
    assert report.length == st.len == samples[|samples| - 1].length;
    assert report.percentiles == Tables.CreatePercentTable(Sorting.Sort(st.completed));
    AveragesBelowMax(samples, total, report.average, report.max);
  }

  /** With concurrency 1 every wave is empty, so no run ever reports: it
      fails in set-up or at the scheme check, or panics on the empty sample
      list. */
  lemma ConcurrencyOneNeverReports(setup: Setup, total: nat,
                                   plain: (nat, nat) -> Transport<PlainReadings>, tls: (nat, nat) -> Transport<TlsReadings>)
    ensures !Measure(setup, 1, total, plain, tls).Finished?
  {
    if Measure(setup, 1, total, plain, tls).Finished? {
      FinishedMeans(setup, 1, total, plain, tls);
    }
  }

  /** Fewer requests than the concurrency means no wave at all: the run
      panics on the empty sample list (or on the division, for a total of
      zero). */
  lemma TooFewRequestsPanic(setup: Setup, c: nat, total: nat,
                            plain: (nat, nat) -> Transport<PlainReadings>, tls: (nat, nat) -> Transport<TlsReadings>)
    requires total < c
    ensures Measure(setup, c, total, plain, tls).Panicked?
  {
    var n := Cycles(total, c);
    if n >= 1 {
      Arith.MulLe(1, n, c);
    }
  }

  /** One failed request anywhere in the run fails the whole benchmark, and
      nothing is reported. */
  lemma OneFailureFails(setup: Setup, c: nat, total: nat,
                        plain: (nat, nat) -> Transport<PlainReadings>, tls: (nat, nat) -> Transport<TlsReadings>,
                        w: nat, j: nat)
    requires c >= 1 && w < Cycles(total, c) && 1 <= j < c
    requires Attempt(setup, plain, tls, w, j).Err?
    ensures Measure(setup, c, total, plain, tls).Failed?
  {
    AnyErrorAborts(Executor(setup, plain, tls), setup.scheme, c, Cycles(total, c), w, j);
  }

  /** End to end on the wire: for a well-formed request, a receiver that
      reads the head up to the blank line finds the request line, `Host`,
      `User-Agent`, `Connection`, the request's headers, the
      `content-length` line when the body has one, and then the payload. */
  lemma RequestOnTheWire(req: HttpParser.HttpRequest, extra: Body, plain: bool)
    requires HttpParser.WellFormed(req, None)
    ensures HttpParser.HttpString(req, None).Ok?
    ensures Crlf.ParseMessage(Sent(HttpParser.HttpString(req, None).value, extra, plain))
      == Crlf.Message(HttpParser.HeadLines(req, req.uri.pathAndQuery.value, req.uri.host.value) + LengthLines(extra),
                      Payload(extra, plain))
  {
    var lines := HttpParser.HeadLines(req, req.uri.pathAndQuery.value, req.uri.host.value);
    HttpParser.HttpStringLines(req, None);
    HttpParser.HeadLinesClean(req, None);
    ReceiverView(lines, extra, plain);
  }
}
