# bust, modelled in Dafny

bust is a small HTTP load tester. It takes a URL, a concurrency `c` and a
total `n`. It then runs `n / c` waves of requests, each over a fresh TCP or
TLS connection. It measures six phases of each request: connect,
handshake, writing, waiting, read and complete. Its task table prints the
DNS lookup time and the minimum, mean and maximum of every phase except
`read`, which is computed but not printed. It also prints percentiles of
the completion times.

This project models the deterministic core of that program:

- **Statistics fold and run accounting.** `calculate_stats` folds one sample
  into the min, max and sum accumulators. `Stats` has an `Add`. The run in
  `main` is a pure fold over waves of request results.
- **Phase arithmetic.** The six timings come from five monotone clock
  readings.
- **Request serialisation:**
  - the request line and header block (`http_string`), following section 3
    of RFC 7230;
  - the body framing written after it (`content-length` and the blank line);
  - the multipart part framing of `get_file_as_parts`, following section
    17.13.4.2 of HTML 4.01 and section 5.1.1 of RFC 2046.
- **Percentile rows.** Nearest-rank index selection in
  `create_percent_table`.
- **Command-line token parsers.** `key=value` pairs, headers, and the
  method enum.

The network, the file system, DNS and the clock are not executed. Their
outcomes enter as inputs:

- a `Transport` per request: either broken with a cause, or completed with
  monotone clock readings and the response bytes;
- a `FileLookup` for the `-f` path;
- a parsed `Uri`.

A request's result is `Result<Stats>`, and a wave is the sequence of its
slots' results. `main`'s outcome is `Finished(report)`, `Failed(msg)` for
an error returned with `?`, or `Panicked(reason)` for the three panics the
model covers:

- `n / c` with `c = 0`;
- the averages with `n = 0`;
- the percentile table on an empty sample list.

Modules, one per file:

| module | file | source |
|---|---|---|
| `Results` | results.dfy | `Option` / `Result` |
| `Crlf` | crlf.dfy | CRLF joining and splitting; a receiver that reads a head up to the blank line |
| `Decimal` | decimal.dfy | decimal rendering of `content-length` and its parse |
| `Request` | request.dfy | src/request.rs |
| `Calculate` | calculate.dfy | src/calculate.rs |
| `Arith` | arith.dfy | whole-number facts shared by the percentile positions and the averages |
| `Sorting` | sorting.dfy | the `sort()` of src/main.rs |
| `Tables` | tables.dfy | `create_percent_table` in src/tables.rs |
| `HttpParser` | http_parser.dfy | src/http_parser.rs |
| `Multipart` | multipart.dfy | src/multipart.rs |
| `ArgsParser` | args_parser.dfy | src/args_parser.rs |
| `Run` | run.dfy | accumulators, port, waves, averages in src/main.rs |
| `Pipeline` | pipeline.dfy | `main` from arguments to report |

Behaviour of the code worth noting:

- A wave launches `c - 1` requests (slots `1..c`), not `c`. With `c = 1`
  every wave is empty, so the run never reports.
- The first failing request aborts the whole run; failures are not counted.
- The reported response length is the last sample's `length`, not a maximum.
- Averages divide by the configured total `n`, not by the number of samples.
- There is no minimum-sample threshold. An empty sample list panics in the
  percentile table.
- `http_string` takes the request and an optional `auth`. `main` calls it
  with the request alone, so it is modelled as `HttpString(req, None)`. The
  `-a` and `-C` options are parsed and never used.
- The code emits `Connection: Close` with a space. The expectations in
  src/test.rs:28-74 spell it `Connection:Close`. The model follows
  src/http_parser.rs:23.

## Model

| member | source | states |
|---|---|---|
| Calculate.CalculateStats | src/calculate.rs:4-25 | per phase, the new min is at most the old min and the sample and equals one of them (so it is their minimum); likewise the new max is their maximum; the sum gains the sample; no `length` field changes |
| Calculate.CalculateCommutes | src/calculate.rs:5-24 | folding two samples in either order gives the same accumulators |
| Calculate.Fold | src/main.rs:133-137 | the samples folded into the accumulators one by one, first to last, with `calculate_stats` |
| Calculate.FoldMonotone | src/calculate.rs:5-24 | over any run of samples, min never rises, max and sum never fall, and no `length` changes |
| Calculate.FoldBounds | src/calculate.rs:5-24 | after the fold, every sample's timing lies between min and max, and sum is the start value plus the samples' sum |
| Calculate.FoldAttained | src/calculate.rs:5-17 | the final min and max are each the start value or the timing of some sample |
| Calculate.SumBetween | src/calculate.rs:19-24 | `min * k <= sum <= max * k` over `k` samples |
| Calculate.FoldAppend | src/calculate.rs:4-25 | folding `a + b` is folding `a` and then `b`, so waves can be folded one after another |
| Calculate.FoldPermutation | src/calculate.rs:5-24 | two orderings of the same samples (equal multisets) give identical min, max and sum |
| Request.Add | src/request.rs:17-29 | each timing of a sum is the sum of the timings; the length is the larger length |
| Request.AddCommutative | src/request.rs:17-29 | `a + b == b + a` |
| Request.AddAssociative | src/request.rs:17-29 | `(a + b) + c == a + (b + c)` |
| Request.Sent | src/request.rs:52-78 | the bytes that reach the peer: the head, then the framing writes for the body kind, in the order of the `write`/`write_all` calls; the plaintext writes of src/request.rs:105-122 are the same plus the trailing CRLF of a file |
| Request.HeadFirst | src/request.rs:52-78 | the serialised head is sent first and unchanged, before any framing bytes |
| Request.SentLayout | src/request.rs:53-78 | the bytes sent are: the head, then a CRLF and `content-length` line when the body declares a length, then the blank line, then the payload |
| Request.SentFile | src/request.rs:107-122 | a file body sends `CRLF content-length: <start+middle+end>`, a blank line, then start, middle and end; the plaintext variant adds one more CRLF |
| Request.SentSimple | src/request.rs:68-73 | a data body sends `CRLF content-length: <len>`, a blank line, then the data |
| Request.SentNoBody | src/request.rs:74-77 | no body sends the blank line and then a space and CRLF, with no length line |
| Request.PayloadMatchesDeclared | src/request.rs:107-122 | the payload has exactly the declared length, except that a file sent in the clear carries two bytes more |
| Request.ReceiverView | src/request.rs:52-78 | a receiver splitting at the first empty line finds the head's lines plus the `content-length` line, and the payload as body; the length number parses back to the declared length |
| Decimal.ParseDec | src/request.rs:57-58 | the decimal rendering of a length reads back as that length |
| Decimal.Dec | src/request.rs:57-58 | the `{}` rendering of a length is a non-empty run of digits with no leading zero unless the length is 0, one digit exactly below 10; `Decimal.ParseDec` reads it back |
| Request.DrainedLength | src/request.rs:80-84 | the reported length excludes the one byte read into `first` |
| Request.TlsTimings | src/request.rs:47-94 | with monotone readings, each phase is the difference of consecutive readings (every single subtraction of the `u128` chains, step by step, stays non-negative), and connect + handshake + writing + waiting + read == complete == total elapsed |
| Request.PlainTimings | src/request.rs:102-150 | handshake is 0, every single subtraction of the `u128` chains stays non-negative, and connect + writing + waiting + read == complete == total elapsed |
| Request.MakeHttpsRequest | src/request.rs:39-95 | an error exactly when the transport broke, with its cause; on success the head leads the bytes sent, the length is the drained count, and complete is the last reading |
| Request.MakeHttpRequest | src/request.rs:97-151 | the same for plaintext, with handshake 0 |
| Sorting.Sort | src/main.rs:166 | the result is ascending and a permutation of the input |
| Sorting.SortedUnique | src/main.rs:166 | two ascending permutations of the same values are equal, so the sorted list does not depend on the algorithm |
| Tables.IndicesInRange | src/tables.rs:52-77 | for a non-empty slice, the indices `total/2`, `total*3/4`, `total*9/10`, `total*95/100` and `total-1` are in bounds and non-decreasing |
| Tables.CreatePercentTable | src/tables.rs:52-80 | each row is the element at its index, and so a value of the input; the input is only read |
| Tables.SortedRows | src/tables.rs:61-77 | on sorted input the rows never decrease, and the 100% row is the maximum |
| Tables.FourSamples | src/tables.rs:52-80 | `[10,20,30,40]` gives 30 for 50% and 40 for every other row |
| HttpParser.HttpString | src/http_parser.rs:3-20 | an error exactly when host or path is missing, and a missing host is reported first, each with its message |
| HttpParser.HeaderTextLines | src/http_parser.rs:28-30 | each header appends CRLF, then `name: value`, in order |
| HttpParser.HttpStringLines | src/http_parser.rs:21-31 | the output is the CRLF-join of the request line, `Host: [auth@]host`, `User-Agent: Bust/0.0.1`, `Connection: Close` and the header lines |
| HttpParser.HttpStringReadBack | src/http_parser.rs:21-32 | for CR-free parts, splitting the output at CRLF gives exactly those lines, all non-empty, so the output does not end in CRLF |
| HttpParser.GoogleExample | src/http_parser.rs:21-31 | a POST to `https://google.com` with a `content-type` header gives the five expected lines |
| Multipart.GetFileAsParts | src/multipart.rs:7-31 | a missing file name is reported first, then a read error; on success the middle is the file unchanged, and start and end are the part-header lines and the close-delimiter lines joined by CRLF; the type falls back to `text/plain` |
| Multipart.FramingReadBack | src/multipart.rs:28-29 | for CR-free inputs, the part header splits into `--key`, the disposition line, the type line and the blank line; the closing piece splits into an empty line, `--key--` and an empty line |
| Multipart.TestFileExample | src/test.rs:9-17 | boundary `key`, field `files` and a file `test_file.txt` holding `hello there!` give the expected three parts |
| ArgsParser.Split | src/args_parser.rs:85 | `s.split("=")` gives one more piece than there are `=` in the input, and no piece contains `=`; this count decides whether a pair or a header parses (the same split is at src/args_parser.rs:22) |
| ArgsParser.JoinSplit | src/args_parser.rs:85 | splitting at `=` loses nothing: the pieces joined by `=` give the input (the same split is the first step of `Header::from_str`, src/args_parser.rs:22) |
| ArgsParser.ValuePairFromStr | src/args_parser.rs:81-94 | success exactly when the input has one `=`; then `key + "=" + value` is the input and neither part has `=`; otherwise the fixed message |
| ArgsParser.PairRoundTrip | src/args_parser.rs:81-94 | a key and value without `=` are read back from `key=value` |
| ArgsParser.HeaderFromStr | src/args_parser.rs:18-39 | a token without exactly one `=` gets the key=value message whatever the validators say; otherwise the name is checked first, then the value |
| ArgsParser.MethodFromStr | src/args_parser.rs:51-65 | never fails; a token equal, ignoring case, to a method's name gives that method, and the result is `GET` unless the token names another method |
| ArgsParser.MethodToString | src/args_parser.rs:67-79 | names are upper case |
| ArgsParser.MethodRoundTrip | src/args_parser.rs:51-79 | reading a method's own name gives the method back, for all six |
| ArgsParser.MethodCaseInsensitive | src/args_parser.rs:55 | a token and its lower-case form parse alike |
| ArgsParser.MethodToStringInjective | src/args_parser.rs:67-79 | different methods print differently |
| Run.FirstSampleSetsAll | src/main.rs:94-120 | the sentinels are neutral: after one representable sample, min, max and sum equal that sample |
| Run.InitialFoldAttained | src/main.rs:94-137 | starting from the sentinels, the min and max of a non-empty run are values some sample had, and the sum is the plain sum |
| Run.ResolvePort | src/main.rs:85-92 | an explicit port wins; otherwise https gives 443 and http gives 80; any other scheme is an error |
| Run.Wave | src/main.rs:128-131 | one wave holds `c - 1` requests, the request at position `j` being slot `j + 1` of that wave |
| Run.AllResultsAt | src/main.rs:125-131 | in launch order, request `j` of wave `w` is at position `w * (c - 1) + (j - 1)` of all the run's requests |
| Run.TryJoinAll | src/main.rs:132 | success exactly when every result succeeded, with the values in order; otherwise an error that one of the results carried |
| Run.Cycles | src/main.rs:122 | the number of waves is `n / c` rounded down |
| Run.RunWaves | src/main.rs:125-153 | the first `n` waves: each checks the scheme, joins its requests with `try_join_all` and collects the samples; the first error ends the run |
| Run.RunLoop | src/main.rs:121-153 | the wave-by-wave, sample-by-sample loop computes the functional run |
| Run.RunOutcome | src/main.rs:125-153 | the run succeeds exactly when there are no waves, or the scheme is http/https and every request succeeded; it then holds the collection of all samples in launch order |
| Run.CollectWave | src/main.rs:133-137 | the sample-by-sample `for_each` over a joined wave computes the collected state: every sample folded with `calculate_stats`, completion times appended in order, and the last sample's length kept |
| Run.CollectAppend | src/main.rs:126-137 | collecting one wave after another is the same as collecting both waves' samples at once, so the state after the outer loop depends only on the concatenated samples |
| Run.SampleCount | src/main.rs:122-131 | a successful run records `(n / c) * (c - 1)` samples, which is at most `n` |
| Run.EightySeven | src/main.rs:122-131 | `n = 100` and `c = 30` give 87 samples |
| Run.AnyErrorAborts | src/main.rs:132 | one failing request in any wave fails the run |
| Run.ErrorFromSomewhere | src/main.rs:125-153 | a failed run reports the protocol error or the error of one of its requests |
| Run.Averages | src/main.rs:167-172 | each average is the sum divided by `n`, rounded down |
| Run.AverageAtMostMax | src/main.rs:167-172 | with at most `n` samples, no average exceeds the maximum |
| Run.AverageBelowMin | src/main.rs:167-172 | averages are not bounded below by the minimum: 87 samples of 10 ms over `n = 100` average 8 ms |
| Pipeline.InsertHeader | src/main.rs:36-39 | inserting keeps names unique, adds the header, and keeps every header of another name |
| Pipeline.InsertThenLookup | src/main.rs:36-47 | after insertion, looking up the new name gives the new value, and any other name gives what it gave before |
| Pipeline.InsertAll | src/main.rs:36-39 | inserting the `-H` headers in order keeps header names unique |
| Pipeline.InsertAllLookup | src/main.rs:36-39 | after the loop, looking up a name gives the value of the last `-H` header with that name, or what it gave before when no header had that name |
| Pipeline.ChooseBody | src/main.rs:40-60 | a file wins over data, which wins over no body; a file sets the multipart `content-type` and fails exactly when its name or contents are missing |
| Pipeline.Prepare | src/main.rs:27-92 | the set-up order: the file error comes before a missing scheme; success implies scheme, host and path exist, and a default port comes from a known scheme |
| Pipeline.Attempt | src/main.rs:126-150 | http uses the plaintext exchange (handshake 0), https the encrypted one; each succeeds exactly when its transport completed |
| Pipeline.Measure | src/main.rs:122-180 | concurrency 0 panics; a report implies concurrency and total are at least 1 |
| Pipeline.Benchmark | src/main.rs:24-182 | a set-up error is returned as is; concurrency 0 after a good set-up panics |
| Pipeline.FinishedMeans | src/main.rs:121-180 | a report means every request of every wave succeeded; min and max are the fold of all samples, the length is the last sample's, the rows come from the sorted completion times, and no average exceeds its maximum |
| Pipeline.ConcurrencyOneNeverReports | src/main.rs:129 | with `c = 1` no run ever reports |
| Pipeline.TooFewRequestsPanic | src/main.rs:122-125 | with `n < c` there are no waves, and the run panics |
| Pipeline.OneFailureFails | src/main.rs:132 | one failed request anywhere in the run fails the whole benchmark |
| Pipeline.RequestOnTheWire | src/http_parser.rs:21-31 | a receiver reading the bytes sent for a well-formed request finds the request's head lines, the length line and the payload |

## Left out

- Network I/O is not modelled: TCP connect, the TLS handshake, socket reads
  and writes. Each request's outcome is a `Transport` input.
- Every `write` is taken to be a full write. The short-write risk of `write`
  versus `write_all` is not modelled.
- DNS resolution and `lookup_time` (src/main.rs:70-84) are not modelled; the
  lookup is assumed to give an address. The resolver is a foreign async
  library.
- The concurrency of `try_join_all` is not modelled. A wave is the sequence
  of its results in launch order.
- Run.TryJoinAll: it reports the first error in launch order. The real
  future reports whichever failure it polls first, so the contract only
  promises "an error one of the requests gave".
- Console output is not modelled: the spinner, `println!`, the task table
  and `printstd`. The report is returned as a value instead.
- Clock readings are `nat` milliseconds. `as_millis` truncation and
  wall-clock time are not modelled. Monotonicity of `Instant` is a subset
  type on the readings.
- u128 and usize overflow are not modelled; all counters are unbounded
  `nat`. The sentinels are still `2^128 - 1` and `2^64 - 1` (64-bit target).
  Run.FirstSampleSetsAll and Run.InitialFoldAttained assume samples at or
  below the u128 sentinel.
- Text and bytes are both `string`, one character per byte. UTF-8 encoding
  and `to_str` checks are not modelled. In particular the panic of
  `val.to_str().unwrap()` (src/http_parser.rs:29) on a header value with a
  byte of 0x80 or above, which `HeaderValue::from_str` accepts, is not
  modelled.
- The `argh` derive and the `http` crate's URI parsing are not modelled. The
  parsed `Uri`, the `-M` method text and the header list are inputs.
- ArgsParser.HeaderFromStr: `HeaderName::from_bytes` (including its
  lower-casing) and `HeaderValue::from_str` are function parameters that
  give the stored form or the error text.
- ArgsParser.MethodFromStr: `to_lowercase` is modelled for ASCII letters
  only.
- Multipart.GetFileAsParts: `Path::file_name`, `mime_guess` and the file
  read are inputs, not modelled.
- Pipeline.InsertHeader: the `HeaderMap` ordering is modelled as "replace in
  place, else append"; the crate's internal hashing order is not.
- src/bench.rs is a micro-benchmark harness; it is not part of this model.
