/** One request/response cycle over a fresh connection (src/request.rs):
    the `Stats` record and its `Add`, the bytes written after the request
    head for each kind of body, and the phase timings derived from five clock
    readings. The network itself is an input: a `Transport` either breaks
    with a cause or delivers clock readings and the response bytes. */
module Request {
  import opened Results
  import opened Crlf
  import Decimal

  /** One measurement. The source spells `complete` as `compelete`; all
      timings are milliseconds and `length` counts response bytes. */
  datatype Stats = Stats(
    connect: nat,
    handshake: nat,
    waiting: nat,
    writing: nat,
    complete: nat,
    read: nat,
    length: nat)

  /** The six timing fields, so that a property can be stated once for all. */
  datatype Phase = Connect | Handshake | Waiting | Writing | Complete | Read

  function Timing(s: Stats, p: Phase): nat {
    match p
    case Connect => s.connect
    case Handshake => s.handshake
    case Waiting => s.waiting
    case Writing => s.writing
    case Complete => s.complete
    case Read => s.read
  }

  function Max(a: nat, b: nat): nat {
    if a >= b then a else b
  }

  /** `impl Add for Stats`: timings add up, the length is the larger one. */
  function Add(a: Stats, b: Stats): (r: Stats)
    ensures forall p :: Timing(r, p) == Timing(a, p) + Timing(b, p)
    ensures r.length >= a.length && r.length >= b.length
    ensures r.length == a.length || r.length == b.length
  {
    Stats(
      connect := a.connect + b.connect,
      waiting := a.waiting + b.waiting,
      writing := a.writing + b.writing,
      handshake := a.handshake + b.handshake,
      complete := a.complete + b.complete,
      read := a.read + b.read,
      length := Max(a.length, b.length))
  }

  /** Two records with equal fields are equal: the six timings and the length
      determine a record. */
  lemma StatsExt(a: Stats, b: Stats)
    requires forall p :: Timing(a, p) == Timing(b, p)
    requires a.length == b.length
    ensures a == b
  {
    assert Timing(a, Connect) == Timing(b, Connect);
    assert Timing(a, Handshake) == Timing(b, Handshake);
    assert Timing(a, Waiting) == Timing(b, Waiting);
    assert Timing(a, Writing) == Timing(b, Writing);
    assert Timing(a, Complete) == Timing(b, Complete);
    assert Timing(a, Read) == Timing(b, Read);
  }

  lemma AddCommutative(a: Stats, b: Stats)
    ensures Add(a, b) == Add(b, a)
  {
    StatsExt(Add(a, b), Add(b, a));
  }

  lemma AddAssociative(a: Stats, b: Stats, c: Stats)
    ensures Add(Add(a, b), c) == Add(a, Add(b, c))
  {
    StatsExt(Add(Add(a, b), c), Add(a, Add(b, c)));
  }

  // ---------------------------------------------------------------------
  // Body framing
  // ---------------------------------------------------------------------

  /** What follows the request head: a multipart file as (start, contents,
      end), a plain data body, or nothing (`Body::None`). */
  datatype Body = File(start: string, middle: string, end: string) | Simple(main: string) | NoBody

  const BlankLine: string := "\r\n\r\n"

  /** The header line a declared body length becomes. */
  function LengthLine(n: nat): string {
    "content-length: " + Decimal.Dec(n)
  }

  /** The writes issued after the head, in order; `plain` selects the
      unencrypted variant, which sends one extra CRLF after a file body.
      Every write is taken to be a full write. */
  function FramingWrites(extra: Body, plain: bool): seq<string> {
    match extra
    case File(start, middle, end) =>
      [CRLF + LengthLine(|start| + |middle| + |end|), BlankLine, start, middle, end]
      + (if plain then [CRLF] else [])
    case Simple(main) =>
      [CRLF + LengthLine(|main|), BlankLine, main]
    case NoBody =>
      [BlankLine, " \r\n"]
  }

  function Concat(writes: seq<string>): string {
    if |writes| == 0 then "" else writes[0] + Concat(writes[1..])
  }

  /** The bytes that reach the peer: the head, then the framing writes. */
  function Sent(head: string, extra: Body, plain: bool): string {
    Concat([head] + FramingWrites(extra, plain))
  }

  lemma ConcatCons(x: string, ws: seq<string>)
    ensures Concat([x] + ws) == x + Concat(ws)
  {
    assert ([x] + ws)[1..] == ws;
  }

  /** The head goes out first and unchanged. */
  lemma HeadFirst(head: string, extra: Body, plain: bool)
    ensures |Sent(head, extra, plain)| >= |head|
    ensures Sent(head, extra, plain)[..|head|] == head
  {
    ConcatCons(head, FramingWrites(extra, plain));
  }

  /** The length a body declares in its `content-length` line, if it has one. */
  function DeclaredLength(extra: Body): Option<nat> {
    match extra
    case File(start, middle, end) => Some(|start| + |middle| + |end|)
    case Simple(main) => Some(|main|)
    case NoBody => None
  }

  /** The header line the framing adds, if any. */
  function LengthLines(extra: Body): seq<string> {
    match DeclaredLength(extra)
    case Some(n) => [LengthLine(n)]
    case None => []
  }

  /** What a receiver finds after the blank line. */
  function Payload(extra: Body, plain: bool): string {
    match extra
    case File(start, middle, end) => start + middle + end + (if plain then CRLF else "")
    case Simple(main) => main
    case NoBody => " \r\n"
  }

  /** The wire bytes: head, an optional `content-length` line, a blank line,
      then the payload. */
  lemma SentLayout(head: string, extra: Body, plain: bool)
    ensures Sent(head, extra, plain) ==
      head + (if DeclaredLength(extra).Some? then CRLF + LengthLines(extra)[0] else "")
      + BlankLine + Payload(extra, plain)
  {
    match extra {
      case File(start, middle, end) =>
        SentFile(head, start, middle, end, plain);
      case Simple(main) =>
        SentSimple(head, main, plain);
      case NoBody =>
        SentNoBody(head, plain);
    }
  }

  lemma SentFile(head: string, start: string, middle: string, end: string, plain: bool)
    ensures Sent(head, File(start, middle, end), plain) ==
      head + (CRLF + LengthLine(|start| + |middle| + |end|)) + BlankLine
      + (start + middle + end + (if plain then CRLF else ""))
  {
    var cl := CRLF + LengthLine(|start| + |middle| + |end|);
    var tail := if plain then [CRLF] else [];
    var opt := if plain then CRLF else "";
    var five := [cl, BlankLine, start, middle, end];
    assert FramingWrites(File(start, middle, end), plain) == five + tail;
    assert Concat(tail) == opt by {
      if plain { ConcatCons(CRLF, []); }
    }
    ConcatCons(head, five + tail);
    ConcatAppend(five, tail);
    ConcatFive(cl, BlankLine, start, middle, end);
    Regroup(head, cl, BlankLine, start, middle, end, opt);
  }

  /** Writing two batches one after the other sends their concatenation. */
  lemma {:induction false} ConcatAppend(a: seq<string>, b: seq<string>)
    ensures Concat(a + b) == Concat(a) + Concat(b)
    decreases |a|
  {
    if |a| == 0 {
      assert a + b == b;
    } else {
      assert (a + b)[1..] == a[1..] + b;
      ConcatAppend(a[1..], b);
      Assoc(a[0], Concat(a[1..]), Concat(b));
    }
  }

  lemma ConcatFive(a: string, b: string, c: string, d: string, e: string)
    ensures Concat([a, b, c, d, e]) == a + (b + (c + (d + e)))
  {
    ConcatCons(e, []);
    assert [d] + [e] == [d, e];
    ConcatCons(d, [e]);
    assert [c] + [d, e] == [c, d, e];
    ConcatCons(c, [d, e]);
    assert [b] + [c, d, e] == [b, c, d, e];
    ConcatCons(b, [c, d, e]);
    assert [a] + [b, c, d, e] == [a, b, c, d, e];
    ConcatCons(a, [b, c, d, e]);
  }

  lemma Regroup<T>(h: seq<T>, a: seq<T>, b: seq<T>, c: seq<T>, d: seq<T>, e: seq<T>, f: seq<T>)
    ensures h + ((a + (b + (c + (d + e)))) + f) == h + a + b + (c + d + e + f)
  {
  }

  lemma SentSimple(head: string, main: string, plain: bool)
    ensures Sent(head, Simple(main), plain) ==
      head + (CRLF + LengthLine(|main|)) + BlankLine + main
  {
    var cl := CRLF + LengthLine(|main|);
    ConcatCons(main, []);
    ConcatCons(BlankLine, [main]);
    ConcatCons(cl, [BlankLine] + [main]);
    ConcatCons(head, [cl] + ([BlankLine] + [main]));
    assert [head] + FramingWrites(Simple(main), plain) == [head] + ([cl] + ([BlankLine] + [main]));
    Assoc(head, cl, BlankLine + main);
    Assoc(head + cl, BlankLine, main);
  }

  lemma SentNoBody(head: string, plain: bool)
    ensures Sent(head, NoBody, plain) == head + BlankLine + " \r\n"
  {
    ConcatCons(" \r\n", []);
    ConcatCons(BlankLine, [" \r\n"]);
    ConcatCons(head, [BlankLine] + [" \r\n"]);
    assert [head] + FramingWrites(NoBody, plain) == [head] + ([BlankLine] + [" \r\n"]);
    Assoc(head, BlankLine, " \r\n");
  }

  lemma Assoc(a: string, b: string, c: string)
    ensures a + (b + c) == a + b + c
  {
  }

  /** The payload carries exactly the declared number of bytes, except for a
      file sent in the clear, which carries two more (the trailing CRLF). */
  lemma PayloadMatchesDeclared(extra: Body, plain: bool)
    requires extra.File? || extra.Simple?
    ensures DeclaredLength(extra).Some?
    ensures |Payload(extra, plain)| ==
      DeclaredLength(extra).value + (if extra.File? && plain then 2 else 0)
  {
  }

  /** A receiver that reads the head up to the blank line finds the request's
      own header lines, then a `content-length` line whose number reads back
      as the declared length, and takes the rest as the body. */
  lemma ReceiverView(headLines: seq<string>, extra: Body, plain: bool)
    requires |headLines| >= 1 && AllNoCr(headLines) && AllNonEmpty(headLines)
    ensures ParseMessage(Sent(JoinCrlf(headLines), extra, plain)) ==
      Message(headLines + LengthLines(extra), Payload(extra, plain))
    ensures DeclaredLength(extra).Some? ==>
      Decimal.Parse(Decimal.Dec(DeclaredLength(extra).value)) == DeclaredLength(extra).value
  {
    var lines := headLines + LengthLines(extra);
    LengthLinesClean(extra);
    CleanAppend(headLines, LengthLines(extra));
    WireAsLines(headLines, extra, plain);
    ParseFramed(lines, Payload(extra, plain));
    if DeclaredLength(extra).Some? {
      Decimal.ParseDec(DeclaredLength(extra).value);
    }
  }

  /** The wire bytes as CRLF-joined lines: the head's lines, the length line,
      an empty line, then the payload. */
  lemma WireAsLines(headLines: seq<string>, extra: Body, plain: bool)
    requires |headLines| >= 1
    ensures Sent(JoinCrlf(headLines), extra, plain) ==
      JoinCrlf(headLines + LengthLines(extra) + [""]) + CRLF + Payload(extra, plain)
  {
    SentLayout(JoinCrlf(headLines), extra, plain);
    FramingAsLines(headLines, extra, Payload(extra, plain));
  }

  /** The framing after the head, as more CRLF-joined lines. */
  lemma FramingAsLines(headLines: seq<string>, extra: Body, payload: string)
    requires |headLines| >= 1
    ensures JoinCrlf(headLines) + (if DeclaredLength(extra).Some? then CRLF + LengthLines(extra)[0] else "")
      + BlankLine + payload
      == JoinCrlf(headLines + LengthLines(extra) + [""]) + CRLF + payload
  {
    if DeclaredLength(extra).Some? {
      LinesWithLength(headLines, LengthLines(extra), payload);
    } else {
      LinesWithoutLength(headLines, LengthLines(extra), payload);
    }
  }

  lemma LinesWithLength(headLines: seq<string>, ll: seq<string>, payload: string)
    requires |headLines| >= 1 && |ll| == 1
    ensures JoinCrlf(headLines) + (CRLF + ll[0]) + BlankLine + payload ==
      JoinCrlf(headLines + ll + [""]) + CRLF + payload
  {
    assert ll == [ll[0]];
    JoinSnoc(headLines, ll[0]);
    JoinSnoc(headLines + ll, "");
    RegroupWithLength(JoinCrlf(headLines), ll[0], payload);
  }

  lemma RegroupWithLength(head: string, cl: string, payload: string)
    ensures head + (CRLF + cl) + BlankLine + payload ==
      (head + CRLF + cl + CRLF + "") + CRLF + payload
  {
    assert BlankLine == CRLF + CRLF;
  }

  lemma LinesWithoutLength(headLines: seq<string>, ll: seq<string>, payload: string)
    requires |headLines| >= 1 && ll == []
    ensures JoinCrlf(headLines) + "" + BlankLine + payload ==
      JoinCrlf(headLines + ll + [""]) + CRLF + payload
  {
    assert headLines + ll == headLines;
    JoinSnoc(headLines, "");
    RegroupWithoutLength(JoinCrlf(headLines), payload);
  }

  lemma RegroupWithoutLength(head: string, payload: string)
    ensures head + "" + BlankLine + payload == (head + CRLF + "") + CRLF + payload
  {
    assert BlankLine == CRLF + CRLF;
  }

  /** The `content-length` line is a non-empty line without CR. */
  lemma LengthLinesClean(extra: Body)
    ensures AllNoCr(LengthLines(extra)) && AllNonEmpty(LengthLines(extra))
  {
    if DeclaredLength(extra).Some? {
      var d := Decimal.Dec(DeclaredLength(extra).value);
      var line := LengthLine(DeclaredLength(extra).value);
      assert LengthLines(extra) == [line];
      assert forall k :: 0 <= k < |d| ==> Decimal.IsDigit(d[k]);
      assert forall k :: 0 <= k < |line| ==> line[k] != '\r' by {
        forall k | 0 <= k < |line| ensures line[k] != '\r' {
          if k >= 16 { assert line[k] == d[k - 16]; }
        }
      }
    }
  }

  // ---------------------------------------------------------------------
  // Phase timings
  // ---------------------------------------------------------------------

  /** Milliseconds since the start instant, read after each step of an
      encrypted exchange: connected, handshake done, request written, first
      response byte, response drained. */
  datatype TlsClock = TlsClock(connected: nat, handshaken: nat, written: nat, firstByte: nat, drained: nat)

  /** The same readings for a plaintext exchange, which has no handshake. */
  datatype PlainClock = PlainClock(connected: nat, written: nat, firstByte: nat, drained: nat)

  /** Readings of a monotone clock never go backwards. */
  predicate TlsMonotone(c: TlsClock) {
    c.connected <= c.handshaken <= c.written <= c.firstByte <= c.drained
  }

  predicate PlainMonotone(c: PlainClock) {
    c.connected <= c.written <= c.firstByte <= c.drained
  }

  /** Readings taken from `Instant`, which is monotone. */
  type TlsReadings = c: TlsClock | TlsMonotone(c) witness TlsClock(0, 0, 0, 0, 0)
  type PlainReadings = c: PlainClock | PlainMonotone(c) witness PlainClock(0, 0, 0, 0)

  /** Bytes counted as the response length: `read_to_end` after one byte was
      taken into `first` (a 1-byte read takes nothing only at end of stream). */
  function DrainedLength(response: string): (n: nat)
    ensures n + (if |response| > 0 then 1 else 0) == |response|
  {
    if |response| == 0 then 0 else |response[1..]|
  }

  /** The timings of an encrypted exchange, each computed by subtracting the
      earlier phases from the elapsed time, left to right as the source's
      `u128` chains do. Every intermediate difference is given a `nat` name,
      so each single subtraction is shown not to underflow. */
  function TlsTimings(c: TlsClock, length: nat): (s: Stats)
    requires TlsMonotone(c)
    ensures s.connect == c.connected
    ensures s.handshake == c.handshaken - c.connected
    ensures s.writing == c.written - c.handshaken
    ensures s.waiting == c.firstByte - c.written
    ensures s.read == c.drained - c.firstByte
    ensures s.connect + s.handshake + s.writing + s.waiting + s.read == s.complete
    ensures s.complete == c.drained && s.length == length
  {
    var connect: nat := c.connected;
    var handshake: nat := c.handshaken - connect;
    var w1: nat := c.written - handshake;
    var writing: nat := w1 - connect;
    var f1: nat := c.firstByte - handshake;
    var f2: nat := f1 - connect;
    var waiting: nat := f2 - writing;
    var complete: nat := c.drained;
    var r1: nat := complete - connect;
    var r2: nat := r1 - waiting;
    var r3: nat := r2 - handshake;
    var read: nat := r3 - writing;
    Stats(
      connect := connect,
      handshake := handshake,
      waiting := waiting,
      writing := writing,
      read := read,
      complete := complete,
      length := length)
  }

  /** The timings of a plaintext exchange: the handshake is zero and the other
      phases partition the elapsed time. As for the encrypted exchange, each
      step of the subtraction chains is a `nat`. */
  function PlainTimings(c: PlainClock, length: nat): (s: Stats)
    requires PlainMonotone(c)
    ensures s.handshake == 0
    ensures s.connect == c.connected
    ensures s.writing == c.written - c.connected
    ensures s.waiting == c.firstByte - c.written
    ensures s.read == c.drained - c.firstByte
    ensures s.connect + s.writing + s.waiting + s.read == s.complete
    ensures s.complete == c.drained && s.length == length
  {
    var connect: nat := c.connected;
    var writing: nat := c.written - connect;
    var f1: nat := c.firstByte - connect;
    var waiting: nat := f1 - writing;
    var complete: nat := c.drained;
    var r1: nat := complete - connect;
    var r2: nat := r1 - waiting;
    var read: nat := r2 - writing;
    Stats(
      connect := connect,
      handshake := 0,
      waiting := waiting,
      writing := writing,
      read := read,
      complete := complete,
      length := length)
  }

  /** What the network did for one attempt: it broke (connect, handshake,
      write or read error) with a cause, or it completed with clock readings
      and the full response. */
  datatype Transport<C> = Broken(cause: string) | Completed(clock: C, response: string)

  /** The result of one successful attempt: the bytes sent and the measurement. */
  datatype Exchange = Exchange(sent: string, stats: Stats)

  /** `make_https_request`. */
  function MakeHttpsRequest(head: string, extra: Body, t: Transport<TlsReadings>): (r: Result<Exchange>)
    ensures t.Broken? <==> r.Err?
    ensures t.Broken? ==> r.msg == t.cause
    ensures r.Ok? ==> |r.value.sent| >= |head| && r.value.sent[..|head|] == head
    ensures r.Ok? ==> r.value.stats.length == DrainedLength(t.response)
    ensures r.Ok? ==> r.value.stats.complete == t.clock.drained
  {
    match t
    case Broken(cause) => Err(cause)
    case Completed(clock, response) =>
      HeadFirst(head, extra, false);
      Ok(Exchange(Sent(head, extra, false), TlsTimings(clock, DrainedLength(response))))
  }

  /** `make_http_request`. */
  function MakeHttpRequest(head: string, extra: Body, t: Transport<PlainReadings>): (r: Result<Exchange>)
    ensures t.Broken? <==> r.Err?
    ensures t.Broken? ==> r.msg == t.cause
    ensures r.Ok? ==> |r.value.sent| >= |head| && r.value.sent[..|head|] == head
    ensures r.Ok? ==> r.value.stats.length == DrainedLength(t.response)
    ensures r.Ok? ==> r.value.stats.handshake == 0 && r.value.stats.complete == t.clock.drained
  {
    match t
    case Broken(cause) => Err(cause)
    case Completed(clock, response) =>
      HeadFirst(head, extra, true);
      Ok(Exchange(Sent(head, extra, true), PlainTimings(clock, DrainedLength(response))))
  }
}
