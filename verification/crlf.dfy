/** CRLF-delimited lines, the framing unit of an HTTP/1.1 message head
    (section 3 of RFC 7230). `JoinCrlf` is how the request builders lay out
    lines; `SplitCrlf` and `ParseMessage` are how a receiver reads them back,
    and serve as the independent partner of every builder in the model. */
module Crlf {

  const CRLF: string := "\r\n"

  /** A line that carries no carriage return, so CRLF can only appear
      between lines. */
  predicate NoCr(s: string) {
    '\r' !in s
  }

  predicate CrlfAt(s: string, k: int) {
    0 <= k && k + 1 < |s| && s[k] == '\r' && s[k + 1] == '\n'
  }

  /** Lines glued together with CRLF between consecutive lines. */
  function JoinCrlf(lines: seq<string>): string
    decreases |lines|
  {
    if |lines| == 0 then ""
    else if |lines| == 1 then lines[0]
    else lines[0] + CRLF + JoinCrlf(lines[1..])
  }

  /** The position of the first CRLF at or after `from`, or `|s|` when there is none. */
  function FindCrlf(s: string, from: nat): (i: nat)
    requires from <= |s|
    ensures from <= i <= |s|
    ensures i < |s| ==> CrlfAt(s, i)
    ensures forall k :: from <= k < i ==> !CrlfAt(s, k)
    decreases |s| - from
  {
    if from + 1 >= |s| then |s|
    else if s[from] == '\r' && s[from + 1] == '\n' then from
    else FindCrlf(s, from + 1)
  }

  /** The text cut at every CRLF; always at least one (possibly empty) line. */
  function SplitCrlf(s: string): (lines: seq<string>)
    ensures |lines| >= 1
    decreases |s|
  {
    var i := FindCrlf(s, 0);
    if i == |s| then [s] else [s[..i]] + SplitCrlf(s[i + 2..])
  }

  function AllNoCr(lines: seq<string>): bool {
    forall i :: 0 <= i < |lines| ==> NoCr(lines[i])
  }

  /** Four lines joined, written out. */
  lemma JoinFour(a: string, b: string, c: string, d: string)
    ensures JoinCrlf([a, b, c, d]) == a + CRLF + b + CRLF + c + CRLF + d
  {
    var l := [a, b, c, d];
    assert l[1..] == [b, c, d];
    assert l[1..][1..] == [c, d];
    assert l[1..][1..][1..] == [d];
    assert JoinCrlf([c, d]) == c + CRLF + d;
    assert JoinCrlf([b, c, d]) == b + CRLF + (c + CRLF + d);
    assert JoinCrlf(l) == a + CRLF + (b + CRLF + (c + CRLF + d));
  }

  /** Five lines joined, written out. */
  lemma JoinFive(a: string, b: string, c: string, d: string, e: string)
    ensures JoinCrlf([a, b, c, d, e]) == a + CRLF + (b + CRLF + (c + CRLF + (d + CRLF + e)))
  {
    JoinFront(d, [e]);
    JoinFront(c, [d, e]);
    JoinFront(b, [c, d, e]);
    JoinFront(a, [b, c, d, e]);
    assert [d] + [e] == [d, e];
    assert [c] + [d, e] == [c, d, e];
    assert [b] + [c, d, e] == [b, c, d, e];
    assert [a] + [b, c, d, e] == [a, b, c, d, e];
  }

  /** Clean blocks stay clean when put together. */
  lemma CleanAppend(a: seq<string>, b: seq<string>)
    requires AllNoCr(a) && AllNonEmpty(a) && AllNoCr(b) && AllNonEmpty(b)
    ensures AllNoCr(a + b) && AllNonEmpty(a + b)
  {
    forall i | 0 <= i < |a + b| ensures NoCr((a + b)[i]) && (a + b)[i] != "" {
      if i < |a| { assert (a + b)[i] == a[i]; } else { assert (a + b)[i] == b[i - |a|]; }
    }
  }

  /** A line without CR ends exactly where the first CRLF of what follows it starts. */
  lemma FindAfterLine(a: string, rest: string)
    requires NoCr(a)
    ensures FindCrlf(a + CRLF + rest, 0) == |a|
  {
    assert CrlfAt(a + CRLF + rest, |a|);
  }

  /** A line without CR contains no CRLF at all. */
  lemma FindInLine(a: string)
    requires NoCr(a)
    ensures FindCrlf(a, 0) == |a|
  {
  }

  lemma SplitSingle(a: string)
    requires NoCr(a)
    ensures SplitCrlf(a) == [a]
  {
    FindInLine(a);
  }

  /** A CR-free line followed by CRLF splits off as the first line. */
  lemma SplitLine(a: string, more: string)
    requires NoCr(a)
    ensures SplitCrlf(a + CRLF + more) == [a] + SplitCrlf(more)
  {
    var s := a + CRLF + more;
    FindAfterLine(a, more);
    assert s[..|a|] == a;
    assert s[|a| + 2..] == more;
  }

  /** Splitting CR-free lines that are followed by more text gives back those
      lines, then the split of the remainder. */
  lemma {:induction false} SplitJoinThen(lines: seq<string>, rest: string)
    requires |lines| >= 1 && AllNoCr(lines)
    ensures SplitCrlf(JoinCrlf(lines) + CRLF + rest) == lines + SplitCrlf(rest)
    decreases |lines|
  {
    var a := lines[0];
    assert NoCr(a);
    if |lines| == 1 {
      SplitLine(a, rest);
      assert JoinCrlf(lines) == a;
      assert lines == [a];
    } else {
      var tail := lines[1..];
      JoinCons(lines);
      RegroupLine(a, JoinCrlf(tail), rest);
      SplitLine(a, JoinCrlf(tail) + CRLF + rest);
      TailNoCr(lines);
      SplitJoinThen(tail, rest);
      ConsAppend(lines, SplitCrlf(rest));
    }
  }

  /** A block of two or more lines is its first line, CRLF, and the rest. */
  lemma JoinCons(lines: seq<string>)
    requires |lines| >= 2
    ensures JoinCrlf(lines) == lines[0] + CRLF + JoinCrlf(lines[1..])
  {
  }

  lemma RegroupLine(a: string, j: string, rest: string)
    ensures (a + CRLF + j) + CRLF + rest == a + CRLF + (j + CRLF + rest)
  {
  }

  lemma TailNoCr(lines: seq<string>)
    requires |lines| >= 1 && AllNoCr(lines)
    ensures AllNoCr(lines[1..])
  {
    forall i | 0 <= i < |lines| - 1 ensures NoCr(lines[1..][i]) { assert lines[1..][i] == lines[i + 1]; }
  }

  lemma ConsAppend(lines: seq<string>, more: seq<string>)
    requires |lines| >= 1
    ensures [lines[0]] + (lines[1..] + more) == lines + more
  {
    assert lines == [lines[0]] + lines[1..];
  }

  /** Round trip: CR-free lines survive joining and splitting unchanged. */
  lemma {:induction false} SplitJoin(lines: seq<string>)
    requires |lines| >= 1 && AllNoCr(lines)
    ensures SplitCrlf(JoinCrlf(lines)) == lines
  {
    if |lines| == 1 {
      SplitSingle(lines[0]);
    } else {
      var n := |lines| - 1;
      JoinSnoc(lines[..n], lines[n]);
      assert lines[..n] + [lines[n]] == lines;
      SplitJoinThen(lines[..n], lines[n]);
      SplitSingle(lines[n]);
    }
  }

  /** Appending one line to a non-empty block adds one CRLF and the line. */
  lemma {:induction false} JoinSnoc(lines: seq<string>, last: string)
    requires |lines| >= 1
    ensures JoinCrlf(lines + [last]) == JoinCrlf(lines) + CRLF + last
    decreases |lines|
  {
    if |lines| == 1 {
      assert (lines + [last])[1..] == [last];
    } else {
      assert (lines + [last])[1..] == lines[1..] + [last];
      JoinSnoc(lines[1..], last);
    }
  }

  /** Splitting loses nothing: joining the pieces rebuilds any text. */
  lemma {:induction false} JoinSplit(s: string)
    ensures JoinCrlf(SplitCrlf(s)) == s
    decreases |s|
  {
    var i := FindCrlf(s, 0);
    if i < |s| {
      var rest := s[i + 2..];
      JoinSplit(rest);
      assert SplitCrlf(s) == [s[..i]] + SplitCrlf(rest);
      JoinFront(s[..i], SplitCrlf(rest));
      CutAtCrlf(s, i);
    }
  }

  /** One more line in front of a block adds that line and one CRLF. */
  lemma JoinFront(line: string, pieces: seq<string>)
    requires |pieces| >= 1
    ensures JoinCrlf([line] + pieces) == line + CRLF + JoinCrlf(pieces)
  {
    assert ([line] + pieces)[1..] == pieces;
  }

  /** Text with a CRLF at `i` is what comes before, the CRLF, and what follows. */
  lemma CutAtCrlf(s: string, i: nat)
    requires CrlfAt(s, i)
    ensures s == s[..i] + CRLF + s[i + 2..]
  {
    assert s[..i] + CRLF + s[i + 2..] == s[..i] + s[i..i + 2] + s[i + 2..];
    assert s[..i] + s[i..i + 2] == s[..i + 2];
  }

  /** The position of the first empty line, or `|lines|` when there is none. */
  function FirstEmpty(lines: seq<string>): (k: nat)
    ensures k <= |lines|
    ensures k < |lines| ==> lines[k] == ""
    ensures forall j :: 0 <= j < k ==> lines[j] != ""
  {
    if |lines| == 0 then 0
    else if lines[0] == "" then 0
    else 1 + FirstEmpty(lines[1..])
  }

  /** A receiver's view of an HTTP/1.1 message: the header lines before the
      first empty line, and everything after that empty line as the body. */
  datatype Message = Message(head: seq<string>, body: string)

  function ParseMessage(wire: string): Message {
    var lines := SplitCrlf(wire);
    var k := FirstEmpty(lines);
    if k == |lines| then Message(lines, "")
    else Message(lines[..k], JoinCrlf(lines[k + 1..]))
  }

  function AllNonEmpty(lines: seq<string>): bool {
    forall i :: 0 <= i < |lines| ==> lines[i] != ""
  }

  /** A message laid out as non-empty CR-free header lines, a blank line and a
      body is read back as exactly those lines and that body. */
  lemma ParseFramed(head: seq<string>, body: string)
    requires |head| >= 1 && AllNoCr(head) && AllNonEmpty(head)
    ensures ParseMessage(JoinCrlf(head + [""]) + CRLF + body) == Message(head, body)
  {
    var lines := head + [""];
    var rest := SplitCrlf(body);
    BlankAppended(head);
    SplitJoinThen(lines, body);
    var all := lines + rest;
    FramedLines(head, rest);
    FirstEmptyAt(all, |head|);
    JoinSplit(body);
  }

  /** Appending the empty line keeps a clean block free of CR. */
  lemma BlankAppended(head: seq<string>)
    requires AllNoCr(head)
    ensures AllNoCr(head + [""])
  {
    var lines := head + [""];
    forall i | 0 <= i < |lines| ensures NoCr(lines[i]) {
      if i < |head| { assert lines[i] == head[i]; }
    }
  }

  /** The header lines, the empty line, then the body's lines: the empty line
      is the first one, and it separates the two parts. */
  lemma FramedLines(head: seq<string>, rest: seq<string>)
    requires AllNonEmpty(head)
    ensures var all := head + [""] + rest;
      && all[|head|] == ""
      && (forall j :: 0 <= j < |head| ==> all[j] != "")
      && all[..|head|] == head
      && all[|head| + 1..] == rest
  {
    var all := head + [""] + rest;
    forall j | 0 <= j < |head| ensures all[j] != "" { assert all[j] == head[j]; }
    assert all[..|head|] == head;
    assert all[|head| + 1..] == rest;
  }

  lemma FirstEmptyAt(lines: seq<string>, k: nat)
    requires k < |lines| && lines[k] == ""
    requires forall j :: 0 <= j < k ==> lines[j] != ""
    ensures FirstEmpty(lines) == k
  {
  }
}
