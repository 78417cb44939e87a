/** The command-line token parsers of src/args_parser.rs: `key=value`
    pairs, `name=value` headers, and the method enum with its
    case-insensitive parse. The argh derive that feeds them is not modelled,
    nor is the http crate's validation of header names and values, which
    enters as two parsing functions. */
module ArgsParser {
  import opened Results

  const Separator: char := '='
  const PairMessage: string := "invalid argument should be in form of key=value"
  /** The header parser's message, which has two spaces before "form". */
  const HeaderPairMessage: string := "invalid argument should be in  form of key=value"

  /** The number of times `c` occurs in `s`. */
  function Occurrences(s: string, c: char): nat {
    multiset(s)[c]
  }

  /** `s.split(sep)`: the pieces between separators, including the empty
      ones before a leading, after a trailing and between adjacent
      separators. */
  function Split(s: string, sep: char): (pieces: seq<string>)
    ensures |pieces| == Occurrences(s, sep) + 1
    ensures forall i :: 0 <= i < |pieces| ==> sep !in pieces[i]
    decreases |s|
  {
    if |s| == 0 then [""]
    else
      var rest := Split(s[1..], sep);
      assert s == [s[0]] + s[1..];
      assert multiset(s) == multiset{s[0]} + multiset(s[1..]);
      if s[0] == sep then [""] + rest
      else [[s[0]] + rest[0]] + rest[1..]
  }

  /** The pieces put back together, with one separator between each two. */
  function Join(pieces: seq<string>, sep: char): string
    requires |pieces| >= 1
    decreases |pieces|
  {
    if |pieces| == 1 then pieces[0] else pieces[0] + [sep] + Join(pieces[1..], sep)
  }

  /** Splitting loses nothing: joining the pieces gives the input back. */
  lemma {:induction false} JoinSplit(s: string, sep: char)
    ensures Join(Split(s, sep), sep) == s
    decreases |s|
  {
    if |s| > 0 {
      var rest := Split(s[1..], sep);
      JoinSplit(s[1..], sep);
      assert s == [s[0]] + s[1..];
      if s[0] == sep {
        JoinEmptyHead(rest, sep);
      } else {
        JoinExtendHead(s[0], rest, sep);
      }
    }
  }

  lemma JoinEmptyHead(q: seq<string>, sep: char)
    requires |q| >= 1
    ensures Join([""] + q, sep) == [sep] + Join(q, sep)
  {
    assert ([""] + q)[1..] == q;
  }

  lemma JoinExtendHead(c: char, q: seq<string>, sep: char)
    requires |q| >= 1
    ensures Join([[c] + q[0]] + q[1..], sep) == [c] + Join(q, sep)
  {
    var p := [[c] + q[0]] + q[1..];
    if |q| > 1 {
      assert p[1..] == q[1..];
      assert Join(p, sep) == ([c] + q[0]) + [sep] + Join(q[1..], sep);
    }
  }

  /** A piece free of the separator, then the separator, splits off as the
      first piece. */
  lemma {:induction false} SplitFirst(a: string, sep: char, rest: string)
    requires sep !in a
    ensures Split(a + [sep] + rest, sep) == [a] + Split(rest, sep)
    decreases |a|
  {
    var s := a + [sep] + rest;
    if |a| == 0 {
      assert s[1..] == rest;
    } else {
      assert s[1..] == a[1..] + [sep] + rest;
      SplitFirst(a[1..], sep, rest);
      assert [a[0]] + a[1..] == a;
    }
  }

  /** A string free of the separator is a single piece. */
  lemma {:induction false} SplitNone(a: string, sep: char)
    requires sep !in a
    ensures Split(a, sep) == [a]
    decreases |a|
  {
    if |a| > 0 {
      SplitNone(a[1..], sep);
      assert [a[0]] + a[1..] == a;
    }
  }

  /** The `-f` option's value: a key and a value. */
  datatype ValuePair = ValuePair(key: string, value: string)

  /** `ValuePair::from_str`: exactly two pieces around `=`, or an error.
      Either piece may be empty. */
  function ValuePairFromStr(s: string): (r: Result<ValuePair>)
    ensures r.Ok? <==> Occurrences(s, Separator) == 1
    ensures r.Err? ==> r.msg == PairMessage
    ensures r.Ok? ==> r.value.key + "=" + r.value.value == s
    ensures r.Ok? ==> Separator !in r.value.key && Separator !in r.value.value
  {
    var v := Split(s, Separator);
    if |v| != 2 then Err(PairMessage)
    else
      JoinSplit(s, Separator);
      assert v[1..] == [v[1]];
      Ok(ValuePair(v[0], v[1]))
  }

  /** Round trip: a key and value free of `=` are read back from
      `key=value`. */
  lemma PairRoundTrip(key: string, value: string)
    requires Separator !in key && Separator !in value
    ensures ValuePairFromStr(key + "=" + value) == Ok(ValuePair(key, value))
  {
    assert key + "=" + value == key + [Separator] + value;
    SplitFirst(key, Separator, value);
    SplitNone(value, Separator);
  }

  /** A header as the http crate holds it: a validated name and value. */
  datatype Header = Header(key: string, value: string)

  /** `Header::from_str`. `parseName` and `parseValue` stand for
      `HeaderName::from_bytes` and `HeaderValue::from_str`: each gives the
      stored form or the text of its error. The piece count is checked first,
      then the name, then the value. */
  function HeaderFromStr(s: string, parseName: string -> Result<string>,
                         parseValue: string -> Result<string>): (r: Result<Header>)
    ensures Occurrences(s, Separator) != 1 ==> r == Err(HeaderPairMessage)
    ensures Occurrences(s, Separator) == 1 ==>
      var p := ValuePairFromStr(s).value;
      r == (if parseName(p.key).Err? then Err(parseName(p.key).msg)
            else if parseValue(p.value).Err? then Err(parseValue(p.value).msg)
            else Ok(Header(parseName(p.key).value, parseValue(p.value).value)))
  {
    var v := Split(s, Separator);
    if |v| != 2 then Err(HeaderPairMessage)
    else
      match parseName(v[0])
      case Err(e) => Err(e)
      case Ok(name) =>
        match parseValue(v[1])
        case Err(e) => Err(e)
        case Ok(value) => Ok(Header(name, value))
  }

  /** The request methods the enum knows. */
  datatype Method = POST | GET | PUT | PATCH | DELETE | OPTION

  /** ASCII lower case of one character. */
  function LowerChar(c: char): (d: char)
    ensures 'A' <= c <= 'Z' ==> d as int == c as int + 32
    ensures !('A' <= c <= 'Z') ==> d == c
  {
    if 'A' <= c <= 'Z' then (c as int + 32) as char else c
  }

  function Lower(s: string): (r: string)
    ensures |r| == |s|
    ensures forall i :: 0 <= i < |s| ==> r[i] == LowerChar(s[i])
  {
    seq(|s|, i requires 0 <= i < |s| => LowerChar(s[i]))
  }

  /** Lower-casing twice changes nothing more. */
  lemma LowerIdempotent(s: string)
    ensures Lower(Lower(s)) == Lower(s)
  {
  }

  /** `Method::from_str`: never fails; case is ignored, and anything that is
      not one of the six names is `GET`. */
  function MethodFromStr(s: string): (m: Method)
    ensures forall k: Method :: Lower(s) == Lower(MethodToString(k)) ==> m == k
    ensures m != GET ==> Lower(s) == Lower(MethodToString(m))
  {
    LowerNames();
    match Lower(s)
    case "post" => POST
    case "put" => PUT
    case "delete" => DELETE
    case "option" => OPTION
    case "patch" => PATCH
    case "get" => GET
    case _ => GET
  }

  /** `Method::to_string`: the upper-case name. */
  function MethodToString(m: Method): (s: string)
    ensures forall i :: 0 <= i < |s| ==> 'A' <= s[i] <= 'Z'
  {
    match m
    case PATCH => "PATCH"
    case POST => "POST"
    case DELETE => "DELETE"
    case PUT => "PUT"
    case OPTION => "OPTION"
    case GET => "GET"
  }

  /** The six names in lower case. */
  lemma LowerNames()
    ensures Lower("PATCH") == "patch" && Lower("POST") == "post" && Lower("DELETE") == "delete"
    ensures Lower("PUT") == "put" && Lower("OPTION") == "option" && Lower("GET") == "get"
  {
  }

  /** Round trip: every method reads back from its own name. */
  lemma MethodRoundTrip(m: Method)
    ensures MethodFromStr(MethodToString(m)) == m
  {
    LowerNames();
  }

  /** Case is ignored: a token and its lower-case form parse alike. */
  lemma MethodCaseInsensitive(s: string)
    ensures MethodFromStr(Lower(s)) == MethodFromStr(s)
  {
    LowerIdempotent(s);
  }

  /** The parse is onto and `to_string` is one-to-one, so distinct methods
      print distinctly. */
  lemma MethodToStringInjective(a: Method, b: Method)
    requires MethodToString(a) == MethodToString(b)
    ensures a == b
  {
    MethodRoundTrip(a);
    MethodRoundTrip(b);
  }
}
