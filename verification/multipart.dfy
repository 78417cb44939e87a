/** `get_file_as_parts` (src/multipart.rs): the three pieces of a
    `multipart/form-data` body carrying one file, as in section 17.13.4.2 of
    HTML 4.01, with the dash-boundary and close-delimiter of section 5.1.1 of
    RFC 2046. The file system and the mime table are not modelled: the final
    path component, the mime guess and the file's contents (or the error
    reading it) are inputs. */
module Multipart {
  import opened Results
  import opened Crlf

  /** The part header, the file's bytes, and the close delimiter. */
  datatype Parts = Parts(start: string, middle: string, end: string)

  const NoFileMessage: string := "Error No File found"
  /** The type used when the file name has no known extension. */
  const TextPlain: string := "text/plain"

  /** The `Content-Disposition` line of the part. */
  function DispositionLine(field: string, name: string): string {
    "Content-Disposition: form-data; name=\"" + field + "\"; filename=\"" + name + "\""
  }

  /** `get_file_as_parts`. `fileName` is the last path component when it
      exists and is valid text; `mimeGuess` is the first guess for the path;
      `contents` is what opening and reading the whole file gave. The name is
      checked before the file is opened. */
  function GetFileAsParts(key: string, field: string, fileName: Option<string>,
                          mimeGuess: Option<string>, contents: Result<string>): (r: Result<Parts>)
    ensures fileName.None? ==> r == Err(NoFileMessage)
    ensures fileName.Some? && contents.Err? ==> r == Err(contents.msg)
    ensures r.Ok? <==> fileName.Some? && contents.Ok?
    ensures r.Ok? ==> r.value.middle == contents.value
    ensures r.Ok? ==> r.value.start == JoinCrlf(StartLines(key, field, fileName.value,
                                                            if mimeGuess.Some? then mimeGuess.value else TextPlain))
    ensures r.Ok? ==> r.value.end == JoinCrlf(EndLines(key))
  {
    match fileName
    case None => Err(NoFileMessage)
    case Some(name) =>
      var mime := match mimeGuess case Some(m) => m case None => TextPlain;
      match contents
      case Err(cause) => Err(cause)
      case Ok(bytes) =>
        StartIsLines(key, field, name, mime);
        EndIsLines(key);
        var start := "--" + key + CRLF + DispositionLine(field, name) + CRLF
          + "Content-Type: " + mime + CRLF + CRLF;
        var end := CRLF + "--" + key + "--" + CRLF;
        Ok(Parts(start, bytes, end))
  }

  /** The lines of the part header: the dash-boundary, the disposition, the
      content type, then the empty line that ends the part's headers and the
      empty start of the content. */
  function StartLines(key: string, field: string, name: string, mime: string): seq<string> {
    ["--" + key, DispositionLine(field, name), "Content-Type: " + mime, "", ""]
  }

  /** The lines of the closing piece: the CRLF that ends the content, the
      close-delimiter, and the empty remainder after its CRLF. */
  function EndLines(key: string): seq<string> {
    ["", "--" + key + "--", ""]
  }

  /** The part header is its lines joined with CRLF: one boundary line, two
      header lines and a blank line. */
  lemma StartIsLines(key: string, field: string, name: string, mime: string)
    ensures "--" + key + CRLF + DispositionLine(field, name) + CRLF
          + "Content-Type: " + mime + CRLF + CRLF
      == JoinCrlf(StartLines(key, field, name, mime))
  {
    var a := "--" + key;
    var b := DispositionLine(field, name);
    var c := "Content-Type: " + mime;
    JoinFive(a, b, c, "", "");
    assert "" + CRLF + "" == CRLF;
    StartRegroup(a, b, c);
  }

  lemma StartRegroup(a: string, b: string, c: string)
    ensures a + CRLF + b + CRLF + c + CRLF + CRLF == a + CRLF + (b + CRLF + (c + CRLF + CRLF))
  {
  }

  /** The closing piece is its lines joined with CRLF. */
  lemma EndIsLines(key: string)
    ensures JoinCrlf(EndLines(key)) == CRLF + "--" + key + "--" + CRLF
  {
    var d := "--" + key + "--";
    JoinFront(d, [""]);
    JoinFront("", [d, ""]);
    assert [d] + [""] == [d, ""];
    assert [""] + [d, ""] == EndLines(key);
  }

  /** Read-back of the framing: when the boundary, field name, file name and
      type carry no CR, splitting the part header at CRLF gives exactly its
      lines, and splitting the closing piece gives the close-delimiter
      between two empty lines. The file's own bytes are never split. */
  lemma FramingReadBack(key: string, field: string, name: string, mime: string, contents: string)
    requires NoCr(key) && NoCr(field) && NoCr(name) && NoCr(mime)
    ensures var r := GetFileAsParts(key, field, Some(name), Some(mime), Ok(contents));
      && SplitCrlf(r.value.start) == StartLines(key, field, name, mime)
      && SplitCrlf(r.value.end) == EndLines(key)
  {
    var sl := StartLines(key, field, name, mime);
    StartLinesNoCr(key, field, name, mime);
    SplitJoin(sl);
    var el := EndLines(key);
    EndLinesNoCr(key);
    SplitJoin(el);
  }

  lemma StartLinesNoCr(key: string, field: string, name: string, mime: string)
    requires NoCr(key) && NoCr(field) && NoCr(name) && NoCr(mime)
    ensures AllNoCr(StartLines(key, field, name, mime))
  {
    NoCrCat("--", key);
    DispositionNoCr(field, name);
    NoCrCat("Content-Type: ", mime);
  }

  lemma EndLinesNoCr(key: string)
    requires NoCr(key)
    ensures AllNoCr(EndLines(key))
  {
    NoCrCat("--", key);
    NoCrCat("--" + key, "--");
  }

  lemma DispositionNoCr(field: string, name: string)
    requires NoCr(field) && NoCr(name)
    ensures NoCr(DispositionLine(field, name))
  {
    var p := "Content-Disposition: form-data; name=\"";
    NoCrCat(p, field);
    NoCrCat(p + field, "\"; filename=\"");
    NoCrCat(p + field + "\"; filename=\"", name);
    NoCrCat(p + field + "\"; filename=\"" + name, "\"");
  }

  lemma NoCrCat(a: string, b: string)
    requires NoCr(a) && NoCr(b)
    ensures NoCr(a + b)
  {
    forall k | 0 <= k < |a + b| ensures (a + b)[k] != '\r' {
      if k < |a| { assert (a + b)[k] == a[k]; } else { assert (a + b)[k] == b[k - |a|]; }
    }
  }

  /** The worked example: field `files`, boundary `key`, a file
      `test_file.txt` holding `hello there!`, for which the mime table
      guesses `text/plain`. */
  lemma TestFileExample()
    ensures GetFileAsParts("key", "files", Some("test_file.txt"), Some("text/plain"), Ok("hello there!"))
      == Ok(Parts(JoinCrlf(["--key", "Content-Disposition: form-data; name=\"files\"; filename=\"test_file.txt\"",
                            "Content-Type: text/plain", "", ""]),
                  "hello there!", "\r\n--key--\r\n"))
  {
    ExampleStartLines();
    ExampleEnd();
  }

  lemma ExampleStartLines()
    ensures StartLines("key", "files", "test_file.txt", TextPlain)
      == ["--key", "Content-Disposition: form-data; name=\"files\"; filename=\"test_file.txt\"",
          "Content-Type: text/plain", "", ""]
  {
    ExampleDisposition();
    assert "--" + "key" == "--key";
    assert "Content-Type: " + TextPlain == "Content-Type: text/plain";
  }

  lemma ExampleDisposition()
    ensures DispositionLine("files", "test_file.txt")
      == "Content-Disposition: form-data; name=\"files\"; filename=\"test_file.txt\""
  {
  }

  lemma ExampleEnd()
    ensures JoinCrlf(EndLines("key")) == "\r\n--key--\r\n"
  {
    EndIsLines("key");
    assert CRLF + "--" + "key" + "--" + CRLF == "\r\n--key--\r\n";
  }
}
