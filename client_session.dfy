/**
 * `org.example.ClientSession`: one connection of the first, file-serving
 * server. It reads the request head line by line, takes the resource named
 * between the first two spaces, and answers with a head and, when the
 * resource exists, its bytes copied through a 1024-byte buffer.
 */
module Sessions {
  import opened Wrappers
  import opened JavaStrings
  import opened KeyValues
  import Multipart

  /** `DEFAULT_FILES_DIR`. */
  const FilesDir: string := "/www"
  /** The size of the copy buffer of `send`. */
  const BufferSize: nat := 1024

  type Bytes = seq<bv8>

  // ---------------------------------------------------------------------------
  // readHeader

  /** What `readHeader` returns: the lines before the first empty one (or the end), each followed by the line separator. */
  function RequestHeader(input: string, sep: string): string {
    var lines := ReadLines(input);
    Terminated(lines[..HeaderEnd(lines, 0)], sep)
  }

  /** `readHeader`: `readLine` until `null` or an empty line, appending each line and `line.separator`. */
  method ReadHeader(input: string, sep: string) returns (header: string)
    ensures header == RequestHeader(input, sep)
  {
    var reader := new Multipart.LineReader(input);
    ghost var lines := reader.lines;
    header := "";
    while true
      invariant fresh(reader) && reader.Valid() && reader.lines == lines
      invariant HeaderEnd(lines, reader.pos) == HeaderEnd(lines, 0)
      invariant header == Terminated(lines[..reader.pos], sep)
      decreases |lines| - reader.pos
    {
      ghost var p := reader.pos;
      var ln := reader.ReadLine();
      if ln.None? || ln.value == "" {
        assert HeaderEnd(lines, p) == p;
        break;
      }
      SliceSnoc(lines, 0, p);
      TerminatedSnoc(lines[..p], lines[p], sep);
      assert lines[0..p] == lines[..p] && lines[0..p + 1] == lines[..p + 1];
      header := header + ln.value + sep;
    }
  }

  /** A request head of non-empty lines, an empty line and anything after it: `readHeader` returns exactly the head lines. */
  lemma RequestHeaderOfLines(head: seq<string>, rest: seq<string>, sep: string)
    requires forall k :: 0 <= k < |head| ==> head[k] != "" && LineFree(head[k])
    requires forall k :: 0 <= k < |rest| ==> LineFree(rest[k])
    ensures RequestHeader(Terminated(head + [""] + rest, CRLF), sep) == Terminated(head, sep)
  {
    var lines := head + [""] + rest;
    forall k | 0 <= k < |lines| ensures LineFree(lines[k]) {
      if k < |head| {
        assert lines[k] == head[k];
      } else if k > |head| {
        assert lines[k] == rest[k - |head| - 1];
      }
    }
    ReadLinesOfTerminated(lines, CRLF);
    forall j | 0 <= j < |head| ensures lines[j] != "" {
      assert lines[j] == head[j];
    }
    HeaderEndIs(lines, 0, |head|);
    assert lines[..|head|] == head;
  }

  // ---------------------------------------------------------------------------
  // getURIFromHeader

  /** `uri` cut at its first `?`, the query left out. */
  function WithoutQuery(uri: string): (r: string)
    ensures '?' !in r
    ensures r <= uri
    ensures |r| < |uri| ==> uri[|r|] == '?'
  {
    match IndexOf(uri, "?")
    case None =>
      assert forall j :: 0 <= j < |uri| ==> uri[j] != '?' by {
        forall j | 0 <= j < |uri| ensures uri[j] != '?' {
          assert !OccursAt(uri, j, "?");
          assert uri[j..j + 1] == [uri[j]];
        }
      }
      uri
    case Some(k) =>
      assert forall j :: 0 <= j < k ==> uri[j] != '?' by {
        forall j | 0 <= j < k ensures uri[j] != '?' {
          assert !OccursAt(uri, j, "?");
          assert uri[j..j + 1] == [uri[j]];
        }
      }
      assert uri[k..k + 1] == "?";
      uri[..k]
  }

  /**
   * `getURIFromHeader`: the text from after the first space up to the next
   * space, without its query, under `/www`. With no second space `substring`
   * gets the end index -1 and throws: `None`. With no space at all the search
   * starts at 0 (`-1 + 1`) and finds none either.
   */
  function UriFromHeader(header: string): (r: Option<string>)
    ensures r.Some? ==> StartsWith(r.value, FilesDir) && '?' !in r.value[|FilesDir|..]
  {
    var from := match IndexOf(header, " ") case None => 0 case Some(i) => i + 1;
    match IndexFrom(header, " ", from)
    case None => None
    case Some(to) =>
      var uri := FilesDir + WithoutQuery(header[from..to]);
      assert uri[..|FilesDir|] == FilesDir && uri[|FilesDir|..] == WithoutQuery(header[from..to]);
      Some(uri)
  }

  /** The header holds at least two spaces. */
  predicate TwoSpaces(header: string) {
    exists i, j :: 0 <= i < j < |header| && header[i] == ' ' && header[j] == ' '
  }

  lemma SpaceOccurs(s: string, j: nat)
    requires j < |s|
    ensures OccursAt(s, j, " ") <==> s[j] == ' '
  {
    assert s[j..j + 1] == [s[j]];
  }

  /** `getURIFromHeader` fails exactly when the header has fewer than two spaces. */
  lemma UriFailsIff(header: string)
    ensures UriFromHeader(header).Some? <==> TwoSpaces(header)
  {
    var first := IndexOf(header, " ");
    var from := match first case None => 0 case Some(i) => i + 1;
    if UriFromHeader(header).Some? {
      var to := IndexFrom(header, " ", from).value;
      SpaceOccurs(header, to);
      assert first.Some?;
      SpaceOccurs(header, first.value);
      assert header[first.value] == ' ' && header[to] == ' ';
    }
    if TwoSpaces(header) {
      var i, j :| 0 <= i < j < |header| && header[i] == ' ' && header[j] == ' ';
      SpaceOccurs(header, i);
      SpaceOccurs(header, j);
      assert first.Some? && first.value <= i;
      assert IndexFrom(header, " ", from).Some?;
    }
  }

  /** The next space at or after `from` is at `e` when `e` holds a space and nothing before it does. */
  lemma SpaceEnds(s: string, from: nat, e: nat)
    requires from <= e < |s| && s[e] == ' '
    requires forall j :: from <= j < e ==> s[j] != ' '
    ensures IndexFrom(s, " ", from) == Some(e)
  {
    forall j: nat | from <= j < e ensures !OccursAt(s, j, " ") {
      SpaceOccurs(s, j);
    }
    SpaceOccurs(s, e);
    IndexFromFirst(s, " ", from, e);
  }

  /** A request line `method target rest` with a space-free method and target names `/www` and the target without its query. */
  lemma UriOfRequestLine(httpMethod: string, target: string, rest: string)
    requires ' ' !in httpMethod && ' ' !in target
    ensures UriFromHeader(httpMethod + " " + target + " " + rest) == Some(FilesDir + WithoutQuery(target))
  {
    var m, t := |httpMethod|, |target|;
    var x := httpMethod + " ";
    var y := x + target;
    var h := y + " " + rest;
    assert h[..|y|] == y;
    forall j | 0 <= j < m ensures h[j] != ' ' {
      assert h[j] == y[j] == httpMethod[j];
    }
    assert h[m] == y[m] == ' ';
    SpaceEnds(h, 0, m);
    forall j | m + 1 <= j < m + 1 + t ensures h[j] != ' ' {
      assert h[j] == y[j] == target[j - m - 1];
    }
    assert h[m + 1 + t] == ' ';
    SpaceEnds(h, m + 1, m + 1 + t);
    assert h[m + 1..m + 1 + t] == y[m + 1..] == target;
  }

  // ---------------------------------------------------------------------------
  // send and getHeader

  /** `getAnswer`: the reason phrases of this server; every code other than 200 and 404 reads as a server error. */
  function Answer(code: int): (m: string)
    ensures code == 200 ==> m == "OK"
    ensures code == 404 ==> m == "Not Found"
    ensures code != 200 && code != 404 ==> m == "Internal Server Error"
  {
    if code == 200 then "OK" else if code == 404 then "Not Found" else "Internal Server Error"
  }

  /** The content type `send` announces. */
  function ContentTypeOf(uri: string): (t: string)
    ensures t == "text/xml" <==> EndsWith(uri, "xml")
    ensures t == "text/xml" || t == "text/html"
  {
    if EndsWith(uri, "xml") then "text/xml" else "text/html"
  }

  /** The status code `send` answers with: 200 when the resource exists, 404 otherwise. */
  function CodeOf(uri: string, resources: map<string, Bytes>): (code: int)
    ensures code == 200 <==> uri in resources
    ensures code == 404 <==> uri !in resources
  {
    if uri in resources then 200 else 404
  }

  /** The lines `getHeader` appends, `date` standing for `new Date().toGMTString()`. */
  function AnswerLines(code: int, contentType: string, date: string): seq<string> {
    ["HTTP/1.1 " + IntToString(code) + " " + Answer(code), "Date: " + date, "Accept-Ranges: none",
     "Content-Type: " + contentType, ""]
  }

  /** `getHeader`: each of those lines followed by `\n`. */
  function AnswerHeader(code: int, contentType: string, date: string): string {
    Terminated(AnswerLines(code, contentType, date), "\n")
  }

  lemma IntLineFree(i: int)
    ensures LineFree(IntToString(i))
  {
    var n: nat := if i < 0 then -i else i;
    assert forall c :: c in NatToString(n) ==> '0' <= c <= '9' by {
      NatDigits(n);
    }
  }

  lemma {:induction false} NatDigits(n: nat)
    ensures forall c :: c in NatToString(n) ==> '0' <= c <= '9'
    decreases n
  {
    if n >= 10 {
      NatDigits(n / 10);
    }
  }

  /**
   * Round trip: a client reading the head line by line gets the status line,
   * the Date, Accept-Ranges and Content-Type lines and the empty line that
   * ends the head, as long as the content type and the date hold no line break.
   */
  lemma AnswerHeaderReadsBack(code: int, contentType: string, date: string)
    requires LineFree(contentType) && LineFree(date)
    ensures ReadLines(AnswerHeader(code, contentType, date)) == AnswerLines(code, contentType, date)
  {
    AnswerLinesFree(code, contentType, date);
    ReadLinesOfTerminated(AnswerLines(code, contentType, date), "\n");
  }

  lemma AnswerLinesFree(code: int, contentType: string, date: string)
    requires LineFree(contentType) && LineFree(date)
    ensures forall k :: 0 <= k < |AnswerLines(code, contentType, date)| ==> LineFree(AnswerLines(code, contentType, date)[k])
  {
    var ls := AnswerLines(code, contentType, date);
    forall k | 0 <= k < |ls| ensures LineFree(ls[k]) {
      if k == 0 {
        StatusLineFree(code);
      } else if k == 1 {
        PrefixedLineFree("Date: ", date);
      } else if k == 2 {
        AcceptRangesFree();
      } else if k == 3 {
        PrefixedLineFree("Content-Type: ", contentType);
      }
    }
  }

  lemma StatusLineFree(code: int)
    ensures LineFree("HTTP/1.1 " + IntToString(code) + " " + Answer(code))
  {
    IntLineFree(code);
    var p, n, a := "HTTP/1.1 ", IntToString(code), Answer(code);
    assert LineFree(p);
    assert LineFree(a);
    assert LineFree(p + n);
    assert LineFree(p + n + " ");
  }

  lemma PrefixedLineFree(p: string, l: string)
    requires LineFree(p) && LineFree(l)
    ensures LineFree(p + l)
  {
  }

  lemma AcceptRangesFree()
    ensures LineFree("Accept-Ranges: none")
  {
  }

  // ---------------------------------------------------------------------------
  // What goes to the socket

  /** One write to the socket: the head printed as text, or a run of resource bytes. */
  datatype Chunk = Text(text: string) | Data(bytes: Bytes)

  /** The writes of the copy loop: blocks of `BufferSize` bytes, the last one shorter; none for no bytes. */
  function Chunks(data: Bytes): (cs: seq<Chunk>)
    decreases |data|
  {
    if data == [] then []
    else if |data| <= BufferSize then [Data(data)]
    else [Data(data[..BufferSize])] + Chunks(data[BufferSize..])
  }

  /** The bytes written, in order. */
  function DataOf(cs: seq<Chunk>): (d: Bytes) {
    if cs == [] then [] else (if cs[0].Data? then cs[0].bytes else []) + DataOf(cs[1..])
  }

  lemma {:induction false} DataOfConcat(a: seq<Chunk>, b: seq<Chunk>)
    ensures DataOf(a + b) == DataOf(a) + DataOf(b)
    decreases |a|
  {
    if a != [] {
      assert (a + b)[1..] == a[1..] + b;
      DataOfConcat(a[1..], b);
    } else {
      assert a + b == b;
    }
  }

  /** The copy loop writes the resource exactly, in non-empty blocks of at most `BufferSize` bytes. */
  lemma {:induction false} ChunksCopy(data: Bytes)
    ensures DataOf(Chunks(data)) == data
    ensures forall k :: 0 <= k < |Chunks(data)| ==> Chunks(data)[k].Data? && 0 < |Chunks(data)[k].bytes| <= BufferSize
    decreases |data|
  {
    if |data| > BufferSize {
      var head, rest := Data(data[..BufferSize]), Chunks(data[BufferSize..]);
      ChunksCopy(data[BufferSize..]);
      DataOfConcat([head], rest);
      assert DataOf([head]) == data[..BufferSize];
      assert data[..BufferSize] + data[BufferSize..] == data;
      forall k | 0 <= k < |Chunks(data)| ensures Chunks(data)[k].Data? && 0 < |Chunks(data)[k].bytes| <= BufferSize {
        if k > 0 {
          assert Chunks(data)[k] == rest[k - 1];
        }
      }
    } else if data != [] {
      assert DataOf([Data(data)]) == data + DataOf([]);
    }
  }

  /** One turn of the copy loop: the next block of `count` bytes from `pos`, then the blocks after it. */
  lemma ChunksStep(data: Bytes, pos: nat, count: nat)
    requires pos < |data| && count == (if |data| - pos < BufferSize then |data| - pos else BufferSize)
    ensures Chunks(data[pos..]) == [Data(data[pos..pos + count])] + Chunks(data[pos + count..])
  {
    var rest := data[pos..];
    assert rest[..count] == data[pos..pos + count];
    assert rest[count..] == data[pos + count..];
    if |rest| <= BufferSize {
      assert data[pos + count..] == [];
      assert rest == data[pos..pos + count];
    }
  }

  /** What `send(uri)` writes: the head, then the resource's bytes when it exists. */
  function Answered(uri: string, resources: map<string, Bytes>, date: string): seq<Chunk> {
    var code := CodeOf(uri, resources);
    [Text(AnswerHeader(code, ContentTypeOf(uri), date))] + (if code == 200 then Chunks(resources[uri]) else [])
  }

  /** The body of an answer is the resource's bytes for 200 and nothing for 404. */
  lemma AnsweredData(uri: string, resources: map<string, Bytes>, date: string)
    ensures uri in resources ==> DataOf(Answered(uri, resources, date)) == resources[uri]
    ensures uri !in resources ==> DataOf(Answered(uri, resources, date)) == []
  {
    var h := Text(AnswerHeader(CodeOf(uri, resources), ContentTypeOf(uri), date));
    var rest := if uri in resources then Chunks(resources[uri]) else [];
    DataOfConcat([h], rest);
    assert DataOf([h]) == [];
    if uri in resources {
      ChunksCopy(resources[uri]);
    }
  }

  /** What a whole session answers: `None` for the code when `getURIFromHeader` throws, and what was written. */
  function SessionOf(input: string, sep: string, resources: map<string, Bytes>, date: string): (Option<int>, seq<Chunk>) {
    match UriFromHeader(RequestHeader(input, sep))
    case None => (None, [])
    case Some(uri) => (Some(CodeOf(uri, resources)), Answered(uri, resources, date))
  }

  /**
   * A session over the client's socket. The input stream's text, the class
   * path resources `getResourceAsStream` finds, the clock's GMT string and
   * the platform line separator are given; `out` holds the writes in order.
   */
  class ClientSession {
    const input: string
    const sep: string
    const resources: map<string, Bytes>
    const date: string
    var out: seq<Chunk>
    var closed: bool

    constructor (input: string, sep: string, resources: map<string, Bytes>, date: string)
      ensures this.input == input && this.sep == sep && this.resources == resources && this.date == date
      ensures out == [] && !closed
    {
      this.input := input;
      this.sep := sep;
      this.resources := resources;
      this.date := date;
      out := [];
      closed := false;
    }

    /** The copy loop of `send`: `read` fills the buffer from the resource until it is exhausted, and each run is written. */
    method Copy(data: Bytes)
      modifies this
      ensures out == old(out) + Chunks(data) && closed == old(closed)
    {
      var pos := 0;
      while pos < |data|
        invariant 0 <= pos <= |data| && closed == old(closed)
        invariant out + Chunks(data[pos..]) == old(out) + Chunks(data)
        decreases |data| - pos
      {
        var count := if |data| - pos < BufferSize then |data| - pos else BufferSize;
        ChunksStep(data, pos, count);
        Multipart.AppendAssoc(out, [Data(data[pos..pos + count])], Chunks(data[pos + count..]));
        out := out + [Data(data[pos..pos + count])];
        pos := pos + count;
      }
      assert data[pos..] == [];
    }

    /** `send(uri)`: the head, then the resource's bytes only for 200; the code is returned. */
    method Send(uri: string) returns (code: int)
      modifies this
      ensures code == CodeOf(uri, resources)
      ensures out == old(out) + Answered(uri, resources, date) && closed == old(closed)
    {
      code := CodeOf(uri, resources);
      var contentType := ContentTypeOf(uri);
      ghost var head := [Text(AnswerHeader(code, contentType, date))];
      out := out + [Text(AnswerHeader(code, contentType, date))];
      if code == 200 {
        Copy(resources[uri]);
        Multipart.AppendAssoc(old(out), head, Chunks(resources[uri]));
      } else {
        assert head + [] == head;
      }
    }

    /**
     * `run`: read the head, find the resource, send it; the socket is closed in
     * every case. When `getURIFromHeader` throws (`code == None`), the
     * `StringIndexOutOfBoundsException` is not an `IOException`: it leaves
     * `run` after `finally` has closed the socket, with nothing written.
     */
    method Run() returns (code: Option<int>)
      modifies this
      ensures (code, out) == (SessionOf(input, sep, resources, date).0, old(out) + SessionOf(input, sep, resources, date).1)
      ensures closed
    {
      var header := ReadHeader(input, sep);
      var uri := UriFromHeader(header);
      if uri.None? {
        code := None;
        assert out == old(out) + [];
      } else {
        var c := Send(uri.value);
        code := Some(c);
      }
      closed := true;
    }
  }
}
