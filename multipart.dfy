/**
 * `org.example.MultipartParser`: the boundary taken from the Content-Type and
 * the line-driven scan of a multipart body over `readLine`.
 */
module Multipart {
  import opened Wrappers
  import opened JavaStrings
  import opened KeyValues

  const BoundaryKey: string := "boundary="
  const HeaderSep: string := ": "
  const BodyKey: string := "body"

  /** A constructed parser: its boundary and the text its input stream holds. */
  datatype Parser = Parser(boundary: string, input: string)

  /** A part: its header fields and, under `"body"`, its trimmed body. */
  type Part = map<string, string>

  /**
   * The constructor: the boundary is `contentType.split("boundary=")[1]`,
   * `None` when that index does not exist (Java throws).
   */
  function NewParser(contentType: string, input: string): (r: Option<Parser>)
    ensures r.Some? ==> r.value.input == input && IndexOf(contentType, BoundaryKey).Some?
  {
    var ps := Split(contentType, BoundaryKey);
    if |ps| >= 2 then Some(Parser(ps[1], input)) else None
  }

  lemma BoundaryKeyUnbordered()
    ensures Unbordered(BoundaryKey)
  {
    forall k | 0 < k < |BoundaryKey| ensures BoundaryKey[k..] != BoundaryKey[..|BoundaryKey| - k] {
      assert BoundaryKey[k..][|BoundaryKey| - k - 1] == '=';
      assert BoundaryKey[..|BoundaryKey| - k][|BoundaryKey| - k - 1] != '=';
    }
  }

  /** The boundary is the text after the first `boundary=`, up to the next one or the end. */
  lemma BoundaryAfterKey(x: string, b: string, rest: string, input: string)
    requires !Contains(x, BoundaryKey) && !Contains(b, BoundaryKey) && b != ""
    requires rest == "" || StartsWith(rest, BoundaryKey)
    ensures NewParser(x + BoundaryKey + b + rest, input) == Some(Parser(b, input))
  {
    BoundaryKeyUnbordered();
    SplitFirstTwo(x, b, rest, BoundaryKey);
  }

  /**
   * A Content-Type whose only `boundary=` is at its very end makes construction
   * fail. (A second `boundary=` right after the first would instead give an
   * empty boundary, as `split` keeps an empty piece that a later one follows.)
   */
  lemma EmptyBoundaryFails(x: string, input: string)
    requires !Contains(x, BoundaryKey)
    ensures NewParser(x + BoundaryKey, input) == None
  {
    BoundaryKeyUnbordered();
    assert !Contains("", BoundaryKey);
    SplitOfJoin([x, ""], BoundaryKey);
    assert Join([x, ""], BoundaryKey) == x + BoundaryKey by {
      assert [x, ""][1..] == [""];
    }
  }

  /** A Content-Type without `boundary=` makes construction fail. */
  lemma MissingBoundaryFails(contentType: string, input: string)
    requires !Contains(contentType, BoundaryKey)
    ensures NewParser(contentType, input) == None
  {
  }

  /** The delimiter line prefix, `"--" + boundary`. */
  function Delimiter(boundary: string): (d: string)
    ensures |d| >= 2 && StartsWith(d, "--")
  {
    var d := "--" + boundary;
    assert d[..2] == "--";
    d
  }

  // ---------------------------------------------------------------------------
  // The scan, as written

  /** The position after the line at `j`: what the next `readLine` reads (it keeps returning `null` at the end). */
  function Next(lines: seq<string>, j: nat): (n: nat)
    requires j <= |lines|
    ensures n <= |lines| && (j < |lines| ==> n == j + 1) && (j == |lines| ==> n == j)
  {
    if j < |lines| then j + 1 else |lines|
  }

  /** Index of the first line at or after `i` that starts with `delim`, or `|lines|`: where a body ends. */
  function BodyEnd(lines: seq<string>, i: nat, delim: string): (j: nat)
    requires i <= |lines|
    decreases |lines| - i
    ensures i <= j <= |lines|
    ensures forall k :: i <= k < j ==> !StartsWith(lines[k], delim)
    ensures j < |lines| ==> StartsWith(lines[j], delim)
  {
    if i == |lines| || StartsWith(lines[i], delim) then i else BodyEnd(lines, i + 1, delim)
  }

  lemma BodyEndIs(lines: seq<string>, i: nat, j: nat, delim: string)
    requires i <= j <= |lines|
    requires forall k :: i <= k < j ==> !StartsWith(lines[k], delim)
    requires j < |lines| ==> StartsWith(lines[j], delim)
    ensures BodyEnd(lines, i, delim) == j
  {
  }

  /** The part built from its header lines and body lines: the body, each line followed by CRLF, trimmed, overrides any header named `body`. */
  function PartOf(headerLines: seq<string>, bodyLines: seq<string>): (part: Part)
    ensures BodyKey in part && part[BodyKey] == Trim(Terminated(bodyLines, CRLF))
  {
    WithBody(Collect(headerLines, HeaderSep), Terminated(bodyLines, CRLF))
  }

  /** `part.put("body", body.toString().trim())`. */
  function WithBody(headers: Part, body: string): (part: Part)
    ensures BodyKey in part && part[BodyKey] == Trim(body)
  {
    headers[BodyKey := Trim(body)]
  }

  /**
   * Every header other than `body` is kept as the header loop collected it;
   * the body entry, written last, overrides a header literally named `body`.
   */
  lemma PartKeepsHeaders(headerLines: seq<string>, bodyLines: seq<string>, k: string)
    requires k != BodyKey
    ensures k in PartOf(headerLines, bodyLines) <==> k in Collect(headerLines, HeaderSep)
    ensures k in PartOf(headerLines, bodyLines) ==> PartOf(headerLines, bodyLines)[k] == Collect(headerLines, HeaderSep)[k]
  {
  }

  /** The lines of one part: its header lines and its body lines. */
  datatype Section = Section(headers: seq<string>, body: seq<string>)

  /** The parts built from sections, in order. */
  function PartsOf(ss: seq<Section>): (ps: seq<Part>)
    ensures |ps| == |ss|
  {
    if ss == [] then [] else [PartOf(ss[0].headers, ss[0].body)] + PartsOf(ss[1..])
  }

  /** The `k`-th part is built from the `k`-th section. */
  lemma {:induction false} PartsOfAt(ss: seq<Section>, k: nat)
    requires k < |ss|
    ensures PartsOf(ss)[k] == PartOf(ss[k].headers, ss[k].body)
  {
    var head, tail := PartOf(ss[0].headers, ss[0].body), PartsOf(ss[1..]);
    assert PartsOf(ss) == [head] + tail;
    if k > 0 {
      PartsOfAt(ss[1..], k - 1);
      assert ss[1..][k - 1] == ss[k];
      ConsAt(head, tail, k);
    }
  }

  lemma ConsAt<T>(x: T, t: seq<T>, k: nat)
    requires 0 < k <= |t|
    ensures ([x] + t)[k] == t[k - 1]
  {
  }

  /**
   * The section opened by the delimiter line at `pos`: header lines up to the
   * first empty line, body lines from the line after it up to the next line
   * starting with `delim`; and the index of that line (or `|lines|`).
   */
  function Opened(lines: seq<string>, delim: string, pos: nat): (r: (Section, nat))
    requires pos < |lines|
    ensures pos < r.1 <= |lines|
    ensures r.1 < |lines| ==> StartsWith(lines[r.1], delim)
  {
    var e := HeaderEnd(lines, pos + 1);
    var b := Next(lines, e);
    var j := BodyEnd(lines, b, delim);
    (Section(lines[pos + 1..e], lines[b..j]), j)
  }

  /** An opened section has no empty header line and no body line starting with the delimiter. */
  lemma OpenedWellFormed(lines: seq<string>, delim: string, pos: nat)
    requires pos < |lines|
    ensures WellFormed(delim, Opened(lines, delim, pos).0)
  {
    var e := HeaderEnd(lines, pos + 1);
    var b := Next(lines, e);
    var j := BodyEnd(lines, b, delim);
    var s := Section(lines[pos + 1..e], lines[b..j]);
    assert forall k :: 0 <= k < |s.headers| ==> s.headers[k] == lines[pos + 1 + k];
    assert forall k :: 0 <= k < |s.body| ==> s.body[k] == lines[b + k];
  }

  /**
   * What `parse` reads from the line at `pos` on: a line starting with the
   * delimiter opens a section; the empty line after its headers is consumed,
   * and so is the line starting with the delimiter that ends its body; the
   * scan stops after a section ended by `delim + "--"`.
   */
  function ScanFrom(lines: seq<string>, delim: string, pos: nat): seq<Section>
    requires pos <= |lines|
    decreases |lines| - pos
  {
    if pos == |lines| then []
    else if !StartsWith(lines[pos], delim) then ScanFrom(lines, delim, pos + 1)
    else
      var op := Opened(lines, delim, pos);
      if op.1 < |lines| && StartsWith(lines[op.1], delim + "--") then [op.0]
      else [op.0] + ScanFrom(lines, delim, Next(lines, op.1))
  }

  /** The parts read from a delimiter line: the part it opens, then, unless the close delimiter ends its body, the rest. */
  lemma ScanOpened(lines: seq<string>, delim: string, p: nat)
    requires p < |lines| && StartsWith(lines[p], delim)
    ensures var op := Opened(lines, delim, p);
      PartsOf(ScanFrom(lines, delim, p)) ==
        [PartOf(op.0.headers, op.0.body)] +
        (if op.1 < |lines| && StartsWith(lines[op.1], delim + "--") then [] else PartsOf(ScanFrom(lines, delim, Next(lines, op.1))))
  {
    var op := Opened(lines, delim, p);
    var r := if op.1 < |lines| && StartsWith(lines[op.1], delim + "--") then [] else ScanFrom(lines, delim, Next(lines, op.1));
    assert ScanFrom(lines, delim, p) == [op.0] + r;
    assert ([op.0] + r)[1..] == r;
  }

  /** What `parse` returns. */
  function Parts(parser: Parser): seq<Part> {
    PartsOf(ScanFrom(ReadLines(parser.input), Delimiter(parser.boundary), 0))
  }

  // ---------------------------------------------------------------------------
  // The parser's reader and `parse`

  /** The `BufferedReader` over the input: the lines `readLine` returns in turn and how many it has returned. */
  class LineReader {
    const lines: seq<string>
    var pos: nat

    ghost predicate Valid()
      reads this
    {
      pos <= |lines|
    }

    constructor (text: string)
      ensures Valid() && lines == ReadLines(text) && pos == 0
    {
      lines := ReadLines(text);
      pos := 0;
    }

    /** `readLine`: the next line, or `None` (Java's `null`) once every line was returned. */
    method ReadLine() returns (line: Option<string>)
      requires Valid()
      modifies this
      ensures Valid()
      ensures old(pos) < |lines| ==> line == Some(lines[old(pos)]) && pos == old(pos) + 1
      ensures old(pos) == |lines| ==> line.None? && pos == old(pos)
    {
      if pos < |lines| {
        line := Some(lines[pos]);
        pos := pos + 1;
      } else {
        line := None;
      }
    }
  }

  /** `line` is the line at index `cur` that `reader` returned last (`None` at the end). */
  ghost predicate Reading(reader: LineReader, lines: seq<string>, line: Option<string>, cur: nat)
    reads reader
  {
    reader.Valid() && reader.lines == lines && cur <= |lines| && reader.pos == Next(lines, cur)
    && (cur < |lines| ==> line == Some(lines[cur])) && (cur == |lines| ==> line.None?)
  }

  /** The header loop of `parse`: from the line after a delimiter line up to and including the first empty line. */
  method ReadHeaders(reader: LineReader, ghost lines: seq<string>, ghost p: nat)
      returns (part: Part, line: Option<string>, ghost cur: nat)
    requires reader.Valid() && reader.lines == lines && p < |lines| && reader.pos == p + 1
    modifies reader
    ensures cur == HeaderEnd(lines, p + 1) && Reading(reader, lines, line, cur)
    ensures part == Collect(lines[p + 1..cur], HeaderSep)
  {
    part := map[];
    line := reader.ReadLine();
    cur := p + 1;
    while line.Some? && line.value != ""
      invariant Reading(reader, lines, line, cur)
      invariant p + 1 <= cur <= |lines|
      invariant HeaderEnd(lines, cur) == HeaderEnd(lines, p + 1)
      invariant part == Collect(lines[p + 1..cur], HeaderSep)
      decreases |lines| - cur
    {
      SliceSnoc(lines, p + 1, cur);
      CollectSnoc(lines[p + 1..cur], lines[cur], HeaderSep);
      var header := KeyValue(line.value, HeaderSep);
      if header.Some? {
        part := part[header.value.0 := header.value.1];
      }
      line := reader.ReadLine();
      cur := Next(lines, cur);
    }
    assert HeaderEnd(lines, cur) == cur;
  }

  /** The body loop of `parse`: each line and CRLF appended, up to and including the next line starting with `delim`. */
  method ReadBody(reader: LineReader, ghost lines: seq<string>, delim: string, ghost b: nat)
      returns (body: string, line: Option<string>, ghost cur: nat)
    requires reader.Valid() && reader.lines == lines && b <= |lines| && reader.pos == b
    modifies reader
    ensures cur == BodyEnd(lines, b, delim) && Reading(reader, lines, line, cur)
    ensures body == Terminated(lines[b..cur], CRLF)
  {
    body := "";
    line := reader.ReadLine();
    cur := b;
    while line.Some? && !StartsWith(line.value, delim)
      invariant Reading(reader, lines, line, cur)
      invariant b <= cur <= |lines|
      invariant BodyEnd(lines, cur, delim) == BodyEnd(lines, b, delim)
      invariant body == Terminated(lines[b..cur], CRLF)
      decreases |lines| - cur
    {
      SliceSnoc(lines, b, cur);
      TerminatedSnoc(lines[b..cur], lines[cur], CRLF);
      body := body + line.value + CRLF;
      line := reader.ReadLine();
      cur := Next(lines, cur);
    }
    assert BodyEnd(lines, cur, delim) == cur;
  }

  /** The header map and body text the loops build are the part `PartOf` describes. */
  lemma PartOfIs(headerLines: seq<string>, bodyLines: seq<string>, m: Part, body: string)
    requires m == Collect(headerLines, HeaderSep) && body == Terminated(bodyLines, CRLF)
    ensures WithBody(m, body) == PartOf(headerLines, bodyLines)
  {
  }

  lemma AppendAssoc<T>(a: seq<T>, b: seq<T>, c: seq<T>)
    ensures a + (b + c) == (a + b) + c
  {
  }

  /** The part read at a delimiter line at `p`, and what remains to be read after it, given what was read before. */
  ghost predicate PartRead(lines: seq<string>, delim: string, p: nat, done: seq<Part>, part: Part, j: nat, total: seq<Part>)
    requires p < |lines| && j <= |lines|
  {
    if j < |lines| && StartsWith(lines[j], delim + "--") then done + [part] == total
    else (done + [part]) + PartsOf(ScanFrom(lines, delim, Next(lines, j))) == total
  }

  /** One part of `parse`: the header loop and the body loop after a delimiter line at `p`. */
  method ReadPart(reader: LineReader, ghost lines: seq<string>, delim: string, ghost p: nat,
                  ghost done: seq<Part>, ghost total: seq<Part>)
      returns (part: Part, line: Option<string>, ghost j: nat)
    requires reader.Valid() && reader.lines == lines && p < |lines| && reader.pos == p + 1
    requires StartsWith(lines[p], delim) && done + PartsOf(ScanFrom(lines, delim, p)) == total
    modifies reader
    ensures j == Opened(lines, delim, p).1 && Reading(reader, lines, line, j)
    ensures part == PartOf(Opened(lines, delim, p).0.headers, Opened(lines, delim, p).0.body)
    ensures PartRead(lines, delim, p, done, part, j, total)
  {
    var body;
    ghost var e;
    part, line, e := ReadHeaders(reader, lines, p);
    body, line, j := ReadBody(reader, lines, delim, Next(lines, e));
    PartOfIs(lines[p + 1..e], lines[Next(lines, e)..j], part, body);
    part := WithBody(part, body);
    ScanOpened(lines, delim, p);
    ghost var tail := if j < |lines| && StartsWith(lines[j], delim + "--") then [] else PartsOf(ScanFrom(lines, delim, Next(lines, j)));
    AppendAssoc(done, [part], tail);
  }

  /** A line that does not start with the delimiter, outside a part, is skipped. */
  lemma SkipLine(lines: seq<string>, delim: string, cur: nat)
    requires cur < |lines| && !StartsWith(lines[cur], delim)
    ensures ScanFrom(lines, delim, cur) == ScanFrom(lines, delim, Next(lines, cur))
  {
  }

  /** One turn of the outer loop of `parse` at line `cur`; `stop` is the `break` at the close delimiter. */
  method ParseStep(reader: LineReader, ghost lines: seq<string>, delim: string, line: Option<string>, ghost cur: nat,
                   parts: seq<Part>, ghost total: seq<Part>)
      returns (parts': seq<Part>, line': Option<string>, ghost cur': nat, stop: bool)
    requires Reading(reader, lines, line, cur) && line.Some?
    requires parts + PartsOf(ScanFrom(lines, delim, cur)) == total
    modifies reader
    ensures Reading(reader, lines, line', cur')
    ensures stop ==> parts' == total
    ensures !stop ==> cur < cur' && parts' + PartsOf(ScanFrom(lines, delim, cur')) == total
  {
    stop := false;
    if StartsWith(line.value, delim) {
      var part;
      ghost var j;
      part, line', j := ReadPart(reader, lines, delim, cur, parts, total);
      parts' := parts + [part];
      if line'.Some? && StartsWith(line'.value, delim + "--") {
        cur' := j;
        stop := true;
        return;
      }
      line' := reader.ReadLine();
      cur' := Next(lines, j);
    } else {
      SkipLine(lines, delim, cur);
      parts' := parts;
      line' := reader.ReadLine();
      cur' := Next(lines, cur);
    }
  }

  /** `parse`: the outer `readLine` loop, opening a part at each line that starts with the delimiter. */
  method Parse(parser: Parser) returns (parts: seq<Part>)
    ensures parts == Parts(parser)
  {
    var reader := new LineReader(parser.input);
    ghost var lines := reader.lines;
    var delim := Delimiter(parser.boundary);
    parts := [];
    var line := reader.ReadLine();
    ghost var cur: nat := 0;
    ghost var total := Parts(parser);
    while line.Some?
      invariant fresh(reader)
      invariant Reading(reader, lines, line, cur)
      invariant parts + PartsOf(ScanFrom(lines, delim, cur)) == total
      decreases |lines| - cur
    {
      var stop;
      parts, line, cur, stop := ParseStep(reader, lines, delim, line, cur, parts, total);
      if stop {
        return;
      }
    }
  }

  // ---------------------------------------------------------------------------
  // Properties of the scan

  /** Input with no line starting with the delimiter yields no part. */
  lemma {:induction false} NoDelimiterNoParts(lines: seq<string>, delim: string, pos: nat)
    requires pos <= |lines|
    requires forall k :: pos <= k < |lines| ==> !StartsWith(lines[k], delim)
    ensures ScanFrom(lines, delim, pos) == []
    decreases |lines| - pos
  {
    if pos < |lines| {
      NoDelimiterNoParts(lines, delim, pos + 1);
    }
  }

  /** Lines before the first line starting with the delimiter are ignored. */
  lemma {:induction false} PreambleIgnored(lines: seq<string>, delim: string, pos: nat, q: nat)
    requires pos <= q <= |lines|
    requires forall k :: pos <= k < q ==> !StartsWith(lines[k], delim)
    ensures ScanFrom(lines, delim, pos) == ScanFrom(lines, delim, q)
    decreases q - pos
  {
    if pos < q {
      PreambleIgnored(lines, delim, pos + 1, q);
    }
  }

  /** Every part has a `body` entry, trimmed at both ends. */
  lemma PartsHaveBody(ss: seq<Section>)
    ensures forall k :: 0 <= k < |PartsOf(ss)| ==> BodyKey in PartsOf(ss)[k]
    ensures forall k :: 0 <= k < |PartsOf(ss)| ==>
      var v := PartsOf(ss)[k][BodyKey]; v == [] || (!IsTrimmed(v[0]) && !IsTrimmed(v[|v| - 1]))
  {
    forall k | 0 <= k < |PartsOf(ss)| ensures PartsOf(ss)[k] == PartOf(ss[k].headers, ss[k].body) {
      PartsOfAt(ss, k);
    }
  }

  /** Every section read has non-empty header lines and no body line starting with the delimiter. */
  lemma {:induction false} ScannedWellFormed(lines: seq<string>, delim: string, pos: nat)
    requires pos <= |lines|
    ensures forall k :: 0 <= k < |ScanFrom(lines, delim, pos)| ==> WellFormed(delim, ScanFrom(lines, delim, pos)[k])
    decreases |lines| - pos
  {
    if pos < |lines| {
      if !StartsWith(lines[pos], delim) {
        ScannedWellFormed(lines, delim, pos + 1);
      } else {
        OpenedWellFormed(lines, delim, pos);
        var j := Opened(lines, delim, pos).1;
        if !(j < |lines| && StartsWith(lines[j], delim + "--")) {
          ScannedWellFormed(lines, delim, Next(lines, j));
        }
      }
    }
  }

  /** A section as a client writes it: delimiter line, header lines, empty line, body lines. */
  function Block(delim: string, s: Section): seq<string> {
    [delim] + s.headers + [""] + s.body
  }

  /** Header lines are not empty (an empty one would end them) and no body line starts with the delimiter. */
  predicate WellFormed(delim: string, s: Section) {
    (forall k :: 0 <= k < |s.headers| ==> s.headers[k] != "") &&
    (forall k :: 0 <= k < |s.body| ==> !StartsWith(s.body[k], delim))
  }

  lemma StartsWithSelf(d: string, tail: string)
    ensures StartsWith(d + tail, d)
  {
    assert (d + tail)[..|d|] == d;
  }

  /** A block followed by a line starting with the delimiter is read back as its section, ended at that line. */
  lemma OpenedBlock(delim: string, s: Section, rest: seq<string>)
    requires delim != "" && WellFormed(delim, s) && rest != [] && StartsWith(rest[0], delim)
    ensures Opened(Block(delim, s) + rest, delim, 0) == (s, |Block(delim, s)|)
    ensures StartsWith((Block(delim, s) + rest)[0], delim)
    ensures (Block(delim, s) + rest)[|Block(delim, s)|] == rest[0]
  {
    BlockLines([], delim, s, rest);
    assert [] + (Block(delim, s) + rest) == Block(delim, s) + rest;
    OpenedAt(Block(delim, s) + rest, delim, 0, s, |Block(delim, s)|);
    assert (Block(delim, s) + rest)[0] == delim;
    StartsWithSelf(delim, "");
    assert delim + "" == delim;
  }

  /** Where the lines of a block sit after a prefix. */
  lemma BlockLines(pre: seq<string>, delim: string, s: Section, rest: seq<string>)
    requires rest != []
    ensures var lines, o := pre + (Block(delim, s) + rest), |pre|;
      |lines| == o + |Block(delim, s)| + |rest| && |Block(delim, s)| == |s.headers| + |s.body| + 2 &&
      lines[o] == delim && lines[o + |s.headers| + 1] == "" && lines[o + |Block(delim, s)|] == rest[0] &&
      (forall j :: 0 <= j < |s.headers| ==> lines[o + 1 + j] == s.headers[j]) &&
      (forall j :: 0 <= j < |s.body| ==> lines[o + |s.headers| + 2 + j] == s.body[j])
  {
    var lines, o := pre + (Block(delim, s) + rest), |pre|;
    var hs, bs := s.headers, s.body;
    assert Block(delim, s) == [delim] + hs + [""] + bs;
    forall j | 0 <= j < |hs| ensures lines[o + 1 + j] == hs[j] {
    }
    forall j | 0 <= j < |bs| ensures lines[o + |hs| + 2 + j] == bs[j] {
    }
  }

  /** A well-formed section laid out line by line at `o`, ended by a line starting with the delimiter at `n`, is what opens there. */
  lemma OpenedAt(lines: seq<string>, delim: string, o: nat, s: Section, n: nat)
    requires WellFormed(delim, s) && n == o + |s.headers| + |s.body| + 2 && n < |lines|
    requires lines[o + |s.headers| + 1] == "" && StartsWith(lines[n], delim)
    requires forall j :: 0 <= j < |s.headers| ==> lines[o + 1 + j] == s.headers[j]
    requires forall j :: 0 <= j < |s.body| ==> lines[o + |s.headers| + 2 + j] == s.body[j]
    ensures Opened(lines, delim, o) == (s, n)
  {
    var hs, bs := s.headers, s.body;
    var e, b := o + |hs| + 1, o + |hs| + 2;
    forall j | o + 1 <= j < e ensures lines[j] != "" {
      assert lines[j] == hs[j - o - 1];
    }
    HeaderEndIs(lines, o + 1, e);
    forall j | b <= j < n ensures !StartsWith(lines[j], delim) {
      assert lines[j] == bs[j - b];
    }
    BodyEndIs(lines, b, n, delim);
    OpenedIs(lines, delim, o, e, n);
    assert lines[o + 1..e] == hs;
    assert lines[b..n] == bs;
  }

  /** The section opened at `pos` once the end of its headers and of its body are known. */
  lemma OpenedIs(lines: seq<string>, delim: string, pos: nat, e: nat, j: nat)
    requires pos < e < |lines| && HeaderEnd(lines, pos + 1) == e
    requires e + 1 <= j <= |lines| && BodyEnd(lines, e + 1, delim) == j
    ensures Opened(lines, delim, pos) == (Section(lines[pos + 1..e], lines[e + 1..j]), j)
  {
  }

  /** Parsing stops right after a section whose body ends at the close delimiter; later lines are never read. */
  lemma ClosedPartStops(delim: string, s: Section, more: seq<string>)
    requires delim != "" && WellFormed(delim, s)
    ensures ScanFrom(Block(delim, s) + ([delim + "--"] + more), delim, 0) == [s]
  {
    StartsWithSelf(delim, "--");
    StartsWithSelf(delim + "--", "");
    assert delim + "--" + "" == delim + "--";
    OpenedBlock(delim, s, [delim + "--"] + more);
  }

  /**
   * As written, two sections lose the second: the delimiter line ending the
   * first body is consumed, the scan skips the second section's own lines, and
   * the close delimiter then opens an empty section.
   */
  lemma TwoPartsAsWritten(delim: string, s1: Section, s2: Section)
    requires delim != "" && WellFormed(delim, s1) && WellFormed(delim, s2)
    requires forall k :: 0 <= k < |s2.headers| ==> !StartsWith(s2.headers[k], delim)
    ensures ScanFrom(Block(delim, s1) + (Block(delim, s2) + [delim + "--"]), delim, 0) == [s1, Section([], [])]
  {
    var b1, b2 := Block(delim, s1), Block(delim, s2);
    var rest := b2 + [delim + "--"];
    assert rest[0] == b2[0] == delim;
    ConsumedDelimiter(delim, s1, rest);
    SecondBlockLost(delim, b1, s2);
    assert [s1] + [Section([], [])] == [s1, Section([], [])];
  }

  /** As written, what follows the consumed delimiter line of a second block, up to the close delimiter, is one empty section. */
  lemma SecondBlockLost(delim: string, b1: seq<string>, s2: Section)
    requires delim != "" && WellFormed(delim, s2)
    requires forall k :: 0 <= k < |s2.headers| ==> !StartsWith(s2.headers[k], delim)
    ensures ScanFrom(b1 + (Block(delim, s2) + [delim + "--"]), delim, |b1| + 1) == [Section([], [])]
  {
    SecondBlockSkipped(delim, b1, s2);
    CloseOpensEmpty(delim, b1, Block(delim, s2));
  }

  /** As written, the lines of a second block after its consumed delimiter line are skipped up to the close delimiter. */
  lemma SecondBlockSkipped(delim: string, b1: seq<string>, s2: Section)
    requires delim != "" && WellFormed(delim, s2)
    requires forall k :: 0 <= k < |s2.headers| ==> !StartsWith(s2.headers[k], delim)
    ensures ScanFrom(b1 + (Block(delim, s2) + [delim + "--"]), delim, |b1| + 1)
         == ScanFrom(b1 + (Block(delim, s2) + [delim + "--"]), delim, |b1| + |Block(delim, s2)|)
  {
    var b2 := Block(delim, s2);
    var lines := b1 + (b2 + [delim + "--"]);
    BlockTailClear(delim, s2);
    forall k | |b1| + 1 <= k < |b1| + |b2| ensures !StartsWith(lines[k], delim) {
      assert lines[k] == b2[k - |b1|];
    }
    PreambleIgnored(lines, delim, |b1| + 1, |b1| + |b2|);
  }

  /** As written, a close delimiter as the last line opens an empty section. */
  lemma CloseOpensEmpty(delim: string, b1: seq<string>, b2: seq<string>)
    ensures ScanFrom(b1 + (b2 + [delim + "--"]), delim, |b1| + |b2|) == [Section([], [])]
  {
    var lines := b1 + (b2 + [delim + "--"]);
    assert lines[|b1| + |b2|] == delim + "--";
    StartsWithSelf(delim, "--");
    LastDelimiterEmpty(lines, delim, |b1| + |b2|);
  }

  /** As written, a block followed by a (non-closing) delimiter line gives its section, and the scan resumes after that line. */
  lemma ConsumedDelimiter(delim: string, s: Section, rest: seq<string>)
    requires delim != "" && WellFormed(delim, s) && rest != [] && rest[0] == delim
    ensures ScanFrom(Block(delim, s) + rest, delim, 0) == [s] + ScanFrom(Block(delim, s) + rest, delim, |Block(delim, s)| + 1)
  {
    StartsWithSelf(delim, "");
    assert delim + "" == delim;
    assert !StartsWith(delim, delim + "--");
    OpenedBlock(delim, s, rest);
  }

  /** No line of a block after its delimiter line starts with the delimiter, when no header line does. */
  lemma BlockTailClear(delim: string, s: Section)
    requires delim != "" && WellFormed(delim, s)
    requires forall k :: 0 <= k < |s.headers| ==> !StartsWith(s.headers[k], delim)
    ensures forall i :: 1 <= i < |Block(delim, s)| ==> !StartsWith(Block(delim, s)[i], delim)
  {
    var b := Block(delim, s);
    forall i | 1 <= i < |b| ensures !StartsWith(b[i], delim) {
      if i <= |s.headers| {
        assert b[i] == s.headers[i - 1];
      } else if i == |s.headers| + 1 {
        assert b[i] == "";
      } else {
        assert b[i] == s.body[i - |s.headers| - 2];
      }
    }
  }

  /** A line starting with the delimiter as the last line opens an empty section. */
  lemma LastDelimiterEmpty(lines: seq<string>, delim: string, q: nat)
    requires q + 1 == |lines| && StartsWith(lines[q], delim)
    ensures ScanFrom(lines, delim, q) == [Section([], [])]
  {
    HeaderEndIs(lines, q + 1, q + 1);
    BodyEndIs(lines, q + 1, q + 1, delim);
    assert lines[q + 1..q + 1] == [];
    assert Opened(lines, delim, q) == (Section([], []), q + 1);
  }

  // ---------------------------------------------------------------------------
  // The scan with the delimiter line left to open the next section

  /**
   * The evidently intended scan: the delimiter line that ends a body is not
   * consumed but opens the next section, so every section is read.
   */
  function CorrectScanFrom(lines: seq<string>, delim: string, pos: nat): seq<Section>
    requires pos <= |lines|
    decreases |lines| - pos
  {
    if pos == |lines| then []
    else if !StartsWith(lines[pos], delim) then CorrectScanFrom(lines, delim, pos + 1)
    else
      var op := Opened(lines, delim, pos);
      if op.1 == |lines| || StartsWith(lines[op.1], delim + "--") then [op.0]
      else [op.0] + CorrectScanFrom(lines, delim, op.1)
  }

  /** What the intended `parse` returns. */
  function CorrectParts(parser: Parser): seq<Part> {
    PartsOf(CorrectScanFrom(ReadLines(parser.input), Delimiter(parser.boundary), 0))
  }

  /** The blocks of `ss`, one after the other, and the close delimiter. */
  function Encode(delim: string, ss: seq<Section>): seq<string> {
    if ss == [] then [delim + "--"] else Block(delim, ss[0]) + Encode(delim, ss[1..])
  }

  /** The intended scan of the blocks of `ss`, wherever they start, reads back `ss`. */
  lemma {:induction false} CorrectOfEncodeAt(pre: seq<string>, delim: string, ss: seq<Section>)
    requires delim != "" && ss != []
    requires forall i :: 0 <= i < |ss| ==> WellFormed(delim, ss[i])
    ensures CorrectScanFrom(pre + Encode(delim, ss), delim, |pre|) == ss
    decreases |ss|
  {
    var s, tail := ss[0], ss[1..];
    var rest := Encode(delim, tail);
    assert Encode(delim, ss) == Block(delim, s) + rest;
    if tail == [] {
      assert rest == [delim + "--"];
      StartsWithSelf(delim, "--");
      StartsWithSelf(delim + "--", "");
      assert delim + "--" + "" == delim + "--";
      CorrectBlockAt(pre, delim, s, rest);
      assert ss == [s];
    } else {
      EncodeOpens(delim, tail);
      CorrectBlockAt(pre, delim, s, rest);
      WellFormedTail(delim, ss);
      CorrectOfEncodeAt(pre + Block(delim, s), delim, tail);
      HeadTail(ss);
    }
  }

  /** The blocks of a non-empty `ss` start with a plain delimiter line. */
  lemma EncodeOpens(delim: string, ss: seq<Section>)
    requires delim != "" && ss != []
    ensures Encode(delim, ss) != [] && StartsWith(Encode(delim, ss)[0], delim)
    ensures !StartsWith(Encode(delim, ss)[0], delim + "--")
  {
    assert Encode(delim, ss) == Block(delim, ss[0]) + Encode(delim, ss[1..]);
    assert Encode(delim, ss)[0] == delim;
    StartsWithSelf(delim, "");
    assert delim + "" == delim;
  }

  lemma WellFormedTail(delim: string, ss: seq<Section>)
    requires ss != [] && forall i :: 0 <= i < |ss| ==> WellFormed(delim, ss[i])
    ensures forall i :: 0 <= i < |ss[1..]| ==> WellFormed(delim, ss[1..][i])
  {
    forall i | 0 <= i < |ss[1..]| ensures WellFormed(delim, ss[1..][i]) {
      assert ss[1..][i] == ss[i + 1];
    }
  }

  lemma HeadTail<T>(ss: seq<T>)
    requires ss != []
    ensures ss == [ss[0]] + ss[1..]
  {
  }

  /** A block after any prefix: the intended scan reads its section, then stops at the close delimiter or goes on at the next line. */
  lemma CorrectBlockAt(pre: seq<string>, delim: string, s: Section, rest: seq<string>)
    requires delim != "" && WellFormed(delim, s) && rest != [] && StartsWith(rest[0], delim)
    ensures StartsWith(rest[0], delim + "--") ==> CorrectScanFrom(pre + (Block(delim, s) + rest), delim, |pre|) == [s]
    ensures !StartsWith(rest[0], delim + "--") ==>
      CorrectScanFrom(pre + (Block(delim, s) + rest), delim, |pre|) ==
      [s] + CorrectScanFrom((pre + Block(delim, s)) + rest, delim, |pre + Block(delim, s)|)
  {
    var b := Block(delim, s);
    var lines := pre + (b + rest);
    var n := |pre| + |b|;
    BlockLines(pre, delim, s, rest);
    OpenedAt(lines, delim, |pre|, s, n);
    StartsWithSelf(delim, "");
    assert delim + "" == delim;
    if StartsWith(rest[0], delim + "--") {
      CorrectOpensClosed(lines, delim, |pre|, s, n);
    } else {
      CorrectOpensNext(lines, delim, |pre|, s, n);
      AppendAssoc(pre, b, rest);
    }
  }

  /** The intended scan at a line starting with the delimiter whose section ends at a close delimiter line. */
  lemma CorrectOpensClosed(lines: seq<string>, delim: string, pos: nat, s: Section, n: nat)
    requires pos < |lines| && StartsWith(lines[pos], delim) && Opened(lines, delim, pos) == (s, n)
    requires n < |lines| && StartsWith(lines[n], delim + "--")
    ensures CorrectScanFrom(lines, delim, pos) == [s]
  {
  }

  /** The intended scan at a line starting with the delimiter whose section ends at another delimiter line. */
  lemma CorrectOpensNext(lines: seq<string>, delim: string, pos: nat, s: Section, n: nat)
    requires pos < |lines| && StartsWith(lines[pos], delim) && Opened(lines, delim, pos) == (s, n)
    requires n < |lines| && !StartsWith(lines[n], delim + "--")
    ensures CorrectScanFrom(lines, delim, pos) == [s] + CorrectScanFrom(lines, delim, n)
  {
  }

  /** Round trip: the intended scan reads back exactly the sections a well-formed multipart body was written from. */
  lemma CorrectOfEncode(delim: string, ss: seq<Section>)
    requires delim != "" && ss != []
    requires forall i :: 0 <= i < |ss| ==> WellFormed(delim, ss[i])
    ensures CorrectScanFrom(Encode(delim, ss), delim, 0) == ss
  {
    CorrectOfEncodeAt([], delim, ss);
    assert [] + Encode(delim, ss) == Encode(delim, ss);
  }
}
