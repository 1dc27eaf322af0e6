/**
 * `org.example.HttpServerChannel`: reading one chunk from a client channel and
 * turning it into either a reply (400 or 404) or a call of the registered
 * handler with the parsed request.
 */
module ServerChannel {
  import opened Wrappers
  import opened JavaStrings
  import opened KeyValues
  import opened Requests
  import opened Responses

  /** What `handleRequest` does with one chunk of text. */
  datatype Outcome<H> =
    | Replied(code: int, body: string)
    | Dispatched(handler: H, request: Request)

  const BadRequest: string := "Bad Request"
  const NotFound: string := "Not Found"
  const HeaderSep: string := ": "

  /** The headers `handleRequest` collects: the kept `Key: Value` lines before the first empty line. */
  function HeadersOf(lines: seq<string>): map<string, string>
    requires |lines| > 0
  {
    Collect(lines[1..HeaderEnd(lines, 1)], HeaderSep)
  }

  /** The body `handleRequest` takes: the one line after the first empty line, if there is one. */
  function BodyOf(lines: seq<string>): string
    requires |lines| > 0
  {
    var end := HeaderEnd(lines, 1);
    if end + 1 < |lines| then lines[end + 1] else ""
  }

  /** The decision of `handleRequest` on the lines `request.split("\r\n")` gives. */
  function DecideLines<H>(lines: seq<string>, handlers: map<string, map<string, H>>): Outcome<H> {
    if |lines| == 0 || lines[0] == "" then Replied(400, BadRequest)
    else
      var requestLine := Split(lines[0], " ");
      if |requestLine| < 2 then Replied(400, BadRequest)
      else
        var request := Request(requestLine[0], requestLine[1], HeadersOf(lines), BodyOf(lines));
        if requestLine[0] in handlers && requestLine[1] in handlers[requestLine[0]] then
          Dispatched(handlers[requestLine[0]][requestLine[1]], request)
        else Replied(404, NotFound)
  }

  /** The decision of `handleRequest` on the text of one read. */
  function Decide<H>(text: string, handlers: map<string, map<string, H>>): Outcome<H> {
    DecideLines(Split(text, CRLF), handlers)
  }

  /** The header loop of `handleRequest` and the body line after it. */
  method HeadersAndBody(lines: seq<string>) returns (headers: map<string, string>, body: string)
    requires |lines| > 0
    ensures headers == HeadersOf(lines) && body == BodyOf(lines)
  {
    headers := map[];
    var i := 1;
    while i < |lines| && lines[i] != ""
      invariant 1 <= i <= |lines|
      invariant HeaderEnd(lines, i) == HeaderEnd(lines, 1)
      invariant headers == Collect(lines[1..i], HeaderSep)
    {
      SliceSnoc(lines, 1, i);
      CollectSnoc(lines[1..i], lines[i], HeaderSep);
      var header := KeyValue(lines[i], HeaderSep);
      if header.Some? {
        headers := headers[header.value.0 := header.value.1];
      }
      i := i + 1;
    }
    assert HeaderEnd(lines, i) == i;
    body := "";
    if i + 1 < |lines| {
      body := lines[i + 1];
    }
  }

  /**
   * The parsing half of `handleRequest`: splits, checks the request line,
   * collects the headers in a loop up to the first empty line, takes the one
   * body line and looks the handler up.
   */
  method Route<H>(text: string, handlers: map<string, map<string, H>>) returns (outcome: Outcome<H>)
    ensures outcome == Decide(text, handlers)
  {
    var lines := Split(text, CRLF);
    if |lines| == 0 || lines[0] == "" {
      return Replied(400, BadRequest);
    }
    var requestLine := Split(lines[0], " ");
    if |requestLine| < 2 {
      return Replied(400, BadRequest);
    }
    var httpMethod := requestLine[0];
    var path := requestLine[1];
    var headers, body := HeadersAndBody(lines);
    var request := Request(httpMethod, path, headers, body);
    if httpMethod in handlers && path in handlers[httpMethod] {
      outcome := Dispatched(handlers[httpMethod][path], request);
    } else {
      outcome := Replied(404, NotFound);
    }
  }

  /**
   * `handleRequest`: the decision of `Route`, with a 400 or 404 sent on the
   * channel as `text/plain` (`sendBadRequestResponse` for the 400s).
   */
  method HandleRequest<H>(channel: Channel, text: string, handlers: map<string, map<string, H>>)
      returns (outcome: Outcome<H>)
    modifies channel
    ensures outcome == Decide(text, handlers)
    ensures outcome.Replied? && old(channel.open) ==>
      channel.written == old(channel.written) + [Format(outcome.code, outcome.body, "text/plain")] && !channel.open
    ensures outcome.Replied? && !old(channel.open) ==> channel.written == old(channel.written) && !channel.open
    ensures outcome.Dispatched? ==> channel.written == old(channel.written) && channel.open == old(channel.open)
  {
    outcome := Route(text, handlers);
    if outcome.Replied? {
      var response := new HttpResponse(channel);
      var _ := response.SendPlain(outcome.code, outcome.body);
    }
  }

  /** The selection key of a client channel. */
  class SelectionKey {
    var cancelled: bool

    constructor ()
      ensures !cancelled
    {
      cancelled := false;
    }
  }

  /**
   * `read`: a read of -1 (`None`) closes the channel and cancels the key without
   * parsing anything; otherwise the text read is handled.
   */
  method OnRead<H>(channel: Channel, key: SelectionKey, chunk: Option<string>, handlers: map<string, map<string, H>>)
      returns (outcome: Option<Outcome<H>>)
    modifies channel, key
    ensures chunk.None? ==> outcome.None? && !channel.open && key.cancelled && channel.written == old(channel.written)
    ensures chunk.Some? ==> outcome == Some(Decide(chunk.value, handlers)) && key.cancelled == old(key.cancelled)
    ensures chunk.Some? && outcome.value.Replied? && old(channel.open) ==>
      channel.written == old(channel.written) + [Format(outcome.value.code, outcome.value.body, "text/plain")] && !channel.open
    ensures chunk.Some? && outcome.value.Replied? && !old(channel.open) ==> channel.written == old(channel.written) && !channel.open
    ensures chunk.Some? && outcome.value.Dispatched? ==> channel.written == old(channel.written) && channel.open == old(channel.open)
  {
    if chunk.None? {
      channel.open := false;
      key.cancelled := true;
      return None;
    }
    var o := HandleRequest(channel, chunk.value, handlers);
    return Some(o);
  }

  // ---------------------------------------------------------------------------
  // Properties of the decision

  /** No text, or a text starting with a blank line, gives 400 and no handler runs. */
  lemma BlankStartIsBadRequest<H>(text: string, handlers: map<string, map<string, H>>)
    requires text == "" || StartsWith(text, CRLF)
    ensures Decide(text, handlers) == Replied(400, BadRequest)
  {
    var lines := Split(text, CRLF);
    if text != "" {
      assert OccursAt(text, 0, CRLF);
      IndexFromFirst(text, CRLF, 0, 0);
      var ps := Pieces(text, CRLF);
      assert ps[0] == "";
      if |lines| > 0 {
        assert lines[0] == ps[0];
      }
    }
  }

  /** The dispatch happens iff the request line has two tokens and the registry has the handler. */
  lemma DispatchIffRegistered<H>(lines: seq<string>, handlers: map<string, map<string, H>>)
    ensures DecideLines(lines, handlers).Dispatched? <==>
      |lines| > 0 && lines[0] != "" && |Split(lines[0], " ")| >= 2 &&
      Split(lines[0], " ")[0] in handlers && Split(lines[0], " ")[1] in handlers[Split(lines[0], " ")[0]]
    ensures DecideLines(lines, handlers).Dispatched? ==>
      var rl := Split(lines[0], " ");
      DecideLines(lines, handlers).handler == handlers[rl[0]][rl[1]] &&
      DecideLines(lines, handlers).request.httpMethod == rl[0] && DecideLines(lines, handlers).request.path == rl[1]
    ensures DecideLines(lines, handlers).Replied? ==> DecideLines(lines, handlers).code in {400, 404}
  {
  }

  lemma BlankAt(rl: string, hs: seq<string>, more: seq<string>)
    requires forall k :: 0 <= k < |hs| ==> hs[k] != ""
    ensures HeaderEnd([rl] + hs + [""] + more, 1) == |hs| + 1
  {
    var lines := [rl] + hs + [""] + more;
    assert lines[|hs| + 1] == "";
    forall j | 1 <= j < |hs| + 1 ensures lines[j] != "" {
      assert lines[j] == hs[j - 1];
    }
    HeaderEndIs(lines, 1, |hs| + 1);
  }

  /** Headers are read only up to the first empty line; every line after it is ignored as a header. */
  lemma HeadersStopAtBlank(rl: string, hs: seq<string>, more: seq<string>)
    requires forall k :: 0 <= k < |hs| ==> hs[k] != ""
    ensures HeadersOf([rl] + hs + [""] + more) == Collect(hs, HeaderSep)
  {
    var head := [rl] + hs;
    var lines := head + ([""] + more);
    assert lines == [rl] + hs + [""] + more;
    BlankAt(rl, hs, more);
    assert lines[1..|head|] == head[1..] == hs;
  }

  /** The body is the single line right after the first empty line, or empty when there is none; later lines are dropped. */
  lemma BodyAfterBlank(rl: string, hs: seq<string>, more: seq<string>)
    requires forall k :: 0 <= k < |hs| ==> hs[k] != ""
    ensures |more| > 0 ==> BodyOf([rl] + hs + [""] + more) == more[0]
    ensures |more| == 0 ==> BodyOf([rl] + hs + [""] + more) == ""
  {
    var lines := [rl] + hs + [""] + more;
    BlankAt(rl, hs, more);
    if |more| > 0 {
      assert lines[|hs| + 2] == more[0];
    }
  }

  /** A header loop started at `i` on lines with no empty line from `i` on reads to the end. */
  lemma NoBlankFrom(lines: seq<string>, i: nat)
    requires i <= |lines|
    requires forall k :: 0 <= k < |lines[i..]| ==> lines[i..][k] != ""
    ensures HeaderEnd(lines, i) == |lines|
  {
    forall j | i <= j < |lines| ensures lines[j] != "" {
      assert lines[j] == lines[i..][j - i];
    }
    HeaderEndIs(lines, i, |lines|);
  }

  /** Without an empty line every line after the request line is a header line and the body is empty. */
  lemma HeadersWithoutBlank(rl: string, hs: seq<string>)
    requires forall k :: 0 <= k < |hs| ==> hs[k] != ""
    ensures HeadersOf([rl] + hs) == Collect(hs, HeaderSep)
    ensures BodyOf([rl] + hs) == ""
  {
    var lines := [rl] + hs;
    assert lines[1..] == hs;
    NoBlankFrom(lines, 1);
    assert lines[1..|lines|] == hs;
  }

  /** The first line `split` gives is the text up to the first CRLF. */
  lemma FirstLine(rl: string, rest: string)
    requires rl != "" && !Contains(rl, CRLF)
    ensures var lines := Split(rl + CRLF + rest, CRLF); |lines| > 0 && lines[0] == rl
  {
    var text := rl + CRLF + rest;
    CRLFUnbordered();
    PiecesOfCons(rl, CRLF, rest);
    assert OccursAt(text, |rl|, CRLF) by {
      assert text[|rl|..|rl| + 2] == CRLF;
    }
    DropKeeps(Pieces(text, CRLF), 0);
  }

  /** A request line without a space has fewer than two tokens: 400, whatever follows. */
  lemma SingleTokenIsBadRequest<H>(rl: string, rest: string, handlers: map<string, map<string, H>>)
    requires ' ' !in rl && !Contains(rl, CRLF)
    ensures Decide(rl + CRLF + rest, handlers) == Replied(400, BadRequest)
  {
    if rl == "" {
      BlankStartIsBadRequest(rl + CRLF + rest, handlers);
      return;
    }
    FirstLine(rl, rest);
    ContainsChar(rl, ' ');
    assert IndexOf(rl, " ").None?;
  }

  /** The method and path are the first two space-separated tokens; anything after them (the version) is not examined. */
  lemma RequestLineTokens(m: string, p: string, tail: string)
    requires ' ' !in m && ' ' !in p && p != "" && (tail == "" || tail[0] == ' ')
    ensures var rl := Split(m + " " + p + tail, " "); |rl| >= 2 && rl[0] == m && rl[1] == p
  {
    ContainsChar(m, ' ');
    ContainsChar(p, ' ');
    assert Unbordered(" ");
    assert tail != "" ==> tail[..1] == " ";
    SplitFirstTwo(m, p, tail, " ");
  }

  /** Every line is free of CRLF. */
  predicate CleanLines(ls: seq<string>) {
    forall k :: 0 <= k < |ls| ==> !Contains(ls[k], CRLF)
  }

  /** Every line is non-empty. */
  predicate NonEmptyLines(ls: seq<string>) {
    forall k :: 0 <= k < |ls| ==> ls[k] != ""
  }

  /**
   * Round trip with a body: a request line `m p ...`, header lines, an empty
   * line and a body line, joined by CRLF, are read back as method `m`, path
   * `p`, the headers the lines give and that body.
   */
  lemma RequestWithBody<H>(m: string, p: string, tail: string, hs: seq<string>, body: string,
                           handlers: map<string, map<string, H>>)
    requires ' ' !in m && ' ' !in p && p != "" && (tail == "" || tail[0] == ' ')
    requires !Contains(m + " " + p + tail, CRLF) && CleanLines(hs) && NonEmptyLines(hs)
    requires body != "" && !Contains(body, CRLF)
    ensures Decide(Join([m + " " + p + tail] + hs + ["", body], CRLF), handlers) ==
      if m in handlers && p in handlers[m] then Dispatched(handlers[m][p], Request(m, p, Collect(hs, HeaderSep), body))
      else Replied(404, NotFound)
  {
    var rl := m + " " + p + tail;
    var ls := [rl] + hs + ["", body];
    forall k | 0 <= k < |ls| ensures !Contains(ls[k], CRLF) {
      if 0 < k <= |hs| {
        assert ls[k] == hs[k - 1];
      } else if k == |hs| + 1 {
        assert ls[k] == "";
      }
    }
    CRLFUnbordered();
    SplitOfJoin(ls, CRLF);
    assert DropTrailingEmpty(ls) == ls;
    RequestLineTokens(m, p, tail);
    assert ls == [rl] + hs + [""] + [body];
    HeadersStopAtBlank(rl, hs, [body]);
    BodyAfterBlank(rl, hs, [body]);
  }

  /** A head (request line and header lines) followed by the blank line is split back into exactly its lines. */
  lemma SplitOfHead(rl: string, hs: seq<string>)
    requires rl != "" && !Contains(rl, CRLF) && CleanLines(hs) && NonEmptyLines(hs)
    ensures Split(Join([rl] + hs, CRLF) + CRLF + CRLF, CRLF) == [rl] + hs
  {
    var head := [rl] + hs;
    var ls := head + ["", ""];
    forall k | 0 <= k < |ls| ensures !Contains(ls[k], CRLF) {
      if 0 < k <= |hs| {
        assert ls[k] == hs[k - 1];
      } else if k > |hs| {
        assert ls[k] == "";
      }
    }
    JoinSnocEmpty(head, CRLF);
    JoinSnocEmpty(head + [""], CRLF);
    assert head + [""] + [""] == ls;
    CRLFUnbordered();
    SplitOfJoin(ls, CRLF);
    assert ls[..|ls| - 1] == head + [""];
    assert (head + [""])[..|head|] == head;
    assert head[|head| - 1] != "" by {
      if |hs| > 0 {
        assert head[|head| - 1] == hs[|hs| - 1];
      }
    }
  }

  /**
   * Round trip without a body: a request line, header lines and the blank
   * line that ends the head. The trailing empty pieces are dropped by `split`,
   * so the body is empty.
   */
  lemma RequestWithoutBody<H>(m: string, p: string, tail: string, hs: seq<string>,
                              handlers: map<string, map<string, H>>)
    requires ' ' !in m && ' ' !in p && p != "" && (tail == "" || tail[0] == ' ')
    requires !Contains(m + " " + p + tail, CRLF) && CleanLines(hs) && NonEmptyLines(hs)
    ensures Decide(Join([m + " " + p + tail] + hs, CRLF) + CRLF + CRLF, handlers) ==
      if m in handlers && p in handlers[m] then Dispatched(handlers[m][p], Request(m, p, Collect(hs, HeaderSep), ""))
      else Replied(404, NotFound)
  {
    var rl := m + " " + p + tail;
    assert rl[|m|] == ' ';
    SplitOfHead(rl, hs);
    RequestLineTokens(m, p, tail);
    HeadersWithoutBlank(rl, hs);
  }

  /**
   * The protocol version on the request line is never looked at: a request
   * line `m p version` (such as `GET / HTTP/0.9`) followed by a blank line is
   * decided exactly like the bare `m p`.
   */
  lemma VersionIgnored<H>(m: string, p: string, version: string, handlers: map<string, map<string, H>>)
    requires ' ' !in m && ' ' !in p && p != "" && '\r' !in m + " " + p + " " + version
    ensures Decide(m + " " + p + " " + version + CRLF + CRLF, handlers) == Decide(m + " " + p + CRLF + CRLF, handlers)
    ensures Decide(m + " " + p + CRLF + CRLF, handlers) ==
      if m in handlers && p in handlers[m] then Dispatched(handlers[m][p], Request(m, p, map[], ""))
      else Replied(404, NotFound)
  {
    var short := m + " " + p;
    var full := short + " " + version;
    assert full == m + " " + p + (" " + version);
    assert full[..|short|] == short;
    assert '\r' !in short by {
      forall i | 0 <= i < |short| ensures short[i] != '\r' {
        assert short[i] == full[i];
      }
    }
    LacksFirstChar(full, CRLF);
    LacksFirstChar(short, CRLF);
    assert short + "" == short;
    assert [full] + [] == [full] && [short] + [] == [short];
    RequestWithoutBody(m, p, " " + version, [], handlers);
    RequestWithoutBody(m, p, "", [], handlers);
    assert Collect([], HeaderSep) == map[];
  }
}
