/**
 * `org.example.HttpResponse`: the status table, the wire text of a response
 * and the write-then-close of `send`.
 */
module Responses {
  import opened Wrappers
  import opened JavaStrings

  const HeadEnd: string := CRLF + CRLF

  /** `getStatusMessage`: the reason phrases this class knows. */
  function StatusMessage(code: int): (m: string)
    ensures code == 200 ==> m == "OK"
    ensures code == 400 ==> m == "Bad Request"
    ensures code == 404 ==> m == "Not Found"
    ensures code == 500 ==> m == "Internal Server Error"
    ensures m == "Unknown Status" <==> code !in {200, 400, 404, 500}
    ensures '\r' !in m
  {
    match code
    case 200 => "OK"
    case 400 => "Bad Request"
    case 404 => "Not Found"
    case 500 => "Internal Server Error"
    case _ => "Unknown Status"
  }

  function StatusLine(code: int): string {
    "HTTP/1.1 " + IntToString(code) + " " + StatusMessage(code)
  }

  function ContentLengthLine(body: string): string {
    "Content-Length: " + IntToString(|body|)
  }

  function ContentTypeLine(contentType: string): string {
    "Content-Type: " + contentType
  }

  /** The head lines of a response, in the order `send` writes them. */
  function HeadLines(code: int, body: string, contentType: string): seq<string> {
    [StatusLine(code), ContentLengthLine(body), ContentTypeLine(contentType)]
  }

  /** The text `send(code, body, contentType)` writes to the channel. */
  function Format(code: int, body: string, contentType: string): (r: string)
    ensures StartsWith(r, "HTTP/1.1 ") && EndsWith(r, HeadEnd + body)
  {
    var status := StatusLine(code);
    var head := status + CRLF + ContentLengthLine(body) + CRLF + ContentTypeLine(contentType);
    StatusLineStarts(code);
    PrefixGrows("HTTP/1.1 ", status, CRLF);
    PrefixGrows("HTTP/1.1 ", status + CRLF, ContentLengthLine(body));
    PrefixGrows("HTTP/1.1 ", status + CRLF + ContentLengthLine(body), CRLF);
    PrefixGrows("HTTP/1.1 ", status + CRLF + ContentLengthLine(body) + CRLF, ContentTypeLine(contentType));
    FramedBy("HTTP/1.1 ", head, body);
    head + CRLF + CRLF + body
  }

  /** A prefix of a text is a prefix of any extension of it. */
  lemma PrefixGrows(p: string, a: string, b: string)
    requires StartsWith(a, p)
    ensures StartsWith(a + b, p)
  {
    assert (a + b)[..|p|] == a[..|p|];
  }

  lemma StatusLineStarts(code: int)
    ensures StartsWith(StatusLine(code), "HTTP/1.1 ")
  {
    var p, n := "HTTP/1.1 ", IntToString(code);
    assert (p + n)[..|p|] == p;
    PrefixGrows(p, p + n, " ");
    PrefixGrows(p, p + n + " ", StatusMessage(code));
  }

  /** A head, a blank line and a body: the head's prefix starts it and the blank line and body end it. */
  lemma FramedBy(p: string, head: string, body: string)
    requires StartsWith(head, p)
    ensures var r := head + CRLF + CRLF + body; StartsWith(r, p) && EndsWith(r, HeadEnd + body)
  {
    var r := head + CRLF + CRLF + body;
    assert r[..|p|] == head[..|p|];
    assert r[|r| - |HeadEnd + body|..] == HeadEnd + body;
  }

  /** `s.split(sep, 2)` when it has two parts: the text before and after the first `sep`. */
  function SplitFirst(s: string, sep: string): (r: Option<(string, string)>)
    ensures r.Some? <==> IndexOf(s, sep).Some?
    ensures r.Some? ==> s == r.value.0 + sep + r.value.1
    ensures r.Some? ==> forall i: nat :: i < |r.value.0| ==> !OccursAt(s, i, sep)
  {
    match IndexOf(s, sep)
    case None => None
    case Some(j) =>
      assert s == s[..j] + sep + s[j + |sep|..];
      Some((s[..j], s[j + |sep|..]))
  }

  // ---------------------------------------------------------------------------
  // Where the first blank line is

  /** An occurrence of CRLF CRLF, character by character. */
  lemma HeadEndAt(s: string, i: nat)
    ensures OccursAt(s, i, HeadEnd) <==>
      i + 4 <= |s| && s[i] == '\r' && s[i + 1] == '\n' && s[i + 2] == '\r' && s[i + 3] == '\n'
  {
    if i + 4 <= |s| && s[i] == '\r' && s[i + 1] == '\n' && s[i + 2] == '\r' && s[i + 3] == '\n' {
      assert s[i..i + 4] == HeadEnd;
    }
    if OccursAt(s, i, HeadEnd) {
      assert s[i..i + 4][0] == s[i] && s[i..i + 4][1] == s[i + 1];
      assert s[i..i + 4][2] == s[i + 2] && s[i..i + 4][3] == s[i + 3];
    }
  }

  /** A text without CRLF has no `\r` directly followed by `\n`. */
  lemma NoCRLFAt(l: string, p: nat)
    requires !Contains(l, CRLF) && p + 1 < |l|
    ensures !(l[p] == '\r' && l[p + 1] == '\n')
  {
    assert !OccursAt(l, p, CRLF);
    assert l[p..p + 2][0] == l[p] && l[p..p + 2][1] == l[p + 1];
  }

  /** Without occurrences in `[from, to)`, searching from `from` finds what searching from `to` finds. */
  lemma IndexFromSkip(s: string, sep: string, from: nat, to: nat)
    requires from <= to
    requires forall i: nat :: from <= i < to ==> !OccursAt(s, i, sep)
    ensures IndexFrom(s, sep, from) == IndexFrom(s, sep, to)
  {
    var r := IndexFrom(s, sep, from);
    if r.Some? {
      IndexFromFirst(s, sep, to, r.value);
    }
  }

  /** No blank line starts within a CRLF-free line or its CRLF when the next line does not start with `\r`. */
  lemma NoHeadEndInLine(l: string, t: string, i: nat)
    requires !Contains(l, CRLF) && |t| > 0 && t[0] != '\r' && i < |l| + 2
    ensures !OccursAt(l + CRLF + t, i, HeadEnd)
  {
    var s := l + CRLF + t;
    HeadEndAt(s, i);
    if i + 1 < |l| {
      NoCRLFAt(l, i);
      assert s[i] == l[i] && s[i + 1] == l[i + 1];
    } else if i + 1 == |l| {
      assert s[i + 1] == '\r';
    } else if i == |l| {
      assert s[i + 2] == t[0];
    } else {
      assert s[i] == '\n';
    }
  }

  /** A CRLF-free line followed by CRLF and a text not starting with `\r` holds no blank line. */
  lemma SkipLine(l: string, t: string)
    requires !Contains(l, CRLF) && |t| > 0 && t[0] != '\r'
    ensures IndexFrom(l + CRLF + t, HeadEnd, 0) == ShiftIndex(IndexFrom(t, HeadEnd, 0), |l| + 2)
  {
    var x := l + CRLF;
    var s := x + t;
    assert s == l + CRLF + t;
    forall i: nat | i < |x| ensures !OccursAt(s, i, HeadEnd) {
      NoHeadEndInLine(l, t, i);
    }
    IndexFromSkip(s, HeadEnd, 0, |x|);
    IndexFromShift(x, t, HeadEnd, 0);
  }

  /** The blank line after the last head line is where the first CRLF CRLF is. */
  lemma LastLine(l: string, body: string)
    requires !Contains(l, CRLF)
    ensures IndexFrom(l + HeadEnd + body, HeadEnd, 0) == Some(|l|)
  {
    var s := l + HeadEnd + body;
    forall i: nat | i < |l| ensures !OccursAt(s, i, HeadEnd) {
      HeadEndAt(s, i);
      if i + 1 < |l| {
        NoCRLFAt(l, i);
      }
    }
    HeadEndAt(s, |l|);
    IndexFromFirst(s, HeadEnd, 0, |l|);
  }

  /** A prefix without `\r` cannot complete a CRLF with what follows it. */
  lemma NoCRLFConcat(x: string, y: string)
    requires '\r' !in x && !Contains(y, CRLF)
    ensures !Contains(x + y, CRLF)
  {
    var s := x + y;
    forall i: nat | i + 2 <= |s| ensures !OccursAt(s, i, CRLF) {
      if i < |x| {
        assert s[i..i + 2][0] == x[i];
      } else {
        assert s[i..i + 2] == y[i - |x|..i - |x| + 2];
        assert !OccursAt(y, i - |x|, CRLF);
      }
    }
  }

  lemma NatToStringNoCR(n: nat)
    ensures '\r' !in NatToString(n)
  {
  }

  lemma StatusLineClean(code: int)
    ensures '\r' !in StatusLine(code)
  {
    NatToStringNoCR(if code < 0 then -code else code);
  }

  /** Each head line is free of CRLF when the content type is. */
  lemma HeadLinesClean(code: int, body: string, contentType: string)
    requires !Contains(contentType, CRLF)
    ensures forall k :: 0 <= k < 3 ==> !Contains(HeadLines(code, body, contentType)[k], CRLF)
  {
    StatusLineClean(code);
    LacksFirstChar(StatusLine(code), CRLF);
    NatToStringNoCR(|body|);
    LacksFirstChar(ContentLengthLine(body), CRLF);
    NoCRLFConcat("Content-Type: ", contentType);
  }

  /** In three CRLF-separated lines and a blank line, the first CRLF CRLF is the blank line. */
  lemma HeadEndOfThreeLines(a: string, b: string, c: string, body: string)
    requires !Contains(a, CRLF) && !Contains(b, CRLF) && !Contains(c, CRLF)
    requires |b| > 0 && b[0] != '\r' && |c| > 0 && c[0] != '\r'
    ensures IndexOf(a + CRLF + (b + CRLF + (c + HeadEnd + body)), HeadEnd) == Some(|a| + 2 + |b| + 2 + |c|)
  {
    var z := c + HeadEnd + body;
    var y := b + CRLF + z;
    LastLine(c, body);
    SkipLine(b, z);
    SkipLine(a, y);
  }

  /** Splitting three CRLF-separated lines, a blank line and a body once at the blank line. */
  lemma SplitThreeLines(a: string, b: string, c: string, body: string)
    requires !Contains(a, CRLF) && !Contains(b, CRLF) && !Contains(c, CRLF)
    requires |b| > 0 && b[0] != '\r' && |c| > 0 && c[0] != '\r'
    ensures SplitFirst(a + CRLF + b + CRLF + c + HeadEnd + body, HeadEnd) == Some((Join([a, b, c], CRLF), body))
  {
    var head := a + CRLF + b + CRLF + c;
    var s := a + CRLF + (b + CRLF + (c + HeadEnd + body));
    assert s == head + HeadEnd + body;
    HeadEndOfThreeLines(a, b, c, body);
    assert s[..|head|] == head;
    assert s[|head| + 4..] == body;
    assert Join([a, b, c], CRLF) == head by {
      assert [a, b, c][1..] == [b, c];
      assert [b, c][1..] == [c];
      assert Join([b, c], CRLF) == b + CRLF + c;
      assert a + CRLF + (b + CRLF + c) == head;
    }
  }

  /**
   * Round trip: splitting the wire text once at the first blank line gives the
   * head (the three head lines joined by CRLF) and the body unchanged, as long
   * as the content type does not itself contain CRLF.
   */
  lemma FormatSplitsAtBody(code: int, body: string, contentType: string)
    requires !Contains(contentType, CRLF)
    ensures SplitFirst(Format(code, body, contentType), HeadEnd)
      == Some((Join(HeadLines(code, body, contentType), CRLF), body))
  {
    var ls := HeadLines(code, body, contentType);
    HeadLinesClean(code, body, contentType);
    assert ls[1][0] == 'C' && ls[2][0] == 'C';
    assert Format(code, body, contentType) == ls[0] + CRLF + ls[1] + CRLF + ls[2] + HeadEnd + body;
    SplitThreeLines(ls[0], ls[1], ls[2], body);
    assert ls == [ls[0], ls[1], ls[2]];
  }

  /** Content-Length is the character count of the body alone, and the head splits back into its three lines. */
  lemma HeadSplitsIntoLines(code: int, body: string, contentType: string)
    requires !Contains(contentType, CRLF)
    ensures Split(Join(HeadLines(code, body, contentType), CRLF), CRLF) == HeadLines(code, body, contentType)
    ensures HeadLines(code, body, contentType)[1] == "Content-Length: " + IntToString(|body|)
  {
    var ls := HeadLines(code, body, contentType);
    HeadLinesClean(code, body, contentType);
    CRLFUnbordered();
    SplitOfJoin(ls, CRLF);
    assert ls[2] != "";
    assert ls[..3] == ls;
  }

  // ---------------------------------------------------------------------------
  // Writing to the channel

  /** The client's socket: what has been written to it, and whether it is still open. */
  class Channel {
    var written: seq<string>
    var open: bool

    constructor ()
      ensures written == [] && open
    {
      written := [];
      open := true;
    }
  }

  class HttpResponse {
    const channel: Channel

    constructor (channel: Channel)
      ensures this.channel == channel
    {
      this.channel := channel;
    }

    /**
     * `send(code, body, contentType)`: writes the wire text and closes the
     * channel. Nothing guards a second call: on the closed channel the write
     * fails (`ok` is false, Java's `ClosedChannelException`) and nothing is written.
     */
    method Send(code: int, body: string, contentType: string) returns (ok: bool)
      modifies channel
      ensures ok == old(channel.open)
      ensures ok ==> channel.written == old(channel.written) + [Format(code, body, contentType)]
      ensures !ok ==> channel.written == old(channel.written)
      ensures !channel.open
    {
      ok := channel.open;
      if ok {
        channel.written := channel.written + [Format(code, body, contentType)];
        channel.open := false;
      }
    }

    /** `send(code, body)`: the same as `send(code, body, "text/plain")`. */
    method SendPlain(code: int, body: string) returns (ok: bool)
      modifies channel
      ensures ok == old(channel.open)
      ensures ok ==> channel.written == old(channel.written) + [Format(code, body, "text/plain")]
      ensures !ok ==> channel.written == old(channel.written)
      ensures !channel.open
    {
      ok := Send(code, body, "text/plain");
    }
  }
}
