/**
 * The parts of `java.lang.String` and `java.io.BufferedReader` that the server's
 * parsing code relies on, stated over `seq<char>`: searching, `split` with its
 * dropping of trailing empty pieces, `startsWith`/`endsWith`, `trim`,
 * `Integer.toString`, `equalsIgnoreCase` and `readLine`.
 */
module JavaStrings {
  import opened Wrappers

  const CRLF: string := "\r\n"

  /** `sep` occurs in `s` starting at index `j`. */
  predicate OccursAt(s: string, j: nat, sep: string) {
    j + |sep| <= |s| && s[j..j + |sep|] == sep
  }

  /** `String.contains`. */
  predicate Contains(s: string, sep: string) {
    exists j: nat :: j <= |s| && OccursAt(s, j, sep)
  }

  /** `String.startsWith`. */
  predicate StartsWith(s: string, prefix: string) {
    |prefix| <= |s| && s[..|prefix|] == prefix
  }

  /** `String.endsWith`. */
  predicate EndsWith(s: string, suffix: string) {
    |suffix| <= |s| && s[|s| - |suffix|..] == suffix
  }

  /** `String.indexOf(sep, from)`: the first occurrence at or after `from`; `None` stands for -1. */
  function IndexFrom(s: string, sep: string, from: nat): (r: Option<nat>)
    decreases |s| - from
    ensures r.Some? ==> from <= r.value && OccursAt(s, r.value, sep)
    ensures r.Some? ==> forall j: nat :: from <= j < r.value ==> !OccursAt(s, j, sep)
    ensures r.None? ==> forall j: nat :: from <= j ==> !OccursAt(s, j, sep)
  {
    if from + |sep| > |s| then None
    else if s[from..from + |sep|] == sep then Some(from)
    else IndexFrom(s, sep, from + 1)
  }

  /** `String.indexOf(sep)`. */
  function IndexOf(s: string, sep: string): Option<nat> {
    IndexFrom(s, sep, 0)
  }

  /**
   * The pieces of `s` between the leftmost non-overlapping occurrences of
   * `sep`, empty pieces included (what `Pattern.split` collects before it
   * trims).
   */
  function Pieces(s: string, sep: string): (r: seq<string>)
    requires |sep| > 0
    decreases |s|
    ensures |r| > 0
  {
    match IndexOf(s, sep)
    case None => [s]
    case Some(j) => [s[..j]] + Pieces(s[j + |sep|..], sep)
  }

  /** Removes the empty strings at the end of `ps`, as `split` with limit 0 does. */
  function DropTrailingEmpty(ps: seq<string>): (r: seq<string>)
    ensures |r| <= |ps| && r == ps[..|r|]
    ensures r == [] || r[|r| - 1] != ""
    ensures forall k :: |r| <= k < |ps| ==> ps[k] == ""
  {
    if |ps| > 0 && ps[|ps| - 1] == "" then DropTrailingEmpty(ps[..|ps| - 1]) else ps
  }

  /**
   * `s.split(sep)` for a literal separator: when `sep` does not occur the
   * result is `[s]` (so `""` splits into `[""]`); otherwise the pieces with the
   * trailing empty ones removed, which may leave no piece at all.
   */
  function Split(s: string, sep: string): seq<string>
    requires |sep| > 0
  {
    if IndexOf(s, sep).None? then [s] else DropTrailingEmpty(Pieces(s, sep))
  }

  /** `String.join(sep, ps)`. */
  function Join(ps: seq<string>, sep: string): string {
    if |ps| == 0 then "" else if |ps| == 1 then ps[0] else ps[0] + sep + Join(ps[1..], sep)
  }

  /** No proper suffix of `sep` is also a prefix of it, so two occurrences can never overlap. */
  predicate Unbordered(sep: string) {
    forall k :: 0 < k < |sep| ==> sep[k..] != sep[..|sep| - k]
  }

  lemma CRLFUnbordered()
    ensures Unbordered(CRLF)
  {
    assert CRLF[1..] == "\n" && CRLF[..1] == "\r";
  }

  lemma SliceOccurs(s: string, a: nat, b: nat, t: nat, sep: string)
    requires a <= b <= |s| && OccursAt(s[a..b], t, sep)
    ensures OccursAt(s, a + t, sep)
  {
    assert t + |sep| <= b - a;
    forall i | 0 <= i < |sep| ensures s[a + t..a + t + |sep|][i] == sep[i] {
      assert s[a..b][t..t + |sep|][i] == sep[i];
    }
  }

  /** No piece contains the separator. */
  lemma {:induction false} PiecesFree(s: string, sep: string)
    requires |sep| > 0
    ensures forall k :: 0 <= k < |Pieces(s, sep)| ==> !Contains(Pieces(s, sep)[k], sep)
    decreases |s|
  {
    match IndexOf(s, sep)
    case None =>
    case Some(j) =>
      forall t: nat | OccursAt(s[..j], t, sep) ensures false {
        assert s[..j] == s[0..j];
        SliceOccurs(s, 0, j, t, sep);
      }
      PiecesFree(s[j + |sep|..], sep);
  }

  /** Joining the pieces with the separator gives back the text they came from. */
  lemma {:induction false} PiecesJoin(s: string, sep: string)
    requires |sep| > 0
    ensures Join(Pieces(s, sep), sep) == s
    decreases |s|
  {
    match IndexOf(s, sep)
    case None =>
    case Some(j) =>
      var t := s[j + |sep|..];
      PiecesJoin(t, sep);
      assert Pieces(s, sep) == [s[..j]] + Pieces(t, sep);
      assert s == s[..j] + s[j..j + |sep|] + t;
  }

  /** Every piece `split` returns is free of the separator. */
  lemma SplitFree(s: string, sep: string)
    requires |sep| > 0
    ensures forall k :: 0 <= k < |Split(s, sep)| ==> !Contains(Split(s, sep)[k], sep)
  {
    if IndexOf(s, sep).Some? {
      PiecesFree(s, sep);
    } else {
      assert !Contains(s, sep);
    }
  }

  /** When `sep` occurs, `split` keeps a prefix of the pieces that joins, padded with empty pieces, back to `s`. */
  lemma SplitJoin(s: string, sep: string)
    requires |sep| > 0 && Contains(s, sep)
    ensures var ps := Pieces(s, sep);
      && Split(s, sep) == ps[..|Split(s, sep)|]
      && (forall k :: |Split(s, sep)| <= k < |ps| ==> ps[k] == "")
      && Join(ps, sep) == s
  {
    PiecesJoin(s, sep);
  }

  /** An index moved `d` places to the right; `None` stays `None`. */
  function ShiftIndex(r: Option<nat>, d: nat): (q: Option<nat>)
    ensures q.Some? <==> r.Some?
    ensures q.Some? ==> q.value == r.value + d
  {
    if r.None? then None else Some(r.value + d)
  }

  /** Occurrences in `x + y` from `|x| + k` on are the occurrences in `y` from `k` on. */
  lemma {:induction false} IndexFromShift(x: string, y: string, sep: string, k: nat)
    ensures IndexFrom(x + y, sep, |x| + k) == ShiftIndex(IndexFrom(y, sep, k), |x|)
    decreases |y| - k
  {
    if |x| + k + |sep| <= |x + y| {
      assert (x + y)[|x| + k..|x| + k + |sep|] == y[k..k + |sep|];
      IndexFromShift(x, y, sep, k + 1);
    }
  }

  /** A slice one element longer is the slice and that element. */
  lemma SliceSnoc<T>(s: seq<T>, i: nat, j: nat)
    requires i <= j < |s|
    ensures s[i..j + 1] == s[i..j] + [s[j]]
  {
  }

  /** A slice of `x + y` past `x` is a slice of `y`. */
  lemma SliceShift<T>(x: seq<T>, y: seq<T>, i: nat, j: nat)
    requires i <= j <= |y|
    ensures (x + y)[|x| + i..|x| + j] == y[i..j]
  {
  }

  /** An occurrence with none before it (from `from` on) is the one `indexOf` finds. */
  lemma IndexFromFirst(s: string, sep: string, from: nat, j: nat)
    requires from <= j && OccursAt(s, j, sep)
    requires forall i: nat :: from <= i < j ==> !OccursAt(s, i, sep)
    ensures IndexFrom(s, sep, from) == Some(j)
  {
  }

  /** With an unbordered separator, no occurrence can start inside a separator-free `l` in `l + sep + rest`. */
  lemma NoStraddle(l: string, sep: string, rest: string)
    requires !Contains(l, sep) && Unbordered(sep)
    ensures forall j: nat :: j < |l| ==> !OccursAt(l + sep + rest, j, sep)
  {
    var s := l + sep + rest;
    forall j: nat | j < |l| ensures !OccursAt(s, j, sep) {
      if j + |sep| <= |l| {
        assert s[j..j + |sep|] == l[j..j + |sep|];
        assert !OccursAt(l, j, sep);
      } else if j + |sep| <= |s| {
        var k := |l| - j;
        assert s[j..j + |sep|][k..] == s[|l|..|l| + |sep| - k];
        assert s[|l|..|l| + |sep| - k] == sep[..|sep| - k];
        assert sep[k..] != sep[..|sep| - k];
      }
    }
  }

  /** The first piece of `l + sep + rest` is a separator-free `l`; the rest are the pieces of `rest`. */
  lemma PiecesOfCons(l: string, sep: string, rest: string)
    requires |sep| > 0 && Unbordered(sep) && !Contains(l, sep)
    ensures Pieces(l + sep + rest, sep) == [l] + Pieces(rest, sep)
  {
    var s := l + sep + rest;
    assert IndexOf(s, sep) == Some(|l|) by {
      NoStraddle(l, sep, rest);
      assert s[|l|..|l| + |sep|] == sep;
      IndexFromFirst(s, sep, 0, |l|);
    }
    assert s[..|l|] == l;
    assert s[|l| + |sep|..] == rest;
  }

  /** Splitting a join of separator-free pieces gives the pieces back. */
  lemma {:induction false} PiecesOfJoin(ls: seq<string>, sep: string)
    requires |sep| > 0 && Unbordered(sep) && |ls| > 0
    requires forall k :: 0 <= k < |ls| ==> !Contains(ls[k], sep)
    ensures Pieces(Join(ls, sep), sep) == ls
  {
    if |ls| == 1 {
      assert Join(ls, sep) == ls[0];
    } else {
      assert Join(ls, sep) == ls[0] + sep + Join(ls[1..], sep);
      PiecesOfCons(ls[0], sep, Join(ls[1..], sep));
      PiecesOfJoin(ls[1..], sep);
      assert ls == [ls[0]] + ls[1..];
    }
  }

  lemma {:induction false} PiecesWithoutSep(q: string, sep: string)
    requires |sep| > 0 && !Contains(q, sep)
    ensures Pieces(q, sep) == [q]
  {
  }

  /** A piece that is not empty survives the dropping of trailing empty pieces. */
  lemma DropKeeps(ps: seq<string>, i: nat)
    requires i < |ps| && ps[i] != ""
    ensures i < |DropTrailingEmpty(ps)| && DropTrailingEmpty(ps)[i] == ps[i]
  {
  }

  /** Over a one-character separator, a text made only of that character has only empty pieces. */
  lemma {:induction false} PiecesOfMarks(m: string, c: char)
    requires forall k :: 0 <= k < |m| ==> m[k] == c
    ensures forall i :: 0 <= i < |Pieces(m, [c])| ==> Pieces(m, [c])[i] == ""
    decreases |m|
  {
    ContainsChar(m, c);
    if m != [] {
      assert OccursAt(m, 0, [c]) by {
        assert m[0..1] == [c];
      }
      assert Pieces(m, [c]) == [""] + Pieces(m[1..], [c]);
      PiecesOfMarks(m[1..], c);
    }
  }

  /** Over a one-character separator, a text with some other character has a non-empty piece. */
  lemma {:induction false} PiecesNonEmpty(y: string, c: char, k: nat)
    requires k < |y| && y[k] != c
    ensures exists i :: 0 <= i < |Pieces(y, [c])| && Pieces(y, [c])[i] != ""
    decreases |y|
  {
    var ps := Pieces(y, [c]);
    match IndexOf(y, [c])
    case None =>
      assert ps[0] == y;
    case Some(j) =>
      assert ps == [y[..j]] + Pieces(y[j + 1..], [c]);
      assert y[j..j + 1] == [c];
      if k < j {
        assert ps[0][k] == y[k];
      } else {
        assert y[j + 1..][k - j - 1] == y[k];
        PiecesNonEmpty(y[j + 1..], c, k - j - 1);
        var i :| 0 <= i < |Pieces(y[j + 1..], [c])| && Pieces(y[j + 1..], [c])[i] != "";
        assert ps[i + 1] != "";
      }
  }

  /** The pieces of `x + cc + y` over `c`: `x`, the empty piece between the two `c`s, then those of `y`. */
  lemma PiecesOfDoubleMark(x: string, y: string, c: char)
    requires c !in x
    ensures Pieces(x + [c, c] + y, [c]) == [x, ""] + Pieces(y, [c])
  {
    ContainsChar(x, c);
    assert Unbordered([c]);
    assert !Contains("", [c]);
    assert x + [c, c] + y == x + [c] + ("" + [c] + y);
    PiecesOfCons(x, [c], "" + [c] + y);
    PiecesOfCons("", [c], y);
  }

  /** `(x + cc + y).split(c)` keeps the empty piece between the two `c`s when `y` has another character. */
  lemma SplitEmptySecond(x: string, y: string, c: char, k: nat)
    requires c !in x && k < |y| && y[k] != c
    ensures var ps := Split(x + [c, c] + y, [c]); |ps| >= 2 && ps[1] == ""
  {
    var s := x + [c, c] + y;
    PiecesOfDoubleMark(x, y, c);
    PiecesNonEmpty(y, c, k);
    var ps := Pieces(s, [c]);
    var i :| 0 <= i < |Pieces(y, [c])| && Pieces(y, [c])[i] != "";
    assert ps[i + 2] != "";
    DropKeeps(ps, i + 2);
    assert OccursAt(s, |x|, [c]) by {
      assert s[|x|..|x| + 1] == [c];
    }
  }

  /** Dropping the trailing empty pieces keeps at most one piece when every piece after the first is empty. */
  lemma DropAllButFirst(ps: seq<string>)
    requires forall i :: 1 <= i < |ps| ==> ps[i] == ""
    ensures |DropTrailingEmpty(ps)| <= 1
  {
  }

  /**
   * The first two pieces of `x + sep + q + rest`, when `x` and `q` are free of
   * the separator, `q` is not empty and `rest` is empty or starts with `sep`.
   */
  lemma SplitFirstTwo(x: string, q: string, rest: string, sep: string)
    requires |sep| > 0 && Unbordered(sep) && !Contains(x, sep) && !Contains(q, sep) && q != ""
    requires rest == "" || StartsWith(rest, sep)
    ensures var ps := Split(x + sep + q + rest, sep); |ps| >= 2 && ps[0] == x && ps[1] == q
  {
    var s := x + sep + q + rest;
    PiecesOfCons(x, sep, q + rest);
    assert s == x + sep + (q + rest);
    if rest == "" {
      assert q + rest == q;
      PiecesWithoutSep(q, sep);
    } else {
      assert q + rest == q + sep + rest[|sep|..];
      PiecesOfCons(q, sep, rest[|sep|..]);
    }
    var ps := Pieces(s, sep);
    assert ps[0] == x && ps[1] == q;
    assert OccursAt(s, |x|, sep) by {
      assert s[|x|..|x| + |sep|] == sep;
    }
    assert IndexOf(s, sep).Some?;
    DropKeeps(ps, 1);
    assert x != "" ==> DropTrailingEmpty(ps)[0] == x;
  }

  /** Round trip: `split` undoes `String.join` up to the trailing empty pieces it always drops. */
  lemma SplitOfJoin(ls: seq<string>, sep: string)
    requires |sep| > 0 && Unbordered(sep) && |ls| > 0
    requires forall k :: 0 <= k < |ls| ==> !Contains(ls[k], sep)
    ensures Split(Join(ls, sep), sep) == if |ls| == 1 then ls else DropTrailingEmpty(ls)
  {
    PiecesOfJoin(ls, sep);
    if |ls| == 1 {
      assert Join(ls, sep) == ls[0];
      assert IndexOf(ls[0], sep).None?;
    } else {
      var rest := Join(ls[1..], sep);
      assert Join(ls, sep) == ls[0] + sep + rest;
      assert OccursAt(Join(ls, sep), |ls[0]|, sep) by {
        assert Join(ls, sep)[|ls[0]|..|ls[0]| + |sep|] == sep;
      }
    }
  }

  /** A one-character separator occurs exactly where that character does. */
  lemma ContainsChar(s: string, c: char)
    ensures Contains(s, [c]) <==> c in s
  {
    if c in s {
      var j :| 0 <= j < |s| && s[j] == c;
      assert s[j..j + 1] == [c];
      assert OccursAt(s, j, [c]);
    }
    if Contains(s, [c]) {
      var j: nat :| j <= |s| && OccursAt(s, j, [c]);
      assert s[j..j + 1][0] == s[j];
    }
  }

  /** A text without the first character of `sep` does not contain `sep`. */
  lemma LacksFirstChar(s: string, sep: string)
    requires |sep| > 0 && sep[0] !in s
    ensures !Contains(s, sep)
  {
    forall j: nat | j + |sep| <= |s| ensures !OccursAt(s, j, sep) {
      assert s[j..j + |sep|][0] == s[j];
      assert s[j] in s;
    }
  }

  /** Every character of a piece is a character of the text it was cut from. */
  lemma {:induction false} PiecesChars(s: string, sep: string, c: char)
    requires |sep| > 0
    ensures forall k :: 0 <= k < |Pieces(s, sep)| && c in Pieces(s, sep)[k] ==> c in s
    decreases |s|
  {
    match IndexOf(s, sep)
    case None =>
    case Some(j) =>
      PiecesChars(s[j + |sep|..], sep, c);
      assert forall d :: d in s[j + |sep|..] ==> d in s;
      assert forall d :: d in s[..j] ==> d in s;
  }

  lemma SplitChars(s: string, sep: string, c: char)
    requires |sep| > 0
    ensures forall k :: 0 <= k < |Split(s, sep)| && c in Split(s, sep)[k] ==> c in s
  {
    PiecesChars(s, sep, c);
  }

  // ---------------------------------------------------------------------------
  // trim

  /** Java's `trim` removes every character up to and including U+0020. */
  predicate IsTrimmed(c: char) {
    c <= ' '
  }

  function TrimStart(s: string): (r: string)
    ensures |r| <= |s| && r == s[|s| - |r|..]
    ensures forall k :: 0 <= k < |s| - |r| ==> IsTrimmed(s[k])
    ensures r == [] || !IsTrimmed(r[0])
  {
    if |s| > 0 && IsTrimmed(s[0]) then TrimStart(s[1..]) else s
  }

  function TrimEnd(s: string): (r: string)
    ensures |r| <= |s| && r == s[..|r|]
    ensures forall k :: |r| <= k < |s| ==> IsTrimmed(s[k])
    ensures r == [] || !IsTrimmed(r[|r| - 1])
  {
    if |s| > 0 && IsTrimmed(s[|s| - 1]) then TrimEnd(s[..|s| - 1]) else s
  }

  /** `String.trim`: the longest slice of `s` that neither starts nor ends with a character <= U+0020. */
  function Trim(s: string): (r: string)
    ensures r == [] || (!IsTrimmed(r[0]) && !IsTrimmed(r[|r| - 1]))
    ensures |r| <= |s|
    ensures exists i, j :: 0 <= i <= j <= |s| && r == s[i..j] && TrimmedOutside(s, i, j)
  {
    var t := TrimStart(s);
    TrimSlice(s, t, TrimEnd(t));
    TrimEnd(t)
  }

  /** Everything of `s` before `i` and from `j` on is a character `trim` removes. */
  predicate TrimmedOutside(s: string, i: nat, j: nat)
    requires i <= j <= |s|
  {
    (forall k :: 0 <= k < i ==> IsTrimmed(s[k])) && (forall k :: j <= k < |s| ==> IsTrimmed(s[k]))
  }

  /**
   * A tail `t` of `s` after removed characters, cut before removed characters
   * to `r`, is the slice of `s` between them.
   */
  lemma TrimSlice(s: string, t: string, r: string)
    requires |t| <= |s| && t == s[|s| - |t|..] && forall k :: 0 <= k < |s| - |t| ==> IsTrimmed(s[k])
    requires |r| <= |t| && r == t[..|r|] && forall k :: |r| <= k < |t| ==> IsTrimmed(t[k])
    ensures var i := |s| - |t|; r == s[i..i + |r|] && TrimmedOutside(s, i, i + |r|)
  {
    var i := |s| - |t|;
    forall k | i + |r| <= k < |s| ensures IsTrimmed(s[k]) {
      assert s[k] == t[k - i];
    }
  }

  /** `trim` leaves a text that already starts and ends with visible characters unchanged. */
  lemma TrimNoop(s: string)
    requires s == [] || (!IsTrimmed(s[0]) && !IsTrimmed(s[|s| - 1]))
    ensures Trim(s) == s
  {
  }

  // ---------------------------------------------------------------------------
  // Integer.toString

  function DigitChar(d: nat): (c: char)
    requires d < 10
    ensures '0' <= c <= '9'
  {
    ('0' as int + d) as char
  }

  /** Decimal digits of `n`, most significant first, without leading zeros. */
  function NatToString(n: nat): (r: string)
    ensures |r| > 0 && forall k :: 0 <= k < |r| ==> '0' <= r[k] <= '9'
    ensures r[0] == '0' ==> n == 0
  {
    if n < 10 then [DigitChar(n)] else NatToString(n / 10) + [DigitChar(n % 10)]
  }

  /** `Integer.toString(i)` (the width of Java's `int` is irrelevant here: nothing is computed on it). */
  function IntToString(i: int): (r: string)
    ensures |r| > 0 && forall k :: 0 <= k < |r| ==> r[k] == '-' || '0' <= r[k] <= '9'
    ensures (i < 0) <==> r[0] == '-'
  {
    if i < 0 then "-" + NatToString(-i) else NatToString(i)
  }

  // ---------------------------------------------------------------------------
  // equalsIgnoreCase

  /**
   * `Character.toUpperCase` on ASCII letters, the dotless i (U+0131) and the
   * long s (U+017F), the characters whose upper case is an ASCII letter;
   * other characters are left as they are.
   */
  function UpperCase(c: char): char {
    if 'a' <= c <= 'z' then (c as int - 32) as char
    else if c == '\U{0131}' then 'I'
    else if c == '\U{017F}' then 'S'
    else c
  }

  /**
   * `Character.toLowerCase` on ASCII letters, the dotted capital I (U+0130) and
   * the Kelvin sign (U+212A), the characters whose lower case is an ASCII letter.
   */
  function LowerCase(c: char): char {
    if 'A' <= c <= 'Z' then (c as int + 32) as char
    else if c == '\U{0130}' then 'i'
    else if c == '\U{212A}' then 'k'
    else c
  }

  /** The per-character test of `String.equalsIgnoreCase`. */
  predicate CharEqualsIgnoreCase(a: char, b: char) {
    a == b || UpperCase(a) == UpperCase(b) || LowerCase(UpperCase(a)) == LowerCase(UpperCase(b))
  }

  /** `String.equalsIgnoreCase`: same length and pairwise equal characters up to case. */
  predicate EqualsIgnoreCase(s: string, t: string) {
    |s| == |t| && forall k :: 0 <= k < |s| ==> CharEqualsIgnoreCase(s[k], t[k])
  }

  /** A small ASCII letter, a digit or `-` (the characters of "100-continue" are such). */
  predicate IsSmallAscii(t: char) {
    'a' <= t <= 'z' || '0' <= t <= '9' || t == '-'
  }

  /**
   * The non-ASCII characters `equalsIgnoreCase` matches with a small ASCII
   * letter: the dotted capital I and the dotless i with `i`, the Kelvin sign
   * with `k`, the long s with `s`.
   */
  predicate UnicodeFold(a: char, t: char) {
    (t == 'i' && (a == '\U{0130}' || a == '\U{0131}')) || (t == 'k' && a == '\U{212A}') || (t == 's' && a == '\U{017F}')
  }

  /**
   * Against such a character `equalsIgnoreCase` accepts the character itself,
   * its capital, and the characters of `UnicodeFold`.
   */
  lemma IgnoreCaseAgainstSmall(a: char, t: char)
    requires IsSmallAscii(t)
    ensures CharEqualsIgnoreCase(a, t) <==> a == t || a == UpperCase(t) || UnicodeFold(a, t)
  {
  }

  /** The Kelvin sign matches `k` and the long s matches `s`, as in Java. */
  lemma KelvinAndLongS()
    ensures CharEqualsIgnoreCase('\U{212A}', 'k') && CharEqualsIgnoreCase('\U{212A}', 'K')
    ensures CharEqualsIgnoreCase('\U{017F}', 's') && CharEqualsIgnoreCase('\U{017F}', 'S')
  {
  }

  /** `s.equalsIgnoreCase(t)` for a `t` made of such characters, position by position. */
  lemma EqualsIgnoreCaseSmall(s: string, t: string)
    requires forall k :: 0 <= k < |t| ==> IsSmallAscii(t[k])
    ensures EqualsIgnoreCase(s, t) <==> |s| == |t| && forall k :: 0 <= k < |t| ==>
      s[k] == t[k] || s[k] == UpperCase(t[k]) || UnicodeFold(s[k], t[k])
  {
    forall k | 0 <= k < |t| && k < |s| {
      IgnoreCaseAgainstSmall(s[k], t[k]);
    }
  }

  // ---------------------------------------------------------------------------
  // BufferedReader.readLine

  predicate IsLineTerminator(c: char) {
    c == '\n' || c == '\r'
  }

  /** Index of the first line terminator at or after `from`, or `|s|`. */
  function LineEnd(s: string, from: nat): (r: nat)
    requires from <= |s|
    decreases |s| - from
    ensures from <= r <= |s|
    ensures forall k :: from <= k < r ==> !IsLineTerminator(s[k])
    ensures r < |s| ==> IsLineTerminator(s[r])
  {
    if from == |s| || IsLineTerminator(s[from]) then from else LineEnd(s, from + 1)
  }

  /**
   * The successive results of `readLine` on a reader over `s` until it returns
   * `null`: a line ends at `\n`, at `\r` or at `\r\n`, and a last line without
   * terminator is returned when it is not empty.
   */
  function ReadLines(s: string): (lines: seq<string>)
    decreases |s|
  {
    if s == [] then []
    else
      var e := LineEnd(s, 0);
      if e == |s| then [s]
      else
        var next := if s[e] == '\r' && e + 1 < |s| && s[e + 1] == '\n' then e + 2 else e + 1;
        [s[..e]] + ReadLines(s[next..])
  }

  /** No line `readLine` returns contains a line terminator. */
  lemma {:induction false} ReadLinesClean(s: string)
    ensures forall k, c :: 0 <= k < |ReadLines(s)| && c in ReadLines(s)[k] ==> !IsLineTerminator(c)
    decreases |s|
  {
    if s != [] {
      var e := LineEnd(s, 0);
      if e < |s| {
        var next := if s[e] == '\r' && e + 1 < |s| && s[e + 1] == '\n' then e + 2 else e + 1;
        ReadLinesClean(s[next..]);
      }
    }
  }

  /** `lines` with each one followed by `term`. */
  function Terminated(lines: seq<string>, term: string): string {
    if lines == [] then "" else lines[0] + term + Terminated(lines[1..], term)
  }

  /** Writing one more line appends it and its terminator. */
  lemma {:induction false} TerminatedSnoc(lines: seq<string>, l: string, term: string)
    ensures Terminated(lines + [l], term) == Terminated(lines, term) + l + term
  {
    if lines != [] {
      assert (lines + [l])[1..] == lines[1..] + [l];
      TerminatedSnoc(lines[1..], l, term);
    } else {
      assert [l][1..] == [];
    }
  }

  predicate LineFree(l: string) {
    forall c :: c in l ==> !IsLineTerminator(c)
  }

  /** Round trip: reading back lines that were each written with a terminator gives the lines. */
  lemma {:induction false} ReadLinesOfTerminated(lines: seq<string>, term: string)
    requires term == "\n" || term == "\r" || term == CRLF
    requires forall k :: 0 <= k < |lines| ==> LineFree(lines[k])
    ensures ReadLines(Terminated(lines, term)) == lines
  {
    if lines != [] {
      var l := lines[0];
      var rest := Terminated(lines[1..], term);
      var s := Terminated(lines, term);
      assert s == l + term + rest;
      assert forall k :: 0 <= k < |l| ==> s[k] == l[k];
      assert s[|l|] == term[0];
      LineEndAt(s, l);
      var next := if s[|l|] == '\r' && |l| + 1 < |s| && s[|l| + 1] == '\n' then |l| + 2 else |l| + 1;
      assert next == |l| + |term| by {
        if term == "\r" && |l| + 1 < |s| {
          assert s[|l| + 1] == rest[0];
          if lines[1..][0] == "" {
            assert rest[0] == '\r';
          } else {
            assert rest[0] == lines[1..][0][0];
            assert lines[1..][0][0] in lines[1];
          }
        }
      }
      assert s[..|l|] == l;
      assert s[next..] == rest;
      ReadLinesOfTerminated(lines[1..], term);
      assert lines == [l] + lines[1..];
    }
  }

  lemma LineEndAt(s: string, l: string)
    requires |l| < |s| && s[..|l|] == l && LineFree(l) && IsLineTerminator(s[|l|])
    ensures LineEnd(s, 0) == |l|
  {
    forall k | 0 <= k < |l| ensures !IsLineTerminator(s[k]) {
      assert s[k] == l[k];
      assert l[k] in l;
    }
  }
}
