/**
 * The `line.split(sep)` / `length == 2` / `put` idiom that the request parser,
 * the query-string parser and the multipart parser all use to collect
 * `key<sep>value` lines into a map.
 */
module KeyValues {
  import opened Wrappers
  import opened JavaStrings

  /** `sep` written `n` times. */
  function Repeat(sep: string, n: nat): (r: string)
    ensures |r| == n * |sep|
  {
    if n == 0 then "" else Repeat(sep, n - 1) + sep
  }

  /** `n` empty strings. */
  function Empties(n: nat): (r: seq<string>)
    ensures |r| == n && forall k :: 0 <= k < n ==> r[k] == ""
  {
    if n == 0 then [] else Empties(n - 1) + [""]
  }

  /**
   * The pair a line contributes: `line.split(sep)` when that has exactly two
   * pieces, nothing otherwise.
   */
  function KeyValue(line: string, sep: string): (r: Option<(string, string)>)
    requires |sep| > 0
    ensures r.Some? ==> !Contains(r.value.0, sep) && !Contains(r.value.1, sep) && r.value.1 != ""
  {
    var ps := Split(line, sep);
    SplitFree(line, sep);
    if |ps| == 2 then
      assert IndexOf(line, sep).Some?;
      Some((ps[0], ps[1]))
    else None
  }

  lemma {:induction false} JoinSnocEmpty(ls: seq<string>, sep: string)
    requires |ls| > 0
    ensures Join(ls + [""], sep) == Join(ls, sep) + sep
    decreases |ls|
  {
    if |ls| == 1 {
      assert ls + [""] == [ls[0], ""];
      assert [ls[0], ""][1..] == [""];
    } else {
      assert (ls + [""])[1..] == ls[1..] + [""];
      JoinSnocEmpty(ls[1..], sep);
    }
  }

  lemma {:induction false} JoinPadded(k: string, v: string, sep: string, n: nat)
    ensures Join([k, v] + Empties(n), sep) == k + sep + v + Repeat(sep, n)
  {
    if n == 0 {
      assert [k, v] + Empties(0) == [k, v];
      assert [k, v][1..] == [v];
    } else {
      JoinPadded(k, v, sep, n - 1);
      assert [k, v] + Empties(n) == ([k, v] + Empties(n - 1)) + [""];
      JoinSnocEmpty([k, v] + Empties(n - 1), sep);
    }
  }

  lemma {:induction false} DropPadded(k: string, v: string, n: nat)
    requires v != ""
    ensures DropTrailingEmpty([k, v] + Empties(n)) == [k, v]
  {
    if n == 0 {
      assert [k, v] + Empties(0) == [k, v];
    } else {
      var ps := [k, v] + Empties(n);
      assert ps[..|ps| - 1] == [k, v] + Empties(n - 1);
      DropPadded(k, v, n - 1);
    }
  }

  lemma PaddedPieces(ps: seq<string>, r: seq<string>)
    requires |r| == 2 && |ps| >= 2 && r == ps[..2]
    requires forall k :: 2 <= k < |ps| ==> ps[k] == ""
    ensures ps == [r[0], r[1]] + Empties(|ps| - 2)
  {
  }

  /**
   * A kept line is the key, one separator and the value, followed only by
   * separators (which `split` drops as trailing empty pieces).
   */
  lemma KeyValueShape(line: string, sep: string)
    requires |sep| > 0 && KeyValue(line, sep).Some?
    ensures exists n: nat :: line == KeyValue(line, sep).value.0 + sep + KeyValue(line, sep).value.1 + Repeat(sep, n)
  {
    var ps := Pieces(line, sep);
    var r := Split(line, sep);
    assert |r| == 2;
    assert IndexOf(line, sep).Some?;
    assert Contains(line, sep) by {
      assert OccursAt(line, IndexOf(line, sep).value, sep);
    }
    SplitJoin(line, sep);
    var n := |ps| - 2;
    PaddedPieces(ps, r);
    JoinPadded(r[0], r[1], sep, n);
    assert line == r[0] + sep + r[1] + Repeat(sep, n);
  }

  /** Round trip: a separator-free key and non-empty value written with `sep` (and trailing separators) are read back. */
  lemma KeyValueOfShape(k: string, v: string, sep: string, n: nat)
    requires |sep| > 0 && Unbordered(sep)
    requires !Contains(k, sep) && !Contains(v, sep) && v != ""
    ensures KeyValue(k + sep + v + Repeat(sep, n), sep) == Some((k, v))
  {
    var ls := [k, v] + Empties(n);
    forall i | 0 <= i < |ls| ensures !Contains(ls[i], sep) {
      if i >= 2 {
        assert ls[i] == "";
      }
    }
    JoinPadded(k, v, sep, n);
    SplitOfJoin(ls, sep);
    DropPadded(k, v, n);
  }

  /**
   * The map a loop of `put`s builds from `lines`: each kept pair overwrites
   * what earlier lines put under the same key.
   */
  function Collect(lines: seq<string>, sep: string): map<string, string>
    requires |sep| > 0
  {
    if lines == [] then map[]
    else
      var m := Collect(lines[..|lines| - 1], sep);
      match KeyValue(lines[|lines| - 1], sep)
      case None => m
      case Some(kv) => m[kv.0 := kv.1]
  }

  /** One more line: its pair, when it has one, is put over what the earlier lines collected. */
  lemma CollectSnoc(init: seq<string>, line: string, sep: string)
    requires |sep| > 0
    ensures KeyValue(line, sep).None? ==> Collect(init + [line], sep) == Collect(init, sep)
    ensures KeyValue(line, sep).Some? ==>
      Collect(init + [line], sep) == Collect(init, sep)[KeyValue(line, sep).value.0 := KeyValue(line, sep).value.1]
  {
    assert (init + [line])[..|init|] == init;
  }

  /** `line` contributes the pair `(k, v)`. */
  predicate Gives(line: string, sep: string, k: string, v: string)
    requires |sep| > 0
  {
    KeyValue(line, sep) == Some((k, v))
  }

  /** `line` contributes a pair under key `k`. */
  predicate HasKey(line: string, sep: string, k: string)
    requires |sep| > 0
  {
    KeyValue(line, sep).Some? && KeyValue(line, sep).value.0 == k
  }

  /** A key is in the map iff some line contributes a pair under it. */
  lemma {:induction false} CollectKeys(lines: seq<string>, sep: string, k: string)
    requires |sep| > 0
    ensures k in Collect(lines, sep) <==> exists i :: 0 <= i < |lines| && HasKey(lines[i], sep, k)
  {
    if lines != [] {
      var init, last := lines[..|lines| - 1], lines[|lines| - 1];
      assert lines == init + [last];
      CollectKeys(init, sep, k);
      assert k in Collect(lines, sep) <==> k in Collect(init, sep) || HasKey(last, sep, k) by {
        CollectSnoc(init, last, sep);
      }
      assert (exists i :: 0 <= i < |lines| && HasKey(lines[i], sep, k)) <==>
        (exists i :: 0 <= i < |init| && HasKey(init[i], sep, k)) || HasKey(last, sep, k) by {
        if exists i :: 0 <= i < |init| && HasKey(init[i], sep, k) {
          var i :| 0 <= i < |init| && HasKey(init[i], sep, k);
          assert lines[i] == init[i];
        }
        if exists i :: 0 <= i < |lines| && HasKey(lines[i], sep, k) {
          var i :| 0 <= i < |lines| && HasKey(lines[i], sep, k);
          if i < |init| {
            assert init[i] == lines[i];
          }
        }
      }
    }
  }

  /** Last one wins: the value under a key is the one of the last line that contributes that key. */
  lemma {:induction false} CollectLastWins(lines: seq<string>, sep: string, i: nat, k: string, v: string)
    requires |sep| > 0 && i < |lines| && Gives(lines[i], sep, k, v)
    requires forall j :: i < j < |lines| ==> !HasKey(lines[j], sep, k)
    ensures k in Collect(lines, sep) && Collect(lines, sep)[k] == v
  {
    var init, last := lines[..|lines| - 1], lines[|lines| - 1];
    assert lines == init + [last];
    CollectSnoc(init, last, sep);
    if i < |lines| - 1 {
      assert init[i] == lines[i];
      forall j | i < j < |init| ensures !HasKey(init[j], sep, k) {
        assert init[j] == lines[j];
      }
      CollectLastWins(init, sep, i, k, v);
      assert !HasKey(last, sep, k);
    }
  }

  /** Every key and value in the map is free of the separator and every value is non-empty. */
  lemma {:induction false} CollectClean(lines: seq<string>, sep: string)
    requires |sep| > 0
    ensures forall k :: k in Collect(lines, sep) ==> !Contains(k, sep) && !Contains(Collect(lines, sep)[k], sep)
    ensures forall k :: k in Collect(lines, sep) ==> Collect(lines, sep)[k] != ""
  {
    if lines != [] {
      CollectClean(lines[..|lines| - 1], sep);
    }
  }

  /** Every key and value in the map is made of characters of the lines. */
  lemma {:induction false} CollectChars(lines: seq<string>, sep: string, c: char)
    requires |sep| > 0
    requires forall i :: 0 <= i < |lines| ==> c !in lines[i]
    ensures forall k :: k in Collect(lines, sep) ==> c !in k && c !in Collect(lines, sep)[k]
  {
    if lines != [] {
      var init := lines[..|lines| - 1];
      forall i | 0 <= i < |init| ensures c !in init[i] {
        assert init[i] == lines[i];
      }
      CollectChars(init, sep, c);
      var last := lines[|lines| - 1];
      SplitChars(last, sep, c);
    }
  }

  /** Index of the first empty line at or after `i`, or `|lines|`: where a header loop stops. */
  function HeaderEnd(lines: seq<string>, i: nat): (e: nat)
    requires i <= |lines|
    decreases |lines| - i
    ensures i <= e <= |lines|
    ensures forall j :: i <= j < e ==> lines[j] != ""
    ensures e < |lines| ==> lines[e] == ""
  {
    if i == |lines| || lines[i] == "" then i else HeaderEnd(lines, i + 1)
  }

  /** The empty line `e` (or the end) with no empty line between `i` and it is where a header loop stops. */
  lemma HeaderEndIs(lines: seq<string>, i: nat, e: nat)
    requires i <= e <= |lines|
    requires forall j :: i <= j < e ==> lines[j] != ""
    requires e < |lines| ==> lines[e] == ""
    ensures HeaderEnd(lines, i) == e
  {
  }
}
