/**
 * `org.example.HttpRequest`: an immutable request value and its query-string
 * parser (`getQueryParams` / `parseParams`).
 */
module Requests {
  import opened Wrappers
  import opened JavaStrings
  import opened KeyValues

  /**
   * The request as its constructor stores it; the getters are the field
   * selectors. (The client channel the constructor also takes is not part of
   * this value.)
   */
  datatype Request = Request(httpMethod: string, path: string, headers: map<string, string>, body: string)

  /**
   * The argument `getQueryParams` passes to `parseParams`:
   * `path.split("\\?")[1]` when the path contains `?`, `""` otherwise, and
   * `None` when index 1 does not exist (Java throws).
   */
  function QueryString(path: string): (r: Option<string>)
    ensures '?' !in path ==> r == Some("")
    ensures r.Some? ==> '?' !in r.value
  {
    ContainsChar(path, '?');
    if !Contains(path, "?") then Some("")
    else
      var ps := Split(path, "?");
      SplitFree(path, "?");
      if |ps| >= 2 then
        ContainsChar(ps[1], '?');
        Some(ps[1])
      else None
  }

  /** What `parseParams(q)` returns: the pairs of `q.split("&")` that split on `=` into exactly two pieces. */
  function ParamsOf(q: string): map<string, string> {
    if q == "" then map[] else Collect(Split(q, "&"), "=")
  }

  /** `parseParams`: one `put` per well-formed pair, in order. */
  method ParseParams(paramString: string) returns (params: map<string, string>)
    ensures params == ParamsOf(paramString)
  {
    params := map[];
    if paramString != "" {
      var pairs := Split(paramString, "&");
      var i := 0;
      while i < |pairs|
        invariant 0 <= i <= |pairs|
        invariant params == Collect(pairs[..i], "=")
      {
        assert pairs[..i + 1][..i] == pairs[..i];
        var keyValue := KeyValue(pairs[i], "=");
        if keyValue.Some? {
          params := params[keyValue.value.0 := keyValue.value.1];
        }
        i := i + 1;
      }
      assert pairs[..|pairs|] == pairs;
    }
  }

  /** `getQueryParams`; `None` when the path ends in a `?` with no piece after it and Java throws. */
  method GetQueryParams(request: Request) returns (r: Option<map<string, string>>)
    ensures QueryString(request.path).None? ==> r.None?
    ensures QueryString(request.path).Some? ==> r == Some(ParamsOf(QueryString(request.path).value))
  {
    var q := QueryString(request.path);
    if q.None? {
      return None;
    }
    var params := ParseParams(q.value);
    return Some(params);
  }

  // ---------------------------------------------------------------------------
  // Properties

  /** A path without `?` has no parameters. */
  lemma NoMarkNoParams(path: string)
    requires '?' !in path
    ensures QueryString(path) == Some("") && ParamsOf("") == map[]
  {
  }

  /**
   * The query string is what lies between the first `?` and the next `?` (or
   * the end of the path). It may be empty, as in `x??y`, when a character
   * other than `?` comes later and keeps `split` from dropping it.
   */
  lemma QueryBetweenMarks(x: string, q: string, rest: string)
    requires '?' !in x && '?' !in q
    requires rest == "" || rest[0] == '?'
    requires q != "" || exists k :: 0 <= k < |rest| && rest[k] != '?'
    ensures QueryString(x + "?" + q + rest) == Some(q)
  {
    ContainsChar(x, '?');
    ContainsChar(q, '?');
    assert Unbordered("?");
    if q != "" {
      assert rest != "" ==> rest[..1] == "?";
      SplitFirstTwo(x, q, rest, "?");
      assert (x + "?" + q + rest)[|x|] == '?';
    } else {
      var k :| 0 <= k < |rest| && rest[k] != '?';
      assert rest == "?" + rest[1..] && rest[1..][k - 1] == rest[k];
      assert x + "?" + q + rest == x + "??" + rest[1..];
      EmptyQuery(x, rest[1..], k - 1);
    }
  }

  /** `x??y`: an empty query string, when `y` has a character other than `?`. */
  lemma EmptyQuery(x: string, y: string, k: nat)
    requires '?' !in x && k < |y| && y[k] != '?'
    ensures QueryString(x + "??" + y) == Some("")
  {
    var path := x + "??" + y;
    assert path == x + ['?', '?'] + y;
    SplitEmptySecond(x, y, '?', k);
    assert OccursAt(path, |x|, "?") by {
      assert path[|x|..|x| + 1] == "?";
    }
  }

  /** A path whose first `?` is followed only by `?`s (or by nothing) makes `getQueryParams` throw. */
  lemma TrailingMarksFail(x: string, m: string)
    requires '?' !in x && forall k :: 0 <= k < |m| ==> m[k] == '?'
    ensures QueryString(x + "?" + m) == None
  {
    var path := x + "?" + m;
    ContainsChar(x, '?');
    assert Unbordered("?");
    PiecesOfCons(x, "?", m);
    PiecesOfMarks(m, '?');
    var ps := Pieces(path, "?");
    assert ps == [x] + Pieces(m, "?");
    DropAllButFirst(ps);
    assert OccursAt(path, |x|, "?") by {
      assert path[|x|..|x| + 1] == "?";
    }
    assert path[|x|] == '?';
  }

  /** No returned key or value contains `&` or `=`, and no value is empty. */
  lemma ParamsClean(q: string)
    ensures forall k :: k in ParamsOf(q) ==> '&' !in k && '&' !in ParamsOf(q)[k]
    ensures forall k :: k in ParamsOf(q) ==> '=' !in k && '=' !in ParamsOf(q)[k] && ParamsOf(q)[k] != ""
  {
    if q != "" {
      var pairs := Split(q, "&");
      SplitFree(q, "&");
      forall i | 0 <= i < |pairs| ensures '&' !in pairs[i] {
        ContainsChar(pairs[i], '&');
      }
      CollectChars(pairs, "=", '&');
      CollectClean(pairs, "=");
      forall k | k in ParamsOf(q) ensures '=' !in k && '=' !in ParamsOf(q)[k] {
        ContainsChar(k, '=');
        ContainsChar(ParamsOf(q)[k], '=');
      }
    }
  }

  /** A key is present iff some pair splits on `=` into exactly two pieces with that key. */
  lemma ParamKeys(q: string, k: string)
    requires q != ""
    ensures k in ParamsOf(q) <==> exists i :: 0 <= i < |Split(q, "&")| && HasKey(Split(q, "&")[i], "=", k)
  {
    CollectKeys(Split(q, "&"), "=", k);
  }

  /** On a repeated key the last well-formed pair wins. */
  lemma ParamsLastWins(q: string, i: nat, k: string, v: string)
    requires q != "" && i < |Split(q, "&")| && Gives(Split(q, "&")[i], "=", k, v)
    requires forall j :: i < j < |Split(q, "&")| ==> !HasKey(Split(q, "&")[j], "=", k)
    ensures k in ParamsOf(q) && ParamsOf(q)[k] == v
  {
    CollectLastWins(Split(q, "&"), "=", i, k, v);
  }

  /** A pair with nothing after its `=`, such as `a=`, is dropped. */
  lemma EmptyValueDropped()
    ensures KeyValue("a=", "=") == None
  {
    assert Unbordered("=");
    assert !Contains("a", "=") && !Contains("", "=") by {
      LacksFirstChar("a", "=");
    }
    SplitOfJoin(["a", ""], "=");
    assert Join(["a", ""], "=") == "a=" by {
      assert ["a", ""][1..] == [""];
    }
    assert DropTrailingEmpty(["a", ""]) == ["a"] by {
      assert ["a", ""][..1] == ["a"];
    }
  }

  /** A pair with a second `=`, such as `a=b=c`, is dropped. */
  lemma ExtraSeparatorDropped()
    ensures KeyValue("a=b=c", "=") == None
  {
    assert Unbordered("=");
    assert !Contains("a", "=") && !Contains("b", "=") && !Contains("c", "=") by {
      LacksFirstChar("a", "=");
      LacksFirstChar("b", "=");
      LacksFirstChar("c", "=");
    }
    SplitOfJoin(["a", "b", "c"], "=");
    assert Join(["a", "b", "c"], "=") == "a=b=c" by {
      assert ["a", "b", "c"][1..] == ["b", "c"];
      assert ["b", "c"][1..] == ["c"];
    }
  }

  /** A pair with nothing before its `=`, such as `=b`, is kept under the empty key. */
  lemma EmptyKeyKept()
    ensures KeyValue("=b", "=") == Some(("", "b"))
  {
    assert !Contains("b", "=") by {
      LacksFirstChar("b", "=");
    }
    KeyValueOfShape("", "b", "=", 0);
    assert "" + "=" + "b" + Repeat("=", 0) == "=b";
  }
}
