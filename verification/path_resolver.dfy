/** `get_value_from_path`: tries candidate key paths in order and returns the
    first truthy outcome, or `None`.

    The model follows the code as written: every step of a path is looked up
    in the top-level mapping, not in the value the previous step produced,
    so the outcome of a path is the top-level lookup of its last key. */
module PathResolver {
  import opened Values
  import opened CaseFold
  import opened CaseInsensitiveLookup

  /** The inner loop over the steps of one path: `temp` is overwritten by a
      top-level lookup of each step in turn, with `{}` as the default. */
  function Walk(d: Mapping, path: seq<string>, temp: Value): (r: Value)
    ensures |path| == 0 ==> r == temp
    ensures |path| > 0 ==> r == DictGetCaseInsensitive(d, path[|path| - 1], EmptyDict)
    decreases |path|
  {
    if |path| == 0 then temp
    else
      var rest := path[1..];
      assert |rest| > 0 ==> rest[|rest| - 1] == path[|path| - 1];
      Walk(d, rest, DictGetCaseInsensitive(d, path[0], EmptyDict))
  }

  /** The value `temp` holds once a path has been walked from `""`. */
  function PathOutcome(d: Mapping, path: seq<string>): (r: Value)
    ensures |path| == 0 ==> r == Str("") && !Truthy(r)
    ensures |path| > 0 ==> r == DictGetCaseInsensitive(d, path[|path| - 1], EmptyDict)
  {
    Walk(d, path, Str(""))
  }

  /** No path of `paths` has a truthy outcome. */
  predicate AllFalsy(d: Mapping, paths: seq<seq<string>>) {
    forall p :: p in paths ==> !Truthy(PathOutcome(d, p))
  }

  /** Path `k` is the first path of `paths` whose outcome is truthy. */
  predicate FirstTruthy(d: Mapping, paths: seq<seq<string>>, k: int) {
    && 0 <= k < |paths|
    && Truthy(PathOutcome(d, paths[k]))
    && AllFalsy(d, paths[..k])
  }

  /** At most one path is the first with a truthy outcome. */
  lemma FirstTruthyUnique(d: Mapping, paths: seq<seq<string>>, k: int)
    requires FirstTruthy(d, paths, k)
    ensures forall k' {:trigger FirstTruthy(d, paths, k')} :: FirstTruthy(d, paths, k') ==> k' == k
  {
  }

  /** When some path has a truthy outcome, one of them comes first. */
  lemma {:induction false} FirstTruthyExists(d: Mapping, paths: seq<seq<string>>)
    requires !AllFalsy(d, paths)
    ensures exists k :: FirstTruthy(d, paths, k)
  {
    if Truthy(PathOutcome(d, paths[0])) {
      assert paths[..0] == [];
      assert FirstTruthy(d, paths, 0);
    } else {
      var rest := paths[1..];
      assert paths == [paths[0]] + rest;
      FirstTruthyExists(d, rest);
      var k :| FirstTruthy(d, rest, k);
      assert paths[..k + 1] == [paths[0]] + rest[..k];
      assert FirstTruthy(d, paths, k + 1);
    }
  }

  /** Behind a leading path with a falsy outcome, the remaining paths are
      all falsy exactly when the whole list is, and the first truthy path of
      the remainder is the first truthy path of the whole list, one place on. */
  lemma FirstTruthyAfterFalsy(d: Mapping, paths: seq<seq<string>>)
    requires |paths| > 0 && !Truthy(PathOutcome(d, paths[0]))
    ensures AllFalsy(d, paths[1..]) <==> AllFalsy(d, paths)
    ensures forall k {:trigger FirstTruthy(d, paths, k)} ::
              FirstTruthy(d, paths, k) <==> k > 0 && FirstTruthy(d, paths[1..], k - 1)
  {
    var rest := paths[1..];
    assert paths == [paths[0]] + rest;
    forall k | 0 < k <= |paths|
      ensures paths[..k] == [paths[0]] + rest[..k - 1]
    {
    }
    assert paths[..0] == [];
  }

  /** The outer loop: the outcome of the first path, in list order, whose
      outcome is truthy, and `None` when there is no such path. */
  function GetValueFromPath(d: Mapping, paths: seq<seq<string>>): (r: Value)
    ensures r == Null <==> AllFalsy(d, paths)
    ensures r != Null ==> Truthy(r)
    ensures forall k {:trigger FirstTruthy(d, paths, k)} :: FirstTruthy(d, paths, k) ==> r == PathOutcome(d, paths[k])
  {
    if |paths| == 0 then Null
    else
      var temp := PathOutcome(d, paths[0]);
      if Truthy(temp) then
        assert paths[..0] == [];
        assert FirstTruthy(d, paths, 0);
        FirstTruthyUnique(d, paths, 0);
        temp
      else
        var rest := paths[1..];
        FirstTruthyAfterFalsy(d, paths);
        GetValueFromPath(d, rest)
  }

  /** A result other than `None` is the outcome of the first path with a
      truthy outcome. */
  lemma ResultIsFirstTruthy(d: Mapping, paths: seq<seq<string>>)
    requires GetValueFromPath(d, paths) != Null
    ensures exists k {:trigger FirstTruthy(d, paths, k)} ::
              FirstTruthy(d, paths, k) && GetValueFromPath(d, paths) == PathOutcome(d, paths[k])
  {
    FirstTruthyExists(d, paths);
  }

  /** The outcome of a non-empty path is the value of the last top-level key
      matching its last step, and the falsy `{}` when no key matches: a
      missing key never fails. */
  lemma LastKeyOutcome(d: Mapping, path: seq<string>)
    requires |path| > 0
    ensures !HasMatch(d, Lower(path[|path| - 1])) ==>
              PathOutcome(d, path) == EmptyDict && !Truthy(PathOutcome(d, path))
    ensures forall i :: LastMatch(d, Lower(path[|path| - 1]), i) ==> PathOutcome(d, path) == d[i].1
  {
  }

  /** Earlier steps of a path are overwritten: a path ending in `k` has the
      same outcome as the one-step path `[k]`, whatever precedes `k`. */
  lemma NeverDescends(d: Mapping, prefix: seq<string>, k: string)
    ensures PathOutcome(d, prefix + [k]) == PathOutcome(d, [k])
  {
    assert (prefix + [k])[|prefix|] == k;
  }

  /** Each path cut down to its last step; an empty path stays empty. */
  function LastSteps(paths: seq<seq<string>>): (r: seq<seq<string>>)
    ensures |r| == |paths|
    ensures forall k :: 0 <= k < |paths| ==> |r[k]| <= 1 && (|r[k]| == 0 <==> |paths[k]| == 0)
    ensures forall k :: 0 <= k < |paths| && |paths[k]| > 0 ==> r[k] == [paths[k][|paths[k]| - 1]]
  {
    if |paths| == 0 then []
    else
      (if |paths[0]| == 0 then [[]] else [[paths[0][|paths[0]| - 1]]]) + LastSteps(paths[1..])
  }

  /** Only the last step of each path matters to the result. */
  lemma {:induction false} OnlyLastStepsMatter(d: Mapping, paths: seq<seq<string>>)
    ensures GetValueFromPath(d, paths) == GetValueFromPath(d, LastSteps(paths))
  {
    if |paths| > 0 {
      var last := LastSteps(paths);
      if |paths[0]| > 0 {
        NeverDescends(d, paths[0][..|paths[0]| - 1], paths[0][|paths[0]| - 1]);
        assert paths[0][..|paths[0]| - 1] + [paths[0][|paths[0]| - 1]] == paths[0];
      }
      assert PathOutcome(d, paths[0]) == PathOutcome(d, last[0]);
      assert last[1..] == LastSteps(paths[1..]);
      OnlyLastStepsMatter(d, paths[1..]);
    }
  }

  /** A zero-length path never produces a result: its outcome is the falsy
      initial `""`, so the search moves on to the next path. */
  lemma EmptyPathSkipped(d: Mapping, paths: seq<seq<string>>)
    ensures GetValueFromPath(d, [[]] + paths) == GetValueFromPath(d, paths)
  {
    assert ([[]] + paths)[1..] == paths;
  }

  /** Paths are tried in order: the paths of `ps` are all tried before any
      path of `qs`. */
  lemma AppendPaths(d: Mapping, ps: seq<seq<string>>, qs: seq<seq<string>>)
    ensures GetValueFromPath(d, ps + qs) ==
      if GetValueFromPath(d, ps) != Null then GetValueFromPath(d, ps) else GetValueFromPath(d, qs)
  {
    var all := ps + qs;
    if GetValueFromPath(d, ps) != Null {
      FirstTruthyExists(d, ps);
      var k :| FirstTruthy(d, ps, k);
      assert all[..k] == ps[..k];
      assert FirstTruthy(d, all, k);
    } else if GetValueFromPath(d, qs) != Null {
      FirstTruthyExists(d, qs);
      var k :| FirstTruthy(d, qs, k);
      assert all[..|ps| + k] == ps + qs[..k];
      assert FirstTruthy(d, all, |ps| + k);
    } else {
      assert AllFalsy(d, all);
    }
  }

  /** With `{"A": {"B": "v"}}`, the path `["a", "b"]` does not reach "v":
      its outcome is the top-level lookup of "b", which is missing. The path
      `["b", "a"]` instead yields the whole nested mapping, and `[]` or an
      empty mapping yield `None`. */
  lemma NestedValueNotReached()
    ensures GetValueFromPath([("A", Dict([("B", Str("v"))]))], [["a", "b"]]) == Null
    ensures GetValueFromPath([("A", Dict([("B", Str("v"))]))], [["b", "a"]]) == Dict([("B", Str("v"))])
    ensures GetValueFromPath([("A", Dict([("B", Str("v"))]))], [["x", "y"], ["a"]]) == Dict([("B", Str("v"))])
    ensures GetValueFromPath([("A", Dict([("B", Str("v"))]))], [[]]) == Null
    ensures GetValueFromPath([], [["a"]]) == Null
  {
    var d: Mapping := [("A", Dict([("B", Str("v"))]))];
    assert Lower("A") == "a";
    assert Lower("b") == "b" && Lower("y") == "y";
    LastKeyOutcome(d, ["a", "b"]);
    LastKeyOutcome(d, ["x", "y"]);
    assert LastMatch(d, Lower("a"), 0);
    LastKeyOutcome(d, ["b", "a"]);
    LastKeyOutcome(d, ["a"]);
    LastKeyOutcome([], ["a"]);
  }
}
