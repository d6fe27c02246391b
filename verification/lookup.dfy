/** `dict_get_case_insensitive`: a `dict.get` that ignores the ASCII case of
    keys. The mapping is copied into a dictionary keyed by the lower-cased
    keys, in iteration order, and the lower-cased query is looked up there. */
module CaseInsensitiveLookup {
  import opened Values
  import opened CaseFold

  /** Entry `i` is the last entry of `d` whose key lower-cases to `lk`. */
  predicate LastMatch(d: Mapping, lk: string, i: int) {
    && 0 <= i < |d|
    && Lower(d[i].0) == lk
    && forall j :: i < j < |d| ==> Lower(d[j].0) != lk
  }

  /** Some entry of `d` has a key that lower-cases to `lk`. */
  predicate HasMatch(d: Mapping, lk: string) {
    exists i :: 0 <= i < |d| && Lower(d[i].0) == lk
  }

  /** The normalised copy `{k.lower(): v for k, v in d.items()}`: entries are
      inserted in iteration order, so a later key overwrites an earlier one
      that lower-cases to the same form. */
  function Normalize(d: Mapping): (m: map<string, Value>)
    ensures forall lk :: lk in m ==> HasMatch(d, lk)
    ensures forall lk, i {:trigger LastMatch(d, lk, i)} :: LastMatch(d, lk, i) ==> lk in m && m[lk] == d[i].1
  {
    if |d| == 0 then map[]
    else
      var prefix := d[..|d| - 1];
      var last := d[|d| - 1];
      var m := Normalize(prefix)[Lower(last.0) := last.1];
      NormalizeStep(d, Normalize(prefix), m);
      m
  }

  /** One insertion of the normalised copy keeps its two properties. */
  lemma NormalizeStep(d: Mapping, m': map<string, Value>, m: map<string, Value>)
    requires |d| > 0
    requires forall lk :: lk in m' ==> HasMatch(d[..|d| - 1], lk)
    requires forall lk, i {:trigger LastMatch(d[..|d| - 1], lk, i)} ::
               LastMatch(d[..|d| - 1], lk, i) ==> lk in m' && m'[lk] == d[i].1
    requires m == m'[Lower(d[|d| - 1].0) := d[|d| - 1].1]
    ensures forall lk :: lk in m ==> HasMatch(d, lk)
    ensures forall lk, i {:trigger LastMatch(d, lk, i)} :: LastMatch(d, lk, i) ==> lk in m && m[lk] == d[i].1
  {
    var n := |d| - 1;
    var prefix := d[..n];
    var lk0 := Lower(d[n].0);
    forall lk | lk in m
      ensures HasMatch(d, lk)
    {
      if lk != lk0 {
        var k :| 0 <= k < |prefix| && Lower(prefix[k].0) == lk;
        assert d[k] == prefix[k];
      }
    }
    forall lk, i | LastMatch(d, lk, i)
      ensures lk in m && m[lk] == d[i].1
    {
      if i < n {
        assert prefix[i] == d[i];
        assert lk != lk0;
        assert LastMatch(prefix, lk, i);
      }
    }
  }

  /** When some key matches, there is a last one. */
  lemma {:induction false} LastMatchExists(d: Mapping, lk: string)
    requires HasMatch(d, lk)
    ensures exists i :: LastMatch(d, lk, i)
  {
    var n := |d| - 1;
    if Lower(d[n].0) == lk {
      assert LastMatch(d, lk, n);
    } else {
      var prefix := d[..n];
      var k :| 0 <= k < |d| && Lower(d[k].0) == lk;
      assert prefix[k] == d[k];
      LastMatchExists(prefix, lk);
      var i :| LastMatch(prefix, lk, i);
      assert LastMatch(d, lk, i);
    }
  }

  /** Case-insensitive `dict.get`: the value paired with the last key that
      lower-cases to `Lower(key)`, or `default` when there is none. */
  function DictGetCaseInsensitive(d: Mapping, key: string, default: Value): (r: Value)
    ensures !HasMatch(d, Lower(key)) ==> r == default
    ensures forall i {:trigger LastMatch(d, Lower(key), i)} :: LastMatch(d, Lower(key), i) ==> r == d[i].1
  {
    var out := Normalize(d);
    var lk := Lower(key);
    if lk in out then out[lk] else default
  }

  /** When some key matches the query up to case, the result is the value of
      the last such key. */
  lemma PresentKeyFound(d: Mapping, key: string, default: Value)
    requires HasMatch(d, Lower(key))
    ensures exists i :: LastMatch(d, Lower(key), i) && DictGetCaseInsensitive(d, key, default) == d[i].1
  {
    LastMatchExists(d, Lower(key));
  }

  /** The result does not depend on the casing of the query key. */
  lemma CaseInvariant(d: Mapping, key: string, default: Value)
    ensures DictGetCaseInsensitive(d, key, default) == DictGetCaseInsensitive(d, Lower(key), default)
  {
    LowerIdempotent(key);
  }

  /** Keys that differ only in ASCII case give the same result. */
  lemma SameFoldSameResult(d: Mapping, k1: string, k2: string, default: Value)
    requires Lower(k1) == Lower(k2)
    ensures DictGetCaseInsensitive(d, k1, default) == DictGetCaseInsensitive(d, k2, default)
  {
  }

  /** The keys of the normalised copy are exactly the lower-cased keys of
      the input. */
  lemma NormalizeKeys(d: Mapping, lk: string)
    ensures lk in Normalize(d) <==> HasMatch(d, lk)
  {
    if HasMatch(d, lk) {
      LastMatchExists(d, lk);
    }
  }

  /** Every key of the normalised copy holds the value of the last input
      key that lower-cases to it. */
  lemma NormalizeDrawsFromInput(d: Mapping, lk: string)
    requires lk in Normalize(d)
    ensures exists i {:trigger LastMatch(d, lk, i)} :: LastMatch(d, lk, i) && Normalize(d)[lk] == d[i].1
  {
    LastMatchExists(d, lk);
  }

  /** A result other than the default is one of the input's values, stored
      under a key that matches the query up to case. */
  lemma ResultFromInput(d: Mapping, key: string, default: Value)
    requires DictGetCaseInsensitive(d, key, default) != default
    ensures exists i :: 0 <= i < |d| && Lower(d[i].0) == Lower(key)
                        && d[i].1 == DictGetCaseInsensitive(d, key, default)
  {
    PresentKeyFound(d, key, default);
  }

  /** Appending an entry whose key matches the query makes its value the
      result, whatever came before: the last key wins. */
  lemma AppendMatchWins(d: Mapping, k: string, v: Value, key: string, default: Value)
    requires Lower(k) == Lower(key)
    ensures DictGetCaseInsensitive(d + [(k, v)], key, default) == v
  {
    assert LastMatch(d + [(k, v)], Lower(key), |d|);
  }

  /** Appending an entry whose key does not match leaves the result unchanged. */
  lemma AppendOtherKeepsResult(d: Mapping, k: string, v: Value, key: string, default: Value)
    requires Lower(k) != Lower(key)
    ensures DictGetCaseInsensitive(d + [(k, v)], key, default) == DictGetCaseInsensitive(d, key, default)
  {
    var e := d + [(k, v)];
    var lk := Lower(key);
    assert forall i :: 0 <= i < |d| ==> e[i] == d[i];
    if HasMatch(d, lk) {
      LastMatchExists(d, lk);
      var i :| LastMatch(d, lk, i);
      assert LastMatch(e, lk, i);
    } else {
      assert !HasMatch(e, lk);
    }
  }

  /** The lookup in a mapping `{"Name": v}` for "NAME" yields `v`, and for a
      mapping `{"name": a, "NAME": b}` yields `b`. */
  lemma Examples(a: Value, b: Value, default: Value)
    ensures DictGetCaseInsensitive([("Name", a)], "NAME", default) == a
    ensures DictGetCaseInsensitive([("name", a), ("NAME", b)], "Name", default) == b
    ensures DictGetCaseInsensitive([("name", a)], "other", default) == default
  {
    assert LastMatch([("Name", a)], Lower("NAME"), 0);
    assert LastMatch([("name", a), ("NAME", b)], Lower("Name"), 1);
    assert Lower("other") != Lower("name");
  }
}
