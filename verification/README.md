# pyvizio lookup helpers, modelled in Dafny

This project models the two pure lookup helpers of the pyvizio smart-TV
client, found in `pyvizio/helpers.py`:

- `dict_get_case_insensitive(in_dict, key, default_return)` is a `dict.get`
  that ignores the case of keys. It builds a copy of the mapping keyed by the
  lower-cased keys, in iteration order, so a later key overwrites an earlier
  one that lower-cases to the same form. It then looks up the lower-cased
  query and falls back to `default_return`.
- `get_value_from_path(device_info, paths)` tries a list of candidate key
  paths in order. It returns the first truthy outcome, or `None`.

Files:

- `values.dfy` (module `Values`): the dynamically typed `Value` (`None`,
  booleans, integers, strings, mappings, lists) and Python truthiness.
  A mapping is the ordered sequence of its `(key, value)` pairs.
- `lower.dfy` (module `CaseFold`): ASCII lower-casing, which stands in for
  `str.lower`, and its idempotence.
- `lookup.dfy` (module `CaseInsensitiveLookup`): the normalised copy and the
  case-insensitive `get`.
- `path_resolver.dfy` (module `PathResolver`): the path walk and the
  first-truthy search.

The function's name suggests that each path descends through nested
mappings. The code does not: every step is looked up in the top-level
`device_info` (helpers.py:32), not in the previous step's result. So the
outcome of a path is the top-level lookup of its last key, with `{}` as the
default. With `{"A": {"B": "v"}}` and the paths `[["a", "b"]]` the result is
`None`, not `"v"`. `PathResolver.NestedValueNotReached` states this example.
`PathResolver.OnlyLastStepsMatter` states the general fact.

Python's `None` result is the value `Null`. A truthy outcome is never
`Null`, so a `Null` result means that no path had a truthy outcome; a key
that is found but holds a falsy value counts as no match.

## Model

| member | source | states |
|---|---|---|
| Values.FalsyValues | pyvizio/helpers.py:34 | `Truthy`, the model of the `if temp:` test, is false exactly for `None`, `False`, `0`, `""`, `{}` and `[]` |
| CaseFold.LowerChar | pyvizio/helpers.py:21-23 | the per-character fold behind `k.lower()` and `key.lower()`: maps 'A'..'Z' to 'a'..'z' and leaves every other character unchanged |
| CaseFold.LowerIdempotent | pyvizio/helpers.py:21-23 | lower-casing an already lower-cased key changes nothing |
| CaseInsensitiveLookup.Normalize | pyvizio/helpers.py:21 | the normalised copy has exactly the lower-cased keys of the input, and each maps to the value of the last input key that lower-cases to it |
| CaseInsensitiveLookup.DictGetCaseInsensitive | pyvizio/helpers.py:17-23 | with no key matching the query up to case the result is the default; otherwise it is the value of the last matching key in iteration order |
| CaseInsensitiveLookup.PresentKeyFound | pyvizio/helpers.py:21-23 | when some key matches the query up to case, the result is the value of the last such key |
| CaseInsensitiveLookup.NormalizeKeys | pyvizio/helpers.py:21 | a lower-cased form is a key of the normalised copy exactly when some input key lower-cases to it |
| CaseInsensitiveLookup.CaseInvariant | pyvizio/helpers.py:23 | looking up `key` and looking up its lower-cased form give the same result |
| CaseInsensitiveLookup.SameFoldSameResult | pyvizio/helpers.py:23 | two query keys that differ only in case give the same result |
| CaseInsensitiveLookup.NormalizeDrawsFromInput | pyvizio/helpers.py:21 | every key of the normalised copy holds the value of the last input key that lower-cases to it |
| CaseInsensitiveLookup.ResultFromInput | pyvizio/helpers.py:21-23 | a result other than the default is the value of an input key matching the query up to case |
| CaseInsensitiveLookup.AppendMatchWins | pyvizio/helpers.py:21 | a key added at the end of iteration order that matches the query decides the result: the last key wins |
| CaseInsensitiveLookup.AppendOtherKeepsResult | pyvizio/helpers.py:21-23 | adding a key that does not match the query leaves the result unchanged |
| CaseInsensitiveLookup.Examples | pyvizio/helpers.py:17-23 | `{"Name": a}` gives `a` for "NAME"; `{"name": a, "NAME": b}` gives `b`; a missing key gives the default |
| PathResolver.Walk | pyvizio/helpers.py:31-32 | after the step loop, `temp` is the top-level lookup of the last step with `{}` as default, or its initial value for an empty path |
| PathResolver.PathOutcome | pyvizio/helpers.py:30-32 | a path's outcome is the falsy `""` when it is empty and otherwise the top-level lookup of its last key |
| PathResolver.GetValueFromPath | pyvizio/helpers.py:26-37 | the result is `None` exactly when no path has a truthy outcome; a result other than `None` is truthy; when path `k` is the first path, in list order, with a truthy outcome, the result is that outcome |
| PathResolver.FirstTruthyAfterFalsy | pyvizio/helpers.py:29-35 | after a leading path with a falsy outcome, the rest of the list is all falsy exactly when the whole list is, and the first truthy path of the rest is the first truthy path of the whole list |
| PathResolver.FirstTruthyUnique | pyvizio/helpers.py:29-35 | at most one path is the first with a truthy outcome |
| PathResolver.FirstTruthyExists | pyvizio/helpers.py:29-35 | when some path has a truthy outcome, there is a first such path |
| PathResolver.ResultIsFirstTruthy | pyvizio/helpers.py:29-37 | a result other than `None` is the outcome of the first path with a truthy outcome |
| PathResolver.LastKeyOutcome | pyvizio/helpers.py:32-35 | a path whose last key is missing has the falsy outcome `{}` instead of failing; otherwise its outcome is the value of the last top-level key matching that key |
| PathResolver.NeverDescends | pyvizio/helpers.py:31-32 | whatever steps precede the last key, the outcome equals that of the one-step path of the last key |
| PathResolver.OnlyLastStepsMatter | pyvizio/helpers.py:29-35 | cutting every path down to its last step does not change the result |
| PathResolver.EmptyPathSkipped | pyvizio/helpers.py:30-35 | a zero-length path never produces the result; the search moves on to the next path |
| PathResolver.AppendPaths | pyvizio/helpers.py:29-37 | paths are tried in list order: the result for `ps + qs` is that of `ps` unless it is `None`, and then that of `qs` |
| PathResolver.NestedValueNotReached | pyvizio/helpers.py:26-37 | with `{"A": {"B": "v"}}`, the path `["a", "b"]` yields `None`; `["b", "a"]` yields the nested mapping; an empty mapping yields `None` |

## Left out

- `async_to_sync` (pyvizio/helpers.py:7-14): it runs a coroutine on a fresh asyncio event loop, which is concurrency plumbing with no data logic.
- `nullcontext` (pyvizio/helpers.py:40-43): a context-manager adapter with no domain logic.
- `open_port` (pyvizio/helpers.py:47-71): a TCP connect with a two-second timeout, which is network I/O and timing.
- CaseFold.LowerChar: `str.lower` is modelled for ASCII letters only; full Unicode lower-casing (for example characters whose lower-case form has a different length) is not modelled.
- CaseInsensitiveLookup.DictGetCaseInsensitive: keys are strings by type, so the `AttributeError` Python raises for a non-string key is not modelled.
- CaseInsensitiveLookup.DictGetCaseInsensitive: `default_return` is always passed explicitly; the Python default of `None` is the call with `Null`.
- A Python `dict` cannot hold the same key twice, but the pair sequence can. The model gives such a sequence the same last-wins reading as colliding keys, so it admits more inputs than Python can build.
- `Value` covers `None`, booleans, integers, strings, string-keyed mappings and lists. Floats, tuples and other objects, and their truthiness, are not modelled.
- Python values are mutable objects. Here they are immutable values, so "the input mapping is not modified" holds by construction rather than as a contract.
