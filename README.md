# py-func-trace argument camouflage, modelled in Dafny

py-func-trace logs the arguments of a traced Python function call. Before it
logs them, `__extract_arguments` lists the argument names of the call:
positional names, then the `*args` name(s), then the `**kwargs` name(s).
`__camouflage` then builds the snapshot that gets logged:

- a name no longer bound in the frame is logged as `<MISSING>`;
- a name starting with `priv_` is logged as the camouflage sign;
- a dict is copied and camouflaged path by path (`__get_dict_keypaths` and
  `__camouflage_nested_dict`). A dotted key path holding `priv_` has its
  sensitive key overwritten with the sign. Any other leaf is shortened;
- any other value is shortened by `__shorten_string`.

The model has one module per concern:

- `PyStrings` (`strings.dfy`): the Python string operations the code relies on.
  These are `str.find` with its `-1`, `str.startswith` and slicing with Python's
  negative and clamped stops. Also joining keys with `.` and splitting a dotted
  path into keys, as the path library does.
- `Values` (`values.dfy`): argument values. A value is a string, a dict with
  string keys in insertion order, or any other object kept as its printed
  form. The module also has `d[k] = v` and reading and assigning at a key path,
  in place of `glom.glom` and `glom.assign`. An assignment that cannot be made
  is a `None` result.
- `Settings` (`settings.dfy`): the five module settings. They are passed as a
  `Config` value, and `Defaults` holds their initial values.
- `Shortening` (`shorten.dfy`): `__shorten_string`.
- `Keypaths` (`keypaths.dfy`): `__get_dict_keypaths`. It also has the same
  enumeration over sequences of keys, proved to be exactly the paths to
  non-dict values within the depth limit.
- `NestedCamouflage` (`nested.dfy`): `__camouflage_nested_dict`.
  - The loop is a method, proved equal to a fold of one pass per key path.
  - An exception that escapes a pass is the `Raised` result.
  - The fold over dotted strings is proved equal to the fold over key
    sequences.
- `Sanitizing` (`sanitize.dfy`): a recursive rewrite of the dict, the
  reference definition of what the camouflage achieves.
  - A sensitive key on a reported path shows the sign, other values are
    shortened, and dicts nested past the limit stay as they were.
  - The main theorem, `CamouflageOfKeypaths`, proves that the loop over the
    enumerated paths of a well-formed dict never raises and yields that
    rewrite.
- `ArgumentCamouflage` (`camouflage.dfy`): `__camouflage` and
  `__extract_arguments`.
  - Both are methods, proved equal to a fold over the argument names.
  - The fold is characterised: which names raise, the keys in order of first
    occurrence, and each name's logged value.
  - A concrete call from the test suite is worked through, whatever its
    secret value.

The model follows the code where the code and its description differ:

- Inside a dict, a key is sensitive when it *contains* `priv_` (`str.find`).
  An argument name is sensitive only when it *starts with* `priv_`.
- The cut of a sensitive path ends at the first `.` after the first `priv_`.
- A dict nested deeper than `NESTED_DICT_DEPTH_MAX + 1` levels is logged
  as it is, sensitive keys inside it included (`DeepDictKept`).
- A sensitive key whose dict value holds no reported leaf is logged as it is,
  keys included (`SensitiveKeyWithoutLeafKept`). That covers an empty dict,
  a dict of only empty dicts, and a dict whose leaves lie past the limit: no
  key path reaches such a key, so the loop never redacts it.
- `priv_` is fixed in the code, not a setting (`Settings.PrivPrefix`).

## Model

| member | source | states |
|---|---|---|
| PyStrings.FindFromSpec | src/py_func_trace/func_trace.py:84-86 | `find` from a start index returns the first index at or after it where the substring occurs; it returns -1 exactly when there is no such index |
| PyStrings.FindSpec | src/py_func_trace/func_trace.py:84-86 | `s.find(sub)` is the first occurrence of `sub` in `s`, and -1 exactly when `sub` occurs nowhere |
| PyStrings.StartsWithFind | src/py_func_trace/func_trace.py:139 | `name.startswith('priv_')` holds exactly when `find` puts the first `priv_` at index 0, so every sensitive argument name also contains `priv_` |
| PyStrings.SliceTo | src/py_func_trace/func_trace.py:43 | `s[:n]` is a prefix of `s`. For `n >= 0` its length is `min(n, len(s))`; for negative `n` it is `max(len(s) + n, 0)` |
| PyStrings.Split | src/py_func_trace/func_trace.py:98-102 | splitting a path string on `.` gives at least one segment, none containing `.`, and joining them with `.` gives the string back |
| PyStrings.SplitJoin | src/py_func_trace/func_trace.py:69-75 | a key path built by joining dot-free keys with `.` splits back into exactly those keys |
| PyStrings.SplitCons | src/py_func_trace/func_trace.py:71 | a dot-free key followed by `.` and a rest splits into that key followed by the split of the rest |
| Values.Put | src/py_func_trace/func_trace.py:137 | after `d[k] = v`, `d[k]` is `v` and every other key looks up as before |
| Values.PutKeys | src/py_func_trace/func_trace.py:137 | `d[k] = v` keeps the keys in insertion order and appends `k` only when it is new |
| Values.SetPath | src/py_func_trace/func_trace.py:98-102 | assigning at a key path succeeds exactly when the container of the last key exists and is a dict; the result is a dict that holds the new value at that path |
| Values.SetPathFrame | src/py_func_trace/func_trace.py:116 | an assignment at a path leaves every path that branches off from it unchanged |
| Values.GetPathAppend | src/py_func_trace/func_trace.py:114 | reading at `a + b` is reading at `a`, then at `b` from there |
| Shortening.ShortenString | src/py_func_trace/func_trace.py:26-46 | a value is kept when shortening is off, it is not a string, or it is at most the limit long. Otherwise, with a limit at least the sign's length, the result is exactly the limit long: the string's first `limit - len(sign)` characters, then the sign. A string stays a string |
| Shortening.ShortenBelowSign | src/py_func_trace/func_trace.py:43-44 | with a limit shorter than the sign, the negative stop drops the last `len(sign) - limit` characters before the sign is appended |
| Shortening.ShortenStable | src/py_func_trace/func_trace.py:40-46 | with a limit at least the sign's length, shortening never lengthens a string. When shortening is on, a string is changed exactly when it is longer than the limit, and shortening twice equals shortening once |
| Shortening.ShortenDefaultExample | src/py_func_trace/func_trace.py:19-23 | under the default settings an 85-character string becomes its first 77 characters and `...` |
| Keypaths.GetDictKeypaths | src/py_func_trace/func_trace.py:49-77 | a call past the depth limit returns no paths, and every path returned starts with the current path |
| Keypaths.KeypathsAreJoinedLeafPaths | src/py_func_trace/func_trace.py:66-77 | the dotted paths are the key sequences of the enumeration, in the same order, each joined with `.` after the current path |
| Keypaths.LeafPaths | src/py_func_trace/func_trace.py:59-64 | every enumerated key sequence is non-empty and at most `limit - depth + 1` keys long |
| Keypaths.LeafPathsExact | src/py_func_trace/func_trace.py:59-77 | in a well-formed dict the enumerated key sequences are exactly the paths to non-dict values that are at most `limit - depth + 1` keys long. So an empty nested dict and values nested too deep yield nothing |
| Keypaths.ItemLeafPathsHeads | src/py_func_trace/func_trace.py:67-75 | every path the remaining entries contribute starts with one of their keys |
| Keypaths.LeafPathsDistinct | src/py_func_trace/func_trace.py:66-77 | in a well-formed dict no key sequence is reported twice, so every leaf within the depth limit is reported exactly once |
| Keypaths.KeypathsDistinct | src/py_func_trace/func_trace.py:49-77 | the dotted key paths reported for a well-formed dict are pairwise distinct |
| Keypaths.LeafPathsDfsOrder | src/py_func_trace/func_trace.py:59-77 | the key sequences come out in depth-first dict iteration order: of any two reported paths, the earlier one agrees with the later one up to some level and, at that level, has a key the dict there iterates first |
| Keypaths.ItemLeafPathsDfsOrder | src/py_func_trace/func_trace.py:66-77 | the same depth-first order for the paths the remaining entries contribute: an entry's paths come before the next entry's, and a nested dict's paths keep its own order |
| Keypaths.FlatKeypathsExample | src/py_func_trace/func_trace.py:66-77 | `{"a": 1, "b": 2}` is reported as `["a", "b"]` |
| Keypaths.NestedKeypathsExample | src/py_func_trace/func_trace.py:66-77 | `{"a": {"b": 1}}` is reported as `["a.b"]` when the depth limit allows one level of nesting |
| Keypaths.LeafPathsDotFree | src/py_func_trace/func_trace.py:71-75 | in a well-formed dict no key on an enumerated path contains `.` |
| Keypaths.KeypathDepthBound | src/py_func_trace/func_trace.py:59-64 | no path enumerated from depth 0 splits into more than `NESTED_DICT_DEPTH_MAX + 1` keys |
| NestedCamouflage.SensitivePrefix | src/py_func_trace/func_trace.py:84-94 | a path has a cut exactly when `priv_` occurs in it |
| NestedCamouflage.SensitivePrefixIsKeyBoundary | src/py_func_trace/func_trace.py:84-94 | the cut is a prefix of the path. It holds the first `priv_` whole, has no `.` after it, and ends at a `.` of the path or at its end |
| NestedCamouflage.RedactAt | src/py_func_trace/func_trace.py:97-112 | the sensitive assignment never raises. When the container exists, the sign is at the cut; otherwise the dict is left as it was |
| NestedCamouflage.ShortenAt | src/py_func_trace/func_trace.py:114-116 | the non-sensitive pass succeeds exactly when the value at the path can be read and written back, and the path then holds the shortened value |
| NestedCamouflage.CamouflagePass | src/py_func_trace/func_trace.py:84-116 | one iteration of the loop, written with `find`, a slice and an assignment that may fail, computes the pass over that path |
| NestedCamouflage.CamouflageNestedDict | src/py_func_trace/func_trace.py:80-116 | the loop computes the fold of one pass per key path, and raises exactly when a pass raises |
| NestedCamouflage.CamouflagedAppend | src/py_func_trace/func_trace.py:82 | the loop over two lists of paths is the loop over the first, then, unless it raised, over the second |
| NestedCamouflage.RaisedStaysRaised | src/py_func_trace/func_trace.py:114-116 | once a pass raises, the whole loop raises |
| NestedCamouflage.SensitivePrefixOfJoin | src/py_func_trace/func_trace.py:84-94 | for a path joined from dot-free keys, the cut is the join of the keys up to and including the first key containing `priv_`, and there is none when no key contains it |
| NestedCamouflage.SensitiveLaterKey | src/py_func_trace/func_trace.py:84-94 | when the first key holds no `priv_`, the cut of the path is that key, a `.`, and the cut of the rest |
| NestedCamouflage.StepOnJoin | src/py_func_trace/func_trace.py:82-116 | a pass over a joined path equals the same pass stated over its keys |
| NestedCamouflage.CamouflagedJoined | src/py_func_trace/func_trace.py:80-116 | the loop over joined paths equals the loop over their key sequences |
| Sanitizing.CamouflageOfKeypaths | src/py_func_trace/func_trace.py:153-155 | for a well-formed dict, the loop over the paths the enumeration reports never raises. It yields the rewrite where every key containing `priv_` that a reported path passes shows the sign, every other reported value is shortened, and dicts past the depth limit are unchanged |
| Sanitizing.DictSanitized | src/py_func_trace/func_trace.py:59-116 | the loop over the reported key sequences of a dict at any depth yields that dict's rewrite |
| Sanitizing.SanitizedKeys | src/py_func_trace/func_trace.py:80-116 | camouflage keeps every key of every dict, in order, and keeps the dict well formed |
| Sanitizing.LookupSanitized | src/py_func_trace/func_trace.py:80-116 | a key of the camouflaged dict maps to the rewrite of its original value, and a missing key stays missing |
| Sanitizing.SanitizedAlongPath | src/py_func_trace/func_trace.py:80-116 | along a path of non-sensitive keys within the depth the enumeration descends, the camouflaged dict holds the rewrite of the original value |
| Sanitizing.ShortenedLeaf | src/py_func_trace/func_trace.py:114-116 | a reported path with no sensitive key leads to a non-dict value, and after camouflage to its shortened form |
| Sanitizing.RedactedAtFirstSensitiveKey | src/py_func_trace/func_trace.py:84-102 | after camouflage, the first sensitive key on any reported path holds the sign |
| Sanitizing.SensitiveKeyWithoutLeafKept | src/py_func_trace/func_trace.py:66-94 | a sensitive key, at any level below non-sensitive keys, whose dict value has no leaf within the depth limit keeps that value, inner keys included |
| Sanitizing.SensitiveEmptyDictExample | src/py_func_trace/func_trace.py:66-94 | `{"priv_tokens": {"abc123": {}}}` is logged unchanged, its inner key visible |
| Sanitizing.DeepDictKept | src/py_func_trace/func_trace.py:59-63 | a dict nested below `NESTED_DICT_DEPTH_MAX + 1` non-sensitive keys is logged unchanged, sensitive keys inside it included |
| ArgumentCamouflage.Camouflage | src/py_func_trace/func_trace.py:119-163 | the loop over the effective names computes the fold of each name's pass, `<MISSING>`, sign, camouflaged dict or shortened value, and raises when a dict's camouflage raises |
| ArgumentCamouflage.ExtractArguments | src/py_func_trace/func_trace.py:166-191 | the snapshot is that of the positional names, then the `*args` name(s), then the `**kwargs` name(s); an empty name contributes nothing |
| ArgumentCamouflage.AssembleRaises | src/py_func_trace/func_trace.py:133-161 | the snapshot loop completes exactly when the pass for every name completes |
| ArgumentCamouflage.AssembleKeys | src/py_func_trace/func_trace.py:133-161 | a completed snapshot has one key per distinct name, in order of first occurrence |
| ArgumentCamouflage.AssembleLookupAt | src/py_func_trace/func_trace.py:133-161 | in a completed snapshot every name maps to the outcome of its pass, so a repeated name keeps its last value |
| ArgumentCamouflage.DedupDistinct | src/py_func_trace/func_trace.py:131-137 | the snapshot's keys, the names in order of first occurrence, are distinct |
| ArgumentCamouflage.SanitizedArg | src/py_func_trace/func_trace.py:134-161 | one pass of the loop over a name: it can raise only for a bound, non-`priv_` name whose value is a dict; `<MISSING>`, the sign and shortening never raise |
| ArgumentCamouflage.ArgumentSanitized | src/py_func_trace/func_trace.py:134-161 | a pass never raises when the value, if a dict, is well formed. It logs `<MISSING>` for an unbound name, the sign for a `priv_` name, the rewrite for a dict and the shortened value otherwise |
| ArgumentCamouflage.SnapshotOfWellFormed | src/py_func_trace/func_trace.py:119-163 | when every argument name still bound in the frame holds a well-formed value (other locals may be anything), the snapshot never raises, has every name once in order of first occurrence, and maps each to its logged value |
| ArgumentCamouflage.TracedCallExample | tests/test_all.py:34 | the call `all_in_one(5, "b", 123, {"foo": "s", "priv_bar": secret})` is logged as `i: 5, a_string: "b", priv_foo: ******, dic: {"foo": "s", "priv_bar": ******}` for any secret |
| ArgumentCamouflage.DottedKeyRaises | src/py_func_trace/func_trace.py:114 | the pass for a dict argument `{"a.b": x}` raises: its key path `a.b` reads as two keys, and `a` is not in the dict |

## Left out

- `__trace`, `enter` and `leave` (lines 194-231), frame inspection and the log calls (`logger.critical`, `logger.info`): they are I/O around the core. A failed sensitive assignment is modelled as leaving the dict unchanged, without the log line.
- `copy.deepcopy` (line 151): values are immutable in the model, so the camouflaged dict is a new value and the frame's local is untouched by construction. The failure of `deepcopy` on objects such as open files is not modelled.
- Shared sub-dicts and cycles: values are trees, so a dict reachable along two paths is two separate values. `deepcopy` keeps such sharing in the copy, and `glom.assign` (lines 98 and 116) writes through it, so the source also redacts or shortens every other place the shared dict appears. The model does not capture that aliasing.
- Sanitizing.DeepDictKept: holds only for dicts without shared sub-dicts. A dict past the depth limit that is also reachable at a shallower path is changed by the source through that path.
- The settings are parameters rather than mutable module globals, so changing them while a trace runs, and concurrency, are not modelled.
- `glom` is modelled only for string keys and dict containers. List indexes, attribute access and glom's other path forms are not modelled. Non-string keys are not modelled. Under a non-dict value, line 75 raises a `TypeError`. Under a dict value, line 71 formats the key into the path, so the trace does not fail there. The path then fails in glom: the read at line 114 raises for a non-sensitive leaf, and lines 97-112 swallow the failure for a sensitive one. So `{1: {"priv_a": s}}` is logged with `s` in clear, and `{1: {}}` is logged as it is. Keys that glom's text paths may read specially, such as `*` and `**` in glom versions with star paths, are treated as plain keys.
- Dict values are modelled as strings, dicts or opaque printed objects. A subclass of `dict` or `str` is treated as its base class, and integers and other objects are only their printed form.
- Shortening.ShortenString: its length and suffix guarantee is stated only for a limit at least as long as the sign. The negative-stop behaviour below that is stated separately in `ShortenBelowSign`.
- Sanitizing.CamouflageOfKeypaths: proved for well-formed dicts only: unique keys and no `.` inside a key. For other dicts the loop is still modelled, and `DottedKeyRaises` shows one that raises.
- ArgumentCamouflage.SnapshotOfWellFormed: the never-raises result assumes that each bound argument's value is well formed, for the same reason. Locals that are not arguments are unconstrained.
