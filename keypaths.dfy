/** Enumeration of the dotted key paths of every non-dict value inside a dict,
    down to the configured nesting depth. */
module Keypaths {
  import opened PyStrings
  import opened Values
  import opened Settings

  /** `__get_dict_keypaths(a_dict, current_path, depth)`: a call whose depth
      exceeds the limit yields nothing; otherwise the entries are visited in
      order at the next depth, each non-dict value giving one path and each
      dict value the paths of its own entries under `key.`. */
  function GetDictKeypaths(cfg: Config, es: Entries, currentPath: string, depth: int): (r: seq<string>)
    decreases es, 1
    ensures depth > cfg.nestedDictDepthMax ==> r == []
    ensures forall i :: 0 <= i < |r| ==> StartsWith(r[i], currentPath)
  {
    if depth > cfg.nestedDictDepthMax then []
    else ItemKeypaths(cfg, es, currentPath, depth + 1)
  }

  /** The loop of `__get_dict_keypaths` over the remaining entries, at the depth
      handed to nested dicts. */
  function ItemKeypaths(cfg: Config, es: Entries, currentPath: string, depth: int): (r: seq<string>)
    decreases es, 0
    ensures forall i :: 0 <= i < |r| ==> StartsWith(r[i], currentPath)
  {
    match es
    case End => []
    case Entry(k, v, rest) =>
      var here :=
        if v.Dict? then GetDictKeypaths(cfg, v.entries, currentPath + k + ".", depth)
        else [currentPath + k];
      assert forall i :: 0 <= i < |here| ==> StartsWith(here[i], currentPath) by {
        forall i | 0 <= i < |here|
          ensures StartsWith(here[i], currentPath)
        {
          if v.Dict? {
            assert StartsWith(here[i], currentPath + k + ".");
            assert here[i][..|currentPath|] == (currentPath + k + ".")[..|currentPath|];
          } else {
            assert here[i][..|currentPath|] == currentPath;
          }
        }
      }
      here + ItemKeypaths(cfg, rest, currentPath, depth)
  }

  /** `[k] + p` for every path `p`, in order. */
  function Prefixed(k: string, ps: seq<seq<string>>): (r: seq<seq<string>>)
    ensures |r| == |ps|
    ensures forall i :: 0 <= i < |ps| ==> r[i] == [k] + ps[i]
  {
    if ps == [] then [] else [[k] + ps[0]] + Prefixed(k, ps[1..])
  }

  /** The key paths of `__get_dict_keypaths` as sequences of keys rather than
      dotted strings: the paths a call at `depth` reports for the dict `es`. */
  function LeafPaths(cfg: Config, es: Entries, depth: int): (r: seq<seq<string>>)
    decreases es, 1
    ensures forall i :: 0 <= i < |r| ==>
      1 <= |r[i]| <= cfg.nestedDictDepthMax - depth + 1
  {
    if depth > cfg.nestedDictDepthMax then []
    else ItemLeafPaths(cfg, es, depth + 1)
  }

  /** The key paths contributed by the remaining entries, at the depth handed to
      nested dicts. */
  function ItemLeafPaths(cfg: Config, es: Entries, depth: int): (r: seq<seq<string>>)
    decreases es, 0
    requires depth <= cfg.nestedDictDepthMax + 1
    ensures forall i :: 0 <= i < |r| ==>
      1 <= |r[i]| <= cfg.nestedDictDepthMax - depth + 2
  {
    match es
    case End => []
    case Entry(k, v, rest) =>
      var here := if v.Dict? then Prefixed(k, LeafPaths(cfg, v.entries, depth)) else [[k]];
      assert forall i :: 0 <= i < |here| ==>
        1 <= |here[i]| <= cfg.nestedDictDepthMax - depth + 2;
      here + ItemLeafPaths(cfg, rest, depth)
  }

  /** Every path the remaining entries contribute starts with one of their keys. */
  lemma {:induction false} ItemLeafPathsHeads(cfg: Config, es: Entries, depth: int)
    requires depth <= cfg.nestedDictDepthMax + 1
    ensures forall i :: 0 <= i < |ItemLeafPaths(cfg, es, depth)| ==>
      ItemLeafPaths(cfg, es, depth)[i][0] in Keys(es)
  {
    match es
    case End =>
    case Entry(k, v, rest) =>
      ItemLeafPathsHeads(cfg, rest, depth);
      var here := if v.Dict? then Prefixed(k, LeafPaths(cfg, v.entries, depth)) else [[k]];
      var later := ItemLeafPaths(cfg, rest, depth);
      assert ItemLeafPaths(cfg, es, depth) == here + later;
      assert forall i :: 0 <= i < |here| ==> here[i][0] == k;
  }

  /** `prefix` followed by each path joined with `.`. */
  function Joined(prefix: string, ps: seq<seq<string>>): (r: seq<string>)
  {
    seq(|ps|, i requires 0 <= i < |ps| => prefix + Join(ps[i]))
  }

  /** Every key on a reported path is a key of the dict it was read from, so in a
      well-formed dict it contains no `.`. */
  lemma {:induction false} LeafPathsDotFree(cfg: Config, es: Entries, depth: int)
    requires WellFormedEntries(es)
    ensures forall i :: 0 <= i < |LeafPaths(cfg, es, depth)| ==> AllDotFree(LeafPaths(cfg, es, depth)[i])
    decreases es, 1
  {
    if depth <= cfg.nestedDictDepthMax {
      ItemLeafPathsDotFree(cfg, es, depth + 1);
    }
  }

  lemma {:induction false} ItemLeafPathsDotFree(cfg: Config, es: Entries, depth: int)
    requires WellFormedEntries(es)
    requires depth <= cfg.nestedDictDepthMax + 1
    ensures forall i :: 0 <= i < |ItemLeafPaths(cfg, es, depth)| ==> AllDotFree(ItemLeafPaths(cfg, es, depth)[i])
    decreases es, 0
  {
    match es
    case End =>
    case Entry(k, v, rest) =>
      ItemLeafPathsDotFree(cfg, rest, depth);
      if v.Dict? {
        LeafPathsDotFree(cfg, v.entries, depth);
        var inner := LeafPaths(cfg, v.entries, depth);
        var here := Prefixed(k, inner);
        forall i | 0 <= i < |here|
          ensures AllDotFree(here[i])
        {
          assert AllDotFree(inner[i]);
          forall j | 0 <= j < |here[i]|
            ensures DotFree(here[i][j])
          {
            if j > 0 {
              assert here[i][j] == inner[i][j - 1];
            }
          }
        }
      }
      var all := ItemLeafPaths(cfg, es, depth);
      var here := if v.Dict? then Prefixed(k, LeafPaths(cfg, v.entries, depth)) else [[k]];
      assert all == here + ItemLeafPaths(cfg, rest, depth);
  }

  /** Joining distributes over the concatenation of path lists. */
  lemma JoinedAppend(prefix: string, a: seq<seq<string>>, b: seq<seq<string>>)
    ensures Joined(prefix, a + b) == Joined(prefix, a) + Joined(prefix, b)
  {
  }

  /** A path under key `k` joins to `k.` followed by the joined rest. */
  lemma JoinedPrefixed(prefix: string, k: string, ps: seq<seq<string>>)
    requires forall i :: 0 <= i < |ps| ==> |ps[i]| >= 1
    ensures Joined(prefix, Prefixed(k, ps)) == Joined(prefix + k + ".", ps)
  {
    forall i | 0 <= i < |ps|
      ensures Joined(prefix, Prefixed(k, ps))[i] == Joined(prefix + k + ".", ps)[i]
    {
      var p := [k] + ps[i];
      assert p[1..] == ps[i];
      assert Join(p) == k + "." + Join(ps[i]);
    }
  }

  /** The dotted key paths are exactly the key-sequence paths, each joined with
      `.` after the current path, in the same order. */
  lemma {:induction false} KeypathsAreJoinedLeafPaths(cfg: Config, es: Entries, currentPath: string, depth: int)
    ensures GetDictKeypaths(cfg, es, currentPath, depth) == Joined(currentPath, LeafPaths(cfg, es, depth))
    decreases es, 1
  {
    if depth <= cfg.nestedDictDepthMax {
      ItemKeypathsAreJoined(cfg, es, currentPath, depth + 1);
    }
  }

  lemma {:induction false} ItemKeypathsAreJoined(cfg: Config, es: Entries, currentPath: string, depth: int)
    requires depth <= cfg.nestedDictDepthMax + 1
    ensures ItemKeypaths(cfg, es, currentPath, depth) == Joined(currentPath, ItemLeafPaths(cfg, es, depth))
    decreases es, 0
  {
    match es
    case End =>
    case Entry(k, v, rest) =>
      ItemKeypathsAreJoined(cfg, rest, currentPath, depth);
      var here := if v.Dict? then Prefixed(k, LeafPaths(cfg, v.entries, depth)) else [[k]];
      if v.Dict? {
        KeypathsAreJoinedLeafPaths(cfg, v.entries, currentPath + k + ".", depth);
        JoinedPrefixed(currentPath, k, LeafPaths(cfg, v.entries, depth));
      }
      JoinedAppend(currentPath, here, ItemLeafPaths(cfg, rest, depth));
  }

  /** `path` leads from `t` to a value that is not a dict. */
  ghost predicate LeafAt(t: Value, path: seq<string>)
  {
    var g := GetPath(t, path);
    g.Some? && !g.value.Dict?
  }

  /** In a well-formed dict, the reported paths are exactly the paths to
      non-dict values that are at most `limit - depth + 1` keys long: each
      such value is reported, and nothing else (an empty nested dict, a value
      nested too deep) is. */
  lemma {:induction false} LeafPathsExact(cfg: Config, es: Entries, depth: int, p: seq<string>)
    requires WellFormedEntries(es)
    ensures p in LeafPaths(cfg, es, depth) <==>
      1 <= |p| <= cfg.nestedDictDepthMax - depth + 1 && LeafAt(Dict(es), p)
    decreases es, 2
  {
    if depth <= cfg.nestedDictDepthMax {
      assert LeafPaths(cfg, es, depth) == ItemLeafPaths(cfg, es, depth + 1);
      ItemLeafPathsExact(cfg, es, depth + 1, p);
    } else {
      assert LeafPaths(cfg, es, depth) == [];
    }
  }

  lemma {:induction false} ItemLeafPathsExact(cfg: Config, es: Entries, depth: int, p: seq<string>)
    requires WellFormedEntries(es)
    requires depth <= cfg.nestedDictDepthMax + 1
    ensures p in ItemLeafPaths(cfg, es, depth) <==>
      1 <= |p| <= cfg.nestedDictDepthMax - depth + 2 && LeafAt(Dict(es), p)
    decreases es, 1
  {
    match es
    case End =>
    case Entry(k, v, rest) =>
      var here := if v.Dict? then Prefixed(k, LeafPaths(cfg, v.entries, depth)) else [[k]];
      var later := ItemLeafPaths(cfg, rest, depth);
      assert ItemLeafPaths(cfg, es, depth) == here + later;
      ItemLeafPathsExact(cfg, rest, depth, p);
      if |p| >= 1 && p[0] == k {
        ItemLeafPathsHeads(cfg, rest, depth);
        assert p !in later;
        EntryLeafPathsExact(cfg, k, v, rest, depth, p);
      } else if |p| >= 1 {
        assert p !in here;
        assert GetPath(Dict(es), p) == GetPath(Dict(rest), p);
      } else {
        assert p !in here && p !in later;
      }
  }

  /** The paths the entry `k: v` contributes are the paths through `k`. */
  lemma {:induction false} EntryLeafPathsExact(cfg: Config, k: string, v: Value, rest: Entries, depth: int, p: seq<string>)
    requires WellFormed(v)
    requires depth <= cfg.nestedDictDepthMax + 1
    requires |p| >= 1 && p[0] == k
    ensures p in (if v.Dict? then Prefixed(k, LeafPaths(cfg, v.entries, depth)) else [[k]]) <==>
      |p| <= cfg.nestedDictDepthMax - depth + 2 && LeafAt(Dict(Entry(k, v, rest)), p)
    decreases Entry(k, v, rest), 0
  {
    assert GetPath(Dict(Entry(k, v, rest)), p) == GetPath(v, p[1..]);
    if v.Dict? {
      PrefixedMember(k, LeafPaths(cfg, v.entries, depth), p);
      LeafPathsExact(cfg, v.entries, depth, p[1..]);
    } else {
      assert p in [[k]] <==> p == [k];
      assert |p| > 1 ==> GetPath(v, p[1..]) == None;
    }
  }

  /** A path is among the paths under `k` exactly when it starts with `k` and
      continues with one of them. */
  lemma PrefixedMember(k: string, ps: seq<seq<string>>, p: seq<string>)
    requires |p| >= 1
    ensures p in Prefixed(k, ps) <==> p[0] == k && p[1..] in ps
  {
    var r := Prefixed(k, ps);
    if p in r {
      var i :| 0 <= i < |r| && r[i] == p;
      assert p[1..] == ps[i];
    }
    if p[0] == k && p[1..] in ps {
      var i :| 0 <= i < |ps| && ps[i] == p[1..];
      assert r[i] == p;
    }
  }

  /** No key path the enumeration starts at depth 0 has more than `limit + 1`
      keys. */
  lemma KeypathDepthBound(cfg: Config, es: Entries)
    requires WellFormedEntries(es)
    ensures forall i :: 0 <= i < |GetDictKeypaths(cfg, es, "", 0)| ==>
      |Split(GetDictKeypaths(cfg, es, "", 0)[i])| <= cfg.nestedDictDepthMax + 1
  {
    KeypathsAreJoinedLeafPaths(cfg, es, "", 0);
    LeafPathsDotFree(cfg, es, 0);
    var ps := LeafPaths(cfg, es, 0);
    forall i | 0 <= i < |ps|
      ensures |Split(GetDictKeypaths(cfg, es, "", 0)[i])| <= cfg.nestedDictDepthMax + 1
    {
      assert GetDictKeypaths(cfg, es, "", 0)[i] == "" + Join(ps[i]) == Join(ps[i]);
      SplitJoin(ps[i]);
    }
  }

  /** No element occurs twice. */
  ghost predicate Distinct<T>(s: seq<T>)
  {
    forall i, j :: 0 <= i < j < |s| ==> s[i] != s[j]
  }

  /** In a well-formed dict every leaf is reported once: no key sequence occurs
      twice. */
  lemma {:induction false} LeafPathsDistinct(cfg: Config, es: Entries, depth: int)
    requires WellFormedEntries(es)
    ensures Distinct(LeafPaths(cfg, es, depth))
    decreases es, 2
  {
    if depth <= cfg.nestedDictDepthMax {
      assert LeafPaths(cfg, es, depth) == ItemLeafPaths(cfg, es, depth + 1);
      ItemLeafPathsDistinct(cfg, es, depth + 1);
    }
  }

  lemma {:induction false} ItemLeafPathsDistinct(cfg: Config, es: Entries, depth: int)
    requires WellFormedEntries(es)
    requires depth <= cfg.nestedDictDepthMax + 1
    ensures Distinct(ItemLeafPaths(cfg, es, depth))
    decreases es, 1
  {
    match es
    case End =>
    case Entry(k, v, rest) =>
      var here := if v.Dict? then Prefixed(k, LeafPaths(cfg, v.entries, depth)) else [[k]];
      var later := ItemLeafPaths(cfg, rest, depth);
      assert ItemLeafPaths(cfg, es, depth) == here + later;
      if v.Dict? {
        var ps := LeafPaths(cfg, v.entries, depth);
        LeafPathsDistinct(cfg, v.entries, depth);
        forall i, j | 0 <= i < j < |here|
          ensures here[i] != here[j]
        {
          assert here[i][1..] == ps[i] && here[j][1..] == ps[j];
        }
      }
      assert forall i :: 0 <= i < |here| ==> here[i][0] == k;
      ItemLeafPathsDistinct(cfg, rest, depth);
      ItemLeafPathsHeads(cfg, rest, depth);
      forall i, j | 0 <= i < |here| && 0 <= j < |later|
        ensures here[i] != later[j]
      {
        assert later[j][0] in Keys(rest);
      }
  }

  /** `__get_dict_keypaths` of a well-formed dict reports no key path twice. */
  lemma KeypathsDistinct(cfg: Config, es: Entries)
    requires WellFormedEntries(es)
    ensures Distinct(GetDictKeypaths(cfg, es, "", 0))
  {
    KeypathsAreJoinedLeafPaths(cfg, es, "", 0);
    LeafPathsDotFree(cfg, es, 0);
    LeafPathsDistinct(cfg, es, 0);
    var ps := LeafPaths(cfg, es, 0);
    var r := GetDictKeypaths(cfg, es, "", 0);
    forall i, j | 0 <= i < j < |r|
      ensures r[i] != r[j]
    {
      assert r[i] == "" + Join(ps[i]) == Join(ps[i]);
      assert r[j] == "" + Join(ps[j]) == Join(ps[j]);
      SplitJoin(ps[i]);
      SplitJoin(ps[j]);
    }
  }

  /** The position of `k` among the dict's keys, or the number of keys when it
      is absent. */
  function KeyPos(es: Entries, k: string): (r: nat)
    ensures k in Keys(es) ==> r < |Keys(es)| && Keys(es)[r] == k && k !in Keys(es)[..r]
    ensures k !in Keys(es) ==> r == |Keys(es)|
  {
    match es
    case End => 0
    case Entry(k', _, rest) =>
      if k' == k then 0
      else
        assert Keys(es)[1..] == Keys(rest);
        assert Keys(es)[..1 + KeyPos(rest, k)] == [k'] + Keys(rest)[..KeyPos(rest, k)];
        1 + KeyPos(rest, k)
  }

  /** `p` comes before `q` in depth-first iteration order of the dict `es`,
      told apart at position `d`: they agree on the keys before `d`, and at `d`
      the dict they lead to iterates `p[d]` before `q[d]`. */
  ghost predicate BeforeAt(es: Entries, p: seq<string>, q: seq<string>, d: int)
  {
    && 0 <= d < |p| && d < |q|
    && p[..d] == q[..d]
    && p[d] != q[d]
    && var g := GetPath(Dict(es), p[..d]);
       g.Some? && g.value.Dict? && KeyPos(g.value.entries, p[d]) < KeyPos(g.value.entries, q[d])
  }

  /** `p` comes before `q` in depth-first iteration order of `es`. */
  ghost predicate Before(es: Entries, p: seq<string>, q: seq<string>)
  {
    exists d :: BeforeAt(es, p, q, d)
  }

  /** Two paths under the same key keep the order they have below it. */
  lemma BeforeUnder(es: Entries, k: string, inner: Entries, p: seq<string>, q: seq<string>)
    requires Lookup(es, k) == Some(Dict(inner))
    requires Before(inner, p, q)
    ensures Before(es, [k] + p, [k] + q)
  {
    var d :| BeforeAt(inner, p, q, d);
    var p', q' := [k] + p, [k] + q;
    assert p'[..d + 1] == [k] + p[..d];
    assert q'[..d + 1] == [k] + q[..d];
    assert ([k] + p[..d])[1..] == p[..d];
    assert GetPath(Dict(es), p'[..d + 1]) == GetPath(Dict(inner), p[..d]);
    assert BeforeAt(es, p', q', d + 1);
  }

  /** A path under the first key comes before a path under a later key. */
  lemma BeforeFirst(k: string, v: Value, rest: Entries, p: seq<string>, q: seq<string>)
    requires k !in Keys(rest)
    requires |p| >= 1 && |q| >= 1 && p[0] == k && q[0] in Keys(rest)
    ensures Before(Entry(k, v, rest), p, q)
  {
    var es := Entry(k, v, rest);
    assert p[..0] == q[..0];
    assert GetPath(Dict(es), p[..0]) == Some(Dict(es));
    assert KeyPos(es, q[0]) == 1 + KeyPos(rest, q[0]);
    assert BeforeAt(es, p, q, 0);
  }

  /** Two paths under later keys keep the order they have among those keys. */
  lemma BeforeBeside(k: string, v: Value, rest: Entries, p: seq<string>, q: seq<string>)
    requires Before(rest, p, q)
    requires |p| >= 1 && |q| >= 1 && p[0] != k && q[0] != k
    ensures Before(Entry(k, v, rest), p, q)
  {
    var es := Entry(k, v, rest);
    var d :| BeforeAt(rest, p, q, d);
    if d == 0 {
      assert KeyPos(es, p[0]) == 1 + KeyPos(rest, p[0]);
      assert KeyPos(es, q[0]) == 1 + KeyPos(rest, q[0]);
      assert GetPath(Dict(es), p[..0]) == Some(Dict(es));
      assert GetPath(Dict(rest), p[..0]) == Some(Dict(rest));
    } else {
      assert p[..d][0] == p[0];
      assert GetPath(Dict(es), p[..d]) == GetPath(Dict(rest), p[..d]);
    }
    assert BeforeAt(es, p, q, d);
  }

  /** The paths a call at `depth` reports come in depth-first iteration order:
      every path comes before every later one, at whatever level they part. */
  lemma {:induction false} LeafPathsDfsOrder(cfg: Config, es: Entries, depth: int)
    requires WellFormedEntries(es)
    ensures Ordered(es, LeafPaths(cfg, es, depth))
    decreases es, 2
  {
    if depth <= cfg.nestedDictDepthMax {
      assert LeafPaths(cfg, es, depth) == ItemLeafPaths(cfg, es, depth + 1);
      ItemLeafPathsDfsOrder(cfg, es, depth + 1);
    }
  }

  lemma {:induction false} ItemLeafPathsDfsOrder(cfg: Config, es: Entries, depth: int)
    requires WellFormedEntries(es)
    requires depth <= cfg.nestedDictDepthMax + 1
    ensures Ordered(es, ItemLeafPaths(cfg, es, depth))
    decreases es, 1
  {
    match es
    case End =>
    case Entry(k, v, rest) =>
      var later := ItemLeafPaths(cfg, rest, depth);
      ItemLeafPathsDfsOrder(cfg, rest, depth);
      ItemLeafPathsHeads(cfg, rest, depth);
      BesideAll(k, v, rest, later);
      if v.Dict? {
        var ps := LeafPaths(cfg, v.entries, depth);
        LeafPathsDfsOrder(cfg, v.entries, depth);
        UnderAll(es, k, v.entries, ps);
        FirstAll(k, v, rest, Prefixed(k, ps), later);
        OrderedConcat(es, Prefixed(k, ps), later);
        assert ItemLeafPaths(cfg, es, depth) == Prefixed(k, ps) + later;
      } else {
        FirstAll(k, v, rest, [[k]], later);
        OrderedConcat(es, [[k]], later);
        assert ItemLeafPaths(cfg, es, depth) == [[k]] + later;
      }
  }

  /** Every path of `ps` comes before every later one. */
  ghost predicate Ordered(es: Entries, ps: seq<seq<string>>)
  {
    forall i, j :: 0 <= i < j < |ps| ==> Before(es, ps[i], ps[j])
  }

  /** Two ordered lists, each path of the first before each of the second,
      make an ordered list. */
  lemma OrderedConcat(es: Entries, a: seq<seq<string>>, b: seq<seq<string>>)
    requires Ordered(es, a) && Ordered(es, b)
    requires forall i, j :: 0 <= i < |a| && 0 <= j < |b| ==> Before(es, a[i], b[j])
    ensures Ordered(es, a + b)
  {
    forall i, j | 0 <= i < j < |a + b|
      ensures Before(es, (a + b)[i], (a + b)[j])
    {
      if j < |a| {
        assert (a + b)[i] == a[i] && (a + b)[j] == a[j];
      } else if i < |a| {
        assert (a + b)[i] == a[i] && (a + b)[j] == b[j - |a|];
      } else {
        assert (a + b)[i] == b[i - |a|] && (a + b)[j] == b[j - |a|];
      }
    }
  }

  /** The paths of a nested dict, put under its key, keep their order. */
  lemma UnderAll(es: Entries, k: string, inner: Entries, ps: seq<seq<string>>)
    requires Lookup(es, k) == Some(Dict(inner))
    requires Ordered(inner, ps)
    ensures Ordered(es, Prefixed(k, ps))
  {
    var r := Prefixed(k, ps);
    forall i, j | 0 <= i < j < |r|
      ensures Before(es, r[i], r[j])
    {
      BeforeUnder(es, k, inner, ps[i], ps[j]);
    }
  }

  /** Paths under the first key come before paths under later keys. */
  lemma FirstAll(k: string, v: Value, rest: Entries, here: seq<seq<string>>, later: seq<seq<string>>)
    requires k !in Keys(rest)
    requires forall i :: 0 <= i < |here| ==> |here[i]| >= 1 && here[i][0] == k
    requires forall j :: 0 <= j < |later| ==> |later[j]| >= 1 && later[j][0] in Keys(rest)
    ensures forall i, j :: 0 <= i < |here| && 0 <= j < |later| ==> Before(Entry(k, v, rest), here[i], later[j])
  {
    forall i, j | 0 <= i < |here| && 0 <= j < |later|
      ensures Before(Entry(k, v, rest), here[i], later[j])
    {
      BeforeFirst(k, v, rest, here[i], later[j]);
    }
  }

  /** Paths under later keys keep their order once the first entry is added. */
  lemma BesideAll(k: string, v: Value, rest: Entries, later: seq<seq<string>>)
    requires k !in Keys(rest)
    requires Ordered(rest, later)
    requires forall j :: 0 <= j < |later| ==> |later[j]| >= 1 && later[j][0] in Keys(rest)
    ensures Ordered(Entry(k, v, rest), later)
  {
    forall i, j | 0 <= i < j < |later|
      ensures Before(Entry(k, v, rest), later[i], later[j])
    {
      BeforeBeside(k, v, rest, later[i], later[j]);
    }
  }

  /** `{"a": 1, "b": 2}` is reported as `["a", "b"]`. */
  lemma FlatKeypathsExample(cfg: Config)
    requires cfg.nestedDictDepthMax >= 0
    ensures GetDictKeypaths(cfg, Entry("a", Scalar("1"), Entry("b", Scalar("2"), End)), "", 0) == ["a", "b"]
  {
    var es := Entry("a", Scalar("1"), Entry("b", Scalar("2"), End));
    KeypathsAreJoinedLeafPaths(cfg, es, "", 0);
    assert LeafPaths(cfg, es, 0) == [["a"], ["b"]];
    assert Joined("", [["a"], ["b"]]) == ["" + Join(["a"]), "" + Join(["b"])];
  }

  /** `{"a": {"b": 1}}` is reported as `["a.b"]`. */
  lemma NestedKeypathsExample(cfg: Config)
    requires cfg.nestedDictDepthMax >= 1
    ensures GetDictKeypaths(cfg, Entry("a", Dict(Entry("b", Scalar("1"), End)), End), "", 0) == ["a.b"]
  {
    var inner := Entry("b", Scalar("1"), End);
    var es := Entry("a", Dict(inner), End);
    KeypathsAreJoinedLeafPaths(cfg, es, "", 0);
    assert LeafPaths(cfg, inner, 1) == [["b"]];
    assert ["a"] + ["b"] == ["a", "b"];
    assert Prefixed("a", [["b"]]) == [["a", "b"]];
    assert LeafPaths(cfg, es, 0) == [["a", "b"]];
    assert Join(["a", "b"]) == "a" + "." + Join(["a", "b"][1..]);
    assert ["a", "b"][1..] == ["b"];
    assert Join(["b"]) == "b";
    assert "" + ("a" + "." + "b") == "a.b";
    assert Joined("", [["a", "b"]]) == ["" + Join(["a", "b"])];
  }
}
