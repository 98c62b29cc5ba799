/** What the path-by-path camouflage of a dict argument amounts to, stated as a
    recursive rewrite of the dict: a sensitive key on a reported path shows the
    sign, other values are shortened, and dicts nested past the depth limit are
    kept as they are. A sensitive key whose dict value holds no reported leaf
    is kept as it is, keys included. */
module Sanitizing {
  import opened PyStrings
  import opened Values
  import opened Settings
  import opened Shortening
  import opened Keypaths
  import opened NestedCamouflage

  /** A key that the nested camouflage treats as sensitive: it contains "priv_". */
  predicate Sensitive(k: string)
  {
    Contains(k, PrivPrefix)
  }

  /** The dict `es`, reached by a call of the enumeration at `depth`, after
      camouflage. */
  function Sanitized(cfg: Config, es: Entries, depth: int): Entries
    decreases es, 2
  {
    if depth > cfg.nestedDictDepthMax then es
    else SanitizedItems(cfg, es, depth + 1)
  }

  /** The remaining entries after camouflage, at the depth handed to nested dicts. */
  function SanitizedItems(cfg: Config, es: Entries, depth: int): Entries
    decreases es, 1
  {
    match es
    case End => End
    case Entry(k, v, rest) => Entry(k, SanitizedValue(cfg, k, v, depth), SanitizedItems(cfg, rest, depth))
  }

  /** The value under key `k`: a sensitive key whose value holds a reported
      path shows the sign, a non-sensitive dict is camouflaged in turn, and any
      other value is shortened. */
  function SanitizedValue(cfg: Config, k: string, v: Value, depth: int): Value
    decreases v, 0
  {
    if Sensitive(k) then
      if v.Dict? && LeafPaths(cfg, v.entries, depth) == [] then v else Str(cfg.camouflageSign)
    else if v.Dict? then Dict(Sanitized(cfg, v.entries, depth))
    else ShortenString(cfg, v)
  }

  // Running the loop on a dict entry by entry.

  /** Running the loop over two lists of paths is running it over the first and
      then, unless that raised, over the second. */
  lemma {:induction false} OnPathsAppend(cfg: Config, t: Value, a: seq<seq<string>>, b: seq<seq<string>>)
    requires NonEmptyPaths(a) && NonEmptyPaths(b)
    ensures NonEmptyPaths(a + b)
    ensures CamouflagedOnPaths(cfg, t, a + b) ==
      match CamouflagedOnPaths(cfg, t, a)
      case Ok(t') => CamouflagedOnPaths(cfg, t', b)
      case Raised => Raised
    decreases |a|
  {
    if a != [] {
      assert (a + b)[0] == a[0] && (a + b)[1..] == a[1..] + b;
      match StepOnPath(cfg, t, a[0])
      case Ok(t') => OnPathsAppend(cfg, t', a[1..], b);
      case Raised =>
    } else {
      assert a + b == b;
    }
  }

  /** Reading and writing below key `k` of the first entry is reading and
      writing in that entry's value. */
  lemma PathUnderKey(k: string, w: Value, rest: Entries, q: seq<string>, x: Value)
    requires |q| >= 1
    ensures GetPath(Dict(Entry(k, w, rest)), [k] + q) == GetPath(w, q)
    ensures SetPath(Dict(Entry(k, w, rest)), [k] + q, x) ==
      match SetPath(w, q, x)
      case Some(w') => Some(Dict(Entry(k, w', rest)))
      case None => None
  {
    assert ([k] + q)[0] == k && ([k] + q)[1..] == q;
  }

  /** Reading and writing along a path that does not start with the key of the
      first entry is reading and writing in the later entries. */
  lemma PathBesideKey(k: string, v: Value, rest: Entries, p: seq<string>, x: Value)
    requires |p| >= 1 && p[0] != k
    ensures GetPath(Dict(Entry(k, v, rest)), p) == GetPath(Dict(rest), p)
    ensures SetPath(Dict(Entry(k, v, rest)), p, x) ==
      match SetPath(Dict(rest), p, x)
      case Some(u) => Some(Dict(Entry(k, v, u.entries)))
      case None => None
  {
  }

  /** A pass over `k.q` for a non-sensitive `k` is the pass over `q` inside the
      value of `k`. */
  lemma StepUnderKey(cfg: Config, k: string, w: Value, rest: Entries, q: seq<string>)
    requires |q| >= 1
    requires !Sensitive(k)
    ensures StepOnPath(cfg, Dict(Entry(k, w, rest)), [k] + q) ==
      match StepOnPath(cfg, w, q)
      case Ok(w') => Ok(Dict(Entry(k, w', rest)))
      case Raised => Raised
  {
    var p := [k] + q;
    assert p[0] == k && p[1..] == q;
    PathUnderKey(k, w, rest, q, Str(cfg.camouflageSign));
    match FirstSensitive(q)
    case Some(i) =>
      assert FirstSensitive(p) == Some(i + 1);
      assert p[..i + 2] == [k] + q[..i + 1];
      PathUnderKey(k, w, rest, q[..i + 1], Str(cfg.camouflageSign));
    case None =>
      assert FirstSensitive(p) == None;
      match GetPath(w, q)
      case Some(v) => PathUnderKey(k, w, rest, q, ShortenString(cfg, v));
      case None =>
  }

  /** The loop over paths under a non-sensitive `k` works inside its value. */
  lemma {:induction false} FoldUnderKey(cfg: Config, k: string, w: Value, rest: Entries, qs: seq<seq<string>>)
    requires NonEmptyPaths(qs)
    requires !Sensitive(k)
    ensures NonEmptyPaths(Prefixed(k, qs))
    ensures CamouflagedOnPaths(cfg, Dict(Entry(k, w, rest)), Prefixed(k, qs)) ==
      match CamouflagedOnPaths(cfg, w, qs)
      case Ok(w') => Ok(Dict(Entry(k, w', rest)))
      case Raised => Raised
    decreases |qs|
  {
    var ps := Prefixed(k, qs);
    if qs != [] {
      assert ps[1..] == Prefixed(k, qs[1..]);
      StepUnderKey(cfg, k, w, rest, qs[0]);
      match StepOnPath(cfg, w, qs[0])
      case Ok(w') => FoldUnderKey(cfg, k, w', rest, qs[1..]);
      case Raised =>
    }
  }

  /** A pass over a path that avoids the first key leaves that entry alone. */
  lemma StepBesideKey(cfg: Config, k: string, v: Value, rest: Entries, p: seq<string>)
    requires |p| >= 1 && p[0] != k
    ensures StepOnPath(cfg, Dict(Entry(k, v, rest)), p) ==
      match StepOnPath(cfg, Dict(rest), p)
      case Ok(u) => Ok(Dict(Entry(k, v, u.entries)))
      case Raised => Raised
  {
    PathBesideKey(k, v, rest, p, Str(cfg.camouflageSign));
    match FirstSensitive(p)
    case Some(i) =>
      PathBesideKey(k, v, rest, p[..i + 1], Str(cfg.camouflageSign));
    case None =>
      match GetPath(Dict(rest), p)
      case Some(x) => PathBesideKey(k, v, rest, p, ShortenString(cfg, x));
      case None =>
  }

  /** The loop over paths that avoid the first key works on the later entries. */
  lemma {:induction false} FoldBesideKey(cfg: Config, k: string, v: Value, rest: Entries, ps: seq<seq<string>>)
    requires NonEmptyPaths(ps)
    requires forall i :: 0 <= i < |ps| ==> ps[i][0] != k
    ensures CamouflagedOnPaths(cfg, Dict(Entry(k, v, rest)), ps) ==
      match CamouflagedOnPaths(cfg, Dict(rest), ps)
      case Ok(u) => Ok(Dict(Entry(k, v, u.entries)))
      case Raised => Raised
    decreases |ps|
  {
    if ps != [] {
      StepBesideKey(cfg, k, v, rest, ps[0]);
      match StepOnPath(cfg, Dict(rest), ps[0])
      case Ok(u) => FoldBesideKey(cfg, k, v, u.entries, ps[1..]);
      case Raised =>
    }
  }

  /** Every path through a sensitive first key replaces its value by the sign;
      with no such path the value stays. */
  lemma {:induction false} FoldSensitiveKey(cfg: Config, k: string, v: Value, rest: Entries, ps: seq<seq<string>>)
    requires NonEmptyPaths(ps)
    requires Sensitive(k)
    requires forall i :: 0 <= i < |ps| ==> ps[i][0] == k
    ensures CamouflagedOnPaths(cfg, Dict(Entry(k, v, rest)), ps) ==
      Ok(Dict(Entry(k, if ps == [] then v else Str(cfg.camouflageSign), rest)))
    decreases |ps|
  {
    if ps != [] {
      var p := ps[0];
      assert FirstSensitive(p) == Some(0);
      assert p[..1] == [k];
      FoldSensitiveKey(cfg, k, Str(cfg.camouflageSign), rest, ps[1..]);
    }
  }

  /** A non-sensitive key whose value is not a dict has that value shortened. */
  lemma StepOnLeafKey(cfg: Config, k: string, v: Value, rest: Entries)
    requires !Sensitive(k)
    ensures CamouflagedOnPaths(cfg, Dict(Entry(k, v, rest)), [[k]]) ==
      Ok(Dict(Entry(k, ShortenString(cfg, v), rest)))
  {
    var t := Dict(Entry(k, v, rest));
    assert FirstSensitive([k]) == None by {
      assert [k][1..] == [];
    }
    assert GetPath(t, [k]) == Some(v) by {
      assert [k][1..] == [];
    }
    assert StepOnPath(cfg, t, [k]) == Ok(Dict(Entry(k, ShortenString(cfg, v), rest)));
    assert [[k]][1..] == [];
  }

  // The loop computes the rewrite.

  /** For a well-formed dict, the loop over the reported key paths of a call at
      `depth` never raises and yields the sanitized dict. */
  lemma {:induction false} DictSanitized(cfg: Config, es: Entries, depth: int)
    requires WellFormedEntries(es)
    ensures NonEmptyPaths(LeafPaths(cfg, es, depth))
    ensures CamouflagedOnPaths(cfg, Dict(es), LeafPaths(cfg, es, depth)) == Ok(Dict(Sanitized(cfg, es, depth)))
    decreases es, 2
  {
    if depth <= cfg.nestedDictDepthMax {
      assert LeafPaths(cfg, es, depth) == ItemLeafPaths(cfg, es, depth + 1);
      assert Sanitized(cfg, es, depth) == SanitizedItems(cfg, es, depth + 1);
      ItemsSanitized(cfg, es, depth + 1);
    } else {
      assert LeafPaths(cfg, es, depth) == [];
    }
  }

  lemma {:induction false} ItemsSanitized(cfg: Config, es: Entries, depth: int)
    requires WellFormedEntries(es)
    requires depth <= cfg.nestedDictDepthMax + 1
    ensures NonEmptyPaths(ItemLeafPaths(cfg, es, depth))
    ensures CamouflagedOnPaths(cfg, Dict(es), ItemLeafPaths(cfg, es, depth)) == Ok(Dict(SanitizedItems(cfg, es, depth)))
    decreases es, 1
  {
    match es
    case End =>
    case Entry(k, v, rest) =>
      var here := if v.Dict? then Prefixed(k, LeafPaths(cfg, v.entries, depth)) else [[k]];
      var later := ItemLeafPaths(cfg, rest, depth);
      assert ItemLeafPaths(cfg, es, depth) == here + later;
      var v' := SanitizedValue(cfg, k, v, depth);
      ItemsSanitized(cfg, rest, depth);
      assert NonEmptyPaths(here);
      OnPathsAppend(cfg, Dict(es), here, later);
      if Sensitive(k) {
        FoldSensitiveKey(cfg, k, v, rest, here);
      } else if v.Dict? {
        DictSanitized(cfg, v.entries, depth);
        FoldUnderKey(cfg, k, v, rest, LeafPaths(cfg, v.entries, depth));
      } else {
        StepOnLeafKey(cfg, k, v, rest);
      }
      assert CamouflagedOnPaths(cfg, Dict(es), here) == Ok(Dict(Entry(k, v', rest)));
      ItemLeafPathsHeads(cfg, rest, depth);
      FoldBesideKey(cfg, k, v', rest, later);
  }

  /** The loop of `__camouflage_nested_dict` over the key paths that
      `__get_dict_keypaths` reports for a well-formed dict never raises, and
      leaves the dict sanitized. */
  lemma CamouflageOfKeypaths(cfg: Config, es: Entries)
    requires WellFormedEntries(es)
    ensures Camouflaged(cfg, Dict(es), GetDictKeypaths(cfg, es, "", 0)) == Ok(Dict(Sanitized(cfg, es, 0)))
  {
    KeypathsAreJoinedLeafPaths(cfg, es, "", 0);
    LeafPathsDotFree(cfg, es, 0);
    DictSanitized(cfg, es, 0);
    CamouflagedJoined(cfg, Dict(es), LeafPaths(cfg, es, 0));
  }

  // What the rewrite does to the dict.

  /** Camouflage keeps every key, in order, and keeps the dict well formed. */
  lemma {:induction false} SanitizedKeys(cfg: Config, es: Entries, depth: int)
    requires WellFormedEntries(es)
    ensures Keys(Sanitized(cfg, es, depth)) == Keys(es)
    ensures WellFormedEntries(Sanitized(cfg, es, depth))
    decreases es, 2
  {
    if depth <= cfg.nestedDictDepthMax {
      SanitizedItemsKeys(cfg, es, depth + 1);
    }
  }

  lemma {:induction false} SanitizedItemsKeys(cfg: Config, es: Entries, depth: int)
    requires WellFormedEntries(es)
    ensures Keys(SanitizedItems(cfg, es, depth)) == Keys(es)
    ensures WellFormedEntries(SanitizedItems(cfg, es, depth))
    decreases es, 1
  {
    match es
    case End =>
    case Entry(k, v, rest) =>
      SanitizedItemsKeys(cfg, rest, depth);
      if v.Dict? && !Sensitive(k) {
        SanitizedKeys(cfg, v.entries, depth);
      }
  }

  /** Looking a key up after camouflage finds its sanitized value. */
  lemma {:induction false} LookupSanitized(cfg: Config, es: Entries, depth: int, k: string)
    ensures Lookup(SanitizedItems(cfg, es, depth), k) ==
      match Lookup(es, k)
      case Some(v) => Some(SanitizedValue(cfg, k, v, depth))
      case None => None
  {
    match es
    case End =>
    case Entry(k', v, rest) =>
      if k' != k {
        LookupSanitized(cfg, rest, depth, k);
      }
  }

  /** Along a path whose keys before the last are not sensitive and which is no
      longer than the enumeration descends, the sanitized dict holds the
      sanitized value of what the original held, at the depth the path reaches. */
  lemma {:induction false} SanitizedAlongPath(cfg: Config, es: Entries, depth: int, p: seq<string>)
    requires 1 <= |p| <= cfg.nestedDictDepthMax - depth + 1
    requires forall j :: 0 <= j < |p| - 1 ==> !Sensitive(p[j])
    requires GetPath(Dict(es), p).Some?
    ensures GetPath(Dict(Sanitized(cfg, es, depth)), p) ==
      Some(SanitizedValue(cfg, p[|p| - 1], GetPath(Dict(es), p).value, depth + |p|))
    decreases |p|
  {
    var k, q := p[0], p[1..];
    var v := Lookup(es, k).value;
    LookupSanitized(cfg, es, depth + 1, k);
    if |p| > 1 {
      assert !Sensitive(k);
      assert v.Dict?;
      assert q[|q| - 1] == p[|p| - 1];
      SanitizedAlongPath(cfg, v.entries, depth + 1, q);
    }
  }

  /** A reported path whose keys are all non-sensitive ends at the shortened
      value. */
  lemma ShortenedLeaf(cfg: Config, es: Entries, p: seq<string>)
    requires WellFormedEntries(es)
    requires p in LeafPaths(cfg, es, 0)
    requires FirstSensitive(p).None?
    ensures GetPath(Dict(es), p).Some? && !GetPath(Dict(es), p).value.Dict?
    ensures GetPath(Dict(Sanitized(cfg, es, 0)), p) ==
      Some(ShortenString(cfg, GetPath(Dict(es), p).value))
  {
    LeafPathsExact(cfg, es, 0, p);
    SanitizedAlongPath(cfg, es, 0, p);
  }

  /** A reported path that passes through a sensitive key ends, after
      camouflage, at the sign: the first sensitive key on it holds the sign. */
  lemma RedactedAtFirstSensitiveKey(cfg: Config, es: Entries, p: seq<string>)
    requires WellFormedEntries(es)
    requires p in LeafPaths(cfg, es, 0)
    requires FirstSensitive(p).Some?
    ensures GetPath(Dict(Sanitized(cfg, es, 0)), p[..FirstSensitive(p).value + 1]) ==
      Some(Str(cfg.camouflageSign))
  {
    LeafPathsExact(cfg, es, 0, p);
    var i := FirstSensitive(p).value;
    var a, b := p[..i + 1], p[i + 1..];
    assert p == a + b;
    GetPathAppend(Dict(es), a, b);
    SanitizedAlongPath(cfg, es, 0, a);
    var v := GetPath(Dict(es), a).value;
    if b != [] {
      assert v.Dict?;
      WellFormedAlongPath(Dict(es), a);
      LeafPathsExact(cfg, v.entries, i + 1, b);
      assert b in LeafPaths(cfg, v.entries, i + 1);
    }
  }

  /** A dict reached by a path of non-sensitive keys as long as the enumeration
      descends is kept as it is, sensitive keys inside it included. */
  lemma DeepDictKept(cfg: Config, es: Entries, p: seq<string>, inner: Entries)
    requires 0 <= cfg.nestedDictDepthMax
    requires |p| == cfg.nestedDictDepthMax + 1
    requires forall j :: 0 <= j < |p| ==> !Sensitive(p[j])
    requires GetPath(Dict(es), p) == Some(Dict(inner))
    ensures GetPath(Dict(Sanitized(cfg, es, 0)), p) == Some(Dict(inner))
  {
    SanitizedAlongPath(cfg, es, 0, p);
  }

  /** A sensitive key whose value is a dict without a leaf within the depth
      limit lies on no reported path, so it is logged as it is, keys included,
      wherever it sits below non-sensitive keys. */
  lemma SensitiveKeyWithoutLeafKept(cfg: Config, es: Entries, p: seq<string>, inner: Entries)
    requires WellFormedEntries(es)
    requires 1 <= |p| <= cfg.nestedDictDepthMax + 1
    requires forall j :: 0 <= j < |p| - 1 ==> !Sensitive(p[j])
    requires Sensitive(p[|p| - 1])
    requires GetPath(Dict(es), p) == Some(Dict(inner))
    requires forall q :: 1 <= |q| <= cfg.nestedDictDepthMax - |p| + 1 ==> !LeafAt(Dict(inner), q)
    ensures GetPath(Dict(Sanitized(cfg, es, 0)), p) == Some(Dict(inner))
  {
    WellFormedAlongPath(Dict(es), p);
    assert WellFormedEntries(inner);
    NoLeafNoPaths(cfg, inner, |p|);
    KeptValue(cfg, p[|p| - 1], inner, |p|);
    SanitizedAlongPath(cfg, es, 0, p);
  }

  lemma KeptValue(cfg: Config, k: string, inner: Entries, depth: int)
    requires Sensitive(k)
    requires LeafPaths(cfg, inner, depth) == []
    ensures SanitizedValue(cfg, k, Dict(inner), depth) == Dict(inner)
  {
  }

  /** A dict without a leaf within the depth limit has no reported path. */
  lemma NoLeafNoPaths(cfg: Config, inner: Entries, depth: int)
    requires WellFormedEntries(inner)
    requires forall q :: 1 <= |q| <= cfg.nestedDictDepthMax - depth + 1 ==> !LeafAt(Dict(inner), q)
    ensures LeafPaths(cfg, inner, depth) == []
  {
    var ps := LeafPaths(cfg, inner, depth);
    if ps != [] {
      LeafPathsExact(cfg, inner, depth, ps[0]);
      assert false;
    }
  }

  /** `{"priv_tokens": {"abc123": {}}}` is logged unchanged: no key path reaches
      `priv_tokens`, so its inner key stays visible. */
  lemma SensitiveEmptyDictExample(cfg: Config)
    requires 1 <= cfg.nestedDictDepthMax
    ensures
      var es := Entry("priv_tokens", Dict(Entry("abc123", Dict(End), End)), End);
      Sanitized(cfg, es, 0) == es
  {
    var inner := Entry("abc123", Dict(End), End);
    var es := Entry("priv_tokens", Dict(inner), End);
    assert Find("priv_tokens", PrivPrefix) == 0 by {
      assert "priv_tokens"[0..5] == PrivPrefix;
    }
    assert LeafPaths(cfg, End, 2) == [];
    assert LeafPaths(cfg, inner, 1) == [];
    assert Sanitized(cfg, es, 0) == SanitizedItems(cfg, es, 1);
  }
}
