/** Camouflage of a dict argument: every key path reported by the enumeration is
    either redacted (the path holds a sensitive key) or has its value shortened. */
module NestedCamouflage {
  import opened PyStrings
  import opened Values
  import opened Settings
  import opened Shortening
  import opened Keypaths

  /** The outcome of a step that may raise an exception out of the tracer. */
  datatype Result<T> = Ok(value: T) | Raised

  /** The cut of `__camouflage_nested_dict`: for a key path that contains
      "priv_", the path cut at the first `.` after the first "priv_", or the
      whole path when no `.` follows; `None` when "priv_" does not occur. */
  function SensitivePrefix(keypath: string): (r: Option<string>)
    ensures r.Some? <==> Contains(keypath, PrivPrefix)
  {
    var posStart := Find(keypath, PrivPrefix);
    if posStart == -1 then None
    else
      var posEnd := Find(keypath[posStart..], ".");
      var posEnd' := if posEnd == -1 then |keypath| else posEnd;
      Some(SliceTo(keypath, posStart + posEnd'))
  }

  /** The cut is a prefix of the key path that holds the first "priv_" whole and
      ends where a key ends: at a `.` of the path or at its end. */
  lemma SensitivePrefixIsKeyBoundary(keypath: string)
    requires Contains(keypath, PrivPrefix)
    ensures
      var cut, start := SensitivePrefix(keypath).value, Find(keypath, PrivPrefix);
      && |cut| <= |keypath| && cut == keypath[..|cut|]
      && start + |PrivPrefix| <= |cut|
      && DotFree(cut[start..])
      && (|cut| == |keypath| || keypath[|cut|] == '.')
  {
    var posStart := Find(keypath, PrivPrefix);
    var rest := keypath[posStart..];
    var posEnd := Find(rest, ".");
    var cut := SensitivePrefix(keypath).value;
    assert rest[..|PrivPrefix|] == PrivPrefix;
    if posEnd == -1 {
      FindNone(rest, '.');
      assert cut == keypath;
      assert cut[posStart..] == rest;
    } else {
      FindChar(rest, '.');
      assert |cut| == posStart + posEnd;
      assert cut[posStart..] == rest[..posEnd];
      assert forall j :: 0 <= j < |PrivPrefix| ==> rest[j] != '.';
      assert rest[posEnd] == '.';
    }
  }

  /** The sensitive branch of `__camouflage_nested_dict`: assign the
      camouflage sign at `path`; an assignment that fails leaves the dict as it
      was. */
  function RedactAt(cfg: Config, t: Value, path: seq<string>): (r: Result<Value>)
    requires |path| >= 1
    ensures r.Ok?
    ensures ParentIsDict(t, path) ==> GetPath(r.value, path) == Some(Str(cfg.camouflageSign))
    ensures !ParentIsDict(t, path) ==> r.value == t
  {
    match SetPath(t, path, Str(cfg.camouflageSign))
    case Some(t') => Ok(t')
    case None => Ok(t)
  }

  /** The other branch of `__camouflage_nested_dict`: read the value at
      `path`, shorten it and write it back; a failed read or write raises. */
  function ShortenAt(cfg: Config, t: Value, path: seq<string>): (r: Result<Value>)
    requires |path| >= 1
    ensures r.Ok? <==> GetPath(t, path).Some? && ParentIsDict(t, path)
    ensures r.Ok? ==> GetPath(r.value, path) == Some(ShortenString(cfg, GetPath(t, path).value))
  {
    match GetPath(t, path)
    case None => Raised
    case Some(v) =>
      match SetPath(t, path, ShortenString(cfg, v))
      case None => Raised
      case Some(t') => Ok(t')
  }

  /** One pass of the loop of `__camouflage_nested_dict` over `keypath`: a
      sensitive path is redacted at its cut prefix, any other path has its
      value shortened. */
  function CamouflageStep(cfg: Config, t: Value, keypath: string): Result<Value>
  {
    match SensitivePrefix(keypath)
    case Some(privKeypath) => RedactAt(cfg, t, Split(privKeypath))
    case None => ShortenAt(cfg, t, Split(keypath))
  }

  /** The dict after the loop has run over all of `keypaths`, unless a pass raised. */
  function Camouflaged(cfg: Config, t: Value, keypaths: seq<string>): Result<Value>
    decreases |keypaths|
  {
    if keypaths == [] then Ok(t)
    else match CamouflageStep(cfg, t, keypaths[0])
      case Ok(t') => Camouflaged(cfg, t', keypaths[1..])
      case Raised => Raised
  }

  /** Running the loop over two lists of paths is running it over the first and
      then, unless that raised, over the second. */
  lemma {:induction false} CamouflagedAppend(cfg: Config, t: Value, a: seq<string>, b: seq<string>)
    ensures Camouflaged(cfg, t, a + b) ==
      match Camouflaged(cfg, t, a)
      case Ok(t') => Camouflaged(cfg, t', b)
      case Raised => Raised
    decreases |a|
  {
    if a != [] {
      assert (a + b)[0] == a[0] && (a + b)[1..] == a[1..] + b;
      match CamouflageStep(cfg, t, a[0])
      case Ok(t') => CamouflagedAppend(cfg, t', a[1..], b);
      case Raised =>
    } else {
      assert a + b == b;
    }
  }

  /** One pass of the loop of `__camouflage_nested_dict`, written step by step:
      `find`, a slice, and an assignment whose failure is swallowed for a
      sensitive path and propagated for any other. */
  method CamouflagePass(cfg: Config, t: Value, keypath: string) returns (r: Result<Value>)
    ensures r == CamouflageStep(cfg, t, keypath)
  {
    var posStart := Find(keypath, PrivPrefix);
    if posStart != -1 {
      var posEnd := Find(keypath[posStart..], ".");
      if posEnd == -1 {
        posEnd := |keypath|;
      }
      var privKeypath := SliceTo(keypath, posStart + posEnd);
      assert SensitivePrefix(keypath) == Some(privKeypath);
      var written := SetPath(t, Split(privKeypath), Str(cfg.camouflageSign));
      if written.None? {
        // the sensitive value stays in the log rather than aborting it
        return Ok(t);
      }
      return Ok(written.value);
    }
    assert SensitivePrefix(keypath) == None;
    var value := GetPath(t, Split(keypath));
    if value.None? {
      return Raised;
    }
    var shortened := ShortenString(cfg, value.value);
    var written := SetPath(t, Split(keypath), shortened);
    if written.None? {
      return Raised;
    }
    return Ok(written.value);
  }

  /** `__camouflage_nested_dict(args_and_values, keypaths)`: the dict argument is
      rewritten path by path; the result is the rewritten dict, or `Raised` when
      reading or writing a non-sensitive path fails. */
  method CamouflageNestedDict(cfg: Config, argsAndValues: Value, keypaths: seq<string>)
    returns (r: Result<Value>)
    ensures r == Camouflaged(cfg, argsAndValues, keypaths)
  {
    var t := argsAndValues;
    for i := 0 to |keypaths|
      invariant Camouflaged(cfg, argsAndValues, keypaths[..i]) == Ok(t)
    {
      CamouflagedSnoc(cfg, argsAndValues, keypaths, i, t);
      var pass := CamouflagePass(cfg, t, keypaths[i]);
      if pass.Raised? {
        RaisedStaysRaised(cfg, argsAndValues, keypaths, i + 1);
        return Raised;
      }
      t := pass.value;
    }
    assert keypaths[..|keypaths|] == keypaths;
    r := Ok(t);
  }

  /** The loop over one more path makes one more pass. */
  lemma CamouflagedSnoc(cfg: Config, t0: Value, keypaths: seq<string>, i: nat, t: Value)
    requires i < |keypaths|
    requires Camouflaged(cfg, t0, keypaths[..i]) == Ok(t)
    ensures Camouflaged(cfg, t0, keypaths[..i + 1]) == CamouflageStep(cfg, t, keypaths[i])
  {
    CamouflagedAppend(cfg, t0, keypaths[..i], [keypaths[i]]);
    assert keypaths[..i + 1] == keypaths[..i] + [keypaths[i]];
  }

  /** Once a pass raises, the whole loop raises. */
  lemma RaisedStaysRaised(cfg: Config, t: Value, keypaths: seq<string>, n: nat)
    requires n <= |keypaths|
    requires Camouflaged(cfg, t, keypaths[..n]) == Raised
    ensures Camouflaged(cfg, t, keypaths) == Raised
  {
    CamouflagedAppend(cfg, t, keypaths[..n], keypaths[n..]);
    assert keypaths[..n] + keypaths[n..] == keypaths;
  }

  // The same loop stated over key sequences instead of dotted strings.

  /** The index of the first key of `p` that contains "priv_". */
  function FirstSensitive(p: seq<string>): (r: Option<nat>)
    ensures r.Some? ==> r.value < |p| && Contains(p[r.value], PrivPrefix)
    ensures r.Some? ==> forall j :: 0 <= j < r.value ==> !Contains(p[j], PrivPrefix)
    ensures r.None? ==> forall j :: 0 <= j < |p| ==> !Contains(p[j], PrivPrefix)
  {
    if p == [] then None
    else if Contains(p[0], PrivPrefix) then Some(0)
    else match FirstSensitive(p[1..])
      case None => None
      case Some(i) => Some(i + 1)
  }

  /** `CamouflageStep` for the key path `p`. */
  function StepOnPath(cfg: Config, t: Value, p: seq<string>): (r: Result<Value>)
    requires |p| >= 1
    ensures t.Dict? && r.Ok? ==> r.value.Dict?
  {
    match FirstSensitive(p)
    case Some(i) => RedactAt(cfg, t, p[..i + 1])
    case None => ShortenAt(cfg, t, p)
  }

  /** Every path in the list has at least one key. */
  ghost predicate NonEmptyPaths(ps: seq<seq<string>>)
  {
    forall i :: 0 <= i < |ps| ==> |ps[i]| >= 1
  }

  /** `Camouflaged` over key paths. */
  function CamouflagedOnPaths(cfg: Config, t: Value, ps: seq<seq<string>>): (r: Result<Value>)
    requires NonEmptyPaths(ps)
    decreases |ps|
    ensures t.Dict? && r.Ok? ==> r.value.Dict?
  {
    if ps == [] then Ok(t)
    else match StepOnPath(cfg, t, ps[0])
      case Ok(t') => CamouflagedOnPaths(cfg, t', ps[1..])
      case Raised => Raised
  }

  /** The cut of a joined path is the join of the keys up to and including the
      first sensitive one. */
  lemma {:induction false} SensitivePrefixOfJoin(p: seq<string>)
    requires |p| >= 1
    requires AllDotFree(p)
    ensures SensitivePrefix(Join(p)) ==
      match FirstSensitive(p)
      case None => None
      case Some(i) => Some(Join(p[..i + 1]))
  {
    assert DotFree(p[0]) && p[..1] == [p[0]];
    if |p| == 1 {
      if Contains(p[0], PrivPrefix) {
        SensitiveLastKey(p[0]);
      }
    } else {
      assert Join(p) == p[0] + "." + Join(p[1..]);
      if Contains(p[0], PrivPrefix) {
        SensitiveFirstKey(p[0], Join(p[1..]));
      } else {
        SensitivePrefixOfJoin(p[1..]);
        SensitiveLaterKey(p[0], Join(p[1..]));
        if FirstSensitive(p[1..]).Some? {
          JoinThroughFirstSensitive(p);
        }
      }
    }
  }

  /** A dot-free sensitive key on its own is its own cut. */
  lemma SensitiveLastKey(a: string)
    requires DotFree(a)
    requires Contains(a, PrivPrefix)
    ensures SensitivePrefix(a) == Some(a)
  {
    var f := Find(a, PrivPrefix);
    assert DotFree(a[f..]);
    NoDotOccurs(a[f..]);
  }

  /** When the first key is sensitive, the cut is that key. */
  lemma SensitiveFirstKey(a: string, tail: string)
    requires DotFree(a)
    requires Contains(a, PrivPrefix)
    ensures SensitivePrefix(a + "." + tail) == Some(a)
  {
    var s := a + "." + tail;
    var f := Find(a, PrivPrefix);
    assert s == a + ("." + tail);
    FindExtend(a, "." + tail, PrivPrefix);
    assert s[f..] == a[f..] + "." + tail;
    assert DotFree(a[f..]);
    FindDotAfter(a[f..], tail);
    assert s[..|a|] == a;
  }

  /** When the first key is not sensitive, the cut is that key, a `.`, and the
      cut of the rest. */
  lemma SensitiveLaterKey(a: string, tail: string)
    requires !Contains(a, PrivPrefix)
    ensures SensitivePrefix(a + "." + tail) ==
      match SensitivePrefix(tail)
      case None => None
      case Some(c) => Some(a + "." + c)
  {
    assert DotFree(PrivPrefix);
    FindAfterDot(a, tail, PrivPrefix);
    var g := Find(tail, PrivPrefix);
    if g != -1 {
      SensitiveInTail(a, tail, g);
    }
  }

  /** The cut of `a + "." + tail` when the first "priv_" lies in `tail`. */
  lemma SensitiveInTail(a: string, tail: string, g: nat)
    requires Find(tail, PrivPrefix) == g
    requires Find(a + "." + tail, PrivPrefix) == |a| + 1 + g
    ensures SensitivePrefix(a + "." + tail) == Some(a + "." + SensitivePrefix(tail).value)
  {
    SensitivePrefixCut(a + "." + tail, |a| + 1 + g);
    SensitivePrefixCut(tail, g);
    CutInTail(a, tail, g);
  }

  /** The key ending at or after index `g` of `tail` ends at the same place
      once `a.` is put before it. */
  lemma CutInTail(a: string, tail: string, g: nat)
    requires g <= |tail|
    ensures var s := a + "." + tail;
      s[..|a| + 1 + g + KeyEnd(s[|a| + 1 + g..])] == a + "." + tail[..g + KeyEnd(tail[g..])]
  {
    JoinSlices(a, tail, g, KeyEnd(tail[g..]));
  }

  /** Slicing `a + "." + tail` past `a.` is slicing `tail`. */
  lemma JoinSlices(a: string, tail: string, g: nat, n: nat)
    requires g + n <= |tail|
    ensures (a + "." + tail)[|a| + 1 + g..] == tail[g..]
    ensures (a + "." + tail)[..|a| + 1 + g + n] == a + "." + tail[..g + n]
  {
  }

  /** The length of `rest` up to its first `.`, or all of it. */
  function KeyEnd(rest: string): (n: nat)
    ensures n <= |rest|
  {
    var posEnd := Find(rest, ".");
    if posEnd == -1 then |rest| else posEnd
  }

  /** The cut ends where the key holding the first "priv_" ends. */
  lemma SensitivePrefixCut(s: string, start: nat)
    requires Find(s, PrivPrefix) == start
    ensures start <= |s|
    ensures SensitivePrefix(s) == Some(s[..start + KeyEnd(s[start..])])
  {
  }

  /** The keys up to the first sensitive one, joined, after a non-sensitive key. */
  lemma JoinThroughFirstSensitive(p: seq<string>)
    requires |p| > 1
    requires !Contains(p[0], PrivPrefix)
    requires FirstSensitive(p[1..]).Some?
    ensures FirstSensitive(p) == Some(FirstSensitive(p[1..]).value + 1)
    ensures var i := FirstSensitive(p[1..]).value;
      Join(p[..i + 2]) == p[0] + "." + Join(p[1..][..i + 1])
  {
    JoinPrefix(p, FirstSensitive(p[1..]).value + 1);
  }

  /** The first `n + 1` keys joined are the first key, a `.`, and the next `n` joined. */
  lemma JoinPrefix(p: seq<string>, n: nat)
    requires 1 <= n < |p|
    ensures Join(p[..n + 1]) == p[0] + "." + Join(p[1..][..n])
  {
    assert p[..n + 1] == [p[0]] + p[1..][..n];
    JoinCons(p[0], p[1..][..n]);
  }

  /** A pass over a joined path is the pass over its keys. */
  lemma StepOnJoin(cfg: Config, t: Value, p: seq<string>)
    requires |p| >= 1
    requires AllDotFree(p)
    ensures CamouflageStep(cfg, t, Join(p)) == StepOnPath(cfg, t, p)
  {
    SensitivePrefixOfJoin(p);
    match FirstSensitive(p)
    case Some(i) =>
      SplitJoinPrefix(p, i + 1);
      StepAtCut(cfg, t, p, Join(p), Join(p[..i + 1]));
    case None =>
      SplitJoin(p);
      StepWithoutCut(cfg, t, p, Join(p));
  }

  /** A pass over a sensitive path whose cut splits into the keys up to the
      first sensitive one is the pass over those keys. */
  lemma StepAtCut(cfg: Config, t: Value, p: seq<string>, keypath: string, cut: string)
    requires |p| >= 1
    requires FirstSensitive(p).Some?
    requires SensitivePrefix(keypath) == Some(cut)
    requires Split(cut) == p[..FirstSensitive(p).value + 1]
    ensures CamouflageStep(cfg, t, keypath) == StepOnPath(cfg, t, p)
  {
  }

  /** A pass over a path with no sensitive key that splits into `p` is the
      pass over `p`. */
  lemma StepWithoutCut(cfg: Config, t: Value, p: seq<string>, keypath: string)
    requires |p| >= 1
    requires FirstSensitive(p).None?
    requires SensitivePrefix(keypath).None?
    requires Split(keypath) == p
    ensures CamouflageStep(cfg, t, keypath) == StepOnPath(cfg, t, p)
  {
  }

  /** The first `n` keys of a dot-free path, joined, split back into themselves. */
  lemma SplitJoinPrefix(p: seq<string>, n: nat)
    requires AllDotFree(p)
    requires 1 <= n <= |p|
    ensures Split(Join(p[..n])) == p[..n]
  {
    assert AllDotFree(p[..n]);
    SplitJoin(p[..n]);
  }

  /** The loop over the joined paths is the loop over the key paths. */
  lemma {:induction false} CamouflagedJoined(cfg: Config, t: Value, ps: seq<seq<string>>)
    requires NonEmptyPaths(ps)
    requires forall i :: 0 <= i < |ps| ==> AllDotFree(ps[i])
    ensures Camouflaged(cfg, t, Joined("", ps)) == CamouflagedOnPaths(cfg, t, ps)
    decreases |ps|
  {
    if ps != [] {
      var js := Joined("", ps);
      assert js[0] == Join(ps[0]);
      assert js[1..] == Joined("", ps[1..]);
      StepOnJoin(cfg, t, ps[0]);
      match StepOnPath(cfg, t, ps[0])
      case Ok(t') => CamouflagedJoined(cfg, t', ps[1..]);
      case Raised =>
    }
  }
}
