/** Python values as the tracer sees them, and reading and writing a value at a
    path of keys inside nested dicts. */
module Values {
  import opened PyStrings

  datatype Option<T> = None | Some(value: T)

  /** A traced argument value: a string, a dict with string keys, or any other
      object (kept only as its printed form). */
  datatype Value =
    | Scalar(repr: string)
    | Str(s: string)
    | Dict(entries: Entries)

  /** The entries of a dict, in insertion order. */
  datatype Entries = End | Entry(key: string, val: Value, rest: Entries)

  /** The keys of a dict, in insertion order. */
  function Keys(es: Entries): seq<string>
  {
    match es
    case End => []
    case Entry(k, _, rest) => [k] + Keys(rest)
  }

  /** `d[k]`, or `None` when the key is absent. */
  function Lookup(es: Entries, k: string): (r: Option<Value>)
  {
    match es
    case End => None
    case Entry(k', v, rest) => if k' == k then Some(v) else Lookup(rest, k)
  }

  /** `d[k] = v`: an existing key keeps its position, a new key goes last. */
  function Put(es: Entries, k: string, v: Value): (r: Entries)
    ensures Lookup(r, k) == Some(v)
    ensures forall k' :: k' != k ==> Lookup(r, k') == Lookup(es, k')
  {
    match es
    case End => Entry(k, v, End)
    case Entry(k', v', rest) =>
      if k' == k then Entry(k, v, rest) else Entry(k', v', Put(rest, k, v))
  }

  /** `d[k] = v` keeps the keys in order and appends a new one. */
  lemma {:induction false} PutKeys(es: Entries, k: string, v: Value)
    ensures Keys(Put(es, k, v)) == if k in Keys(es) then Keys(es) else Keys(es) + [k]
  {
    match es
    case End =>
    case Entry(k', v', rest) =>
      if k' != k {
        PutKeys(rest, k, v);
      }
  }

  /** No key occurs twice in the dict itself. */
  predicate UniqueKeys(es: Entries)
  {
    match es
    case End => true
    case Entry(k, _, rest) => k !in Keys(rest) && UniqueKeys(rest)
  }

  /** A dict as Python builds it (unique keys at every level) whose keys
      contain no `.`, so that dotted key paths address its entries. */
  predicate WellFormed(v: Value)
  {
    match v
    case Dict(es) => WellFormedEntries(es)
    case _ => true
  }

  predicate WellFormedEntries(es: Entries)
  {
    match es
    case End => true
    case Entry(k, v, rest) =>
      DotFree(k) && k !in Keys(rest) && WellFormed(v) && WellFormedEntries(rest)
  }

  /** The value reached from `t` by following `path`, one dict key per step;
      `None` when a key is missing or a step meets a value that is not a dict. */
  function GetPath(t: Value, path: seq<string>): (r: Option<Value>)
    decreases |path|
  {
    if |path| == 0 then Some(t)
    else match t
      case Dict(es) =>
        (match Lookup(es, path[0])
         case Some(c) => GetPath(c, path[1..])
         case None => None)
      case _ => None
  }

  /** The container that `path` writes into is a dict. */
  predicate ParentIsDict(t: Value, path: seq<string>)
    requires |path| >= 1
  {
    var g := GetPath(t, path[..|path| - 1]);
    g.Some? && g.value.Dict?
  }

  /** Assign `x` at `path`: the dict that holds the last key must exist; the key
      itself is overwritten or added. `None` when the assignment is impossible. */
  function SetPath(t: Value, path: seq<string>, x: Value): (r: Option<Value>)
    requires |path| >= 1
    decreases |path|
    ensures r.Some? <==> ParentIsDict(t, path)
    ensures r.Some? ==> r.value.Dict? && GetPath(r.value, path) == Some(x)
  {
    match t
    case Dict(es) =>
      if |path| == 1 then Some(Dict(Put(es, path[0], x)))
      else
        assert path[..|path| - 1][1..] == path[1..][..|path| - 2];
        (match Lookup(es, path[0])
         case Some(c) =>
           (match SetPath(c, path[1..], x)
            case Some(c') => Some(Dict(Put(es, path[0], c')))
            case None => None)
         case None => None)
    case _ => None
  }

  /** Assigning at `path` leaves every path that branches off from it unchanged. */
  lemma {:induction false} SetPathFrame(t: Value, path: seq<string>, x: Value, q: seq<string>)
    requires |path| >= 1
    requires SetPath(t, path, x).Some?
    requires exists i :: 0 <= i < |path| && i < |q| && q[i] != path[i] && q[..i] == path[..i]
    ensures GetPath(SetPath(t, path, x).value, q) == GetPath(t, q)
    decreases |path|
  {
    var i :| 0 <= i < |path| && i < |q| && q[i] != path[i] && q[..i] == path[..i];
    var es := t.entries;
    if i == 0 {
      if |path| == 1 {
      } else {
        var c := Lookup(es, path[0]).value;
        var c' := SetPath(c, path[1..], x).value;
        assert SetPath(t, path, x).value == Dict(Put(es, path[0], c'));
      }
    } else {
      var c := Lookup(es, path[0]).value;
      var c' := SetPath(c, path[1..], x).value;
      assert q[0] == path[0];
      assert q[1..][i - 1] != path[1..][i - 1] && q[1..][..i - 1] == path[1..][..i - 1];
      SetPathFrame(c, path[1..], x, q[1..]);
    }
  }

  /** Following `a + b` is following `a`, then `b` from where `a` led. */
  lemma {:induction false} GetPathAppend(t: Value, a: seq<string>, b: seq<string>)
    ensures GetPath(t, a + b) ==
      match GetPath(t, a)
      case Some(u) => GetPath(u, b)
      case None => None
    decreases |a|
  {
    if |a| == 0 {
      assert a + b == b;
    } else {
      assert (a + b)[0] == a[0] && (a + b)[1..] == a[1..] + b;
      if t.Dict? && Lookup(t.entries, a[0]).Some? {
        GetPathAppend(Lookup(t.entries, a[0]).value, a[1..], b);
      }
    }
  }

  /** Every value found in a well-formed dict is well formed. */
  lemma {:induction false} LookupWellFormed(es: Entries, k: string)
    requires WellFormedEntries(es)
    requires Lookup(es, k).Some?
    ensures WellFormed(Lookup(es, k).value)
  {
    match es
    case Entry(k', v, rest) =>
      if k' != k {
        LookupWellFormed(rest, k);
      }
  }

  lemma {:induction false} WellFormedAlongPath(t: Value, path: seq<string>)
    requires WellFormed(t)
    requires GetPath(t, path).Some?
    ensures WellFormed(GetPath(t, path).value)
    decreases |path|
  {
    if |path| > 0 {
      LookupWellFormed(t.entries, path[0]);
      WellFormedAlongPath(Lookup(t.entries, path[0]).value, path[1..]);
    }
  }
}
