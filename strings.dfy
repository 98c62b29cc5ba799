/** Python string operations used by the tracer: `str.find`, `str.startswith`,
    slicing with a stop index, and joining and splitting dotted key paths.
    Strings are sequences of characters. */
module PyStrings {

  /** `sub` occurs in `s` starting at index `i`. */
  ghost predicate OccursAt(s: string, sub: string, i: int)
  {
    0 <= i && i + |sub| <= |s| && s[i..i + |sub|] == sub
  }

  /** `s.find(sub, from)`: the first index at or after `from` where `sub` occurs, or -1. */
  function FindFrom(s: string, sub: string, from: nat): (r: int)
    decreases |s| - from
    ensures r != -1 ==> from <= r && OccursAt(s, sub, r)
  {
    if from + |sub| > |s| then -1
    else if s[from..from + |sub|] == sub then from
    else FindFrom(s, sub, from + 1)
  }

  /** `FindFrom` gives the first occurrence at or after `from`, and -1 exactly
      when there is none. */
  lemma {:induction false} FindFromSpec(s: string, sub: string, from: nat)
    decreases |s| - from
    ensures var r := FindFrom(s, sub, from);
      && (r == -1 ==> forall i :: from <= i ==> !OccursAt(s, sub, i))
      && (r != -1 ==> forall i :: from <= i < r ==> !OccursAt(s, sub, i))
  {
    if from + |sub| <= |s| && s[from..from + |sub|] != sub {
      FindFromSpec(s, sub, from + 1);
    }
  }

  /** `Find` gives the first occurrence, and -1 exactly when there is none. */
  lemma FindSpec(s: string, sub: string)
    ensures Find(s, sub) == -1 <==> forall i :: !OccursAt(s, sub, i)
    ensures Find(s, sub) != -1 ==>
      OccursAt(s, sub, Find(s, sub)) && forall i :: i < Find(s, sub) ==> !OccursAt(s, sub, i)
  {
    FindFromSpec(s, sub, 0);
  }

  /** `s.find(sub)`: the index of the first occurrence of `sub` in `s`, or -1 when there is none. */
  function Find(s: string, sub: string): (r: int)
    ensures r != -1 ==> OccursAt(s, sub, r)
  {
    FindFrom(s, sub, 0)
  }

  /** `s.find(sub) != -1`, i.e. Python's `sub in s`. */
  predicate Contains(s: string, sub: string)
  {
    Find(s, sub) != -1
  }

  /** `s.startswith(prefix)`. */
  predicate StartsWith(s: string, prefix: string)
  {
    |prefix| <= |s| && s[..|prefix|] == prefix
  }

  /** `s.startswith(prefix)` holds exactly when `s.find(prefix)` finds it at index
      0, so a string that starts with `prefix` also contains it. */
  lemma StartsWithFind(s: string, prefix: string)
    ensures StartsWith(s, prefix) <==> Find(s, prefix) == 0
    ensures StartsWith(s, prefix) ==> Contains(s, prefix)
  {
    FindSpec(s, prefix);
    if StartsWith(s, prefix) {
      assert OccursAt(s, prefix, 0);
    }
  }

  /** `s[:n]` with Python's rules: a negative stop counts from the end, and a stop
      outside the string is clamped to it. */
  function SliceTo(s: string, n: int): (r: string)
    ensures |r| <= |s| && r == s[..|r|]
    ensures 0 <= n ==> |r| == if n <= |s| then n else |s|
    ensures n < 0 ==> |r| == if |s| + n >= 0 then |s| + n else 0
  {
    if n >= |s| then s
    else if n >= 0 then s[..n]
    else if |s| + n >= 0 then s[..|s| + n]
    else []
  }

  /** A key that contains no `.`, so that it survives joining and splitting. */
  predicate DotFree(k: string)
  {
    '.' !in k
  }

  /** Every segment is dot-free. */
  predicate AllDotFree(p: seq<string>)
  {
    forall j :: 0 <= j < |p| ==> DotFree(p[j])
  }

  /** The segments joined by `.`, as the tracer builds a key path. */
  function Join(p: seq<string>): (r: string)
  {
    if |p| == 0 then ""
    else if |p| == 1 then p[0]
    else p[0] + "." + Join(p[1..])
  }

  /** The index of the first `c` in `s`, or -1. */
  function IndexOf(s: string, c: char): (r: int)
    ensures r == -1 <==> c !in s
    ensures r != -1 ==> 0 <= r < |s| && s[r] == c && c !in s[..r]
  {
    if |s| == 0 then -1
    else if s[0] == c then 0
    else
      var i := IndexOf(s[1..], c);
      if i == -1 then -1
      else
        assert s[..i + 1] == [s[0]] + s[1..][..i];
        i + 1
  }

  /** The segments of a dotted path, as the path library splits a path string on `.`. */
  function Split(s: string): (r: seq<string>)
    decreases |s|
    ensures |r| >= 1
    ensures AllDotFree(r)
    ensures Join(r) == s
  {
    var i := IndexOf(s, '.');
    if i == -1 then [s]
    else
      var head, tail := s[..i], Split(s[i + 1..]);
      var r := [head] + tail;
      assert r[0] == head && r[1..] == tail;
      assert Join(r) == head + "." + Join(tail);
      assert s == head + "." + s[i + 1..];
      r
  }

  /** Finding a one-character string finds that character. */
  lemma FindChar(s: string, c: char)
    requires Find(s, [c]) != -1
    ensures var i := Find(s, [c]); 0 <= i < |s| && s[i] == c && c !in s[..i]
  {
    var i := Find(s, [c]);
    FindSpec(s, [c]);
    assert s[i..i + 1] == [c];
    forall j | 0 <= j < i
      ensures s[..i][j] != c
    {
      assert !OccursAt(s, [c], j);
      assert s[j..j + 1] == [s[j]];
    }
  }

  /** A character that is not found does not occur. */
  lemma FindNone(s: string, c: char)
    requires Find(s, [c]) == -1
    ensures c !in s
  {
    FindSpec(s, [c]);
    forall j | 0 <= j < |s|
      ensures s[j] != c
    {
      assert !OccursAt(s, [c], j);
      assert s[j..j + 1] == [s[j]];
    }
  }

  /** A dot-free string has no occurrence of `.`. */
  lemma NoDotOccurs(s: string)
    requires DotFree(s)
    ensures forall i :: !OccursAt(s, ".", i)
  {
    forall i | 0 <= i < |s|
      ensures !OccursAt(s, ".", i)
    {
      assert s[i..i + 1] == [s[i]];
    }
  }

  /** The first `.` after a dot-free `x` is the one that follows it. */
  lemma FindDotAfter(x: string, y: string)
    requires DotFree(x)
    ensures Find(x + "." + y, ".") == |x|
  {
    var s := x + "." + y;
    FindSpec(s, ".");
    assert OccursAt(s, ".", |x|) by {
      assert s[|x|..|x| + 1] == ".";
    }
    forall j | 0 <= j < |x|
      ensures !OccursAt(s, ".", j)
    {
      assert s[j..j + 1] == [x[j]];
    }
  }

  /** The first `.` after a dot-free `x` is the one that follows it. */
  lemma IndexOfDotAfter(x: string, y: string)
    requires DotFree(x)
    ensures IndexOf(x + "." + y, '.') == |x|
  {
    var s := x + "." + y;
    assert s[..|x|] == x;
    assert s[|x|] == '.';
  }

  /** Splitting a path joined from dot-free segments gives the segments back. */
  lemma {:induction false} SplitJoin(p: seq<string>)
    requires |p| >= 1
    requires AllDotFree(p)
    ensures Split(Join(p)) == p
  {
    if |p| > 1 {
      assert Join(p) == p[0] + "." + Join(p[1..]);
      SplitCons(p[0], Join(p[1..]));
      SplitJoin(p[1..]);
      assert p == [p[0]] + p[1..];
    }
  }

  /** A dot-free segment followed by `.` splits off as the first segment. */
  lemma SplitCons(x: string, y: string)
    requires DotFree(x)
    ensures Split(x + "." + y) == [x] + Split(y)
  {
    var s := x + "." + y;
    IndexOfDotAfter(x, y);
    assert s[..|x|] == x;
    assert s[|x| + 1..] == y;
  }

  /** A path of two or more segments is its first segment, a `.`, and the rest. */
  lemma JoinCons(a: string, rest: seq<string>)
    requires |rest| >= 1
    ensures Join([a] + rest) == a + "." + Join(rest)
  {
    assert ([a] + rest)[1..] == rest;
  }

  /** An occurrence inside `x` is still the first one once anything is appended. */
  lemma FindExtend(x: string, y: string, sub: string)
    requires Find(x, sub) != -1
    ensures Find(x + y, sub) == Find(x, sub)
  {
    var r := Find(x, sub);
    FindSpec(x, sub);
    FindSpec(x + y, sub);
    assert (x + y)[r..r + |sub|] == x[r..r + |sub|];
    assert OccursAt(x + y, sub, r);
    forall i | i < r
      ensures !OccursAt(x + y, sub, i)
    {
      if 0 <= i {
        assert (x + y)[i..i + |sub|] == x[i..i + |sub|];
        assert !OccursAt(x, sub, i);
      }
    }
  }

  /** A dot-free `sub` that does not occur in `x` can only occur in `x + "." + y`
      inside `y`. */
  lemma FindAfterDot(x: string, y: string, sub: string)
    requires Find(x, sub) == -1
    requires DotFree(sub)
    ensures Find(x + "." + y, sub) ==
      if Find(y, sub) == -1 then -1 else |x| + 1 + Find(y, sub)
  {
    var s := x + "." + y;
    FindSpec(x, sub);
    forall i | 0 <= i <= |x|
      ensures !OccursAt(s, sub, i)
    {
      if i + |sub| <= |x| {
        assert s[i..i + |sub|] == x[i..i + |sub|];
        assert !OccursAt(x, sub, i);
      } else if i + |sub| <= |s| {
        assert s[i..i + |sub|][|x| - i] == '.';
        assert '.' !in sub;
      }
    }
    forall i | |x| + 1 <= i
      ensures OccursAt(s, sub, i) <==> OccursAt(y, sub, i - |x| - 1)
    {
      if i + |sub| <= |s| {
        assert s[i..i + |sub|] == y[i - |x| - 1..i - |x| - 1 + |sub|];
      }
    }
    var f := Find(y, sub);
    FindSpec(y, sub);
    FindSpec(s, sub);
    if f == -1 {
      forall i ensures !OccursAt(s, sub, i) {
        if |x| + 1 <= i {
          assert !OccursAt(y, sub, i - |x| - 1);
        }
      }
    } else {
      assert OccursAt(s, sub, |x| + 1 + f);
      forall i | i < |x| + 1 + f
        ensures !OccursAt(s, sub, i)
      {
        if |x| + 1 <= i {
          assert !OccursAt(y, sub, i - |x| - 1);
        }
      }
    }
  }
}
