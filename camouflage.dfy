/** The snapshot of a traced call's arguments: every declared argument name is
    mapped to its value as it may be logged. */
module ArgumentCamouflage {
  import opened PyStrings
  import opened Values
  import opened Settings
  import opened Shortening
  import opened Keypaths
  import opened NestedCamouflage
  import opened Sanitizing

  /** The `varargs` or `keywords` field of a frame's argument info: no name, one
      name, or a list of names. */
  datatype Collector = Absent | Name(name: string) | Names(names: seq<string>)

  /** A frame's argument info: the positional argument names, the `*args` and
      `**kwargs` names, and the frame's local variables. */
  datatype ArgInfo = ArgInfo(
    args: seq<string>,
    varargs: Collector,
    keywords: Collector,
    locals: map<string, Value>)

  /** The names a `varargs` or `keywords` field contributes; an absent or empty
      name is false in Python and contributes nothing. */
  function Collected(c: Collector): seq<string>
  {
    match c
    case Absent => []
    case Name(n) => if n == "" then [] else [n]
    case Names(ns) => ns
  }

  /** The logged value of the argument `name`, as one pass of the loop of
      `__camouflage` decides it. */
  function SanitizedArg(cfg: Config, name: string, locals: map<string, Value>): (r: Result<Value>)
    ensures r.Raised? ==> name in locals && !StartsWith(name, PrivPrefix) && locals[name].Dict?
  {
    if name !in locals then Ok(Str(Missing))
    else if StartsWith(name, PrivPrefix) then Ok(Str(cfg.camouflageSign))
    else
      var value := locals[name];
      if value.Dict? then Camouflaged(cfg, value, GetDictKeypaths(cfg, value.entries, "", 0))
      else Ok(ShortenString(cfg, value))
  }

  /** `SanitizedArg` as a function of the name alone. */
  function ArgOutcome(cfg: Config, locals: map<string, Value>): string -> Result<Value>
  {
    name => SanitizedArg(cfg, name, locals)
  }

  /** The dict the loop of `__camouflage` builds when the pass for each name ends
      in `outcome(name)`: each name assigned in turn, unless a pass raised. */
  function Assemble(names: seq<string>, outcome: string -> Result<Value>): Result<Entries>
  {
    if names == [] then Ok(End)
    else
      var last := names[|names| - 1];
      match Assemble(names[..|names| - 1], outcome)
      case Raised => Raised
      case Ok(d) =>
        match outcome(last)
        case Raised => Raised
        case Ok(v) => Ok(Put(d, last, v))
  }

  /** The snapshot of the arguments `names`, unless a pass raised. */
  function Snapshot(cfg: Config, locals: map<string, Value>, names: seq<string>): Result<Entries>
  {
    Assemble(names, ArgOutcome(cfg, locals))
  }

  /** `names` without repetitions, each kept at its first occurrence. */
  function Dedup(names: seq<string>): (r: seq<string>)
    ensures forall k :: k in r <==> k in names
  {
    if names == [] then []
    else
      var front, last := Dedup(names[..|names| - 1]), names[|names| - 1];
      assert forall k :: k in names <==> k in names[..|names| - 1] || k == last by {
        assert names == names[..|names| - 1] + [last];
      }
      if last in front then front else front + [last]
  }

  /** No name occurs twice after `Dedup`. */
  lemma {:induction false} DedupDistinct(names: seq<string>)
    ensures forall i, j :: 0 <= i < j < |Dedup(names)| ==> Dedup(names)[i] != Dedup(names)[j]
  {
    if names != [] {
      var front, last := names[..|names| - 1], names[|names| - 1];
      DedupDistinct(front);
      var d := Dedup(front);
      var r := Dedup(names);
      assert r == if last in d then d else d + [last];
      forall i, j | 0 <= i < j < |r|
        ensures r[i] != r[j]
      {
        assert r[i] == d[i] && d[i] in d;
        if j < |d| {
          assert r[j] == d[j];
        }
      }
    }
  }

  /** `__camouflage(func_args, effective_args)`: each name is mapped to
      "<MISSING>" when it is no longer bound, to the camouflage sign when it
      starts with "priv_", to a camouflaged copy when its value is a dict, and
      to its shortened value otherwise. */
  method Camouflage(cfg: Config, locals: map<string, Value>, effectiveArgs: seq<string>)
    returns (r: Result<Entries>)
    ensures r == Snapshot(cfg, locals, effectiveArgs)
  {
    ghost var outcome := ArgOutcome(cfg, locals);
    var argumentsAndValues := End;
    for i := 0 to |effectiveArgs|
      invariant Assemble(effectiveArgs[..i], outcome) == Ok(argumentsAndValues)
    {
      var arg := effectiveArgs[i];
      assert effectiveArgs[..i + 1][..i] == effectiveArgs[..i];
      assert outcome(arg) == SanitizedArg(cfg, arg, locals);
      if arg !in locals {
        // deleted inside the function before the trace point
        argumentsAndValues := Put(argumentsAndValues, arg, Str(Missing));
        continue;
      }
      if StartsWith(arg, PrivPrefix) {
        argumentsAndValues := Put(argumentsAndValues, arg, Str(cfg.camouflageSign));
        continue;
      }
      var value := locals[arg];
      if value.Dict? {
        var keypaths := GetDictKeypaths(cfg, value.entries, "", 0);
        var camouflaged := CamouflageNestedDict(cfg, value, keypaths);
        if camouflaged.Raised? {
          AssembleRaisedStays(effectiveArgs, outcome, i + 1);
          return Raised;
        }
        argumentsAndValues := Put(argumentsAndValues, arg, camouflaged.value);
        continue;
      }
      argumentsAndValues := Put(argumentsAndValues, arg, ShortenString(cfg, value));
    }
    assert effectiveArgs[..|effectiveArgs|] == effectiveArgs;
    r := Ok(argumentsAndValues);
  }

  /** Once a pass raises, the whole loop raises. */
  lemma {:induction false} AssembleRaisedStays(names: seq<string>, outcome: string -> Result<Value>, n: nat)
    requires n <= |names|
    requires Assemble(names[..n], outcome) == Raised
    ensures Assemble(names, outcome) == Raised
    decreases |names| - n
  {
    if n < |names| {
      assert names[..n + 1][..n] == names[..n];
      AssembleRaisedStays(names, outcome, n + 1);
    } else {
      assert names[..n] == names;
    }
  }

  /** `__extract_arguments(func_args)`: the snapshot of the positional names
      followed by the `*args` names and the `**kwargs` names. */
  method ExtractArguments(cfg: Config, info: ArgInfo) returns (r: Result<Entries>)
    ensures r == Snapshot(cfg, info.locals, info.args + Collected(info.varargs) + Collected(info.keywords))
  {
    var effectiveArgs: seq<string> := [];
    if info.args != [] {
      effectiveArgs := effectiveArgs + info.args;
    }
    match info.varargs {
      case Names(ns) =>
        if ns != [] {
          effectiveArgs := effectiveArgs + ns;
        }
      case Name(n) =>
        if n != "" {
          effectiveArgs := effectiveArgs + [n];
        }
      case Absent =>
    }
    match info.keywords {
      case Names(ns) =>
        if ns != [] {
          effectiveArgs := effectiveArgs + ns;
        }
      case Name(n) =>
        if n != "" {
          effectiveArgs := effectiveArgs + [n];
        }
      case Absent =>
    }
    assert effectiveArgs == info.args + Collected(info.varargs) + Collected(info.keywords);
    r := Camouflage(cfg, info.locals, effectiveArgs);
  }

  // What the snapshot holds.

  /** Every pass in `names` completes without raising. */
  ghost predicate AllOk(names: seq<string>, outcome: string -> Result<Value>)
  {
    forall j :: 0 <= j < |names| ==> outcome(names[j]).Ok?
  }

  /** All passes of `names + [n]` complete exactly when those of `names` and that of `n` do. */
  lemma AllOkSnoc(names: seq<string>, outcome: string -> Result<Value>)
    requires names != []
    ensures AllOk(names, outcome) <==>
      AllOk(names[..|names| - 1], outcome) && outcome(names[|names| - 1]).Ok?
  {
    var front := names[..|names| - 1];
    if AllOk(front, outcome) && outcome(names[|names| - 1]).Ok? {
      forall j | 0 <= j < |names|
        ensures outcome(names[j]).Ok?
      {
        if j < |front| {
          assert names[j] == front[j];
        }
      }
    }
    if AllOk(names, outcome) {
      forall j | 0 <= j < |front|
        ensures outcome(front[j]).Ok?
      {
        assert names[j] == front[j];
      }
    }
  }

  /** The loop completes exactly when the pass for every name does. */
  lemma {:induction false} AssembleRaises(names: seq<string>, outcome: string -> Result<Value>)
    ensures Assemble(names, outcome).Ok? <==> AllOk(names, outcome)
  {
    if names != [] {
      AssembleRaises(names[..|names| - 1], outcome);
      AllOkSnoc(names, outcome);
    }
  }

  /** A loop that does not raise has one key per distinct name, in order of
      first occurrence. */
  lemma {:induction false} AssembleKeys(names: seq<string>, outcome: string -> Result<Value>)
    requires Assemble(names, outcome).Ok?
    ensures Keys(Assemble(names, outcome).value) == Dedup(names)
  {
    if names != [] {
      var front, last := names[..|names| - 1], names[|names| - 1];
      AssembleKeys(front, outcome);
      PutKeys(Assemble(front, outcome).value, last, outcome(last).value);
    }
  }

  /** A loop that does not raise maps the name at `j` to the outcome of its pass. */
  lemma {:induction false} AssembleLookupAt(names: seq<string>, outcome: string -> Result<Value>, j: int)
    requires Assemble(names, outcome).Ok?
    requires 0 <= j < |names|
    ensures outcome(names[j]).Ok?
    ensures Lookup(Assemble(names, outcome).value, names[j]) == Some(outcome(names[j]).value)
    decreases |names|
  {
    var front, last := names[..|names| - 1], names[|names| - 1];
    var d := Assemble(front, outcome).value;
    assert Assemble(names, outcome) == Ok(Put(d, last, outcome(last).value));
    if names[j] != last {
      assert names[j] == front[j];
      AssembleLookupAt(front, outcome, j);
    }
  }

  /** A loop that does not raise maps every name to the outcome of its pass. */
  lemma AssembleLookup(names: seq<string>, outcome: string -> Result<Value>)
    requires Assemble(names, outcome).Ok?
    ensures forall j :: 0 <= j < |names| ==>
      && outcome(names[j]).Ok?
      && Lookup(Assemble(names, outcome).value, names[j]) == Some(outcome(names[j]).value)
  {
    forall j | 0 <= j < |names|
      ensures outcome(names[j]).Ok?
      ensures Lookup(Assemble(names, outcome).value, names[j]) == Some(outcome(names[j]).value)
    {
      AssembleLookupAt(names, outcome, j);
    }
  }

  /** One more name extends the loop by one assignment. */
  lemma AssembleSnoc(names: seq<string>, outcome: string -> Result<Value>, n: string)
    ensures Assemble(names + [n], outcome) ==
      match Assemble(names, outcome)
      case Raised => Raised
      case Ok(d) =>
        match outcome(n)
        case Raised => Raised
        case Ok(v) => Ok(Put(d, n, v))
  {
    assert (names + [n])[..|names|] == names;
  }

  /** What an argument is logged as, stated without the path-by-path loop:
      "<MISSING>" for a name no longer bound, the sign for a name that starts
      with "priv_", the sanitized dict for a dict, the shortened value
      otherwise. */
  function LoggedValue(cfg: Config, name: string, locals: map<string, Value>): Value
  {
    if name !in locals then Str(Missing)
    else if StartsWith(name, PrivPrefix) then Str(cfg.camouflageSign)
    else if locals[name].Dict? then Dict(Sanitized(cfg, locals[name].entries, 0))
    else ShortenString(cfg, locals[name])
  }

  /** The pass for one argument whose value, if a dict, is well formed never
      raises and logs `LoggedValue`. */
  lemma ArgumentSanitized(cfg: Config, name: string, locals: map<string, Value>)
    requires name in locals ==> WellFormed(locals[name])
    ensures SanitizedArg(cfg, name, locals) == Ok(LoggedValue(cfg, name, locals))
  {
    if name in locals && !StartsWith(name, PrivPrefix) && locals[name].Dict? {
      CamouflageOfKeypaths(cfg, locals[name].entries);
    }
  }

  /** When every argument that is still bound holds a well-formed value, the
      snapshot never raises: it has every argument name once, in order of first
      occurrence, mapped to its logged value. Other locals of the frame play no
      part. */
  lemma SnapshotOfWellFormed(cfg: Config, locals: map<string, Value>, names: seq<string>)
    requires forall j :: 0 <= j < |names| && names[j] in locals ==> WellFormed(locals[names[j]])
    ensures Snapshot(cfg, locals, names).Ok?
    ensures Keys(Snapshot(cfg, locals, names).value) == Dedup(names)
    ensures forall j :: 0 <= j < |names| ==>
      Lookup(Snapshot(cfg, locals, names).value, names[j]) == Some(LoggedValue(cfg, names[j], locals))
  {
    var outcome := ArgOutcome(cfg, locals);
    forall j | 0 <= j < |names|
      ensures outcome(names[j]) == Ok(LoggedValue(cfg, names[j], locals))
    {
      ArgumentSanitized(cfg, names[j], locals);
    }
    AssembleRaises(names, outcome);
    AssembleKeys(names, outcome);
    AssembleLookup(names, outcome);
  }

  /** The locals of `all_in_one(5, "b", 123, {"foo": "s", "priv_bar": secret})`. */
  function ExampleLocals(secret: string): map<string, Value>
  {
    map["i" := Scalar("5"), "a_string" := Str("b"), "priv_foo" := Scalar("123"),
        "dic" := Dict(Entry("foo", Str("s"), Entry("priv_bar", Str(secret), End)))]
  }

  /** The logged value of each argument of the example call. */
  lemma ExampleArgs(secret: string)
    ensures SanitizedArg(Defaults, "i", ExampleLocals(secret)) == Ok(Scalar("5"))
    ensures SanitizedArg(Defaults, "a_string", ExampleLocals(secret)) == Ok(Str("b"))
    ensures SanitizedArg(Defaults, "priv_foo", ExampleLocals(secret)) == Ok(Str("******"))
    ensures SanitizedArg(Defaults, "dic", ExampleLocals(secret)) ==
      Ok(Dict(Entry("foo", Str("s"), Entry("priv_bar", Str("******"), End))))
  {
    var locals := ExampleLocals(secret);
    ExampleNames();
    var es := Entry("foo", Str("s"), Entry("priv_bar", Str(secret), End));
    assert locals["dic"] == Dict(es);
    assert DotFree("foo") && DotFree("priv_bar") && "foo" != "priv_bar";
    assert WellFormedEntries(es);
    ArgumentSanitized(Defaults, "dic", locals);
    ExampleDictSanitized(secret);
  }

  /** The example call after its first two arguments. */
  lemma ExampleFirstArgs(secret: string)
    ensures Snapshot(Defaults, ExampleLocals(secret), ["i", "a_string"]) ==
      Ok(Entry("i", Scalar("5"), Entry("a_string", Str("b"), End)))
  {
    var outcome := ArgOutcome(Defaults, ExampleLocals(secret));
    ExampleArgs(secret);
    AssembleSnoc([], outcome, "i");
    assert [] + ["i"] == ["i"];
    assert Assemble(["i"], outcome) == Ok(Entry("i", Scalar("5"), End));
    AssembleSnoc(["i"], outcome, "a_string");
    assert ["i"] + ["a_string"] == ["i", "a_string"];
  }

  /** A call `all_in_one(5, "b", 123, {"foo": "s", "priv_bar": secret})` is
      logged with `priv_foo` and the nested `priv_bar` camouflaged, whatever
      the secret. */
  lemma TracedCallExample(secret: string)
    ensures Snapshot(Defaults, ExampleLocals(secret), ["i", "a_string", "priv_foo", "dic"]) ==
      Ok(Entry("i", Scalar("5"),
         Entry("a_string", Str("b"),
         Entry("priv_foo", Str("******"),
         Entry("dic", Dict(Entry("foo", Str("s"), Entry("priv_bar", Str("******"), End))), End)))))
  {
    var outcome := ArgOutcome(Defaults, ExampleLocals(secret));
    ExampleArgs(secret);
    ExampleFirstArgs(secret);
    var e2 := Entry("i", Scalar("5"), Entry("a_string", Str("b"), End));
    var e3 := Entry("i", Scalar("5"), Entry("a_string", Str("b"), Entry("priv_foo", Str("******"), End)));
    AssembleSnoc(["i", "a_string"], outcome, "priv_foo");
    assert ["i", "a_string"] + ["priv_foo"] == ["i", "a_string", "priv_foo"];
    assert Put(e2, "priv_foo", Str("******")) == e3;
    AssembleSnoc(["i", "a_string", "priv_foo"], outcome, "dic");
    assert ["i", "a_string", "priv_foo"] + ["dic"] == ["i", "a_string", "priv_foo", "dic"];
  }

  /** The dict argument of the example call after camouflage. */
  lemma ExampleDictSanitized(secret: string)
    ensures Sanitized(Defaults, Entry("foo", Str("s"), Entry("priv_bar", Str(secret), End)), 0) ==
      Entry("foo", Str("s"), Entry("priv_bar", Str("******"), End))
  {
    var rest := Entry("priv_bar", Str(secret), End);
    assert !Sensitive("foo");
    assert Sensitive("priv_bar") by {
      assert "priv_bar"[0..5] == PrivPrefix;
    }
    assert SanitizedValue(Defaults, "foo", Str("s"), 1) == Str("s");
    assert SanitizedValue(Defaults, "priv_bar", Str(secret), 1) == Str("******");
    assert SanitizedItems(Defaults, rest, 1) == Entry("priv_bar", Str("******"), End);
  }

  /** A dict argument with a key that contains `.` makes the trace raise: its
      key path reads as two keys, and the first of them is not in the dict. */
  lemma DottedKeyRaises(cfg: Config, name: string, locals: map<string, Value>, x: string)
    requires name in locals && !StartsWith(name, PrivPrefix)
    requires locals[name] == Dict(Entry("a.b", Str(x), End))
    requires cfg.nestedDictDepthMax >= 0
    ensures SanitizedArg(cfg, name, locals) == Raised
  {
    var es := Entry("a.b", Str(x), End);
    assert "" + "a.b" == "a.b";
    assert ItemKeypaths(cfg, es, "", 1) == ["a.b"] + ItemKeypaths(cfg, End, "", 1);
    assert GetDictKeypaths(cfg, es, "", 0) == ["a.b"];
    DottedKeyPass(cfg, x);
  }

  /** The pass over the key path "a.b" of `{"a.b": x}` raises. */
  lemma DottedKeyPass(cfg: Config, x: string)
    ensures Camouflaged(cfg, Dict(Entry("a.b", Str(x), End)), ["a.b"]) == Raised
  {
    var t := Dict(Entry("a.b", Str(x), End));
    assert SensitivePrefix("a.b") == None;
    SplitCons("a", "b");
    assert Split("b") == ["b"];
    assert "a" + "." + "b" == "a.b";
    assert "a.b" != "a";
    assert Lookup(t.entries, "a") == None;
    assert GetPath(t, ["a", "b"]) == None;
    assert CamouflageStep(cfg, t, "a.b") == Raised;
  }

  /** Which names of the example call start with "priv_". */
  lemma ExampleNames()
    ensures StartsWith("priv_foo", PrivPrefix)
    ensures !StartsWith("i", PrivPrefix) && !StartsWith("a_string", PrivPrefix) && !StartsWith("dic", PrivPrefix)
  {
    assert "priv_foo"[..5] == PrivPrefix;
    assert "a_string"[..5][0] == 'a';
  }
}
