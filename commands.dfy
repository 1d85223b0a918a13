/** Command-line commands: how a command records the names of its arguments,
    and how a parsed command line becomes the positional and keyword
    arguments of the data-manager function behind the command. */
module Commands {
  import opened Wrappers
  import opened Strings
  import PosixPath

  /** The value argparse leaves for an argument: a string, a flag, or `None`. */
  datatype Value = Str(s: string) | Flag(b: bool) | NoValue

  /** The exceptions argument handling can raise: `IndexError` from indexing
      the option strings, `AttributeError` from a missing parsed attribute or
      from a path operation on a value that is not a string. */
  datatype CommandError = IndexError | AttributeError(name: string)

  /** Python's `s[k:]`: empty when `s` is shorter than `k`. */
  function SliceFrom(s: string, k: nat): (r: string)
    ensures |s| >= k ==> s == s[..k] + r
    ensures |s| < k ==> r == ""
  {
    if |s| >= k then s[k..] else ""
  }

  /** How `add_argument` files an argument: positional under its first option
      string, or, when that starts with `-`, as a keyword argument under the
      second option string without its first two characters. */
  datatype ArgKind = Positional(name: string) | Keyword(key: string)

  function Classify(args: seq<string>): (r: Result<ArgKind, CommandError>)
    ensures r.Failure? <==> args == [] || args[0] == "" || (args[0][0] == '-' && |args| < 2)
    ensures r.Success? ==> (r.value.Keyword? <==> args[0][0] == '-')
    ensures r.Success? && r.value.Positional? ==> r.value.name == args[0]
    ensures r.Success? && r.value.Keyword? && |args[1]| >= 2 ==> args[1] == args[1][..2] + r.value.key
    ensures r.Success? && r.value.Keyword? && |args[1]| < 2 ==> r.value.key == ""
  {
    if args == [] || args[0] == "" then Failure(IndexError)
    else if args[0][0] == '-' then
      if |args| < 2 then Failure(IndexError) else Success(Keyword(SliceFrom(args[1], 2)))
    else Success(Positional(args[0]))
  }

  /** Makes a path argument absolute against `dir` when the argument's name
      mentions `marker` and the value is relative. */
  function Anchor(name: string, marker: string, value: Value, dir: Option<string>): (r: Result<Value, CommandError>)
    ensures r.Failure? <==> dir.Some? && Contains(name, marker) && !value.Str?
    ensures r.Failure? ==> r.error == AttributeError(name)
    ensures dir.None? || !Contains(name, marker) || (value.Str? && PosixPath.IsAbs(value.s)) ==> r == Success(value)
    ensures r.Success? && r.value != value ==>
              && r.value.Str? && PosixPath.NormalForm(r.value.s)
              && (PosixPath.IsAbs(r.value.s) <==> PosixPath.IsAbs(dir.value))
  {
    if dir.None? || !Contains(name, marker) then Success(value)
    else if !value.Str? then Failure(AttributeError(name))
    else if PosixPath.IsAbs(value.s) then Success(value)
    else
      var joined := PosixPath.Join(dir.value, value.s);
      PosixPath.NormpathIsNormal(joined);
      assert PosixPath.IsAbs(joined) <==> PosixPath.IsAbs(dir.value) by {
        if dir.value != "" {
          assert joined[0] == dir.value[0];
        }
      }
      Success(Str(PosixPath.Normpath(joined)))
  }

  /** `_condition_argument`: a relative value of an argument whose name
      mentions `localpath` is anchored at `localdir`, then one whose name
      mentions `remotepath` at `remotedir`, each normalised. An absolute
      value, a missing directory or any other name leaves the value as it is. */
  function ConditionArgument(name: string, value: Value, localdir: Option<string>, remotedir: Option<string>)
    : (r: Result<Value, CommandError>)
    ensures value.Str? && PosixPath.IsAbs(value.s) ==> r == Success(value)
    ensures (localdir.None? || !Contains(name, "localpath")) && (remotedir.None? || !Contains(name, "remotepath"))
            ==> r == Success(value)
    ensures remotedir.Some? && Contains(name, "remotepath") && (localdir.None? || !Contains(name, "localpath"))
            && value.Str? && !PosixPath.IsAbs(value.s)
            ==> r == Success(Str(PosixPath.Normpath(PosixPath.Join(remotedir.value, value.s))))
    ensures localdir.Some? && Contains(name, "localpath") && (remotedir.None? || !Contains(name, "remotepath"))
            && value.Str? && !PosixPath.IsAbs(value.s)
            ==> r == Success(Str(PosixPath.Normpath(PosixPath.Join(localdir.value, value.s))))
    ensures localdir.Some? && Contains(name, "localpath") && PosixPath.IsAbs(localdir.value)
            && value.Str? && !PosixPath.IsAbs(value.s)
            ==> r == Success(Str(PosixPath.Normpath(PosixPath.Join(localdir.value, value.s))))
    ensures r.Failure? <==> ((localdir.Some? && Contains(name, "localpath")) || (remotedir.Some? && Contains(name, "remotepath")))
                            && !value.Str?
    ensures r.Failure? ==> r.error == AttributeError(name)
  {
    match Anchor(name, "localpath", value, localdir)
    case Failure(e) => Failure(e)
    case Success(v) => Anchor(name, "remotepath", v, remotedir)
  }

  /** Anchoring at an absolute directory gives an absolute path. */
  lemma AnchorAbsolute(name: string, marker: string, value: Value, dir: Option<string>)
    requires dir.Some? && PosixPath.IsAbs(dir.value) && Contains(name, marker) && value.Str?
    ensures Anchor(name, marker, value, dir).Success?
    ensures Anchor(name, marker, value, dir).value.Str? && PosixPath.IsAbs(Anchor(name, marker, value, dir).value.s)
  {
    if !PosixPath.IsAbs(value.s) {
      var joined := PosixPath.Join(dir.value, value.s);
      assert joined[0] == '/';
      PosixPath.NormpathIsNormal(joined);
    }
  }

  /** With absolute directories, conditioning a conditioned value changes
      nothing more. */
  lemma ConditionIdempotent(name: string, value: Value, localdir: Option<string>, remotedir: Option<string>, v: Value)
    requires localdir.Some? ==> PosixPath.IsAbs(localdir.value)
    requires remotedir.Some? ==> PosixPath.IsAbs(remotedir.value)
    requires ConditionArgument(name, value, localdir, remotedir) == Success(v)
    ensures ConditionArgument(name, v, localdir, remotedir) == Success(v)
  {
    var local := Anchor(name, "localpath", value, localdir);
    if localdir.Some? && Contains(name, "localpath") {
      AnchorAbsolute(name, "localpath", value, localdir);
      assert local.value.Str? && PosixPath.IsAbs(local.value.s);
      assert v == local.value;
    } else if remotedir.Some? && Contains(name, "remotepath") {
      AnchorAbsolute(name, "remotepath", value, remotedir);
    }
  }

  /** The arguments `run` calls the command's function with. */
  datatype Call = Call(positional: seq<Value>, keyword: map<string, Value>)

  /** The conditioned values of the positional arguments, in order; the first
      failure stops it. */
  function PositionalValues(names: seq<string>, parsed: map<string, Value>, localdir: Option<string>, remotedir: Option<string>)
    : (r: Result<seq<Value>, CommandError>)
    ensures r.Success? ==> |r.value| == |names|
    ensures r.Success? ==> forall i :: 0 <= i < |names| ==>
              names[i] in parsed && ConditionArgument(names[i], parsed[names[i]], localdir, remotedir) == Success(r.value[i])
  {
    if names == [] then Success([])
    else
      var front := PositionalValues(names[..|names| - 1], parsed, localdir, remotedir);
      var n := names[|names| - 1];
      if front.Failure? then Failure(front.error)
      else if n !in parsed then Failure(AttributeError(n))
      else
        var v := ConditionArgument(n, parsed[n], localdir, remotedir);
        if v.Failure? then Failure(v.error)
        else
          assert forall i :: 0 <= i < |names| - 1 ==> names[i] == names[..|names| - 1][i];
          Success(front.value + [v.value])
  }

  /** The conditioned values of the keyword arguments, by name. */
  function KeywordValues(names: seq<string>, parsed: map<string, Value>, localdir: Option<string>, remotedir: Option<string>)
    : (r: Result<map<string, Value>, CommandError>)
    ensures r.Success? ==> forall k :: k in r.value <==> k in names
    ensures r.Success? ==> forall k :: k in r.value ==>
              k in parsed && ConditionArgument(k, parsed[k], localdir, remotedir) == Success(r.value[k])
  {
    if names == [] then Success(map[])
    else
      var front := KeywordValues(names[..|names| - 1], parsed, localdir, remotedir);
      var n := names[|names| - 1];
      if front.Failure? then Failure(front.error)
      else if n !in parsed then Failure(AttributeError(n))
      else
        var v := ConditionArgument(n, parsed[n], localdir, remotedir);
        if v.Failure? then Failure(v.error)
        else
          assert names == names[..|names| - 1] + [n];
          Success(front.value[n := v.value])
  }

  /** What `run` passes on: the positional values in the order the arguments
      were added, the parsed keyword values, and the caller's keyword
      arguments, which win over parsed ones of the same name. */
  function RunSpec(positionalArguments: seq<string>, keywordArguments: seq<string>, parsed: map<string, Value>,
                   localdir: Option<string>, remotedir: Option<string>, kwargs: map<string, Value>)
    : (r: Result<Call, CommandError>)
    ensures r.Success? ==> |r.value.positional| == |positionalArguments|
    ensures r.Success? ==> forall i :: 0 <= i < |positionalArguments| ==>
              positionalArguments[i] in parsed &&
              ConditionArgument(positionalArguments[i], parsed[positionalArguments[i]], localdir, remotedir)
                == Success(r.value.positional[i])
    ensures r.Success? ==> forall k :: k in r.value.keyword <==> k in kwargs || k in keywordArguments
    ensures r.Success? ==> forall k :: k in kwargs ==> r.value.keyword[k] == kwargs[k]
    ensures r.Success? ==> forall k :: k in keywordArguments && k !in kwargs ==>
              k in parsed && ConditionArgument(k, parsed[k], localdir, remotedir) == Success(r.value.keyword[k])
  {
    var pos := PositionalValues(positionalArguments, parsed, localdir, remotedir);
    if pos.Failure? then Failure(pos.error)
    else
      var key := KeywordValues(keywordArguments, parsed, localdir, remotedir);
      if key.Failure? then Failure(key.error)
      else Success(Call(pos.value, key.value + kwargs))
  }

  lemma {:induction false} PositionalPrefixFailure(names: seq<string>, k: nat, parsed: map<string, Value>,
                                                   localdir: Option<string>, remotedir: Option<string>, e: CommandError)
    requires k <= |names|
    requires PositionalValues(names[..k], parsed, localdir, remotedir) == Failure(e)
    ensures PositionalValues(names, parsed, localdir, remotedir) == Failure(e)
    decreases |names| - k
  {
    if k == |names| {
      assert names[..k] == names;
    } else {
      var front := names[..|names| - 1];
      assert front[..k] == names[..k];
      PositionalPrefixFailure(front, k, parsed, localdir, remotedir, e);
    }
  }

  lemma {:induction false} KeywordPrefixFailure(names: seq<string>, k: nat, parsed: map<string, Value>,
                                                localdir: Option<string>, remotedir: Option<string>, e: CommandError)
    requires k <= |names|
    requires KeywordValues(names[..k], parsed, localdir, remotedir) == Failure(e)
    ensures KeywordValues(names, parsed, localdir, remotedir) == Failure(e)
    decreases |names| - k
  {
    if k == |names| {
      assert names[..k] == names;
    } else {
      var front := names[..|names| - 1];
      assert front[..k] == names[..k];
      KeywordPrefixFailure(front, k, parsed, localdir, remotedir, e);
    }
  }

  /** One more positional name extends the values by its conditioned value. */
  lemma PositionalValuesStep(names: seq<string>, i: nat, parsed: map<string, Value>, localdir: Option<string>,
                             remotedir: Option<string>, values: seq<Value>, v: Value)
    requires i < |names| && names[i] in parsed
    requires PositionalValues(names[..i], parsed, localdir, remotedir) == Success(values)
    requires ConditionArgument(names[i], parsed[names[i]], localdir, remotedir) == Success(v)
    ensures PositionalValues(names[..i + 1], parsed, localdir, remotedir) == Success(values + [v])
  {
    var prefix := names[..i + 1];
    assert prefix[..|prefix| - 1] == names[..i] && prefix[|prefix| - 1] == names[i];
  }

  /** One more keyword name adds its conditioned value under its name. */
  lemma KeywordValuesStep(names: seq<string>, i: nat, parsed: map<string, Value>, localdir: Option<string>,
                          remotedir: Option<string>, values: map<string, Value>, v: Value)
    requires i < |names| && names[i] in parsed
    requires KeywordValues(names[..i], parsed, localdir, remotedir) == Success(values)
    requires ConditionArgument(names[i], parsed[names[i]], localdir, remotedir) == Success(v)
    ensures KeywordValues(names[..i + 1], parsed, localdir, remotedir) == Success(values[names[i] := v])
  {
    var prefix := names[..i + 1];
    assert prefix[..|prefix| - 1] == names[..i] && prefix[|prefix| - 1] == names[i];
  }

  /** A name missing from the parsed arguments, or one whose value cannot be
      conditioned, fails the positional collection with its error. */
  lemma PositionalFailureAt(names: seq<string>, i: nat, parsed: map<string, Value>, localdir: Option<string>,
                            remotedir: Option<string>, values: seq<Value>, e: CommandError)
    requires i < |names|
    requires PositionalValues(names[..i], parsed, localdir, remotedir) == Success(values)
    requires names[i] !in parsed ==> e == AttributeError(names[i])
    requires names[i] in parsed ==> ConditionArgument(names[i], parsed[names[i]], localdir, remotedir) == Failure(e)
    ensures PositionalValues(names, parsed, localdir, remotedir) == Failure(e)
  {
    var prefix := names[..i + 1];
    assert prefix[..|prefix| - 1] == names[..i] && prefix[|prefix| - 1] == names[i];
    PositionalPrefixFailure(names, i + 1, parsed, localdir, remotedir, e);
  }

  /** The same for the keyword collection. */
  lemma KeywordFailureAt(names: seq<string>, i: nat, parsed: map<string, Value>, localdir: Option<string>,
                         remotedir: Option<string>, values: map<string, Value>, e: CommandError)
    requires i < |names|
    requires KeywordValues(names[..i], parsed, localdir, remotedir) == Success(values)
    requires names[i] !in parsed ==> e == AttributeError(names[i])
    requires names[i] in parsed ==> ConditionArgument(names[i], parsed[names[i]], localdir, remotedir) == Failure(e)
    ensures KeywordValues(names, parsed, localdir, remotedir) == Failure(e)
  {
    var prefix := names[..i + 1];
    assert prefix[..|prefix| - 1] == names[..i] && prefix[|prefix| - 1] == names[i];
    KeywordPrefixFailure(names, i + 1, parsed, localdir, remotedir, e);
  }

  /** `Command`: a name and the argument names recorded by `add_argument`. */
  class Command {
    const name: string
    var positionalArguments: seq<string>
    var keywordArguments: seq<string>

    constructor(name: string)
      ensures this.name == name && positionalArguments == [] && keywordArguments == []
    {
      this.name := name;
      positionalArguments := [];
      keywordArguments := [];
    }

    /** `add_argument` with the option strings `args`: the argument's name is
        appended to the positional or the keyword list, or nothing changes
        when indexing the option strings fails. */
    method AddArgument(args: seq<string>) returns (r: Result<(), CommandError>)
      modifies this
      ensures r.Failure? <==> Classify(args).Failure?
      ensures Classify(args).Failure? ==>
                positionalArguments == old(positionalArguments) && keywordArguments == old(keywordArguments)
      ensures Classify(args).Success? && Classify(args).value.Positional? ==>
                positionalArguments == old(positionalArguments) + [Classify(args).value.name]
                && keywordArguments == old(keywordArguments)
      ensures Classify(args).Success? && Classify(args).value.Keyword? ==>
                keywordArguments == old(keywordArguments) + [Classify(args).value.key]
                && positionalArguments == old(positionalArguments)
    {
      if |args| == 0 || |args[0]| == 0 {
        return Failure(IndexError);
      }
      if args[0][0] == '-' {
        if |args| < 2 {
          return Failure(IndexError);
        }
        keywordArguments := keywordArguments + [SliceFrom(args[1], 2)];
      } else {
        positionalArguments := positionalArguments + [args[0]];
      }
      r := Success(());
    }

    /** `run`: `localdir` and `remotedir` are the two keyword arguments it
        pops; `kwargs` are the caller's remaining keyword arguments. */
    method Run(parsed: map<string, Value>, localdir: Option<string>, remotedir: Option<string>, kwargs: map<string, Value>)
      returns (r: Result<Call, CommandError>)
      ensures r == RunSpec(positionalArguments, keywordArguments, parsed, localdir, remotedir, kwargs)
    {
      var posArgs := CollectPositional(positionalArguments, parsed, localdir, remotedir);
      if posArgs.Failure? {
        return Failure(posArgs.error);
      }
      var keyArgs := CollectKeywords(keywordArguments, parsed, localdir, remotedir);
      if keyArgs.Failure? {
        return Failure(keyArgs.error);
      }
      r := Success(Call(posArgs.value, keyArgs.value + kwargs));
    }
  }

  /** The loop of `run` over the positional argument names. */
  method CollectPositional(names: seq<string>, parsed: map<string, Value>, localdir: Option<string>, remotedir: Option<string>)
    returns (r: Result<seq<Value>, CommandError>)
    ensures r == PositionalValues(names, parsed, localdir, remotedir)
  {
    var values: seq<Value> := [];
    for i := 0 to |names|
      invariant PositionalValues(names[..i], parsed, localdir, remotedir) == Success(values)
    {
      var arg := names[i];
      if arg !in parsed {
        PositionalFailureAt(names, i, parsed, localdir, remotedir, values, AttributeError(arg));
        return Failure(AttributeError(arg));
      }
      var value := ConditionArgument(arg, parsed[arg], localdir, remotedir);
      if value.Failure? {
        PositionalFailureAt(names, i, parsed, localdir, remotedir, values, value.error);
        return Failure(value.error);
      }
      PositionalValuesStep(names, i, parsed, localdir, remotedir, values, value.value);
      values := values + [value.value];
    }
    assert names[..|names|] == names;
    r := Success(values);
  }

  /** The loop of `run` over the keyword argument names. */
  method CollectKeywords(names: seq<string>, parsed: map<string, Value>, localdir: Option<string>, remotedir: Option<string>)
    returns (r: Result<map<string, Value>, CommandError>)
    ensures r == KeywordValues(names, parsed, localdir, remotedir)
  {
    var values: map<string, Value> := map[];
    for i := 0 to |names|
      invariant KeywordValues(names[..i], parsed, localdir, remotedir) == Success(values)
    {
      var arg := names[i];
      if arg !in parsed {
        KeywordFailureAt(names, i, parsed, localdir, remotedir, values, AttributeError(arg));
        return Failure(AttributeError(arg));
      }
      var value := ConditionArgument(arg, parsed[arg], localdir, remotedir);
      if value.Failure? {
        KeywordFailureAt(names, i, parsed, localdir, remotedir, values, value.error);
        return Failure(value.error);
      }
      KeywordValuesStep(names, i, parsed, localdir, remotedir, values, value.value);
      values := values[arg := value.value];
    }
    assert names[..|names|] == names;
    r := Success(values);
  }

  /** The `replicate` command registers `remotepath` and `destination` as
      positional arguments and `source` and `tape` as keyword arguments. */
  method ReplicateCommand() returns (c: Command)
    ensures c.positionalArguments == ["remotepath", "destination"]
    ensures c.keywordArguments == ["source", "tape"]
  {
    c := new Command("replicate");
    var r := c.AddArgument(["remotepath"]);
    r := c.AddArgument(["destination"]);
    r := c.AddArgument(["-s", "--source"]);
    r := c.AddArgument(["-t", "--tape"]);
  }

  /** How a line typed into the shell ended: `shlex` could not split it,
      the command ran through, the command raised `sh.ErrorReturnCode` after
      printing some lines, argparse exited, or the command raised any other
      exception after printing some lines. */
  datatype CliOutcome =
    | BadSyntax(message: string)
    | Completed(lines: seq<string>)
    | ToolFailed(printed: seq<string>, stderr: string)
    | Exited
    | Raised(printed: seq<string>, exception: string)

  /** `run_from_cli`: what it prints, and how it ends. It returns `False`
      whatever the command did, except for an exception other than the
      three it catches, which propagates to its caller. */
  function RunFromCli(outcome: CliOutcome): (r: (string, Result<bool, string>))
    ensures r.1.Failure? <==> outcome.Raised?
    ensures r.1.Success? ==> !r.1.value
    ensures outcome.Raised? ==> r.1.error == outcome.exception && r.0 == Concat(outcome.printed)
    ensures outcome.Completed? ==> r.0 == Concat(outcome.lines)
    ensures outcome.ToolFailed? ==> r.0 == Concat(outcome.printed) + outcome.stderr
    ensures outcome.BadSyntax? ==> r.0 == outcome.message + "\n"
    ensures outcome.Exited? ==> r.0 == ""
  {
    match outcome
    case BadSyntax(message) => (message + "\n", Success(false))
    case Completed(lines) => (Concat(lines), Success(false))
    case ToolFailed(printed, stderr) => (Concat(printed) + stderr, Success(false))
    case Exited => ("", Success(false))
    case Raised(printed, exception) => (Concat(printed), Failure(exception))
  }
}
