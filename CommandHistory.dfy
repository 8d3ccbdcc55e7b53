/**
 * The record of the command lines a training run was started and resumed
 * with, and the rule that merges the parameters saved in a checkpoint with
 * the ones given on the resuming command line: an option typed again now
 * wins, an option typed only in an earlier run keeps the checkpoint's value,
 * and an option never typed takes the value of the resuming run.
 */
module CommandHistory {
  import opened Wrappers
  import opened Params

  /** `str.split(sep)`: the pieces between the separators, empty ones included. */
  function SplitOn(s: string, sep: char): (r: seq<string>)
    ensures |r| >= 1
    ensures forall i :: 0 <= i < |r| ==> sep !in r[i]
  {
    if |s| == 0 then [""]
    else
      var rest := SplitOn(s[1..], sep);
      if s[0] == sep then [""] + rest
      else
        assert sep !in [s[0]] + rest[0];
        [[s[0]] + rest[0]] + rest[1..]
  }

  /** `sep.join(parts)`. */
  function JoinWith(parts: seq<string>, sep: char): string
  {
    if |parts| == 0 then ""
    else if |parts| == 1 then parts[0]
    else parts[0] + [sep] + JoinWith(parts[1..], sep)
  }

  /** Splitting loses nothing: joining the pieces back gives the argument. */
  lemma {:induction false} SplitJoin(s: string, sep: char)
    ensures JoinWith(SplitOn(s, sep), sep) == s
  {
    if |s| > 0 {
      SplitJoin(s[1..], sep);
      var rest := SplitOn(s[1..], sep);
      if s[0] != sep {
        var r := SplitOn(s, sep);
        assert r[1..] == rest[1..];
        if |rest| == 1 {
          assert JoinWith(r, sep) == [s[0]] + rest[0];
        } else {
          assert JoinWith(r, sep) == [s[0]] + rest[0] + [sep] + JoinWith(rest[1..], sep);
        }
      }
    }
  }

  /** The tokens of a command line: every argument split at each '='. */
  function Tokens(argv: seq<string>): (r: seq<string>)
    ensures forall i :: 0 <= i < |r| ==> '=' !in r[i]
  {
    if |argv| == 0 then [] else SplitOn(argv[0], '=') + Tokens(argv[1..])
  }

  /** The option starts with "--". */
  predicate Dashed(option: string)
  {
    |option| >= 2 && option[0] == '-' && option[1] == '-'
  }

  /** An option name with the "--" prefix added when it is missing. */
  function Normalize(option: string): (r: string)
    ensures Dashed(r)
    ensures r == option <==> Dashed(option)
    ensures !Dashed(option) ==> r[2..] == option
  {
    if Dashed(option) then option else "--" + option
  }

  lemma NormalizeIdempotent(option: string)
    ensures Normalize(Normalize(option)) == Normalize(option)
  {
  }

  /** Some command of the list holds the token. */
  predicate AnyHolds(cmds: seq<seq<string>>, token: string)
  {
    exists i :: 0 <= i < |cmds| && token in cmds[i]
  }

  /** The commands before the last one. */
  function FormerPart(cmds: seq<seq<string>>): seq<seq<string>>
  {
    if |cmds| == 0 then [] else cmds[..|cmds| - 1]
  }

  /** `former_commands_contain` over a command list. */
  predicate FormerlySet(cmds: seq<seq<string>>, option: string)
  {
    AnyHolds(FormerPart(cmds), Normalize(option))
  }

  /** `last_command_contains` over a command list. */
  predicate NewlySet(cmds: seq<seq<string>>, option: string)
  {
    |cmds| > 0 && Normalize(option) in cmds[|cmds| - 1]
  }

  /**
   * After the former history is put in front of the current command, the
   * "formerly" query sees exactly the former commands and the "last" query
   * exactly the current one.
   */
  lemma HistoryQueries(former: seq<seq<string>>, current: seq<string>, option: string)
    ensures FormerlySet(former + [current], option) <==> AnyHolds(former, Normalize(option))
    ensures NewlySet(former + [current], option) <==> Normalize(option) in current
  {
    assert FormerPart(former + [current]) == former;
  }

  /** A run that was never resumed has no former commands. */
  lemma FreshRunNeverFormerlySet(current: seq<string>, option: string)
    ensures !FormerlySet([current], option)
  {
    assert FormerPart([current]) == [];
  }

  /**
   * The value the merge keeps for one field: the checkpoint's only when the
   * option was set in an earlier command and not in the last one.
   */
  function Pick(formerly: bool, newly: bool, fromCheckpoint: Value, fromResume: Value): (v: Value)
    ensures v == (if formerly && !newly then fromCheckpoint else fromResume)
  {
    if !formerly then
      if !newly then fromResume else fromResume
    else
      if !newly then fromCheckpoint else fromResume
  }

  /** The keyword arguments `update_params_from_checkpoint` builds, field by field. */
  function Merge(cmds: seq<seq<string>>, fields: seq<Field>, ckpt: map<string, Value>, resume: map<string, Value>): (r: map<string, Value>)
    requires forall i :: 0 <= i < |fields| ==> fields[i].name in ckpt && fields[i].name in resume
    ensures forall name :: name in r <==> Declares(fields, name)
  {
    if |fields| == 0 then map[]
    else
      var name := fields[|fields| - 1].name;
      var front := fields[..|fields| - 1];
      assert forall i :: 0 <= i < |front| ==> front[i] == fields[i];
      Merge(cmds, front, ckpt, resume)[name := Pick(FormerlySet(cmds, name), NewlySet(cmds, name), ckpt[name], resume[name])]
  }

  /**
   * The merge covers every field, and each field follows the precedence
   * rule: never set before gives the resume value, set before and not now
   * gives the checkpoint value, set again now gives the resume value.
   */
  lemma {:induction false} MergeAt(cmds: seq<seq<string>>, fields: seq<Field>, ckpt: map<string, Value>,
                                   resume: map<string, Value>, i: int)
    requires forall j :: 0 <= j < |fields| ==> fields[j].name in ckpt && fields[j].name in resume
    requires DistinctNames(fields) && 0 <= i < |fields|
    ensures var name := fields[i].name;
            var v := Merge(cmds, fields, ckpt, resume)[name];
            && (!FormerlySet(cmds, name) ==> v == resume[name])
            && (FormerlySet(cmds, name) && !NewlySet(cmds, name) ==> v == ckpt[name])
            && (FormerlySet(cmds, name) && NewlySet(cmds, name) ==> v == resume[name])
  {
    if i < |fields| - 1 {
      var front := fields[..|fields| - 1];
      assert forall j :: 0 <= j < |front| ==> front[j] == fields[j];
      MergeAt(cmds, front, ckpt, resume, i);
    }
  }

  /** The commands of this run and, once built, of the runs it resumes. */
  class CommandHistory {
    var commands: seq<seq<string>>

    /** The history of one run: its command line split into tokens. */
    constructor(argv: seq<string>)
      ensures commands == [Tokens(argv)]
    {
      commands := [Tokens(argv)];
    }

    /** The former history goes first, this run's commands last. */
    method BuildHistory(former: CommandHistory)
      modifies this
      ensures commands == old(former.commands) + old(commands)
    {
      commands := former.commands + commands;
    }

    method FormerCommandsContain(option: string) returns (r: bool)
      ensures r <==> exists i :: 0 <= i < |commands| - 1 && Normalize(option) in commands[i]
      ensures r == FormerlySet(commands, option)
    {
      var token := Normalize(option);
      var i := 0;
      while i < |commands| - 1
        invariant 0 <= i <= |commands| || (|commands| == 0 && i == 0)
        invariant forall j :: 0 <= j < i ==> token !in commands[j]
      {
        if token in commands[i] {
          assert FormerPart(commands)[i] == commands[i];
          return true;
        }
        i := i + 1;
      }
      return false;
    }

    function LastCommandContains(option: string): bool
      reads this
    {
      |commands| > 0 && Normalize(option) in commands[|commands| - 1]
    }

    /**
     * Some option of the class's fields, other than the excluded ones, is
     * in the last command.
     */
    method LastCommandContainsParams(kind: Kind, exclude: Option<seq<string>>) returns (r: bool)
      ensures var excluded := Normalized(if exclude.Some? then exclude.value else []);
              var options := OptionNames(Fields(kind));
              r <==> exists i :: 0 <= i < |options| && options[i] !in excluded && NewlySet(commands, options[i])
    {
      var excluded := if exclude.Some? then exclude.value else [];
      excluded := Normalized(excluded);
      if |commands| == 0 {
        return false;
      }
      r := AnyNewlySet(OptionNames(Fields(kind)), excluded);
    }

    /** The loop of `last_command_contains_params` over the option names. */
    method AnyNewlySet(options: seq<string>, excluded: seq<string>) returns (r: bool)
      ensures r <==> exists i :: 0 <= i < |options| && options[i] !in excluded && NewlySet(commands, options[i])
    {
      var i := 0;
      while i < |options|
        invariant 0 <= i <= |options|
        invariant forall j :: 0 <= j < i ==> !(options[j] !in excluded && NewlySet(commands, options[j]))
      {
        if options[i] !in excluded && LastCommandContains(options[i]) {
          assert NewlySet(commands, options[i]);
          return true;
        }
        i := i + 1;
      }
      return false;
    }

    /** The loop of `update_params_from_checkpoint` that picks each declared field's value. */
    method MergeParams(declared: seq<Field>, ckpt: map<string, Value>, resume: map<string, Value>)
      returns (params: map<string, Value>)
      requires forall i :: 0 <= i < |declared| ==> declared[i].name in ckpt && declared[i].name in resume
      ensures params == Merge(commands, declared, ckpt, resume)
    {
      params := map[];
      var i := 0;
      while i < |declared|
        invariant 0 <= i <= |declared|
        invariant params == Merge(commands, declared[..i], ckpt, resume)
      {
        var name := declared[i].name;
        assert declared[..i + 1][..i] == declared[..i];
        var formerlySet := FormerCommandsContain(name);
        var newlySet := LastCommandContains(name);
        if !formerlySet {
          if !newlySet {
            params := params[name := resume[name]];
          } else {
            params := params[name := resume[name]];
          }
        } else {
          if !newlySet {
            params := params[name := ckpt[name]];
          } else {
            params := params[name := resume[name]];
          }
        }
        i := i + 1;
      }
      assert declared[..i] == declared;
    }

    /**
     * The checkpoint's parameters with the resuming run's values merged in
     * by the precedence rule, rebuilt as the checkpoint's dataclass.
     */
    method UpdateParamsFromCheckpoint(ckpt: Dataclass, resume: Dataclass, cwd: string)
      returns (r: Result<Dataclass, ParamsError>)
      requires |cwd| > 0 && cwd[0] == '/'
      requires forall i :: 0 <= i < |ckpt.fields| ==>
        ckpt.fields[i].name in ckpt.values && ckpt.fields[i].name in resume.values
      ensures var merged := Merge(commands, ckpt.fields, ckpt.values, resume.values);
              && (r.Err? <==> Check(ckpt.kind, InitialValues(ckpt.kind, merged)).Some?)
              && (r.Ok? ==>
                    (fresh(r.value) && r.value.kind == ckpt.kind &&
                     r.value.values == MakeAbsolute(InitialValues(ckpt.kind, merged), PathFields(ckpt.kind), cwd)))
    {
      var params := MergeParams(ckpt.fields, ckpt.values, resume.values);
      assert !UnexpectedKeys(ckpt.kind, params);
      r := Build(ckpt.kind, params, cwd);
    }
  }

  /** The option names `arg_fields` gives the fields: "--" and the field name. */
  function OptionNames(fields: seq<Field>): (r: seq<string>)
    ensures |r| == |fields|
    ensures forall i :: 0 <= i < |r| ==> r[i] == "--" + fields[i].name
  {
    if |fields| == 0 then [] else ["--" + fields[0].name] + OptionNames(fields[1..])
  }

  /** The excluded option names with the "--" prefix added where missing. */
  function Normalized(options: seq<string>): (r: seq<string>)
    ensures |r| == |options|
    ensures forall i :: 0 <= i < |r| ==> r[i] == Normalize(options[i])
  {
    if |options| == 0 then [] else [Normalize(options[0])] + Normalized(options[1..])
  }
}
