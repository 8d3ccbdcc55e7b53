/**
 * The configuration dataclasses of the Python front end (game, model,
 * optimiser, simulation, execution and evaluation parameters): their
 * fields and defaults, the setter rule that an assignment of None keeps the
 * current or default value, the start-up validation of `__post_init__`,
 * the equality of game parameters and the command-line options that
 * `arg_fields` derives from the fields.
 */
module Params {
  import opened Wrappers
  import Decimal

  /** A field value; `Absent` is Python's None. */
  datatype Value =
    | Absent
    | Bool(b: bool)
    | Int(i: int)
    | Float(text: string)   // kept as its decimal text: no float field is computed on
    | Str(s: string)
    | Path(p: string)
    | StrList(items: seq<string>)

  datatype Kind = Game | Model | Optim | Simulation | Execution | Eval

  datatype Field = Field(name: string, default: Value)

  datatype ParamsError =
    | UnexpectedKeyword(name: string)   // TypeError from the generated __init__
    | MissingAttribute(name: string)    // AttributeError from __setattr__
    | PureMctsWithCheckpoint            // ValueError, ModelParams
    | ActBatchsizeTooLarge              // ValueError, SimulationParams
    | SaveDirDeprecated                 // RuntimeError, ExecutionParams
    | RealTimeWithCheckpoint            // ValueError, EvalParams
    | NoCheckpoint                      // ValueError, EvalParams
    | BothCheckpoints                   // ValueError, EvalParams
    | PlotWithCheckpoint                // ValueError, EvalParams

  /** The declared fields of each dataclass, in declaration order. */
  function Fields(kind: Kind): seq<Field>
  {
    match kind
    case Game => [
      Field("game_name", Absent),
      Field("out_features", Bool(false)),
      Field("turn_features", Bool(false)),
      Field("geometric_features", Bool(false)),
      Field("random_features", Int(0)),
      Field("one_feature", Bool(false)),
      Field("history", Int(0)),
      Field("predict_end_state", Bool(false)),
      Field("predict_n_states", Int(0))]
    case Model => [
      Field("init_checkpoint", Absent),
      Field("pure_mcts", Bool(false)),
      Field("model_name", Absent),
      Field("nb_nets", Absent),
      Field("nb_layers_per_net", Absent),
      Field("nnsize", Absent),
      Field("fcsize", Absent),
      Field("nnks", Absent),
      Field("pooling", Bool(false)),
      Field("bn", Bool(false)),
      Field("init_method", Str("xavier_uniform")),
      Field("activation_function", Str("relu")),
      Field("global_pooling", Int(0)),
      Field("batchnorm_momentum", Float("0.01"))]
    case Optim => [
      Field("num_epoch", Int(10000000)),
      Field("epoch_len", Int(1000)),
      Field("batchsize", Int(128)),
      Field("lr", Float("0.001")),
      Field("eps", Float("0.00015")),
      Field("grad_clip", Float("0.25"))]
    case Simulation => [
      Field("num_game", Int(10)),
      Field("num_actor", Int(1)),
      Field("num_rollouts", Int(1600)),
      Field("replay_capacity", Int(1000000)),
      Field("replay_warmup", Int(10000)),
      Field("sync_period", Int(100)),
      Field("act_batchsize", Int(1)),
      Field("per_thread_batchsize", Int(0)),
      Field("train_channel_timeout_ms", Int(1)),
      Field("train_channel_num_slots", Int(1000))]
    case Execution => [
      Field("checkpoint_dir", Absent),
      Field("save_dir", Absent),
      Field("save_uncompressed", Bool(false)),
      Field("do_not_save_replay_buffer", Bool(false)),
      Field("saving_period", Int(100)),
      Field("max_time", Absent),
      Field("human_first", Bool(false)),
      Field("time_ratio", Float("0.07")),
      Field("total_time", Int(0)),
      Field("device", StrList(["cuda:0"])),
      Field("seed", Int(1)),
      Field("ddp", Bool(false)),
      Field("server_listen_endpoint", Str("")),
      Field("server_connect_hostname", Str("")),
      Field("opponent_model_path", Absent)]
    case Eval => [
      Field("real_time", Bool(false)),
      Field("checkpoint_dir", Absent),
      Field("checkpoint", Absent),
      Field("device_eval", StrList(["cuda:1"])),
      Field("num_game_eval", Int(100)),
      Field("num_parallel_games_eval", Absent),
      Field("num_actor_eval", Int(1)),
      Field("num_rollouts_eval", Int(400)),
      Field("checkpoint_opponent", Absent),
      Field("device_opponent", StrList(["cuda:0"])),
      Field("num_actor_opponent", Int(1)),
      Field("num_rollouts_opponent", Int(2000)),
      Field("seed_eval", Int(2)),
      Field("plot_enabled", Bool(false)),
      Field("plot_server", Str("http://localhost")),
      Field("plot_port", Int(8097)),
      Field("eval_verbosity", Int(1))]
  }


  predicate DistinctNames(fields: seq<Field>)
  {
    forall i, j :: 0 <= i < j < |fields| ==> fields[i].name != fields[j].name
  }

  predicate Declares(fields: seq<Field>, name: string)
  {
    exists i :: 0 <= i < |fields| && fields[i].name == name
  }

  predicate IsField(kind: Kind, name: string)
  {
    Declares(Fields(kind), name)
  }

  lemma FieldNamesDistinct(kind: Kind)
    ensures DistinctNames(Fields(kind))
  {
    match kind
    case Model => ModelNamesDistinct();
    case Execution => ExecutionNamesDistinct();
    case Eval => EvalNamesDistinct();
    case Game => GameNamesDistinct();
    case Optim => OptimNamesDistinct();
    case Simulation => SimulationNamesDistinct();
  }

  /** No name declared at an index in lo .. hi - 1 is declared again later. */
  predicate DistinctFrom(fields: seq<Field>, lo: int, hi: int)
  {
    forall i, j :: lo <= i < hi && 0 <= i < j < |fields| ==> fields[i].name != fields[j].name
  }

  lemma GameNamesDistinct()
    ensures DistinctNames(Fields(Game))
  {
    GameRows0To5();
    GameRows5To9();
  }

  lemma GameRows0To5()
    ensures DistinctFrom(Fields(Game), 0, 5)
  {
  }

  lemma GameRows5To9()
    ensures DistinctFrom(Fields(Game), 5, 9)
  {
  }

  lemma OptimNamesDistinct()
    ensures DistinctNames(Fields(Optim))
  {
    OptimRows0To6();
  }

  lemma OptimRows0To6()
    ensures DistinctFrom(Fields(Optim), 0, 6)
  {
  }

  lemma SimulationNamesDistinct()
    ensures DistinctNames(Fields(Simulation))
  {
    SimulationRows0To5();
    SimulationRows5To10();
  }

  lemma SimulationRows0To5()
    ensures DistinctFrom(Fields(Simulation), 0, 5)
  {
  }

  lemma SimulationRows5To10()
    ensures DistinctFrom(Fields(Simulation), 5, 10)
  {
  }

  lemma ModelNamesDistinct()
    ensures DistinctNames(Fields(Model))
  {
    ModelRows0To3();
    ModelRows3To6();
    ModelRows6To10();
    ModelRows10To14();
  }

  lemma ModelRows0To3()
    ensures DistinctFrom(Fields(Model), 0, 3)
  {
  }

  lemma ModelRows3To6()
    ensures DistinctFrom(Fields(Model), 3, 6)
  {
  }

  lemma ModelRows6To10()
    ensures DistinctFrom(Fields(Model), 6, 10)
  {
  }

  lemma ModelRows10To14()
    ensures DistinctFrom(Fields(Model), 10, 14)
  {
  }

  lemma ExecutionNamesDistinct()
    ensures DistinctNames(Fields(Execution))
  {
    ExecutionRows0To3();
    ExecutionRows3To6();
    ExecutionRows6To10();
    ExecutionRows10To15();
  }

  lemma ExecutionRows0To3()
    ensures DistinctFrom(Fields(Execution), 0, 3)
  {
  }

  lemma ExecutionRows3To6()
    ensures DistinctFrom(Fields(Execution), 3, 6)
  {
  }

  lemma ExecutionRows6To10()
    ensures DistinctFrom(Fields(Execution), 6, 10)
  {
  }

  lemma ExecutionRows10To15()
    ensures DistinctFrom(Fields(Execution), 10, 15)
  {
  }

  lemma EvalNamesDistinct()
    ensures DistinctNames(Fields(Eval))
  {
    EvalRows0To2();
    EvalRows2To4();
    EvalRows4To7();
    EvalRows7To11();
    EvalRows11To17();
  }

  lemma EvalRows0To2()
    ensures DistinctFrom(Fields(Eval), 0, 2)
  {
  }

  lemma EvalRows2To4()
    ensures DistinctFrom(Fields(Eval), 2, 4)
  {
  }

  lemma EvalRows4To7()
    ensures DistinctFrom(Fields(Eval), 4, 7)
  {
  }

  lemma EvalRows7To11()
    ensures DistinctFrom(Fields(Eval), 7, 11)
  {
  }

  lemma EvalRows11To17()
    ensures DistinctFrom(Fields(Eval), 11, 17)
  {
  }

  /** The declared default of a field: the class attribute or the default factory's value. */
  function DefaultIn(fields: seq<Field>, name: string): (v: Value)
    ensures !Declares(fields, name) ==> v == Absent
    ensures DistinctNames(fields) ==>
      forall i :: 0 <= i < |fields| && fields[i].name == name ==> v == fields[i].default
  {
    if |fields| == 0 then Absent
    else
      var last := fields[|fields| - 1];
      var front := fields[..|fields| - 1];
      assert forall i :: 0 <= i < |front| ==> front[i] == fields[i];
      if last.name == name then last.default else DefaultIn(front, name)
  }

  lemma DefaultAt(fields: seq<Field>, i: int)
    requires DistinctNames(fields) && 0 <= i < |fields|
    ensures DefaultIn(fields, fields[i].name) == fields[i].default
  {
  }

  function Default(kind: Kind, name: string): Value
  {
    DefaultIn(Fields(kind), name)
  }

  /**
   * The value `__setattr__` stores for an assignment of `v` to `name`: `v`
   * itself unless it is None; for None, the current value, or the class's
   * default while the instance does not hold the attribute yet. An
   * attribute that is neither held nor declared raises AttributeError.
   */
  function Assigned(fields: seq<Field>, current: map<string, Value>, name: string, v: Value): (r: Result<Value, ParamsError>)
    ensures r.Err? <==> v == Absent && name !in current && !Declares(fields, name)
    ensures r.Ok? && v != Absent ==> r.value == v
    ensures r.Ok? && v == Absent && name in current ==> r.value == current[name]
    ensures r.Ok? && v == Absent && name !in current ==> r.value == DefaultIn(fields, name)
  {
    if v != Absent then Ok(v)
    else if name in current then Ok(current[name])
    else if Declares(fields, name) then Ok(DefaultIn(fields, name))
    else Err(MissingAttribute(name))
  }

  /** What the generated `__init__` passes for a field, before the setter rule. */
  function Given(kwargs: map<string, Value>, f: Field): Value
  {
    if f.name in kwargs then kwargs[f.name] else f.default
  }

  /** The attributes after `__init__` has assigned the given fields in order. */
  function Assign(fields: seq<Field>, kwargs: map<string, Value>): (r: map<string, Value>)
    ensures forall name :: name in r <==> Declares(fields, name)
  {
    if |fields| == 0 then map[]
    else
      var last := fields[|fields| - 1];
      var front := fields[..|fields| - 1];
      assert forall i :: 0 <= i < |front| ==> front[i] == fields[i];
      var v := Given(kwargs, last);
      Assign(front, kwargs)[last.name := if v == Absent then last.default else v]
  }

  /** The attributes of a freshly initialised instance, before `__post_init__`. */
  function InitialValues(kind: Kind, kwargs: map<string, Value>): map<string, Value>
  {
    Assign(Fields(kind), kwargs)
  }

  lemma {:induction false} AssignAt(fields: seq<Field>, kwargs: map<string, Value>, i: int)
    requires 0 <= i < |fields| && DistinctNames(fields)
    ensures fields[i].name in Assign(fields, kwargs)
    ensures Assign(fields, kwargs)[fields[i].name] ==
      if fields[i].name in kwargs && kwargs[fields[i].name] != Absent then kwargs[fields[i].name]
      else fields[i].default
  {
    if i < |fields| - 1 {
      var front := fields[..|fields| - 1];
      assert forall a :: 0 <= a < |front| ==> front[a] == fields[a];
      AssignAt(front, kwargs, i);
    }
  }

  /**
   * Assigning None keeps the default: after `__init__` exactly the declared
   * fields are set, each to its keyword argument when one other than None
   * was passed and to its declared default otherwise.
   */
  lemma InitialValuesSpec(fields: seq<Field>, kwargs: map<string, Value>)
    requires DistinctNames(fields)
    ensures forall name :: name in Assign(fields, kwargs) <==> Declares(fields, name)
    ensures forall name :: Declares(fields, name) ==>
      Assign(fields, kwargs)[name] ==
        if name in kwargs && kwargs[name] != Absent then kwargs[name] else DefaultIn(fields, name)
  {
    forall name | Declares(fields, name)
      ensures Assign(fields, kwargs)[name] ==
        if name in kwargs && kwargs[name] != Absent then kwargs[name] else DefaultIn(fields, name)
    {
      var i :| 0 <= i < |fields| && fields[i].name == name;
      AssignAt(fields, kwargs, i);
    }
  }

  /** A field whose default is not None can never hold None after `__init__`. */
  lemma InitialNeverAbsent(kind: Kind, kwargs: map<string, Value>, name: string)
    requires IsField(kind, name) && Default(kind, name) != Absent
    ensures InitialValues(kind, kwargs)[name] != Absent
  {
    FieldNamesDistinct(kind);
    InitialValuesSpec(Fields(kind), kwargs);
  }

  function Get(values: map<string, Value>, name: string): Value
  {
    if name in values then values[name] else Absent
  }

  /** A float's text denotes a value other than zero: a non-zero digit before any exponent. */
  predicate NonZeroText(t: string)
  {
    |t| > 0 && ('1' <= t[0] <= '9' || (t[0] != 'e' && t[0] != 'E' && NonZeroText(t[1..])))
  }

  /** Python truthiness. */
  predicate Truthy(v: Value)
  {
    match v
    case Absent => false
    case Bool(b) => b
    case Int(i) => i != 0
    case Float(t) => NonZeroText(t)
    case Str(s) => s != ""
    case Path(_) => true
    case StrList(items) => items != []
  }

  /** The first error `__post_init__` raises, if any. */
  function Check(kind: Kind, values: map<string, Value>): (r: Option<ParamsError>)
    ensures kind == Model ==>
      (r.Some? <==> Get(values, "init_checkpoint") != Absent && Truthy(Get(values, "pure_mcts")))
    ensures kind == Simulation ==>
      (r.Some? <==> (Get(values, "per_thread_batchsize") == Int(0) &&
                     Get(values, "act_batchsize").Int? && Get(values, "num_game").Int? &&
                     Get(values, "act_batchsize").i > Get(values, "num_game").i))
    ensures kind == Execution ==> (r.Some? <==> Get(values, "save_dir") != Absent)
    ensures kind == Eval ==>
      (r.None? <==>
         ((Get(values, "checkpoint_dir") == Absent) != (Get(values, "checkpoint") == Absent) &&
          !(Get(values, "checkpoint") != Absent && Truthy(Get(values, "real_time"))) &&
          !(Get(values, "checkpoint") != Absent && Truthy(Get(values, "plot_enabled")))))
    ensures kind == Game || kind == Optim ==> r.None?
    ensures r.Some? ==> r.value in {PureMctsWithCheckpoint, ActBatchsizeTooLarge, SaveDirDeprecated,
                                    RealTimeWithCheckpoint, NoCheckpoint, BothCheckpoints, PlotWithCheckpoint}
  {
    match kind
    case Game => None
    case Optim => None
    case Model =>
      if Get(values, "init_checkpoint") != Absent && Truthy(Get(values, "pure_mcts"))
      then Some(PureMctsWithCheckpoint) else None
    case Simulation =>
      var a := Get(values, "act_batchsize");
      var n := Get(values, "num_game");
      if Get(values, "per_thread_batchsize") == Int(0) && a.Int? && n.Int? && a.i > n.i
      then Some(ActBatchsizeTooLarge) else None
    case Execution =>
      if Get(values, "save_dir") != Absent then Some(SaveDirDeprecated) else None
    case Eval =>
      var dir := Get(values, "checkpoint_dir");
      var ckpt := Get(values, "checkpoint");
      if Truthy(Get(values, "real_time")) && ckpt != Absent then Some(RealTimeWithCheckpoint)
      else if dir == Absent && ckpt == Absent then Some(NoCheckpoint)
      else if dir != Absent && ckpt != Absent then Some(BothCheckpoints)
      else if ckpt != Absent && Truthy(Get(values, "plot_enabled")) then Some(PlotWithCheckpoint)
      else None
  }

  /** Which error EvalParams raises when several rules are broken: the first one checked. */
  lemma EvalCheckOrder(values: map<string, Value>)
    ensures var dir := Get(values, "checkpoint_dir");
            var ckpt := Get(values, "checkpoint");
            && (Truthy(Get(values, "real_time")) && ckpt != Absent ==>
                  Check(Eval, values) == Some(RealTimeWithCheckpoint))
            && (dir == Absent && ckpt == Absent ==> Check(Eval, values) == Some(NoCheckpoint))
            && (!Truthy(Get(values, "real_time")) && dir != Absent && ckpt != Absent ==>
                  Check(Eval, values) == Some(BothCheckpoints))
            && ((dir == Absent && ckpt != Absent && !Truthy(Get(values, "real_time")) &&
                 Truthy(Get(values, "plot_enabled"))) ==> Check(Eval, values) == Some(PlotWithCheckpoint))
  {
  }

  /**
   * `Path.absolute()`: a relative path is put under the working directory;
   * the path is not otherwise normalised.
   */
  function Absolute(cwd: string, p: string): (r: string)
    requires |cwd| > 0 && cwd[0] == '/'
    ensures |r| > 0 && r[0] == '/'
    ensures |p| > 0 && p[0] == '/' ==> r == p
  {
    if |p| > 0 && p[0] == '/' then p else cwd + "/" + p
  }

  function AbsoluteValue(cwd: string, v: Value): Value
    requires |cwd| > 0 && cwd[0] == '/'
  {
    if v.Path? then Path(Absolute(cwd, v.p)) else v
  }

  /** The path fields `__post_init__` makes absolute when it raises nothing. */
  function PathFields(kind: Kind): seq<string>
  {
    match kind
    case Model => ["init_checkpoint"]
    case Execution => ["checkpoint_dir"]
    case Eval => ["checkpoint_dir", "checkpoint"]
    case _ => []
  }

  function MakeAbsolute(values: map<string, Value>, names: seq<string>, cwd: string): (r: map<string, Value>)
    requires |cwd| > 0 && cwd[0] == '/'
    ensures r.Keys == values.Keys
    ensures forall name :: name in values && name !in names ==> r[name] == values[name]
  {
    if |names| == 0 then values
    else
      var rest := MakeAbsolute(values, names[1..], cwd);
      if names[0] in rest && rest[names[0]] != Absent
      then rest[names[0] := AbsoluteValue(cwd, rest[names[0]])] else rest
  }

  /**
   * A dataclass instance. Its attributes live in `values`; `SetAttr` is the
   * `__setattr__` override the six classes share.
   */
  /** Assigning field i through the setter rule extends the assignment of the fields before it. */
  lemma AssignStep(fields: seq<Field>, kwargs: map<string, Value>, i: int)
    requires DistinctNames(fields) && 0 <= i < |fields|
    ensures var before := Assign(fields[..i], kwargs);
      var r := Assigned(fields, before, fields[i].name, Given(kwargs, fields[i]));
      r.Ok? && Assign(fields[..i + 1], kwargs) == before[fields[i].name := r.value]
  {
    var f := fields[i];
    var before := Assign(fields[..i], kwargs);
    assert fields[..i + 1][..i] == fields[..i];
    assert f.name !in before;
    assert Given(kwargs, f) == Absent ==> DefaultIn(fields, f.name) == f.default;
  }

  class Dataclass {
    const kind: Kind
    /** The declared fields of the class. */
    const fields: seq<Field> := Fields(kind)
    var values: map<string, Value>

    /** The instance before `__init__` has assigned anything. */
    constructor(kind: Kind)
      ensures this.kind == kind && fields == Fields(kind) && values == map[]
    {
      this.kind := kind;
      values := map[];
    }

    /** Assigning None leaves the current value, or the default, unchanged. */
    method SetAttr(name: string, v: Value) returns (r: Result<Value, ParamsError>)
      modifies this
      ensures r == Assigned(fields, old(values), name, v)
      ensures r.Ok? ==> values == old(values)[name := r.value]
      ensures r.Err? ==> values == old(values)
    {
      if v != Absent {
        r := Ok(v);
      } else if name in values {
        r := Ok(values[name]);
      } else if Declares(fields, name) {
        r := Ok(DefaultIn(fields, name));
      } else {
        return Err(MissingAttribute(name));
      }
      values := values[name := r.value];
    }

    /** The generated `__init__`: each declared field is assigned in order through `SetAttr`. */
    method Init(kwargs: map<string, Value>)
      requires values == map[] && DistinctNames(fields)
      modifies this
      ensures values == Assign(fields, kwargs)
    {
      var i := 0;
      while i < |fields|
        invariant 0 <= i <= |fields|
        invariant values == Assign(fields[..i], kwargs)
      {
        var f := fields[i];
        AssignStep(fields, kwargs, i);
        var r := SetAttr(f.name, Given(kwargs, f));
        i := i + 1;
      }
      assert fields[..i] == fields;
    }

    /**
     * `__post_init__`: the error the checks raise, if any; otherwise the
     * path fields are made absolute.
     */
    method PostInit(cwd: string) returns (e: Option<ParamsError>)
      requires |cwd| > 0 && cwd[0] == '/'
      modifies this
      ensures e == Check(kind, old(values))
      ensures e.None? ==> values == MakeAbsolute(old(values), PathFields(kind), cwd)
    {
      e := Check(kind, values);
      if e.None? {
        var names := PathFields(kind);
        var i := |names|;
        ghost var start := values;
        while i > 0
          invariant 0 <= i <= |names|
          invariant values == MakeAbsolute(start, names[i..], cwd)
        {
          i := i - 1;
          assert names[i..][1..] == names[i + 1..];
          var name := names[i];
          if name in values && values[name] != Absent {
            values := values[name := AbsoluteValue(cwd, values[name])];
          }
        }
      }
    }
  }

  /** Some keyword argument is not a declared field. */
  predicate UnexpectedKeys(kind: Kind, kwargs: map<string, Value>)
  {
    exists name :: name in kwargs && !IsField(kind, name)
  }

  /**
   * `Kind(**kwargs)`: an instance is created, initialised and validated.
   * The call fails exactly when a keyword is not a field or a check fails.
   */
  method Build(kind: Kind, kwargs: map<string, Value>, cwd: string) returns (r: Result<Dataclass, ParamsError>)
    requires |cwd| > 0 && cwd[0] == '/'
    ensures r.Err? <==> UnexpectedKeys(kind, kwargs) || Check(kind, InitialValues(kind, kwargs)).Some?
    ensures !UnexpectedKeys(kind, kwargs) && r.Err? ==> Some(r.error) == Check(kind, InitialValues(kind, kwargs))
    ensures r.Ok? ==>
      (fresh(r.value) && r.value.kind == kind &&
       r.value.values == MakeAbsolute(InitialValues(kind, kwargs), PathFields(kind), cwd))
  {
    if UnexpectedKeys(kind, kwargs) {
      var name :| name in kwargs && !IsField(kind, name);
      return Err(UnexpectedKeyword(name));
    }
    var obj, e := Construct(kind, kwargs, cwd);
    if e.Some? {
      return Err(e.value);
    }
    return Ok(obj);
  }

  /** The instance created, initialised by `__init__` and checked by `__post_init__`. */
  method Construct(kind: Kind, kwargs: map<string, Value>, cwd: string) returns (obj: Dataclass, e: Option<ParamsError>)
    requires |cwd| > 0 && cwd[0] == '/'
    ensures fresh(obj) && obj.kind == kind
    ensures e == Check(kind, InitialValues(kind, kwargs))
    ensures e.None? ==> obj.values == MakeAbsolute(InitialValues(kind, kwargs), PathFields(kind), cwd)
  {
    obj := new Dataclass(kind);
    FieldNamesDistinct(kind);
    obj.Init(kwargs);
    e := obj.PostInit(cwd);
  }

  /** The six fields `GameParams.__eq__` compares. */
  const FeatureFields: set<string> :=
    {"game_name", "out_features", "turn_features", "geometric_features", "one_feature", "history"}

  /** `GameParams.__eq__`: agreement on the feature fields only. */
  predicate GameEqual(a: map<string, Value>, b: map<string, Value>)
  {
    forall name :: name in FeatureFields ==> Get(a, name) == Get(b, name)
  }

  /**
   * Game parameters that differ only in the random-feature count or the
   * side-learning fields compare equal; a different history length does not.
   */
  lemma GameEqualIgnoresSideFields(a: map<string, Value>, name: string, v: Value)
    requires name in {"random_features", "predict_end_state", "predict_n_states"}
    ensures GameEqual(a, a[name := v])
    ensures v != Get(a, "history") ==> !GameEqual(a, a["history" := v])
  {
    assert Get(a["history" := v], "history") == v;
  }

  /** `str()` of a value, as the help text shows it. */
  function Repr(v: Value): string
  {
    match v
    case Absent => "None"
    case Bool(b) => if b then "True" else "False"
    case Int(i) => Decimal.IntToString(i)
    case Float(text) => text
    case Str(s) => s
    case Path(p) => p
    case StrList(items) => "[" + QuotedList(items) + "]"
  }

  function QuotedList(items: seq<string>): string
  {
    if |items| == 0 then ""
    else if |items| == 1 then "'" + items[0] + "'"
    else "'" + items[0] + "', " + QuotedList(items[1..])
  }

  /** The option a field becomes: its name and its help text. */
  datatype ArgField = ArgField(name: string, help: string)

  function HelpText(helps: map<string, string>, param: string, default: Value): string
  {
    (if param in helps then helps[param] else "") + " (DEFAULT: " + Repr(default) + ")"
  }

  /** The instance whose attributes the help texts show: every field at its declared default. */
  function HelpDefaults(kind: Kind): map<string, Value>
  {
    InitialValues(kind, map[])
  }

  /**
   * The help-text instance as written. For EvalParams it is built with
   * `checkpoint_dir=Path("blublu")`, which `__post_init__` makes absolute,
   * and then assigned None, which the setter rule turns into keeping that
   * path; the other classes use a default instance.
   */
  function HelpDefaultsAsWritten(kind: Kind, cwd: string): map<string, Value>
    requires |cwd| > 0 && cwd[0] == '/'
  {
    if kind != Eval then HelpDefaults(kind)
    else
      assert Fields(kind)[1].name == "checkpoint_dir";
      PlaceholderReverted(Fields(kind), PathFields(kind), cwd)
  }

  /** Build with a placeholder `checkpoint_dir`, validate, then assign it None. */
  function PlaceholderReverted(fields: seq<Field>, paths: seq<string>, cwd: string): map<string, Value>
    requires Declares(fields, "checkpoint_dir") && |cwd| > 0 && cwd[0] == '/'
  {
    var built := MakeAbsolute(Assign(fields, map["checkpoint_dir" := Path("blublu")]), paths, cwd);
    built["checkpoint_dir" := Assigned(fields, built, "checkpoint_dir", Absent).value]
  }

  lemma PlaceholderKept(fields: seq<Field>, cwd: string)
    requires DistinctNames(fields) && |fields| > 2 && |cwd| > 0 && cwd[0] == '/'
    requires fields[1].name == "checkpoint_dir" && fields[2].name == "checkpoint" && fields[2].default == Absent
    ensures PlaceholderReverted(fields, ["checkpoint_dir", "checkpoint"], cwd)["checkpoint_dir"] == Path(Absolute(cwd, "blublu"))
    ensures Repr(PlaceholderReverted(fields, ["checkpoint_dir", "checkpoint"], cwd)["checkpoint_dir"]) != Repr(Absent)
  {
    var init := Assign(fields, map["checkpoint_dir" := Path("blublu")]);
    PlaceholderInit(fields);
    var built := MakeAbsolute(init, ["checkpoint_dir", "checkpoint"], cwd);
    PlaceholderMadeAbsolute(init, cwd);
    assert Assigned(fields, built, "checkpoint_dir", Absent) == Ok(Path(Absolute(cwd, "blublu")));
    PathReprNotNone(Absolute(cwd, "blublu"));
  }

  /** The placeholder instance holds the placeholder path and no `checkpoint`. */
  lemma PlaceholderInit(fields: seq<Field>)
    requires DistinctNames(fields) && |fields| > 2
    requires fields[1].name == "checkpoint_dir" && fields[2].name == "checkpoint" && fields[2].default == Absent
    ensures var init := Assign(fields, map["checkpoint_dir" := Path("blublu")]);
      "checkpoint_dir" in init && init["checkpoint_dir"] == Path("blublu") && "checkpoint" in init && init["checkpoint"] == Absent
  {
    var kwargs := map["checkpoint_dir" := Path("blublu")];
    AssignAt(fields, kwargs, 1);
    AssignAt(fields, kwargs, 2);
  }

  /** `__post_init__` makes the placeholder absolute and leaves the absent `checkpoint` alone. */
  lemma PlaceholderMadeAbsolute(init: map<string, Value>, cwd: string)
    requires |cwd| > 0 && cwd[0] == '/'
    requires "checkpoint_dir" in init && init["checkpoint_dir"] == Path("blublu") && "checkpoint" in init && init["checkpoint"] == Absent
    ensures MakeAbsolute(init, ["checkpoint_dir", "checkpoint"], cwd) == init["checkpoint_dir" := Path(Absolute(cwd, "blublu"))]
  {
    assert ["checkpoint_dir", "checkpoint"][1..] == ["checkpoint"];
    assert MakeAbsolute(init, ["checkpoint"], cwd) == init by {
      assert ["checkpoint"][1..] == [];
    }
  }

  /** An absolute path is not printed as None. */
  lemma PathReprNotNone(p: string)
    requires |p| > 0 && p[0] == '/'
    ensures Repr(Path(p)) != Repr(Absent)
  {
    assert Repr(Path(p))[0] == '/';
    assert Repr(Absent)[0] == 'N';
  }

  /**
   * The "revert" does not revert: the help of `--checkpoint_dir` shows the
   * made-absolute placeholder path instead of the declared default None.
   */
  lemma EvalHelpDefaultNotReverted(kind: Kind, cwd: string)
    requires kind == Eval && |cwd| > 0 && cwd[0] == '/'
    ensures HelpDefaultsAsWritten(kind, cwd)["checkpoint_dir"] == Path(Absolute(cwd, "blublu"))
    ensures Fields(kind)[1] == Field("checkpoint_dir", Absent)
    ensures Repr(HelpDefaultsAsWritten(kind, cwd)["checkpoint_dir"]) != Repr(Absent)
  {
    EvalNamesDistinct();
    EvalCheckpointFields();
    PlaceholderKept(Fields(Eval), cwd);
    assert PathFields(Eval) == ["checkpoint_dir", "checkpoint"];
    assert HelpDefaultsAsWritten(kind, cwd) == PlaceholderReverted(Fields(Eval), PathFields(Eval), cwd);
  }

  /** The two checkpoint fields of EvalParams and their declared default None. */
  lemma EvalCheckpointFields()
    ensures |Fields(Eval)| > 2
    ensures Fields(Eval)[1] == Field("checkpoint_dir", Absent)
    ensures Fields(Eval)[2] == Field("checkpoint", Absent)
  {
  }

  /** Corrected, the help texts show every field's declared default, for every class. */
  lemma HelpDefaultsAreDeclared(kind: Kind, name: string)
    requires IsField(kind, name)
    ensures HelpDefaults(kind)[name] == Default(kind, name)
  {
    FieldNamesDistinct(kind);
    var i :| 0 <= i < |Fields(kind)| && Fields(kind)[i].name == name;
    AssignAt(Fields(kind), map[], i);
  }

  /**
   * `arg_fields` over a class's declared fields: in declaration order, the
   * option is named "--" followed by the field, and its help text ends with
   * the default the field shows.
   */
  method ArgFields(declared: seq<Field>, helps: map<string, string>) returns (fields: seq<(string, ArgField)>)
    ensures |fields| == |declared|
    ensures forall i :: 0 <= i < |fields| ==> fields[i] == OptionFor(helps, Assign(declared, map[]), declared[i].name)
  {
    var defaults := Assign(declared, map[]);
    fields := [];
    for i := 0 to |declared|
      invariant |fields| == i
      invariant forall j :: 0 <= j < i ==> fields[j] == OptionFor(helps, defaults, declared[j].name)
    {
      var param := declared[i].name;
      assert Declares(declared, param);
      fields := fields + [OptionFor(helps, defaults, param)];
    }
  }

  /** The entry `arg_fields` yields for a field: its name, and its option named "--" and the field. */
  function OptionFor(helps: map<string, string>, defaults: map<string, Value>, param: string): (string, ArgField)
  {
    (param, ArgField("--" + param, HelpText(helps, param, Get(defaults, param))))
  }

  /**
   * The option names strip back to the field names, name each declared
   * field once, and name nothing else.
   */
  lemma ArgFieldsMatchFields(declared: seq<Field>, fields: seq<(string, ArgField)>)
    requires DistinctNames(declared) && |fields| == |declared|
    requires forall i :: 0 <= i < |fields| ==>
      fields[i].0 == declared[i].name && fields[i].1.name == "--" + fields[i].0
    ensures forall i :: 0 <= i < |fields| ==> fields[i].1.name[2..] == fields[i].0
    ensures forall name :: (exists i :: 0 <= i < |fields| && fields[i].0 == name) <==> Declares(declared, name)
    ensures forall i, j :: 0 <= i < j < |fields| ==> fields[i].1.name != fields[j].1.name
  {
    forall i, j | 0 <= i < j < |fields|
      ensures fields[i].1.name != fields[j].1.name
    {
      assert fields[i].1.name[2..] == fields[i].0;
      assert fields[j].1.name[2..] == fields[j].0;
    }
  }
}
