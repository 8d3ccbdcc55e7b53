/**
 * Checkpoint files of a training run: the file name a checkpoint is saved
 * under, the entries it holds, how the loader picks the decompression from
 * the file's suffix, and how the evaluator picks, round after round, the
 * checkpoints it has not loaded yet from a directory listing. Reading and
 * writing the files is not modelled.
 */
module Checkpoint {
  import opened Wrappers
  import Decimal

  datatype CheckpointError =
    | UnknownExtension(ext: string)   // ValueError from load_checkpoint
    | NotAnEpoch(text: string)        // ValueError from int() on a file name
    | NoExtension(path: string)       // the extension pattern found nothing in the first file

  function EndsWith(s: string, suffix: string): bool
  {
    |suffix| <= |s| && s[|s| - |suffix|..] == suffix
  }

  /** The name a checkpoint of `epoch` is saved under. */
  function SavedName(epoch: nat, saveUncompressed: bool): (name: string)
    ensures |name| > 11 && name[..11] == "checkpoint_"
    ensures saveUncompressed ==> EndsWith(name, ".pt") && !EndsWith(name, ".gz")
    ensures !saveUncompressed ==> EndsWith(name, ".pt.gz")
  {
    var base := "checkpoint_" + Decimal.NatToString(epoch);
    if saveUncompressed then base + ".pt" else base + ".pt.gz"
  }

  /** The entries a saved checkpoint holds. */
  function SavedKeys(doNotSaveReplayBuffer: bool): (keys: set<string>)
    ensures "replay_buffer" in keys <==> !doNotSaveReplayBuffer
    ensures "epoch" in keys && "command_history" in keys && "model_state_dict" in keys
  {
    var always := {"command_history", "epoch", "model_state_dict", "optim_state_dict", "game_params",
                   "model_params", "optim_params", "simulation_params", "execution_params"};
    if doNotSaveReplayBuffer then always else always + {"replay_buffer"}
  }

  /** The last path component. */
  function BaseName(path: string): (name: string)
    ensures '/' !in name
    ensures EndsWith(path, name)
  {
    if |path| == 0 then ""
    else if path[|path| - 1] == '/' then ""
    else
      var front := BaseName(path[..|path| - 1]);
      assert path[..|path| - 1][|path| - 1 - |front|..] == front;
      front + [path[|path| - 1]]
  }

  /** The index of the last '.' of a name, if any. */
  function LastDot(name: string): (r: Option<nat>)
    ensures r.Some? ==> r.value < |name| && name[r.value] == '.' &&
                        forall k :: r.value < k < |name| ==> name[k] != '.'
    ensures r.None? ==> forall k :: 0 <= k < |name| ==> name[k] != '.'
  {
    if |name| == 0 then None
    else if name[|name| - 1] == '.' then Some(|name| - 1)
    else LastDot(name[..|name| - 1])
  }

  /**
   * `PurePath.suffix`: from the last '.' of the last component, unless that
   * dot starts the name or ends it.
   */
  function Suffix(path: string): (ext: string)
    ensures ext == "" || (ext[0] == '.' && EndsWith(path, ext) && '.' !in ext[1..] && |ext| >= 2)
  {
    var name := BaseName(path);
    match LastDot(name)
    case None => ""
    case Some(i) =>
      if 0 < i < |name| - 1 then
        assert name[i..][1..] == name[i + 1..];
        assert EndsWith(name, name[i..]);
        name[i..]
      else ""
  }

  datatype Format = Plain | Gzip | Zip

  /** The decompression `load_checkpoint` picks, from the suffix alone. */
  function LoadFormat(path: string): (r: Result<Format, CheckpointError>)
    ensures r == Ok(Plain) <==> Suffix(path) == ".pt"
    ensures r == Ok(Gzip) <==> Suffix(path) == ".gz"
    ensures r == Ok(Zip) <==> Suffix(path) == ".zip"
    ensures r.Err? <==> Suffix(path) !in {".pt", ".gz", ".zip"}
  {
    var ext := Suffix(path);
    if ext == ".pt" then Ok(Plain)
    else if ext == ".gz" then Ok(Gzip)
    else if ext == ".zip" then Ok(Zip)
    else Err(UnknownExtension(ext))
  }

  /** Every name a checkpoint is saved under loads with the matching decompression. */
  lemma SavedNameLoads(epoch: nat, saveUncompressed: bool)
    ensures LoadFormat(SavedName(epoch, saveUncompressed)) == if saveUncompressed then Ok(Plain) else Ok(Gzip)
  {
    var digits := Decimal.NatToString(epoch);
    assert Decimal.AllDigits(digits);
    var name := SavedName(epoch, saveUncompressed);
    var i := |name| - 3;
    assert forall k :: 0 <= k < |name| ==> name[k] != '/';
    assert forall k :: i < k < |name| ==> name[k] != '.';
    SuffixIs(name, i);
    assert name[i..] == if saveUncompressed then ".pt" else ".gz";
  }

  /** The suffix of a name without '/' runs from its last dot, when that dot is inside. */
  lemma SuffixIs(name: string, i: nat)
    requires forall k :: 0 <= k < |name| ==> name[k] != '/'
    requires 0 < i < |name| - 1 && name[i] == '.' && forall k :: i < k < |name| ==> name[k] != '.'
    ensures Suffix(name) == name[i..]
  {
    BaseNameNoSlash(name);
    LastDotIs(name, i);
  }

  lemma {:induction false} BaseNameNoSlash(name: string)
    requires forall k :: 0 <= k < |name| ==> name[k] != '/'
    ensures BaseName(name) == name
  {
    if |name| > 0 {
      BaseNameNoSlash(name[..|name| - 1]);
    }
  }

  lemma {:induction false} LastDotIs(name: string, i: nat)
    requires i < |name| && name[i] == '.' && forall k :: i < k < |name| ==> name[k] != '.'
    ensures LastDot(name) == Some(i)
  {
    if i < |name| - 1 {
      LastDotIs(name[..|name| - 1], i);
    }
  }

  /**
   * The pattern `(\.pt|\.gz|\.pt\.gz|\.zip)$` removed: the leftmost match
   * ending the string, so ".pt.gz" goes as a whole.
   */
  function StripExt(path: string): (r: string)
    ensures r <= path
    ensures path[|r|..] in {"", ".pt", ".gz", ".pt.gz", ".zip"}
    ensures EndsWith(path, ".pt.gz") ==> path[|r|..] == ".pt.gz"
    ensures path[|r|..] == "" <==>
      !EndsWith(path, ".pt") && !EndsWith(path, ".gz") && !EndsWith(path, ".zip")
  {
    if EndsWith(path, ".pt.gz") then path[..|path| - 6]
    else if EndsWith(path, ".pt") || EndsWith(path, ".gz") then path[..|path| - 3]
    else if EndsWith(path, ".zip") then path[..|path| - 4]
    else
      assert path[|path|..] == "";
      path
  }

  /** Stripping the extension of a saved name leaves "checkpoint_" and the epoch. */
  lemma StripSavedName(epoch: nat, saveUncompressed: bool)
    ensures StripExt(SavedName(epoch, saveUncompressed)) == "checkpoint_" + Decimal.NatToString(epoch)
  {
    var base := "checkpoint_" + Decimal.NatToString(epoch);
    if saveUncompressed {
      assert SavedName(epoch, saveUncompressed) == base + ".pt";
      assert !EndsWith(base + ".pt", ".pt.gz") by {
        assert (base + ".pt")[|base + ".pt"| - 2] == 'p';
      }
    } else {
      assert SavedName(epoch, saveUncompressed) == base + ".pt.gz";
    }
  }

  /** `int()` of the text after the base path: decimal digits only. */
  function ParseEpoch(text: string): (r: Result<nat, CheckpointError>)
    ensures r.Ok? <==> |text| > 0 && Decimal.AllDigits(text)
  {
    if |text| > 0 && Decimal.AllDigits(text) then Ok(Decimal.ParseNat(text)) else Err(NotAnEpoch(text))
  }

  /** The epoch named by entry i of a listing of `base*` names. */
  function EpochAt(listing: seq<string>, base: string, i: int): Result<nat, CheckpointError>
    requires 0 <= i < |listing| && |base| <= |StripExt(listing[i])|
  {
    ParseEpoch(StripExt(listing[i])[|base|..])
  }

  /** Every name of the listing is at least as long as the base path, once stripped. */
  predicate Listed(listing: seq<string>, base: string)
  {
    forall i :: 0 <= i < |listing| ==> |base| <= |StripExt(listing[i])|
  }

  /** `int()` of each name of the listing, in order. */
  function Parsed(listing: seq<string>, base: string): (rs: seq<Result<nat, CheckpointError>>)
    requires Listed(listing, base)
    ensures |rs| == |listing|
    ensures forall i :: 0 <= i < |listing| ==> rs[i] == EpochAt(listing, base, i)
  {
    seq(|listing|, i requires 0 <= i < |listing| => EpochAt(listing, base, i))
  }

  /** The epochs a listing of `base*` names, extensions stripped: the first error, if any, else the set. */
  function EpochsOf(listing: seq<string>, base: string): (r: Result<set<nat>, CheckpointError>)
    requires Listed(listing, base)
    ensures r.Ok? ==> forall e :: e in r.value <==> Ok(e) in Parsed(listing, base)
    ensures r.Err? <==> exists i :: 0 <= i < |listing| && EpochAt(listing, base, i).Err?
  {
    Collect(Parsed(listing, base))
  }

  /** The values of a sequence of results, or its first error. */
  function Collect<E>(rs: seq<Result<nat, E>>): (r: Result<set<nat>, E>)
    ensures r.Ok? ==> forall e :: e in r.value <==> Ok(e) in rs
    ensures r.Err? <==> exists i :: 0 <= i < |rs| && rs[i].Err?
    ensures r.Err? ==> Err(r.error) in rs
  {
    if |rs| == 0 then Ok({})
    else
      match rs[0]
      case Err(e) => Err(e)
      case Ok(e) =>
        match Collect(rs[1..])
        case Err(e2) => Err(e2)
        case Ok(rest) => Ok({e} + rest)
  }

  predicate StrictlyIncreasing(s: seq<int>)
  {
    forall i, j :: 0 <= i < j < |s| ==> s[i] < s[j]
  }

  /** `m` is the least element of `s`. */
  predicate IsMin(m: nat, s: set<nat>)
  {
    m in s && forall x :: x in s ==> m <= x
  }

  lemma {:induction false} MinExists(s: set<nat>)
    requires s != {}
    ensures exists m :: IsMin(m, s)
  {
    var y :| y in s;
    if s == {y} {
      assert IsMin(y, s);
    } else {
      MinExists(s - {y});
      var m :| IsMin(m, s - {y});
      var low := if y < m then y else m;
      forall x | x in s
        ensures low <= x
      {
        if x != y {
          assert x in s - {y};
        }
      }
      assert IsMin(low, s);
    }
  }

  /** The least element of a non-empty set. */
  function SetMin(s: set<nat>): (m: nat)
    requires s != {}
    ensures IsMin(m, s)
  {
    MinExists(s);
    var m :| IsMin(m, s);
    m
  }

  /** `sorted()` of a set of epochs. */
  function SortAscending(s: set<nat>): (r: seq<nat>)
    ensures StrictlyIncreasing(r)
    ensures forall x :: x in r <==> x in s
    ensures |r| == |s|
    decreases |s|
  {
    if s == {} then []
    else
      var m := SetMin(s);
      var rest := SortAscending(s - {m});
      SortStep(s, m, rest);
      [m] + rest
  }

  /** The least element put in front of the sorted others gives the sorted set. */
  lemma SortStep(s: set<nat>, m: nat, rest: seq<nat>)
    requires IsMin(m, s)
    requires StrictlyIncreasing(rest) && (forall x :: x in rest <==> x in s - {m}) && |rest| == |s - {m}|
    ensures StrictlyIncreasing([m] + rest)
    ensures forall x :: x in [m] + rest <==> x in s
    ensures |[m] + rest| == |s|
  {
    forall k | 0 <= k < |rest|
      ensures m < rest[k]
    {
      assert rest[k] in rest;
    }
    assert forall k :: 0 < k < |[m] + rest| ==> ([m] + rest)[k] == rest[k - 1];
  }

  /** The epochs a round yields: the new ones ascending, or only the last of them. */
  function Selected(newEpochs: set<nat>, lastOnly: bool): seq<nat>
  {
    var added := SortAscending(newEpochs);
    if lastOnly && |added| > 0 then added[|added| - 1..] else added
  }

  /** In last-only mode a round yields at most one epoch, the highest new one. */
  lemma LastOnlyYieldsHighest(newEpochs: set<nat>)
    ensures |Selected(newEpochs, true)| == if newEpochs == {} then 0 else 1
    ensures newEpochs != {} ==>
      (Selected(newEpochs, true)[0] in newEpochs &&
       forall e :: e in newEpochs ==> e <= Selected(newEpochs, true)[0])
  {
    var added := SortAscending(newEpochs);
    if newEpochs != {} {
      var top := added[|added| - 1];
      forall e | e in newEpochs
        ensures e <= top
      {
        var k :| 0 <= k < |added| && added[k] == e;
      }
    }
  }

  /** What the extension pattern finds at the end of a path: the part `StripExt` removes. */
  function ExtOf(path: string): (ext: string)
    ensures ext in {"", ".pt", ".gz", ".pt.gz", ".zip"}
    ensures path == StripExt(path) + ext
  {
    path[|StripExt(path)|..]
  }

  /** The paths of the chosen epochs under the detected extension. */
  function LoadPaths(base: string, ext: string, chosen: seq<nat>): (paths: seq<string>)
    ensures |paths| == |chosen|
    ensures forall k :: 0 <= k < |chosen| ==> paths[k] == EpochPath(base, chosen[k], ext)
  {
    if |chosen| == 0 then [] else [EpochPath(base, chosen[0], ext)] + LoadPaths(base, ext, chosen[1..])
  }

  /** Removing the extension pattern undoes appending an extension to a name ending in a digit. */
  lemma StripAppended(stem: string, ext: string)
    requires |stem| > 0 && Decimal.IsDigit(stem[|stem| - 1])
    requires ext in {".pt", ".gz", ".pt.gz", ".zip"}
    ensures StripExt(stem + ext) == stem
  {
    var p := stem + ext;
    assert p[..|stem|] == stem;
    assert p[|p| - 1] == ext[|ext| - 1];
    if ext == ".gz" {
      assert p[|p| - 4] == stem[|stem| - 1];
    } else if ext == ".pt.gz" {
      assert p[|p| - 6..] == ext;
    }
  }

  /**
   * The path a round loads an epoch from is recognised again as that epoch
   * by the next round: stripping the extension and the base gives the epoch's
   * digits back.
   */
  lemma EpochPathRoundTrip(base: string, e: nat, ext: string)
    requires ext in {".pt", ".gz", ".pt.gz", ".zip"}
    ensures |base| <= |StripExt(EpochPath(base, e, ext))|
    ensures ParseEpoch(StripExt(EpochPath(base, e, ext))[|base|..]) == Ok(e)
  {
    var digits := Decimal.NatToString(e);
    var stem := base + digits;
    assert stem[|stem| - 1] == digits[|digits| - 1];
    StripAppended(stem, ext);
    assert EpochPath(base, e, ext) == stem + ext;
    assert stem[|base|..] == digits;
    Decimal.ParseNatToString(e);
  }

  /** The first name of a listing, the one the extension is read from. */
  function FirstOf(listing: seq<string>): string
  {
    if |listing| == 0 then "" else listing[0]
  }

  /** The path a yielded checkpoint is loaded from. */
  function EpochPath(base: string, epoch: nat, ext: string): string
  {
    base + Decimal.NatToString(epoch) + ext
  }

  /**
   * The epoch selection of `gen_checkpoints`: the epochs seen in the last
   * listing, and the extension taken from the first listing that had any.
   */
  class EpochSelector {
    const base: string
    const realTime: bool
    const onlyLast: bool
    var epochList: set<nat>
    var extDetected: bool
    var ext: string

    constructor(base: string, realTime: bool, onlyLast: bool)
      ensures this.base == base && this.realTime == realTime && this.onlyLast == onlyLast
      ensures epochList == {} && !extDetected
    {
      this.base := base;
      this.realTime := realTime;
      this.onlyLast := onlyLast;
      epochList := {};
      extDetected := false;
      ext := "";
    }

    /**
     * One pass over a listing of the files named `base*`: the paths of the
     * checkpoints to load, in the order they are loaded. The extension is
     * taken from the first file of the first listing that holds an epoch.
     */
    method Round(listing: seq<string>) returns (r: Result<seq<string>, CheckpointError>)
      requires forall i :: 0 <= i < |listing| ==> |base| <= |StripExt(listing[i])|
      modifies this
      ensures r.Err? ==> unchanged(this)
      ensures EpochsOf(listing, base).Err? ==> r.Err?
      ensures EpochsOf(listing, base).Ok? && EpochsOf(listing, base).value != {} && !old(extDetected) ==>
        (r.Err? <==> ExtOf(FirstOf(listing)) == "")
      ensures r.Ok? ==>
        (EpochsOf(listing, base).Ok? &&
         Advanced(EpochsOf(listing, base).value, FirstOf(listing), old(epochList), old(extDetected), old(ext), r.value))
    {
      var parsed := EpochsOf(listing, base);
      if parsed.Err? {
        return Err(parsed.error);
      }
      r := Advance(parsed.value, FirstOf(listing));
    }

    /** The round once the listing's epochs `found` are known. */
    method Advance(found: set<nat>, first: string) returns (r: Result<seq<string>, CheckpointError>)
      modifies this
      ensures r.Err? <==> !old(extDetected) && found != {} && ExtOf(first) == ""
      ensures r.Err? ==> unchanged(this)
      ensures r.Ok? ==> Advanced(found, first, old(epochList), old(extDetected), old(ext), r.value)
    {
      if !extDetected && found != {} {
        var e := ExtOf(first);
        if e == "" {
          return Err(NoExtension(first));
        }
        ext := e;
        extDetected := true;
      }
      var chosen := Selected(found - epochList, realTime || onlyLast);
      epochList := found;
      var paths := YieldPaths(chosen);
      return Ok(paths);
    }

    /**
     * The state after a round that found `found`: the listing's epochs
     * remembered, the extension detected once, and the new epochs yielded.
     */
    predicate Advanced(found: set<nat>, first: string, oldList: set<nat>, oldDetected: bool, oldExt: string,
                       paths: seq<string>)
      reads this
    {
      && epochList == found
      && (oldDetected ==> extDetected && ext == oldExt)
      && (!oldDetected && found != {} ==> extDetected && ext == ExtOf(first))
      && (!oldDetected && found == {} ==> !extDetected)
      && paths == LoadPaths(base, ext, Selected(found - oldList, realTime || onlyLast))
    }

    /** The loop that yields one checkpoint per chosen epoch. */
    method YieldPaths(chosen: seq<nat>) returns (paths: seq<string>)
      ensures paths == LoadPaths(base, ext, chosen)
    {
      paths := [];
      for k := 0 to |chosen|
        invariant |paths| == k
        invariant forall j :: 0 <= j < k ==> paths[j] == EpochPath(base, chosen[j], ext)
      {
        paths := paths + [EpochPath(base, chosen[k], ext)];
      }
    }
  }

  /** The epochs a round loads are new since the last listing, ascending, and all of them unless last-only. */
  lemma SelectedSpec(newEpochs: set<nat>, lastOnly: bool)
    ensures StrictlyIncreasing(Selected(newEpochs, lastOnly))
    ensures forall e :: e in Selected(newEpochs, lastOnly) ==> e in newEpochs
    ensures !lastOnly ==> forall e :: e in newEpochs ==> e in Selected(newEpochs, lastOnly)
  {
  }
}
