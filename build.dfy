/**
 * The last phase of `parse_awesome_toml`: every holder, in order, is turned into a `Runner` and
 * filed under its group (appended, keeping declaration order) or, when it has none, under its
 * runner name in the solo map (a later one replacing an earlier one).
 */
module Building {
  import opened Wrappers
  import opened Toml
  import opened Errors
  import opened Holders
  import opened Runners

  /** `Runner::deserialize`, which is serde's and not part of this model: a table either makes a runner or does not. */
  type Deserializer = Value -> Option<Runner>

  /** The error the build loop raises on this holder, if any. */
  function HolderError(h: Holder, de: Deserializer): Option<Error>
  {
    if IsRefed(h) then Some(StillHaveUnresolvedRefedRunners(h.value))
    else if de(h.value).None? then Some(FailParsingRunner)
    else None
  }

  /** `entry(group).or_default().push(runner)` for a grouped runner, `insert(name, runner)` for a solo one. */
  function FileRunner(c: Config, group: Option<string>, r: Runner): Config
  {
    match group
    case Some(g) => Config(c.grouped[g := (if g in c.grouped then c.grouped[g] else []) + [r]], c.solo)
    case None => Config(c.grouped, c.solo[r.name := r])
  }

  /** The build loop over `hs`, starting from the maps `c`, stopping at the first error. */
  function BuildFrom(c: Config, hs: seq<Holder>, de: Deserializer): Result<Config, Error>
    decreases |hs|
  {
    if hs == [] then Ok(c)
    else if IsRefed(hs[0]) then Err(StillHaveUnresolvedRefedRunners(hs[0].value))
    else match de(hs[0].value)
      case None => Err(FailParsingRunner)
      case Some(r) => BuildFrom(FileRunner(c, hs[0].group, r), hs[1..], de)
  }

  /** The configuration built from the resolved holders. */
  function Built(hs: seq<Holder>, de: Deserializer): Result<Config, Error>
  {
    BuildFrom(Config(map[], map[]), hs, de)
  }

  /** The runners of group `g`, in declaration order: the reference for `grouped_runners[g]`. */
  function GroupRunners(hs: seq<Holder>, g: string, de: Deserializer): seq<Runner>
    decreases |hs|
  {
    if hs == [] then []
    else if hs[0].group == Some(g) && de(hs[0].value).Some? then [de(hs[0].value).value] + GroupRunners(hs[1..], g, de)
    else GroupRunners(hs[1..], g, de)
  }

  /** The last solo runner named `name`: the reference for `solo_runners[name]`. */
  function LastSolo(hs: seq<Holder>, name: string, de: Deserializer): Option<Runner>
    decreases |hs|
  {
    if hs == [] then None
    else match LastSolo(hs[1..], name, de)
      case Some(r) => Some(r)
      case None =>
        if hs[0].group.None? && de(hs[0].value).Some? && de(hs[0].value).value.name == name then de(hs[0].value)
        else None
  }

  /** Some holder of `hs` belongs to group `g`. */
  ghost predicate InGroup(hs: seq<Holder>, g: string)
  {
    exists i :: 0 <= i < |hs| && hs[i].group == Some(g)
  }

  /** The build succeeds exactly when no holder raises an error, and otherwise fails with the first one's. */
  lemma {:induction false} BuildFromOutcome(c: Config, hs: seq<Holder>, de: Deserializer)
    ensures BuildFrom(c, hs, de).Ok? <==> forall i :: 0 <= i < |hs| ==> HolderError(hs[i], de).None?
    ensures BuildFrom(c, hs, de).Err? ==>
              exists i :: 0 <= i < |hs| && HolderError(hs[i], de) == Some(BuildFrom(c, hs, de).error)
                          && forall j :: 0 <= j < i ==> HolderError(hs[j], de).None?
    decreases |hs|
  {
    if hs != [] && HolderError(hs[0], de).None? {
      var r := de(hs[0].value).value;
      BuildFromOutcome(FileRunner(c, hs[0].group, r), hs[1..], de);
      if BuildFrom(c, hs, de).Err? {
        var i :| 0 <= i < |hs[1..]| && HolderError(hs[1..][i], de) == Some(BuildFrom(c, hs, de).error)
                 && forall j :: 0 <= j < i ==> HolderError(hs[1..][j], de).None?;
        assert HolderError(hs[i + 1], de) == Some(BuildFrom(c, hs, de).error);
      }
      forall i | 0 <= i < |hs[1..]| ensures hs[1..][i] == hs[i + 1] { }
    }
  }

  /** A group has a holder in `hs` when the first holder is in it or a later one is. */
  lemma InGroupCons(hs: seq<Holder>, g: string)
    requires hs != []
    ensures InGroup(hs, g) <==> hs[0].group == Some(g) || InGroup(hs[1..], g)
  {
    if InGroup(hs, g) && hs[0].group != Some(g) {
      var i :| 0 <= i < |hs| && hs[i].group == Some(g);
      assert hs[1..][i - 1] == hs[i];
    }
    if InGroup(hs[1..], g) {
      var i :| 0 <= i < |hs[1..]| && hs[1..][i].group == Some(g);
      assert hs[i + 1] == hs[1..][i];
    }
  }

  /** A group of the result holds what it held before, then its runners from `hs` in order. */
  lemma {:induction false} BuildFromGrouped(c: Config, hs: seq<Holder>, de: Deserializer, g: string)
    requires BuildFrom(c, hs, de).Ok?
    ensures g in BuildFrom(c, hs, de).value.grouped <==> g in c.grouped || InGroup(hs, g)
    ensures g in BuildFrom(c, hs, de).value.grouped ==>
              BuildFrom(c, hs, de).value.grouped[g] == (if g in c.grouped then c.grouped[g] else []) + GroupRunners(hs, g, de)
    decreases |hs|
  {
    if hs != [] {
      var r := de(hs[0].value).value;
      var c' := FileRunner(c, hs[0].group, r);
      assert BuildFrom(c, hs, de) == BuildFrom(c', hs[1..], de);
      assert GroupRunners(hs, g, de) == (if hs[0].group == Some(g) then [r] else []) + GroupRunners(hs[1..], g, de);
      BuildFromGrouped(c', hs[1..], de, g);
      InGroupCons(hs, g);
    }
  }

  /** The solo map of the result: the last solo runner of `hs` with that name, else what it held before. */
  lemma {:induction false} BuildFromSolo(c: Config, hs: seq<Holder>, de: Deserializer, name: string)
    requires BuildFrom(c, hs, de).Ok?
    ensures name in BuildFrom(c, hs, de).value.solo <==> name in c.solo || LastSolo(hs, name, de).Some?
    ensures name in BuildFrom(c, hs, de).value.solo ==>
              BuildFrom(c, hs, de).value.solo[name] == if LastSolo(hs, name, de).Some? then LastSolo(hs, name, de).value else c.solo[name]
    decreases |hs|
  {
    if hs != [] {
      var r := de(hs[0].value).value;
      BuildFromSolo(FileRunner(c, hs[0].group, r), hs[1..], de, name);
    }
  }

  /** Each runner of `GroupRunners` comes from a holder of that group. */
  lemma {:induction false} GroupRunnersNonEmpty(hs: seq<Holder>, g: string, de: Deserializer)
    requires forall i :: 0 <= i < |hs| ==> HolderError(hs[i], de).None?
    requires InGroup(hs, g)
    ensures |GroupRunners(hs, g, de)| > 0
    decreases |hs|
  {
    if hs[0].group != Some(g) {
      var i :| 0 <= i < |hs| && hs[i].group == Some(g);
      assert hs[1..][i - 1] == hs[i];
      GroupRunnersNonEmpty(hs[1..], g, de);
    }
  }

  /**
   * The configuration from resolved holders: it exists exactly when every holder is Named and
   * deserializes (else the first failure's error); each group maps to its runners in declaration
   * order and is never empty; each solo name maps to the last solo runner of that name.
   */
  lemma BuiltSpec(hs: seq<Holder>, de: Deserializer)
    ensures Built(hs, de).Ok? <==> forall i :: 0 <= i < |hs| ==> HolderError(hs[i], de).None?
    ensures Built(hs, de).Err? ==>
              exists i :: 0 <= i < |hs| && HolderError(hs[i], de) == Some(Built(hs, de).error)
                          && forall j :: 0 <= j < i ==> HolderError(hs[j], de).None?
    ensures Built(hs, de).Ok? ==> forall g ::
              (g in Built(hs, de).value.grouped <==> InGroup(hs, g))
              && (g in Built(hs, de).value.grouped ==> Built(hs, de).value.grouped[g] == GroupRunners(hs, g, de) != [])
    ensures Built(hs, de).Ok? ==> forall name ::
              (name in Built(hs, de).value.solo <==> LastSolo(hs, name, de).Some?)
              && (name in Built(hs, de).value.solo ==> Built(hs, de).value.solo[name] == LastSolo(hs, name, de).value)
  {
    var empty := Config(map[], map[]);
    BuildFromOutcome(empty, hs, de);
    if Built(hs, de).Ok? {
      forall g ensures (g in Built(hs, de).value.grouped <==> InGroup(hs, g))
                       && (g in Built(hs, de).value.grouped ==> Built(hs, de).value.grouped[g] == GroupRunners(hs, g, de) != [])
      {
        BuildFromGrouped(empty, hs, de, g);
        if InGroup(hs, g) {
          GroupRunnersNonEmpty(hs, g, de);
        }
      }
      forall name ensures (name in Built(hs, de).value.solo <==> LastSolo(hs, name, de).Some?)
                          && (name in Built(hs, de).value.solo ==> Built(hs, de).value.solo[name] == LastSolo(hs, name, de).value)
      {
        BuildFromSolo(empty, hs, de, name);
      }
    }
  }

  /** A solo runner is filed under the name it carries. */
  lemma {:induction false} LastSoloName(hs: seq<Holder>, name: string, de: Deserializer)
    ensures LastSolo(hs, name, de).Some? ==> LastSolo(hs, name, de).value.name == name
    ensures LastSolo(hs, name, de).Some? ==>
              exists i :: 0 <= i < |hs| && hs[i].group.None? && de(hs[i].value) == LastSolo(hs, name, de)
    decreases |hs|
  {
    if hs != [] {
      LastSoloName(hs[1..], name, de);
      if LastSolo(hs[1..], name, de).Some? {
        var i :| 0 <= i < |hs[1..]| && hs[1..][i].group.None? && de(hs[1..][i].value) == LastSolo(hs[1..], name, de);
        assert hs[i + 1] == hs[1..][i];
      }
    }
  }

  /** The build loop of `parse_awesome_toml`. */
  method BuildConfig(hs: seq<Holder>, de: Deserializer) returns (r: Result<Config, Error>)
    ensures r == Built(hs, de)
  {
    var groupedRunners: map<string, seq<Runner>> := map[];
    var soloRunners: map<string, Runner> := map[];
    for k := 0 to |hs|
      invariant Built(hs, de) == BuildFrom(Config(groupedRunners, soloRunners), hs[k..], de)
    {
      assert hs[k..][0] == hs[k] && hs[k..][1..] == hs[k + 1..];
      var runnerHolder := hs[k];
      if IsRefed(runnerHolder) {
        return Err(StillHaveUnresolvedRefedRunners(runnerHolder.value));
      }
      var runner := de(runnerHolder.value);
      if runner.None? {
        return Err(FailParsingRunner);
      }
      match runnerHolder.group {
        case Some(group) =>
          var list := if group in groupedRunners then groupedRunners[group] else [];
          groupedRunners := groupedRunners[group := list + [runner.value]];
        case None =>
          soloRunners := soloRunners[runner.value.name := runner.value];
      }
    }
    assert hs[|hs|..] == [];
    r := Ok(Config(groupedRunners, soloRunners));
  }
}
