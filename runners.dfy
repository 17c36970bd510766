/** The resolved configuration: runners by group, in declaration order, and solo runners by name. */
module Runners {
  import opened Wrappers

  datatype Runner = Runner(name: string, cmd: string, args: seq<string>, concurrent: bool, endAllOnExit: bool)

  datatype Config = Config(grouped: map<string, seq<Runner>>, solo: map<string, Runner>)

  /** `iter().find(|r| r.name == name)`: the position of the first runner with that name. */
  function FindByName(rs: seq<Runner>, name: string): (r: Option<nat>)
    ensures r.Some? ==> r.value < |rs| && rs[r.value].name == name
    ensures r.Some? ==> forall j :: 0 <= j < r.value ==> rs[j].name != name
    ensures r.None? ==> forall j :: 0 <= j < |rs| ==> rs[j].name != name
  {
    if rs == [] then None
    else if rs[0].name == name then Some(0)
    else match FindByName(rs[1..], name)
      case None => None
      case Some(k) => Some(k + 1)
  }

  /** `Config::get_runners`: the whole list of a group. */
  function GetRunners(c: Config, group: string): (r: Option<seq<Runner>>)
    ensures r.Some? <==> group in c.grouped
    ensures r.Some? ==> r.value == c.grouped[group]
  {
    if group in c.grouped then Some(c.grouped[group]) else None
  }

  /** `Config::get_grouped_runner`: the first runner of `group` named `name`. */
  function GetGroupedRunner(c: Config, group: string, name: string): (r: Option<Runner>)
    ensures r.None? <==> group !in c.grouped || forall j :: 0 <= j < |c.grouped[group]| ==> c.grouped[group][j].name != name
    ensures r.Some? ==> group in c.grouped && r.value.name == name
    ensures r.Some? ==> exists i :: 0 <= i < |c.grouped[group]| && c.grouped[group][i] == r.value
                                   && forall j :: 0 <= j < i ==> c.grouped[group][j].name != name
  {
    if group !in c.grouped then None
    else match FindByName(c.grouped[group], name)
      case None => None
      case Some(i) => Some(c.grouped[group][i])
  }

  /** `Config::get_solo_runner`. */
  function GetSoloRunner(c: Config, name: string): (r: Option<Runner>)
    ensures r.Some? <==> name in c.solo
    ensures r.Some? ==> r.value == c.solo[name] && r.value in c.solo.Values
  {
    if name in c.solo then Some(c.solo[name]) else None
  }
}
