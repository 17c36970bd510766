/** `RunnerHolder`: one raw declaration, its owning group (none for a solo runner) and its kind. */
module Holders {
  import opened Wrappers
  import opened Toml
  import opened Errors

  datatype Kind = Named(name: string) | Refed(target: string)

  datatype Holder = Holder(group: Option<string>, value: Value, kind: Kind)

  /**
   * `RunnerHolder::new`: a declaration with a string `name` is Named, even when it also has a
   * `ref`; otherwise one with a string `ref` is Refed; otherwise it is rejected.
   */
  function NewHolder(group: Option<string>, v: Value): (r: Result<Holder, Error>)
    ensures r.Ok? ==> r.value.group == group && r.value.value == v
    ensures (r.Ok? && r.value.kind.Named?) <==> StrField(v, "name").Some?
    ensures r.Ok? && r.value.kind.Named? ==> r.value.kind.name == StrField(v, "name").value
    ensures (r.Ok? && r.value.kind.Refed?) <==> StrField(v, "name").None? && StrField(v, "ref").Some?
    ensures r.Ok? && r.value.kind.Refed? ==> r.value.kind.target == StrField(v, "ref").value
    ensures r.Err? <==> StrField(v, "name").None? && StrField(v, "ref").None?
    ensures r.Err? ==> r.error == RunnerHasNoNameOrRef(v)
  {
    match StrField(v, "name")
    case Some(name) => Ok(Holder(group, v, Named(name)))
    case None =>
      match StrField(v, "ref")
      case Some(target) => Ok(Holder(group, v, Refed(target)))
      case None => Err(RunnerHasNoNameOrRef(v))
  }

  /** The group part of a key: the group name, or the empty string for a solo runner. */
  function GroupName(h: Holder): string
  {
    if h.group.Some? then h.group.value else ""
  }

  /** `RunnerHolder::get_key`: `group.name` for a Named holder, `group.#ref` for a Refed one. */
  function Key(h: Holder): string
  {
    match h.kind
    case Named(name) => GroupName(h) + "." + name
    case Refed(target) => GroupName(h) + ".#" + target
  }

  /**
   * A key starts with the group name and a `.`; what follows is the runner's name, or `#` and
   * the ref's target.
   */
  lemma KeyShape(h: Holder)
    ensures |Key(h)| > |GroupName(h)| && Key(h)[..|GroupName(h)|] == GroupName(h) && Key(h)[|GroupName(h)|] == '.'
    ensures h.kind.Named? ==> Key(h)[|GroupName(h)| + 1..] == h.kind.name
    ensures h.kind.Refed? ==> Key(h)[|GroupName(h)| + 1..] == "#" + h.kind.target
  {
  }

  /** `RunnerHolder::is_refed`. */
  function IsRefed(h: Holder): (r: bool)
    ensures r <==> !h.kind.Named?
  {
    h.kind.Refed?
  }
}
