/**
 * `parse_awesome_toml` once the text is parsed: collect the holders, resolve the refs, build the
 * configuration; the first phase to fail decides the error.
 */
module Parsing {
  import opened Wrappers
  import opened Toml
  import opened Errors
  import opened Holders
  import opened Merging
  import opened Runners
  import opened Collecting
  import opened Resolving
  import opened Building

  /** The three phases composed over the root table, its group order and the runner deserializer. */
  function Parsed(root: map<string, Value>, order: seq<string>, de: Deserializer): Result<Config, Error>
  {
    match CollectAll(Declarations(root, order))
    case Err(e) => Err(e)
    case Ok(c) =>
      match ResolveFrom(c.all, c.namedIdx, c.refedIdxs)
      case Err(e) => Err(e)
      case Ok(hs) => Built(hs, de)
  }

  /** `parse_awesome_toml` from the root table on. */
  method ParseAwesomeToml(root: map<string, Value>, order: seq<string>, de: Deserializer) returns (r: Result<Config, Error>)
    requires IsGroupOrder(root, order)
    ensures r == Parsed(root, order, de)
  {
    var collected := CollectHolders(root, order);
    if collected.Err? {
      return Err(collected.error);
    }
    var resolved := ResolveRefs(collected.value);
    if resolved.Err? {
      return Err(resolved.error);
    }
    r := BuildConfig(resolved.value, de);
  }

  /**
   * The errors a parse can end with: a declaration with neither name nor ref, a ref left
   * unresolved, or a table that is not a runner. `DoNotSupportRefToRefYet` is never among them:
   * the index only holds Named holders, so a ref to a ref finds no target and stays unresolved.
   */
  lemma ParseErrors(root: map<string, Value>, order: seq<string>, de: Deserializer)
    ensures Parsed(root, order, de).Err? ==>
              var e := Parsed(root, order, de).error;
              e.RunnerHasNoNameOrRef? || e.StillHaveUnresolvedRefedRunners? || e.FailParsingRunner?
  {
    var decls := Declarations(root, order);
    CollectAllSpec(decls);
    match CollectAll(decls)
    case Err(e) =>
      var i :| 0 <= i < |decls| && NewHolder(decls[i].group, decls[i].value) == Err(e)
               && forall j :: 0 <= j < i ==> NewHolder(decls[j].group, decls[j].value).Ok?;
    case Ok(c) =>
      ResolveSpec(c);
      match ResolveFrom(c.all, c.namedIdx, c.refedIdxs)
      case Err(e) =>
      case Ok(hs) =>
        BuiltSpec(hs, de);
        if Built(hs, de).Err? {
          var i :| 0 <= i < |hs| && HolderError(hs[i], de) == Some(Built(hs, de).error)
                   && forall j :: 0 <= j < i ==> HolderError(hs[j], de).None?;
          assert HolderError(hs[i], de).value.StillHaveUnresolvedRefedRunners? || HolderError(hs[i], de).value.FailParsingRunner?;
        }
  }

  /** The position `i` of the collected holders is a ref whose target is no Named holder's key. */
  ghost predicate Dangling(c: Collected, i: nat)
  {
    i < |c.all| && c.all[i].kind.Refed?
    && forall j :: 0 <= j < |c.all| && c.all[j].kind.Named? ==> Key(c.all[j]) != c.all[i].kind.target
  }

  /**
   * A ref that names no Named holder, whether the key is missing or belongs to another ref,
   * makes the whole parse fail; a successful parse therefore had every ref resolved.
   */
  lemma DanglingRefFails(root: map<string, Value>, order: seq<string>, de: Deserializer, i: nat)
    requires CollectAll(Declarations(root, order)).Ok?
    requires Dangling(CollectAll(Declarations(root, order)).value, i)
    ensures Parsed(root, order, de).Err?
  {
    var c := CollectAll(Declarations(root, order)).value;
    CollectAllSpec(Declarations(root, order));
    assert c.all[i].kind.target !in c.namedIdx;
    ResolveSpec(c);
    ResolvedSlot(c, i);
    match ResolveFrom(c.all, c.namedIdx, c.refedIdxs)
    case Err(e) =>
    case Ok(hs) =>
      assert hs[i] == c.all[i];
      assert HolderError(hs[i], de).Some?;
      BuiltSpec(hs, de);
  }

  /**
   * Every key in the index has a `.`, so a ref written without one (a bare solo runner name
   * rather than `.name`) never resolves and the parse fails.
   */
  lemma UndottedRefFails(root: map<string, Value>, order: seq<string>, de: Deserializer, i: nat)
    requires CollectAll(Declarations(root, order)).Ok?
    requires i < |CollectAll(Declarations(root, order)).value.all|
    requires CollectAll(Declarations(root, order)).value.all[i].kind.Refed?
    requires '.' !in CollectAll(Declarations(root, order)).value.all[i].kind.target
    ensures Parsed(root, order, de).Err?
  {
    var c := CollectAll(Declarations(root, order)).value;
    forall j | 0 <= j < |c.all| && c.all[j].kind.Named? ensures Key(c.all[j]) != c.all[i].kind.target {
      assert Key(c.all[j])[|GroupName(c.all[j])|] == '.';
    }
    DanglingRefFails(root, order, de, i);
  }

  /** `build.icons` with `args = ["icon"]`, referred to from `dev` with `args_add = ["-w"]`. */
  lemma IconsExample()
    ensures var base := Table(map["name" := Str("icons"), "args" := Array([Str("icon")])]);
            var ov := Table(map["ref" := Str("build.icons"), "args_add" := Array([Str("-w")])]);
            var m := Merge(base, ov);
            && m.Table?
            && m.entries.Keys == {"name", "args"}
            && m.entries["name"] == Str("icons")
            && m.entries["args"] == Array([Str("icon"), Str("-w")])
  {
    var b := map["name" := Str("icons"), "args" := Array([Str("icon")])];
    var o := map["ref" := Str("build.icons"), "args_add" := Array([Str("-w")])];
    var r := MergeTables(b, o);
    assert ArgsKey !in o && ArgsKey in b;
    assert ArgsBeforeAdd(b, o) == Some(Array([Str("icon")]));
    assert [Str("icon")] + [Str("-w")] == [Str("icon"), Str("-w")];
    forall k ensures k in r <==> k in {"name", "args"} {
      if k != RefKey && k != ArgsAddKey && k != ArgsKey {
        assert k in r <==> k in b || k in o;
      }
    }
  }
}
