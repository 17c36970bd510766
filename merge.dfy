/**
 * `merge_runner_values`: a `ref` declaration laid over the table of the runner it names.
 * The overlay's `ref` is dropped, its `args_add` array is appended to `args`, and every
 * other overlay key replaces the base value.
 */
module Merging {
  import opened Wrappers
  import opened Toml

  const RefKey: string := "ref"
  const ArgsKey: string := "args"
  const ArgsAddKey: string := "args_add"

  /** The base table once the overlay keys in `done` other than `ref` and `args_add` are inserted. */
  function Overlaid(b: map<string, Value>, o: map<string, Value>, done: set<string>): map<string, Value>
  {
    b + map k | k in o && k in done && k != RefKey && k != ArgsAddKey :: o[k]
  }

  /** `entry("args").or_insert_with(empty)` followed by `extend` when that entry is an array. */
  function AppendArgs(m: map<string, Value>, add: seq<Value>): map<string, Value>
  {
    var cur := if ArgsKey in m then m[ArgsKey] else Array([]);
    if cur.Array? then m[ArgsKey := Array(cur.items + add)] else m
  }

  /** The base table after the merge loop has visited the overlay keys in `done`. */
  function MergeState(b: map<string, Value>, o: map<string, Value>, done: set<string>): map<string, Value>
  {
    var m := Overlaid(b, o, done);
    if ArgsAddKey in done && ArgsAddKey in o && o[ArgsAddKey].Array? then AppendArgs(m, o[ArgsAddKey].items) else m
  }

  /** The `args` entry the overlay leaves before `args_add` is applied, if any. */
  function ArgsBeforeAdd(b: map<string, Value>, o: map<string, Value>): Option<Value>
  {
    if ArgsKey in o then Some(o[ArgsKey]) else if ArgsKey in b then Some(b[ArgsKey]) else None
  }

  /** Two tables merged once every overlay key has been visited. */
  function MergeTables(b: map<string, Value>, o: map<string, Value>): (r: map<string, Value>)
    // the overlay's `ref` is never copied: the base's own `ref`, if any, survives
    ensures RefKey in r <==> RefKey in b
    ensures RefKey in b ==> r[RefKey] == b[RefKey]
    // `args_add` is an instruction, never a key of the result (beyond the base's own)
    ensures ArgsAddKey in r <==> ArgsAddKey in b
    ensures ArgsAddKey in b ==> r[ArgsAddKey] == b[ArgsAddKey]
    // every other overlay key replaces the base value; base keys absent from the overlay are unchanged
    ensures forall k :: k != RefKey && k != ArgsAddKey && k != ArgsKey ==> (k in r <==> k in b || k in o)
    ensures forall k :: k in o && k != RefKey && k != ArgsAddKey && k != ArgsKey ==> r[k] == o[k]
    ensures forall k :: k in b && k !in o && k != ArgsKey ==> r[k] == b[k]
    // `args`: the overlay's literal `args` (else the base's, else empty) followed by `args_add`
    ensures ArgsAddKey in o && o[ArgsAddKey].Array? ==>
              var cur := if ArgsBeforeAdd(b, o).Some? then ArgsBeforeAdd(b, o).value else Array([]);
              ArgsKey in r && r[ArgsKey] == (if cur.Array? then Array(cur.items + o[ArgsAddKey].items) else cur)
    ensures !(ArgsAddKey in o && o[ArgsAddKey].Array?) ==>
              (ArgsKey in r <==> ArgsBeforeAdd(b, o).Some?) &&
              (ArgsKey in r ==> r[ArgsKey] == ArgsBeforeAdd(b, o).value)
  {
    MergeState(b, o, o.Keys)
  }

  /** The merge of two values; when either is not a table the base comes back unchanged. */
  function Merge(base: Value, ov: Value): Value
  {
    if base.Table? && ov.Table? then Table(MergeTables(base.entries, ov.entries)) else base
  }

  lemma OverlaidStep(b: map<string, Value>, o: map<string, Value>, done: set<string>, k: string)
    requires k in o
    ensures k == RefKey || k == ArgsAddKey ==> Overlaid(b, o, done + {k}) == Overlaid(b, o, done)
    ensures k != RefKey && k != ArgsAddKey ==> Overlaid(b, o, done + {k}) == Overlaid(b, o, done)[k := o[k]]
  {
  }

  lemma AppendArgsCommutes(m: map<string, Value>, add: seq<Value>, k: string, v: Value)
    requires k != ArgsKey
    ensures AppendArgs(m[k := v], add) == AppendArgs(m, add)[k := v]
  {
  }

  /**
   * The loop of `merge_runner_values`, which mutates the base table key by key. The keys of a
   * TOML table are visited in sorted order, so `args` is always visited before `args_add`; any
   * other order of the overlay keys gives the same table.
   */
  method MergeRunnerValues(base: Value, ov: Value) returns (r: Value)
    ensures r == Merge(base, ov)
  {
    if !(base.Table? && ov.Table?) {
      return base;
    }
    var o := ov.entries;
    var table := base.entries;
    var todo := o.Keys;
    while todo != {}
      invariant todo <= o.Keys
      invariant ArgsAddKey in o.Keys - todo ==> ArgsKey !in todo
      invariant table == MergeState(base.entries, o, o.Keys - todo)
      decreases todo
    {
      ghost var done := o.Keys - todo;
      var name :| name in todo && (name == ArgsAddKey ==> ArgsKey !in todo);
      todo := todo - {name};
      assert o.Keys - todo == done + {name};
      OverlaidStep(base.entries, o, done, name);
      if name == RefKey {
        continue;
      }
      if name == ArgsAddKey {
        var value := o[name];
        if value.Array? {
          var args := if ArgsKey in table then table[ArgsKey] else Array([]);
          if args.Array? {
            table := table[ArgsKey := Array(args.items + value.items)];
          }
        }
      } else {
        if ArgsAddKey in done && o[ArgsAddKey].Array? {
          AppendArgsCommutes(Overlaid(base.entries, o, done), o[ArgsAddKey].items, name, o[name]);
        }
        table := table[name := o[name]];
      }
    }
    assert o.Keys - todo == o.Keys;
    r := Table(table);
  }
}
