/** The query split and runner selection at the head of `run`. */
module Selection {
  import opened Wrappers
  import opened Runners
  import opened Toml
  import opened Holders

  /**
   * `splitn(2, '.')`: the text before the first `.`, and the rest after it when there is a
   * `.` at all. The first part is always present, so `RunRefNoParts` cannot arise.
   */
  function SplitQuery(q: string): (parts: (string, Option<string>))
    ensures parts.1.None? <==> '.' !in q
    ensures parts.1.None? ==> parts.0 == q
    ensures parts.1.Some? ==> q == parts.0 + "." + parts.1.value && '.' !in parts.0
  {
    if q == [] then (q, None)
    else if q[0] == '.' then ([], Some(q[1..]))
    else
      var (first, rest) := SplitQuery(q[1..]);
      assert q == [q[0]] + q[1..];
      ([q[0]] + first, rest)
  }

  /**
   * The runners a query selects: with a `.`, the named runner of the group before it (and
   * never a solo runner); without one, the whole group, else the solo runner of that name.
   */
  function Select(c: Config, q: string): (r: Option<seq<Runner>>)
    // with a `.`: one runner of the group before it, named by the rest, or nothing
    ensures '.' in q ==> (r.None? <==> GetGroupedRunner(c, SplitQuery(q).0, SplitQuery(q).1.value).None?)
    ensures '.' in q && r.Some? ==>
              |r.value| == 1 && r.value[0].name == SplitQuery(q).1.value
              && SplitQuery(q).0 in c.grouped && r.value[0] in c.grouped[SplitQuery(q).0]
    // without one: the whole group of that name, else the solo runner of that name, else nothing
    ensures '.' !in q ==> (r.None? <==> q !in c.grouped && q !in c.solo)
    ensures '.' !in q && r.Some? ==>
              (q in c.grouped && r.value == c.grouped[q]) || (q !in c.grouped && r.value == [c.solo[q]])
  {
    var (first, rest) := SplitQuery(q);
    if rest.Some? then
      match GetGroupedRunner(c, first, rest.value)
      case Some(r) => Some([r])
      case None => None
    else if GetRunners(c, first).Some? then GetRunners(c, first)
    else match GetSoloRunner(c, first)
      case Some(r) => Some([r])
      case None => None
  }

  /** Splitting at a first `.` determines both parts. */
  lemma {:induction false} SplitUnique(a: string, b: string, a': string, b': string)
    requires '.' !in a && '.' !in a'
    requires a + "." + b == a' + "." + b'
    ensures a == a' && b == b'
  {
    var q := a + "." + b;
    assert q == a' + "." + b';
    assert a != [] ==> q[0] == a[0];
    assert a' != [] ==> q[0] == a'[0];
    assert a == [] ==> q[0] == '.';
    assert a' == [] ==> q[0] == '.';
    if a == [] {
      assert b == q[1..] && b' == q[1..];
    } else {
      assert a[1..] + "." + b == q[1..];
      assert a'[1..] + "." + b' == q[1..];
      SplitUnique(a[1..], b, a'[1..], b');
      assert a == [a[0]] + a[1..];
      assert a' == [a'[0]] + a'[1..];
    }
  }

  /** A query `group.name` splits into exactly that group and that name, whatever the name holds. */
  lemma SplitGroupDotName(g: string, n: string)
    requires '.' !in g
    ensures SplitQuery(g + "." + n) == (g, Some(n))
  {
    var (first, rest) := SplitQuery(g + "." + n);
    assert '.' in g + "." + n by { assert (g + "." + n)[|g|] == '.'; }
    SplitUnique(first, rest.value, g, n);
  }

  /** The key of a Named holder in an undotted group is a query that splits back into its group and name. */
  lemma KeySplitsBack(h: Holder)
    requires h.kind.Named? && '.' !in GroupName(h)
    ensures SplitQuery(Key(h)) == (GroupName(h), Some(h.kind.name))
    ensures h.group.None? ==> Key(h) == "." + h.kind.name
  {
    SplitGroupDotName(GroupName(h), h.kind.name);
  }

  /** With a dotted group name, two different Named holders share one key. */
  lemma DottedGroupKeysCollide(v: Value)
    ensures Key(Holder(Some("a.b"), v, Named("c"))) == Key(Holder(Some("a"), v, Named("b.c")))
  {
  }

  /** `"a.b.c"` selects group `"a"` and runner `"b.c"`. */
  lemma SplitAtFirstDotOnly()
    ensures SplitQuery("a.b.c") == ("a", Some("b.c"))
  {
    SplitGroupDotName("a", "b.c");
  }

  /** A `group.name` query gives one runner or none, never a solo runner. */
  lemma SelectGroupDotName(c: Config, g: string, n: string)
    requires '.' !in g
    ensures Select(c, g + "." + n).Some? ==> |Select(c, g + "." + n).value| == 1
    ensures Select(c, g + "." + n).Some? <==> GetGroupedRunner(c, g, n).Some?
    ensures Select(c, g + "." + n).Some? ==> Select(c, g + "." + n).value[0] == GetGroupedRunner(c, g, n).value
    ensures forall solo :: Select(Config(c.grouped, solo), g + "." + n) == Select(c, g + "." + n)
  {
    SplitGroupDotName(g, n);
  }

  /** A query without a `.`: the group of that name first, then the solo runner, else nothing. */
  lemma SelectPlain(c: Config, q: string)
    requires '.' !in q
    ensures q in c.grouped ==> Select(c, q) == Some(c.grouped[q])
    ensures q !in c.grouped && q in c.solo ==> Select(c, q) == Some([c.solo[q]])
    ensures q !in c.grouped && q !in c.solo ==> Select(c, q).None?
  {
  }
}
