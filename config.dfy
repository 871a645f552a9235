/** src/config.rs: the configuration record and the way a user configuration
    is layered over the default one (`default + user`). Reading and parsing
    the YAML files is not modelled. */
module Configs {
  import opened Wrappers

  /** `Config`: every field is optional in the YAML file. `coreWindowTitles`
      is the `Windows.UI.Core.CoreWindow` key: titles of windows of that
      class that are not to be managed. */
  datatype Config = Config(
    coreWindowTitles: Option<seq<string>>,
    classNames: Option<seq<string>>,
    processNames: Option<seq<string>>,
    titles: Option<seq<string>>,
    defaultLayout: Option<string>)

  /** A configuration with no key set. */
  const EMPTY: Config := Config(None, None, None, None, None)

  /** The entries of an optional list, none when it is absent. */
  function Elems<T>(o: Option<seq<T>>): seq<T>
  {
    if o.Some? then o.value else []
  }

  /** `merge_option_vecs`: concatenate the two lists; absent only when both are. */
  function MergeOptionVecs<T>(a: Option<seq<T>>, b: Option<seq<T>>): (r: Option<seq<T>>)
    ensures r.None? <==> a.None? && b.None?
    ensures Elems(r) == Elems(a) + Elems(b)
  {
    match (a, b)
    case (Some(v1), Some(v2)) => Some(v1 + v2)
    case (Some(v1), None) => Some(v1)
    case (None, Some(v2)) => Some(v2)
    case (None, None) => None
  }

  /** `merge_option_string`: the right-hand value wins when present. */
  function MergeOptionString(lhs: Option<string>, rhs: Option<string>): (r: Option<string>)
    ensures rhs.Some? ==> r == rhs
    ensures rhs.None? ==> r == lhs
  {
    match (lhs, rhs)
    case (Some(_), Some(b)) => Some(b)
    case (Some(a), None) => Some(a)
    case (None, Some(b)) => Some(b)
    case _ => None
  }

  /** `impl Add for Config`: the left operand's `CoreWindow` list is kept
      as it is (the right one's is dropped), the three exclusion lists are
      concatenated, and the right operand's layout overrides. */
  function Add(c: Config, d: Config): (r: Config)
    ensures r.coreWindowTitles == c.coreWindowTitles
    ensures Elems(r.classNames) == Elems(c.classNames) + Elems(d.classNames)
    ensures Elems(r.processNames) == Elems(c.processNames) + Elems(d.processNames)
    ensures Elems(r.titles) == Elems(c.titles) + Elems(d.titles)
    ensures r.defaultLayout == if d.defaultLayout.Some? then d.defaultLayout else c.defaultLayout
  {
    Config(
      c.coreWindowTitles,
      MergeOptionVecs(c.classNames, d.classNames),
      MergeOptionVecs(c.processNames, d.processNames),
      MergeOptionVecs(c.titles, d.titles),
      MergeOptionString(c.defaultLayout, d.defaultLayout))
  }

  /** The end of `load_or_create_user_config`: the user's file is layered over the default. */
  function Layered(default: Config, user: Config): (r: Config)
    ensures r.coreWindowTitles == default.coreWindowTitles
    ensures user.defaultLayout.Some? ==> r.defaultLayout == user.defaultLayout
  {
    Add(default, user)
  }

  lemma MergeOptionVecsAssociative<T>(a: Option<seq<T>>, b: Option<seq<T>>, c: Option<seq<T>>)
    ensures MergeOptionVecs(MergeOptionVecs(a, b), c) == MergeOptionVecs(a, MergeOptionVecs(b, c))
  {
    match (a, b, c)
    case (Some(x), Some(y), Some(z)) =>
      assert (x + y) + z == x + (y + z);
    case _ =>
  }

  /** Layering is associative, so several configuration files could be
      combined in any grouping with the same result. */
  lemma AddAssociative(a: Config, b: Config, c: Config)
    ensures Add(Add(a, b), c) == Add(a, Add(b, c))
  {
    MergeOptionVecsAssociative(a.classNames, b.classNames, c.classNames);
    MergeOptionVecsAssociative(a.processNames, b.processNames, c.processNames);
    MergeOptionVecsAssociative(a.titles, b.titles, c.titles);
  }

  /** An empty configuration on the right changes nothing; on the left it
      changes nothing except that the `CoreWindow` list is lost. */
  lemma AddEmpty(c: Config)
    ensures Add(c, EMPTY) == c
    ensures Add(EMPTY, c) == c.(coreWindowTitles := None)
  {
  }

  /** Layering is not commutative: the `CoreWindow` list and the layout come
      from different sides. */
  lemma AddNotCommutative()
    ensures var a := EMPTY.(coreWindowTitles := Some([])); Add(a, EMPTY) != Add(EMPTY, a)
  {
    var a := EMPTY.(coreWindowTitles := Some([]));
    assert Add(a, EMPTY).coreWindowTitles == Some([]);
  }
}
