/** Leaf tabs nested under domains, and what their visibility conditions mean. */
module Domains {
  import opened Sequences
  import opened Wrappers

  /** Why a dashboard is not built: several presence variables beside absence variables,
      two leaves with one title, leaves and groups that do not match, or a leaf that two
      groups claim. */
  datatype BuildError = OrWithAbsence | DuplicateLeaf(title: string) | Mismatch | AlreadyTaken(title: string)

  // ----- Conditions -----

  /** One item of a condition: the variable matches a non-empty value, or does not. */
  datatype Test = Test(variable: string, matches: bool)

  /** A condition joins its items with "or" or with "and". */
  datatype Condition = Condition(any: bool, items: seq<Test>)

  /** Which variables currently have a non-empty value. */
  type Values = string -> bool

  predicate Holds(t: Test, values: Values) { values(t.variable) == t.matches }

  predicate Shown(c: Option<Condition>, values: Values) {
    c.Some? ==>
      if c.value.any then exists i :: 0 <= i < |c.value.items| && Holds(c.value.items[i], values)
      else forall i :: 0 <= i < |c.value.items| ==> Holds(c.value.items[i], values)
  }

  /** The condition built from presence and absence variables: an "or" only for several
      presence variables, which then admit no absence variables beside them. */
  function Cond(present: seq<string>, absent: seq<string>): Result<Option<Condition>, BuildError> {
    if |present| > 1 && absent != [] then Err(OrWithAbsence)
    else if present == [] && absent == [] then Ok(None)
    else Ok(Some(Condition(|present| > 1, Tests(present, true) + Tests(absent, false))))
  }

  function Tests(names: seq<string>, matches: bool): (r: seq<Test>)
    ensures |r| == |names| && forall i :: 0 <= i < |r| ==> r[i] == Test(names[i], matches)
  {
    seq(|names|, i requires 0 <= i < |names| => Test(names[i], matches))
  }

  predicate AnyOf(names: seq<string>, values: Values) {
    exists i :: 0 <= i < |names| && values(names[i])
  }

  /** Whatever the choice of "and" or "or": shown when some presence variable has a value,
      if there are any, and no absence variable has one. */
  lemma CondMeans(present: seq<string>, absent: seq<string>, values: Values)
    requires Cond(present, absent).Ok?
    ensures Shown(Cond(present, absent).value, values)
       <==> (present == [] || AnyOf(present, values)) && !AnyOf(absent, values)
  {
    var c := Cond(present, absent).value;
    if c.Some? {
      var items := c.value.items;
      assert forall i :: 0 <= i < |present| ==> items[i] == Test(present[i], true);
      assert forall i :: 0 <= i < |absent| ==> items[|present| + i] == Test(absent[i], false);
      if c.value.any {
        if i :| 0 <= i < |present| && values(present[i]) {
          assert Holds(items[i], values);
        }
      } else {
        if AnyOf(absent, values) {
          var i :| 0 <= i < |absent| && values(absent[i]);
          assert !Holds(items[|present| + i], values);
        }
        if |present| == 1 {
          assert Holds(items[0], values) <==> values(present[0]);
        }
        if (present == [] || AnyOf(present, values)) && !AnyOf(absent, values) {
          forall i | 0 <= i < |items| ensures Holds(items[i], values) {
            if i >= |present| {
              assert items[i] == Test(absent[i - |present|], false);
            }
          }
        }
      }
    }
  }

  // ----- Tabs and groups -----

  datatype Leaf = Leaf(title: string, condition: Option<Condition>, content: string)

  /** A top-level tab: a leaf, or a domain of leaves. */
  datatype TopTab = Single(leaf: Leaf) | Domain(title: string, leaves: seq<Leaf>, condition: Option<Condition>)

  /** A group without a title keeps its leaves at the top level. */
  datatype TabGroup = TabGroup(title: Option<string>, titles: seq<string>)

  /** Presence variables of the optional leaves. */
  type Optional = map<string, seq<string>>

  function Titles(leaves: seq<Leaf>): (r: seq<string>)
    ensures |r| == |leaves| && forall i :: 0 <= i < |r| ==> r[i] == leaves[i].title
  {
    seq(|leaves|, i requires 0 <= i < |leaves| => leaves[i].title)
  }

  function Assigned(groups: seq<TabGroup>): seq<string> {
    if groups == [] then [] else Assigned(groups[..|groups| - 1]) + groups[|groups| - 1].titles
  }

  /** The leaf with its condition replaced if it is optional. */
  function Gated(optional: Optional, leaf: Leaf): Leaf {
    if leaf.title in optional then leaf.(condition := Cond(optional[leaf.title], []).value) else leaf
  }

  function LeavesOf(tabs: seq<TopTab>): seq<Leaf> {
    if tabs == [] then [] else LeavesOf(tabs[..|tabs| - 1]) + Under(tabs[|tabs| - 1])
  }

  function Under(t: TopTab): seq<Leaf> {
    match t
    case Single(leaf) => [leaf]
    case Domain(_, leaves, _) => leaves
  }

  lemma {:induction false} LeavesOfConcat(a: seq<TopTab>, b: seq<TopTab>)
    ensures LeavesOf(a + b) == LeavesOf(a) + LeavesOf(b)
  {
    if b == [] {
      assert a + b == a;
    } else {
      var init, last := b[..|b| - 1], b[|b| - 1];
      LeavesOfConcat(a, init);
      assert (a + b)[..|a + b| - 1] == a + init;
      Associative(LeavesOf(a), LeavesOf(init), Under(last));
    }
  }

  lemma {:induction false} LeavesOfSingles(leaves: seq<Leaf>, tabs: seq<TopTab>)
    requires |tabs| == |leaves| && forall i :: 0 <= i < |tabs| ==> tabs[i] == Single(leaves[i])
    ensures LeavesOf(tabs) == leaves
  {
    if tabs == [] {
    } else {
      var n := |tabs| - 1;
      LeavesOfSingles(leaves[..n], tabs[..n]);
      assert leaves == leaves[..n] + [leaves[n]];
    }
  }

  // ----- The presence variables of a domain -----

  /** Appends the names not yet there. */
  function Merged(acc: seq<string>, names: seq<string>): seq<string>
    decreases |names|
  {
    if names == [] then acc
    else Merged(if names[0] in acc then acc else acc + [names[0]], names[1..])
  }

  function MergedAll(optional: Optional, titles: seq<string>): seq<string>
    requires forall t :: t in titles ==> t in optional
  {
    if titles == [] then [] else
    assert titles[|titles| - 1] in titles;
    Merged(MergedAll(optional, titles[..|titles| - 1]), optional[titles[|titles| - 1]])
  }

  function ParentPresence(optional: Optional, titles: seq<string>): seq<string> {
    if forall t :: t in titles ==> t in optional then MergedAll(optional, titles) else []
  }

  lemma {:induction false} MergedMembers(acc: seq<string>, names: seq<string>)
    requires NoRepeats(acc)
    ensures forall n :: n in Merged(acc, names) <==> n in acc || n in names
    ensures NoRepeats(Merged(acc, names))
    decreases |names|
  {
    if names == [] {
    } else {
      var next := if names[0] in acc then acc else acc + [names[0]];
      MergedMembers(next, names[1..]);
      assert forall n :: n in names <==> n == names[0] || n in names[1..];
    }
  }

  /** The parent's variables are exactly those of its leaves, each once. */
  lemma {:induction false} MergedAllMembers(optional: Optional, titles: seq<string>)
    requires forall t :: t in titles ==> t in optional
    ensures forall n :: n in MergedAll(optional, titles) <==> exists t :: t in titles && n in optional[t]
    ensures NoRepeats(MergedAll(optional, titles))
  {
    if titles == [] {
    } else {
      var init, last := titles[..|titles| - 1], titles[|titles| - 1];
      assert last in titles;
      MergedAllMembers(optional, init);
      MergedMembers(MergedAll(optional, init), optional[last]);
      assert forall t :: t in titles <==> t in init || t == last;
    }
  }

  // ----- Visibility -----

  /** An optional leaf is shown when one of its variables has a value, or always when it
      has no variables. */
  predicate LeafShown(optional: Optional, title: string, values: Values)
    requires title in optional
  {
    Shown(Cond(optional[title], []).value, values)
  }

  predicate SomeLeafShown(optional: Optional, titles: seq<string>, values: Values)
    requires forall t :: t in titles ==> t in optional
  {
    exists t :: t in titles && LeafShown(optional, t, values)
  }

  predicate DomainShown(optional: Optional, titles: seq<string>, values: Values) {
    Shown(Cond(ParentPresence(optional, titles), []).value, values)
  }

  /** When the parent's condition can mean what its children's do. */
  predicate Coherent(optional: Optional, titles: seq<string>)
    requires forall t :: t in titles ==> t in optional
  {
    titles != [] && ((forall t :: t in titles ==> optional[t] == []) || (forall t :: t in titles ==> optional[t] != []))
  }

  lemma LeafShownMeans(optional: Optional, title: string, values: Values)
    requires title in optional
    ensures LeafShown(optional, title, values) <==> optional[title] == [] || AnyOf(optional[title], values)
  {
    CondMeans(optional[title], [], values);
  }

  lemma DomainShownMeans(optional: Optional, titles: seq<string>, values: Values)
    requires forall t :: t in titles ==> t in optional
    ensures DomainShown(optional, titles, values)
       <==> (forall t :: t in titles ==> optional[t] == []) || (exists t :: t in titles && AnyOf(optional[t], values))
  {
    var all := MergedAll(optional, titles);
    CondMeans(all, [], values);
    MergedAllMembers(optional, titles);
    if t :| t in titles && optional[t] != [] {
      assert optional[t][0] in all;
    }
    if all != [] {
      assert all[0] in all;
      if AnyOf(all, values) {
        var i :| 0 <= i < |all| && values(all[i]);
        assert all[i] in all;
        var t :| t in titles && all[i] in optional[t];
        assert AnyOf(optional[t], values);
      }
      if t :| t in titles && AnyOf(optional[t], values) {
        var i :| 0 <= i < |optional[t]| && values(optional[t][i]);
        assert optional[t][i] in all;
      }
    }
  }

  /** A domain made only of optional leaves is visible exactly when one of its leaves is,
      under every assignment, precisely when it has leaves and either all of them have
      presence variables or none has. */
  lemma DomainMeansItsLeaves(optional: Optional, titles: seq<string>)
    requires forall t :: t in titles ==> t in optional
    ensures Coherent(optional, titles) <==>
      forall values: Values :: DomainShown(optional, titles, values) <==> SomeLeafShown(optional, titles, values)
  {
    if Coherent(optional, titles) {
      forall values: Values ensures DomainShown(optional, titles, values) <==> SomeLeafShown(optional, titles, values) {
        SameMeaning(optional, titles, values);
      }
    } else {
      var values: Values := name => false;
      OtherMeaning(optional, titles, values);
      assert !(DomainShown(optional, titles, values) <==> SomeLeafShown(optional, titles, values));
    }
  }

  lemma SameMeaning(optional: Optional, titles: seq<string>, values: Values)
    requires (forall t :: t in titles ==> t in optional) && Coherent(optional, titles)
    ensures DomainShown(optional, titles, values) <==> SomeLeafShown(optional, titles, values)
  {
    DomainShownMeans(optional, titles, values);
    assert titles[0] in titles;
    forall t | t in titles
      ensures LeafShown(optional, t, values) <==> optional[t] == [] || AnyOf(optional[t], values)
    {
      LeafShownMeans(optional, t, values);
    }
  }

  lemma OtherMeaning(optional: Optional, titles: seq<string>, values: Values)
    requires (forall t :: t in titles ==> t in optional) && !Coherent(optional, titles)
    requires forall n :: !values(n)
    ensures DomainShown(optional, titles, values) != SomeLeafShown(optional, titles, values)
  {
    DomainShownMeans(optional, titles, values);
    forall t | t in titles
      ensures LeafShown(optional, t, values) <==> optional[t] == []
    {
      LeafShownMeans(optional, t, values);
    }
  }

  // ----- Organising -----

  /** The leaves by title, gated. */
  ghost predicate Catalogue(tabs: seq<Leaf>, optional: Optional, leaves: map<string, Leaf>) {
    && (forall t :: t in leaves <==> t in Titles(tabs))
    && (forall i :: 0 <= i < |tabs| ==> tabs[i].title in leaves && leaves[tabs[i].title] == Gated(optional, tabs[i]))
  }

  /** The leaves with these titles, in this order. */
  function Picked(leaves: map<string, Leaf>, titles: seq<string>): (r: seq<Leaf>)
    requires forall t :: t in titles ==> t in leaves
    ensures |r| == |titles| && forall i :: 0 <= i < |r| ==> r[i] == leaves[titles[i]]
  {
    seq(|titles|, i requires 0 <= i < |titles| => assert titles[i] in titles; leaves[titles[i]])
  }

  /** What a group becomes. */
  function Arranged(leaves: map<string, Leaf>, optional: Optional, group: TabGroup): seq<TopTab>
    requires forall t :: t in group.titles ==> t in leaves
  {
    var picked := Picked(leaves, group.titles);
    if group.title.None? then seq(|picked|, i requires 0 <= i < |picked| => Single(picked[i]))
    else [Domain(group.title.value, picked, Cond(ParentPresence(optional, group.titles), []).value)]
  }

  function ArrangedAll(leaves: map<string, Leaf>, optional: Optional, groups: seq<TabGroup>): seq<TopTab>
    requires forall t :: t in Assigned(groups) ==> t in leaves
  {
    if groups == [] then [] else
    ArrangedAll(leaves, optional, groups[..|groups| - 1]) + Arranged(leaves, optional, groups[|groups| - 1])
  }

  lemma {:induction false} ArrangedKeepsOrder(leaves: map<string, Leaf>, optional: Optional, groups: seq<TabGroup>)
    requires forall t :: t in Assigned(groups) ==> t in leaves
    ensures LeavesOf(ArrangedAll(leaves, optional, groups)) == Picked(leaves, Assigned(groups))
  {
    if groups == [] {
    } else {
      var init, last := groups[..|groups| - 1], groups[|groups| - 1];
      ArrangedKeepsOrder(leaves, optional, init);
      var tabs := Arranged(leaves, optional, last);
      LeavesOfConcat(ArrangedAll(leaves, optional, init), tabs);
      GroupLeaves(leaves, optional, last);
      PickedConcat(leaves, Assigned(init), last.titles);
    }
  }

  lemma GroupLeaves(leaves: map<string, Leaf>, optional: Optional, group: TabGroup)
    requires forall t :: t in group.titles ==> t in leaves
    ensures LeavesOf(Arranged(leaves, optional, group)) == Picked(leaves, group.titles)
  {
    var tabs := Arranged(leaves, optional, group);
    if group.title.None? {
      LeavesOfSingles(Picked(leaves, group.titles), tabs);
    } else {
      assert tabs[..0] == [];
      assert LeavesOf(tabs) == LeavesOf([]) + Under(tabs[0]);
    }
  }

  lemma PickedConcat(leaves: map<string, Leaf>, a: seq<string>, b: seq<string>)
    requires forall t :: t in a + b ==> t in leaves
    ensures Picked(leaves, a + b) == Picked(leaves, a) + Picked(leaves, b)
  {
  }

  ghost predicate SomeShown(leaves: seq<Leaf>, values: Values) {
    exists i :: 0 <= i < |leaves| && Shown(leaves[i].condition, values)
  }

  /** A domain with a leaf that is not optional is always shown. A domain of optional leaves
      is shown exactly when one of its leaves is, under every assignment, if and only if
      their presence variables are coherent. */
  ghost predicate FollowsItsLeaves(optional: Optional, tab: TopTab) {
    tab.Domain? ==>
      if forall t :: t in Titles(tab.leaves) ==> t in optional
      then Coherent(optional, Titles(tab.leaves)) <==>
        (forall values: Values :: Shown(tab.condition, values) <==> SomeShown(tab.leaves, values))
      else tab.condition.None?
  }

  lemma GroupFollowsItsLeaves(tabs: seq<Leaf>, optional: Optional, leaves: map<string, Leaf>, group: TabGroup)
    requires Catalogue(tabs, optional, leaves) && forall t :: t in group.titles ==> t in leaves
    ensures forall tab :: tab in Arranged(leaves, optional, group) ==> FollowsItsLeaves(optional, tab)
  {
    var picked := Picked(leaves, group.titles);
    forall k | 0 <= k < |picked|
      ensures picked[k].title == group.titles[k]
      ensures picked[k].title in optional ==> picked[k].condition == Cond(optional[picked[k].title], []).value
    {
      assert group.titles[k] in Titles(tabs);
      var j :| 0 <= j < |tabs| && Titles(tabs)[j] == group.titles[k];
    }
    assert Titles(picked) == group.titles;
    if forall t :: t in group.titles ==> t in optional {
      DomainMeansItsLeaves(optional, group.titles);
      forall values: Values
        ensures SomeShown(picked, values) <==> SomeLeafShown(optional, group.titles, values)
      {
        PickedShown(optional, picked, group.titles, values);
      }
      assert forall values: Values ::
        DomainShown(optional, group.titles, values) <==> Shown(Cond(ParentPresence(optional, group.titles), []).value, values);
    }
  }

  lemma PickedShown(optional: Optional, picked: seq<Leaf>, titles: seq<string>, values: Values)
    requires |picked| == |titles| && forall t :: t in titles ==> t in optional
    requires forall k :: 0 <= k < |titles| ==> titles[k] in optional && picked[k].condition == Cond(optional[titles[k]], []).value
    ensures SomeShown(picked, values) <==> SomeLeafShown(optional, titles, values)
  {
    if SomeShown(picked, values) {
      var i :| 0 <= i < |picked| && Shown(picked[i].condition, values);
      assert titles[i] in titles && LeafShown(optional, titles[i], values);
    }
    if SomeLeafShown(optional, titles, values) {
      var t :| t in titles && LeafShown(optional, t, values);
      var i :| 0 <= i < |titles| && titles[i] == t;
      assert Shown(picked[i].condition, values);
    }
  }

  lemma {:induction false} AllFollowTheirLeaves(tabs: seq<Leaf>, optional: Optional, leaves: map<string, Leaf>, groups: seq<TabGroup>)
    requires Catalogue(tabs, optional, leaves) && forall t :: t in Assigned(groups) ==> t in leaves
    ensures forall tab :: tab in ArrangedAll(leaves, optional, groups) ==> FollowsItsLeaves(optional, tab)
  {
    if groups == [] {
    } else {
      var init, last := groups[..|groups| - 1], groups[|groups| - 1];
      AllFollowTheirLeaves(tabs, optional, leaves, init);
      GroupFollowsItsLeaves(tabs, optional, leaves, last);
    }
  }

  // ----- What the result looks like, and when it is shown -----

  /** The top-level tabs a group stands for: its leaves, or one domain around them. */
  predicate StandsFor(group: TabGroup, tabs: seq<TopTab>) {
    match group.title
    case None =>
      |tabs| == |group.titles| && forall i :: 0 <= i < |tabs| ==> tabs[i].Single? && tabs[i].leaf.title == group.titles[i]
    case Some(title) =>
      |tabs| == 1 && tabs[0].Domain? && tabs[0].title == title && Titles(tabs[0].leaves) == group.titles
  }

  /** The tabs are those the groups stand for, group after group. */
  predicate Layered(groups: seq<TabGroup>, tabs: seq<TopTab>) {
    if groups == [] then tabs == [] else
    var last := groups[|groups| - 1];
    var n := |tabs| - if last.title.None? then |last.titles| else 1;
    0 <= n && Layered(groups[..|groups| - 1], tabs[..n]) && StandsFor(last, tabs[n..])
  }

  /** Some leaf is not optional, or no leaf has presence variables, or one of them has a
      value. */
  predicate SomePresence(optional: Optional, titles: seq<string>, values: Values) {
    || (exists t :: t in titles && t !in optional)
    || (forall t :: t in titles && t in optional ==> optional[t] == [])
    || (exists t :: t in titles && t in optional && AnyOf(optional[t], values))
  }

  /** That is exactly when a domain is shown. */
  ghost predicate ShownByPresence(optional: Optional, tab: TopTab) {
    tab.Domain? ==> forall values: Values :: Shown(tab.condition, values) <==> SomePresence(optional, Titles(tab.leaves), values)
  }

  /** The leaf is the original, shown by its presence variables if it is optional. */
  ghost predicate Becomes(optional: Optional, original: Leaf, leaf: Leaf) {
    && leaf.title == original.title && leaf.content == original.content
    && if leaf.title in optional
       then forall values: Values :: Shown(leaf.condition, values) <==> optional[leaf.title] == [] || AnyOf(optional[leaf.title], values)
       else leaf.condition == original.condition
  }

  lemma GatedBecomes(optional: Optional, original: Leaf)
    ensures Becomes(optional, original, Gated(optional, original))
  {
    if original.title in optional {
      forall values: Values
        ensures LeafShown(optional, original.title, values) <==> optional[original.title] == [] || AnyOf(optional[original.title], values)
      {
        LeafShownMeans(optional, original.title, values);
      }
    }
  }

  lemma PickedTitles(tabs: seq<Leaf>, optional: Optional, leaves: map<string, Leaf>, titles: seq<string>)
    requires Catalogue(tabs, optional, leaves) && forall t :: t in titles ==> t in leaves
    ensures Titles(Picked(leaves, titles)) == titles
  {
    forall k | 0 <= k < |titles| ensures Picked(leaves, titles)[k].title == titles[k] {
      assert titles[k] in Titles(tabs);
      var j :| 0 <= j < |tabs| && Titles(tabs)[j] == titles[k];
    }
  }

  lemma {:induction false} ArrangedIsLayered(tabs: seq<Leaf>, optional: Optional, leaves: map<string, Leaf>, groups: seq<TabGroup>)
    requires Catalogue(tabs, optional, leaves) && forall t :: t in Assigned(groups) ==> t in leaves
    ensures Layered(groups, ArrangedAll(leaves, optional, groups))
  {
    if groups == [] {
    } else {
      var init, last := groups[..|groups| - 1], groups[|groups| - 1];
      ArrangedIsLayered(tabs, optional, leaves, init);
      GroupStands(tabs, optional, leaves, last);
      OneLayerMore(groups, ArrangedAll(leaves, optional, init), Arranged(leaves, optional, last));
    }
  }

  lemma GroupStands(tabs: seq<Leaf>, optional: Optional, leaves: map<string, Leaf>, group: TabGroup)
    requires Catalogue(tabs, optional, leaves) && forall t :: t in group.titles ==> t in leaves
    ensures StandsFor(group, Arranged(leaves, optional, group))
  {
    PickedTitles(tabs, optional, leaves, group.titles);
    var picked := Picked(leaves, group.titles);
    assert forall i :: 0 <= i < |picked| ==> Titles(picked)[i] == group.titles[i];
  }

  lemma OneLayerMore(groups: seq<TabGroup>, before: seq<TopTab>, more: seq<TopTab>)
    requires groups != [] && Layered(groups[..|groups| - 1], before) && StandsFor(groups[|groups| - 1], more)
    ensures Layered(groups, before + more)
  {
    assert (before + more)[..|before|] == before && (before + more)[|before|..] == more;
  }

  lemma {:induction false} ArrangedByPresence(tabs: seq<Leaf>, optional: Optional, leaves: map<string, Leaf>, groups: seq<TabGroup>)
    requires Catalogue(tabs, optional, leaves) && forall t :: t in Assigned(groups) ==> t in leaves
    ensures forall tab :: tab in ArrangedAll(leaves, optional, groups) ==> ShownByPresence(optional, tab)
  {
    if groups == [] {
    } else {
      var init, last := groups[..|groups| - 1], groups[|groups| - 1];
      ArrangedByPresence(tabs, optional, leaves, init);
      PickedTitles(tabs, optional, leaves, last.titles);
      forall tab | tab in Arranged(leaves, optional, last) && tab.Domain? ensures ShownByPresence(optional, tab) {
        DomainByPresence(optional, tab, last.titles);
      }
    }
  }

  lemma DomainByPresence(optional: Optional, tab: TopTab, titles: seq<string>)
    requires tab.Domain? && Titles(tab.leaves) == titles
    requires tab.condition == Cond(ParentPresence(optional, titles), []).value
    ensures ShownByPresence(optional, tab)
  {
    forall values: Values ensures DomainShown(optional, titles, values) <==> SomePresence(optional, titles, values) {
      if forall t :: t in titles ==> t in optional {
        DomainShownMeans(optional, titles, values);
      }
    }
    assert forall values: Values :: Shown(tab.condition, values) <==> DomainShown(optional, titles, values);
  }

  /** The leaf tabs of a dashboard moved into their groups. It succeeds exactly when the
      leaf titles are distinct and the groups claim each of them once and nothing else;
      then every leaf appears exactly once, in the order the groups declare, unchanged
      but for the condition of an optional one, each group becomes its domain, and each
      domain's condition follows its leaves'. */
  method OrganizeTabs(tabs: seq<Leaf>, groups: seq<TabGroup>, optional: Optional) returns (r: Result<seq<TopTab>, BuildError>)
    ensures r.Ok? <==>
      && NoRepeats(Titles(tabs)) && NoRepeats(Assigned(groups))
      && (forall t :: t in Titles(tabs) <==> t in Assigned(groups))
    ensures r.Err? ==> (r.error.DuplicateLeaf? <==> !NoRepeats(Titles(tabs)))
    ensures r.Err? && r.error.DuplicateLeaf? ==> FirstRepeat(Titles(tabs), r.error.title)
    ensures r.Err? && !r.error.DuplicateLeaf? ==>
      (r.error == Mismatch <==> !(forall t :: t in Titles(tabs) <==> t in Assigned(groups)))
    ensures r.Err? && !r.error.DuplicateLeaf? && r.error != Mismatch ==>
      r.error.AlreadyTaken? && FirstRepeat(Assigned(groups), r.error.title)
    ensures r.Ok? ==> Titles(LeavesOf(r.value)) == Assigned(groups)
    ensures r.Ok? ==> forall leaf :: leaf in LeavesOf(r.value) <==> exists original :: original in tabs && leaf == Gated(optional, original)
    ensures r.Ok? ==> exists leaves ::
      && Catalogue(tabs, optional, leaves) && (forall t :: t in Assigned(groups) ==> t in leaves)
      && r.value == ArrangedAll(leaves, optional, groups)
    ensures r.Ok? ==> forall tab :: tab in r.value ==> FollowsItsLeaves(optional, tab)
    ensures r.Ok? ==> Layered(groups, r.value)
    ensures r.Ok? ==> forall leaf :: leaf in LeavesOf(r.value) ==> exists original :: original in tabs && Becomes(optional, original, leaf)
    ensures r.Ok? ==> forall tab :: tab in r.value ==> ShownByPresence(optional, tab)
  {
    var leaves, duplicate := ByTitle(tabs);
    if duplicate.Some? {
      return Err(DuplicateLeaf(duplicate.value));
    }
    var expected := set t | t in Assigned(groups);
    if leaves.Keys != expected {
      return Err(Mismatch);
    }
    leaves := GateAll(leaves, optional);
    ghost var all := leaves;
    assert Catalogue(tabs, optional, all);
    r := Rebuild(leaves, groups, optional);
    if r.Ok? {
      ArrangedKeepsOrder(all, optional, groups);
      SameLeaves(tabs, optional, all, Assigned(groups));
      AllFollowTheirLeaves(tabs, optional, all, groups);
      ArrangedIsLayered(tabs, optional, all, groups);
      ArrangedByPresence(tabs, optional, all, groups);
      forall original | original in tabs ensures Becomes(optional, original, Gated(optional, original)) {
        GatedBecomes(optional, original);
      }
    }
  }

  /** The first element that repeats an earlier one. */
  predicate FirstRepeat(s: seq<string>, x: string) {
    exists i :: 0 <= i < |s| && s[i] == x && x in s[..i] && NoRepeats(s[..i])
  }

  /** The leaves by title, or a title that two of them share. */
  method ByTitle(tabs: seq<Leaf>) returns (leaves: map<string, Leaf>, duplicate: Option<string>)
    ensures duplicate.None? <==> NoRepeats(Titles(tabs))
    ensures duplicate.Some? ==> FirstRepeat(Titles(tabs), duplicate.value)
    ensures duplicate.None? ==>
      && (forall t :: t in leaves <==> t in Titles(tabs))
      && (forall i :: 0 <= i < |tabs| ==> tabs[i].title in leaves && leaves[tabs[i].title] == tabs[i])
      && (forall t :: t in leaves ==> leaves[t].title == t)
  {
    leaves := map[];
    var i := 0;
    while i < |tabs|
      invariant 0 <= i <= |tabs|
      invariant forall j, k :: 0 <= j < k < i ==> tabs[j].title != tabs[k].title
      invariant forall j :: 0 <= j < i ==> tabs[j].title in leaves && leaves[tabs[j].title] == tabs[j]
      invariant forall t :: t in leaves ==> exists j :: 0 <= j < i && tabs[j].title == t
    {
      var title := tabs[i].title;
      if title in leaves {
        ghost var j :| 0 <= j < i && tabs[j].title == title;
        TitleRepeats(tabs, j, i);
        return leaves, Some(title);
      }
      leaves := leaves[title := tabs[i]];
      i := i + 1;
    }
    SameTitles(tabs, leaves);
    return leaves, None;
  }

  lemma TitleRepeats(tabs: seq<Leaf>, j: nat, i: nat)
    requires j < i < |tabs| && tabs[j].title == tabs[i].title
    requires forall j, k :: 0 <= j < k < i ==> tabs[j].title != tabs[k].title
    ensures FirstRepeat(Titles(tabs), tabs[i].title) && !NoRepeats(Titles(tabs))
  {
    var titles := Titles(tabs);
    assert titles[..i][j] == titles[i] && titles[j] == titles[i];
  }

  lemma SameTitles(tabs: seq<Leaf>, leaves: map<string, Leaf>)
    requires forall j :: 0 <= j < |tabs| ==> tabs[j].title in leaves
    requires forall t :: t in leaves ==> exists j :: 0 <= j < |tabs| && tabs[j].title == t
    ensures forall t :: t in leaves <==> t in Titles(tabs)
  {
    forall t | t in leaves ensures t in Titles(tabs) {
      var j :| 0 <= j < |tabs| && tabs[j].title == t;
      assert Titles(tabs)[j] == t;
    }
  }

  lemma SameLeaves(tabs: seq<Leaf>, optional: Optional, leaves: map<string, Leaf>, titles: seq<string>)
    requires Catalogue(tabs, optional, leaves) && forall t :: t in titles <==> t in leaves
    ensures Titles(Picked(leaves, titles)) == titles
    ensures forall leaf :: leaf in Picked(leaves, titles) <==> exists original :: original in tabs && leaf == Gated(optional, original)
  {
    var picked := Picked(leaves, titles);
    forall k | 0 <= k < |titles| ensures picked[k].title == titles[k] && exists o :: o in tabs && picked[k] == Gated(optional, o) {
      assert titles[k] in titles;
      var j :| 0 <= j < |tabs| && Titles(tabs)[j] == titles[k];
      assert tabs[j] in tabs;
    }
    forall o | o in tabs ensures Gated(optional, o) in picked {
      var j :| 0 <= j < |tabs| && tabs[j] == o;
      var k :| 0 <= k < |titles| && titles[k] == o.title;
      assert picked[k] == Gated(optional, o);
    }
  }

  /** Overwrites the condition of every optional leaf that is here. */
  method GateAll(leaves: map<string, Leaf>, optional: Optional) returns (gated: map<string, Leaf>)
    requires forall t :: t in leaves ==> leaves[t].title == t
    ensures gated.Keys == leaves.Keys
    ensures forall t :: t in leaves ==> gated[t] == Gated(optional, leaves[t])
  {
    gated := leaves;
    var rest := optional.Keys;
    while rest != {}
      invariant rest <= optional.Keys && gated.Keys == leaves.Keys
      invariant forall t :: t in leaves ==> gated[t] == if t in rest then leaves[t] else Gated(optional, leaves[t])
      decreases rest
    {
      var title :| title in rest;
      if title in gated {
        gated := gated[title := gated[title].(condition := Cond(optional[title], []).value)];
      }
      rest := rest - {title};
    }
  }

  /** Pops the leaves group by group into the new list of top-level tabs. */
  method Rebuild(all: map<string, Leaf>, groups: seq<TabGroup>, optional: Optional) returns (r: Result<seq<TopTab>, BuildError>)
    requires forall t :: t in all <==> t in Assigned(groups)
    ensures r.Ok? <==> NoRepeats(Assigned(groups))
    ensures r.Err? ==> r.error.AlreadyTaken? && FirstRepeat(Assigned(groups), r.error.title)
    ensures r.Ok? ==> r.value == ArrangedAll(all, optional, groups)
  {
    var leaves, tabs := all, [];
    ghost var done: seq<string> := [];
    var g := 0;
    assert groups[..0] == [];
    while g < |groups|
      invariant 0 <= g <= |groups|
      invariant done == Assigned(groups[..g]) && NoRepeats(done)
      invariant forall t :: t in done ==> t in all
      invariant tabs == ArrangedAll(all, optional, groups[..g])
      invariant leaves == Left(all, done)
    {
      OneGroupMore(all, optional, groups, g);
      var more, taken;
      more, leaves, taken := TakeGroup(all, leaves, done, groups[g], optional);
      if taken.Some? {
        PrefixRepeats(done + groups[g].titles, Assigned(groups), taken.value);
        return Err(AlreadyTaken(taken.value));
      }
      done := done + groups[g].titles;
      tabs := tabs + more;
      g := g + 1;
    }
    assert groups[..g] == groups;
    return Ok(tabs);
  }

  /** The tabs of one group, and the leaves that stay; a title that is no longer there
      stops it. */
  method TakeGroup(ghost all: map<string, Leaf>, leaves: map<string, Leaf>, ghost done: seq<string>, group: TabGroup, optional: Optional)
    returns (tabs: seq<TopTab>, left: map<string, Leaf>, taken: Option<string>)
    requires NoRepeats(done) && (forall t :: t in done + group.titles ==> t in all)
    requires leaves == Left(all, done)
    ensures taken.None? <==> NoRepeats(done + group.titles)
    ensures taken.Some? ==> FirstRepeat(done + group.titles, taken.value)
    ensures taken.None? ==> left == Left(all, done + group.titles)
    ensures taken.None? ==> (forall t :: t in group.titles ==> t in all) && tabs == Arranged(all, optional, group)
  {
    assert forall t :: t in group.titles ==> t in done + group.titles;
    var popped;
    popped, left, taken := PopAll(all, leaves, done, group.titles);
    if group.title.None? {
      tabs := seq(|popped|, i requires 0 <= i < |popped| => Single(popped[i]));
    } else {
      tabs := [Domain(group.title.value, popped, Cond(ParentPresence(optional, group.titles), []).value)];
    }
  }

  /** The leaves without those titles. */
  function Left(all: map<string, Leaf>, done: seq<string>): map<string, Leaf> {
    map t | t in all && t !in done :: all[t]
  }

  lemma OneGroupMore(all: map<string, Leaf>, optional: Optional, groups: seq<TabGroup>, g: nat)
    requires g < |groups| && forall t :: t in Assigned(groups) ==> t in all
    ensures Assigned(groups[..g + 1]) == Assigned(groups[..g]) + groups[g].titles <= Assigned(groups)
    ensures forall t :: t in Assigned(groups[..g]) + groups[g].titles ==> t in all
    ensures ArrangedAll(all, optional, groups[..g + 1])
         == ArrangedAll(all, optional, groups[..g]) + Arranged(all, optional, groups[g])
  {
    AssignedPrefix(groups, g + 1);
    assert groups[..g + 1][..g] == groups[..g];
    var s := Assigned(groups[..g + 1]);
    forall t | t in s ensures t in all {
      var k :| 0 <= k < |s| && s[k] == t;
      assert Assigned(groups)[k] == t;
    }
  }

  lemma PrefixRepeats(a: seq<string>, s: seq<string>, x: string)
    requires a <= s && FirstRepeat(a, x)
    ensures FirstRepeat(s, x) && !NoRepeats(s)
  {
    var i :| 0 <= i < |a| && a[i] == x && x in a[..i] && NoRepeats(a[..i]);
    assert a[..i] == s[..i] && s[i] == x;
    var j :| 0 <= j < i && s[..i][j] == x;
    assert s[j] == s[i];
  }

  lemma {:induction false} AssignedPrefix(groups: seq<TabGroup>, g: nat)
    requires g <= |groups|
    ensures Assigned(groups[..g]) <= Assigned(groups)
    decreases |groups|
  {
    if g == |groups| {
      assert groups[..g] == groups;
    } else {
      var init := groups[..|groups| - 1];
      AssignedPrefix(init, g);
      assert init[..g] == groups[..g];
    }
  }

  /** Pops these titles from the leaves not yet done; the first one no longer there stops
      it. */
  method PopAll(ghost all: map<string, Leaf>, leaves: map<string, Leaf>, ghost done: seq<string>, titles: seq<string>)
    returns (popped: seq<Leaf>, left: map<string, Leaf>, taken: Option<string>)
    requires NoRepeats(done) && (forall t :: t in done + titles ==> t in all)
    requires leaves == Left(all, done)
    ensures taken.None? <==> NoRepeats(done + titles)
    ensures taken.Some? ==> FirstRepeat(done + titles, taken.value)
    ensures taken.None? ==> popped == Picked(all, titles) && left == Left(all, done + titles)
  {
    popped := [];
    left := leaves;
    var i := 0;
    assert done + titles[..0] == done;
    while i < |titles|
      invariant 0 <= i <= |titles|
      invariant popped == Picked(all, titles[..i])
      invariant left == Left(all, done + titles[..i])
      invariant NoRepeats(done + titles[..i])
    {
      var title := titles[i];
      assert title in done + titles;
      assert titles[..i + 1] == titles[..i] + [title];
      assert done + titles[..i + 1] == (done + titles[..i]) + [title];
      assert done + titles[..i + 1] == (done + titles)[..|done| + i + 1];
      if title !in left {
        ghost var k :| 0 <= k < |done| + i && (done + titles[..i])[k] == title;
        assert (done + titles)[k] == (done + titles)[|done| + i];
        assert (done + titles)[..|done| + i] == done + titles[..i];
        return popped, left, Some(title);
      }
      popped := popped + [left[title]];
      left := left - {title};
      i := i + 1;
    }
    assert titles[..i] == titles;
    return popped, left, None;
  }
}
