/** When the tab that carries a variable encloses its uses, by the ways down the tree. */
module LayoutWalks {
  import opened Layout
  import opened Wrappers

  // ----- Tabs -----

  /** What is recorded of a tab found at a position. */
  function InfoOf(tab: Node, at: Path): TabInfo
    requires tab.Tab?
  {
    TabInfo(tab.id, at + [tab.title], tab.gate)
  }

  lemma {:induction false} TabsOfChild(nodes: seq<Node>, position: Path, i: nat, t: TabInfo)
    requires i < |nodes| && t in Tabs(nodes[i], position)
    ensures t in TabsAll(nodes, position)
  {
    if i == 0 {
    } else {
      TabsOfChild(nodes[1..], position, i - 1, t);
    }
  }

  /** Every tab there is a way down to is listed. */
  lemma {:induction false} TabsAreListed(node: Node, position: Path, walk: seq<nat>, found: Node, at: Path)
    requires Leads(node, position, walk, found, at) && found.Tab?
    ensures InfoOf(found, at) in Tabs(node, position)
    decreases |walk|
  {
    if walk == [] {
    } else {
      TabsAreListed(Child(node, walk[0]).value, Inside(node, position), walk[1..], found, at);
      if node.Group? {
        TabsOfChild(node.children, position, walk[0], InfoOf(found, at));
      }
    }
  }

  // ----- The carrying tab encloses every use -----

  lemma {:induction false} LeadsDown(node: Node, position: Path, walk: seq<nat>, found: Node, at: Path)
    requires Leads(node, position, walk, found, at)
    ensures position <= at
    decreases |walk|
  {
    if walk == [] {
    } else {
      LeadsDown(Child(node, walk[0]).value, Inside(node, position), walk[1..], found, at);
      assert position <= Inside(node, position);
    }
  }

  /** The walk enters this tab, found at this position. */
  ghost predicate Enters(node: Node, position: Path, walk: seq<nat>, k: nat, tab: Node, p: Path) {
    k < |walk| && tab.Tab? && Leads(node, position, walk[..k], tab, p)
  }

  /** A walk enters a tab for every level between where it starts and where it ends. */
  lemma {:induction false} EntersEveryLevel(node: Node, position: Path, walk: seq<nat>, found: Node, at: Path, n: nat)
    returns (k: nat, tab: Node, p: Path)
    requires Leads(node, position, walk, found, at) && |position| < n <= |at|
    ensures Enters(node, position, walk, k, tab, p) && p + [tab.title] == at[..n]
    decreases |walk|
  {
    var child, inside := Child(node, walk[0]).value, Inside(node, position);
    LeadsDown(child, inside, walk[1..], found, at);
    if |inside| == n {
      k, tab, p := 0, node, position;
      assert walk[..0] == [];
      assert at[..n] == inside;
    } else {
      k, tab, p := EntersEveryLevel(child, inside, walk[1..], found, at, n);
      k := k + 1;
      assert walk[..k][1..] == walk[1..][..k - 1];
    }
  }

  /** A way down leads to one node at one position only. */
  lemma {:induction false} LeadsToOne(node: Node, position: Path, walk: seq<nat>, a: Node, p: Path, b: Node, q: Path)
    requires Leads(node, position, walk, a, p) && Leads(node, position, walk, b, q)
    ensures a == b && p == q
    decreases |walk|
  {
    if walk == [] {
    } else {
      LeadsToOne(Child(node, walk[0]).value, Inside(node, position), walk[1..], a, p, b, q);
    }
  }

  /** Ways down one after the other. */
  lemma {:induction false} LeadsOn(node: Node, position: Path, walk: seq<nat>, mid: Node, p: Path, further: seq<nat>, found: Node, at: Path)
    requires Leads(node, position, walk, mid, p) && Leads(mid, p, further, found, at)
    ensures Leads(node, position, walk + further, found, at)
    decreases |walk|
  {
    if walk == [] {
      assert walk + further == further;
    } else {
      LeadsOn(Child(node, walk[0]).value, Inside(node, position), walk[1..], mid, p, further, found, at);
      assert (walk + further)[1..] == walk[1..] + further;
    }
  }

  /** What is left of a way down from a node on it. */
  lemma {:induction false} LeadsFrom(node: Node, position: Path, walk: seq<nat>, k: nat, mid: Node, p: Path, found: Node, at: Path)
    requires k <= |walk| && Leads(node, position, walk, found, at) && Leads(node, position, walk[..k], mid, p)
    ensures Leads(mid, p, walk[k..], found, at)
    decreases |walk|
  {
    if k == 0 {
      assert walk[..0] == [] && walk[0..] == walk;
    } else {
      assert walk[..k][1..] == walk[1..][..k - 1] && walk[1..][k - 1..] == walk[k..];
      LeadsFrom(Child(node, walk[0]).value, Inside(node, position), walk[1..], k - 1, mid, p, found, at);
    }
  }

  /** A walk enters one tab per level at most. */
  lemma OneTabPerLevel(node: Node, position: Path, walk: seq<nat>, found: Node, at: Path, k: nat, a: Node, p: Path, m: nat, b: Node, q: Path)
    requires Leads(node, position, walk, found, at)
    requires Enters(node, position, walk, k, a, p) && Enters(node, position, walk, m, b, q) && |p| == |q|
    ensures a == b && p == q
  {
    if k == m {
      LeadsToOne(node, position, walk[..k], a, p, b, q);
    } else if k < m {
      DeeperIsLonger(node, position, walk, k, a, p, m, b, q);
    } else {
      DeeperIsLonger(node, position, walk, m, b, q, k, a, p);
    }
  }

  lemma DeeperIsLonger(node: Node, position: Path, walk: seq<nat>, k: nat, a: Node, p: Path, m: nat, b: Node, q: Path)
    requires k < m && Enters(node, position, walk, k, a, p) && Enters(node, position, walk, m, b, q)
    ensures |p| < |q|
  {
    var up := walk[..m];
    assert up[..k] == walk[..k];
    LeadsFrom(node, position, up, k, a, p, b, q);
    var rest := up[k..];
    LeadsDown(Child(a, rest[0]).value, Inside(a, p), rest[1..], b, q);
  }

  // ----- When the carrying tab encloses every use -----

  /** The way down to every use of the variable enters the tab with this id. */
  ghost predicate EnclosesUses(b: Board, name: string, id: nat) {
    forall walk, found, at :: Occurs(b.mentions, Group(b.tabs), [], name, walk, found, at) ==> Entered(b, walk, id)
  }

  ghost predicate Entered(b: Board, walk: seq<nat>, id: nat) {
    exists k: nat, tab, p :: Enters(Group(b.tabs), [], walk, k, tab, p) && tab.id == id
  }

  /** Another tab with the same path uses the variable. */
  ghost predicate UsedBeside(b: Board, level: Path, name: string, id: nat, walk: seq<nat>, tab: Node, p: Path) {
    && Leads(Group(b.tabs), [], walk, tab, p) && tab.Tab? && p + [tab.title] == level && tab.id != id
    && Refs(b.mentions, tab.layout, level, name) != {}
  }

  /** The tab that carries the variable has the path of its level. */
  lemma CarrierIsAtLevel(b: Board, levels: map<string, Path>, v: Variable, id: nat, walk: seq<nat>, tab: Node, p: Path)
    requires DistinctTabs(TabList(b)) && Home(TabList(b), levels, v) == Some(id)
    requires Leads(Group(b.tabs), [], walk, tab, p) && tab.Tab? && tab.id == id
    ensures p + [tab.title] == LevelOf(levels, v)
  {
    TabsAreListed(Group(b.tabs), [], walk, tab, p);
    assert TabInfoWith(TabList(b), LevelOf(levels, v), id);
    var t :| t in TabList(b) && t.path == LevelOf(levels, v) && t.id == id;
    SameTab(TabList(b), InfoOf(tab, p), t);
  }

  /** A use is below a tab at its level: the carrying one, or another that uses the
      variable. */
  lemma UseIsInSomeTab(b: Board, levels: map<string, Path>, v: Variable, id: nat, walk: seq<nat>, found: Node, at: Path)
    returns (k: nat, tab: Node, p: Path)
    requires IsLevels(b, levels) && Home(TabList(b), levels, v) == Some(id)
    requires Occurs(b.mentions, Group(b.tabs), [], v.name, walk, found, at)
    ensures Enters(Group(b.tabs), [], walk, k, tab, p)
    ensures tab.id == id || UsedBeside(b, LevelOf(levels, v), v.name, id, walk[..k], tab, p)
  {
    var level := LevelOf(levels, v);
    OccurrencesAreRefs(b.mentions, Group(b.tabs), [], v.name, walk, found, at);
    assert UsedAt(b, v.name, at) && IsLevel(b, v.name, level);
    k, tab, p := EntersEveryLevel(Group(b.tabs), [], walk, found, at, |level|);
    assert p + [tab.title] == level;
    LeadsFrom(Group(b.tabs), [], walk, k, tab, p, found, at);
    var rest := walk[k..];
    assert Occurs(b.mentions, tab.layout, level, v.name, rest[1..], found, at);
    OccurrencesAreRefs(b.mentions, tab.layout, level, v.name, rest[1..], found, at);
  }

  /** A use in another tab with the same path is not below the carrying one. */
  lemma UseBesideIsOutside(b: Board, levels: map<string, Path>, v: Variable, id: nat, walk: seq<nat>, tab: Node, p: Path)
    requires DistinctTabs(TabList(b)) && Home(TabList(b), levels, v) == Some(id)
    requires UsedBeside(b, LevelOf(levels, v), v.name, id, walk, tab, p)
    ensures !EnclosesUses(b, v.name, id)
  {
    var level, root := LevelOf(levels, v), Group(b.tabs);
    var at :| at in Refs(b.mentions, tab.layout, level, v.name);
    var further, found := RefsOccur(b.mentions, tab.layout, level, v.name, at);
    OneDown(b.mentions, tab, p, v.name, 0, further, found, at);
    var all := walk + ([0] + further);
    LeadsOn(root, [], walk, tab, p, [0] + further, found, at);
    assert Occurs(b.mentions, root, [], v.name, all, found, at);
    assert all[..|walk|] == walk;
    assert Enters(root, [], all, |walk|, tab, p);
    if Entered(b, all, id) {
      var m: nat, other, q :| Enters(root, [], all, m, other, q) && other.id == id;
      CarrierIsAtLevel(b, levels, v, id, all[..m], other, q);
      OneTabPerLevel(root, [], all, found, at, |walk|, tab, p, m, other, q);
    }
  }

  /** The way down to every use of a variable enters the tab that carries it if and only if
      no other tab with the path of that tab uses the variable. */
  lemma CarrierEnclosesUses(b: Board, levels: map<string, Path>, v: Variable, id: nat)
    requires IsLevels(b, levels) && DistinctTabs(TabList(b)) && Home(TabList(b), levels, v) == Some(id)
    ensures EnclosesUses(b, v.name, id) <==>
      forall walk, tab, p :: !UsedBeside(b, LevelOf(levels, v), v.name, id, walk, tab, p)
  {
    if walk, tab, p :| UsedBeside(b, LevelOf(levels, v), v.name, id, walk, tab, p) {
      UseBesideIsOutside(b, levels, v, id, walk, tab, p);
    } else {
      forall walk, found, at | Occurs(b.mentions, Group(b.tabs), [], v.name, walk, found, at) ensures Entered(b, walk, id) {
        var k, tab, p := UseIsInSomeTab(b, levels, v, id, walk, found, at);
      }
    }
  }

  ghost predicate UniquePaths(tabs: seq<TabInfo>) {
    forall i, j :: 0 <= i < j < |tabs| ==> tabs[i].path != tabs[j].path
  }

  lemma OnePathOneTab(tabs: seq<TabInfo>, a: TabInfo, b: TabInfo)
    requires UniquePaths(tabs) && a in tabs && b in tabs && a.path == b.path
    ensures a == b
  {
    var i, j :| 0 <= i < |tabs| && tabs[i] == a && 0 <= j < |tabs| && tabs[j] == b;
  }

  /** In particular when no two tabs have one path. */
  lemma UniquePathsEnclose(b: Board, levels: map<string, Path>, v: Variable, id: nat)
    requires IsLevels(b, levels) && DistinctTabs(TabList(b)) && UniquePaths(TabList(b)) && Home(TabList(b), levels, v) == Some(id)
    ensures EnclosesUses(b, v.name, id)
  {
    CarrierEnclosesUses(b, levels, v, id);
    var tabs, level := TabList(b), LevelOf(levels, v);
    assert TabInfoWith(tabs, level, id);
    var t :| t in tabs && t.path == level && t.id == id;
    forall walk, tab, p | Leads(Group(b.tabs), [], walk, tab, p) && tab.Tab? && p + [tab.title] == level ensures tab.id == id {
      TabsAreListed(Group(b.tabs), [], walk, tab, p);
      OnePathOneTab(tabs, InfoOf(tab, p), t);
    }
  }

  /** Two tabs of one title, the first with the panel that uses the variable. */
  function SameTitles(): Board {
    Board([Tab(1, "T", [], Panel("p")), Tab(2, "T", [], Group([]))], {"v"}, (panel, name) => panel == "p" && name == "v", name => false)
  }

  /** Otherwise it need not: of two tabs with one path the last carries the variable, and the
      only use may be in the first. */
  lemma LastTabCarries(spec: string)
    ensures var b, levels := SameTitles(), map["v" := ["T"]];
      && IsLevels(b, levels) && Home(TabList(b), levels, Variable("v", spec)) == Some(2)
      && Occurs(b.mentions, Group(b.tabs), [], "v", [0, 0], Panel("p"), ["T"])
      && (forall k, tab, p :: Enters(Group(b.tabs), [], [0, 0], k, tab, p) ==> tab.id == 1)
  {
    var b, levels := SameTitles(), map["v" := ["T"]];
    var first, second := b.tabs[0], b.tabs[1];
    TwoTabs(b);
    OnlyUse(b);
    ByLast([TabInfo(1, ["T"], []), TabInfo(2, ["T"], [])]);
    assert [0, 0][1..] == [0] && [0][1..] == [];
    assert Leads(Panel("p"), ["T"], [], Panel("p"), ["T"]);
    assert [] + ["T"] == ["T"];
    assert Leads(first, [], [0], Panel("p"), ["T"]);
    assert Leads(Group(b.tabs), [], [0, 0], Panel("p"), ["T"]);
    forall k, tab, p | Enters(Group(b.tabs), [], [0, 0], k, tab, p) ensures tab.id == 1 {
      if k == 1 {
        assert [0, 0][..1] == [0];
        assert Leads(Group(b.tabs), [], [0], tab, p);
        assert Leads(first, [], [], tab, p);
      }
    }
  }

  lemma TwoTabs(b: Board)
    requires b == SameTitles()
    ensures TabList(b) == [TabInfo(1, ["T"], []), TabInfo(2, ["T"], [])]
  {
    var first, second := b.tabs[0], b.tabs[1];
    assert [] + ["T"] == ["T"];
    assert Tabs(first, []) == [TabInfo(1, ["T"], [])] + [];
    assert Tabs(second, []) == [TabInfo(2, ["T"], [])] + [];
    assert b.tabs[1..] == [second] && [second][1..] == [];
    assert TabsAll([second], []) == Tabs(second, []) + [];
  }

  lemma OnlyUse(b: Board)
    requires b == SameTitles()
    ensures References(b, "v") == {["T"]} && IsLevels(b, map["v" := ["T"]])
  {
    var first, second := b.tabs[0], b.tabs[1];
    assert [] + ["T"] == ["T"];
    assert Refs(b.mentions, first, [], "v") == {["T"]};
    assert Refs(b.mentions, second, [], "v") == {};
    assert b.tabs[1..] == [second] && [second][1..] == [];
    assert RefsAll(b.mentions, [second], [], "v") == {};
    LevelIsDeepest(b, "v", ["T"]);
  }

  lemma ByLast(tabs: seq<TabInfo>)
    requires tabs == [TabInfo(1, ["T"], []), TabInfo(2, ["T"], [])]
    ensures ["T"] in ByPath(tabs) && ByPath(tabs)[["T"]] == 2
  {
  }
}
