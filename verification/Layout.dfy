/** Where each hidden presence variable of a dashboard is declared: on the deepest tab
    that encloses every reference to it. */
module Layout {
  import opened Sequences
  import opened Wrappers

  /** The titles of the enclosing tabs, outermost first; [] is the dashboard. */
  type Path = seq<string>

  /** A layout tree. `id` is a tab's identity as an object, `gate` the variables a tab or
      row makes its visibility depend on; Group is any other node or list. */
  datatype Node =
    | Tab(id: nat, title: string, gate: seq<string>, layout: Node)
    | Row(gate: seq<string>, layout: Node)
    | Panel(name: string)
    | Group(children: seq<Node>)

  // ----- References -----

  /** The positions under a node, itself at `position`, that refer to a variable. A tab's
      own gate resolves in its parent. `mentions` says which panels use which variable. */
  function Refs(mentions: (string, string) -> bool, node: Node, position: Path, name: string): set<Path>
    decreases node, 1
  {
    match node
    case Tab(_, title, gate, layout) =>
      (if name in gate then {position} else {}) + Refs(mentions, layout, position + [title], name)
    case Row(gate, layout) =>
      (if name in gate then {position} else {}) + Refs(mentions, layout, position, name)
    case Panel(panel) => if mentions(panel, name) then {position} else {}
    case Group(children) => RefsAll(mentions, children, position, name)
  }

  function RefsAll(mentions: (string, string) -> bool, nodes: seq<Node>, position: Path, name: string): set<Path>
    decreases nodes, 0
  {
    if nodes == [] then {}
    else Refs(mentions, nodes[0], position, name) + RefsAll(mentions, nodes[1..], position, name)
  }

  // ----- Tabs -----

  datatype TabInfo = TabInfo(id: nat, path: Path, gate: seq<string>)

  /** The tabs under a node in the order the tree is walked. */
  function Tabs(node: Node, position: Path): seq<TabInfo>
    decreases node, 1
  {
    match node
    case Tab(id, title, gate, layout) => [TabInfo(id, position + [title], gate)] + Tabs(layout, position + [title])
    case Row(_, layout) => Tabs(layout, position)
    case Panel(_) => []
    case Group(children) => TabsAll(children, position)
  }

  function TabsAll(nodes: seq<Node>, position: Path): seq<TabInfo>
    decreases nodes, 0
  {
    if nodes == [] then [] else Tabs(nodes[0], position) + TabsAll(nodes[1..], position)
  }

  predicate HasPath(tabs: seq<TabInfo>, path: Path) {
    exists t :: t in tabs && t.path == path
  }

  lemma HasPathIn(tabs: seq<TabInfo>, t: TabInfo)
    requires t in tabs
    ensures HasPath(tabs, t.path)
  {
  }

  /** Every tab lies below the position, and so do all levels between the two. */
  ghost predicate Rooted(tabs: seq<TabInfo>, position: Path) {
    forall t :: t in tabs ==> RootedAt(tabs, position, t)
  }

  ghost predicate RootedAt(tabs: seq<TabInfo>, position: Path, t: TabInfo) {
    && position < t.path
    && forall n :: |position| < n <= |t.path| ==> HasPath(tabs, t.path[..n])
  }

  lemma {:induction false} TabsAreRooted(node: Node, position: Path)
    ensures Rooted(Tabs(node, position), position)
    decreases node, 1
  {
    match node
    case Tab(id, title, gate, layout) =>
      var path := position + [title];
      var inner := Tabs(layout, path);
      var all := Tabs(node, position);
      TabsAreRooted(layout, path);
      forall t | t in all ensures RootedAt(all, position, t) {
        assert all[0] in all;
        if t in inner {
          assert RootedAt(inner, path, t);
          forall n | |position| < n <= |t.path| ensures HasPath(all, t.path[..n]) {
            if n == |path| {
              assert t.path[..n] == path;
              HasPathIn(all, all[0]);
            } else {
              var s :| s in inner && s.path == t.path[..n];
              HasPathIn(all, s);
            }
          }
        } else {
          assert t == all[0] && path[..|path|] == path;
          HasPathIn(all, t);
        }
      }
    case Row(_, layout) => TabsAreRooted(layout, position);
    case Panel(_) =>
    case Group(children) => TabsAllAreRooted(children, position);
  }

  lemma {:induction false} TabsAllAreRooted(nodes: seq<Node>, position: Path)
    ensures Rooted(TabsAll(nodes, position), position)
    decreases nodes, 0
  {
    if nodes == [] {
    } else {
      TabsAreRooted(nodes[0], position);
      TabsAllAreRooted(nodes[1..], position);
      RootedConcat(Tabs(nodes[0], position), TabsAll(nodes[1..], position), position);
    }
  }

  lemma RootedConcat(a: seq<TabInfo>, b: seq<TabInfo>, position: Path)
    requires Rooted(a, position) && Rooted(b, position)
    ensures Rooted(a + b, position)
  {
    forall t | t in a + b ensures RootedAt(a + b, position, t) {
      var side := if t in a then a else b;
      assert RootedAt(side, position, t);
      forall n | |position| < n <= |t.path| ensures HasPath(a + b, t.path[..n]) {
        var s :| s in side && s.path == t.path[..n];
        HasPathIn(a + b, s);
      }
    }
  }

  /** A position that refers to anything is the node's own or that of a tab below it. */
  lemma {:induction false} RefsAreTabs(mentions: (string, string) -> bool, node: Node, position: Path, name: string, p: Path)
    requires p in Refs(mentions, node, position, name)
    ensures p == position || HasPath(Tabs(node, position), p)
    decreases node, 1
  {
    match node
    case Tab(_, title, _, layout) =>
      var all := Tabs(node, position);
      assert all[0] in all;
      HasPathIn(all, all[0]);
      if p in Refs(mentions, layout, position + [title], name) {
        RefsAreTabs(mentions, layout, position + [title], name, p);
        if p != position + [title] {
          var s :| s in Tabs(layout, position + [title]) && s.path == p;
          HasPathIn(all, s);
        }
      }
    case Row(_, layout) =>
      if p in Refs(mentions, layout, position, name) {
        RefsAreTabs(mentions, layout, position, name, p);
      }
    case Panel(_) =>
    case Group(children) => RefsAllAreTabs(mentions, children, position, name, p);
  }

  lemma {:induction false} RefsAllAreTabs(mentions: (string, string) -> bool, nodes: seq<Node>, position: Path, name: string, p: Path)
    requires p in RefsAll(mentions, nodes, position, name)
    ensures p == position || HasPath(TabsAll(nodes, position), p)
    decreases nodes, 0
  {
    var all := TabsAll(nodes, position);
    var head := if p in Refs(mentions, nodes[0], position, name) then Tabs(nodes[0], position) else TabsAll(nodes[1..], position);
    if p in Refs(mentions, nodes[0], position, name) {
      RefsAreTabs(mentions, nodes[0], position, name, p);
    } else {
      RefsAllAreTabs(mentions, nodes[1..], position, name, p);
    }
    if p != position {
      var s :| s in head && s.path == p;
      HasPathIn(all, s);
    }
  }

  /** A tab's gate refers to its variables from the tab's parent. */
  lemma {:induction false} GatesRefer(mentions: (string, string) -> bool, node: Node, position: Path, t: TabInfo, name: string)
    requires t in Tabs(node, position) && name in t.gate
    ensures t.path != [] && t.path[..|t.path| - 1] in Refs(mentions, node, position, name)
    decreases node, 1
  {
    match node
    case Tab(id, title, gate, layout) =>
      if t in Tabs(layout, position + [title]) {
        GatesRefer(mentions, layout, position + [title], t, name);
      } else {
        assert t.path[..|t.path| - 1] == position;
      }
    case Row(_, layout) => GatesRefer(mentions, layout, position, t, name);
    case Group(children) => GatesAllRefer(mentions, children, position, t, name);
  }

  lemma {:induction false} GatesAllRefer(mentions: (string, string) -> bool, nodes: seq<Node>, position: Path, t: TabInfo, name: string)
    requires t in TabsAll(nodes, position) && name in t.gate
    ensures t.path != [] && t.path[..|t.path| - 1] in RefsAll(mentions, nodes, position, name)
    decreases nodes, 0
  {
    if t in Tabs(nodes[0], position) {
      GatesRefer(mentions, nodes[0], position, t, name);
    } else {
      GatesAllRefer(mentions, nodes[1..], position, t, name);
    }
  }

  // ----- References by the ways down the tree -----

  /** The node one step further down. */
  function Child(node: Node, i: nat): Option<Node> {
    match node
    case Tab(_, _, _, layout) => if i == 0 then Some(layout) else None
    case Row(_, layout) => if i == 0 then Some(layout) else None
    case Panel(_) => None
    case Group(children) => if i < |children| then Some(children[i]) else None
  }

  /** The position of what is inside a node. */
  function Inside(node: Node, position: Path): Path {
    if node.Tab? then position + [node.title] else position
  }

  /** A way down from a node leads to `found`, enclosed by exactly the tabs of `at`. */
  ghost predicate Leads(node: Node, position: Path, walk: seq<nat>, found: Node, at: Path)
    decreases |walk|
  {
    if walk == [] then found == node && at == position
    else Child(node, walk[0]).Some? && Leads(Child(node, walk[0]).value, Inside(node, position), walk[1..], found, at)
  }

  /** The node itself refers to the variable: by its gate, or by what the panel shows. */
  predicate Mentions(mentions: (string, string) -> bool, node: Node, name: string) {
    match node
    case Tab(_, _, gate, _) => name in gate
    case Row(gate, _) => name in gate
    case Panel(panel) => mentions(panel, name)
    case Group(_) => false
  }

  ghost predicate Occurs(mentions: (string, string) -> bool, node: Node, position: Path, name: string, walk: seq<nat>, found: Node, at: Path) {
    Leads(node, position, walk, found, at) && Mentions(mentions, found, name)
  }

  lemma {:induction false} RefsOfChild(mentions: (string, string) -> bool, nodes: seq<Node>, position: Path, name: string, i: nat)
    requires i < |nodes|
    ensures Refs(mentions, nodes[i], position, name) <= RefsAll(mentions, nodes, position, name)
  {
    if i == 0 {
    } else {
      RefsOfChild(mentions, nodes[1..], position, name, i - 1);
    }
  }

  lemma {:induction false} OccurrencesAreRefs(mentions: (string, string) -> bool, node: Node, position: Path, name: string, walk: seq<nat>, found: Node, at: Path)
    requires Occurs(mentions, node, position, name, walk, found, at)
    ensures at in Refs(mentions, node, position, name)
    decreases |walk|
  {
    if walk == [] {
    } else {
      OccurrencesAreRefs(mentions, Child(node, walk[0]).value, Inside(node, position), name, walk[1..], found, at);
      if node.Group? {
        RefsOfChild(mentions, node.children, position, name, walk[0]);
      }
    }
  }

  lemma OneDown(mentions: (string, string) -> bool, node: Node, position: Path, name: string, i: nat, walk: seq<nat>, found: Node, at: Path)
    requires Child(node, i).Some? && Occurs(mentions, Child(node, i).value, Inside(node, position), name, walk, found, at)
    ensures Occurs(mentions, node, position, name, [i] + walk, found, at)
  {
    assert ([i] + walk)[1..] == walk;
  }

  lemma {:induction false} RefsOccur(mentions: (string, string) -> bool, node: Node, position: Path, name: string, at: Path)
    returns (walk: seq<nat>, found: Node)
    requires at in Refs(mentions, node, position, name)
    ensures Occurs(mentions, node, position, name, walk, found, at)
    decreases node, 1
  {
    if Mentions(mentions, node, name) && at == position {
      return [], node;
    }
    var i := 0;
    match node {
      case Tab(_, title, _, layout) => walk, found := RefsOccur(mentions, layout, position + [title], name, at);
      case Row(_, layout) => walk, found := RefsOccur(mentions, layout, position, name, at);
      case Group(children) => i, walk, found := RefsOccurBelow(mentions, children, position, name, at);
    }
    OneDown(mentions, node, position, name, i, walk, found, at);
    walk := [i] + walk;
  }

  lemma {:induction false} RefsOccurBelow(mentions: (string, string) -> bool, nodes: seq<Node>, position: Path, name: string, at: Path)
    returns (i: nat, walk: seq<nat>, found: Node)
    requires at in RefsAll(mentions, nodes, position, name)
    ensures i < |nodes| && Occurs(mentions, nodes[i], position, name, walk, found, at)
    decreases nodes, 0
  {
    if at in Refs(mentions, nodes[0], position, name) {
      i := 0;
      walk, found := RefsOccur(mentions, nodes[0], position, name, at);
    } else {
      i, walk, found := RefsOccurBelow(mentions, nodes[1..], position, name, at);
      i := i + 1;
    }
  }

  /** A position refers to a variable exactly when some way down leads to a node that
      mentions it and is enclosed by exactly the tabs of that position; a tab does not
      enclose its own gate. */
  lemma RefsAreOccurrences(mentions: (string, string) -> bool, node: Node, position: Path, name: string, at: Path)
    ensures at in Refs(mentions, node, position, name) <==>
      exists walk, found :: Occurs(mentions, node, position, name, walk, found, at)
  {
    if at in Refs(mentions, node, position, name) {
      var walk, found := RefsOccur(mentions, node, position, name, at);
    }
    if walk, found :| Occurs(mentions, node, position, name, walk, found, at) {
      OccurrencesAreRefs(mentions, node, position, name, walk, found, at);
    }
  }

  // ----- The deepest common level -----

  predicate Encloses(level: Path, positions: set<Path>) {
    forall p :: p in positions ==> level <= p
  }

  /** The level encloses every position, and every level that does encloses it. */
  ghost predicate Deepest(level: Path, positions: set<Path>) {
    Encloses(level, positions) && forall m :: Encloses(m, positions) ==> m <= level
  }

  /** The common prefix of a nonempty set of positions; the dashboard for no positions.
      The positions come in no particular order. */
  method CommonLevel(positions: set<Path>) returns (common: Path)
    ensures positions == {} ==> common == []
    ensures positions != {} ==> Deepest(common, positions)
  {
    if positions == {} {
      return [];
    }
    common := Shortest(positions);
    var rest := positions;
    while rest != {}
      invariant rest <= positions
      invariant forall p :: p in positions - rest ==> common <= p
      invariant forall p :: p in positions ==> |common| <= |p|
      invariant forall m :: Encloses(m, positions) ==> m <= common
      decreases rest
    {
      var position :| position in rest;
      ghost var wider := common;
      common := Narrow(common, position, positions);
      forall p | p in positions - (rest - {position}) ensures common <= p {
        if p != position {
          assert p in positions - rest;
          PrefixTransitive(common, wider, p);
        }
      }
      rest := rest - {position};
    }
    assert positions - rest == positions;
  }

  lemma PrefixTransitive(a: Path, b: Path, c: Path)
    requires a <= b <= c
    ensures a <= c
  {
  }

  method Shortest(positions: set<Path>) returns (least: Path)
    requires positions != {}
    ensures least in positions && forall p :: p in positions ==> |least| <= |p|
  {
    least :| least in positions;
    var rest := positions;
    while rest != {}
      invariant rest <= positions && least in positions
      invariant forall p :: p in positions - rest ==> |least| <= |p|
      decreases rest
    {
      var p :| p in rest;
      if |p| < |least| {
        least := p;
      }
      rest := rest - {p};
    }
  }

  /** Drops titles from the end of `level` until it is a prefix of `position`. */
  method Narrow(level: Path, position: Path, ghost positions: set<Path>) returns (common: Path)
    requires position in positions && |level| <= |position|
    requires forall m :: Encloses(m, positions) ==> m <= level
    ensures common <= level && common <= position
    ensures forall m :: Encloses(m, positions) ==> m <= common
  {
    common := level;
    while common != position[..|common|]
      invariant common <= level
      invariant forall m :: Encloses(m, positions) ==> m <= common
      decreases |common|
    {
      common := common[..|common| - 1];
    }
  }

  // ----- The levels of a dashboard -----

  /** A dashboard as far as placement reads it: its tabs, the names of its sentinels, and
      what its panels and everything outside the layout refer to. */
  datatype Board = Board(
    tabs: seq<Node>,
    sentinels: set<string>,
    mentions: (string, string) -> bool,
    outside: string -> bool)

  function References(b: Board, name: string): set<Path> {
    Refs(b.mentions, Group(b.tabs), [], name) + (if b.outside(name) then {[]} else {})
  }

  function TabList(b: Board): seq<TabInfo> { Tabs(Group(b.tabs), []) }

  /** The variable is used at this position: by something the tabs of that path enclose, or,
      at the dashboard level, from outside the layout. */
  ghost predicate UsedAt(b: Board, name: string, at: Path) {
    || (b.outside(name) && at == [])
    || exists walk, found :: Occurs(b.mentions, Group(b.tabs), [], name, walk, found, at)
  }

  ghost predicate EnclosesAll(b: Board, name: string, level: Path) {
    forall at :: UsedAt(b, name, at) ==> level <= at
  }

  /** The level encloses every use of the variable, and every level that does encloses it;
      the dashboard if there is no use. */
  ghost predicate IsLevel(b: Board, name: string, level: Path) {
    if exists at :: UsedAt(b, name, at) then
      EnclosesAll(b, name, level) && forall m :: EnclosesAll(b, name, m) ==> m <= level
    else level == []
  }

  /** The level map placement computes. */
  ghost predicate IsLevels(b: Board, levels: map<string, Path>) {
    levels.Keys == b.sentinels && forall name :: name in levels ==> IsLevel(b, name, levels[name])
  }

  lemma UsesAreReferences(b: Board, name: string, at: Path)
    ensures UsedAt(b, name, at) <==> at in References(b, name)
  {
    RefsAreOccurrences(b.mentions, Group(b.tabs), [], name, at);
  }

  lemma LevelIsDeepest(b: Board, name: string, level: Path)
    ensures IsLevel(b, name, level)
       <==> if References(b, name) == {} then level == [] else Deepest(level, References(b, name))
  {
    forall at ensures UsedAt(b, name, at) <==> at in References(b, name) {
      UsesAreReferences(b, name, at);
    }
    forall m ensures EnclosesAll(b, name, m) <==> Encloses(m, References(b, name)) {
    }
    if References(b, name) != {} {
      var at :| at in References(b, name);
      assert UsedAt(b, name, at);
    }
  }

  lemma LevelsAreUnique(b: Board, m: map<string, Path>, n: map<string, Path>)
    requires IsLevels(b, m) && IsLevels(b, n)
    ensures m == n
  {
    forall name | name in m ensures m[name] == n[name] {
      assert IsLevel(b, name, m[name]) && IsLevel(b, name, n[name]);
      assert m[name] <= n[name] && n[name] <= m[name];
    }
  }

  /** A variable that something outside the layout uses stays at the dashboard level. */
  lemma OutsideIsGlobal(b: Board, levels: map<string, Path>, name: string)
    requires IsLevels(b, levels) && name in levels && b.outside(name)
    ensures levels[name] == []
  {
    assert UsedAt(b, name, []);
    assert IsLevel(b, name, levels[name]);
  }

  /** A level other than the dashboard is always a tab's: the "level not found" branch of
      placement is never taken. */
  lemma LevelsAreTabs(b: Board, levels: map<string, Path>, name: string)
    requires IsLevels(b, levels) && name in levels && levels[name] != []
    ensures HasPath(TabList(b), levels[name])
  {
    var level, refs := levels[name], References(b, name);
    LevelIsDeepest(b, name, level);
    assert IsLevel(b, name, level);
    var p :| p in refs;
    assert level <= p;
    assert p != [];
    RefsAreTabs(b.mentions, Group(b.tabs), [], name, p);
    var t :| t in TabList(b) && t.path == p;
    TabsAreRooted(Group(b.tabs), []);
    assert RootedAt(TabList(b), [], t);
    assert t.path[..|level|] == level;
  }

  /** No tab is the level of a variable that its own visibility, or that of a tab around
      it, depends on. */
  lemma NoTabGatesItself(b: Board, levels: map<string, Path>, t: TabInfo, around: TabInfo, name: string)
    requires IsLevels(b, levels) && name in levels
    requires t in TabList(b) && around in TabList(b) && around.path <= t.path && name in around.gate
    ensures levels[name] != t.path
  {
    GatesRefer(b.mentions, Group(b.tabs), [], around, name);
    var parent := around.path[..|around.path| - 1];
    UsesAreReferences(b, name, parent);
    assert IsLevel(b, name, levels[name]);
    assert levels[name] <= parent;
  }

  // ----- Placement -----

  datatype Variable = Variable(name: string, spec: string)

  function LevelOf(levels: map<string, Path>, v: Variable): Path {
    if v.name in levels then levels[v.name] else []
  }

  /** The tabs by path; of two with one path, the one walked last. */
  function ByPath(tabs: seq<TabInfo>): (m: map<Path, nat>)
    ensures forall path :: path in m <==> HasPath(tabs, path)
    ensures forall path :: path in m ==> TabInfoWith(tabs, path, m[path]) && LastWith(tabs, path, m[path])
  {
    if tabs == [] then map[] else
    var t := tabs[|tabs| - 1];
    var m := ByPath(tabs[..|tabs| - 1]);
    assert tabs == tabs[..|tabs| - 1] + [t];
    assert forall path :: HasPath(tabs, path) <==> HasPath(tabs[..|tabs| - 1], path) || path == t.path;
    assert LastWith(tabs, t.path, t.id) by { assert tabs[|tabs| - 1] == t; }
    StillLast(tabs, m);
    m[t.path := t.id]
  }

  lemma StillLast(tabs: seq<TabInfo>, m: map<Path, nat>)
    requires tabs != [] && forall path :: path in m ==> LastWith(tabs[..|tabs| - 1], path, m[path])
    ensures forall path :: path in m && path != tabs[|tabs| - 1].path ==> LastWith(tabs, path, m[path])
  {
    var init := tabs[..|tabs| - 1];
    forall path | path in m && path != tabs[|tabs| - 1].path ensures LastWith(tabs, path, m[path]) {
      var i :| 0 <= i < |init| && init[i].path == path && init[i].id == m[path] && forall j :: i < j < |init| ==> init[j].path != path;
      assert tabs[i] == init[i];
      assert forall j :: i < j < |init| ==> tabs[j] == init[j];
    }
  }

  predicate TabInfoWith(tabs: seq<TabInfo>, path: Path, id: nat) {
    exists t :: t in tabs && t.path == path && t.id == id
  }

  /** The last tab with this path has this id. */
  predicate LastWith(tabs: seq<TabInfo>, path: Path, id: nat) {
    exists i :: 0 <= i < |tabs| && tabs[i].path == path && tabs[i].id == id && forall j :: i < j < |tabs| ==> tabs[j].path != path
  }

  /** The tab a variable goes to, if it leaves the dashboard level. */
  function Home(tabs: seq<TabInfo>, levels: map<string, Path>, v: Variable): Option<nat> {
    var level := LevelOf(levels, v);
    if level == [] || level !in ByPath(tabs) then None else Some(ByPath(tabs)[level])
  }

  /** The variables with a given home, in their order. */
  function At(tabs: seq<TabInfo>, levels: map<string, Path>, vs: seq<Variable>, home: Option<nat>): seq<Variable> {
    if vs == [] then [] else
    var init := At(tabs, levels, vs[..|vs| - 1], home);
    var v := vs[|vs| - 1];
    if Home(tabs, levels, v) == home then init + [v] else init
  }

  /** Which these are, and in which order, is settled part by part. */
  lemma {:induction false} AtSplits(tabs: seq<TabInfo>, levels: map<string, Path>, a: seq<Variable>, b: seq<Variable>, home: Option<nat>)
    ensures At(tabs, levels, a + b, home) == At(tabs, levels, a, home) + At(tabs, levels, b, home)
    decreases |b|
  {
    if b == [] {
      assert a + b == a;
    } else {
      var init, v := b[..|b| - 1], b[|b| - 1];
      AtSplits(tabs, levels, a, init, home);
      assert a + b == (a + init) + [v] && b == init + [v];
      AtOneMore(tabs, levels, a + init, v, home);
      AtOneMore(tabs, levels, init, v, home);
      Associative(At(tabs, levels, a, home), At(tabs, levels, init, home), if Home(tabs, levels, v) == home then [v] else []);
    }
  }

  lemma {:induction false} AtOneMore(tabs: seq<TabInfo>, levels: map<string, Path>, vs: seq<Variable>, v: Variable, home: Option<nat>)
    ensures At(tabs, levels, vs + [v], home) == At(tabs, levels, vs, home) + if Home(tabs, levels, v) == home then [v] else []
  {
    assert (vs + [v])[..|vs|] == vs;
  }

  function CarriedBy(carried: map<nat, seq<Variable>>, id: nat): seq<Variable> {
    if id in carried then carried[id] else []
  }

  /** Every variable on some tab, in walking order. */
  function OnTabs(tabs: seq<TabInfo>, carried: map<nat, seq<Variable>>): seq<Variable> {
    if tabs == [] then [] else CarriedBy(carried, tabs[0].id) + OnTabs(tabs[1..], carried)
  }

  /** Tabs are different objects. */
  predicate DistinctTabs(tabs: seq<TabInfo>) {
    forall i, j :: 0 <= i < j < |tabs| ==> tabs[i].id != tabs[j].id
  }

  /** What the tabs carry once the variables have moved in. */
  function Settled(tabs: seq<TabInfo>, levels: map<string, Path>, carried: map<nat, seq<Variable>>, vs: seq<Variable>): map<nat, seq<Variable>> {
    if vs == [] then carried else
    var c := Settled(tabs, levels, carried, vs[..|vs| - 1]);
    var home := Home(tabs, levels, vs[|vs| - 1]);
    if home.None? then c else c[home.value := CarriedBy(c, home.value) + [vs[|vs| - 1]]]
  }

  lemma {:induction false} SettledTab(tabs: seq<TabInfo>, levels: map<string, Path>, carried: map<nat, seq<Variable>>, vs: seq<Variable>, id: nat)
    ensures CarriedBy(Settled(tabs, levels, carried, vs), id) == CarriedBy(carried, id) + At(tabs, levels, vs, Some(id))
  {
    if vs == [] {
    } else {
      SettledTab(tabs, levels, carried, vs[..|vs| - 1], id);
    }
  }

  lemma {:induction false} OnTabsSame(tabs: seq<TabInfo>, carried: map<nat, seq<Variable>>, id: nat, more: seq<Variable>)
    requires forall t :: t in tabs ==> t.id != id
    ensures OnTabs(tabs, carried[id := more]) == OnTabs(tabs, carried)
  {
    if tabs == [] {
    } else {
      assert tabs[0] in tabs;
      OnTabsSame(tabs[1..], carried, id, more);
    }
  }

  lemma {:induction false} OnTabsAppend(tabs: seq<TabInfo>, carried: map<nat, seq<Variable>>, i: nat, v: Variable)
    requires DistinctTabs(tabs) && i < |tabs|
    ensures var more := CarriedBy(carried, tabs[i].id) + [v];
      multiset(OnTabs(tabs, carried[tabs[i].id := more])) == multiset(OnTabs(tabs, carried)) + multiset{v}
  {
    var id := tabs[i].id;
    var after := carried[id := CarriedBy(carried, id) + [v]];
    if i == 0 {
      OnTabsSame(tabs[1..], carried, id, CarriedBy(carried, id) + [v]);
    } else {
      OnTabsAppend(tabs[1..], carried, i - 1, v);
      assert CarriedBy(after, tabs[0].id) == CarriedBy(carried, tabs[0].id);
    }
  }

  lemma {:induction false} SettledTogether(tabs: seq<TabInfo>, levels: map<string, Path>, carried: map<nat, seq<Variable>>, vs: seq<Variable>)
    requires DistinctTabs(tabs)
    ensures multiset(At(tabs, levels, vs, None)) + multiset(OnTabs(tabs, Settled(tabs, levels, carried, vs)))
         == multiset(vs) + multiset(OnTabs(tabs, carried))
  {
    if vs == [] {
    } else {
      var init, v := vs[..|vs| - 1], vs[|vs| - 1];
      SettledTogether(tabs, levels, carried, init);
      var stay, on := At(tabs, levels, init, None), OnTabs(tabs, Settled(tabs, levels, carried, init));
      var stay', on' := At(tabs, levels, vs, None), OnTabs(tabs, Settled(tabs, levels, carried, vs));
      OneSettled(tabs, levels, carried, vs);
      OneOver(stay, on, init, OnTabs(tabs, carried), v, stay', on');
      assert vs == init + [v];
    }
  }

  ghost predicate OneMoved(stay: seq<Variable>, on: seq<Variable>, v: Variable, stay': seq<Variable>, on': seq<Variable>) {
    (stay' == stay + [v] && on' == on) || (stay' == stay && multiset(on') == multiset(on) + multiset{v})
  }

  lemma OneSettled(tabs: seq<TabInfo>, levels: map<string, Path>, carried: map<nat, seq<Variable>>, vs: seq<Variable>)
    requires DistinctTabs(tabs) && vs != []
    ensures var init, v := vs[..|vs| - 1], vs[|vs| - 1];
      OneMoved(At(tabs, levels, init, None), OnTabs(tabs, Settled(tabs, levels, carried, init)), v,
        At(tabs, levels, vs, None), OnTabs(tabs, Settled(tabs, levels, carried, vs)))
  {
    var init, v := vs[..|vs| - 1], vs[|vs| - 1];
    if Home(tabs, levels, v).Some? {
      MovedIn(tabs, levels, Settled(tabs, levels, carried, init), v);
    }
  }

  lemma MovedIn(tabs: seq<TabInfo>, levels: map<string, Path>, c: map<nat, seq<Variable>>, v: Variable)
    requires DistinctTabs(tabs) && Home(tabs, levels, v).Some?
    ensures var id := Home(tabs, levels, v).value;
      multiset(OnTabs(tabs, c[id := CarriedBy(c, id) + [v]])) == multiset(OnTabs(tabs, c)) + multiset{v}
  {
    var id := Home(tabs, levels, v).value;
    assert TabInfoWith(tabs, LevelOf(levels, v), id);
    var i :| 0 <= i < |tabs| && tabs[i].id == id;
    OnTabsAppend(tabs, c, i, v);
  }

  lemma OneOver(stay: seq<Variable>, on: seq<Variable>, vs: seq<Variable>, before: seq<Variable>, v: Variable, stay': seq<Variable>, on': seq<Variable>)
    requires multiset(stay) + multiset(on) == multiset(vs) + multiset(before)
    requires OneMoved(stay, on, v, stay', on')
    ensures multiset(stay') + multiset(on') == multiset(vs + [v]) + multiset(before)
  {
    assert multiset(stay') + multiset(on') == (multiset(stay) + multiset(on)) + multiset{v};
    assert multiset(vs + [v]) == multiset(vs) + multiset{v};
  }

  lemma {:induction false} StayersAreGlobal(b: Board, levels: map<string, Path>, vs: seq<Variable>, v: Variable)
    requires IsLevels(b, levels) && v in At(TabList(b), levels, vs, None)
    ensures LevelOf(levels, v) == []
  {
    if v in At(TabList(b), levels, vs[..|vs| - 1], None) {
      StayersAreGlobal(b, levels, vs[..|vs| - 1], v);
    } else if LevelOf(levels, v) != [] {
      LevelsAreTabs(b, levels, v.name);
    }
  }

  lemma {:induction false} AtHome(tabs: seq<TabInfo>, levels: map<string, Path>, vs: seq<Variable>, home: Option<nat>, v: Variable)
    requires v in At(tabs, levels, vs, home)
    ensures Home(tabs, levels, v) == home
  {
    if v in At(tabs, levels, vs[..|vs| - 1], home) {
      AtHome(tabs, levels, vs[..|vs| - 1], home, v);
    }
  }

  lemma {:induction false} SameTab(tabs: seq<TabInfo>, a: TabInfo, b: TabInfo)
    requires DistinctTabs(tabs) && a in tabs && b in tabs && a.id == b.id
    ensures a == b
  {
    var i, j :| 0 <= i < |tabs| && tabs[i] == a && 0 <= j < |tabs| && tabs[j] == b;
  }

  /** No tab receives a variable that its own visibility, or that of a tab around it,
      depends on. */
  lemma NoTabReceivesItsGate(b: Board, levels: map<string, Path>, vs: seq<Variable>, t: TabInfo, around: TabInfo, v: Variable)
    requires IsLevels(b, levels) && DistinctTabs(TabList(b))
    requires t in TabList(b) && around in TabList(b) && around.path <= t.path
    requires v in At(TabList(b), levels, vs, Some(t.id))
    ensures v.name !in around.gate
  {
    var tabs := TabList(b);
    AtHome(tabs, levels, vs, Some(t.id), v);
    assert TabInfoWith(tabs, LevelOf(levels, v), t.id);
    var home :| home in tabs && home.path == LevelOf(levels, v) && home.id == t.id;
    SameTab(tabs, home, t);
    if v.name in around.gate {
      NoTabGatesItself(b, levels, t, around, v.name);
    }
  }

  /** Variables that placement leaves where they are. */
  predicate Fixed(b: Board, v: Variable) { v.name !in b.sentinels || b.outside(v.name) }

  lemma {:induction false} AtCount(tabs: seq<TabInfo>, levels: map<string, Path>, vs: seq<Variable>, home: Option<nat>, v: Variable)
    ensures multiset(At(tabs, levels, vs, home))[v] == if Home(tabs, levels, v) == home then multiset(vs)[v] else 0
  {
    if vs == [] {
    } else {
      AtCount(tabs, levels, vs[..|vs| - 1], home, v);
      assert vs == vs[..|vs| - 1] + [vs[|vs| - 1]];
    }
  }

  lemma FixedStay(b: Board, levels: map<string, Path>, vs: seq<Variable>)
    requires IsLevels(b, levels)
    ensures forall v :: Fixed(b, v) ==> multiset(At(TabList(b), levels, vs, None))[v] == multiset(vs)[v]
    ensures forall v, id :: Fixed(b, v) ==> multiset(At(TabList(b), levels, vs, Some(id)))[v] == 0
  {
    forall v | Fixed(b, v) ensures Home(TabList(b), levels, v) == None {
      if v.name in levels {
        OutsideIsGlobal(b, levels, v.name);
      }
    }
    forall v, home ensures multiset(At(TabList(b), levels, vs, home))[v] == if Home(TabList(b), levels, v) == home then multiset(vs)[v] else 0 {
      AtCount(TabList(b), levels, vs, home, v);
    }
  }

  /** A builder: the dashboard-level variables, and those each tab object carries. */
  class Builder {
    const board: Board
    var variables: seq<Variable>
    var carried: map<nat, seq<Variable>>

    constructor (board: Board, variables: seq<Variable>)
      ensures this.board == board && this.variables == variables && carried == map[]
    {
      this.board, this.variables, this.carried := board, variables, map[];
    }

    ghost function AllVariables(): seq<Variable>
      reads this
    {
      variables + OnTabs(TabList(board), carried)
    }

    /** Moves each sentinel onto the deepest tab that encloses its uses: exactly the level
        of each one is reported, each variable goes to the tab of its level behind the
        ones already there, in declaration order, and no variable is lost or doubled. What
        is no sentinel, or used outside the layout, goes to no tab. */
    method PlaceVariables() returns (levels: map<string, Path>)
      requires DistinctTabs(TabList(board))
      modifies this
      ensures IsLevels(board, levels)
      ensures variables == At(TabList(board), levels, old(variables), None)
      ensures forall v :: v in variables ==> LevelOf(levels, v) == []
      ensures forall id :: (CarriedBy(carried, id)
        == old(CarriedBy(carried, id)) + At(TabList(board), levels, old(variables), Some(id)))
      ensures multiset(AllVariables()) == multiset(old(AllVariables()))
      ensures forall v :: Fixed(board, v) ==> multiset(variables)[v] == multiset(old(variables))[v]
      ensures forall v, id :: Fixed(board, v) ==>
        multiset(CarriedBy(carried, id))[v] == multiset(old(CarriedBy(carried, id)))[v]
    {
      levels := Levels();
      ghost var tabs, before := TabList(board), carried;
      var byPath := ByPath(TabList(board));
      var remaining: seq<Variable> := [];
      var i := 0;
      while i < |variables|
        invariant 0 <= i <= |variables| && variables == old(variables)
        invariant remaining == At(tabs, levels, variables[..i], None)
        invariant carried == Settled(tabs, levels, before, variables[..i])
      {
        var v := variables[i];
        OneMore(tabs, levels, before, variables, i);
        var level := LevelOf(levels, v);
        if level == [] {
          remaining := remaining + [v];
        } else {
          LevelsAreTabs(board, levels, v.name);
          var id := byPath[level];
          carried := carried[id := CarriedBy(carried, id) + [v]];
        }
        i := i + 1;
      }
      assert variables[..i] == variables;
      variables := remaining;
      Afterwards(board, levels, before, old(variables));
      FixedStay(board, levels, old(variables));
    }

    static lemma OneMore(tabs: seq<TabInfo>, levels: map<string, Path>, carried: map<nat, seq<Variable>>, vs: seq<Variable>, i: nat)
      requires i < |vs|
      ensures var (home, c) := (Home(tabs, levels, vs[i]), Settled(tabs, levels, carried, vs[..i]));
        && At(tabs, levels, vs[..i + 1], None) == At(tabs, levels, vs[..i], None) + (if home.None? then [vs[i]] else [])
        && Settled(tabs, levels, carried, vs[..i + 1])
           == if home.None? then c else c[home.value := CarriedBy(c, home.value) + [vs[i]]]
    {
      assert vs[..i + 1][..i] == vs[..i];
    }

    static lemma Afterwards(b: Board, levels: map<string, Path>, carried: map<nat, seq<Variable>>, vs: seq<Variable>)
      requires DistinctTabs(TabList(b)) && IsLevels(b, levels)
      ensures var (stay, after) := (At(TabList(b), levels, vs, None), Settled(TabList(b), levels, carried, vs));
        && (forall v :: v in stay ==> LevelOf(levels, v) == [])
        && (forall id :: CarriedBy(after, id) == CarriedBy(carried, id) + At(TabList(b), levels, vs, Some(id)))
        && multiset(stay + OnTabs(TabList(b), after)) == multiset(vs + OnTabs(TabList(b), carried))
    {
      SettledTogether(TabList(b), levels, carried, vs);
      forall v | v in At(TabList(b), levels, vs, None) ensures LevelOf(levels, v) == [] {
        StayersAreGlobal(b, levels, vs, v);
      }
      var after := Settled(TabList(b), levels, carried, vs);
      forall id ensures CarriedBy(after, id) == CarriedBy(carried, id) + At(TabList(b), levels, vs, Some(id)) {
        SettledTab(TabList(b), levels, carried, vs, id);
      }
    }

    /** The level of every sentinel. */
    method Levels() returns (levels: map<string, Path>)
      ensures IsLevels(board, levels)
    {
      levels := map[];
      var rest := board.sentinels;
      while rest != {}
        invariant rest <= board.sentinels && levels.Keys == board.sentinels - rest
        invariant forall name :: name in levels ==> IsLevel(board, name, levels[name])
        decreases rest
      {
        var name :| name in rest;
        var level := CommonLevel(References(board, name));
        LevelIsDeepest(board, name, level);
        levels := levels[name := level];
        rest := rest - {name};
      }
    }
  }
}
