/** The scan follows the tree if and only if it is misled nowhere: wherever it is, the texts
    differ at some byte. */
module JsonExact {
  import opened JsonText
  import opened JsonTree
  import opened JsonRedaction
  import opened Sequences
  import opened Wrappers

  // ----- Texts that differ -----

  ghost predicate DifferAt(a: string, b: string, i: nat) { i < |a| && i < |b| && a[i] != b[i] }

  ghost predicate Differ(a: string, b: string) { exists i: nat :: DifferAt(a, b, i) }

  lemma DifferBehind(h: string, a: string, b: string)
    requires Differ(a, b)
    ensures Differ(h + a, h + b)
  {
    var i: nat :| DifferAt(a, b, i);
    assert DifferAt(h + a, h + b, |h| + i);
  }

  /** With t to come where the tree has t', the scan does not put out what the tree has. */
  ghost predicate Strays(p: Pass, st: Pending, t: string, t': string) {
    Differ(p.rw(Pend(st) + t), Pend(st) + t')
  }

  lemma TurnStrays(p: Pass, st: Pending, x: string, x': string, mid: Pending, t: string, t': string, h: string)
    requires Turn(p, st, x, x', mid, t, h) && Strays(p, mid, t, t')
    ensures Strays(p, st, x + t, x' + t')
  {
    DifferBehind(h, p.rw(Pend(mid) + t), Pend(mid) + t');
    Associative(h, Pend(mid), t');
    Associative(Pend(st), x', t');
  }

  /** What follows a string starts like this. */
  predicate Starts(t: string) {
    t != "" && (IsSpace(t[0]) || IsDelimiter(t[0]) || t[0] == ':')
  }

  /** The same whatever follows x' in the tree. */
  ghost predicate StraysOn(p: Pass, st: Pending, t: string, x': string) {
    forall r :: Starts(r) ==> Strays(p, st, t, x' + r)
  }

  lemma TurnStraysOn(p: Pass, st: Pending, x: string, x': string, mid: Pending, t: string, y': string, h: string)
    requires Turn(p, st, x, x', mid, t, h) && StraysOn(p, mid, t, y')
    ensures StraysOn(p, st, x + t, x' + y')
  {
    forall r | Starts(r) ensures Strays(p, st, x + t, (x' + y') + r) {
      assert Strays(p, mid, t, y' + r);
      TurnStrays(p, st, x, x', mid, t, y' + r, h);
      Associative(x', y', r);
    }
  }

  /** A notice whose first byte does not follow a string or close one. */
  predicate Lettered(notice: string) { notice != "" && notice[0] != '"' && !Starts(notice) }

  // ----- Cut inside a string -----

  lemma {:induction false} EscapedBehindSpace(c: string)
    requires Escaped(c)
    ensures Escaped(c[SpaceRun(c)..])
  {
    if c != "" && IsSpace(c[0]) {
      EscapedBehindSpace(c[1..]);
      assert c[1..][SpaceRun(c[1..])..] == c[SpaceRun(c)..];
    } else {
      assert c[0..] == c;
    }
  }

  lemma ValueIsNoQuote(c: string)
    requires Escaped(c) && LeadsWithColon(c)
    ensures FieldStart(c) < |c| ==> c[FieldStart(c)] != '"'
  {
    var n := SpaceRun(c);
    EscapedBehindSpace(c);
    assert c[n..][0] == ':' && c[n..][1..] == c[n + 1..];
    EscapedBehindSpace(c[n + 1..]);
    var m := SpaceRun(c[n + 1..]);
    assert c[n + 1..][m..] == c[n + 1 + m..];
  }

  lemma InsideMove(p: Pass, gap: string, c: string, t: string, s: string) returns (k: nat)
    requires p.Valid() && '"' !in gap && '\\' !in gap && s == Quoted(gap) + (c + ("\"" + t))
    requires CutInside(p.policy.hides, Opened(gap), c)
    ensures p.scan(s) == Cut(|gap| + 2 + FieldStart(c), k)
  {
    var d := c + ("\"" + t);
    PlainEscaped(gap);
    ContentLead(c, t);
    NoValueInside(c, t);
    k := ValueRun(d[FieldStart(d)..]).value;
    KeyAt(p, gap, d, s);
  }

  lemma CutOutput(p: Pass, s: string, head: string, k: nat) returns (r: string)
    requires p.Valid() && s != "" && head <= s && p.scan(s) == Cut(|head|, k)
    ensures p.rw(s) == head + (p.policy.Marker() + r)
  {
    StepCut(p, s, |head|, k);
    r := p.rw(s[|head| + k..]);
    Associative(head, p.policy.Marker(), r);
  }

  /** What the scan puts out when it cuts inside a string. */
  lemma CutInsideOutput(p: Pass, st: Pending, c: string, t: string) returns (r: string)
    requires p.Valid() && PlainGap(st) && CutInside(p.policy.hides, st, c)
    ensures p.rw(Pend(st) + (Quoted(c) + t)) == Quoted(st.gap) + c[..FieldStart(c)] + (p.policy.Marker() + r)
  {
    var s := Quoted(st.gap) + (c + ("\"" + t));
    var k := InsideMove(p, st.gap, c, t, s);
    GapThenContent(st.gap, c, t);
    CutPrefix(st.gap, c, "\"" + t, FieldStart(c));
    r := CutOutput(p, s, Quoted(st.gap) + c[..FieldStart(c)], k);
  }

  lemma CutPrefix(gap: string, c: string, q: string, n: nat)
    requires n <= |c|
    ensures Quoted(gap) + c[..n] <= Quoted(gap) + (c + q) && |Quoted(gap) + c[..n]| == |gap| + 2 + n
  {
  }

  lemma StrayInside(p: Pass, st: Pending, c: string, t: string)
    requires p.Valid() && PlainGap(st) && Escaped(c) && CutInside(p.policy.hides, st, c) && Lettered(p.policy.notice)
    ensures StraysOn(p, st, Quoted(c) + t, Quoted(c))
  {
    var r := CutInsideOutput(p, st, c, t);
    ValueIsNoQuote(c);
    forall r' | Starts(r') ensures Strays(p, st, Quoted(c) + t, Quoted(c) + r') {
      GapThenContent(st.gap, c, r');
      InsideDiffers(Quoted(st.gap), c, FieldStart(c), p.policy.notice, r, r');
    }
  }

  lemma InsideDiffers(g: string, c: string, n: nat, notice: string, r: string, r': string)
    requires n <= |c| && (n < |c| ==> c[n] != '"') && Lettered(notice) && Starts(r')
    ensures Differ(g + c[..n] + (("\"" + notice + "\"") + r), g + (c + ("\"" + r')))
  {
    var a, b := g + c[..n] + (("\"" + notice + "\"") + r), g + (c + ("\"" + r'));
    var i := |g| + n;
    if n < |c| {
      assert a[i] == '"' && b[i] == c[n];
      assert DifferAt(a, b, i);
    } else {
      assert a[i + 1] == notice[0] && b[i + 1] == r'[0];
      assert DifferAt(a, b, i + 1);
    }
  }

  // ----- How a value that stays comes out -----

  /** The move at the start of s keeps its first m bytes. */
  ghost predicate Keeps(m: Move, n: nat) {
    match m
    case Copy(skip) => n <= skip
    case Halt => true
    case Cut(skip, _) => n <= skip
  }

  lemma KeptBytes(p: Pass, s: string, n: nat)
    requires p.Valid() && s != "" && n <= |s| && Keeps(p.scan(s), n)
    ensures n <= |p.rw(s)| && p.rw(s)[..n] == s[..n]
  {
    assert p.Takes(s);
  }

  lemma FirstQuote(p: Pass, t: string)
    requires p.Valid()
    ensures var r := p.rw("\"" + t); r != "" && r[0] == '"'
  {
    var s := "\"" + t;
    assert p.Moves(s);
    KeptBytes(p, s, 1);
    assert p.rw(s)[..1][0] == s[..1][0];
  }

  lemma {:induction false} RunBeyond(x: string, m: nat)
    requires m <= |x| && '"' !in x[..m] && QuotedRun(x, '"').Some?
    ensures QuotedRun(x, '"').value > m
    decreases |x|
  {
    if m == 0 {
    } else {
      assert x[0] == x[..m][0];
      if x[0] != '\\' {
        assert x[1..][..m - 1] == x[..m][1..];
        RunBeyond(x[1..], m - 1);
      } else if m > 1 {
        assert x[2..][..m - 2] == x[..m][2..];
        RunBeyond(x[2..], m - 2);
      }
    }
  }

  lemma KeyMoveKeeps(hides: string -> bool, token: string, rest: string)
    requires token != "" && LeadsWithColon(rest)
    ensures Keeps(KeyMove(hides, token, rest), |token|)
  {
  }

  lemma ShorterPrefix(r: string, s: string, n: nat, m: nat)
    requires m <= n <= |r| && n <= |s| && r[..n] == s[..n]
    ensures r[..m] == s[..m]
  {
    assert r[..n][..m] == r[..m] && s[..n][..m] == s[..m];
  }

  /** What reads as a key comes out as it is. */
  lemma TokenComesOut(p: Pass, x: string, q: nat, m: nat)
    requires p.Valid() && QuotedRun(x, '"') == Some(q) && LeadsWithColon(x[q..]) && m <= q + 1
    ensures var s := "\"" + x; m <= |p.rw(s)| && p.rw(s)[..m] == s[..m]
  {
    var s := "\"" + x;
    assert s[1..] == x && s[q + 1..] == x[q..];
    ScanString(p, s, q + 1);
    KeyMoveKeeps(p.policy.hides, s[..q + 1], s[q + 1..]);
    KeptBytes(p, s, q + 1);
    ShorterPrefix(p.rw(s), s, q + 1, m);
  }

  lemma SamePrefix(g: string, r: string, y: string)
    ensures ("\"" + (g + r))[..|g| + 1] == ("\"" + (g + y))[..|g| + 1]
  {
  }

  /** A pending quote and plain text after it come out as they are. */
  lemma PlainComesOut(p: Pass, g: string, y: string)
    requires p.Valid() && '"' !in g
    ensures var s := "\"" + (g + y); |g| + 1 <= |p.rw(s)| && p.rw(s)[..|g| + 1] == s[..|g| + 1]
  {
    var x := g + y;
    assert x[..|g|] == g;
    var q := QuotedRun(x, '"');
    if q.None? {
      StepOpen(p, x);
    } else if LeadsWithColon(x[q.value..]) {
      RunBeyond(x, |g|);
      TokenComesOut(p, x, q.value, |g| + 1);
    } else {
      StepString(p, x);
      CopyPlain(p, g, y);
      SamePrefix(g, p.rw(y), y);
    }
  }

  /** The first byte of a value that is no string comes out. */
  lemma SignComesOut(p: Pass, st: Pending, f: char, y: string)
    requires p.Valid() && PlainGap(st) && f != '"'
    ensures var r := p.rw(Pend(st) + ([f] + y)); |Pend(st)| < |r| && r[|Pend(st)|] == f
  {
    if st.Settled? {
      StepPlain(p, [f], y);
      assert "" + ([f] + y) == [f] + y;
    } else {
      var g := st.gap + [f];
      PlainComesOut(p, g, y);
      var s := "\"" + (g + y);
      assert Pend(st) + ([f] + y) == s;
      assert s[..|g| + 1][|g|] == f;
    }
  }

  /** The first byte of a string value comes out behind its quote, or its closing quote if
      it is empty. */
  lemma TextComesOut(p: Pass, st: Pending, c: string, t: string)
    requires p.Valid() && PlainGap(st) && Escaped(c) && !LeadsWithColon(t)
    ensures var r := p.rw(Pend(st) + (Quoted(c) + t));
      |Pend(st)| + 1 < |r| && r[|Pend(st)| + 1] == if c == "" then '"' else c[0]
  {
    FirstQuote(p, t);
    if CutInside(p.policy.hides, st, c) {
      var r := CutInsideOutput(p, st, c, t);
      assert (Quoted(st.gap) + c[..FieldStart(c)])[|st.gap| + 2] == c[0];
    } else {
      var h := TurnText(p, st, c, t);
      assert Pend(Opened("")) == "\"";
      assert h + "\"" == Pend(st) + Quoted(c);
      assert (h + "\"")[|Pend(st)| + 1] == if c == "" then '"' else c[0];
    }
  }

  /** This notice does not look like that value. */
  predicate Unlike(notice: string, v: Json) {
    Lettered(notice) && (v.Text? && v.content != "" ==> v.content[0] != notice[0])
  }

  lemma MarkerBytes(pend: string, notice: string, r: string)
    requires notice != ""
    ensures var b := pend + (("\"" + notice + "\"") + r);
      |b| > |pend| + 1 && b[|pend|] == '"' && b[|pend| + 1] == notice[0]
  {
  }

  /** A value that stays where the tree has the notice. */
  lemma StayStrays(p: Pass, st: Pending, v: Json, rest: string, r': string)
    requires p.Valid() && PlainGap(st) && WellFormed(v) && !LeadsWithColon(rest) && Unlike(p.policy.notice, v)
    ensures Strays(p, st, Print(v) + rest, p.policy.Marker() + r')
  {
    var a, b := p.rw(Pend(st) + (Print(v) + rest)), Pend(st) + (p.policy.Marker() + r');
    MarkerBytes(Pend(st), p.policy.notice, r');
    if v.Text? {
      TextComesOut(p, st, v.content, rest);
      assert DifferAt(a, b, |Pend(st)| + 1);
    } else {
      var f := FirstSign(v);
      Associative([f], Print(v)[1..], rest);
      SignComesOut(p, st, f, Print(v)[1..] + rest);
      assert DifferAt(a, b, |Pend(st)|);
    }
  }

  lemma FirstSign(v: Json) returns (f: char)
    requires WellFormed(v) && !v.Text?
    ensures Print(v) != "" && f == Print(v)[0] != '"' && Print(v) == [f] + Print(v)[1..]
  {
    f := Print(v)[0];
    if v.Literal? {
      assert LiteralChar(v.text[0]);
    }
  }

  /** The notice where the tree keeps the value. */
  lemma NoticeDiffers(policy: Policy, v: Json, r: string, r': string)
    requires WellFormed(v) && Unlike(policy.notice, v)
    ensures Differ(policy.Marker() + r, Print(Scrub(policy, v)) + r')
  {
    var a, b := policy.Marker() + r, Print(Scrub(policy, v)) + r';
    if v.Text? {
      assert b[1] == if v.content == "" then '"' else v.content[0];
      assert a[1] == policy.notice[0];
      assert DifferAt(a, b, 1);
    } else {
      assert a[0] == '"';
      if v.Literal? {
        assert LiteralChar(v.text[0]);
      }
      assert DifferAt(a, b, 0);
    }
  }

  // ----- Misled at a name -----

  /** Two passes that hide the same keys, and may have different notices. */
  ghost predicate Pair(px: Pass, py: Pass) {
    && px.Valid() && py.Valid() && px.policy.hides == py.policy.hides
    && Lettered(px.policy.notice) && Lettered(py.policy.notice)
  }

  /** No string value starts with both of these bytes: they differ, or none starts with
      that one. */
  predicate Told(a: char, b: char, v: Json) {
    match v
    case Literal(_) => true
    case Text(content) => content != "" ==> content[0] != a || content[0] != b
    case Array(_, items) => ToldItems(a, b, items)
    case Object(_, items) => ToldItems(a, b, items)
  }

  predicate ToldItems(a: char, b: char, items: Items) {
    items.Item? ==> Told(a, b, items.value) && ToldItems(a, b, items.next)
  }

  lemma {:induction false} ToldApart(a: char, b: char, v: Json)
    requires a != b
    ensures Told(a, b, v)
  {
    match v
    case Literal(_) =>
    case Text(_) =>
    case Array(_, items) => ToldItemsApart(a, b, items);
    case Object(_, items) => ToldItemsApart(a, b, items);
  }

  lemma {:induction false} ToldItemsApart(a: char, b: char, items: Items)
    requires a != b
    ensures ToldItems(a, b, items)
  {
    match items
    case End =>
    case Item(_, _, value, _, next) =>
      ToldApart(a, b, value);
      ToldItemsApart(a, b, next);
  }

  /** The one whose notice does not look like the value. */
  function Pick(px: Pass, py: Pass, v: Json): Pass
    requires px.policy.notice != ""
  {
    if v.Text? && v.content != "" && v.content[0] == px.policy.notice[0] then py else px
  }

  ghost predicate Tell(px: Pass, py: Pass, v: Json) {
    Pair(px, py) && Told(px.policy.notice[0], py.policy.notice[0], v)
  }

  ghost predicate TellItems(px: Pass, py: Pass, items: Items) {
    Pair(px, py) && ToldItems(px.policy.notice[0], py.policy.notice[0], items)
  }

  lemma PickIsUnlike(px: Pass, py: Pass, v: Json)
    requires Tell(px, py, v)
    ensures var p := Pick(px, py, v); p.Valid() && p.policy.hides == px.policy.hides && Unlike(p.policy.notice, v)
  {
  }

  /** A hidden key the scan does not see as such. */
  lemma StrayHidden(p: Pass, st: Pending, n: Name, v: Json, rest: string, y': string)
    requires p.Valid() && PlainGap(st) && WellFormedName(n) && WellFormed(v) && !LeadsWithColon(rest)
    requires !CutInside(p.policy.hides, st, n.key) && !HidesKey(p.policy.hides, st, n.key) && Unlike(p.policy.notice, v)
    ensures StraysOn(p, st, PrintName(Some(n)) + (Print(v) + rest), PrintName(Some(n)) + (p.policy.Marker() + y'))
  {
    var name, mid := Some(n), AfterName(st, Some(n));
    var h := TurnName(p, st, name, v, rest);
    PlainAfterName(st, name);
    forall r | Starts(r) ensures Strays(p, mid, Print(v) + rest, (p.policy.Marker() + y') + r) {
      StayStrays(p, mid, v, rest, y' + r);
      Associative(p.policy.Marker(), y', r);
    }
    TurnStraysOn(p, st, PrintName(name), PrintName(name), mid, Print(v) + rest, p.policy.Marker() + y', h);
  }

  /** A key that is not hidden, of which the scan sees something that is. */
  lemma StrayShown(p: Pass, st: Pending, n: Name, v: Json, after: string, tail: string)
    requires p.Valid() && PlainGap(st) && WellFormedName(n) && WellFormed(v) && Blank(after)
    requires !CutInside(p.policy.hides, st, n.key) && HidesKey(p.policy.hides, st, n.key) && Unlike(p.policy.notice, v)
    requires tail != "" && IsDelimiter(tail[0])
    ensures StraysOn(p, st, PrintName(Some(n)) + (Print(v) + (after + tail)),
      PrintName(Some(n)) + (Print(Scrub(p.policy, v)) + after))
  {
    var name, kept := PrintName(Some(n)), if v.Literal? then "" else after;
    TurnHidden(p, st, n, v, after, tail);
    HiddenText(n, Print(v), after, tail);
    NameText(n, Print(v) + (after + tail));
    forall r | Starts(r)
      ensures Strays(p, st, name + (Print(v) + (after + tail)), (name + (Print(Scrub(p.policy, v)) + after)) + r)
    {
      NoticeDiffers(p.policy, v, kept + p.rw(tail), after + r);
      DifferBehind(Pend(st) + name, p.policy.Marker() + (kept + p.rw(tail)), Print(Scrub(p.policy, v)) + (after + r));
      Regrouped(Pend(st), name, p.policy.Marker(), kept, p.rw(tail));
      Regrouped(Pend(st), name, Print(Scrub(p.policy, v)), after, r);
      assert Pend(Settled) + tail == tail;
    }
  }

  lemma Regrouped(a: string, b: string, c: string, d: string, e: string)
    ensures (a + b) + (c + (d + e)) == (a + (b + (c + d))) + e
    ensures (a + (b + (c + d))) + e == a + ((b + (c + d)) + e)
  {
  }

  // ----- Misled anywhere -----

  lemma StartsBehindBlank(after: string, r: string)
    requires Blank(after) && Starts(r)
    ensures Starts(after + r)
  {
    if after != "" {
      assert after[0] in after;
    }
  }

  lemma {:induction false} StrayValue(px: Pass, py: Pass, st: Pending, v: Json, rest: string) returns (p: Pass)
    requires Tell(px, py, v) && PlainGap(st) && WellFormed(v) && !LeadsWithColon(rest) && !Fair(px.policy.hides, st, v)
    ensures p == px || p == py
    ensures StraysOn(p, st, Print(v) + rest, Print(Scrub(p.policy, v)))
    decreases v, 1
  {
    if v.Text? {
      p := px;
      StrayInside(p, st, v.content, rest);
    } else {
      p := StrayGroup(px, py, st, v, rest);
      forall r | Starts(r) ensures Strays(p, st, Print(v) + rest, Print(Scrub(p.policy, v)) + r) {
        assert StraysWith(p, st, v, rest, r);
      }
    }
  }

  ghost predicate StraysWith(p: Pass, st: Pending, v: Json, rest: string, r: string) {
    Strays(p, st, Print(v) + rest, Print(Scrub(p.policy, v)) + r)
  }

  lemma {:induction false} StrayGroup(px: Pass, py: Pass, st: Pending, v: Json, rest: string) returns (p: Pass)
    requires Tell(px, py, v) && PlainGap(st) && WellFormed(v) && (v.Array? || v.Object?) && !Fair(px.policy.hides, st, v)
    ensures p == px || p == py
    ensures forall r :: StraysWith(p, st, v, rest, r)
    decreases v, 0
  {
    var open, inside := [Open(v)] + v.pad, Grow(st, [Open(v)] + v.pad);
    PlainGrow(st, open);
    p := StrayItems(px, py, inside, v.items, v.Object?, Close(v), rest);
    var items, items' := PrintItems(v.items), PrintItems(Scrub(p.policy, v).items);
    var t := items + ([Close(v)] + rest);
    var h := TurnPlain(p, st, open, t);
    forall r ensures StraysWith(p, st, v, rest, r) {
      assert Strays(p, inside, t, items' + ([Close(v)] + r));
      TurnStrays(p, st, open, open, inside, t, items' + ([Close(v)] + r), h);
      GroupText(v, rest);
      GroupText(Scrub(p.policy, v), r);
      Associative([Open(v)], v.pad, t);
      Associative([Open(v)], v.pad, items' + ([Close(v)] + r));
    }
  }

  lemma {:induction false} StrayItems(px: Pass, py: Pass, st: Pending, items: Items, named: bool, close: char, rest: string) returns (p: Pass)
    requires TellItems(px, py, items) && PlainGap(st) && WellFormedItems(items, named) && IsClose(close) && !FairItems(px.policy.hides, st, items)
    ensures p == px || p == py
    ensures StraysOn(p, st, PrintItems(items) + ([close] + rest), PrintItems(ScrubItems(p.policy, items)))
    decreases items, 1
  {
    var hides, s1, s2 := px.policy.hides, Grow(st, items.before), AfterItem(px.policy.hides, st, items);
    var tail := Remaining(items.next, close) + rest;
    PlainGrow(st, items.before);
    if !FairItem(hides, st, items) {
      p := StrayItem(px, py, st, items, named, tail);
      StrayFirst(p, st, items, close, rest);
    } else {
      PlainAfterItem(hides, st, items, named);
      p := StrayNext(px, py, s2, items.next, named, close, rest);
      StrayLater(p, st, items, named, close, rest);
    }
  }

  /** The rest of the items, with the comma before them. */
  function Following(next: Items): string { if next.End? then "" else "," + PrintItems(next) }

  lemma ItemsAre(items: Items)
    requires items.Item?
    ensures PrintItems(items) == items.before + (ItemText(items) + Following(items.next))
  {
    PartsNest(items.before, PrintName(items.name), Print(items.value), items.after, Following(items.next), "");
    assert (items.before + PrintName(items.name) + Print(items.value) + items.after + Following(items.next)) + "" == PrintItems(items);
    assert Following(items.next) + "" == Following(items.next);
  }

  lemma FollowingText(next: Items, close: char, rest: string)
    ensures Remaining(next, close) + rest == Following(next) + ([close] + rest)
  {
    RemainingText(next, close, Following(next));
    Associative(Following(next), [close], rest);
  }

  lemma StrayFirst(p: Pass, st: Pending, items: Items, close: char, rest: string)
    requires p.Valid() && items.Item? && Blank(items.before) && IsClose(close)
    requires StraysOn(p, Grow(st, items.before), ItemText(items) + (Remaining(items.next, close) + rest), ItemText(ScrubItems(p.policy, items)))
    ensures StraysOn(p, st, PrintItems(items) + ([close] + rest), PrintItems(ScrubItems(p.policy, items)))
  {
    var scrubbed, s1 := ScrubItems(p.policy, items), Grow(st, items.before);
    var t := ItemText(items) + (Remaining(items.next, close) + rest);
    var h := TurnPlain(p, st, items.before, t);
    AllText(items, close, rest);
    ItemsAre(scrubbed);
    forall r | Starts(r) ensures Strays(p, st, PrintItems(items) + ([close] + rest), PrintItems(scrubbed) + r) {
      var r' := Following(scrubbed.next) + r;
      assert Starts(r');
      assert Strays(p, s1, t, ItemText(scrubbed) + r');
      TurnStrays(p, st, items.before, items.before, s1, t, ItemText(scrubbed) + r', h);
      Reordered(items.before, ItemText(scrubbed), Following(scrubbed.next), r);
    }
  }

  lemma Reordered(a: string, b: string, c: string, d: string)
    ensures (a + (b + c)) + d == a + (b + (c + d))
  {
  }

  lemma AllText(items: Items, close: char, rest: string)
    requires items.Item?
    ensures PrintItems(items) + ([close] + rest) == items.before + (ItemText(items) + (Remaining(items.next, close) + rest))
  {
    ItemsAre(items);
    FollowingText(items.next, close, rest);
    Reordered(items.before, ItemText(items), Following(items.next), [close] + rest);
  }

  lemma StrayLater(p: Pass, st: Pending, items: Items, named: bool, close: char, rest: string)
    requires p.Valid() && PlainGap(st) && items.Item? && WellFormedItems(items, named) && IsClose(close)
    requires FairItem(p.policy.hides, st, items)
    requires StraysOn(p, AfterItem(p.policy.hides, st, items), Remaining(items.next, close) + rest, Following(ScrubItems(p.policy, items).next))
    ensures StraysOn(p, st, PrintItems(items) + ([close] + rest), PrintItems(ScrubItems(p.policy, items)))
  {
    var scrubbed, s1, s2 := ScrubItems(p.policy, items), Grow(st, items.before), AfterItem(p.policy.hides, st, items);
    var tail := Remaining(items.next, close) + rest;
    PlainGrow(st, items.before);
    var k := TurnItem(p, st, items, named, tail);
    TurnStraysOn(p, s1, ItemText(items), ItemText(scrubbed), s2, tail, Following(scrubbed.next), k);
    var h := TurnPlain(p, st, items.before, ItemText(items) + tail);
    TurnStraysOn(p, st, items.before, items.before, s1, ItemText(items) + tail, ItemText(scrubbed) + Following(scrubbed.next), h);
    AllText(items, close, rest);
    ItemsAre(scrubbed);
  }

  lemma {:induction false} StrayNext(px: Pass, py: Pass, st: Pending, next: Items, named: bool, close: char, rest: string) returns (p: Pass)
    requires TellItems(px, py, next) && PlainGap(st) && WellFormedItems(next, named) && IsClose(close)
    requires !FairItems(px.policy.hides, Grow(st, ","), next)
    ensures p == px || p == py
    ensures StraysOn(p, st, Remaining(next, close) + rest, Following(ScrubItems(p.policy, next)))
    decreases next, 2
  {
    PlainGrow(st, ",");
    p := StrayItems(px, py, Grow(st, ","), next, named, close, rest);
    var t := PrintItems(next) + ([close] + rest);
    var h := TurnPlain(p, st, ",", t);
    TurnStraysOn(p, st, ",", ",", Grow(st, ","), t, PrintItems(ScrubItems(p.policy, next)), h);
    FollowingText(next, close, rest);
    Associative(",", PrintItems(next), [close] + rest);
  }

  lemma {:induction false} StrayItem(px: Pass, py: Pass, st: Pending, items: Items, named: bool, tail: string) returns (p: Pass)
    requires TellItems(px, py, items) && items.Item? && PlainGap(Grow(st, items.before)) && WellFormedItems(items, named)
    requires !FairItem(px.policy.hides, st, items) && tail != "" && IsDelimiter(tail[0])
    ensures p == px || p == py
    ensures StraysOn(p, Grow(st, items.before), ItemText(items) + tail, ItemText(ScrubItems(p.policy, items)))
    decreases items, 0
  {
    var hides, s1 := px.policy.hides, Grow(st, items.before);
    LeadAfterSpace(items.after, tail);
    ItemTail(items, tail);
    if !FairName(hides, s1, items.name) {
      p := StrayName(px, py, s1, items, named, tail);
    } else {
      var mid := AfterName(s1, items.name);
      PlainAfterName(s1, items.name);
      p := StrayValue(px, py, mid, items.value, items.after + tail);
      var h := TurnName(p, s1, items.name, items.value, items.after + tail);
      var scrubbed := Print(Scrub(p.policy, items.value));
      forall r | Starts(r) ensures Strays(p, mid, Print(items.value) + (items.after + tail), (scrubbed + items.after) + r) {
        StartsBehindBlank(items.after, r);
        assert Strays(p, mid, Print(items.value) + (items.after + tail), scrubbed + (items.after + r));
        Associative(scrubbed, items.after, r);
      }
      TurnStraysOn(p, s1, PrintName(items.name), PrintName(items.name), mid, Print(items.value) + (items.after + tail), scrubbed + items.after, h);
    }
  }

  lemma ItemTail(items: Items, tail: string)
    requires items.Item?
    ensures ItemText(items) + tail == PrintName(items.name) + (Print(items.value) + (items.after + tail))
  {
  }

  lemma StrayName(px: Pass, py: Pass, st: Pending, items: Items, named: bool, tail: string) returns (p: Pass)
    requires TellItems(px, py, items) && items.Item? && PlainGap(st) && WellFormedItems(items, named)
    requires !FairName(px.policy.hides, st, items.name) && tail != "" && IsDelimiter(tail[0])
    ensures p == px || p == py
    ensures StraysOn(p, st, PrintName(items.name) + (Print(items.value) + (items.after + tail)), ItemText(ScrubItems(p.policy, items)))
  {
    var hides, n, v := px.policy.hides, items.name.value, items.value;
    var t := Print(v) + (items.after + tail);
    p := Pick(px, py, v);
    PickIsUnlike(px, py, v);
    if CutInside(hides, st, n.key) {
      var scrubbed := ScrubItems(p.policy, items);
      StrayKey(p, st, n, t, Print(scrubbed.value) + scrubbed.after);
    } else if hides(Quoted(n.key)) {
      LeadAfterSpace(items.after, tail);
      StrayHidden(p, st, n, v, items.after + tail, if v.Literal? then "" else items.after);
    } else {
      StrayShown(p, st, n, v, items.after, tail);
    }
  }

  lemma StrayKey(p: Pass, st: Pending, n: Name, t: string, y: string)
    requires p.Valid() && PlainGap(st) && WellFormedName(n) && CutInside(p.policy.hides, st, n.key) && Lettered(p.policy.notice)
    ensures StraysOn(p, st, PrintName(Some(n)) + t, PrintName(Some(n)) + y)
  {
    StrayInside(p, st, n.key, Lead(n) + t);
    NameText(n, t);
    forall r | Starts(r) ensures Strays(p, st, PrintName(Some(n)) + t, (PrintName(Some(n)) + y) + r) {
      LeadStarts(n, y + r);
      assert Strays(p, st, Quoted(n.key) + (Lead(n) + t), Quoted(n.key) + (Lead(n) + (y + r)));
      NameText(n, y + r);
      Associative(PrintName(Some(n)), y, r);
    }
  }

  lemma LeadStarts(n: Name, r: string)
    requires WellFormedName(n)
    ensures Starts(Lead(n) + r)
  {
    if n.beforeColon != "" {
      assert n.beforeColon[0] in n.beforeColon;
    }
  }

  // ----- The theorem -----

  lemma StrayDocument(x: Policy, y: Policy, before: string, v: Json, after: string) returns (policy: Policy)
    requires Blank(before) && WellFormed(v) && Blank(after) && !Fair(x.hides, Settled, v)
    requires x.hides == y.hides && Lettered(x.notice) && Lettered(y.notice) && Told(x.notice[0], y.notice[0], v)
    ensures (policy == x || policy == y) && !FollowsTree(policy, before, v, after)
  {
    ScanIsPass(x);
    ScanIsPass(y);
    var p := StrayGroup(ScanPass(x), ScanPass(y), Settled, v, after);
    policy := p.policy;
    StrayText(p, before, v, after);
  }

  lemma StrayText(p: Pass, before: string, v: Json, after: string)
    requires p.Valid() && Blank(before) && StraysWith(p, Settled, v, after, after)
    ensures p.rw(before + Print(v) + after) != before + Print(Scrub(p.policy, v)) + after
  {
    var t, t' := Print(v) + after, Print(Scrub(p.policy, v)) + after;
    assert Pend(Settled) + t == t && Pend(Settled) + t' == t';
    Associative(before, Print(v), after);
    Associative(before, Print(Scrub(p.policy, v)), after);
    CopyPlain(p, before, t);
    DifferBehind(before, p.rw(t), t');
  }

  /** For every set of hidden keys and every JSON text: the scan redacts the text as the tree
      would be, under every notice, if and only if it is misled at no string. */
  lemma RedactionIsExact(hides: string -> bool, before: string, v: Json, after: string)
    requires Blank(before) && WellFormed(v) && Blank(after)
    ensures (forall notice :: Escaped(notice) ==> FollowsTree(Policy(hides, notice), before, v, after))
       <==> Fair(hides, Settled, v)
  {
    if Fair(hides, Settled, v) {
      forall notice | Escaped(notice) ensures FollowsTree(Policy(hides, notice), before, v, after) {
        RedactionFollowsTree(Policy(hides, notice), before, v, after);
      }
    } else {
      ToldApart('x', 'y', v);
      var policy := StrayDocument(Policy(hides, "x"), Policy(hides, "y"), before, v, after);
      assert Escaped("x") && Escaped("y") && policy == Policy(hides, policy.notice);
    }
  }

  /** The same under one given notice, when no string value in the tree starts as the notice
      does. */
  lemma RedactionIsExactUnder(policy: Policy, before: string, v: Json, after: string)
    requires Blank(before) && WellFormed(v) && Blank(after)
    requires Lettered(policy.notice) && Told(policy.notice[0], policy.notice[0], v)
    ensures FollowsTree(policy, before, v, after) <==> Fair(policy.hides, Settled, v)
  {
    if Fair(policy.hides, Settled, v) {
      RedactionFollowsTree(policy, before, v, after);
    } else {
      var _ := StrayDocument(policy, policy, before, v, after);
    }
  }
}
