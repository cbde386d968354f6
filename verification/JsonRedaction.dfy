/** What the scan makes of a printed tree, followed string by string: in which state it
    comes to each string, when it is misled there, and the theorem that it redacts exactly
    the tree's hidden values when it never is. */
module JsonRedaction {
  import opened JsonText
  import opened JsonTree
  import opened Sequences
  import opened Wrappers

  /** The scan skips only the opening quote of a string that is no key, and so takes its
      closing quote for an opening one. Where it stands in the text: nothing pending, or
      such a quote with the text that came after it. */
  datatype Pending = Settled | Opened(gap: string)

  function Pend(st: Pending): string { if st.Settled? then "" else "\"" + st.gap }

  function Grow(st: Pending, x: string): Pending {
    if st.Settled? then st else Opened(st.gap + x)
  }

  ghost predicate PlainGap(st: Pending) {
    st.Opened? ==> '"' !in st.gap && '\\' !in st.gap
  }

  // ----- What happens at a string -----

  /** The pending quote, its gap and the opening quote of this string read as a key. */
  predicate Misread(st: Pending, c: string) { st.Opened? && LeadsWithColon(c) }

  /** Behind its leading colon the content has something that counts as a value. */
  predicate OffersValue(c: string)
    requires LeadsWithColon(c)
  {
    FieldStart(c) == |c| || !IsDelimiter(c[FieldStart(c)])
  }

  /** The scan redacts the inside of this string. */
  predicate CutInside(hides: string -> bool, st: Pending, c: string) {
    Misread(st, c) && hides(Quoted(st.gap)) && OffersValue(c)
  }

  /** The content behind the first quote in it. */
  function Inner(c: string): Option<string> {
    if c == "" then None else if c[0] == '"' then Some(c[1..]) else Inner(c[1..])
  }

  /** Whether the scan hides what belongs to the key: when the key is misread, it can only
      see what is behind an escaped quote. */
  predicate HidesKey(hides: string -> bool, st: Pending, key: string) {
    if !Misread(st, key) then hides(Quoted(key))
    else Inner(key).Some? && hides(Quoted(Inner(key).value))
  }

  function AfterKey(st: Pending, key: string): Pending {
    if Misread(st, key) && Inner(key).None? then Opened("") else Settled
  }

  // ----- The walk -----

  predicate Hidden(hides: string -> bool, name: Option<Name>) {
    name.Some? && hides(Quoted(name.value.key))
  }

  function AfterName(st: Pending, name: Option<Name>): Pending {
    if name.None? then st else Grow(AfterKey(st, name.value.key), Lead(name.value))
  }

  function AfterValue(hides: string -> bool, st: Pending, v: Json): Pending
    decreases v
  {
    match v
    case Literal(text) => Grow(st, text)
    case Text(_) => Opened("")
    case Array(pad, items) => Grow(AfterItems(hides, Grow(st, "[" + pad), items), "]")
    case Object(pad, items) => Grow(AfterItems(hides, Grow(st, "{" + pad), items), "}")
  }

  function AfterItem(hides: string -> bool, st: Pending, items: Items): Pending
    requires items.Item?
    decreases items, 0
  {
    if Hidden(hides, items.name) then Settled
    else Grow(AfterValue(hides, AfterName(Grow(st, items.before), items.name), items.value), items.after)
  }

  function AfterItems(hides: string -> bool, st: Pending, items: Items): Pending
    decreases items, 1
  {
    if items.End? then st else
    var done := AfterItem(hides, st, items);
    if items.next.End? then done else AfterItems(hides, Grow(done, ","), items.next)
  }

  /** The scan is not misled at a name. */
  predicate FairName(hides: string -> bool, st: Pending, name: Option<Name>) {
    name.Some? ==>
      !CutInside(hides, st, name.value.key) && HidesKey(hides, st, name.value.key) == hides(Quoted(name.value.key))
  }

  /** The scan is misled nowhere in the value. What a hidden key covers does not matter. */
  predicate Fair(hides: string -> bool, st: Pending, v: Json)
    decreases v
  {
    match v
    case Literal(_) => true
    case Text(content) => !CutInside(hides, st, content)
    case Array(pad, items) => FairItems(hides, Grow(st, "[" + pad), items)
    case Object(pad, items) => FairItems(hides, Grow(st, "{" + pad), items)
  }

  predicate FairItem(hides: string -> bool, st: Pending, items: Items)
    requires items.Item?
    decreases items, 0
  {
    && FairName(hides, Grow(st, items.before), items.name)
    && (!Hidden(hides, items.name) ==> Fair(hides, AfterName(Grow(st, items.before), items.name), items.value))
  }

  predicate FairItems(hides: string -> bool, st: Pending, items: Items)
    decreases items, 1
  {
    items.Item? ==> FairItem(hides, st, items) && FairItems(hides, Grow(AfterItem(hides, st, items), ","), items.next)
  }

  // ----- Turning text over -----

  /** With t still to come, the scan turns x into x' and goes from one state to the next,
      having put out h. */
  ghost predicate Turn(p: Pass, st: Pending, x: string, x': string, st': Pending, t: string, h: string) {
    && p.rw(Pend(st) + (x + t)) == h + p.rw(Pend(st') + t)
    && h + Pend(st') == Pend(st) + x'
  }

  lemma Both(p: Pass, st: Pending, x: string, x': string, mid: Pending, y: string, y': string, end: Pending, t: string, h: string, k: string)
    requires Turn(p, st, x, x', mid, y + t, h) && Turn(p, mid, y, y', end, t, k)
    ensures Turn(p, st, x + y, x' + y', end, t, h + k)
  {
    Associative(x, y, t);
    Associative(h, k, p.rw(Pend(end) + t));
    Associative(h, k, Pend(end));
    Associative(h, Pend(mid), y');
    Associative(Pend(st), x', y');
  }

  lemma TurnPlain(p: Pass, st: Pending, x: string, t: string) returns (h: string)
    requires p.Valid() && '"' !in x
    ensures Turn(p, st, x, x, Grow(st, x), t, h)
  {
    if st.Settled? {
      h := x;
      CopyPlain(p, x, t);
      assert "" + (x + t) == x + t && "" + t == t && x + "" == "" + x;
    } else {
      h := "";
      assert Pend(st) + (x + t) == Pend(Grow(st, x)) + t;
      assert Pend(Grow(st, x)) == Pend(st) + x;
    }
  }

  lemma {:induction false} PlainEscaped(s: string)
    requires '"' !in s && '\\' !in s
    ensures Escaped(s)
  {
    if s == "" {
    } else {
      PlainEscaped(s[1..]);
    }
  }

  // ----- The pending quote -----

  /** A pending quote with its gap is copied when the string behind it is not misread. */
  lemma PassGap(p: Pass, gap: string, c: string, t: string)
    requires p.Valid() && '"' !in gap && '\\' !in gap && !LeadsWithColon(c)
    ensures p.rw("\"" + gap + (Quoted(c) + t)) == "\"" + gap + p.rw(Quoted(c) + t)
  {
    var s, q := c + "\"" + t, Quoted(c) + t;
    QuotedText(c, t);
    GapRun(gap, s, q);
    LeadOfContent(c, t);
    StepString(p, gap + q);
    CopyPlain(p, gap, q);
    Associative("\"", gap, q);
    Associative("\"", gap, p.rw(q));
  }

  lemma GapRun(gap: string, s: string, q: string)
    requires '"' !in gap && '\\' !in gap && q == "\"" + s
    ensures QuotedRun(gap + q, '"') == Some(|gap| + 1) && (gap + q)[|gap| + 1..] == s
  {
    PlainEscaped(gap);
    QuotedContent(gap, s);
    assert gap + "\"" + s == gap + q;
  }

  /** When the string is misread but not cut, the scan goes on inside it. */
  lemma EnterString(p: Pass, gap: string, c: string, t: string)
    requires p.Valid() && '"' !in gap && '\\' !in gap && LeadsWithColon(c) && !CutInside(p.policy.hides, Opened(gap), c)
    ensures p.rw("\"" + gap + (Quoted(c) + t)) == "\"" + gap + "\"" + p.rw(c + ("\"" + t))
  {
    var d := c + ("\"" + t);
    PlainEscaped(gap);
    GapThenContent(gap, c, t);
    ContentLead(c, t);
    if p.policy.hides(Quoted(gap)) {
      NoValueInside(c, t);
      KeyCopied(p, gap, d);
    } else {
      StepKey(p, gap, d);
    }
    assert Quoted(gap) == "\"" + gap + "\"";
  }

  lemma GapThenContent(gap: string, c: string, t: string)
    ensures "\"" + gap + (Quoted(c) + t) == Quoted(gap) + (c + ("\"" + t))
  {
  }

  lemma {:induction false} ContentLead(c: string, t: string)
    requires LeadsWithColon(c)
    ensures LeadsWithColon(c + ("\"" + t)) && FieldStart(c + ("\"" + t)) == FieldStart(c)
  {
    var s := c + ("\"" + t);
    SpaceRunInside(c, "\"" + t);
    var n := SpaceRun(c);
    SpaceRunInside(c[n + 1..], "\"" + t);
    assert s[n + 1..] == c[n + 1..] + ("\"" + t);
  }

  lemma {:induction false} SpaceRunInside(c: string, q: string)
    requires q != "" && !IsSpace(q[0])
    ensures SpaceRun(c + q) == SpaceRun(c)
  {
    if c == "" {
      assert c + q == q;
    } else {
      SpaceRunInside(c[1..], q);
      assert (c + q)[1..] == c[1..] + q;
    }
  }

  /** What follows the leading colon is no value exactly when the content offers none. */
  lemma NoValueInside(c: string, t: string)
    requires LeadsWithColon(c)
    ensures var s := c + ("\"" + t);
      LeadsWithColon(s) && (ValueRun(s[FieldStart(s)..]).Some? <==> OffersValue(c))
  {
    ContentLead(c, t);
    var n := FieldStart(c);
    var s := c + ("\"" + t);
    assert s[n..] == c[n..] + ("\"" + t);
    FieldStartEnds(c);
  }

  /** No white space stands where a value would start. */
  lemma FieldStartEnds(c: string)
    requires LeadsWithColon(c)
    ensures FieldStart(c) < |c| ==> !IsSpace(c[FieldStart(c)])
  {
    var n := SpaceRun(c);
    SpaceRunEnds(c[n + 1..]);
  }

  lemma {:induction false} SpaceRunEnds(s: string)
    ensures SpaceRun(s) < |s| ==> !IsSpace(s[SpaceRun(s)])
  {
    if s != "" && IsSpace(s[0]) {
      SpaceRunEnds(s[1..]);
    }
  }

  /** A hidden key without a value is copied. */
  lemma KeyCopied(p: Pass, key: string, rest: string)
    requires p.Valid() && Escaped(key) && LeadsWithColon(rest) && ValueRun(rest[FieldStart(rest)..]).None?
    ensures p.rw(Quoted(key) + rest) == Quoted(key) + p.rw(rest)
  {
    var s := Quoted(key) + rest;
    KeyAt(p, key, rest, s);
    KeyParts(key, rest, s);
    assert p.Takes(s);
  }

  // ----- Strings -----

  /** A string that is no key is copied, whatever is pending, unless the scan cuts inside. */
  lemma TurnText(p: Pass, st: Pending, c: string, t: string) returns (h: string)
    requires p.Valid() && PlainGap(st) && Escaped(c) && !LeadsWithColon(t) && !CutInside(p.policy.hides, st, c)
    ensures Turn(p, st, Quoted(c), Quoted(c), Opened(""), t, h)
  {
    h := Pend(st) + "\"" + c;
    var r := p.rw("\"" + t);
    TextOutput(Pend(st), c, r);
    assert Pend(Opened("")) == "\"";
    if Misread(st, c) {
      EnterString(p, st.gap, c, t);
      Associative(c, "\"", t);
      InsideString(p, c, t);
    } else {
      OpenString(p, c, t);
      ReachString(p, st, c, t);
    }
  }

  lemma TextOutput(a: string, c: string, r: string)
    ensures a + ("\"" + c + r) == (a + "\"" + c) + r && (a + "\"") + (c + r) == (a + "\"" + c) + r
    ensures (a + "\"" + c) + Pend(Opened("")) == a + Quoted(c)
  {
  }

  /** Whatever is pending before a string that is not misread is copied. */
  lemma ReachString(p: Pass, st: Pending, c: string, t: string)
    requires p.Valid() && PlainGap(st) && !Misread(st, c)
    ensures p.rw(Pend(st) + (Quoted(c) + t)) == Pend(st) + p.rw(Quoted(c) + t)
  {
    if st.Settled? {
      assert "" + (Quoted(c) + t) == Quoted(c) + t;
    } else {
      PassGap(p, st.gap, c, t);
    }
  }

  // ----- Keys -----

  lemma {:induction false} NoInner(c: string)
    requires Inner(c).None?
    ensures '"' !in c
  {
    if c == "" {
    } else {
      NoInner(c[1..]);
    }
  }

  /** What comes before the first quote in the content, and what is behind it. */
  lemma {:induction false} InnerParts(c: string) returns (u: string)
    requires Escaped(c) && Inner(c).Some?
    ensures c == u + "\"" + Inner(c).value && '"' !in u && Escaped(Inner(c).value)
    decreases |c|
  {
    if c[0] == '\\' {
      assert c[1..][1..] == c[2..];
      if c[1] == '"' {
        u := "\\";
      } else {
        var w := InnerParts(c[2..]);
        u := c[..2] + w;
      }
    } else {
      var w := InnerParts(c[1..]);
      u := c[..1] + w;
    }
  }

  /** A key behind whatever is pending, up to where the scan reads it: `head` is copied, and
      then comes the key, or what of it is behind an escaped quote. */
  lemma ReachKey(p: Pass, st: Pending, key: string, t: string) returns (head: string, seen: string)
    requires p.Valid() && PlainGap(st) && Escaped(key) && !CutInside(p.policy.hides, st, key)
    requires Misread(st, key) ==> Inner(key).Some?
    ensures seen == if Misread(st, key) then Inner(key).value else key
    ensures Escaped(seen) && head + Quoted(seen) == Pend(st) + Quoted(key)
    ensures p.rw(Pend(st) + (Quoted(key) + t)) == head + p.rw(Quoted(seen) + t)
  {
    if !Misread(st, key) {
      head, seen := Pend(st), key;
      ReachString(p, st, key, t);
    } else {
      seen := Inner(key).value;
      var u := InnerParts(key);
      head := Pend(st) + "\"" + u;
      EnterString(p, st.gap, key, t);
      InnerText(Pend(st), u, seen, key, t);
      CopyPlain(p, u, Quoted(seen) + t);
      Associative(Pend(st) + "\"", u, p.rw(Quoted(seen) + t));
    }
  }

  lemma InnerText(pend: string, u: string, seen: string, key: string, t: string)
    requires key == u + "\"" + seen
    ensures key + ("\"" + t) == u + (Quoted(seen) + t)
    ensures (pend + "\"" + u) + Quoted(seen) == pend + Quoted(key)
  {
  }

  /** A misread key without an escaped quote is copied without being seen. */
  lemma PassKey(p: Pass, st: Pending, key: string, t: string) returns (h: string)
    requires p.Valid() && PlainGap(st) && Misread(st, key) && Inner(key).None? && !CutInside(p.policy.hides, st, key)
    ensures Turn(p, st, Quoted(key), Quoted(key), Opened(""), t, h)
  {
    h := Pend(st) + "\"" + key;
    NoInner(key);
    EnterString(p, st.gap, key, t);
    CopyPlain(p, key, "\"" + t);
    Associative(Pend(st) + "\"", key, p.rw("\"" + t));
    assert Pend(Opened("")) == "\"";
    assert h + "\"" == Pend(st) + Quoted(key);
  }

  lemma TurnKey(p: Pass, st: Pending, key: string, t: string) returns (h: string)
    requires p.Valid() && PlainGap(st) && Escaped(key) && LeadsWithColon(t)
    requires !CutInside(p.policy.hides, st, key) && !HidesKey(p.policy.hides, st, key)
    ensures Turn(p, st, Quoted(key), Quoted(key), AfterKey(st, key), t, h)
  {
    if Misread(st, key) && Inner(key).None? {
      h := PassKey(p, st, key, t);
    } else {
      var head, seen := ReachKey(p, st, key, t);
      h := head + Quoted(seen);
      StepKey(p, seen, t);
      Associative(head, Quoted(seen), p.rw(t));
      assert Pend(Settled) + t == t && h + Pend(Settled) == h;
    }
  }

  lemma TurnName(p: Pass, st: Pending, name: Option<Name>, v: Json, rest: string) returns (h: string)
    requires p.Valid() && PlainGap(st) && WellFormed(v) && (name.Some? ==> WellFormedName(name.value))
    requires name.Some? ==> !CutInside(p.policy.hides, st, name.value.key) && !HidesKey(p.policy.hides, st, name.value.key)
    ensures Turn(p, st, PrintName(name), PrintName(name), AfterName(st, name), Print(v) + rest, h)
  {
    var t := Print(v) + rest;
    if name.None? {
      h := TurnPlain(p, st, "", t);
      assert Grow(st, "") == st;
    } else {
      NameLead(name.value, v, rest);
      h := TurnKeyAndLead(p, st, name.value, t);
    }
  }

  lemma TurnKeyAndLead(p: Pass, st: Pending, n: Name, t: string) returns (h: string)
    requires p.Valid() && PlainGap(st) && WellFormedName(n) && LeadsWithColon(Lead(n) + t)
    requires !CutInside(p.policy.hides, st, n.key) && !HidesKey(p.policy.hides, st, n.key)
    ensures Turn(p, st, PrintName(Some(n)), PrintName(Some(n)), AfterName(st, Some(n)), t, h)
  {
    var k := TurnKey(p, st, n.key, Lead(n) + t);
    LeadPlain(n);
    var l := TurnPlain(p, AfterKey(st, n.key), Lead(n), t);
    Both(p, st, Quoted(n.key), Quoted(n.key), AfterKey(st, n.key), Lead(n), Lead(n), AfterName(st, Some(n)), t, k, l);
    h := k + l;
    NameIs(n);
  }

  lemma NameIs(n: Name)
    ensures PrintName(Some(n)) == Quoted(n.key) + Lead(n)
  {
  }

  lemma LeadPlain(n: Name)
    requires WellFormedName(n)
    ensures '"' !in Lead(n) && '\\' !in Lead(n)
  {
  }

  /** A key the scan hides, as much of it as it sees: the value goes, and with a number or
      word the white space behind it. */
  lemma CutValue(p: Pass, key: string, n: Name, v: Json, after: string, tail: string)
    requires p.Valid() && Escaped(key) && WellFormedName(n) && WellFormed(v) && p.policy.hides(Quoted(key))
    requires Blank(after) && tail != "" && IsDelimiter(tail[0])
    ensures p.rw(Quoted(key) + (Lead(n) + (Print(v) + (after + tail))))
         == Quoted(key) + (Lead(n) + (p.policy.Marker() + ((if v.Literal? then "" else after) + p.rw(tail))))
  {
    var m := n.(key := key);
    var s := Quoted(key) + (Lead(n) + (Print(v) + (after + tail)));
    assert Lead(m) == Lead(n);
    HiddenAt(p, m, v, after, tail, s);
    var head := Quoted(key) + Lead(n);
    Associative(Quoted(key), Lead(n), Print(v) + (after + tail));
    if v.Literal? {
      Associative(Print(v), after, tail);
      StepCutText(p, head, Print(v) + after, tail, s);
      assert "" + p.rw(tail) == p.rw(tail);
    } else {
      StepCutText(p, head, Print(v), after + tail, s);
      CopyPlain(p, after, tail);
    }
    Associative(Quoted(key), Lead(n), p.policy.Marker() + ((if v.Literal? then "" else after) + p.rw(tail)));
  }

  /** What a hidden member is printed as. */
  function Replaced(policy: Policy, n: Name, v: Json, after: string): string {
    PrintName(Some(n)) + (policy.Marker() + if v.Literal? then "" else after)
  }

  /** A hidden member loses its value, whatever is pending, if the scan sees enough of the
      key. */
  lemma TurnHidden(p: Pass, st: Pending, n: Name, v: Json, after: string, tail: string)
    requires p.Valid() && PlainGap(st) && WellFormedName(n) && WellFormed(v)
    requires !CutInside(p.policy.hides, st, n.key) && HidesKey(p.policy.hides, st, n.key)
    requires Blank(after) && tail != "" && IsDelimiter(tail[0])
    ensures Turn(p, st, PrintName(Some(n)) + (Print(v) + after), Replaced(p.policy, n, v, after), Settled, tail,
      Pend(st) + Replaced(p.policy, n, v, after))
  {
    var t := Lead(n) + (Print(v) + (after + tail));
    var head, seen := ReachKey(p, st, n.key, t);
    CutValue(p, seen, n, v, after, tail);
    HiddenText(n, Print(v), after, tail);
    var kept := if v.Literal? then "" else after;
    HiddenOutput(Pend(st), n, head, Quoted(seen), p.policy.Marker(), kept, p.rw(tail));
    assert Pend(Settled) + tail == tail;
    assert Pend(st) + Replaced(p.policy, n, v, after) + "" == Pend(st) + Replaced(p.policy, n, v, after);
  }

  lemma HiddenText(n: Name, x: string, after: string, tail: string)
    ensures (PrintName(Some(n)) + (x + after)) + tail == Quoted(n.key) + (Lead(n) + (x + (after + tail)))
  {
    assert PrintName(Some(n)) == Quoted(n.key) + Lead(n);
  }

  lemma HiddenOutput(pend: string, n: Name, head: string, seen: string, marker: string, kept: string, r: string)
    requires head + seen == pend + Quoted(n.key)
    ensures head + (seen + (Lead(n) + (marker + (kept + r)))) == (pend + (PrintName(Some(n)) + (marker + kept))) + r
  {
    var m := Lead(n) + (marker + (kept + r));
    Associative(head, seen, m);
    Associative(pend, Quoted(n.key), m);
    assert Quoted(n.key) + m == (PrintName(Some(n)) + (marker + kept)) + r by {
      assert PrintName(Some(n)) == Quoted(n.key) + Lead(n);
    }
    Associative(pend, PrintName(Some(n)) + (marker + kept), r);
  }

  // ----- The tree -----

  lemma PlainGrow(st: Pending, x: string)
    requires PlainGap(st) && '"' !in x && '\\' !in x
    ensures PlainGap(Grow(st, x))
  {
  }

  lemma PlainAfterName(st: Pending, name: Option<Name>)
    requires PlainGap(st) && (name.Some? ==> WellFormedName(name.value))
    ensures PlainGap(AfterName(st, name))
  {
    if name.Some? {
      LeadPlain(name.value);
    }
  }

  lemma {:induction false} PlainAfterValue(hides: string -> bool, st: Pending, v: Json)
    requires PlainGap(st) && WellFormed(v)
    ensures PlainGap(AfterValue(hides, st, v))
    decreases v
  {
    if v.Array? || v.Object? {
      PlainGrow(st, [Open(v)] + v.pad);
      PlainAfterItems(hides, Grow(st, [Open(v)] + v.pad), v.items, v.Object?);
      PlainGrow(AfterItems(hides, Grow(st, [Open(v)] + v.pad), v.items), [Close(v)]);
    } else if v.Literal? {
      PlainGrow(st, v.text);
    }
  }

  lemma {:induction false} PlainAfterItem(hides: string -> bool, st: Pending, items: Items, named: bool)
    requires PlainGap(st) && items.Item? && WellFormedItems(items, named)
    ensures PlainGap(AfterItem(hides, st, items))
    decreases items, 0
  {
    PlainGrow(st, items.before);
    PlainAfterName(Grow(st, items.before), items.name);
    PlainAfterValue(hides, AfterName(Grow(st, items.before), items.name), items.value);
    PlainGrow(AfterValue(hides, AfterName(Grow(st, items.before), items.name), items.value), items.after);
  }

  lemma {:induction false} PlainAfterItems(hides: string -> bool, st: Pending, items: Items, named: bool)
    requires PlainGap(st) && WellFormedItems(items, named)
    ensures PlainGap(AfterItems(hides, st, items))
    decreases items, 1
  {
    if items.End? {
    } else {
      PlainAfterItem(hides, st, items, named);
      PlainGrow(AfterItem(hides, st, items), ",");
      PlainAfterItems(hides, Grow(AfterItem(hides, st, items), ","), items.next, named);
    }
  }

  /** What comes after an item inside its brackets, the closing one included. */
  function Remaining(next: Items, close: char): string {
    if next.End? then [close] else "," + (PrintItems(next) + [close])
  }

  function ItemText(items: Items): string
    requires items.Item?
  {
    PrintName(items.name) + (Print(items.value) + items.after)
  }

  lemma ItemsInParts(items: Items, close: char)
    requires items.Item?
    ensures PrintItems(items) + [close] == items.before + (ItemText(items) + Remaining(items.next, close))
  {
    var e := if items.next.End? then "" else "," + PrintItems(items.next);
    PartsNest(items.before, PrintName(items.name), Print(items.value), items.after, e, [close]);
    RemainingText(items.next, close, e);
  }

  lemma PartsNest(b: string, n: string, v: string, a: string, e: string, f: string)
    ensures (b + n + v + a + e) + f == b + ((n + (v + a)) + (e + f))
  {
  }

  lemma RemainingText(next: Items, close: char, e: string)
    requires e == if next.End? then "" else "," + PrintItems(next)
    ensures e + [close] == Remaining(next, close)
  {
  }

  lemma GroupInParts(v: Json)
    requires v.Array? || v.Object?
    ensures Print(v) == ([Open(v)] + v.pad) + (PrintItems(v.items) + [Close(v)])
  {
  }

  /** A printed value is turned into the print of the scrubbed one. */
  lemma {:induction false} TurnValue(p: Pass, st: Pending, v: Json, rest: string) returns (h: string)
    requires p.Valid() && PlainGap(st) && WellFormed(v) && !LeadsWithColon(rest) && Fair(p.policy.hides, st, v)
    ensures Turn(p, st, Print(v), Print(Scrub(p.policy, v)), AfterValue(p.policy.hides, st, v), rest, h)
    decreases v, 0
  {
    if v.Literal? {
      h := TurnPlain(p, st, v.text, rest);
    } else if v.Text? {
      h := TurnText(p, st, v.content, rest);
    } else {
      var open, inside := [Open(v)] + v.pad, Grow(st, [Open(v)] + v.pad);
      var items, scrubbed := PrintItems(v.items) + [Close(v)], PrintItems(Scrub(p.policy, v).items) + [Close(v)];
      PlainGrow(st, open);
      var k := TurnPlain(p, st, open, items + rest);
      var l := TurnItems(p, inside, v.items, v.Object?, Close(v), rest);
      Both(p, st, open, open, inside, items, scrubbed, AfterValue(p.policy.hides, st, v), rest, k, l);
      h := k + l;
      GroupInParts(v);
      GroupInParts(Scrub(p.policy, v));
    }
  }

  lemma {:induction false} TurnItems(p: Pass, st: Pending, items: Items, named: bool, close: char, rest: string) returns (h: string)
    requires p.Valid() && PlainGap(st) && WellFormedItems(items, named) && IsClose(close) && FairItems(p.policy.hides, st, items)
    ensures Turn(p, st, PrintItems(items) + [close], PrintItems(ScrubItems(p.policy, items)) + [close],
      Grow(AfterItems(p.policy.hides, st, items), [close]), rest, h)
    decreases items, 1
  {
    if items.End? {
      h := TurnPlain(p, st, [close], rest);
      assert PrintItems(items) + [close] == [close];
    } else {
      var s1, s2 := Grow(st, items.before), AfterItem(p.policy.hides, st, items);
      var scrubbed := ScrubItems(p.policy, items);
      var more, more' := Remaining(items.next, close), Remaining(scrubbed.next, close);
      PlainGrow(st, items.before);
      PlainAfterItem(p.policy.hides, st, items, named);
      var k := TurnPlain(p, st, items.before, ItemText(items) + (more + rest));
      var l := TurnItem(p, st, items, named, more + rest);
      var m := TurnRemaining(p, s2, items.next, named, close, rest);
      var end := Grow(AfterItems(p.policy.hides, st, items), [close]);
      Both(p, s1, ItemText(items), ItemText(scrubbed), s2, more, more', end, rest, l, m);
      Associative(ItemText(items), more, rest);
      Both(p, st, items.before, items.before, s1, ItemText(items) + more, ItemText(scrubbed) + more', end, rest, k, l + m);
      h := k + (l + m);
      ItemsInParts(items, close);
      ItemsInParts(scrubbed, close);
    }
  }

  lemma {:induction false} TurnRemaining(p: Pass, st: Pending, next: Items, named: bool, close: char, rest: string) returns (h: string)
    requires p.Valid() && PlainGap(st) && WellFormedItems(next, named) && IsClose(close)
    requires FairItems(p.policy.hides, Grow(st, ","), next)
    ensures Turn(p, st, Remaining(next, close), Remaining(ScrubItems(p.policy, next), close),
      Grow(if next.End? then st else AfterItems(p.policy.hides, Grow(st, ","), next), [close]), rest, h)
    decreases next, 2
  {
    if next.End? {
      h := TurnPlain(p, st, [close], rest);
    } else {
      var items, scrubbed := PrintItems(next) + [close], PrintItems(ScrubItems(p.policy, next)) + [close];
      PlainGrow(st, ",");
      var k := TurnPlain(p, st, ",", items + rest);
      var l := TurnItems(p, Grow(st, ","), next, named, close, rest);
      Both(p, st, ",", ",", Grow(st, ","), items, scrubbed,
        Grow(AfterItems(p.policy.hides, Grow(st, ","), next), [close]), rest, k, l);
      h := k + l;
    }
  }

  /** One item, without the white space before it. */
  lemma {:induction false} TurnItem(p: Pass, st: Pending, items: Items, named: bool, tail: string) returns (h: string)
    requires p.Valid() && items.Item? && PlainGap(Grow(st, items.before)) && WellFormedItems(items, named)
    requires FairItem(p.policy.hides, st, items) && tail != "" && IsDelimiter(tail[0])
    ensures Turn(p, Grow(st, items.before), ItemText(items), ItemText(ScrubItems(p.policy, items)),
      AfterItem(p.policy.hides, st, items), tail, h)
    decreases items, 0
  {
    var s1 := Grow(st, items.before);
    if Hidden(p.policy.hides, items.name) {
      TurnHidden(p, s1, items.name.value, items.value, items.after, tail);
      h := Pend(s1) + Replaced(p.policy, items.name.value, items.value, items.after);
    } else {
      h := TurnShown(p, s1, items.name, items.value, items.after, tail);
    }
  }

  lemma {:induction false} TurnShown(p: Pass, st: Pending, name: Option<Name>, v: Json, after: string, tail: string) returns (h: string)
    requires p.Valid() && PlainGap(st) && WellFormed(v) && (name.Some? ==> WellFormedName(name.value)) && Blank(after)
    requires FairName(p.policy.hides, st, name) && !Hidden(p.policy.hides, name)
    requires Fair(p.policy.hides, AfterName(st, name), v) && tail != "" && IsDelimiter(tail[0])
    ensures Turn(p, st, PrintName(name) + (Print(v) + after), PrintName(name) + (Print(Scrub(p.policy, v)) + after),
      Grow(AfterValue(p.policy.hides, AfterName(st, name), v), after), tail, h)
    decreases v, 1
  {
    var s2 := AfterName(st, name);
    var s3 := AfterValue(p.policy.hides, s2, v);
    PlainAfterName(st, name);
    LeadAfterSpace(after, tail);
    var k := TurnName(p, st, name, v, after + tail);
    var l := TurnValue(p, s2, v, after + tail);
    var m := TurnPlain(p, s3, after, tail);
    Both(p, s2, Print(v), Print(Scrub(p.policy, v)), s3, after, after, Grow(s3, after), tail, l, m);
    Associative(Print(v), after, tail);
    Both(p, st, PrintName(name), PrintName(name), s2, Print(v) + after, Print(Scrub(p.policy, v)) + after, Grow(s3, after), tail, k, l + m);
    h := k + (l + m);
  }

  // ----- The document -----

  /** At the end of the text whatever is pending is copied. */
  lemma EndOfText(p: Pass, st: Pending, x: string)
    requires p.Valid() && PlainGap(st) && '"' !in x
    ensures p.rw(Pend(st) + x) == Pend(st) + x
  {
    if st.Settled? {
      CopyPlain(p, x, "");
      assert x + "" == x && "" + x == x;
    } else {
      Associative("\"", st.gap, x);
      NoRun(st.gap + x);
      StepOpen(p, st.gap + x);
    }
  }

  lemma {:induction false} NoRun(s: string)
    requires '"' !in s
    ensures QuotedRun(s, '"').None?
    decreases |s|
  {
    if s == "" {
    } else {
      if s[0] != '\\' {
        NoRun(s[1..]);
      } else if |s| > 1 {
        NoRun(s[2..]);
      }
    }
  }

  /** The redacted text of a document is the text of the scrubbed tree. */
  ghost predicate FollowsTree(policy: Policy, before: string, v: Json, after: string) {
    Redacted(policy, before + Print(v) + after) == before + Print(Scrub(policy, v)) + after
  }

  lemma TurnDocument(p: Pass, before: string, v: Json, after: string)
    requires p.Valid() && Blank(before) && WellFormed(v) && Blank(after) && Fair(p.policy.hides, Settled, v)
    ensures p.rw(before + Print(v) + after) == before + Print(Scrub(p.policy, v)) + after
  {
    Associative(before, Print(v), after);
    CopyPlain(p, before, Print(v) + after);
    SpaceRunOver(after, "");
    assert after + "" == after;
    var h := TurnValue(p, Settled, v, after);
    var end := AfterValue(p.policy.hides, Settled, v);
    PlainAfterValue(p.policy.hides, Settled, v);
    EndOfText(p, end, after);
    Associative(h, Pend(end), after);
    assert "" + (Print(v) + after) == Print(v) + after && "" + Print(Scrub(p.policy, v)) == Print(Scrub(p.policy, v));
    Associative(before, Print(Scrub(p.policy, v)), after);
  }

  /** For every JSON text, white space included, where the scan is not misled at any string:
      scanning the bytes gives exactly the text of the tree with the whole value of every
      hidden key, at any depth, replaced. */
  lemma RedactionFollowsTree(policy: Policy, before: string, v: Json, after: string)
    requires Blank(before) && WellFormed(v) && Blank(after) && Fair(policy.hides, Settled, v)
    ensures FollowsTree(policy, before, v, after)
  {
    ScanIsPass(policy);
    TurnDocument(ScanPass(policy), before, v, after);
  }
}
