/** Values cut short or closed wrongly: once a key is hidden, nothing of a broken value behind
    it is kept. */
module JsonBroken {
  import opened JsonText
  import opened JsonTree
  import opened Sequences
  import opened Wrappers

  // ----- Closing quotes, by counting backslashes -----

  /** The backslashes right before position i. */
  function Slashes(s: string, i: nat): nat
    requires i <= |s|
  {
    if i > 0 && s[i - 1] == '\\' then 1 + Slashes(s, i - 1) else 0
  }

  /** A quote that is not escaped: an even number of backslashes stands before it. */
  predicate Closes(s: string, q: char, i: nat) {
    i < |s| && s[i] == q && Slashes(s, i) % 2 == 0
  }

  /** Dropping a first byte that is no backslash, or a backslash with the byte after it,
      leaves every other byte as escaped as it was. */
  lemma {:induction false} SlashesAfter(s: string, n: nat, i: nat)
    requires n <= i <= |s|
    requires (n == 1 && s[0] != '\\') || (n == 2 && s[0] == '\\')
    ensures Slashes(s, i) % 2 == Slashes(s[n..], i - n) % 2
    decreases i
  {
    if i > n {
      SlashesAfter(s, n, i - 1);
      assert s[n..][i - n - 1] == s[i - 1];
    } else if n == 2 {
      assert Slashes(s, 1) == 1;
    }
  }

  lemma ClosesAfter(s: string, q: char, n: nat, i: nat)
    requires n <= |s| && ((n == 1 && s[0] != '\\') || (n == 2 && s[0] == '\\'))
    ensures Closes(s, q, n + i) <==> Closes(s[n..], q, i)
  {
    if n + i < |s| {
      SlashesAfter(s, n, n + i);
      assert s[n..][i] == s[n + i];
    }
  }

  /** This is the first quote that closes. */
  ghost predicate FirstCloses(s: string, q: char, r: Option<nat>) {
    && (r.Some? ==> r.value > 0 && Closes(s, q, r.value - 1))
    && (forall i: nat | i < if r.Some? then r.value - 1 else |s| :: !Closes(s, q, i))
  }

  lemma FirstClosesAfter(s: string, q: char, n: nat, r: Option<nat>)
    requires n <= |s| && ((n == 1 && s[0] != '\\' && s[0] != q) || (n == 2 && s[0] == '\\' && q != '\\'))
    requires FirstCloses(s[n..], q, r)
    ensures FirstCloses(s, q, Shift(n, r))
  {
    if r.Some? {
      ClosesAfter(s, q, n, r.value - 1);
    }
    var bound := if r.Some? then n + r.value - 1 else |s|;
    forall i: nat | i < bound ensures !Closes(s, q, i) {
      if i >= n {
        ClosesAfter(s, q, n, i - n);
      } else if i == 1 {
        assert Slashes(s, 0) == 0 && Slashes(s, 1) == 1;
      }
    }
  }

  /** A string ends at the first quote of its kind with an even number of backslashes before
      it, and is unclosed exactly when there is none. */
  lemma {:induction false} QuotedRunCloses(s: string, q: char)
    requires q != '\\'
    ensures FirstCloses(s, q, QuotedRun(s, q))
    decreases |s|
  {
    if s == "" {
    } else if s[0] == '\\' {
      if |s| > 1 {
        QuotedRunCloses(s[2..], q);
        FirstClosesAfter(s, q, 2, QuotedRun(s[2..], q));
      }
    } else if s[0] != q {
      QuotedRunCloses(s[1..], q);
      FirstClosesAfter(s, q, 1, QuotedRun(s[1..], q));
    }
  }

  // ----- What closes early stays closed -----

  lemma {:induction false} QuotedRunExtends(s: string, u: string, q: char)
    requires QuotedRun(s, q).Some?
    ensures QuotedRun(s + u, q) == QuotedRun(s, q)
    decreases |s|
  {
    if s[0] == '\\' {
      QuotedRunExtends(s[2..], u, q);
      assert (s + u)[2..] == s[2..] + u;
    } else if s[0] != q {
      QuotedRunExtends(s[1..], u, q);
      assert (s + u)[1..] == s[1..] + u;
    }
  }

  lemma {:induction false} BracketRunExtends(s: string, u: string, stack: seq<char>)
    requires stack != [] && BracketRun(s, stack).Some?
    ensures BracketRun(s + u, stack) == BracketRun(s, stack)
    decreases |s|
  {
    assert (s + u)[1..] == s[1..] + u;
    if IsQuote(s[0]) {
      var n := 1 + QuotedRun(s[1..], s[0]).value;
      QuotedRunExtends(s[1..], u, s[0]);
      BracketRunExtends(s[n..], u, stack);
      assert (s + u)[n..] == s[n..] + u;
    } else if s[0] == '{' {
      BracketRunExtends(s[1..], u, stack + ['}']);
    } else if s[0] == '[' {
      BracketRunExtends(s[1..], u, stack + [']']);
    } else if s[0] == '}' || s[0] == ']' {
      if |stack| > 1 {
        BracketRunExtends(s[1..], u, stack[..|stack| - 1]);
      }
    } else {
      BracketRunExtends(s[1..], u, stack);
    }
  }

  // ----- A value cut short -----

  /** The scanner takes all there is. */
  predicate TakesAll(s: string) { ValueRun(s) == Some(|s|) }

  lemma {:induction false} ScalarTakesAll(x: string)
    requires forall c :: c in x ==> LiteralChar(c)
    ensures ScalarRun(x) == |x|
  {
    if x == "" {
    } else {
      assert x[0] in x;
      ScalarTakesAll(x[1..]);
    }
  }

  /** Where the closing token would come too early. */
  lemma CutShort(full: string, t: string, u: string)
    requires full == t + u && t != "" && u != "" && (IsQuote(full[0]) || full[0] == '[' || full[0] == '{')
    requires IsQuote(full[0]) ==> QuotedRun(full[1..], full[0]) == Some(|full| - 1)
    requires !IsQuote(full[0]) ==> BracketRun(full[1..], [if full[0] == '[' then ']' else '}']) == Some(|full| - 1)
    ensures TakesAll(t)
  {
    assert full[1..] == t[1..] + u;
    if IsQuote(t[0]) {
      if QuotedRun(t[1..], t[0]).Some? {
        QuotedRunExtends(t[1..], u, t[0]);
      }
    } else {
      var stack := [if t[0] == '[' then ']' else '}'];
      if BracketRun(t[1..], stack).Some? {
        BracketRunExtends(t[1..], u, stack);
      }
    }
  }

  lemma TextCloses(c: string)
    requires Escaped(c)
    ensures QuotedRun(Quoted(c)[1..], '"') == Some(|c| + 1)
  {
    QuotedContent(c, "");
    assert Quoted(c)[1..] == c + "\"" + "";
  }

  lemma GroupCloses(v: Json)
    requires WellFormed(v) && (v.Array? || v.Object?)
    ensures Print(v)[0] == Open(v) && BracketRun(Print(v)[1..], [Close(v)]) == Some(|Print(v)| - 1)
  {
    GroupText(v, "");
    BracketGroup(v, "", [Close(v)]);
    assert Print(v) + "" == Print(v);
  }

  /** However early the text of a value breaks off, the value is all that is there. */
  lemma TruncatedTakesAll(v: Json, t: string, u: string)
    requires WellFormed(v) && t != "" && t + u == Print(v)
    ensures TakesAll(t)
  {
    if v.Literal? {
      forall c | c in t ensures LiteralChar(c) {
        assert c in t + u;
      }
      ScalarTakesAll(t);
      assert t[0] in t;
    } else if u == "" {
      assert t == Print(v);
      WholeTakesAll(v);
    } else if v.Text? {
      TextCloses(v.content);
      CutShort(Print(v), t, u);
    } else {
      GroupCloses(v);
      CutShort(Print(v), t, u);
    }
  }

  lemma WholeTakesAll(v: Json)
    requires WellFormed(v) && !v.Literal?
    ensures TakesAll(Print(v))
  {
    var s := Print(v);
    assert s[|s|..] == "";
    if v.Text? {
      TextCloses(v.content);
    } else {
      GroupCloses(v);
    }
    ClosedLength(s, |s|);
  }

  // ----- A value that is closed wrongly, or not at all -----

  function MoreText(next: Items): string { if next.End? then "" else "," + PrintItems(next) }

  lemma AllItemsText(items: Items, u: string)
    requires items.Item?
    ensures PrintItems(items) + u
         == items.before + (PrintName(items.name) + (Print(items.value) + (items.after + (MoreText(items.next) + u))))
    ensures |PrintItems(items)|
         == |items.before| + |PrintName(items.name)| + |Print(items.value)| + |items.after| + |MoreText(items.next)|
  {
    Nest(items.before, PrintName(items.name), Print(items.value), items.after, MoreText(items.next), u);
  }

  /** Printed items leave the bracket stack as they found it. */
  lemma {:induction false} BracketAllItems(items: Items, named: bool, u: string, stack: seq<char>)
    requires WellFormedItems(items, named) && stack != []
    ensures BracketRun(PrintItems(items) + u, stack) == Shift(|PrintItems(items)|, BracketRun(u, stack))
    decreases items, 0
  {
    if items.End? {
      assert PrintItems(items) + u == u;
    } else {
      BracketMore(items.next, named, u, stack);
      BracketFirst(items, named, MoreText(items.next), u, stack, BracketRun(u, stack));
    }
  }

  lemma {:induction false} BracketFirst(items: Items, named: bool, more: string, u: string, stack: seq<char>, r: Option<nat>)
    requires items.Item? && WellFormedItems(items, named) && stack != []
    requires more == MoreText(items.next) && BracketRun(more + u, stack) == Shift(|more|, r)
    ensures BracketRun(PrintItems(items) + u, stack) == Shift(|PrintItems(items)|, r)
  {
    AllItemsText(items, u);
    BracketItem(items, named, more + u, stack);
  }

  lemma {:induction false} BracketMore(next: Items, named: bool, u: string, stack: seq<char>)
    requires WellFormedItems(next, named) && stack != []
    ensures BracketRun(MoreText(next) + u, stack) == Shift(|MoreText(next)|, BracketRun(u, stack))
    decreases next, 1
  {
    if next.End? {
      assert MoreText(next) + u == u;
    } else {
      BracketAllItems(next, named, u, stack);
      CommaFirst(PrintItems(next), u, stack, BracketRun(u, stack));
    }
  }

  lemma CommaFirst(p: string, u: string, stack: seq<char>, r: Option<nat>)
    requires stack != [] && BracketRun(p + u, stack) == Shift(|p|, r)
    ensures BracketRun("," + p + u, stack) == Shift(|"," + p|, r)
  {
    Associative(",", p, u);
    assert ("," + (p + u))[1..] == p + u;
  }

  /** A composite that the wrong bracket closes takes everything behind it along. */
  lemma WrongBracketTakesAll(v: Json, wrong: char, rest: string)
    requires WellFormed(v) && (v.Array? || v.Object?) && IsClose(wrong) && wrong != Close(v)
    ensures TakesAll([Open(v)] + (v.pad + (PrintItems(v.items) + ([wrong] + rest))))
  {
    var inner := PrintItems(v.items) + ([wrong] + rest);
    var s := [Open(v)] + (v.pad + inner);
    BracketAllItems(v.items, v.Object?, [wrong] + rest, [Close(v)]);
    BracketPlain(v.pad, inner, [Close(v)]);
    assert s[1..] == v.pad + inner;
    assert BracketRun([wrong] + rest, [Close(v)]) == None;
  }

  /** A quote of either kind that nothing closes takes everything along. */
  lemma OpenQuoteTakesAll(s: string)
    requires s != "" && (s[0] == '"' || s[0] == '\'') && forall i: nat :: i < |s| - 1 ==> !Closes(s[1..], s[0], i)
    ensures TakesAll(s)
  {
    QuotedRunCloses(s[1..], s[0]);
  }

  lemma BrokenAt(p: Pass, n: Name, t: string, s: string)
    requires p.Valid() && WellFormedName(n) && p.policy.hides(Quoted(n.key)) && t != "" && !IsSpace(t[0]) && TakesAll(t)
    requires s == Quoted(n.key) + (Lead(n) + t)
    ensures p.scan(s) == Cut(|n.key| + 2 + |Lead(n)|, |t|)
  {
    LeadBefore(n, t);
    assert (Lead(n) + t)[|Lead(n)|..] == t;
    KeyAt(p, n.key, Lead(n) + t, s);
  }

  /** Behind a hidden key, a broken value that takes everything along is gone altogether. */
  lemma BrokenValueIsGone(policy: Policy, n: Name, t: string)
    requires WellFormedName(n) && policy.hides(Quoted(n.key)) && t != "" && !IsSpace(t[0]) && TakesAll(t)
    ensures Redacted(policy, Quoted(n.key) + (Lead(n) + t)) == Quoted(n.key) + (Lead(n) + policy.Marker())
  {
    var p := PickPass(policy);
    var s, head := Quoted(n.key) + (Lead(n) + t), Quoted(n.key) + Lead(n);
    BrokenAt(p, n, t, s);
    Associative(Quoted(n.key), Lead(n), t);
    CutToTheEnd(p, head, t, s);
    assert p.Gives(s);
    Associative(Quoted(n.key), Lead(n), policy.Marker());
  }

  lemma LeadBefore(n: Name, t: string)
    requires WellFormedName(n) && t != "" && !IsSpace(t[0])
    ensures LeadsWithColon(Lead(n) + t) && FieldStart(Lead(n) + t) == |Lead(n)|
  {
    var s := Lead(n) + t;
    assert s == n.beforeColon + (":" + n.afterColon + t);
    SpaceRunOver(n.beforeColon, ":" + n.afterColon + t);
    SpaceRunOver(n.afterColon, t);
    assert s[|n.beforeColon| + 1..] == n.afterColon + t;
  }

  lemma CutToTheEnd(p: Pass, head: string, t: string, s: string)
    requires p.Valid() && t != "" && s == head + t && p.scan(s) == Cut(|head|, |t|)
    ensures p.rw(s) == head + p.policy.Marker()
  {
    assert t + "" == t;
    StepCutText(p, head, t, "", s);
    assert p.policy.Marker() + "" == p.policy.Marker();
  }

  /** In particular a document that breaks off inside the value of a hidden key. */
  lemma TruncatedSecretIsGone(policy: Policy, n: Name, v: Json, t: string, u: string)
    requires WellFormedName(n) && policy.hides(Quoted(n.key)) && WellFormed(v) && t != "" && t + u == Print(v)
    ensures Redacted(policy, Quoted(n.key) + (Lead(n) + t)) == Quoted(n.key) + (Lead(n) + policy.Marker())
  {
    TruncatedTakesAll(v, t, u);
    PrintLead(v);
    assert t[0] == Print(v)[0];
    BrokenValueIsGone(policy, n, t);
  }

  // ----- What follows a closed value -----

  /** A number or word goes up to the first delimiter. */
  lemma {:induction false} ScalarEnds(s: string)
    ensures forall i :: 0 <= i < ScalarRun(s) ==> s[i] != ',' && s[i] != '}' && s[i] != ']'
    ensures ScalarRun(s) < |s| ==> var c := s[ScalarRun(s)]; c == ',' || c == '}' || c == ']'
  {
    if s == "" || IsDelimiter(s[0]) {
    } else {
      ScalarEnds(s[1..]);
      assert forall i :: 1 <= i < |s| ==> s[i] == s[1..][i - 1];
    }
  }

  /** Neither a quote nor a delimiter. */
  predicate Ordinary(c: char) { c != '"' && c != '\'' && c != ',' && c != '}' && c != ']' }

  /** Junk goes up to the first delimiter outside quotes: it runs over text without quotes and
      delimiters, and over quoted text with everything in it; an open quote takes the rest. */
  lemma {:induction false} JunkOver(x: string, rest: string)
    requires forall c :: c in x ==> Ordinary(c)
    ensures JunkRun(x + rest) == |x| + JunkRun(rest)
    ensures rest != "" && (rest[0] == ',' || rest[0] == '}' || rest[0] == ']') ==> JunkRun(rest) == 0
    ensures rest != "" && (rest[0] == '"' || rest[0] == '\'') ==>
      match QuotedRun(rest[1..], rest[0])
      case None => JunkRun(rest) == |rest|
      case Some(n) => JunkRun(rest) == 1 + n + JunkRun(rest[1 + n..])
  {
    if x == "" {
      assert x + rest == rest;
    } else {
      assert x[0] in x;
      JunkOver(x[1..], rest);
      assert (x + rest)[1..] == x[1..] + rest;
    }
  }

  /** A closed string or composite takes along the white space and junk behind it, unless only
      white space separates it from a delimiter or the end. */
  lemma ClosedTakesJunk(s: string, n: nat, x: string, rest: string)
    requires 0 < n <= |s| && s[n..] == x + rest && Blank(x) && (rest == "" || !White(rest[0]))
    requires (s[0] == '"' || s[0] == '\'') ==> QuotedRun(s[1..], s[0]) == Some(n - 1)
    requires s[0] == '[' ==> BracketRun(s[1..], [']']) == Some(n - 1)
    requires s[0] == '{' ==> BracketRun(s[1..], ['}']) == Some(n - 1)
    requires s[0] == '"' || s[0] == '\'' || s[0] == '[' || s[0] == '{'
    ensures ValueRun(s) == Some(
      if rest == "" || rest[0] == ',' || rest[0] == '}' || rest[0] == ']' then n else n + |x| + JunkRun(rest))
  {
    TrailAfter(x, rest);
    ClosedRunLength(s, n);
  }

  lemma TrailAfter(x: string, rest: string)
    requires Blank(x) && (rest == "" || !White(rest[0]))
    ensures TrailRun(x + rest) == if rest == "" || rest[0] == ',' || rest[0] == '}' || rest[0] == ']' then 0 else |x| + JunkRun(rest)
  {
    SpaceRunOver(x, rest);
    assert (x + rest)[|x|..] == rest;
  }

  lemma ClosedRunLength(s: string, n: nat)
    requires 0 < n <= |s| && (IsQuote(s[0]) || s[0] == '[' || s[0] == '{')
    requires IsQuote(s[0]) ==> QuotedRun(s[1..], s[0]) == Some(n - 1)
    requires !IsQuote(s[0]) ==> BracketRun(s[1..], [if s[0] == '[' then ']' else '}']) == Some(n - 1)
    ensures ValueRun(s) == Some(n + TrailRun(s[n..]))
  {
  }
}
