/** JSON texts as trees (sections 2, 4, 5 and 7 of RFC 8259), white space included, what
    it means to redact a tree, and how the byte scanner moves over printed text. */
module JsonTree {
  import opened JsonText
  import opened Wrappers

  /** A value. `content` and `key` are the bytes between the quotes, escapes included;
      `pad` is the white space after an opening bracket. */
  datatype Json =
    | Literal(text: string)
    | Text(content: string)
    | Array(pad: string, items: Items)
    | Object(pad: string, items: Items)

  /** The elements of an array, without names, or the members of an object, with. */
  datatype Items =
    | End
    | Item(before: string, name: Option<Name>, value: Json, after: string, next: Items)

  datatype Name = Name(key: string, beforeColon: string, afterColon: string)

  // ----- Well-formed trees -----

  predicate White(c: char) { c == ' ' || c == '\t' || c == '\r' || c == '\n' }

  predicate Blank(s: string) {
    forall c :: c in s ==> White(c)
  }

  /** Numbers, true, false and null are made of these. */
  predicate LiteralChar(c: char) {
    'a' <= c <= 'z' || 'A' <= c <= 'Z' || '0' <= c <= '9' || c == '-' || c == '+' || c == '.'
  }

  /** Every quote is escaped, and no backslash is last. */
  predicate Escaped(s: string)
    decreases |s|
  {
    if s == "" then true
    else if s[0] == '\\' then |s| > 1 && Escaped(s[2..])
    else s[0] != '"' && Escaped(s[1..])
  }

  predicate WellFormed(v: Json) {
    match v
    case Literal(text) => text != "" && forall c :: c in text ==> LiteralChar(c)
    case Text(content) => Escaped(content)
    case Array(pad, items) => Blank(pad) && WellFormedItems(items, false)
    case Object(pad, items) => Blank(pad) && WellFormedItems(items, true)
  }

  predicate WellFormedItems(items: Items, named: bool) {
    items.Item? ==>
      && Blank(items.before) && Blank(items.after)
      && (items.name.Some? <==> named)
      && (items.name.Some? ==> WellFormedName(items.name.value))
      && WellFormed(items.value)
      && WellFormedItems(items.next, named)
  }

  predicate WellFormedName(n: Name) {
    Escaped(n.key) && Blank(n.beforeColon) && Blank(n.afterColon)
  }

  // ----- Printing -----

  function Quoted(s: string): string { "\"" + s + "\"" }

  function Print(v: Json): string {
    match v
    case Literal(text) => text
    case Text(content) => Quoted(content)
    case Array(pad, items) => "[" + pad + PrintItems(items) + "]"
    case Object(pad, items) => "{" + pad + PrintItems(items) + "}"
  }

  function PrintItems(items: Items): string {
    match items
    case End => ""
    case Item(before, name, value, after, next) =>
      before + PrintName(name) + Print(value) + after
      + (if next.End? then "" else "," + PrintItems(next))
  }

  function PrintName(name: Option<Name>): string {
    if name.None? then ""
    else Quoted(name.value.key) + name.value.beforeColon + ":" + name.value.afterColon
  }

  // ----- Redaction of the tree -----

  /** The tree with the whole value of each hidden member replaced. White space after a
      replaced number or word goes with it, for it runs up to the next delimiter. */
  function Scrub(policy: Policy, v: Json): Json {
    match v
    case Literal(_) => v
    case Text(_) => v
    case Array(pad, items) => Array(pad, ScrubItems(policy, items))
    case Object(pad, items) => Object(pad, ScrubItems(policy, items))
  }

  function ScrubItems(policy: Policy, items: Items): Items {
    match items
    case End => End
    case Item(before, name, value, after, next) =>
      if name.Some? && policy.hides(Quoted(name.value.key)) then
        Item(before, name, Text(policy.notice), if value.Literal? then "" else after, ScrubItems(policy, next))
      else
        Item(before, name, Scrub(policy, value), after, ScrubItems(policy, next))
  }

  // ----- Single moves on printed text -----

  lemma StepPlain(p: Pass, x: string, rest: string)
    requires p.Valid() && |x| == 1 && x[0] != '"'
    ensures p.rw(x + rest) == x + p.rw(rest)
  {
    var s := x + rest;
    assert p.Moves(s) && p.Takes(s);
    assert s[..1] == x && s[1..] == rest;
  }

  lemma StepOpen(p: Pass, rest: string)
    requires p.Valid() && QuotedRun(rest, '"').None?
    ensures p.rw("\"" + rest) == "\"" + rest
  {
    var s := "\"" + rest;
    assert p.Moves(s) && p.Takes(s);
    assert s[1..] == rest;
  }

  lemma StepString(p: Pass, rest: string)
    requires p.Valid() && QuotedRun(rest, '"').Some?
    requires !LeadsWithColon(rest[QuotedRun(rest, '"').value..])
    ensures p.rw("\"" + rest) == "\"" + p.rw(rest)
  {
    var s, n := "\"" + rest, 1 + QuotedRun(rest, '"').value;
    assert s[1..] == rest && s[n..] == rest[n - 1..];
    ScanString(p, s, n);
    StepCopy(p, s);
    assert s[..1] == "\"";
  }

  lemma StepCopy(p: Pass, s: string)
    requires p.Valid() && s != "" && p.scan(s) == Copy(1)
    ensures p.rw(s) == s[..1] + p.rw(s[1..])
  {
    assert p.Takes(s);
  }

  lemma StepKey(p: Pass, key: string, rest: string)
    requires p.Valid() && Escaped(key) && LeadsWithColon(rest) && !p.policy.hides(Quoted(key))
    ensures p.rw(Quoted(key) + rest) == Quoted(key) + p.rw(rest)
  {
    var s := Quoted(key) + rest;
    assert p.Moves(s) && p.Takes(s);
    QuotedContent(key, rest);
    assert s[1..] == key + "\"" + rest;
    assert s[..|key| + 2] == Quoted(key) && s[|key| + 2..] == rest;
  }

  /** Text without quotes is copied. */
  lemma {:induction false} CopyPlain(p: Pass, x: string, rest: string)
    requires p.Valid() && '"' !in x
    ensures p.rw(x + rest) == x + p.rw(rest)
  {
    if x == "" {
      assert x + rest == rest;
    } else {
      assert x + rest == x[..1] + (x[1..] + rest);
      StepPlain(p, x[..1], x[1..] + rest);
      CopyPlain(p, x[1..], rest);
    }
  }

  // ----- Runs over printed text -----

  lemma {:induction false} QuotedContent(c: string, rest: string)
    requires Escaped(c)
    ensures QuotedRun(c + "\"" + rest, '"') == Some(|c| + 1)
    decreases |c|
  {
    var s := c + "\"" + rest;
    if c == "" {
    } else if c[0] == '\\' {
      QuotedContent(c[2..], rest);
      assert s[2..] == c[2..] + "\"" + rest;
    } else {
      QuotedContent(c[1..], rest);
      assert s[1..] == c[1..] + "\"" + rest;
    }
  }

  lemma {:induction false} SpaceRunOver(x: string, rest: string)
    requires Blank(x) && (rest == "" || !IsSpace(rest[0]))
    ensures SpaceRun(x + rest) == |x|
  {
    if x == "" {
      assert x + rest == rest;
    } else {
      assert White(x[0]);
      SpaceRunOver(x[1..], rest);
      assert (x + rest)[1..] == x[1..] + rest;
    }
  }

  lemma LeadAfterSpace(x: string, rest: string)
    requires Blank(x) && rest != "" && !IsSpace(rest[0])
    ensures LeadsWithColon(x + rest) <==> rest[0] == ':'
  {
    SpaceRunOver(x, rest);
  }

  lemma {:induction false} LeadOfContent(c: string, rest: string)
    requires !LeadsWithColon(c)
    ensures !LeadsWithColon(c + "\"" + rest)
  {
    var s := c + "\"" + rest;
    if c != "" && IsSpace(c[0]) {
      assert s[1..] == c[1..] + "\"" + rest;
      LeadOfContent(c[1..], rest);
    }
  }

  // ----- Strings -----

  /** The byte after a backslash is copied, a quote too: it opens no key. */
  lemma EscapedByte(p: Pass, x: string, c: string, rest: string)
    requires p.Valid() && |x| == 1 && Escaped(c) && !LeadsWithColon(rest)
    ensures p.rw(x + (c + "\"" + rest)) == x + p.rw(c + "\"" + rest)
  {
    var t := c + "\"" + rest;
    if x[0] == '"' {
      QuotedContent(c, rest);
      assert t[|c| + 1..] == rest && x == "\"";
      StepString(p, t);
    } else {
      StepPlain(p, x, t);
    }
  }

  /** From anywhere inside a string that is no key, its content is copied. */
  lemma {:induction false} InsideString(p: Pass, c: string, rest: string)
    requires p.Valid() && Escaped(c) && !LeadsWithColon(rest)
    ensures p.rw(c + "\"" + rest) == c + p.rw("\"" + rest)
    decreases |c|
  {
    if c == "" {
      assert c + "\"" + rest == "\"" + rest;
    } else if c[0] == '\\' {
      var t := c[2..] + "\"" + rest;
      assert c + "\"" + rest == c[..1] + (c[1..2] + t);
      StepPlain(p, c[..1], c[1..2] + t);
      EscapedByte(p, c[1..2], c[2..], rest);
      InsideString(p, c[2..], rest);
    } else {
      var t := c[1..] + "\"" + rest;
      assert c + "\"" + rest == c[..1] + t;
      StepPlain(p, c[..1], t);
      InsideString(p, c[1..], rest);
    }
  }

  lemma OpenString(p: Pass, c: string, rest: string)
    requires p.Valid() && Escaped(c) && !LeadsWithColon(rest)
    ensures p.rw(Quoted(c) + rest) == "\"" + c + p.rw("\"" + rest)
  {
    QuotedText(c, rest);
    EscapedByte(p, "\"", c, rest);
    InsideString(p, c, rest);
    var r := p.rw("\"" + rest);
    assert "\"" + (c + r) == "\"" + c + r;
  }

  lemma QuotedText(c: string, rest: string)
    ensures Quoted(c) + rest == "\"" + (c + "\"" + rest)
  {
  }

  // ----- Values -----

  function Open(v: Json): char
    requires v.Array? || v.Object?
  {
    if v.Array? then '[' else '{'
  }

  function Close(v: Json): char
    requires v.Array? || v.Object?
  {
    if v.Array? then ']' else '}'
  }

  predicate IsClose(c: char) { c == ']' || c == '}' }

  lemma GroupSize(v: Json)
    requires v.Array? || v.Object?
    ensures |Print(v)| == |v.pad| + |PrintItems(v.items)| + 2
  {
  }

  lemma GroupText(v: Json, rest: string)
    requires v.Array? || v.Object?
    ensures Print(v) + rest == [Open(v)] + (v.pad + (PrintItems(v.items) + ([Close(v)] + rest)))
  {
    var open, close, pad, body := [Open(v)], [Close(v)], v.pad, PrintItems(v.items);
    assert Print(v) == open + pad + body + close;
    assert (open + pad + body + close) + rest == open + (pad + (body + (close + rest)));
  }

  /** Everything after an item's value inside its brackets, and then `rest`. */
  function Tail(next: Items, close: char, rest: string): string {
    if next.End? then [close] + rest else "," + (PrintItems(next) + ([close] + rest))
  }

  lemma ItemsText(items: Items, close: char, rest: string)
    requires items.Item?
    ensures PrintItems(items) + ([close] + rest)
         == items.before + (PrintName(items.name) + (Print(items.value) + (items.after + Tail(items.next, close, rest))))
  {
    var e := if items.next.End? then "" else "," + PrintItems(items.next);
    assert Tail(items.next, close, rest) == e + ([close] + rest);
    Nest(items.before, PrintName(items.name), Print(items.value), items.after, e, [close] + rest);
  }

  lemma Nest(a: string, b: string, c: string, d: string, e: string, f: string)
    ensures (a + b + c + d + e) + f == a + (b + (c + (d + (e + f))))
  {
  }

  /** What stands between a printed key and its value. */
  function Lead(n: Name): string { n.beforeColon + ":" + n.afterColon }

  lemma NameText(n: Name, t: string)
    ensures PrintName(Some(n)) + t == Quoted(n.key) + (Lead(n) + t)
  {
  }

  // ----- The length of a value -----

  lemma {:induction false} BracketPlain(x: string, rest: string, stack: seq<char>)
    requires stack != []
    requires forall c :: c in x ==> LiteralChar(c) || IsSpace(c) || c == ':' || c == ','
    ensures BracketRun(x + rest, stack) == Shift(|x|, BracketRun(rest, stack))
  {
    if x == "" {
      assert x + rest == rest;
    } else {
      assert x[0] in x;
      BracketPlain(x[1..], rest, stack);
      assert (x + rest)[1..] == x[1..] + rest;
    }
  }

  lemma BracketString(c: string, rest: string, stack: seq<char>)
    requires stack != [] && Escaped(c)
    ensures BracketRun(Quoted(c) + rest, stack) == Shift(|c| + 2, BracketRun(rest, stack))
  {
    var s := Quoted(c) + rest;
    QuotedContent(c, rest);
    assert s[1..] == c + "\"" + rest;
    assert s[1 + (|c| + 1)..] == rest;
  }

  lemma BracketOpen(open: char, t: string, stack: seq<char>)
    requires stack != [] && (open == '[' || open == '{')
    ensures BracketRun([open] + t, stack) == Shift(1, BracketRun(t, stack + [if open == '[' then ']' else '}']))
  {
    assert ([open] + t)[1..] == t;
  }

  /** What is left to do once the innermost bracket is closed. */
  function Popped(stack: seq<char>, rest: string): Option<nat>
    requires stack != []
  {
    if |stack| == 1 then Some(0) else BracketRun(rest, stack[..|stack| - 1])
  }

  lemma BracketClose(close: char, rest: string, stack: seq<char>)
    requires stack != [] && stack[|stack| - 1] == close && IsClose(close)
    ensures BracketRun([close] + rest, stack) == Shift(1, Popped(stack, rest))
  {
    assert ([close] + rest)[1..] == rest;
  }

  lemma BracketName(name: Option<Name>, t: string, stack: seq<char>)
    requires stack != [] && (name.Some? ==> WellFormedName(name.value))
    ensures BracketRun(PrintName(name) + t, stack) == Shift(|PrintName(name)|, BracketRun(t, stack))
  {
    if name.None? {
      assert PrintName(name) + t == t;
    } else {
      var n := name.value;
      NameText(n, t);
      BracketPlain(Lead(n), t, stack);
      BracketString(n.key, Lead(n) + t, stack);
    }
  }

  /** A printed value leaves the bracket stack as it found it. */
  lemma {:induction false} BracketValue(v: Json, rest: string, stack: seq<char>)
    requires WellFormed(v) && stack != []
    ensures BracketRun(Print(v) + rest, stack) == Shift(|Print(v)|, BracketRun(rest, stack))
    decreases v, 1
  {
    if v.Literal? {
      BracketPlain(v.text, rest, stack);
    } else if v.Text? {
      BracketString(v.content, rest, stack);
    } else {
      GroupText(v, rest);
      BracketOpen(Open(v), v.pad + (PrintItems(v.items) + ([Close(v)] + rest)), stack);
      BracketGroup(v, rest, stack + [Close(v)]);
      assert (stack + [Close(v)])[..|stack|] == stack;
    }
  }

  /** After the opening bracket, the rest of a composite pops its closing bracket. */
  lemma {:induction false} BracketGroup(v: Json, rest: string, stack: seq<char>)
    requires WellFormed(v) && (v.Array? || v.Object?)
    requires stack != [] && stack[|stack| - 1] == Close(v)
    ensures BracketRun(v.pad + (PrintItems(v.items) + ([Close(v)] + rest)), stack)
         == Shift(|Print(v)| - 1, Popped(stack, rest))
    decreases v, 0
  {
    GroupSize(v);
    var t := PrintItems(v.items) + ([Close(v)] + rest);
    BracketItems(v.items, v.Object?, Close(v), rest, stack);
    BracketPlain(v.pad, t, stack);
  }

  lemma {:induction false} BracketItems(items: Items, named: bool, close: char, rest: string, stack: seq<char>)
    requires WellFormedItems(items, named) && IsClose(close)
    requires stack != [] && stack[|stack| - 1] == close
    ensures BracketRun(PrintItems(items) + ([close] + rest), stack)
         == Shift(|PrintItems(items)| + 1, Popped(stack, rest))
    decreases items, 1
  {
    if items.End? {
      assert PrintItems(items) + ([close] + rest) == [close] + rest;
      BracketClose(close, rest, stack);
    } else {
      ItemsText(items, close, rest);
      var tail := Tail(items.next, close, rest);
      BracketTail(items.next, named, close, rest, stack);
      BracketItem(items, named, tail, stack);
    }
  }

  lemma {:induction false} BracketItem(items: Items, named: bool, tail: string, stack: seq<char>)
    requires items.Item? && WellFormedItems(items, named) && stack != []
    ensures BracketRun(items.before + (PrintName(items.name) + (Print(items.value) + (items.after + tail))), stack)
         == Shift(|items.before| + |PrintName(items.name)| + |Print(items.value)| + |items.after|, BracketRun(tail, stack))
    decreases items, 0
  {
    BracketPadded(items.value, items.after, tail, stack);
    var b := Print(items.value) + (items.after + tail);
    BracketName(items.name, b, stack);
    BracketPlain(items.before, PrintName(items.name) + b, stack);
  }

  lemma {:induction false} BracketPadded(v: Json, after: string, tail: string, stack: seq<char>)
    requires WellFormed(v) && Blank(after) && stack != []
    ensures BracketRun(Print(v) + (after + tail), stack) == Shift(|Print(v)| + |after|, BracketRun(tail, stack))
    decreases v, 2
  {
    BracketPlain(after, tail, stack);
    BracketValue(v, after + tail, stack);
  }

  lemma {:induction false} BracketTail(next: Items, named: bool, close: char, rest: string, stack: seq<char>)
    requires WellFormedItems(next, named) && IsClose(close)
    requires stack != [] && stack[|stack| - 1] == close
    ensures BracketRun(Tail(next, close, rest), stack)
         == Shift(|Tail(next, close, rest)| - |rest|, Popped(stack, rest))
    decreases next, 2
  {
    if next.End? {
      BracketClose(close, rest, stack);
    } else {
      BracketItems(next, named, close, rest, stack);
      BracketPlain(",", PrintItems(next) + ([close] + rest), stack);
    }
  }

  lemma {:induction false} ScalarOver(x: string, rest: string)
    requires forall c :: c in x ==> LiteralChar(c) || IsSpace(c)
    requires rest != "" && IsDelimiter(rest[0])
    ensures ScalarRun(x + rest) == |x|
  {
    if x == "" {
      assert x + rest == rest;
    } else {
      assert x[0] in x;
      ScalarOver(x[1..], rest);
      assert (x + rest)[1..] == x[1..] + rest;
    }
  }

  /** The scanner finds the end of a printed value: white space after a number or word
      belongs to it, white space after anything else does not. */
  lemma {:induction false} ValueLength(v: Json, after: string, tail: string)
    requires WellFormed(v) && Blank(after) && tail != "" && IsDelimiter(tail[0])
    ensures ValueRun(Print(v) + (after + tail)) == Some(|Print(v)| + (if v.Literal? then |after| else 0))
  {
    if v.Literal? {
      LiteralLength(v.text, after, tail);
    } else {
      NoTrail(after, tail);
      if v.Text? {
        TextLength(v.content, after + tail);
      } else {
        CompositeLength(v, after + tail);
      }
    }
  }

  lemma NoTrail(after: string, tail: string)
    requires Blank(after) && tail != "" && IsDelimiter(tail[0])
    ensures TrailRun(after + tail) == 0
  {
    SpaceRunOver(after, tail);
  }

  lemma CompositeLength(v: Json, rest: string)
    requires WellFormed(v) && (v.Array? || v.Object?) && TrailRun(rest) == 0
    ensures ValueRun(Print(v) + rest) == Some(|Print(v)|)
  {
    GroupText(v, rest);
    GroupTail(v, rest);
    BracketGroup(v, rest, [Close(v)]);
    GroupLength(Open(v), v.pad + (PrintItems(v.items) + ([Close(v)] + rest)), rest, |Print(v)|);
  }

  lemma GroupTail(v: Json, rest: string)
    requires v.Array? || v.Object?
    ensures var t := v.pad + (PrintItems(v.items) + ([Close(v)] + rest));
            0 < |Print(v)| && |t| == |Print(v)| - 1 + |rest| && t[|Print(v)| - 1..] == rest
  {
    GroupSize(v);
    var t := v.pad + (PrintItems(v.items) + ([Close(v)] + rest));
    assert t == (v.pad + PrintItems(v.items) + [Close(v)]) + rest;
  }

  lemma TextLength(c: string, rest: string)
    requires Escaped(c) && TrailRun(rest) == 0
    ensures ValueRun(Quoted(c) + rest) == Some(|c| + 2)
  {
    var s := Quoted(c) + rest;
    KeyParts(c, rest, s);
    ClosedLength(s, |c| + 2);
  }

  lemma GroupLength(open: char, t: string, rest: string, n: nat)
    requires open == '[' || open == '{'
    requires 0 < n && BracketRun(t, [if open == '[' then ']' else '}']) == Some(n - 1)
    requires TrailRun(rest) == 0 && t[n - 1..] == rest
    ensures ValueRun([open] + t) == Some(n)
  {
    var s := [open] + t;
    assert s[0] == open && s[1..] == t && s[n..] == t[n - 1..];
    ClosedLength(s, n);
  }

  lemma ClosedLength(s: string, n: nat)
    requires 0 < n <= |s| && TrailRun(s[n..]) == 0 && (IsQuote(s[0]) || s[0] == '[' || s[0] == '{')
    requires IsQuote(s[0]) ==> QuotedRun(s[1..], s[0]) == Some(n - 1)
    requires !IsQuote(s[0]) ==> BracketRun(s[1..], [if s[0] == '[' then ']' else '}']) == Some(n - 1)
    ensures ValueRun(s) == Some(n)
  {
  }

  lemma LiteralLength(text: string, after: string, tail: string)
    requires WellFormed(Literal(text)) && Blank(after) && tail != "" && IsDelimiter(tail[0])
    ensures ValueRun(text + (after + tail)) == Some(|text| + |after|)
  {
    assert LiteralChar(text[0]);
    assert text + (after + tail) == (text + after) + tail;
    ScalarOver(text + after, tail);
  }

  // ----- Members -----

  lemma PrintLead(v: Json)
    requires WellFormed(v)
    ensures Print(v) != "" && !IsSpace(Print(v)[0])
  {
    if v.Literal? {
      assert LiteralChar(v.text[0]);
    }
  }

  /** Between a printed key and its value: a colon, and the value right behind it. */
  lemma NameLead(n: Name, v: Json, rest: string)
    requires WellFormedName(n) && WellFormed(v)
    ensures LeadsWithColon(Lead(n) + (Print(v) + rest))
    ensures FieldStart(Lead(n) + (Print(v) + rest)) == |Lead(n)|
  {
    var t := Print(v) + rest;
    var s := Lead(n) + t;
    PrintLead(v);
    assert s == n.beforeColon + (":" + n.afterColon + t);
    SpaceRunOver(n.beforeColon, ":" + n.afterColon + t);
    SpaceRunOver(n.afterColon, t);
    assert s[|n.beforeColon| + 1..] == n.afterColon + t;
  }

  lemma StepCutText(p: Pass, head: string, value: string, rest: string, s: string)
    requires p.Valid() && s != "" && s == head + (value + rest) && p.scan(s) == Cut(|head|, |value|)
    ensures p.rw(s) == head + (p.policy.Marker() + p.rw(rest))
  {
    StepCut(p, s, |head|, |value|);
    assert s[..|head|] == head;
    assert s[|head| + |value|..] == rest;
  }

  /** The move the scanner makes at a hidden key. */
  lemma HiddenAt(p: Pass, n: Name, v: Json, after: string, tail: string, s: string)
    requires p.Valid() && WellFormedName(n) && WellFormed(v) && p.policy.hides(Quoted(n.key))
    requires Blank(after) && tail != "" && IsDelimiter(tail[0])
    requires s == Quoted(n.key) + (Lead(n) + (Print(v) + (after + tail)))
    ensures p.scan(s) == Cut(|n.key| + 2 + |Lead(n)|, |Print(v)| + (if v.Literal? then |after| else 0))
  {
    var t := Print(v) + (after + tail);
    NameLead(n, v, after + tail);
    assert (Lead(n) + t)[|Lead(n)|..] == t;
    ValueLength(v, after, tail);
    KeyAt(p, n.key, Lead(n) + t, s);
  }

  lemma KeyAt(p: Pass, key: string, rest: string, s: string)
    requires p.Valid() && Escaped(key) && s == Quoted(key) + rest
    ensures p.scan(s) == KeyMove(p.policy.hides, Quoted(key), rest)
  {
    KeyParts(key, rest, s);
    ScanString(p, s, |key| + 2);
  }

  lemma KeyParts(key: string, rest: string, s: string)
    requires Escaped(key) && s == Quoted(key) + rest
    ensures s != "" && s[0] == '"' && QuotedRun(s[1..], '"') == Some(|key| + 1)
    ensures s[..|key| + 2] == Quoted(key) && s[|key| + 2..] == rest
  {
    QuotedContent(key, rest);
    assert s[1..] == key + "\"" + rest;
  }

  lemma ScanString(p: Pass, s: string, n: nat)
    requires p.Valid() && s != "" && s[0] == '"' && QuotedRun(s[1..], '"') == Some(n - 1)
    ensures p.scan(s) == KeyMove(p.policy.hides, s[..n], s[n..])
  {
    assert p.Moves(s);
  }
}
