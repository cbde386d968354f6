/** Documents where the scan is misled, with the keys that are really sensitive. */
module JsonCases {
  import opened JsonText
  import opened JsonTree
  import opened JsonRedaction
  import opened JsonExact
  import opened JsonMembers
  import opened JsonScanner
  import opened Secrets
  import opened Sequences
  import opened Wrappers

  /** Behind an item that is a string, its closing quote is pending. */
  lemma AfterTextItem(hides: string -> bool, st: Pending, items: Items)
    requires items.Item? && items.value.Text? && !Hidden(hides, items.name)
    ensures AfterItem(hides, st, items) == Opened(items.after)
  {
    var named := AfterName(Grow(st, items.before), items.name);
    assert AfterValue(hides, named, items.value) == Opened("");
    assert "" + items.after == items.after;
  }

  /** With the notice the code writes, on a document without a string value that starts with
      an opening bracket: the redaction is that of the tree exactly when the scan is misled
      at no string. */
  lemma NoticeIsExact(hides: string -> bool, before: string, v: Json, after: string)
    requires Blank(before) && WellFormed(v) && Blank(after) && Told('[', '[', v)
    ensures FollowsTree(Policy(hides, NOTICE), before, v, after) <==> Fair(hides, Settled, v)
  {
    RedactionIsExactUnder(Policy(hides, NOTICE), before, v, after);
  }

  // ----- A sensitive key that is not seen -----

  function Field(key: string, content: string, next: Items): Items {
    Item("", Some(Name(key, "", "")), Text(content), "", next)
  }

  /** An object with a string field, then a field under `key`. */
  function TwoFields(key: string, secret: string): Json {
    Object("", Field("b", "v", Field(key, secret, End)))
  }

  /** One field of a compact object, copied. */
  lemma TurnField(p: Pass, st: Pending, key: string, content: string, t: string) returns (h: string)
    requires p.Valid() && PlainGap(st) && Escaped(key) && Escaped(content) && !LeadsWithColon(t)
    requires !CutInside(p.policy.hides, st, key) && !HidesKey(p.policy.hides, st, key)
    requires !CutInside(p.policy.hides, AfterName(st, Some(Name(key, "", ""))), content)
    ensures Turn(p, st, FieldText(key, content), FieldText(key, content), Opened(""), t, h)
  {
    var name := Some(Name(key, "", ""));
    var k := TurnName(p, st, name, Text(content), t);
    PlainAfterName(st, name);
    var l := TurnText(p, AfterName(st, name), content, t);
    Both(p, st, PrintName(name), PrintName(name), AfterName(st, name), Quoted(content), Quoted(content), Opened(""), t, k, l);
    h := k + l;
  }

  function FieldText(key: string, content: string): string {
    PrintName(Some(Name(key, "", ""))) + Quoted(content)
  }

  lemma TwoFieldsText(key: string, secret: string)
    ensures Print(TwoFields(key, secret)) == "{" + (FieldText("b", "v") + ("," + (FieldText(key, secret) + "}")))
  {
    var a, b := FieldText("b", "v"), FieldText(key, secret);
    FieldPrinted(key, secret, End);
    FieldPrinted("b", "v", Field(key, secret, End));
    assert PrintItems(Field(key, secret, End)) == b;
    assert "{" + "" + (a + ("," + b)) + "}" == "{" + (a + ("," + (b + "}")));
  }

  lemma FieldPrinted(key: string, content: string, next: Items)
    ensures PrintItems(Field(key, content, next)) == FieldText(key, content) + (if next.End? then "" else "," + PrintItems(next))
  {
    var n, c := PrintName(Some(Name(key, "", ""))), Quoted(content);
    var e := if next.End? then "" else "," + PrintItems(next);
    assert PrintItems(Field(key, content, next)) == "" + n + c + "" + e;
    Padded(n, c, e);
  }

  lemma Padded(n: string, c: string, e: string)
    ensures "" + n + c + "" + e == (n + c) + e
  {
  }

  /** After a string value, a hidden key that starts with a colon and has no escaped quote
      is not seen, and its value survives. */
  lemma ColonHidesKey(policy: Policy, key: string, secret: string)
    requires Escaped(secret) && !LeadsWithColon(secret) && Escaped(key) && '"' !in key && LeadsWithColon(key)
    requires policy.hides(Quoted(key)) && !policy.hides(Quoted("b")) && !policy.hides(Quoted(","))
    ensures Redacted(policy, Print(TwoFields(key, secret))) == Print(TwoFields(key, secret))
    ensures !Fair(policy.hides, Settled, TwoFields(key, secret))
  {
    var p := ScanPass(policy);
    ScanIsPass(policy);
    NoInnerQuote(key);
    TwoFieldsText(key, secret);
    TurnTwoFields(p, key, secret);
    TwoFieldsMisread(policy.hides, key, secret);
  }

  lemma {:induction false} NoInnerQuote(c: string)
    requires '"' !in c
    ensures Inner(c).None?
  {
    if c == "" {
    } else {
      NoInnerQuote(c[1..]);
    }
  }

  lemma TurnTwoFields(p: Pass, key: string, secret: string)
    requires p.Valid() && Escaped(secret) && !LeadsWithColon(secret) && Escaped(key) && Inner(key).None? && LeadsWithColon(key)
    requires !p.policy.hides(Quoted("b")) && !p.policy.hides(Quoted(","))
    ensures var s := "{" + (FieldText("b", "v") + ("," + (FieldText(key, secret) + "}"))); p.rw(s) == s
  {
    var a, b := FieldText("b", "v"), FieldText(key, secret);
    StepPlain(p, "{", a + ("," + (b + "}")));
    var h := TurnField(p, Settled, "b", "v", "," + (b + "}"));
    var k := TurnPlain(p, Opened(""), ",", b + "}");
    assert Grow(Opened(""), ",") == Opened(",");
    var l := TurnField(p, Opened(","), key, secret, "}");
    EndOfText(p, Opened(""), "}");
    Assembled(p, a, b, h, k, l);
  }

  lemma Assembled(p: Pass, a: string, b: string, h: string, k: string, l: string)
    requires Turn(p, Settled, a, a, Opened(""), "," + (b + "}"), h)
    requires Turn(p, Opened(""), ",", ",", Opened(","), b + "}", k)
    requires Turn(p, Opened(","), b, b, Opened(""), "}", l)
    requires p.rw(Pend(Opened("")) + "}") == Pend(Opened("")) + "}"
    ensures p.rw(a + ("," + (b + "}"))) == a + ("," + (b + "}"))
  {
    Both(p, Opened(""), ",", ",", Opened(","), b, b, Opened(""), "}", k, l);
    Associative(",", b, "}");
    Both(p, Settled, a, a, Opened(""), "," + b, "," + b, Opened(""), "}", h, k + l);
    var all := a + ("," + b);
    assert Pend(Settled) + (all + "}") == all + "}";
    Associative(h + (k + l), Pend(Opened("")), "}");
    assert Pend(Settled) + all == all;
    assert all + "}" == a + ("," + (b + "}"));
  }

  lemma TwoFieldsMisread(hides: string -> bool, key: string, secret: string)
    requires hides(Quoted(key)) && !hides(Quoted("b")) && LeadsWithColon(key) && Inner(key).None?
    ensures !Fair(hides, Settled, TwoFields(key, secret))
  {
    var second := Field(key, secret, End);
    var first := Field("b", "v", second);
    var st := Grow(AfterItem(hides, Settled, first), ",");
    AfterTextItem(hides, Settled, first);
    assert st.Opened? && !FairItem(hides, st, second);
    assert !FairItems(hides, st, second) && !FairItems(hides, Settled, first);
  }

  /** The sensitive key ":password" is not seen behind a string value. */
  lemma PasswordSurvives(decode: string -> Option<string>, key: string, secret: string)
    requires key == ":password" && Escaped(secret) && !LeadsWithColon(secret)
    requires decode(Quoted(key)) == Some(key) && decode(Quoted("b")) == Some("b") && decode(Quoted(",")) == Some(",")
    ensures SensitiveKey(key)
    ensures var policy := Policy(HiddenKeys(decode, SensitiveKey), NOTICE);
      Redacted(policy, Print(TwoFields(key, secret))) == Print(TwoFields(key, secret))
  {
    PasswordIsSensitive(key);
    NotSensitive("b", LowerAll("b"));
    NotSensitive(",", LowerAll(","));
    PlainEscaped(key);
    ColonHidesKey(Policy(HiddenKeys(decode, SensitiveKey), NOTICE), key, secret);
  }

  lemma PartIsSensitive(key: string, lower: string, i: nat)
    requires (forall k :: 0 <= k < |key| ==> !Separator(key[k])) && lower == LowerAll(key) && StartsAt(lower, i, SUBSTRINGS[0])
    ensures SensitiveKey(key)
  {
    StrippedTwice(key);
  }

  lemma PasswordIsSensitive(key: string)
    requires key == ":password"
    ensures SensitiveKey(key)
  {
    var lower := LowerAll(key);
    assert lower == key;
    assert lower[1..] == SUBSTRINGS[0];
    PartIsSensitive(key, lower, 1);
  }

  // ----- A value redacted without any key -----

  /** Two strings on two lines, the second starting with a colon. */
  function TwoLines(second: string): Json {
    Array("", Item("", None, Text("x"), "", Item("\n", None, Text(second), "", End)))
  }

  /** The gap of a comma and a line break does not decode as a key, so it counts as hidden,
      and the scan redacts inside the second string although the text has no key at all. */
  lemma LineBreakRedacts(decode: string -> Option<string>, sensitive: string -> bool, second: string)
    requires decode(Quoted(",\n")).None? && LeadsWithColon(second)
    ensures Fair(HiddenKeys(decode, sensitive), Settled, TwoLines(second)) <==> !OffersValue(second)
  {
    var hides := HiddenKeys(decode, sensitive);
    var item := Item("\n", None, Text(second), "", End);
    var all := Item("", None, Text("x"), "", item);
    var st := Grow(AfterItem(hides, Settled, all), ",");
    var at := Grow(st, "\n");
    AfterTextItem(hides, Settled, all);
    assert at == Opened(",\n");
    assert FairItem(hides, st, item) <==> !CutInside(hides, at, second);
    assert FairItem(hides, Settled, all);
    assert FairItems(hides, st, item) <==> FairItem(hides, st, item);
    assert FairItems(hides, Settled, all) <==> FairItems(hides, st, item);
  }

  /** A string that starts with a colon after a string that is no key does no harm, whatever
      is hidden, when nothing behind the colon counts as a value. */
  lemma ExposedMayBeFair(hides: string -> bool, second: string)
    requires LeadsWithColon(second) && !OffersValue(second)
    ensures Fair(hides, Settled, TwoLines(second)) && !Unexposed(false, TwoLines(second))
  {
    var item := Item("\n", None, Text(second), "", End);
    var all := Item("", None, Text("x"), "", item);
    var st := Grow(AfterItem(hides, Settled, all), ",");
    assert FairItem(hides, st, item) && FairItem(hides, Settled, all);
    assert FairItems(hides, st, item) && FairItems(hides, Settled, all);
    assert !Unexposed(true, Text(second));
    assert !UnexposedItems(true, item);
    assert OpenAfter(false, all.value) && all.next == item;
    assert !UnexposedItems(false, all);
  }
}
