/** Redaction member by member, for documents on which no hidden key can mislead the scan:
    what becomes of a tree, in terms of what keys decode to and which names are sensitive. */
module JsonMembers {
  import opened JsonText
  import opened JsonTree
  import opened JsonRedaction
  import opened Wrappers

  // ----- What becomes of a tree -----

  /** The value under this key must go: its quoted form does not decode, or decodes to a
      sensitive name. */
  predicate MustGo(decode: string -> Option<string>, sensitive: string -> bool, key: string) {
    match decode("\"" + key + "\"")
    case None => true
    case Some(name) => sensitive(name)
  }

  /** v' has the shape of v. A member's value is the notice exactly where it must go, and
      everything else is as it was. */
  predicate Censored(decode: string -> Option<string>, sensitive: string -> bool, v: Json, v': Json) {
    match v
    case Literal(_) => v' == v
    case Text(_) => v' == v
    case Array(pad, items) => v'.Array? && v'.pad == pad && CensoredItems(decode, sensitive, items, v'.items)
    case Object(pad, items) => v'.Object? && v'.pad == pad && CensoredItems(decode, sensitive, items, v'.items)
  }

  predicate CensoredItems(decode: string -> Option<string>, sensitive: string -> bool, items: Items, items': Items) {
    match items
    case End => items' == End
    case Item(before, name, value, after, next) =>
      && items'.Item? && items'.before == before && items'.name == name
      && CensoredItems(decode, sensitive, next, items'.next)
      && if name.Some? && MustGo(decode, sensitive, name.value.key) then
           // White space behind a number or word goes with it.
           items'.value == Text("[REDACTED]") && items'.after == if value.Literal? then "" else after
         else
           Censored(decode, sensitive, value, items'.value) && items'.after == after
  }

  /** `out` is this document with its tree censored. */
  ghost predicate CensoredText(decode: string -> Option<string>, sensitive: string -> bool, before: string, v: Json, after: string, out: string) {
    exists v' :: Censored(decode, sensitive, v, v') && out == before + Print(v') + after
  }

  /** The policy hides just these keys behind this notice. */
  ghost predicate Enforces(policy: Policy, decode: string -> Option<string>, sensitive: string -> bool) {
    policy.notice == "[REDACTED]" && forall key :: policy.hides(Quoted(key)) <==> MustGo(decode, sensitive, key)
  }

  lemma {:induction false} ScrubbingCensors(policy: Policy, decode: string -> Option<string>, sensitive: string -> bool, v: Json)
    requires Enforces(policy, decode, sensitive)
    ensures Censored(decode, sensitive, v, Scrub(policy, v))
    decreases v
  {
    if v.Array? || v.Object? {
      ScrubbingCensorsItems(policy, decode, sensitive, v.items);
    }
  }

  lemma {:induction false} ScrubbingCensorsItems(policy: Policy, decode: string -> Option<string>, sensitive: string -> bool, items: Items)
    requires Enforces(policy, decode, sensitive)
    ensures CensoredItems(decode, sensitive, items, ScrubItems(policy, items))
    decreases items
  {
    if items.End? {
    } else {
      ScrubbingCensors(policy, decode, sensitive, items.value);
      ScrubbingCensorsItems(policy, decode, sensitive, items.next);
    }
  }

  /** There is one way to censor a tree. */
  lemma {:induction false} CensoringIsUnique(decode: string -> Option<string>, sensitive: string -> bool, v: Json, a: Json, b: Json)
    requires Censored(decode, sensitive, v, a) && Censored(decode, sensitive, v, b)
    ensures a == b
    decreases v
  {
    if v.Array? || v.Object? {
      CensoringItemsIsUnique(decode, sensitive, v.items, a.items, b.items);
    }
  }

  lemma {:induction false} CensoringItemsIsUnique(decode: string -> Option<string>, sensitive: string -> bool, items: Items, a: Items, b: Items)
    requires CensoredItems(decode, sensitive, items, a) && CensoredItems(decode, sensitive, items, b)
    ensures a == b
    decreases items
  {
    if items.End? {
    } else {
      if !(items.name.Some? && MustGo(decode, sensitive, items.name.value.key)) {
        CensoringIsUnique(decode, sensitive, items.value, a.value, b.value);
      }
      CensoringItemsIsUnique(decode, sensitive, items.next, a.next, b.next);
    }
  }

  // ----- No hidden keys can mislead the scan -----

  /** Whether a string that is no key may be the last string before what follows. */
  function OpenAfter(open: bool, v: Json): bool
    decreases v
  {
    match v
    case Literal(_) => open
    case Text(_) => true
    case Array(_, items) => OpenAfterItems(open, items)
    case Object(_, items) => OpenAfterItems(open, items)
  }

  function OpenAfterItems(open: bool, items: Items): bool
    decreases items
  {
    if items.End? then open else OpenAfterItems(OpenAfter(open && items.name.None?, items.value), items.next)
  }

  /** No string starts with a colon when the string before it is no key. */
  predicate Unexposed(open: bool, v: Json)
    decreases v
  {
    match v
    case Literal(_) => true
    case Text(content) => !(open && LeadsWithColon(content))
    case Array(_, items) => UnexposedItems(open, items)
    case Object(_, items) => UnexposedItems(open, items)
  }

  predicate UnexposedItems(open: bool, items: Items)
    decreases items
  {
    items.Item? ==>
      && (items.name.Some? ==> !(open && LeadsWithColon(items.name.value.key)))
      && Unexposed(open && items.name.None?, items.value)
      && UnexposedItems(OpenAfter(open && items.name.None?, items.value), items.next)
  }

  lemma {:induction false} UnexposedIsFair(hides: string -> bool, st: Pending, open: bool, v: Json)
    requires (st.Opened? ==> open) && Unexposed(open, v)
    ensures Fair(hides, st, v)
    ensures AfterValue(hides, st, v).Opened? ==> OpenAfter(open, v)
    decreases v
  {
    if v.Array? || v.Object? {
      UnexposedItemsAreFair(hides, Grow(st, [Open(v)] + v.pad), open, v.items);
    }
  }

  lemma {:induction false} UnexposedItemsAreFair(hides: string -> bool, st: Pending, open: bool, items: Items)
    requires (st.Opened? ==> open) && UnexposedItems(open, items)
    ensures FairItems(hides, st, items)
    ensures AfterItems(hides, st, items).Opened? ==> OpenAfterItems(open, items)
    decreases items
  {
    if items.End? {
    } else {
      var s2 := AfterName(Grow(st, items.before), items.name);
      UnexposedIsFair(hides, s2, open && items.name.None?, items.value);
      var done := AfterItem(hides, st, items);
      UnexposedItemsAreFair(hides, Grow(done, ","), OpenAfter(open && items.name.None?, items.value), items.next);
    }
  }

  /** A document where no string starts with a colon right after a string that is no key
      is redacted as its tree, whatever is hidden. The value of a member may start with a
      colon, like an IPv6 address. */
  lemma UnexposedFollowsTree(policy: Policy, before: string, v: Json, after: string)
    requires Blank(before) && WellFormed(v) && Blank(after) && Unexposed(false, v)
    ensures FollowsTree(policy, before, v, after)
  {
    UnexposedIsFair(policy.hides, Settled, false, v);
    RedactionFollowsTree(policy, before, v, after);
  }

  /** So its text becomes the text of the censored tree. */
  lemma UnexposedIsCensored(policy: Policy, decode: string -> Option<string>, sensitive: string -> bool, before: string, v: Json, after: string)
    requires Blank(before) && WellFormed(v) && Blank(after) && Unexposed(false, v)
    requires Enforces(policy, decode, sensitive)
    ensures CensoredText(decode, sensitive, before, v, after, Redacted(policy, before + Print(v) + after))
  {
    UnexposedFollowsTree(policy, before, v, after);
    ScrubbingCensors(policy, decode, sensitive, v);
  }
}
