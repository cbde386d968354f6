/** Redacting any text a second time changes nothing. */
module JsonTwice {
  import opened JsonText
  import opened JsonTree
  import opened JsonBounds
  import opened JsonRedaction
  import opened JsonExact
  import opened Sequences
  import opened Wrappers

  // ----- What the pass keeps -----

  /** The pass keeps the first byte of every text. */
  lemma FirstByteStays(p: Pass, s: string)
    requires p.Valid() && s != ""
    ensures p.rw(s) != "" && p.rw(s)[0] == s[0]
  {
    assert p.Moves(s);
    KeptBytes(p, s, 1);
    assert p.rw(s)[..1][0] == s[..1][0];
  }

  /** White space at the start of a text, and the rest. */
  lemma {:induction false} SpaceIsBlank(s: string)
    ensures Blank(s[..SpaceRun(s)])
  {
    if s == "" || !IsSpace(s[0]) {
    } else {
      SpaceIsBlank(s[1..]);
      assert s[..SpaceRun(s)] == [s[0]] + s[1..][..SpaceRun(s[1..])];
    }
  }

  /** The pass keeps leading white space, and the byte after it. */
  lemma SpaceStays(p: Pass, s: string)
    requires p.Valid()
    ensures var n := SpaceRun(s); p.rw(s) == s[..n] + p.rw(s[n..]) && SpaceRun(p.rw(s)) == n
    ensures SpaceRun(s) < |s| ==> SpaceRun(s) < |p.rw(s)| && p.rw(s)[SpaceRun(s)] == s[SpaceRun(s)]
    ensures SpaceRun(s) == |s| ==> |p.rw(s)| == |s|
  {
    var n := SpaceRun(s);
    var x, y := s[..n], s[n..];
    SpaceIsBlank(s);
    SpaceRunEnds(s);
    assert s == x + y;
    CopyPlain(p, x, y);
    if y != "" {
      FirstByteStays(p, y);
    }
    SpaceRunOver(x, p.rw(y));
  }

  lemma BoundaryStays(p: Pass, s: string)
    requires p.Valid()
    ensures AtBoundary(p.rw(s)) == AtBoundary(s)
  {
    SpaceStays(p, s);
  }

  /** The same behind a pending quote: what the pass makes of the text after it leads with a
      colon exactly when that text does. */
  lemma ColonStaysBehindQuote(p: Pass, t: string, r: string)
    requires p.Valid() && p.rw("\"" + t) == "\"" + r
    ensures LeadsWithColon(r) == LeadsWithColon(t)
  {
    var n := SpaceRun(t);
    SpaceIsBlank(t);
    SpaceRunEnds(t);
    var g, y := t[..n], t[n..];
    assert t == g + y;
    if y == "" {
      EndOfText(p, Opened(g), "");
      assert Pend(Opened(g)) + "" == "\"" + t;
      assert r == t by { assert ("\"" + r)[1..] == r && ("\"" + t)[1..] == t; }
    } else {
      ComesOut(p, g, y);
      Unquoted(r, g, y);
      SpaceRunOver(g, r[n..]);
    }
  }

  lemma Unquoted(r: string, g: string, y: string)
    requires y != "" && |r| > |g| && ("\"" + r)[..|g| + 2] == ("\"" + (g + y))[..|g| + 2]
    ensures r == g + r[|g|..] && r[|g|] == y[0]
  {
    var a, b := ("\"" + r)[..|g| + 2], ("\"" + (g + y))[..|g| + 2];
    forall i | 0 <= i < |g| ensures r[i] == g[i] {
      assert a[i + 1] == r[i] && b[i + 1] == g[i];
    }
    assert a[|g| + 1] == r[|g|] && b[|g| + 1] == y[0];
  }

  /** A pending quote, plain text after it and one more byte come out as they are. */
  lemma ComesOut(p: Pass, g: string, y: string)
    requires p.Valid() && '"' !in g && y != ""
    ensures var s := "\"" + (g + y); |g| + 2 <= |p.rw(s)| && p.rw(s)[..|g| + 2] == s[..|g| + 2]
  {
    var x := g + y;
    assert x[..|g|] == g;
    var q := QuotedRun(x, '"');
    if q.None? {
      StepOpen(p, x);
    } else if LeadsWithColon(x[q.value..]) {
      RunBeyond(x, |g|);
      TokenComesOut(p, x, q.value, |g| + 2);
    } else {
      StepString(p, x);
      CopyPlain(p, g, y);
      FirstByteStays(p, y);
      OneByteMore(g, p.rw(y), y);
    }
  }

  lemma OneByteMore(g: string, r: string, y: string)
    requires r != "" && y != "" && r[0] == y[0]
    ensures ("\"" + (g + r))[..|g| + 2] == ("\"" + (g + y))[..|g| + 2]
  {
  }

  // ----- A closed string -----

  /** A closed run is escaped content, the quote and the rest. */
  lemma {:induction false} RunParts(t: string)
    requires QuotedRun(t, '"').Some?
    ensures var q := QuotedRun(t, '"').value; 0 < q <= |t| && Escaped(t[..q - 1]) && t[q - 1] == '"'
    decreases |t|
  {
    if t[0] == '"' {
    } else if t[0] == '\\' {
      RunParts(t[2..]);
      var q := QuotedRun(t, '"').value;
      assert t[..q - 1][2..] == t[2..][..q - 3];
    } else {
      RunParts(t[1..]);
      var q := QuotedRun(t, '"').value;
      assert t[..q - 1][1..] == t[1..][..q - 2];
    }
  }

  /** A text that starts with a closed string, as its content and the rest. */
  lemma StringParts(s: string) returns (c: string, rest: string)
    requires s != "" && s[0] == '"' && QuotedRun(s[1..], '"').Some?
    ensures s == Quoted(c) + rest && Escaped(c)
  {
    RunParts(s[1..]);
    var q := QuotedRun(s[1..], '"').value;
    c, rest := s[1..q], s[q + 1..];
    assert s[1..][..q - 1] == c && s[1..][q - 1] == s[q];
  }

  // ----- One move -----

  /** Redacting again changes nothing. */
  ghost predicate Settles(p: Pass, s: string) { p.rw(p.rw(s)) == p.rw(s) }

  lemma PlainSettles(p: Pass, s: string)
    requires p.Valid() && s != "" && s[0] != '"' && Settles(p, s[1..])
    ensures Settles(p, s)
  {
    assert s == s[..1] + s[1..];
    StepPlain(p, s[..1], s[1..]);
    StepPlain(p, s[..1], p.rw(s[1..]));
  }

  /** A string that is no key. */
  lemma StringSettles(p: Pass, c: string, rest: string)
    requires p.Valid() && Escaped(c) && !LeadsWithColon(rest) && Settles(p, "\"" + rest)
    ensures Settles(p, Quoted(c) + rest)
  {
    OpenString(p, c, rest);
    FirstQuote(p, rest);
    var out := p.rw("\"" + rest);
    var r := out[1..];
    assert out == "\"" + r;
    ColonStaysBehindQuote(p, rest, r);
    OpenString(p, c, r);
    Requoted(c, r);
  }

  lemma Requoted(c: string, r: string)
    ensures "\"" + c + ("\"" + r) == Quoted(c) + r
  {
  }

  // ----- Keys -----

  /** What follows a key: white space, the colon, white space, and the value. */
  function Led(a: string, b: string, y: string): string { a + (":" + (b + y)) }

  lemma LeadOf(a: string, b: string, y: string)
    requires Blank(a) && Blank(b) && (y == "" || !IsSpace(y[0]))
    ensures LeadsWithColon(Led(a, b, y)) && FieldStart(Led(a, b, y)) == |a| + 1 + |b|
    ensures Led(a, b, y)[|a| + 1 + |b|..] == y
  {
    var t := Led(a, b, y);
    SpaceRunOver(a, ":" + (b + y));
    SpaceRunOver(b, y);
    assert t[|a| + 1..] == b + y;
  }

  lemma LeadParts(rest: string) returns (a: string, b: string, y: string)
    requires LeadsWithColon(rest)
    ensures rest == Led(a, b, y) && Blank(a) && Blank(b) && (y == "" || !IsSpace(y[0]))
    ensures y == rest[FieldStart(rest)..]
  {
    var n := SpaceRun(rest);
    var z := rest[n + 1..];
    a := rest[..n];
    SpaceIsBlank(rest);
    Around(rest, n);
    b, y := BlankParts(z);
    LeadOf(a, b, y);
  }

  lemma Around(s: string, n: nat)
    requires n < |s| && s[n] == ':'
    ensures s == s[..n] + (":" + s[n + 1..])
  {
  }

  lemma BlankParts(z: string) returns (b: string, y: string)
    ensures z == b + y && Blank(b) && (y == "" || !IsSpace(y[0]))
  {
    b, y := z[..SpaceRun(z)], z[SpaceRun(z)..];
    SpaceIsBlank(z);
    SpaceRunEnds(z);
  }

  lemma LedStays(p: Pass, a: string, b: string, y: string)
    requires p.Valid() && Blank(a) && Blank(b)
    ensures p.rw(Led(a, b, y)) == Led(a, b, p.rw(y))
  {
    CopyPlain(p, a, ":" + (b + y));
    CopyPlain(p, ":", b + y);
    CopyPlain(p, b, y);
  }

  lemma StartStays(p: Pass, y: string)
    requires p.Valid() && (y == "" || !IsSpace(y[0]))
    ensures p.rw(y) == "" || !IsSpace(p.rw(y)[0])
    ensures ValueRun(y).None? ==> ValueRun(p.rw(y)).None?
  {
    if y != "" {
      FirstByteStays(p, y);
    }
  }

  /** A key that stays, and its value with it. */
  lemma KeySettles(p: Pass, c: string, a: string, b: string, y: string)
    requires p.Valid() && Escaped(c) && Blank(a) && Blank(b) && (y == "" || !IsSpace(y[0]))
    requires Settles(p, Led(a, b, y)) && (!p.policy.hides(Quoted(c)) || ValueRun(y).None?)
    ensures Settles(p, Quoted(c) + Led(a, b, y))
  {
    LedStays(p, a, b, y);
    StartStays(p, y);
    LeadOf(a, b, y);
    LeadOf(a, b, p.rw(y));
    if p.policy.hides(Quoted(c)) {
      KeyCopied(p, c, Led(a, b, y));
      KeyCopied(p, c, Led(a, b, p.rw(y)));
    } else {
      StepKey(p, c, Led(a, b, y));
      StepKey(p, c, Led(a, b, p.rw(y)));
    }
  }

  /** A hidden key with a value: the value is cut. */
  lemma CutAt(p: Pass, c: string, a: string, b: string, value: string, after: string)
    requires p.Valid() && Escaped(c) && p.policy.hides(Quoted(c)) && Blank(a) && Blank(b)
    requires value != "" && !IsSpace(value[0]) && ValueRun(value + after) == Some(|value|)
    ensures p.rw(Quoted(c) + Led(a, b, value + after)) == Quoted(c) + Led(a, b, p.policy.Marker() + p.rw(after))
  {
    var y := value + after;
    var s, head := Quoted(c) + Led(a, b, y), Quoted(c) + Led(a, b, "");
    LeadOf(a, b, y);
    CutMove(p, c, Led(a, b, y), y, |a| + 1 + |b|, |value|, s);
    Headed(Quoted(c), a, b, value + after);
    StepCutText(p, head, value, after, s);
    Headed(Quoted(c), a, b, p.policy.Marker() + p.rw(after));
  }

  lemma CutMove(p: Pass, c: string, rest: string, y: string, n: nat, k: nat, s: string)
    requires p.Valid() && Escaped(c) && p.policy.hides(Quoted(c)) && s == Quoted(c) + rest
    requires LeadsWithColon(rest) && FieldStart(rest) == n && rest[n..] == y && ValueRun(y) == Some(k)
    ensures p.scan(s) == Cut(|c| + 2 + n, k)
  {
    KeyAt(p, c, rest, s);
  }

  lemma Headed(q: string, a: string, b: string, y: string)
    ensures q + Led(a, b, y) == (q + Led(a, b, "")) + y && |q + Led(a, b, "")| == |q| + |a| + 1 + |b|
  {
    assert Led(a, b, y) == Led(a, b, "") + y;
    Associative(q, Led(a, b, ""), y);
  }

  /** A hidden key: its value becomes the marker, and the marker is cut again. */
  lemma MarkerSettles(p: Pass, c: string, a: string, b: string, value: string, after: string)
    requires p.Valid() && Escaped(c) && Escaped(p.policy.notice) && p.policy.hides(Quoted(c)) && Blank(a) && Blank(b)
    requires value != "" && !IsSpace(value[0]) && ValueRun(value + after) == Some(|value|) && Settles(p, after)
    ensures Settles(p, Quoted(c) + Led(a, b, value + after))
  {
    CutAt(p, c, a, b, value, after);
    ValueEndsAtBoundary(value + after);
    assert (value + after)[|value|..] == after;
    BoundaryStays(p, after);
    TextLength(p.policy.notice, p.rw(after));
    CutAt(p, c, a, b, p.policy.Marker(), p.rw(after));
  }

  // ----- Every text -----

  lemma {:induction false} EverySettles(p: Pass, s: string)
    requires p.Valid() && Escaped(p.policy.notice)
    ensures Settles(p, s)
    decreases |s|, 1
  {
    if s == "" {
    } else if s[0] != '"' {
      EverySettles(p, s[1..]);
      PlainSettles(p, s);
    } else if QuotedRun(s[1..], '"').None? {
      StepOpen(p, s[1..]);
      assert s == "\"" + s[1..];
    } else {
      var c, rest := StringParts(s);
      if !LeadsWithColon(rest) {
        EverySettles(p, "\"" + rest);
        StringSettles(p, c, rest);
      } else {
        var a, b, y := LeadParts(rest);
        KeyTextSettles(p, c, a, b, y);
      }
    }
  }

  lemma {:induction false} KeyTextSettles(p: Pass, c: string, a: string, b: string, y: string)
    requires p.Valid() && Escaped(p.policy.notice) && Escaped(c) && Blank(a) && Blank(b) && (y == "" || !IsSpace(y[0]))
    ensures Settles(p, Quoted(c) + Led(a, b, y))
    decreases |Quoted(c) + Led(a, b, y)|, 0
  {
    var run := ValueRun(y);
    if p.policy.hides(Quoted(c)) && run.Some? {
      var value, after := y[..run.value], y[run.value..];
      assert y == value + after;
      EverySettles(p, after);
      MarkerSettles(p, c, a, b, value, after);
    } else {
      EverySettles(p, Led(a, b, y));
      KeySettles(p, c, a, b, y);
    }
  }

  /** For arbitrary bytes: redacting a second time changes nothing. */
  lemma RedactionIsIdempotent(policy: Policy, s: string)
    requires Escaped(policy.notice)
    ensures Redacted(policy, Redacted(policy, s)) == Redacted(policy, s)
  {
    ScanIsPass(policy);
    EverySettles(ScanPass(policy), s);
  }
}
