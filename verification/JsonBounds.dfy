/** In arbitrary bytes, what is redacted after a sensitive key goes up to a boundary. */
module JsonBounds {
  import opened JsonText
  import opened Wrappers

  lemma DropTwice(s: string, i: nat, j: nat)
    requires i + j <= |s|
    ensures s[i..][j..] == s[i + j..]
  {
  }

  /** Nothing but white space stands before a delimiter or the end. */
  predicate AtBoundary(s: string) {
    var n := SpaceRun(s);
    n == |s| || IsDelimiter(s[n])
  }

  lemma {:induction false} JunkEndsAtBoundary(s: string)
    ensures AtBoundary(s[JunkRun(s)..])
    decreases |s|
  {
    if s != "" && !IsDelimiter(s[0]) {
      var q := if IsQuote(s[0]) then QuotedRun(s[1..], s[0]) else Some(0);
      if q.Some? {
        var n := 1 + q.value;
        JunkEndsAtBoundary(s[n..]);
        DropTwice(s, n, JunkRun(s[n..]));
      }
    }
  }

  lemma TrailEndsAtBoundary(s: string)
    ensures AtBoundary(s[TrailRun(s)..])
  {
    var n := SpaceRun(s);
    if n < |s| && !IsDelimiter(s[n]) {
      JunkEndsAtBoundary(s[n..]);
      DropTwice(s, n, JunkRun(s[n..]));
    } else {
      assert s[0..] == s;
    }
  }

  lemma {:induction false} ScalarEndsAtBoundary(s: string)
    ensures AtBoundary(s[ScalarRun(s)..])
  {
    if s != "" && !IsDelimiter(s[0]) {
      ScalarEndsAtBoundary(s[1..]);
      DropTwice(s, 1, ScalarRun(s[1..]));
    }
  }

  /** So does a value closed after n bytes, with what it takes along. */
  lemma ClosedEndsAtBoundary(s: string, n: nat)
    requires n <= |s|
    ensures AtBoundary(s[n + TrailRun(s[n..])..])
  {
    TrailEndsAtBoundary(s[n..]);
    DropTwice(s, n, TrailRun(s[n..]));
  }

  /** What closes the string or composite at the start of s. */
  function ClosedRun(s: string): (r: Option<nat>)
    requires s != ""
    ensures r.Some? ==> r.value < |s|
  {
    if IsQuote(s[0]) then QuotedRun(s[1..], s[0])
    else BracketRun(s[1..], [if s[0] == '[' then ']' else '}'])
  }

  /** However malformed the text, a value ends before a delimiter or at the very end. */
  lemma ValueEndsAtBoundary(s: string)
    requires ValueRun(s).Some?
    ensures AtBoundary(s[ValueRun(s).value..])
  {
    if IsQuote(s[0]) || s[0] == '{' || s[0] == '[' {
      var q := ClosedRun(s);
      if q.Some? {
        ClosedEndsAtBoundary(s, 1 + q.value);
      } else {
        assert s[|s|..] == "";
      }
    } else {
      ScalarEndsAtBoundary(s);
    }
  }

  /** Every interval ends where the text from there on satisfies `ends`. */
  ghost predicate Bounded(ends: string -> bool, s: string, cuts: Cuts)
    requires cuts.Fit(|s|)
    decreases cuts
  {
    cuts.NextCut? ==>
      var rest := s[cuts.skip + cuts.cut..];
      ends(rest) && Bounded(ends, rest, cuts.rest)
  }

  lemma BoundedLater(ends: string -> bool, s: string, cuts: Cuts, n: nat)
    requires n <= |s| && cuts.Fit(|s| - n) && Bounded(ends, s[n..], cuts)
    ensures cuts.Later(n).Fit(|s|) && Bounded(ends, s, cuts.Later(n))
  {
    if cuts.NextCut? {
      DropTwice(s, n, cuts.skip + cuts.cut);
    }
  }

  /** A cut at the start of s ends well. */
  ghost predicate CutEnds(ends: string -> bool, m: Move, s: string) {
    m.Cut? && m.Within(|s|) ==> ends(s[m.skip + m.cut..])
  }

  lemma {:induction false} BoundedByScan(ends: string -> bool, scan: Scan, s: string)
    requires InRange(scan) && forall t :: CutEnds(ends, scan(t), t)
    ensures CutsOf(scan, s).Fit(|s|) && Bounded(ends, s, CutsOf(scan, s))
    decreases |s|
  {
    if s == "" {
    } else {
      assert CutEnds(ends, scan(s), s) && scan(s).Within(|s|);
      match scan(s)
      case Copy(n) =>
        BoundedByScan(ends, scan, s[n..]);
        BoundedLater(ends, s, CutsOf(scan, s[n..]), n);
      case Halt =>
      case Cut(n, k) =>
        BoundedByScan(ends, scan, s[n + k..]);
    }
  }

  lemma KeyCutEnds(hides: string -> bool, token: string, rest: string)
    requires token != "" && KeyMove(hides, token, rest).Cut?
    ensures var m := KeyMove(hides, token, rest);
      |token| <= m.skip && AtBoundary(rest[m.skip - |token| + m.cut..])
  {
    var start := FieldStart(rest);
    ValueEndsAtBoundary(rest[start..]);
    DropTwice(rest, start, ValueRun(rest[start..]).value);
  }

  /** The key and the rest that a cut at the start of s is about. */
  lemma CutIsKeyMove(hides: string -> bool, s: string) returns (n: nat)
    requires NextMove(hides, s).Cut?
    ensures 0 < n <= |s| && NextMove(hides, s) == KeyMove(hides, s[..n], s[n..])
  {
    n := 1 + QuotedRun(s[1..], '"').value;
  }

  lemma MoveEnds(ends: string -> bool, s: string, n: nat, m: Move)
    requires m.Cut? && n <= m.skip && m.skip + m.cut <= |s| && ends(s[n..][m.skip - n + m.cut..])
    ensures CutEnds(ends, m, s)
  {
    DropTwice(s, n, m.skip - n + m.cut);
  }

  lemma FieldCutEnds(hides: string -> bool, s: string)
    ensures CutEnds(AtBoundary, NextMove(hides, s), s)
  {
    if NextMove(hides, s).Cut? {
      var n := CutIsKeyMove(hides, s);
      KeyMoveEnds(hides, s, s[..n], s[n..], n);
    }
  }

  lemma KeyMoveEnds(hides: string -> bool, s: string, token: string, rest: string, n: nat)
    requires 0 < n == |token| <= |s| && rest == s[n..] && KeyMove(hides, token, rest).Cut?
    ensures CutEnds(AtBoundary, KeyMove(hides, token, rest), s)
  {
    KeyCutEnds(hides, token, rest);
    MoveEnds(AtBoundary, s, n, KeyMove(hides, token, rest));
  }

  /** For every text, well-formed or not: what is cut after a sensitive key goes up to a
      delimiter or the end, so no rest of a value is left behind a first closing token. */
  lemma NothingTrails(policy: Policy, s: string)
    ensures var cuts := CutsOf(FieldScan(policy.hides), s); cuts.Fit(|s|) && Bounded(AtBoundary, s, cuts)
  {
    var scan := FieldScan(policy.hides);
    forall t ensures CutEnds(AtBoundary, scan(t), t) {
      FieldCutEnds(policy.hides, t);
    }
    BoundedByScan(AtBoundary, scan, s);
  }
}
