/** The redaction of sensitive fields in raw error bodies, stated on suffixes of the
    text: what each scanner computes when it is handed everything from its start
    position on. The scanners themselves, with their indices and cursors, are in
    module JsonScanner and are proved to compute these functions. */
module JsonText {
  import opened Wrappers

  /** Which fields are redacted, and what their values become. `hides` says of a quoted
      key, quotes included, whether its value must go. */
  datatype Policy = Policy(hides: string -> bool, notice: string) {
    function Marker(): string { "\"" + notice + "\"" }
  }

  predicate IsSpace(c: char) {
    c == ' ' || c == '\t' || c == '\r' || c == '\n'
  }

  /** The bytes that end a value inside an object or an array. */
  predicate IsDelimiter(c: char) {
    c == ',' || c == '}' || c == ']'
  }

  predicate IsQuote(c: char) {
    c == '"' || c == '\''
  }

  /** The length of the run of white space at the start of s. */
  function SpaceRun(s: string): (n: nat)
    ensures n <= |s|
  {
    if s == "" || !IsSpace(s[0]) then 0 else 1 + SpaceRun(s[1..])
  }

  /** Is the first byte of s that is not white space a colon? */
  predicate LeadsWithColon(s: string) {
    var n := SpaceRun(s);
    n < |s| && s[n] == ':'
  }

  function Shift(n: nat, r: Option<nat>): Option<nat> {
    if r.Some? then Some(n + r.value) else None
  }

  /** For s just after an opening quote q: the number of bytes up to and including the
      closing one, a backslash taking the byte after it along; None if unclosed. */
  function QuotedRun(s: string, q: char): (r: Option<nat>)
    ensures r.Some? ==> 0 < r.value <= |s|
    decreases |s|
  {
    if s == "" then None
    else if s[0] == '\\' then
      if |s| == 1 then None else Shift(2, QuotedRun(s[2..], q))
    else if s[0] == q then Some(1)
    else Shift(1, QuotedRun(s[1..], q))
  }

  /** For s inside an open composite, `stack` the closing brackets still owed (the
      innermost last): the number of bytes that close it; None if nothing does. */
  function BracketRun(s: string, stack: seq<char>): (r: Option<nat>)
    requires stack != []
    ensures r.Some? ==> 0 < r.value <= |s|
    decreases |s|
  {
    if s == "" then None
    else if IsQuote(s[0]) then
      var q := QuotedRun(s[1..], s[0]);
      if q.None? then None else Shift(1 + q.value, BracketRun(s[1 + q.value..], stack))
    else if s[0] == '{' then Shift(1, BracketRun(s[1..], stack + ['}']))
    else if s[0] == '[' then Shift(1, BracketRun(s[1..], stack + [']']))
    else if s[0] == '}' || s[0] == ']' then
      if s[0] != stack[|stack| - 1] then None
      else if |stack| == 1 then Some(1)
      else Shift(1, BracketRun(s[1..], stack[..|stack| - 1]))
    else Shift(1, BracketRun(s[1..], stack))
  }

  /** The bytes of s before the first delimiter that is not inside quotes; all of s when
      a quoted string is left open. */
  function JunkRun(s: string): (n: nat)
    ensures n <= |s|
    decreases |s|
  {
    if s == "" || IsDelimiter(s[0]) then 0
    else if IsQuote(s[0]) then
      var q := QuotedRun(s[1..], s[0]);
      if q.None? then |s| else 1 + q.value + JunkRun(s[1 + q.value..])
    else 1 + JunkRun(s[1..])
  }

  /** For s just after a closed value: the further bytes the value takes along, none
      when only white space separates it from a delimiter or from the end. */
  function TrailRun(s: string): (n: nat)
    ensures n <= |s|
  {
    var n := SpaceRun(s);
    if n == |s| || IsDelimiter(s[n]) then 0 else n + JunkRun(s[n..])
  }

  /** The bytes of s before the first delimiter. */
  function ScalarRun(s: string): (n: nat)
    ensures n <= |s|
  {
    if s == "" || IsDelimiter(s[0]) then 0 else 1 + ScalarRun(s[1..])
  }

  /** The length of the value at the start of s; None when there is no value. */
  function ValueRun(s: string): (r: Option<nat>)
    ensures r.Some? ==> 0 < r.value <= |s|
  {
    if s == "" then None
    else if IsQuote(s[0]) then
      var q := QuotedRun(s[1..], s[0]);
      if q.None? then Some(|s|) else Some(1 + q.value + TrailRun(s[1 + q.value..]))
    else if s[0] == '{' || s[0] == '[' then
      var q := BracketRun(s[1..], [if s[0] == '[' then ']' else '}']);
      if q.None? then Some(|s|) else Some(1 + q.value + TrailRun(s[1 + q.value..]))
    else if IsDelimiter(s[0]) || IsSpace(s[0]) then None
    else Some(ScalarRun(s))
  }

  /** What the scan meets at the start of s: nothing to act on for `skip` bytes; an
      unclosed quote, which ends the scan; or a key whose value, `cut` bytes starting
      `skip` bytes in, must go. */
  datatype Move = Copy(skip: nat) | Halt | Cut(skip: nat, cut: nat) {
    predicate Within(n: nat) {
      match this
      case Copy(skip) => 0 < skip <= n
      case Halt => true
      case Cut(skip, cut) => 0 < cut && skip + cut <= n
    }
  }

  type Scan = string -> Move

  ghost predicate InRange(scan: Scan) {
    forall s :: s != "" ==> scan(s).Within(|s|)
  }

  /** s with `mark` in place of everything the scan cuts. */
  function Rewritten(scan: Scan, mark: string, s: string): string
    requires InRange(scan)
    decreases |s|
  {
    if s == "" then "" else
    match scan(s)
    case Copy(n) => s[..n] + Rewritten(scan, mark, s[n..])
    case Halt => s
    case Cut(n, k) => s[..n] + mark + Rewritten(scan, mark, s[n + k..])
  }

  /** The move at the start of s. */
  function NextMove(hides: string -> bool, s: string): (m: Move)
    ensures s != "" ==> m.Within(|s|)
  {
    if s == "" then Halt
    else if s[0] != '"' then Copy(1) else
    var q := QuotedRun(s[1..], '"');
    if q.None? then Halt else
    KeyMove(hides, s[..1 + q.value], s[1 + q.value..])
  }

  /** The move at a closed string `token` that `rest` follows. */
  function KeyMove(hides: string -> bool, token: string, rest: string): (m: Move)
    requires token != ""
    ensures m.Within(|token| + |rest|)
  {
    if !LeadsWithColon(rest) then Copy(1)
    else if !hides(token) then Copy(|token|) else
    var start := FieldStart(rest);
    var value := ValueRun(rest[start..]);
    if value.None? then Copy(|token|) else Cut(|token| + start, value.value)
  }

  /** Where the value begins in what follows a key. */
  function FieldStart(rest: string): (n: nat)
    requires LeadsWithColon(rest)
    ensures 0 < n <= |rest|
  {
    var colon := SpaceRun(rest);
    colon + 1 + SpaceRun(rest[colon + 1..])
  }

  function FieldScan(hides: string -> bool): (scan: Scan)
    ensures InRange(scan)
  {
    s => NextMove(hides, s)
  }

  /** The text with the values of hidden keys redacted. */
  function Redacted(policy: Policy, s: string): string {
    Rewritten(FieldScan(policy.hides), policy.Marker(), s)
  }

  // ----- Arbitrary bytes: only disjoint intervals are replaced, in order -----

  /** Intervals of a text, each given by its distance from the end of the one before
      and its length: they ascend and cannot overlap. */
  datatype Cuts = NoCuts | NextCut(skip: nat, cut: nat, rest: Cuts) {

    /** The intervals are nonempty and lie inside a text of length n. */
    predicate Fit(n: nat) {
      NextCut? ==> 0 < cut && skip + cut <= n && rest.Fit(n - skip - cut)
    }

    function Later(n: nat): Cuts {
      if NoCuts? then NoCuts else NextCut(n + skip, cut, rest)
    }
  }

  /** The intervals of s that the scan cuts. */
  function CutsOf(scan: Scan, s: string): Cuts
    requires InRange(scan)
    decreases |s|
  {
    if s == "" then NoCuts else
    match scan(s)
    case Copy(n) => CutsOf(scan, s[n..]).Later(n)
    case Halt => NoCuts
    case Cut(n, k) => NextCut(n, k, CutsOf(scan, s[n + k..]))
  }

  /** s with `mark` in place of each interval, and everything else unchanged. */
  function Spliced(s: string, mark: string, cuts: Cuts): string
    requires cuts.Fit(|s|)
    decreases cuts
  {
    if cuts.NoCuts? then s
    else s[..cuts.skip] + mark + Spliced(s[cuts.skip + cuts.cut..], mark, cuts.rest)
  }

  lemma {:induction false} SplicedLater(s: string, mark: string, cuts: Cuts, n: nat)
    requires n <= |s| && cuts.Fit(|s| - n)
    ensures cuts.Later(n).Fit(|s|)
    ensures Spliced(s, mark, cuts.Later(n)) == s[..n] + Spliced(s[n..], mark, cuts)
  {
    if cuts.NoCuts? {
      assert s == s[..n] + s[n..];
    } else {
      var rest := Spliced(s[n..][cuts.skip + cuts.cut..], mark, cuts.rest);
      assert s[n..][cuts.skip + cuts.cut..] == s[n + cuts.skip + cuts.cut..];
      assert s[..n + cuts.skip] == s[..n] + s[n..][..cuts.skip];
      Regroup(s[..n], s[n..][..cuts.skip], mark, rest);
    }
  }

  lemma Regroup(a: string, b: string, c: string, d: string)
    ensures a + b + c + d == a + (b + c + d)
  {
  }

  lemma CopyRewrites(scan: Scan, mark: string, s: string, n: nat)
    requires InRange(scan) && s != "" && scan(s) == Copy(n)
    ensures 0 < n <= |s| && CutsOf(scan, s) == CutsOf(scan, s[n..]).Later(n)
    ensures Rewritten(scan, mark, s) == s[..n] + Rewritten(scan, mark, s[n..])
  {
    assert scan(s).Within(|s|);
  }

  lemma CutRewrites(scan: Scan, mark: string, s: string, n: nat, k: nat)
    requires InRange(scan) && s != "" && scan(s) == Cut(n, k)
    ensures 0 < k && n + k <= |s| && CutsOf(scan, s) == NextCut(n, k, CutsOf(scan, s[n + k..]))
    ensures Rewritten(scan, mark, s) == s[..n] + mark + Rewritten(scan, mark, s[n + k..])
  {
    assert scan(s).Within(|s|);
  }

  ghost predicate Splices(scan: Scan, mark: string, s: string)
    requires InRange(scan)
  {
    CutsOf(scan, s).Fit(|s|) && Rewritten(scan, mark, s) == Spliced(s, mark, CutsOf(scan, s))
  }

  lemma CopySplices(scan: Scan, mark: string, s: string, n: nat)
    requires InRange(scan) && s != "" && scan(s) == Copy(n) && n <= |s| && Splices(scan, mark, s[n..])
    ensures Splices(scan, mark, s)
  {
    CopyRewrites(scan, mark, s, n);
    SplicedLater(s, mark, CutsOf(scan, s[n..]), n);
  }

  lemma CutSplices(scan: Scan, mark: string, s: string, n: nat, k: nat)
    requires InRange(scan) && s != "" && scan(s) == Cut(n, k) && n + k <= |s| && Splices(scan, mark, s[n + k..])
    ensures Splices(scan, mark, s)
  {
    CutRewrites(scan, mark, s, n, k);
    SplicedNext(s, mark, n, k, CutsOf(scan, s[n + k..]), CutsOf(scan, s));
  }

  lemma SplicedNext(s: string, mark: string, n: nat, k: nat, rest: Cuts, cuts: Cuts)
    requires 0 < k && n + k <= |s| && rest.Fit(|s| - n - k) && cuts == NextCut(n, k, rest)
    ensures cuts.Fit(|s|) && Spliced(s, mark, cuts) == s[..n] + mark + Spliced(s[n + k..], mark, rest)
  {
  }

  lemma HaltSplices(scan: Scan, mark: string, s: string)
    requires InRange(scan) && (s == "" || scan(s) == Halt)
    ensures Splices(scan, mark, s)
  {
  }

  lemma {:induction false} RewritingSplices(scan: Scan, mark: string, s: string)
    requires InRange(scan)
    ensures Splices(scan, mark, s)
    decreases |s|
  {
    if s == "" {
      HaltSplices(scan, mark, s);
    } else {
      assert scan(s).Within(|s|);
      match scan(s)
      case Copy(n) =>
        RewritingSplices(scan, mark, s[n..]);
        CopySplices(scan, mark, s, n);
      case Halt =>
        HaltSplices(scan, mark, s);
      case Cut(n, k) =>
        RewritingSplices(scan, mark, s[n + k..]);
        CutSplices(scan, mark, s, n, k);
    }
  }

  /** For every text: the replaced intervals lie inside it and are nonempty, ascending
      and disjoint, and everything outside them is copied unchanged and in order. */
  lemma RedactionIsSplicing(policy: Policy, s: string)
    ensures CutsOf(FieldScan(policy.hides), s).Fit(|s|)
    ensures Redacted(policy, s) == Spliced(s, policy.Marker(), CutsOf(FieldScan(policy.hides), s))
  {
    RewritingSplices(FieldScan(policy.hides), policy.Marker(), s);
  }

  // ----- The moves of the scan -----

  /** Lemmas about the pass speak of any function that rewrites text move by move, and of the
      scan that picks the moves, and use nothing of either but single steps. */
  datatype Pass = Pass(rw: string -> string, scan: Scan, policy: Policy) {

    ghost predicate Moves(s: string) { scan(s) == NextMove(policy.hides, s) }

    ghost predicate Takes(s: string) {
      s != "" ==>
        match scan(s)
        case Copy(n) => n <= |s| && rw(s) == s[..n] + rw(s[n..])
        case Halt => rw(s) == s
        case Cut(n, k) => n + k <= |s| && rw(s) == s[..n] + policy.Marker() + rw(s[n + k..])
    }

    ghost predicate Gives(s: string) { rw(s) == Redacted(policy, s) }

    ghost predicate Valid() {
      && rw("") == ""
      && (forall s :: Moves(s))
      && (forall s :: Takes(s))
    }
  }

  lemma StepCut(p: Pass, s: string, n: nat, k: nat)
    requires p.Valid() && s != "" && p.scan(s) == Cut(n, k)
    ensures n + k <= |s|
    ensures p.rw(s) == s[..n] + p.policy.Marker() + p.rw(s[n + k..])
  {
    assert p.Takes(s);
  }

  lemma {:induction false} RewritingTakes(p: Pass, s: string)
    requires InRange(p.scan) && p.rw == (x => Rewritten(p.scan, p.policy.Marker(), x))
    ensures p.Takes(s)
  {
    assert s != "" ==> p.scan(s).Within(|s|);
  }

  lemma {:induction false} RewritingMoves(p: Pass, s: string)
    requires p.scan == FieldScan(p.policy.hides)
    ensures p.Moves(s)
  {
  }

  lemma {:induction false} RewritingIsPass(p: Pass)
    requires InRange(p.scan) && p.rw == (x => Rewritten(p.scan, p.policy.Marker(), x))
    requires forall s :: p.Moves(s)
    ensures p.Valid()
  {
    forall s ensures p.Takes(s) {
      RewritingTakes(p, s);
    }
  }

  function ScanPass(policy: Policy): Pass {
    Pass(x => Rewritten(FieldScan(policy.hides), policy.Marker(), x), FieldScan(policy.hides), policy)
  }

  lemma {:induction false} ScanIsPass(policy: Policy)
    ensures ScanPass(policy).Valid()
  {
    var p := ScanPass(policy);
    forall s ensures p.Moves(s) {
      RewritingMoves(p, s);
    }
    RewritingIsPass(p);
  }

  /** The pass, by its single steps only. */
  lemma PickPass(policy: Policy) returns (p: Pass)
    ensures p.Valid() && p.policy == policy
    ensures forall s :: p.Gives(s)
  {
    p := ScanPass(policy);
    ScanIsPass(policy);
  }
}
