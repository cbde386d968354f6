/** The index and cursor scanners over raw bytes, each proved to compute the suffix
    function of module JsonText. A byte is a char here: what holds of every string of
    chars holds of every byte string. */
module JsonScanner {
  import opened JsonText
  import opened JsonTree
  import opened JsonMembers
  import opened Wrappers

  /** Past the closing quote of the string that opens at `start`. */
  method QuotedStringEnd(b: string, start: nat, quote: char) returns (end: nat, complete: bool)
    requires IsQuote(quote)
    ensures (start >= |b| || b[start] != quote) ==> end == start && !complete
    ensures start < |b| && b[start] == quote ==>
      QuotedRun(b[start + 1..], quote) == if complete then Some(end - start - 1) else None
    ensures start < |b| && b[start] == quote && !complete ==> end == |b|
    ensures start <= end && (start < |b| ==> end <= |b|)
  {
    if start >= |b| || b[start] != quote {
      return start, false;
    }
    var i := start + 1;
    ghost var s := b[i..];
    ghost var total := QuotedRun(s, quote);
    while i < |b|
      invariant start < i <= |b| + 1
      invariant i <= |b| ==> s == b[i..] && total == Shift(i - start - 1, QuotedRun(s, quote))
      invariant i == |b| + 1 ==> total == None
    {
      Suffixes(b, i);
      if b[i] == '\\' {
        s := if i + 1 < |b| then s[2..] else "";
        i := i + 1;
      } else if b[i] == quote {
        return i + 1, true;
      } else {
        s := s[1..];
      }
      i := i + 1;
    }
    return |b|, false;
  }

  lemma Suffixes(b: string, i: nat)
    requires i < |b|
    ensures b[i..][0] == b[i] && b[i..][1..] == b[i + 1..]
    ensures i + 1 < |b| ==> b[i..][2..] == b[i + 2..]
  {
  }

  /** Past the white space that starts at `start`. */
  method SkipSpace(b: string, start: nat) returns (i: nat)
    requires start <= |b|
    ensures i == start + SpaceRun(b[start..])
  {
    i := start;
    ghost var s := b[i..];
    ghost var total := SpaceRun(s);
    while i < |b| && IsSpace(b[i])
      invariant start <= i <= |b| && s == b[i..]
      invariant total == i - start + SpaceRun(s)
    {
      s := s[1..];
      i := i + 1;
    }
  }

  /** Up to the first delimiter outside quotes, from `start` on. */
  method JunkEnd(b: string, start: nat) returns (boundary: nat)
    requires start <= |b|
    ensures boundary == start + JunkRun(b[start..])
  {
    boundary := start;
    ghost var s := b[start..];
    ghost var total := JunkRun(s);
    while boundary < |b|
      invariant start <= boundary <= |b| && s == b[boundary..]
      invariant total == boundary - start + JunkRun(s)
    {
      if IsQuote(b[boundary]) {
        var quotedEnd, complete := QuotedStringEnd(b, boundary, b[boundary]);
        assert s[1..] == b[boundary + 1..];
        if !complete {
          return |b|;
        }
        s := s[quotedEnd - boundary..];
        boundary := quotedEnd;
      } else if IsDelimiter(b[boundary]) {
        return;
      } else {
        s := s[1..];
        boundary := boundary + 1;
      }
    }
  }

  /** Past a closed value that ends at `end`, and whatever malformed text clings to it. */
  method ClosedValueEnd(b: string, end: nat) returns (r: nat)
    requires end <= |b|
    ensures r == end + TrailRun(b[end..])
  {
    var boundary := SkipSpace(b, end);
    assert b[end..][boundary - end..] == b[boundary..];
    if boundary == |b| || IsDelimiter(b[boundary]) {
      return end;
    }
    r := JunkEnd(b, boundary);
  }

  /** Past the bracket that closes the composite opened just before `start`. */
  method BracketEnd(b: string, start: nat, close: char) returns (end: nat, closed: bool)
    requires start <= |b|
    ensures BracketRun(b[start..], [close]) == if closed then Some(end - start) else None
    ensures start <= end <= |b|
  {
    var stack := [close];
    var i := start;
    ghost var total := BracketRun(b[start..], stack);
    while i < |b|
      invariant start <= i <= |b| && stack != []
      invariant total == Shift(i - start, BracketRun(b[i..], stack))
    {
      var next, outcome := 0, Goes;
      next, stack, outcome := BracketStep(b, i, stack);
      if outcome == Breaks {
        return |b|, false;
      } else if outcome == Closes {
        return next, true;
      }
      i := next;
    }
    return |b|, false;
  }

  /** What a step over a composite comes to: it goes on, closes it, or cannot. */
  datatype BracketOutcome = Goes | Closes | Breaks

  /** One step: a quoted string, a bracket or another byte. */
  method BracketStep(b: string, i: nat, stack: seq<char>) returns (next: nat, stack': seq<char>, outcome: BracketOutcome)
    requires i < |b| && stack != []
    ensures stack' != [] && i <= next <= |b|
    ensures outcome == Breaks ==> BracketRun(b[i..], stack).None?
    ensures outcome == Closes ==> BracketRun(b[i..], stack) == Some(next - i)
    ensures outcome == Goes ==> i < next && BracketRun(b[i..], stack) == Shift(next - i, BracketRun(b[next..], stack'))
  {
    ghost var s := b[i..];
    assert s[0] == b[i] && s[1..] == b[i + 1..];
    next, stack', outcome := i + 1, stack, Goes;
    if IsQuote(b[i]) {
      var quotedEnd, complete := QuotedStringEnd(b, i, b[i]);
      if !complete {
        return |b|, stack, Breaks;
      }
      OverQuoted(s, stack, quotedEnd - i);
      assert s[quotedEnd - i..] == b[quotedEnd..];
      return quotedEnd, stack, Goes;
    } else if b[i] == '{' {
      stack' := stack + ['}'];
    } else if b[i] == '[' {
      stack' := stack + [']'];
    } else if b[i] == '}' || b[i] == ']' {
      AtClosing(s, stack);
      if b[i] != stack[|stack| - 1] {
        return |b|, stack, Breaks;
      }
      if |stack| == 1 {
        return i + 1, stack, Closes;
      }
      stack' := stack[..|stack| - 1];
    }
    OverBracket(s, stack, stack');
  }

  lemma AtClosing(s: string, stack: seq<char>)
    requires s != "" && stack != [] && (s[0] == '}' || s[0] == ']')
    ensures s[0] != stack[|stack| - 1] ==> BracketRun(s, stack).None?
    ensures s[0] == stack[|stack| - 1] && |stack| == 1 ==> BracketRun(s, stack) == Some(1)
  {
  }

  lemma OverQuoted(s: string, stack: seq<char>, n: nat)
    requires s != "" && stack != [] && IsQuote(s[0]) && n > 0 && QuotedRun(s[1..], s[0]) == Some(n - 1)
    ensures n <= |s| && BracketRun(s, stack) == Shift(n, BracketRun(s[n..], stack))
  {
  }

  /** The stack after a byte that neither opens a string nor ends the composite. */
  ghost predicate Turns(c: char, stack: seq<char>, stack': seq<char>)
    requires stack != []
  {
    if c == '{' then stack' == stack + ['}']
    else if c == '[' then stack' == stack + [']']
    else if c == '}' || c == ']' then c == stack[|stack| - 1] && stack' == stack[..|stack| - 1]
    else stack' == stack
  }

  lemma OverBracket(s: string, stack: seq<char>, stack': seq<char>)
    requires s != "" && stack != [] && stack' != [] && !IsQuote(s[0]) && Turns(s[0], stack, stack')
    ensures BracketRun(s, stack) == Shift(1, BracketRun(s[1..], stack'))
  {
  }

  /** Up to the first delimiter, from `start` on. */
  method ScalarEnd(b: string, start: nat) returns (end: nat)
    requires start <= |b|
    ensures end == start + ScalarRun(b[start..])
  {
    end := start;
    ghost var s := b[start..];
    ghost var total := ScalarRun(s);
    while end < |b| && !IsDelimiter(b[end])
      invariant start <= end <= |b| && s == b[end..]
      invariant total == end - start + ScalarRun(s)
    {
      s := s[1..];
      end := end + 1;
    }
  }

  /** Past the value that starts at `start`, if there is one. */
  method ValueEnd(b: string, start: nat) returns (end: nat, present: bool)
    requires start <= |b|
    ensures ValueRun(b[start..]) == if present then Some(end - start) else None
    ensures start <= end && (!present ==> end == start)
  {
    if start >= |b| {
      return start, false;
    }
    if IsQuote(b[start]) {
      var quotedEnd, complete := QuotedStringEnd(b, start, b[start]);
      end := AfterClosed(b, start, quotedEnd, complete);
      return end, true;
    }
    if b[start] == '{' || b[start] == '[' {
      var bracketEnd, closed := BracketEnd(b, start + 1, if b[start] == '[' then ']' else '}');
      end := AfterClosed(b, start, bracketEnd, closed);
      return end, true;
    }
    if IsDelimiter(b[start]) || IsSpace(b[start]) {
      return start, false;
    }
    end := ScalarEnd(b, start);
    return end, true;
  }

  /** The end of a string or composite from `start`, closed at `close` or not at all. */
  method AfterClosed(b: string, start: nat, close: nat, closed: bool) returns (end: nat)
    requires start < close <= |b|
    requires IsQuote(b[start]) ==>
      QuotedRun(b[start + 1..], b[start]) == if closed then Some(close - start - 1) else None
    requires IsQuote(b[start]) || b[start] == '{' || b[start] == '['
    requires !IsQuote(b[start]) ==>
      BracketRun(b[start + 1..], [if b[start] == '[' then ']' else '}']) == if closed then Some(close - start - 1) else None
    ensures ValueRun(b[start..]) == Some(end - start) && start <= end
  {
    ghost var s := b[start..];
    assert s[1..] == b[start + 1..];
    if !closed {
      return |b|;
    }
    end := ClosedValueEnd(b, close);
    assert s[close - start..] == b[close..];
  }

  /** A key's value must go when its quoted form does not decode, or decodes to a
      sensitive name. */
  function HiddenKeys(decode: string -> Option<string>, sensitive: string -> bool): string -> bool {
    token => decode(token).None? || sensitive(decode(token).value)
  }

  const NOTICE := "[REDACTED]"

  /** Replaces the values of sensitive fields in one pass over the bytes, with a cursor
      for what is already copied. On a JSON document where no string starts with a colon
      right after a string that is no key, exactly the values of members whose key does not
      decode or decodes to a sensitive name are replaced. */
  method RedactSensitiveFields(b: string, decode: string -> Option<string>, sensitive: string -> bool) returns (out: string)
    ensures out == Redacted(Policy(HiddenKeys(decode, sensitive), NOTICE), b)
    ensures forall before, v, after ::
      Blank(before) && WellFormed(v) && Blank(after) && Unexposed(false, v) && b == before + Print(v) + after ==>
        CensoredText(decode, sensitive, before, v, after, out)
  {
    Documents(b, decode, sensitive);
    ghost var p := PickPass(Policy(HiddenKeys(decode, sensitive), NOTICE));
    assert p.Gives(b);
    out := Sweep(p, b, NOTICE, decode, sensitive);
  }

  lemma Documents(b: string, decode: string -> Option<string>, sensitive: string -> bool)
    ensures forall before, v, after ::
      Blank(before) && WellFormed(v) && Blank(after) && Unexposed(false, v) && b == before + Print(v) + after ==>
        CensoredText(decode, sensitive, before, v, after, Redacted(Policy(HiddenKeys(decode, sensitive), NOTICE), b))
  {
    var policy := Policy(HiddenKeys(decode, sensitive), NOTICE);
    forall before, v, after | Blank(before) && WellFormed(v) && Blank(after) && Unexposed(false, v) && b == before + Print(v) + after
      ensures CensoredText(decode, sensitive, before, v, after, Redacted(policy, b))
    {
      UnexposedIsCensored(policy, decode, sensitive, before, v, after);
    }
  }

  method Sweep(ghost p: Pass, b: string, notice: string, decode: string -> Option<string>, sensitive: string -> bool) returns (out: string)
    requires p.Valid() && p.policy == Policy(HiddenKeys(decode, sensitive), notice)
    ensures out == p.rw(b)
  {
    out := "";
    var cursor, i := 0, 0;
    assert b[0..0] == "" && b[0..] == b;
    while i < |b|
      invariant 0 <= cursor <= i <= |b|
      invariant out + b[cursor..i] + p.rw(b[i..]) == p.rw(b)
      decreases |b| - i
    {
      var step, cut, halt := NextStep(p, b, i, notice, decode, sensitive);
      if halt {
        Halted(p, b, i, cursor, out);
        break;
      }
      if cut > 0 {
        AfterCut(p, b, i, cursor, out, step, cut);
        out := out + b[cursor..i + step] + ("\"" + notice + "\"");
        cursor := i + step + cut;
        i := cursor;
      } else {
        AfterCopy(p, b, i, cursor, out, step);
        i := i + step;
      }
    }
    if i == |b| {
      assert b[i..] == "" && b[cursor..i] == b[cursor..];
    }
    out := out + b[cursor..];
  }

  /** What the scan does at position i: skip `step` bytes, then cut `cut`; or stop. */
  method NextStep(ghost p: Pass, b: string, i: nat, ghost notice: string, decode: string -> Option<string>, sensitive: string -> bool)
    returns (step: nat, cut: nat, halt: bool)
    requires i < |b| && p.Valid() && p.policy == Policy(HiddenKeys(decode, sensitive), notice)
    ensures halt ==> p.scan(b[i..]) == Halt
    ensures !halt ==> p.scan(b[i..]) == if cut > 0 then Cut(step, cut) else Copy(step)
  {
    assert p.Moves(b[i..]);
    assert b[i..][0] == b[i];
    if b[i] != '"' {
      return 1, 0, false;
    }
    assert b[i..][1..] == b[i + 1..];
    var keyEnd, complete := QuotedStringEnd(b, i, '"');
    if !complete {
      return 0, 0, true;
    }
    MoveAt(p.policy.hides, b, i, keyEnd);
    step, cut := KeyStep(b, i, keyEnd, decode, sensitive);
    return step, cut, false;
  }

  /** The same for a closed string from i to keyEnd. */
  method KeyStep(b: string, i: nat, keyEnd: nat, decode: string -> Option<string>, sensitive: string -> bool)
    returns (step: nat, cut: nat)
    requires i < keyEnd <= |b|
    ensures KeyMove(HiddenKeys(decode, sensitive), b[i..keyEnd], b[keyEnd..]) == if cut > 0 then Cut(step, cut) else Copy(step)
  {
    ghost var hides, token, rest := HiddenKeys(decode, sensitive), b[i..keyEnd], b[keyEnd..];
    var colon := SkipSpace(b, keyEnd);
    if colon >= |b| || b[colon] != ':' {
      assert !LeadsWithColon(rest);
      return 1, 0;
    }
    assert LeadsWithColon(rest);
    var key := decode(b[i..keyEnd]);
    assert hides(token) == (key.None? || sensitive(key.value));
    if key.Some? && !sensitive(key.value) {
      return keyEnd - i, 0;
    }
    var valueStart, valueEnd, present := FieldValue(b, keyEnd, colon);
    HiddenKeyMove(hides, token, rest, valueStart - keyEnd, if present then Some(valueEnd - valueStart) else None);
    if !present {
      return keyEnd - i, 0;
    }
    return valueStart - i, valueEnd - valueStart;
  }

  lemma HiddenKeyMove(hides: string -> bool, token: string, rest: string, start: nat, value: Option<nat>)
    requires token != "" && LeadsWithColon(rest) && hides(token)
    requires FieldStart(rest) == start && ValueRun(rest[start..]) == value
    ensures KeyMove(hides, token, rest) == if value.None? then Copy(|token|) else Cut(|token| + start, value.value)
  {
  }

  /** Where the value after a key's colon starts and ends. */
  method FieldValue(b: string, keyEnd: nat, colon: nat) returns (valueStart: nat, valueEnd: nat, present: bool)
    requires keyEnd <= |b| && LeadsWithColon(b[keyEnd..]) && colon == keyEnd + SpaceRun(b[keyEnd..])
    ensures valueStart == keyEnd + FieldStart(b[keyEnd..])
    ensures ValueRun(b[keyEnd..][valueStart - keyEnd..]) == if present then Some(valueEnd - valueStart) else None
  {
    ghost var rest := b[keyEnd..];
    valueStart := SkipSpace(b, colon + 1);
    assert rest[colon + 1 - keyEnd..] == b[colon + 1..];
    assert rest[valueStart - keyEnd..] == b[valueStart..];
    valueEnd, present := ValueEnd(b, valueStart);
  }

  /** The move at a closed string, in terms of positions in the whole text. */
  lemma MoveAt(hides: string -> bool, b: string, i: nat, keyEnd: nat)
    requires i < keyEnd <= |b| && b[i] == '"' && QuotedRun(b[i + 1..], '"') == Some(keyEnd - i - 1)
    ensures NextMove(hides, b[i..]) == KeyMove(hides, b[i..keyEnd], b[keyEnd..])
  {
    var s := b[i..];
    assert s[1..] == b[i + 1..];
    assert s[keyEnd - i..] == b[keyEnd..];
    assert s[..keyEnd - i] == b[i..keyEnd];
  }

  lemma Halted(p: Pass, b: string, i: nat, cursor: nat, out: string)
    requires p.Valid() && cursor <= i < |b| && p.scan(b[i..]) == Halt
    requires out + b[cursor..i] + p.rw(b[i..]) == p.rw(b)
    ensures out + b[cursor..] == p.rw(b)
  {
    assert p.Takes(b[i..]);
    assert b[cursor..i] + b[i..] == b[cursor..];
  }

  lemma AfterCopy(p: Pass, b: string, i: nat, cursor: nat, out: string, n: nat)
    requires p.Valid() && cursor <= i < |b| && p.scan(b[i..]) == Copy(n)
    requires out + b[cursor..i] + p.rw(b[i..]) == p.rw(b)
    ensures 0 < n <= |b| - i && out + b[cursor..i + n] + p.rw(b[i + n..]) == p.rw(b)
  {
    StepWithin(p, b[i..]);
    assert p.Takes(b[i..]);
    assert b[i..][n..] == b[i + n..];
    assert b[cursor..i] + b[i..][..n] == b[cursor..i + n];
    JoinOutput(out, b[cursor..i], b[i..][..n], p.rw(b[i + n..]));
  }

  lemma AfterCut(p: Pass, b: string, i: nat, cursor: nat, out: string, n: nat, k: nat)
    requires p.Valid() && cursor <= i < |b| && p.scan(b[i..]) == Cut(n, k)
    requires out + b[cursor..i] + p.rw(b[i..]) == p.rw(b)
    ensures 0 < k && i + n + k <= |b|
    ensures out + b[cursor..i + n] + p.policy.Marker() + b[i + n + k..i + n + k] + p.rw(b[i + n + k..]) == p.rw(b)
  {
    StepWithin(p, b[i..]);
    StepCut(p, b[i..], n, k);
    assert b[i..][n + k..] == b[i + n + k..];
    assert b[cursor..i] + b[i..][..n] == b[cursor..i + n];
    JoinOutput(out, b[cursor..i], b[i..][..n], p.policy.Marker() + p.rw(b[i + n + k..]));
  }

  lemma StepWithin(p: Pass, s: string)
    requires p.Valid() && s != ""
    ensures p.scan(s).Within(|s|)
  {
    assert p.Moves(s);
  }

  lemma JoinOutput(a: string, b: string, c: string, d: string)
    ensures a + b + (c + d) == a + (b + c) + d
  {
  }
}
