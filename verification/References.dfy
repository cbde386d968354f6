/** Character references to '&' and '?', as they occur in escaped query strings. */
module References {

  function DigitOf(hex: bool, c: char): (d: int)
    ensures -1 <= d < if hex then 16 else 10
  {
    if '0' <= c <= '9' then c as int - '0' as int
    else if hex && 'a' <= c <= 'f' then c as int - 'a' as int + 10
    else if hex && 'A' <= c <= 'F' then c as int - 'A' as int + 10
    else -1
  }

  predicate AllDigits(hex: bool, digits: string) {
    forall i :: 0 <= i < |digits| ==> DigitOf(hex, digits[i]) >= 0
  }

  /** One more digit after a number. */
  function Shifted(hex: bool, n: nat, d: nat): nat { (if hex then n * 16 else n * 10) + d }

  /** The number the digits stand for, without bound. */
  function Value(hex: bool, digits: string): nat
    requires AllDigits(hex, digits)
  {
    if digits == "" then 0
    else Shifted(hex, Value(hex, digits[..|digits| - 1]), DigitOf(hex, digits[|digits| - 1]))
  }

  function Hex(mark: string): bool { mark != "" }

  /** The text starts with a numeric reference: a mark, a whole run of digits, the rest. */
  ghost predicate Numeric(text: string, mark: string, digits: string, rest: string) {
    && text == "&#" + mark + digits + rest
    && (mark == "" || mark == "x" || mark == "X")
    && digits != "" && AllDigits(Hex(mark), digits)
    && (rest == "" || DigitOf(Hex(mark), rest[0]) < 0)
  }

  ghost predicate RefersTo(text: string, code: nat) {
    exists mark, digits, rest :: Numeric(text, mark, digits, rest) && Value(Hex(mark), digits) == code
  }

  /** The reference takes its digits and one semicolon, if there is one. */
  function Taken(mark: string, digits: string, rest: string): nat {
    2 + |mark| + |digits| + if rest != "" && rest[0] == ';' then 1 else 0
  }

  lemma MarkIsUnique(text: string, mark: string, digits: string, rest: string)
    requires Numeric(text, mark, digits, rest)
    ensures |text| > 2 && text[..2] == "&#"
    ensures mark == if text[2] == 'x' || text[2] == 'X' then [text[2]] else ""
  {
    if mark == "" {
      assert text[2] == digits[0];
    } else {
      assert text[2] == mark[0];
    }
  }

  lemma AfterMark(text: string, mark: string, digits: string, rest: string)
    requires text == "&#" + mark + digits + rest
    ensures text[2 + |mark|..] == digits + rest
  {
  }

  /** A text has at most one reading as a numeric reference. */
  lemma ReadingIsUnique(text: string, mark: string, digits: string, rest: string, mark': string, digits': string, rest': string)
    requires Numeric(text, mark, digits, rest) && Numeric(text, mark', digits', rest')
    ensures mark == mark' && digits == digits' && rest == rest'
  {
    MarkIsUnique(text, mark, digits, rest);
    MarkIsUnique(text, mark', digits', rest');
    AfterMark(text, mark, digits, rest);
    AfterMark(text, mark', digits', rest');
    SameRun(Hex(mark), digits, rest, digits', rest');
  }

  lemma SameRun(hex: bool, digits: string, rest: string, digits': string, rest': string)
    requires digits + rest == digits' + rest' && AllDigits(hex, digits) && AllDigits(hex, digits')
    requires rest == "" || DigitOf(hex, rest[0]) < 0
    requires rest' == "" || DigitOf(hex, rest'[0]) < 0
    ensures digits == digits' && rest == rest'
  {
    var s := digits + rest;
    assert rest != "" ==> s[|digits|] == rest[0];
    assert rest' != "" ==> s[|digits'|] == rest'[0];
    assert s[..|digits|] == digits && s[..|digits'|] == digits';
    assert s[|digits|..] == rest && s[|digits'|..] == rest';
  }

  /** No reference to a code of two digits or more is shorter than four characters. */
  lemma ReferencesAreLong(text: string, code: nat)
    requires RefersTo(text, code) && code >= 10
    ensures |text| >= 4
  {
    var mark, digits, rest :| Numeric(text, mark, digits, rest) && Value(Hex(mark), digits) == code;
    if |digits| == 1 {
      assert digits[..0] == "";
      assert Value(Hex(mark), digits) == DigitOf(Hex(mark), digits[0]);
    }
  }

  function Saturated(n: nat, code: nat): nat { if n > code then code + 1 else n }

  lemma SaturatedStep(hex: bool, n: nat, code: nat, d: nat)
    ensures Saturated(Shifted(hex, Saturated(n, code), d), code) == Saturated(Shifted(hex, n, d), code)
  {
  }

  /** Recognises a numeric reference to the code, with digit runs of any length, although
      the number it adds up never passes the code by more than one. */
  method NumericReferenceEnd(value: string, start: nat, code: nat) returns (end: nat, found: bool)
    requires start <= |value| && code >= 10
    ensures found <==> RefersTo(value[start..], code)
    ensures found ==> exists mark, digits, rest ::
      && Numeric(value[start..], mark, digits, rest) && Value(Hex(mark), digits) == code
      && end == start + Taken(mark, digits, rest)
    ensures start <= end <= |value| && (!found ==> end == start)
  {
    ghost var text := value[start..];
    if start + 3 >= |value| || value[start..start + 2] != "&#" {
      TooShort(value, start, code);
      return start, false;
    }
    var hex := value[start + 2] == 'x' || value[start + 2] == 'X';
    var digitStart := if hex then start + 3 else start + 2;
    var pos, number := DigitRun(value, digitStart, hex, code);
    ghost var mark, digits, rest := value[start + 2..digitStart], value[digitStart..pos], value[pos..];
    Parts(value, start, digitStart, pos);
    if pos == digitStart || number != code {
      if RefersTo(text, code) {
        OnlyThisReading(text, code, mark, digits, rest);
      }
      return start, false;
    }
    assert Numeric(text, mark, digits, rest);
    end, found := pos, true;
    if pos < |value| && value[pos] == ';' {
      end := pos + 1;
    }
    assert end == start + Taken(mark, digits, rest);
  }

  lemma Parts(value: string, start: nat, digitStart: nat, pos: nat)
    requires start + 2 <= digitStart <= pos <= |value| && value[start..start + 2] == "&#"
    ensures value[start..] == "&#" + value[start + 2..digitStart] + value[digitStart..pos] + value[pos..]
  {
  }

  lemma TooShort(value: string, start: nat, code: nat)
    requires start <= |value| && code >= 10
    requires start + 3 >= |value| || value[start..start + 2] != "&#"
    ensures !RefersTo(value[start..], code)
  {
    var text := value[start..];
    if RefersTo(text, code) {
      ReferencesAreLong(text, code);
    }
  }

  /** The run of digits, and its number up to one past the code. */
  method DigitRun(value: string, start: nat, hex: bool, code: nat) returns (pos: nat, number: nat)
    requires start <= |value|
    ensures start <= pos <= |value| && AllDigits(hex, value[start..pos])
    ensures pos == |value| || DigitOf(hex, value[pos]) < 0
    ensures number == Saturated(Value(hex, value[start..pos]), code)
  {
    pos, number := start, 0;
    ghost var digits: string := "";
    while pos < |value| && DigitOf(hex, value[pos]) >= 0
      invariant start <= pos <= |value| && digits == value[start..pos]
      invariant AllDigits(hex, digits)
      invariant number == Saturated(Value(hex, digits), code)
    {
      var digit := DigitOf(hex, value[pos]);
      SaturatedStep(hex, Value(hex, digits), code, digit);
      assert (digits + [value[pos]])[..|digits|] == digits;
      digits := digits + [value[pos]];
      number := (if hex then number * 16 else number * 10) + digit;
      if number > code {
        number := code + 1;
      }
      pos := pos + 1;
    }
  }

  lemma OnlyThisReading(text: string, code: nat, mark: string, digits: string, rest: string)
    requires text == "&#" + mark + digits + rest && AllDigits(Hex(mark), digits)
    requires rest == "" || DigitOf(Hex(mark), rest[0]) < 0
    requires mark == if |text| > 2 && (text[2] == 'x' || text[2] == 'X') then [text[2]] else ""
    requires RefersTo(text, code)
    ensures digits != "" && Value(Hex(mark), digits) == code
  {
    var mark', digits', rest' :| Numeric(text, mark', digits', rest') && Value(Hex(mark'), digits') == code;
    MarkIsUnique(text, mark', digits', rest');
    AfterMark(text, mark, digits, rest);
    AfterMark(text, mark', digits', rest');
    SameRun(Hex(mark), digits, rest, digits', rest');
  }

  // ----- Named references -----

  function Lower(c: char): char {
    if 'A' <= c <= 'Z' then (c as int + 32) as char else c
  }

  predicate EqualFold(a: string, b: string) {
    |a| == |b| && forall i :: 0 <= i < |a| ==> Lower(a[i]) == Lower(b[i])
  }

  predicate AlphaNumeric(c: char) { 'a' <= c <= 'z' || 'A' <= c <= 'Z' || '0' <= c <= '9' }

  /** The text starts with the name, in any case, and something that neither continues it
      nor is '='. */
  predicate Named(text: string, name: string) {
    |text| > |name| && EqualFold(text[..|name|], name) && !AlphaNumeric(text[|name|]) && text[|name|] != '='
  }

  /** The text starts with a reference to the character, by name or by number, that is
      `taken` characters long: its semicolon belongs to it, if there is one. */
  ghost predicate Reference(text: string, name: string, c: char, taken: nat) {
    if Named(text, name) then taken == |name| + if text[|name|] == ';' then 1 else 0
    else exists mark, digits, rest ::
      && Numeric(text, mark, digits, rest) && Value(Hex(mark), digits) == c as int
      && taken == Taken(mark, digits, rest)
  }

  /** A text starts with at most one reference. */
  lemma ReferenceIsUnique(text: string, name: string, c: char, taken: nat, taken': nat)
    requires Reference(text, name, c, taken) && Reference(text, name, c, taken')
    ensures taken == taken'
  {
    if !Named(text, name) {
      var mark, digits, rest :| Numeric(text, mark, digits, rest) && taken == Taken(mark, digits, rest);
      var mark', digits', rest' :| Numeric(text, mark', digits', rest') && taken' == Taken(mark', digits', rest');
      ReadingIsUnique(text, mark, digits, rest, mark', digits', rest');
    }
  }

  method NamedReferenceEnd(value: string, start: nat, name: string) returns (end: nat, found: bool)
    requires start <= |value| && |name| > 0
    ensures found <==> Named(value[start..], name)
    ensures found ==> start < end <= |value|
    ensures found ==> end == start + |name| + if value[start + |name|] == ';' then 1 else 0
  {
    ghost var text := value[start..];
    end := start + |name| + 1;
    if end <= |value| && EqualFold(value[start..end], name + ";") {
      assert value[start..end][|name|] == ';' by { LowerSemicolon(value[start..end][|name|]); }
      forall i | 0 <= i < |name| ensures Lower(text[i]) == Lower(name[i]) {
        assert value[start..end][i] == text[i] && (name + ";")[i] == name[i];
      }
      return end, true;
    }
    end := start + |name|;
    if end < |value| && EqualFold(value[start..end], name) && !AlphaNumeric(value[end]) && value[end] != '=' {
      assert value[start..end] == text[..|name|];
      return end, true;
    }
    if Named(text, name) {
      assert value[start..end] == text[..|name|];
    }
    return start, false;
  }

  lemma LowerSemicolon(c: char)
    requires Lower(c) == Lower(';')
    ensures c == ';'
  {
  }

  /** Recognises a question mark: itself, by name or by number. */
  method QuestionMarkReferenceEnd(value: string, start: nat) returns (end: nat, found: bool)
    requires start < |value|
    ensures start <= end <= |value|
    ensures found <==> value[start] == '?' || exists taken :: Reference(value[start..], "&quest", '?', taken)
    ensures found ==> if value[start] == '?' then end == start + 1 else Reference(value[start..], "&quest", '?', end - start)
  {
    if value[start] == '?' {
      return start + 1, true;
    }
    if value[start] != '&' {
      NoAmpersand(value[start..], "&quest", '?');
      return start, false;
    }
    end, found := ReferenceEnd(value, start, "&quest", '?');
  }

  /** Recognises the start of the next field of a query: a question mark, or an ampersand
      in any of its forms, of which the longest is taken. */
  method SeparatorEnd(value: string, start: nat) returns (end: nat, found: bool)
    requires start < |value|
    ensures start <= end <= |value|
    ensures found <==> value[start] == '?' || value[start] == '&'
    ensures found ==> start < end
    ensures found ==>
      if exists taken :: Reference(value[start..], "&amp", '&', taken) then Reference(value[start..], "&amp", '&', end - start)
      else end == start + 1
  {
    if value[start] == '?' {
      NoAmpersand(value[start..], "&amp", '&');
      return start + 1, true;
    }
    if value[start] != '&' {
      return start, false;
    }
    end, found := ReferenceEnd(value, start, "&amp", '&');
    if !found {
      end, found := start + 1, true;
    }
  }

  method ReferenceEnd(value: string, start: nat, name: string, c: char) returns (end: nat, found: bool)
    requires start < |value| && |name| > 0 && c as int >= 10
    ensures found <==> exists taken :: Reference(value[start..], name, c, taken)
    ensures found ==> start < end <= |value| && Reference(value[start..], name, c, end - start)
    ensures !found ==> end == start
  {
    ghost var text := value[start..];
    end, found := NamedReferenceEnd(value, start, name);
    if found {
      assert Reference(text, name, c, end - start);
      return;
    }
    end, found := NumericReferenceEnd(value, start, c as int);
    if found {
      assert Reference(text, name, c, end - start);
    }
  }

  lemma NoAmpersand(text: string, name: string, c: char)
    requires |text| > 0 && text[0] != '&' && |name| > 0 && name[0] == '&'
    ensures forall taken :: !Reference(text, name, c, taken)
  {
    assert |text| >= |name| ==> text[..|name|][0] == text[0];
  }
}
