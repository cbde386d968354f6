/** Which configuration keys name a credential. */
module Secrets {

  const SUBSTRINGS: seq<string> := [
    "password", "passphrase", "secret", "privatekey", "privkey",
    "sharedkey", "token", "apikey", "authkey", "credential", "passwd"]
  const TERMS: seq<string> := ["prv", "key"]
  const EXACT: seq<string> := ["psk", "pass", "otpseed", "ldapbindpw", "enckey", "community"]

  predicate Separator(c: char) { c == '_' || c == '-' || c == '.' || c == '%' }

  /** Lower case, as far as it can produce the letters of the vocabulary: besides A to Z,
      the dotted capital I and the Kelvin sign. */
  function Lower(c: char): char {
    if 'A' <= c <= 'Z' then (c as int + 32) as char
    else if c == '\U{130}' then 'i'
    else if c == '\U{212A}' then 'k'
    else c
  }

  function LowerAll(s: string): (r: string)
    ensures |r| == |s| && forall i :: 0 <= i < |s| ==> r[i] == Lower(s[i])
  {
    seq(|s|, i requires 0 <= i < |s| => Lower(s[i]))
  }

  function Stripped(s: string): string {
    if s == "" then "" else (if Separator(s[0]) then "" else [s[0]]) + Stripped(s[1..])
  }

  predicate StartsAt(s: string, i: nat, part: string) { i <= |s| && part <= s[i..] }

  predicate Contains(s: string, part: string) { exists i: nat :: i <= |s| && StartsAt(s, i, part) }

  /** The words between separators; `word` is the one being read. */
  function Terms(s: string, word: string): seq<string>
    decreases |s|
  {
    if s == "" then (if word == "" then [] else [word])
    else if Separator(s[0]) then (if word == "" then [] else [word]) + Terms(s[1..], "")
    else Terms(s[1..], word + [s[0]])
  }

  /** The part of the verdict that looks at the key without its separators. */
  predicate SensitiveWhole(normalized: string) {
    || normalized in EXACT
    || (exists i :: 0 <= i < |SUBSTRINGS| && Contains(normalized, SUBSTRINGS[i]))
    || "prv" <= normalized
  }

  predicate SomeTerm(terms: seq<string>) { exists i :: 0 <= i < |TERMS| && TERMS[i] in terms }

  predicate SensitiveKey(key: string) {
    SensitiveWhole(LowerAll(Stripped(key))) || SomeTerm(Terms(LowerAll(key), ""))
  }

  // ----- The verdict depends on the words alone -----

  function Joined(words: seq<string>): string {
    if words == [] then "" else words[0] + Joined(words[1..])
  }

  lemma {:induction false} JoinedTerms(s: string, word: string)
    ensures Joined(Terms(s, word)) == word + Stripped(s)
    decreases |s|
  {
    if s == "" {
      assert [word][1..] == [];
    } else if Separator(s[0]) {
      JoinedTerms(s[1..], "");
      var rest := Terms(s[1..], "");
      if word != "" {
        assert ([word] + rest)[1..] == rest;
      } else {
        assert [] + rest == rest;
      }
    } else {
      JoinedTerms(s[1..], word + [s[0]]);
    }
  }

  lemma {:induction false} StrippedLower(s: string)
    ensures LowerAll(Stripped(s)) == Stripped(LowerAll(s))
  {
    if s == "" {
    } else {
      StrippedLower(s[1..]);
      assert LowerAll(s)[1..] == LowerAll(s[1..]);
    }
  }

  lemma WholeIsJoined(key: string)
    ensures LowerAll(Stripped(key)) == Joined(Terms(LowerAll(key), ""))
  {
    JoinedTerms(LowerAll(key), "");
    StrippedLower(key);
    assert "" + Stripped(LowerAll(key)) == Stripped(LowerAll(key));
  }

  /** The words of a key, in lower case, decide: which separators stand between them, and
      how many, or capital letters, make no difference. */
  lemma WordsDecide(a: string, b: string)
    requires Terms(LowerAll(a), "") == Terms(LowerAll(b), "")
    ensures SensitiveKey(a) == SensitiveKey(b)
  {
    WholeIsJoined(a);
    WholeIsJoined(b);
  }

  /** Exchanging separators leaves the words as they are. */
  lemma {:induction false} SeparatorsAreAlike(a: string, b: string, word: string)
    requires |a| == |b| && forall i :: 0 <= i < |a| ==> a[i] == b[i] || (Separator(a[i]) && Separator(b[i]))
    ensures Terms(a, word) == Terms(b, word)
    decreases |a|
  {
    if a == "" {
    } else {
      SeparatorsAreAlike(a[1..], b[1..], if Separator(a[0]) then "" else word + [a[0]]);
    }
  }

  // ----- The vocabulary, and what it is matched against -----

  /** A word: as long a run of characters without a separator as there is. */
  predicate IsWord(s: string, i: nat, j: nat) {
    && i < j <= |s|
    && (forall k :: i <= k < j ==> !Separator(s[k]))
    && (i > 0 ==> Separator(s[i - 1])) && (j < |s| ==> Separator(s[j]))
  }

  ghost predicate HasWord(s: string, t: string) {
    exists i: nat, j: nat :: IsWord(s, i, j) && s[i..j] == t
  }

  lemma OnlyWord(s: string, t: string)
    requires forall k :: 0 <= k < |s| ==> !Separator(s[k])
    ensures HasWord(s, t) <==> s != "" && t == s
  {
    if HasWord(s, t) {
      var i: nat, j: nat :| IsWord(s, i, j) && s[i..j] == t;
      assert i == 0 && j == |s|;
    }
    if s != "" {
      assert IsWord(s, 0, |s|) && s[0..|s|] == s;
    }
  }

  /** A word behind a separator is a word of what follows it. */
  lemma WordBehind(s: string, n: nat, i: nat, j: nat)
    requires 0 < n <= |s| && Separator(s[n - 1])
    ensures IsWord(s, n + i, n + j) <==> IsWord(s[n..], i, j)
    ensures i <= j <= |s| - n ==> s[n + i..n + j] == s[n..][i..j]
  {
    var b := s[n..];
    assert forall k :: 0 <= k < |b| ==> b[k] == s[n + k];
    if IsWord(s, n + i, n + j) {
      assert forall k :: i <= k < j ==> b[k] == s[n + k];
    }
    if IsWord(b, i, j) {
      assert forall k :: n + i <= k < n + j ==> s[k] == b[k - n];
    }
  }

  /** The words around a separator. */
  lemma WordsApart(a: string, c: char, b: string, t: string)
    requires Separator(c) && forall k :: 0 <= k < |a| ==> !Separator(a[k])
    ensures HasWord(a + [c] + b, t) <==> (a != "" && t == a) || HasWord(b, t)
  {
    var s, n := a + [c] + b, |a| + 1;
    assert s[n..] == b && s[n - 1] == c && s[0..|a|] == a;
    if HasWord(s, t) {
      var i: nat, j: nat :| IsWord(s, i, j) && s[i..j] == t;
      if i <= |a| {
        FirstWord(s, |a|, i, j);
      } else {
        WordBehind(s, n, i - n, j - n);
      }
    }
    if a != "" && t == a {
      assert IsWord(s, 0, |a|);
    }
    if HasWord(b, t) {
      var i: nat, j: nat :| IsWord(b, i, j) && b[i..j] == t;
      WordBehind(s, n, i, j);
    }
  }

  lemma FirstWord(s: string, n: nat, i: nat, j: nat)
    requires n < |s| && Separator(s[n]) && (forall k :: 0 <= k < n ==> !Separator(s[k]))
    requires IsWord(s, i, j) && i <= n
    ensures i == 0 && j == n
  {
  }

  /** The terms of a text are its words. */
  lemma {:induction false} TermsAreWords(s: string, word: string, t: string)
    requires forall k :: 0 <= k < |word| ==> !Separator(word[k])
    ensures t in Terms(s, word) <==> HasWord(word + s, t)
    decreases |s|
  {
    if s == "" {
      assert word + s == word;
      OnlyWord(word, t);
    } else if Separator(s[0]) {
      assert word + s == word + [s[0]] + s[1..];
      WordsApart(word, s[0], s[1..], t);
      TermsAreWords(s[1..], "", t);
      assert "" + s[1..] == s[1..];
    } else {
      assert word + s == (word + [s[0]]) + s[1..];
      TermsAreWords(s[1..], word + [s[0]], t);
    }
  }

  /** The name of a credential, all of it or a part. */
  predicate NamesCredential(whole: string) {
    || whole == "psk" || whole == "pass" || whole == "otpseed" || whole == "ldapbindpw" || whole == "enckey" || whole == "community"
    || Contains(whole, "password") || Contains(whole, "passphrase") || Contains(whole, "passwd") || Contains(whole, "secret")
    || Contains(whole, "privatekey") || Contains(whole, "privkey") || Contains(whole, "sharedkey") || Contains(whole, "apikey")
    || Contains(whole, "authkey") || Contains(whole, "token") || Contains(whole, "credential")
    || StartsAt(whole, 0, "prv")
  }

  lemma WholeNames(whole: string)
    ensures SensitiveWhole(whole) <==> NamesCredential(whole)
  {
    assert whole[0..] == whole;
    PartsListed(whole);
    assert whole in EXACT <==> whole == EXACT[0] || whole == EXACT[1] || whole == EXACT[2] || whole == EXACT[3] || whole == EXACT[4] || whole == EXACT[5];
  }

  lemma PartsListed(whole: string)
    ensures (exists i :: 0 <= i < |SUBSTRINGS| && Contains(whole, SUBSTRINGS[i])) <==>
      || Contains(whole, "password") || Contains(whole, "passphrase") || Contains(whole, "passwd") || Contains(whole, "secret")
      || Contains(whole, "privatekey") || Contains(whole, "privkey") || Contains(whole, "sharedkey") || Contains(whole, "apikey")
      || Contains(whole, "authkey") || Contains(whole, "token") || Contains(whole, "credential")
  {
    assert SUBSTRINGS[0] == "password" && SUBSTRINGS[1] == "passphrase" && SUBSTRINGS[2] == "secret" && SUBSTRINGS[3] == "privatekey";
    assert SUBSTRINGS[4] == "privkey" && SUBSTRINGS[5] == "sharedkey" && SUBSTRINGS[6] == "token" && SUBSTRINGS[7] == "apikey";
    assert SUBSTRINGS[8] == "authkey" && SUBSTRINGS[9] == "credential" && SUBSTRINGS[10] == "passwd";
  }

  /** A key is sensitive exactly when, in lower case and without separators, it is or contains
      the name of a credential or starts with "prv", or one of its words is "prv" or "key". */
  lemma SensitiveMeans(key: string)
    ensures SensitiveKey(key) <==>
      || NamesCredential(Stripped(LowerAll(key)))
      || HasWord(LowerAll(key), "prv") || HasWord(LowerAll(key), "key")
  {
    var lower := LowerAll(key);
    StrippedLower(key);
    WholeNames(Stripped(lower));
    assert "" + lower == lower;
    TermsAreWords(lower, "", "prv");
    TermsAreWords(lower, "", "key");
    assert TERMS[0] == "prv" && TERMS[1] == "key";
  }

  /** Capital letters count as small ones. */
  lemma CaseIsIgnored(a: string, b: string)
    requires |a| == |b|
    requires forall i :: 0 <= i < |a| ==> a[i] == b[i] || ('A' <= a[i] <= 'Z' && b[i] as int == a[i] as int + 32)
    ensures SensitiveKey(a) == SensitiveKey(b)
  {
    assert LowerAll(a) == LowerAll(b);
    WordsDecide(a, b);
  }

  // ----- Writing the words together -----

  lemma {:induction false} OneWord(s: string, word: string)
    requires word + s != "" && forall i :: 0 <= i < |s| ==> !Separator(s[i])
    ensures Terms(s, word) == [word + s]
    decreases |s|
  {
    if s != "" {
      OneWord(s[1..], word + [s[0]]);
      assert word + [s[0]] + s[1..] == word + s;
    } else {
      assert word + s == word;
    }
  }

  lemma {:induction false} StrippedTwice(s: string)
    requires forall i :: 0 <= i < |s| ==> !Separator(s[i])
    ensures Stripped(s) == s
  {
    if s == "" {
    } else {
      StrippedTwice(s[1..]);
      assert s == [s[0]] + s[1..];
    }
  }

  lemma LowerKeepsSeparators(c: char)
    ensures Separator(Lower(c)) == Separator(c)
  {
  }

  lemma WordIsTerm(word: string)
    requires forall i :: 0 <= i < |word| ==> !Separator(word[i])
    ensures SomeTerm(Terms(word, "")) <==> word in TERMS
  {
    if word == "" {
      assert Terms(word, "") == [];
    } else {
      OneWord(word, "");
      assert "" + word == word;
      assert Terms(word, "") == [word];
    }
  }

  /** A key whose words are written together is judged as a whole: it is then sensitive
      for a term only when the term is all there is. */
  lemma WrittenTogether(key: string)
    requires forall i :: 0 <= i < |key| ==> !Separator(key[i])
    ensures SensitiveKey(key) <==> SensitiveWhole(LowerAll(key)) || LowerAll(key) in TERMS
  {
    StrippedTwice(key);
    forall i | 0 <= i < |key| ensures !Separator(LowerAll(key)[i]) {
      LowerKeepsSeparators(key[i]);
    }
    WordIsTerm(LowerAll(key));
  }

  lemma {:induction false} StrippedHasNone(s: string)
    ensures forall i :: 0 <= i < |Stripped(s)| ==> !Separator(Stripped(s)[i])
  {
    if s == "" {
    } else {
      StrippedHasNone(s[1..]);
    }
  }

  /** A key means the same with its words apart and written together, as in snake case and
      camel case, if and only if it is sensitive as a whole, or one of its words is a term
      exactly when all of them together are. */
  lemma JoiningKeepsVerdict(key: string)
    ensures SensitiveKey(key) == SensitiveKey(Stripped(key)) <==>
      var whole := LowerAll(Stripped(key));
      SensitiveWhole(whole) || (SomeTerm(Terms(LowerAll(key), "")) <==> whole in TERMS)
  {
    StrippedHasNone(key);
    WrittenTogether(Stripped(key));
  }

  // ----- Two keys -----

  lemma {:induction false} LastWord(a: string, c: char, b: string, word: string)
    requires Separator(c) && b != "" && forall i :: 0 <= i < |b| ==> !Separator(b[i])
    ensures b in Terms(a + [c] + b, word)
    decreases |a|
  {
    var s := a + [c] + b;
    if a == "" {
      assert s[1..] == b;
      OneWord(b, "");
      assert "" + b == b;
    } else {
      assert s[1..] == a[1..] + [c] + b;
      LastWord(a[1..], c, b, if Separator(a[0]) then "" else word + [a[0]]);
    }
  }

  lemma MissingLetter(s: string, part: string, c: char)
    requires c in part && c !in s
    ensures !Contains(s, part)
  {
    var k :| 0 <= k < |part| && part[k] == c;
    assert forall i: nat :: i <= |s| && StartsAt(s, i, part) ==> s[i..][k] == c;
  }

  lemma {:induction false} WordLetters(s: string, word: string, term: string, c: char)
    requires term in Terms(s, word) && c in term
    ensures c in word || c in s
    decreases |s|
  {
    if s == "" {
    } else {
      if Separator(s[0]) {
        if word == "" || term != word {
          WordLetters(s[1..], "", term, c);
        }
      } else {
        WordLetters(s[1..], word + [s[0]], term, c);
      }
    }
  }

  /** A word without these letters has no part of the vocabulary in it. */
  lemma NoPart(s: string)
    requires 'a' !in s && 'p' !in s && ('c' !in s || 'r' !in s) && ('k' !in s || 't' !in s)
    ensures forall i :: 0 <= i < |SUBSTRINGS| ==> !Contains(s, SUBSTRINGS[i])
  {
    assert "password"[1] == 'a' && "passphrase"[1] == 'a' && "privatekey"[4] == 'a' && "privkey"[0] == 'p';
    assert "sharedkey"[2] == 'a' && "apikey"[0] == 'a' && "authkey"[0] == 'a' && "credential"[8] == 'a' && "passwd"[1] == 'a';
    assert "secret"[2] == 'c' && "secret"[3] == 'r' && "token"[0] == 't' && "token"[2] == 'k';
    forall i | 0 <= i < |SUBSTRINGS| ensures !Contains(s, SUBSTRINGS[i]) {
      var c :=
        if i == 2 then (if 'c' !in s then 'c' else 'r')
        else if i == 6 then (if 'k' !in s then 'k' else 't')
        else if i == 4 then 'p' else 'a';
      MissingLetter(s, SUBSTRINGS[i], c);
    }
  }

  /** Nor is it sensitive as a whole. */
  lemma NotWhole(s: string)
    requires 'a' !in s && 'p' !in s && 'm' !in s && ('c' !in s || 'r' !in s) && ('k' !in s || 't' !in s)
    requires 'k' !in s || |s| != 6
    ensures !SensitiveWhole(s)
  {
    NoPart(s);
    assert "psk"[0] == 'p' && "pass"[0] == 'p' && "otpseed"[2] == 'p' && "ldapbindpw"[2] == 'a' && "community"[2] == 'm';
    assert "enckey"[3] == 'k' && |"enckey"| == 6 && "prv"[0] == 'p';
  }

  lemma {:induction false} StrippedLetters(s: string, c: char)
    requires c in Stripped(s)
    ensures c in s
  {
    if s != "" && (Separator(s[0]) || c != s[0]) {
      StrippedLetters(s[1..], c);
    }
  }

  lemma NotSensitive(key: string, lower: string)
    requires lower == LowerAll(key) && 'a' !in lower && 'p' !in lower && 'm' !in lower && 'c' !in lower && 'k' !in lower
    ensures !SensitiveKey(key)
  {
    StrippedLower(key);
    var whole := LowerAll(Stripped(key));
    forall c | c in whole ensures c in lower {
      StrippedLetters(lower, c);
    }
    NotWhole(whole);
    forall i | 0 <= i < |TERMS| ensures TERMS[i] !in Terms(lower, "") {
      var c := if i == 0 then 'p' else 'k';
      assert "prv"[0] == 'p' && "key"[0] == 'k';
      if TERMS[i] in Terms(lower, "") {
        WordLetters(lower, "", TERMS[i], c);
      }
    }
  }

  /** The field that tells filter rules apart is not sensitive. */
  lemma SortOrderIsKept(key: string)
    requires key == "sort_order"
    ensures !SensitiveKey(key)
  {
    NotSensitive(key, LowerAll(key));
  }

  lemma Apart(key: string, first: string)
    requires LowerAll(key) == first + "_" + "key"
    ensures SensitiveKey(key)
  {
    LastWord(first, '_', "key", "");
    assert TERMS[1] == "key";
  }

  /** The same two words, apart and together: a licence key is sensitive only when they
      are apart. */
  lemma LicenseKey(apart: string, together: string)
    requires apart == "license_key" && together == "licenseKey"
    ensures SensitiveKey(apart) && !SensitiveKey(together)
  {
    assert LowerAll(apart) == "license" + "_" + "key";
    Apart(apart, "license");
    var whole := LowerAll(together);
    assert |whole| == 10;
    assert 'a' !in whole && 'p' !in whole && 'm' !in whole && 'r' !in whole && 't' !in whole;
    NotWhole(whole);
    WrittenTogether(together);
    assert whole !in TERMS;
  }

  /** Separators inside a term hide it: with its letters apart it is not sensitive, and
      written together it is. */
  lemma SplitTerm(apart: string, together: string)
    requires apart == "k_e_y" && together == "key"
    ensures !SensitiveKey(apart) && SensitiveKey(together)
  {
    OneWordEach(apart);
    assert LowerAll(together) == "key" && TERMS[1] == "key";
    WrittenTogether(together);
  }

  lemma OneWordEach(key: string)
    requires key == "k_e_y"
    ensures !SensitiveKey(key)
  {
    assert LowerAll(key) == key;
    LettersApart(key);
    WholeIsJoined(key);
    var words := ["k", "e", "y"];
    assert words[1..] == ["e", "y"] && words[1..][1..] == ["y"] && words[1..][1..][1..] == [];
    assert Joined(["y"]) == "y" && Joined(["e", "y"]) == "ey" && Joined(words) == "key";
    NotWhole("key");
    assert |"prv"| == 3 && |"key"| == 3;
  }

  lemma LettersApart(s: string)
    requires s == "k_e_y"
    ensures Terms(s, "") == ["k", "e", "y"]
  {
    assert s[1..][1..] == s[2..] && s[2..][1..] == s[3..] && s[3..][1..] == s[4..] && s[4..][1..] == "";
    assert "" + ['k'] == "k" && "" + ['e'] == "e" && "" + ['y'] == "y";
    assert Terms(s[4..], "") == ["y"];
    assert Terms(s[3..], "e") == ["e"] + ["y"];
    assert Terms(s[1..], "k") == ["k"] + (["e"] + ["y"]);
  }
}
