/** The order of strings, and sorting. */
module Order {

  /** Strings compare character by character. */
  predicate Less(a: string, b: string) {
    b != "" && (a == "" || a[0] < b[0] || (a[0] == b[0] && Less(a[1..], b[1..])))
  }

  /** One string ends where the other goes on, or has the smaller character, at the first
      place where they differ. */
  predicate LessAt(a: string, b: string, i: nat) {
    i <= |a| && i < |b| && a[..i] == b[..i] && (i == |a| || a[i] < b[i])
  }

  lemma {:induction false} LessMeans(a: string, b: string)
    ensures Less(a, b) <==> exists i: nat :: LessAt(a, b, i)
  {
    if a == "" || b == "" || a[0] != b[0] {
      assert LessAt(a, b, 0) <==> Less(a, b);
      assert forall i: nat :: LessAt(a, b, i) && i > 0 ==> a[..i][0] == b[..i][0];
    } else {
      LessMeans(a[1..], b[1..]);
      forall i: nat ensures LessAt(a[1..], b[1..], i) <==> LessAt(a, b, i + 1) {
        LessLater(a, b, i);
      }
      if i: nat :| LessAt(a, b, i) {
        assert i > 0 && LessAt(a[1..], b[1..], i - 1);
      }
    }
  }

  lemma LessLater(a: string, b: string, i: nat)
    requires a != "" && b != "" && a[0] == b[0]
    ensures LessAt(a[1..], b[1..], i) <==> LessAt(a, b, i + 1)
  {
    if i + 1 <= |a| && i + 1 < |b| {
      assert a[..i + 1] == [a[0]] + a[1..][..i] && b[..i + 1] == [b[0]] + b[1..][..i];
      assert a[1..][..i] == a[..i + 1][1..] && b[1..][..i] == b[..i + 1][1..];
    }
  }

  lemma {:induction false} LessIsStrict(a: string, b: string)
    requires Less(a, b)
    ensures !Less(b, a) && a != b
  {
    if a != "" && a[0] == b[0] {
      LessIsStrict(a[1..], b[1..]);
    }
  }

  lemma {:induction false} LessIsTotal(a: string, b: string)
    ensures Less(a, b) || Less(b, a) || a == b
  {
    if a != "" && b != "" && a[0] == b[0] {
      LessIsTotal(a[1..], b[1..]);
      assert a == [a[0]] + a[1..] && b == [b[0]] + b[1..];
    }
  }

  lemma {:induction false} LessIsTransitive(a: string, b: string, c: string)
    requires Less(a, b) && Less(b, c)
    ensures Less(a, c)
  {
    if a != "" && a[0] == b[0] && b[0] == c[0] {
      LessIsTransitive(a[1..], b[1..], c[1..]);
    }
  }

  /** Lists of strings compare by the first string in which they differ. */
  predicate KeyLess(a: seq<string>, b: seq<string>) {
    if a == [] || b == [] then |a| < |b|
    else if a[0] != b[0] then Less(a[0], b[0])
    else KeyLess(a[1..], b[1..])
  }

  lemma {:induction false} KeyLessIsStrict(a: seq<string>, b: seq<string>)
    requires KeyLess(a, b)
    ensures !KeyLess(b, a) && a != b
  {
    if a == [] {
    } else {
      if a[0] != b[0] {
        LessIsStrict(a[0], b[0]);
      } else {
        KeyLessIsStrict(a[1..], b[1..]);
      }
    }
  }

  lemma {:induction false} KeyLessIsTotal(a: seq<string>, b: seq<string>)
    ensures KeyLess(a, b) || KeyLess(b, a) || a == b
  {
    if a != [] && b != [] {
      if a[0] != b[0] {
        LessIsTotal(a[0], b[0]);
      } else {
        KeyLessIsTotal(a[1..], b[1..]);
        assert a == [a[0]] + a[1..] && b == [b[0]] + b[1..];
      }
    }
  }

  lemma {:induction false} KeyLessIsTransitive(a: seq<string>, b: seq<string>, c: seq<string>)
    requires KeyLess(a, b) && KeyLess(b, c)
    ensures KeyLess(a, c)
  {
    if a == [] {
    } else {
      if a[0] == b[0] && b[0] == c[0] {
        KeyLessIsTransitive(a[1..], b[1..], c[1..]);
      } else if a[0] != b[0] && b[0] != c[0] {
        LessIsTransitive(a[0], b[0], c[0]);
        LessIsStrict(a[0], c[0]);
      }
    }
  }

  /** Items by a key; equal keys may come in any order. */
  ghost predicate Sorted<T(!new)>(items: seq<T>, key: T -> seq<string>) {
    forall i, j :: 0 <= i < j < |items| ==> !KeyLess(key(items[j]), key(items[i]))
  }

  /** Sorts items by a key. */
  method Sort<T(!new)>(items: seq<T>, key: T -> seq<string>) returns (sorted: seq<T>)
    ensures multiset(sorted) == multiset(items) && Sorted(sorted, key)
  {
    sorted := [];
    var i := 0;
    while i < |items|
      invariant 0 <= i <= |items|
      invariant multiset(sorted) == multiset(items[..i]) && Sorted(sorted, key)
    {
      sorted := Insert(sorted, items[i], key);
      assert items[..i + 1] == items[..i] + [items[i]];
      i := i + 1;
    }
    assert items[..i] == items;
  }

  method Insert<T(!new)>(items: seq<T>, item: T, key: T -> seq<string>) returns (more: seq<T>)
    requires Sorted(items, key)
    ensures multiset(more) == multiset(items + [item]) && Sorted(more, key)
  {
    var n := |items|;
    while n > 0 && KeyLess(key(item), key(items[n - 1]))
      invariant 0 <= n <= |items|
      invariant forall j :: n <= j < |items| ==> KeyLess(key(item), key(items[j]))
    {
      Above(items, item, key, n - 1);
      n := n - 1;
    }
    more := items[..n] + [item] + items[n..];
    Inserted(items, item, key, n);
    assert items == items[..n] + items[n..];
  }

  lemma Above<T(!new)>(items: seq<T>, item: T, key: T -> seq<string>, n: nat)
    requires Sorted(items, key) && n < |items| && KeyLess(key(item), key(items[n]))
    ensures forall j :: n <= j < |items| ==> KeyLess(key(item), key(items[j]))
  {
    forall j | n < j < |items| ensures KeyLess(key(item), key(items[j])) {
      NotAfter(key(item), key(items[n]), key(items[j]));
    }
  }

  lemma NotAfter(a: seq<string>, b: seq<string>, c: seq<string>)
    requires KeyLess(a, b) && !KeyLess(c, b)
    ensures KeyLess(a, c)
  {
    KeyLessIsTotal(b, c);
    if b != c {
      KeyLessIsTransitive(a, b, c);
    }
  }

  lemma Inserted<T(!new)>(items: seq<T>, item: T, key: T -> seq<string>, n: nat)
    requires Sorted(items, key) && n <= |items|
    requires n > 0 ==> !KeyLess(key(item), key(items[n - 1]))
    requires forall j :: n <= j < |items| ==> KeyLess(key(item), key(items[j]))
    ensures Sorted(items[..n] + [item] + items[n..], key)
  {
    var more := items[..n] + [item] + items[n..];
    forall i | 0 <= i < n ensures !KeyLess(key(item), key(items[i])) {
      if i < n - 1 && KeyLess(key(item), key(items[i])) {
        NotAfter(key(item), key(items[i]), key(items[n - 1]));
      }
    }
    forall j | n <= j < |items| ensures !KeyLess(key(items[j]), key(item)) {
      KeyLessIsStrict(key(item), key(items[j]));
    }
    forall i, j | 0 <= i < j < |more| ensures !KeyLess(key(more[j]), key(more[i])) {
      var a := if i <= n then i else i - 1;
      var b := if j <= n then j else j - 1;
      if i != n && j != n {
        assert more[i] == items[a] && more[j] == items[b];
      }
    }
  }

  /** Sorted items whose keys differ are in strictly ascending order. */
  lemma SortedStrictly<T(!new)>(items: seq<T>, key: T -> seq<string>)
    requires Sorted(items, key) && forall i, j :: 0 <= i < j < |items| ==> key(items[i]) != key(items[j])
    ensures forall i, j :: 0 <= i < j < |items| ==> KeyLess(key(items[i]), key(items[j]))
  {
    forall i, j | 0 <= i < j < |items| ensures KeyLess(key(items[i]), key(items[j])) {
      KeyLessIsTotal(key(items[i]), key(items[j]));
    }
  }
}
