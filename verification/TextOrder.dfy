/** The byte-wise string order and the two sorting helpers the controller uses. */
module TextOrder {

  predicate StrLe(a: string, b: string) {
    a == [] || (b != [] && (a[0] < b[0] || (a[0] == b[0] && StrLe(a[1..], b[1..]))))
  }

  lemma {:induction false} StrLeTotal(a: string, b: string)
    ensures StrLe(a, b) || StrLe(b, a)
  {
    if a != [] && b != [] { StrLeTotal(a[1..], b[1..]); }
  }

  lemma {:induction false} StrLeTransitive(a: string, b: string, c: string)
    requires StrLe(a, b) && StrLe(b, c)
    ensures StrLe(a, c)
  {
    if a != [] && a[0] == b[0] && b[0] == c[0] { StrLeTransitive(a[1..], b[1..], c[1..]); }
  }

  ghost predicate SortedBy<T>(xs: seq<T>, key: T -> string) {
    forall i, j :: 0 <= i < j < |xs| ==> StrLe(key(xs[i]), key(xs[j]))
  }

  /** Where x belongs in a sorted sequence: everything before is below it, everything after above. */
  method InsertionPoint<T>(xs: seq<T>, x: T, key: T -> string) returns (at: nat)
    requires SortedBy(xs, key)
    ensures at <= |xs|
    ensures forall i :: 0 <= i < at ==> StrLe(key(xs[i]), key(x))
    ensures forall i :: at <= i < |xs| ==> StrLe(key(x), key(xs[i]))
  {
    at := 0;
    while at < |xs| && StrLe(key(xs[at]), key(x))
      invariant at <= |xs|
      invariant forall i :: 0 <= i < at ==> StrLe(key(xs[i]), key(x))
    {
      at := at + 1;
    }
    if at < |xs| {
      StrLeTotal(key(xs[at]), key(x));
      forall i | at < i < |xs| ensures StrLe(key(x), key(xs[i])) {
        StrLeTransitive(key(x), key(xs[at]), key(xs[i]));
      }
    }
  }

  /** Inserting where a value belongs keeps a sequence sorted and adds just that value. */
  lemma InsertKeeps<T>(xs: seq<T>, x: T, at: nat, key: T -> string)
    requires SortedBy(xs, key) && at <= |xs|
    requires forall i :: 0 <= i < at ==> StrLe(key(xs[i]), key(x))
    requires forall i :: at <= i < |xs| ==> StrLe(key(x), key(xs[i]))
    ensures SortedBy(xs[..at] + [x] + xs[at..], key)
    ensures multiset(xs[..at] + [x] + xs[at..]) == multiset(xs) + multiset{x}
  {
    assert xs == xs[..at] + xs[at..];
  }

  /** A stable sort: sorted, and a permutation of its input. */
  method Sort<T>(xs: seq<T>, key: T -> string) returns (sorted: seq<T>)
    ensures SortedBy(sorted, key)
    ensures multiset(sorted) == multiset(xs)
  {
    sorted := [];
    for n := 0 to |xs|
      invariant SortedBy(sorted, key)
      invariant multiset(sorted) == multiset(xs[..n])
    {
      var at := InsertionPoint(sorted, xs[n], key);
      InsertKeeps(sorted, xs[n], at, key);
      assert xs[..n + 1] == xs[..n] + [xs[n]];
      sorted := sorted[..at] + [xs[n]] + sorted[at..];
    }
    assert xs[..|xs|] == xs;
  }

  /** Drops adjacent repetitions; on a sorted input that removes every repetition. */
  method UniqueStrings(xs: seq<string>) returns (result: seq<string>)
    ensures forall x :: x in result <==> x in xs
    ensures SortedBy(xs, (x: string) => x) ==>
              SortedBy(result, (x: string) => x) && forall i, j :: 0 <= i < j < |result| ==> result[i] != result[j]
  {
    result := [];
    var key := (x: string) => x;
    for n := 0 to |xs|
      invariant forall x :: x in result <==> x in xs[..n]
      invariant n > 0 ==> result != [] && result[|result| - 1] == xs[n - 1]
      invariant SortedBy(xs, (x: string) => x) ==>
                  SortedBy(result, (x: string) => x) && forall i, j :: 0 <= i < j < |result| ==> result[i] != result[j]
    {
      if result == [] || result[|result| - 1] != xs[n] {
        if SortedBy(xs, (x: string) => x) {
          if xs[n] in result { StrLeSqueeze(xs, n); }
          SortedAppend(xs, result, n);
        }
        result := result + [xs[n]];
      }
      assert xs[..n + 1] == xs[..n] + [xs[n]];
    }
    assert xs[..|xs|] == xs;
  }

  lemma SortedAppend(xs: seq<string>, result: seq<string>, n: nat)
    requires SortedBy(xs, (x: string) => x) && SortedBy(result, (x: string) => x) && n < |xs|
    requires forall x :: x in result ==> x in xs[..n]
    ensures SortedBy(result + [xs[n]], (x: string) => x)
  {
    var key := (x: string) => x;
    forall i | 0 <= i < |result| ensures StrLe(key(result[i]), key(xs[n])) {
      assert result[i] in xs[..n];
      var k :| 0 <= k < n && xs[k] == result[i];
      assert StrLe(key(xs[k]), key(xs[n]));
    }
    var all := result + [xs[n]];
    forall i, j | 0 <= i < j < |all| ensures StrLe(key(all[i]), key(all[j])) {
      if j < |result| { assert StrLe(key(result[i]), key(result[j])); }
    }
  }

  lemma {:induction false} StrLeAntisymmetric(a: string, b: string)
    requires StrLe(a, b) && StrLe(b, a)
    ensures a == b
  {
    if a != [] {
      StrLeAntisymmetric(a[1..], b[1..]);
      assert a == [a[0]] + a[1..] && b == [b[0]] + b[1..];
    }
  }

  /** In a sorted sequence a value that occurred before position n is still the one at n - 1. */
  lemma StrLeSqueeze(xs: seq<string>, n: nat)
    requires SortedBy(xs, (x: string) => x) && n < |xs| && xs[n] in xs[..n]
    ensures n > 0 && xs[n - 1] == xs[n]
  {
    var key := (x: string) => x;
    var i :| 0 <= i < n && xs[i] == xs[n];
    if i < n - 1 {
      assert StrLe(key(xs[i]), key(xs[n - 1])) && StrLe(key(xs[n - 1]), key(xs[n]));
      StrLeAntisymmetric(xs[n - 1], xs[n]);
    }
  }
}
