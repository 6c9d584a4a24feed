/** The order of strings by code points, and sorting by it. */
module TextOrder {
  import opened Collections

  /** The order in which texts are compared and sorted. */
  predicate TextLess(a: string, b: string) {
    b != "" && (a == "" || a[0] < b[0] || (a[0] == b[0] && TextLess(a[1..], b[1..])))
  }

  lemma {:induction false} TextLessConcat(a: string, b: string, x: string, y: string)
    requires |a| == |b|
    ensures TextLess(a + x, b + y) <==> TextLess(a, b) || (a == b && TextLess(x, y))
  {
    if a == "" {
      assert a + x == x && b + y == y;
    } else {
      TextLessConcat(a[1..], b[1..], x, y);
      assert (a + x)[1..] == a[1..] + x && (b + y)[1..] == b[1..] + y;
      assert a == [a[0]] + a[1..] && b == [b[0]] + b[1..];
    }
  }

  lemma {:induction false} TextIrreflexive(a: string)
    ensures !TextLess(a, a)
  {
    if a != "" {
      TextIrreflexive(a[1..]);
    }
  }

  lemma {:induction false} TextTotal(a: string, b: string)
    ensures TextLess(a, b) || a == b || TextLess(b, a)
  {
    if a != "" && b != "" && a[0] == b[0] {
      TextTotal(a[1..], b[1..]);
      assert a == [a[0]] + a[1..] && b == [b[0]] + b[1..];
    }
  }

  lemma {:induction false} TextTransitive(a: string, b: string, c: string)
    requires TextLess(a, b) && TextLess(b, c)
    ensures TextLess(a, c)
  {
    if a != "" && a[0] == b[0] == c[0] {
      TextTransitive(a[1..], b[1..], c[1..]);
    }
  }

  // ---- Sorting ----

  function Insert<T>(sorted: seq<T>, x: T, key: T -> string): seq<T> {
    if sorted == [] then [x]
    else if TextLess(key(x), key(sorted[0])) then [x] + sorted
    else [sorted[0]] + Insert(sorted[1..], x, key)
  }

  /** A stable sort by key. */
  function Sort<T>(items: seq<T>, key: T -> string): seq<T> {
    if items == [] then [] else Insert(Sort(items[..|items| - 1], key), items[|items| - 1], key)
  }

  ghost predicate Ordered<T>(s: seq<T>, key: T -> string) {
    forall i, j | 0 <= i < j < |s| :: !TextLess(key(s[j]), key(s[i]))
  }

  lemma {:induction false} InsertKeeps<T>(sorted: seq<T>, x: T, key: T -> string)
    requires Ordered(sorted, key)
    ensures Ordered(Insert(sorted, x, key), key)
    ensures multiset(Insert(sorted, x, key)) == multiset(sorted) + multiset{x}
  {
    if sorted != [] {
      var head, rest := sorted[0], sorted[1..];
      assert sorted == [head] + rest;
      if TextLess(key(x), key(head)) {
        forall j | 0 <= j < |sorted|
          ensures !TextLess(key(sorted[j]), key(x))
        {
          NotBelow(key(x), key(head), key(sorted[j]));
        }
      } else {
        InsertKeeps(rest, x, key);
        var tail := Insert(rest, x, key);
        forall y | y in tail
          ensures !TextLess(key(y), key(head))
        {
          assert y in multiset(tail);
          assert y in rest || y == x;
        }
      }
    }
  }

  /** What is not below something greater than x is not below x. */
  lemma NotBelow(x: string, above: string, y: string)
    requires TextLess(x, above) && (y == above || !TextLess(y, above))
    ensures !TextLess(y, x)
  {
    if TextLess(y, x) {
      TextTransitive(y, x, above);
      TextIrreflexive(above);
    }
  }

  lemma {:induction false} SortOrders<T>(items: seq<T>, key: T -> string)
    ensures Ordered(Sort(items, key), key)
    ensures multiset(Sort(items, key)) == multiset(items)
  {
    if items != [] {
      var init, last := items[..|items| - 1], items[|items| - 1];
      SortOrders(init, key);
      InsertKeeps(Sort(init, key), last, key);
      assert items == init + [last];
    }
  }

  // ---- Strictly ascending names ----

  ghost predicate Ascending(s: seq<string>) {
    forall i, j | 0 <= i < j < |s| :: TextLess(s[i], s[j])
  }

  lemma AscendingIsDistinct(s: seq<string>)
    requires Ascending(s)
    ensures Distinct(s)
  {
    forall i, j | 0 <= i < j < |s|
      ensures s[i] != s[j]
    {
      TextIrreflexive(s[i]);
    }
  }

  function Above(name: string, names: set<string>): set<string> {
    set m | m in names && TextLess(name, m)
  }

  lemma RankOf(s: seq<string>, i: nat)
    requires Ascending(s) && i < |s|
    ensures |Above(s[i], Elements(s))| == |s| - 1 - i
  {
    var rest := s[i + 1..];
    AscendingIsDistinct(s);
    DistinctSize(rest);
    forall m | m in s
      ensures TextLess(s[i], m) <==> m in rest
    {
      var k :| 0 <= k < |s| && s[k] == m;
      if k > i {
        assert rest[k - i - 1] == m;
      } else {
        NotAbove(s, k, i);
      }
    }
    assert Above(s[i], Elements(s)) == Elements(rest);
  }

  lemma NotAbove(s: seq<string>, k: nat, i: nat)
    requires Ascending(s) && k <= i < |s|
    ensures s[k] !in s[i + 1..] && !TextLess(s[i], s[k])
  {
    AscendingIsDistinct(s);
    TextIrreflexive(s[i]);
    if k < i && TextLess(s[i], s[k]) {
      TextTransitive(s[i], s[k], s[i]);
    }
  }

  /** The names with fewer than n names above them. */
  function Newest(names: set<string>, n: nat): set<string> {
    set m | m in names && |Above(m, names)| < n
  }

  /** Of strictly ascending names, the newest n are the last n. */
  lemma NewestAreLast(s: seq<string>, n: nat)
    requires Ascending(s)
    ensures Newest(Elements(s), n) == Elements(if |s| <= n then s else s[|s| - n..])
  {
    var kept := if |s| <= n then s else s[|s| - n..];
    AscendingIsDistinct(s);
    forall i | 0 <= i < |s|
      ensures s[i] in Newest(Elements(s), n) <==> s[i] in kept
    {
      RankOf(s, i);
      if |s| > n && i >= |s| - n {
        assert kept[i - (|s| - n)] == s[i];
      }
    }
  }
}
