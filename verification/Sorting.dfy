/** Python's stable sort by an order, and the code-point order of strings. */
module Sorting {
  import opened Common

  type Order<!T> = (T, T) -> bool

  ghost predicate Preorder<T(!new)>(le: Order<T>) {
    (forall x, y :: le(x, y) || le(y, x)) && (forall x, y, z :: le(x, y) && le(y, z) ==> le(x, z))
  }

  ghost predicate TotalOrder<T(!new)>(le: Order<T>) {
    Preorder(le) && forall x, y :: le(x, y) && le(y, x) ==> x == y
  }

  function Insert<T>(le: Order<T>, x: T, s: seq<T>): seq<T> {
    if s == [] || le(x, s[0]) then [x] + s else [s[0]] + Insert(le, x, s[1..])
  }

  function Sort<T>(le: Order<T>, s: seq<T>): seq<T> {
    if s == [] then [] else Insert(le, s[0], Sort(le, s[1..]))
  }

  ghost predicate SortedBy<T>(le: Order<T>, s: seq<T>) {
    forall i, j :: 0 <= i < j < |s| ==> le(s[i], s[j])
  }

  lemma {:induction false} InsertSorts<T(!new)>(le: Order<T>, x: T, s: seq<T>)
    requires Preorder(le) && SortedBy(le, s)
    ensures SortedBy(le, Insert(le, x, s)) && multiset(Insert(le, x, s)) == multiset(s) + multiset{x}
  {
    if s == [] || le(x, s[0]) {
    } else {
      InsertSorts(le, x, s[1..]);
      var rest := Insert(le, x, s[1..]);
      assert s == [s[0]] + s[1..];
      assert le(s[0], x);
      HeadIsLeast(le, s[0], x, s[1..], rest);
      PrependSorted(le, s[0], rest);
    }
  }

  lemma HeadIsLeast<T(!new)>(le: Order<T>, head: T, x: T, s: seq<T>, rest: seq<T>)
    requires le(head, x) && SortedBy(le, [head] + s) && multiset(rest) == multiset(s) + multiset{x}
    ensures forall j :: 0 <= j < |rest| ==> le(head, rest[j])
  {
    forall j | 0 <= j < |rest| ensures le(head, rest[j]) {
      assert rest[j] in multiset(rest);
      if rest[j] != x {
        var i :| 0 <= i < |s| && s[i] == rest[j];
        assert ([head] + s)[0] == head && ([head] + s)[i + 1] == s[i];
      }
    }
  }

  lemma PrependSorted<T>(le: Order<T>, head: T, rest: seq<T>)
    requires SortedBy(le, rest) && forall j :: 0 <= j < |rest| ==> le(head, rest[j])
    ensures SortedBy(le, [head] + rest)
  {
  }

  lemma {:induction false} SortSorts<T(!new)>(le: Order<T>, s: seq<T>)
    requires Preorder(le)
    ensures SortedBy(le, Sort(le, s)) && multiset(Sort(le, s)) == multiset(s) && |Sort(le, s)| == |s|
  {
    if s != [] {
      SortSorts(le, s[1..]);
      InsertSorts(le, s[0], Sort(le, s[1..]));
      assert s == [s[0]] + s[1..];
    }
    assert |multiset(Sort(le, s))| == |multiset(s)|;
  }

  /** Equal elements of the order keep their input order. */
  lemma {:induction false} InsertIsStable<T(!new)>(le: Order<T>, same: T -> bool, x: T, s: seq<T>)
    requires forall a, b :: same(a) && same(b) ==> le(a, b)
    ensures Filter(same, Insert(le, x, s)) == Filter(same, [x]) + Filter(same, s)
  {
    if s == [] || le(x, s[0]) {
      FilterSum(same, [x], s);
    } else {
      InsertIsStable(le, same, x, s[1..]);
      assert s == [s[0]] + s[1..];
      FilterSum(same, [s[0]], Insert(le, x, s[1..]));
      FilterSum(same, [s[0]], s[1..]);
      assert [x][1..] == [] && [s[0]][1..] == [];
    }
  }

  lemma {:induction false} SortIsStable<T(!new)>(le: Order<T>, same: T -> bool, s: seq<T>)
    requires forall a, b :: same(a) && same(b) ==> le(a, b)
    ensures Filter(same, Sort(le, s)) == Filter(same, s)
  {
    if s != [] {
      SortIsStable(le, same, s[1..]);
      InsertIsStable(le, same, s[0], Sort(le, s[1..]));
      assert s == [s[0]] + s[1..];
      FilterSum(same, [s[0]], s[1..]);
    }
  }

  lemma SortedHead<T(!new)>(le: Order<T>, a: seq<T>, x: T)
    requires SortedBy(le, a) && a != [] && x in multiset(a)
    ensures le(a[0], x) || a[0] == x
  {
    var i :| 0 <= i < |a| && a[i] == x;
  }

  lemma TailBag<T>(a: seq<T>)
    requires a != []
    ensures multiset(a[1..]) == multiset(a) - multiset{a[0]}
  {
    assert a == [a[0]] + a[1..];
  }

  /** Two sorted sequences with the same elements are equal. */
  lemma {:induction false} SortedIsUnique<T(!new)>(le: Order<T>, a: seq<T>, b: seq<T>)
    requires forall x, y :: le(x, y) && le(y, x) ==> x == y
    requires SortedBy(le, a) && SortedBy(le, b) && multiset(a) == multiset(b)
    ensures a == b
  {
    assert |multiset(a)| == |a| && |multiset(b)| == |b|;
    if a != [] {
      assert a[0] in multiset(a) && b[0] in multiset(b);
      SortedHead(le, a, b[0]);
      SortedHead(le, b, a[0]);
      TailBag(a);
      TailBag(b);
      SortedIsUnique(le, a[1..], b[1..]);
      assert a == [a[0]] + a[1..] && b == [b[0]] + b[1..];
    }
  }

  /** Sorting forgets exactly the order. */
  lemma SortEqualIff<T(!new)>(le: Order<T>, a: seq<T>, b: seq<T>)
    requires TotalOrder(le)
    ensures Sort(le, a) == Sort(le, b) <==> multiset(a) == multiset(b)
  {
    SortSorts(le, a);
    SortSorts(le, b);
    if multiset(a) == multiset(b) {
      SortedIsUnique(le, Sort(le, a), Sort(le, b));
    }
  }

  // ---- sorting a set -------------------------------------------------------------------------------

  /** `tuple(sorted(s))`. */
  method SortedTuple<T(!new, ==)>(le: Order<T>, s: set<T>) returns (r: seq<T>)
    requires TotalOrder(le)
    ensures SortedBy(le, r) && Distinct(r) && Elements(r) == s
  {
    r := [];
    var rest := s;
    while rest != {}
      invariant rest <= s && SortedBy(le, r) && multiset(r) == multiset(s - rest)
    {
      var p :| p in rest;
      InsertSorts(le, p, r);
      r := Insert(le, p, r);
      assert s - (rest - {p}) == (s - rest) + {p};
      rest := rest - {p};
    }
    assert s - rest == s;
    SetBagIsDistinct(r, s);
  }

  lemma RepeatCountsTwice<T>(r: seq<T>, i: nat, j: nat)
    requires i < j < |r|
    ensures r[i] == r[j] ==> multiset(r)[r[i]] >= 2
  {
    assert r == r[..i] + [r[i]] + r[i + 1..j] + [r[j]] + r[j + 1..];
  }

  lemma SetBagIsDistinct<T>(r: seq<T>, s: set<T>)
    requires multiset(r) == multiset(s)
    ensures Distinct(r) && Elements(r) == s
  {
    forall i, j | 0 <= i < j < |r| ensures r[i] != r[j] {
      RepeatCountsTwice(r, i, j);
      assert multiset(s)[r[i]] <= 1;
    }
    forall x ensures x in Elements(r) <==> x in s {
      assert x in multiset(r) <==> x in multiset(s);
    }
  }

  // ---- orders --------------------------------------------------------------------------------------

  function IntOrder(): Order<int> {
    (a: int, b: int) => a <= b
  }

  predicate LexLe(a: string, b: string) {
    a == "" || (b != "" && (a[0] < b[0] || (a[0] == b[0] && LexLe(a[1..], b[1..]))))
  }

  /** One text is at most another when it is a prefix of it, or smaller at the first place where they differ. */
  lemma {:induction false} LexLeIff(a: string, b: string)
    ensures LexLe(a, b) <==>
      a <= b || exists k :: 0 <= k < |a| && k < |b| && a[..k] == b[..k] && a[k] < b[k]
  {
    if a != "" && b != "" && a[0] == b[0] {
      LexLeIff(a[1..], b[1..]);
      assert a == [a[0]] + a[1..] && b == [b[0]] + b[1..];
      if k :| 0 <= k < |a| && k < |b| && a[..k] == b[..k] && a[k] < b[k] {
        assert a[1..][..k - 1] == a[..k][1..] && b[1..][..k - 1] == b[..k][1..];
        assert a[1..][k - 1] < b[1..][k - 1];
      }
      if k :| 0 <= k < |a[1..]| && k < |b[1..]| && a[1..][..k] == b[1..][..k] && a[1..][k] < b[1..][k] {
        assert a[..k + 1] == [a[0]] + a[1..][..k] && b[..k + 1] == [b[0]] + b[1..][..k];
        assert a[k + 1] < b[k + 1];
      }
    } else if a != "" && b != "" && a[0] < b[0] {
      assert a[..0] == b[..0];
    }
  }

  function StringOrder(): Order<string> {
    (a: string, b: string) => LexLe(a, b)
  }

  lemma {:induction false} LexTotal(a: string, b: string)
    ensures LexLe(a, b) || LexLe(b, a)
    ensures LexLe(a, b) && LexLe(b, a) ==> a == b
  {
    if a != "" && b != "" && a[0] == b[0] {
      LexTotal(a[1..], b[1..]);
      assert a == [a[0]] + a[1..] && b == [b[0]] + b[1..];
    }
  }

  lemma {:induction false} LexTransitive(a: string, b: string, c: string)
    requires LexLe(a, b) && LexLe(b, c)
    ensures LexLe(a, c)
  {
    if a != "" && a[0] == b[0] && b[0] == c[0] {
      LexTransitive(a[1..], b[1..], c[1..]);
    }
  }

  lemma StringOrderIsTotal()
    ensures TotalOrder(StringOrder())
  {
    forall a: string, b: string
      ensures (LexLe(a, b) || LexLe(b, a)) && (LexLe(a, b) && LexLe(b, a) ==> a == b)
    {
      LexTotal(a, b);
    }
    forall a: string, b: string, c: string | LexLe(a, b) && LexLe(b, c) ensures LexLe(a, c) {
      LexTransitive(a, b, c);
    }
  }
}
