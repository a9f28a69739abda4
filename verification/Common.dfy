/** Small shared vocabulary: optional values, outcomes, and sorting a finite set. */
module Options {

  datatype Option<+T> = None | Some(value: T)

  /** A transaction either commits with a value or raises and is rolled back. */
  datatype Outcome<+T, +E> = Committed(value: T) | Raised(error: E)
}

/** `ORDER BY` over a finite set of rows, for any strict total order. */
module Sorting {

  ghost predicate StrictTotal<T(!new)>(less: (T, T) -> bool) {
    && (forall a :: !less(a, a))
    && (forall a, b, c :: less(a, b) && less(b, c) ==> less(a, c))
    && (forall a, b :: a == b || less(a, b) || less(b, a))
  }

  ghost predicate Ascending<T>(less: (T, T) -> bool, r: seq<T>) {
    forall i, j :: 0 <= i < j < |r| ==> less(r[i], r[j])
  }

  lemma Ordered<T(!new)>(less: (T, T) -> bool, a: T, b: T, c: T)
    requires StrictTotal(less)
    ensures !less(a, a)
    ensures a == b || less(a, b) || less(b, a)
    ensures less(a, b) && less(b, c) ==> less(a, c)
  {
  }

  lemma LeastExists<T(!new)>(s: set<T>, less: (T, T) -> bool)
    requires StrictTotal(less) && s != {}
    ensures exists m :: m in s && forall u :: u in s ==> u == m || less(m, u)
    decreases s
  {
    hide StrictTotal;
    var m :| m in s;
    var rest := s - {m};
    var least := m;
    if rest != {} {
      LeastExists(rest, less);
      var n :| n in rest && forall u :: u in rest ==> u == n || less(n, u);
      least := if less(n, m) then n else m;
      Ordered(less, m, n, n);
      forall u | u in rest ensures u == least || less(least, u) {
        Ordered(less, m, n, u);
      }
    }
    assert forall u :: u in s ==> u == m || u in rest;
    assert least in s && forall u :: u in s ==> u == least || less(least, u);
  }

  function Least<T(!new)>(s: set<T>, less: (T, T) -> bool): (m: T)
    requires StrictTotal(less) && s != {}
    ensures m in s && forall u :: u in s ==> u == m || less(m, u)
  {
    LeastExists(s, less);
    var m :| m in s && forall u :: u in s ==> u == m || less(m, u);
    m
  }

  function Sorted<T(!new)>(s: set<T>, less: (T, T) -> bool): (r: seq<T>)
    requires StrictTotal(less)
    ensures |r| == |s|
    ensures forall x :: x in r <==> x in s
    ensures Ascending(less, r)
    decreases s
  {
    if s == {} then []
    else
      var m := Least(s, less);
      var rest := Sorted(s - {m}, less);
      assert forall i :: 0 <= i < |rest| ==> rest[i] in s - {m};
      [m] + rest
  }

  /** `ORDER BY ... LIMIT few`. */
  function FirstFew<T(!new)>(s: set<T>, less: (T, T) -> bool, few: nat): (r: seq<T>)
    requires StrictTotal(less)
    ensures |r| == if |s| < few then |s| else few
    ensures forall x :: x in r ==> x in s
    ensures Ascending(less, r)
    ensures forall x, i :: x in s && x !in r && 0 <= i < |r| ==> less(r[i], x)
    ensures forall i, j :: 0 <= i < j < |r| ==> r[i] != r[j]
    ensures |s| <= few ==> forall x :: x in s ==> x in r
  {
    var all := Sorted(s, less);
    var r := all[..if |all| < few then |all| else few];
    assert forall i, j :: 0 <= i < j < |all| ==> less(all[i], all[j]);
    assert |s| <= few ==> r == all;
    r
  }

  lemma PickedComeFirst<T(!new)>(s: set<T>, less: (T, T) -> bool, few: nat, a: T, b: T)
    requires StrictTotal(less)
    requires a in FirstFew(s, less, few) && b in s && b !in FirstFew(s, less, few)
    ensures less(a, b)
  {
    hide *;
  }

  function Preceding<T(!new)>(s: set<T>, less: (T, T) -> bool, x: T): (r: set<T>)
    ensures forall y :: y in r <==> y in s && less(y, x)
  {
    set y | y in s && less(y, x)
  }

  function Members<T(!new)>(r: seq<T>, n: nat): (m: set<T>)
    requires n <= |r|
    ensures forall y :: y in m <==> y in r[..n]
  {
    set y | y in r[..n]
  }

  lemma {:induction false} MemberCount<T(!new)>(r: seq<T>, n: nat)
    requires n <= |r| && forall i, j :: 0 <= i < j < |r| ==> r[i] != r[j]
    ensures |Members(r, n)| == n
  {
    if n == 0 {
      assert Members(r, 0) == {};
    } else {
      MemberCount(r, n - 1);
      assert r[..n] == r[..n - 1] + [r[n - 1]];
      assert Members(r, n) == Members(r, n - 1) + {r[n - 1]};
    }
  }

  lemma Asymmetric<T(!new)>(less: (T, T) -> bool, a: T, b: T)
    requires StrictTotal(less) && less(a, b)
    ensures !less(b, a) && a != b
  {
  }

  lemma PrecedesPicked<T(!new)>(s: set<T>, less: (T, T) -> bool, few: nat, n: nat, y: T)
    requires StrictTotal(less) && n < |FirstFew(s, less, few)| && y in s
    ensures less(y, FirstFew(s, less, few)[n]) <==> y in FirstFew(s, less, few)[..n]
  {
    var r := FirstFew(s, less, few);
    hide FirstFew;
    if y in r {
      var i :| 0 <= i < |r| && r[i] == y;
      assert y in r[..n] <==> i < n;
      if n < i {
        Asymmetric(less, r[n], y);
      }
      Ordered(less, y, y, y);
    } else {
      assert less(r[n], y);
      Asymmetric(less, r[n], y);
    }
  }

  /** `LIMIT few` keeps exactly what fewer than `few` others come before. */
  lemma PickedIffFewPrecede<T(!new)>(s: set<T>, less: (T, T) -> bool, few: nat, x: T)
    requires StrictTotal(less) && x in s
    ensures x in FirstFew(s, less, few) <==> |Preceding(s, less, x)| < few
  {
    var r := FirstFew(s, less, few);
    var before := Preceding(s, less, x);
    hide FirstFew;
    hide Preceding;
    hide Members;
    if x in r {
      var n :| 0 <= n < |r| && r[n] == x;
      MemberCount(r, n);
      forall y ensures y in before <==> y in Members(r, n) {
        if y in s { PrecedesPicked(s, less, few, n, y); }
        assert y in r[..n] ==> y in r;
      }
      hide StrictTotal;
      assert before == Members(r, n);
    } else {
      assert r[..|r|] == r;
      assert forall i :: 0 <= i < |r| ==> less(r[i], x);
      hide StrictTotal;
      MemberCount(r, |r|);
      SubsetCount(Members(r, |r|), before);
    }
  }

  lemma SubsetCount<T>(a: set<T>, b: set<T>)
    requires a <= b
    ensures |a| <= |b|
  {
    assert b == a + (b - a);
  }
}

/** Lists whose members are distinct, and the sets they stand for. */
module Lists {

  function Elements<T(!new)>(s: seq<T>): (r: set<T>)
    ensures forall x :: x in r <==> x in s
  {
    set x | x in s
  }

  predicate Distinct<T(==)>(s: seq<T>) {
    forall i, j :: 0 <= i < j < |s| ==> s[i] != s[j]
  }

  lemma DistinctConcat<T>(a: seq<T>, b: seq<T>)
    requires Distinct(a) && Distinct(b) && forall x :: x in b ==> x !in a
    ensures Distinct(a + b)
  {
    forall i, j | 0 <= i < j < |a + b| ensures (a + b)[i] != (a + b)[j] {
      assert j >= |a| ==> (a + b)[j] in b;
      assert i < |a| ==> (a + b)[i] in a;
    }
  }

  lemma {:induction false} ElementCount<T(!new)>(s: seq<T>)
    ensures |Elements(s)| <= |s| && (Distinct(s) ==> |Elements(s)| == |s|)
  {
    hide Elements;
    if s == [] {
      assert Elements(s) == {};
    } else {
      var last, rest := s[|s| - 1], s[..|s| - 1];
      ElementCount(rest);
      assert s == rest + [last];
      assert Distinct(s) ==> last !in rest;
      assert Elements(s) == Elements(rest) + {last};
    }
  }
}

/** SQLite row ids without AUTOINCREMENT, where the next one is the largest present plus one, and queries
    that are expected to find a single row. */
module RowIds {
  import Sorting

  function Largest(s: set<nat>): (k: nat)
    ensures forall i :: i in s ==> i <= k
  {
    if s == {} then 0
    else
      var more := (a: nat, b: nat) => a > b;
      Sorting.Least(s, more)
  }

  function NextId<V>(m: map<nat, V>): (k: nat)
    ensures k !in m && k > 0 && forall i :: i in m ==> i < k
  {
    Largest(m.Keys) + 1
  }

  function TheOnly(s: set<nat>): (d: nat)
    requires |s| == 1
    ensures s == {d}
  {
    SingletonElement(s);
    var d :| d in s;
    d
  }

  lemma SingletonElement(s: set<nat>)
    requires |s| == 1
    ensures forall a, b :: a in s && b in s ==> a == b
    ensures forall a :: a in s ==> s == {a}
  {
    forall a | a in s ensures s == {a} {
      assert |s - {a}| == 0 && s == {a} + (s - {a});
    }
  }
}

/** Text in the order Python compares strings. */
module Names {

  predicate Before(a: string, b: string) {
    b != [] && (a == [] || a[0] < b[0] || (a[0] == b[0] && Before(a[1..], b[1..])))
  }

  lemma Irreflexive(a: string)
    ensures !Before(a, a)
  {
  }

  lemma {:induction false} Transitive(a: string, b: string, c: string)
    requires Before(a, b) && Before(b, c)
    ensures Before(a, c)
  {
    if a != [] && a[0] == b[0] == c[0] {
      Transitive(a[1..], b[1..], c[1..]);
    }
  }

  lemma {:induction false} Total(a: string, b: string)
    ensures a == b || Before(a, b) || Before(b, a)
  {
    if a != [] && b != [] && a[0] == b[0] {
      Total(a[1..], b[1..]);
      assert a == [a[0]] + a[1..] && b == [b[0]] + b[1..];
    }
  }
}
