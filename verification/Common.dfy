/** Small types shared by every component of the model, and facts about sets and sequences. */
module Common {

  datatype Option<+T> = None | Some(value: T)

  /** What a service function reports: a value, or one of the service exceptions. */
  datatype Result<+T, +E> = Ok(value: T) | Err(error: E)

  /** The service layer's exceptions (service/_shared.py). */
  datatype ServiceError = NotFound | Conflict | Invalid

  /** A strict subset of a finite set is strictly smaller. */
  lemma {:induction false} StrictSubsetIsSmaller<T>(a: set<T>, b: set<T>)
    requires a < b
    ensures |a| < |b|
  {
    var x :| x in b && x !in a;
    SubsetIsNoLarger(a, b - {x});
    assert |b - {x}| == |b| - 1;
  }

  lemma {:induction false} SubsetIsNoLarger<T>(a: set<T>, b: set<T>)
    requires a <= b
    ensures |a| <= |b|
  {
    if a != {} {
      var x :| x in a;
      SubsetIsNoLarger(a - {x}, b - {x});
    }
  }

  /** The elements of a sequence that satisfy `p`, in order. */
  function Filter<T>(p: T -> bool, s: seq<T>): seq<T> {
    if s == [] then [] else if p(s[0]) then [s[0]] + Filter(p, s[1..]) else Filter(p, s[1..])
  }

  /** Filtering keeps each element that satisfies `p` as often as it occurs, and no other. */
  lemma {:induction false} FilterKeeps<T>(p: T -> bool, s: seq<T>, x: T)
    ensures multiset(Filter(p, s))[x] == if p(x) then multiset(s)[x] else 0
    ensures x in Filter(p, s) <==> x in s && p(x)
  {
    if s != [] {
      FilterKeeps(p, s[1..], x);
      assert s == [s[0]] + s[1..];
      if p(s[0]) { assert Filter(p, s) == [s[0]] + Filter(p, s[1..]); }
    }
  }

  /** Filtering keeps the order: what is kept of a beginning comes first. */
  lemma {:induction false} FilterConcat<T>(p: T -> bool, a: seq<T>, b: seq<T>)
    ensures Filter(p, a + b) == Filter(p, a) + Filter(p, b)
  {
    if a == [] {
      assert a + b == b;
    } else {
      FilterConcat(p, a[1..], b);
      assert (a + b)[0] == a[0] && (a + b)[1..] == a[1..] + b;
    }
  }

  lemma {:induction false} FilterAgrees<T>(p: T -> bool, q: T -> bool, s: seq<T>)
    requires forall x | x in s :: p(x) == q(x)
    ensures Filter(p, s) == Filter(q, s)
  {
    if s != [] { FilterAgrees(p, q, s[1..]); }
  }

  lemma {:induction false} FilterIsShorter<T>(p: T -> bool, s: seq<T>)
    ensures |Filter(p, s)| <= |s|
  {
    if s != [] { FilterIsShorter(p, s[1..]); }
  }

  /** `m` comes before everything in `s`, itself included. */
  predicate IsLeast<T(==)>(le: (T, T) -> bool, s: set<T>, m: T) {
    m in s && forall k | k in s :: le(m, k)
  }

  /** A finite set has a least element under any total preorder. */
  lemma {:induction false} LeastExists<T>(le: (T, T) -> bool, s: set<T>)
    requires s != {}
    requires forall a, b | a in s && b in s :: le(a, b) || le(b, a)
    requires forall a, b, c | a in s && b in s && c in s && le(a, b) && le(b, c) :: le(a, c)
    ensures exists m :: IsLeast(le, s, m)
  {
    var x :| x in s;
    var rest := s - {x};
    if rest == {} {
      assert s == {x};
      assert IsLeast(le, s, x);
    } else {
      LeastExists(le, rest);
      var m :| IsLeast(le, rest, m);
      assert IsLeast(le, s, if le(x, m) then x else m);
    }
  }

  ghost function SumOver<T>(f: T -> int, s: set<T>): int {
    if s == {} then 0 else var x :| x in s; f(x) + SumOver(f, s - {x})
  }

  /** The sum does not depend on which element is taken first. */
  lemma {:induction false} SumTakes<T>(f: T -> int, s: set<T>, x: T)
    requires x in s
    ensures SumOver(f, s) == f(x) + SumOver(f, s - {x})
    decreases |s|
  {
    var y :| y in s && SumOver(f, s) == f(y) + SumOver(f, s - {y});
    if x != y {
      SumTakes(f, s - {y}, x);
      SumTakes(f, s - {x}, y);
      assert s - {y} - {x} == s - {x} - {y};
    }
  }

  lemma {:induction false} SumAgrees<T>(f: T -> int, g: T -> int, s: set<T>)
    requires forall x | x in s :: f(x) == g(x)
    ensures SumOver(f, s) == SumOver(g, s)
    decreases |s|
  {
    if s != {} {
      var x :| x in s;
      SumTakes(f, s, x);
      SumTakes(g, s, x);
      SumAgrees(f, g, s - {x});
    }
  }

  function SetOf<T>(s: seq<T>): set<T> { set x | x in s }

  /** Some order of a set. */
  lemma {:induction false} ListOf<T>(s: set<T>) returns (list: seq<T>)
    ensures SetOf(list) == s
    decreases |s|
  {
    if s == {} { return []; }
    var x :| x in s;
    var rest := ListOf(s - {x});
    list := [x] + rest;
    assert forall y :: y in list <==> y == x || y in rest;
    assert forall y :: y in rest <==> y in SetOf(rest);
  }

  predicate Distinct<T(==)>(s: seq<T>) {
    forall i, j | 0 <= i < j < |s| :: s[i] != s[j]
  }
}
