/** The array operations every handler of the tracker is built from: `reduce` summing a
    numeric projection, `filter`, `find` (first match) and `map` replacing the elements a
    selector picks. Each is a function over `seq`, with the facts the handlers rely on. */
module Seqs {
  import opened Wrappers

  /** `s.reduce((sum, x) => sum + f(x), 0)`: a left fold, so it recurses on the last element. */
  function Sum<T>(s: seq<T>, f: T -> real): real
  {
    if s == [] then 0.0 else Sum(s[..|s| - 1], f) + f(s[|s| - 1])
  }

  /** `r` is a subsequence of `s`: `s` with some elements dropped and the rest in order. */
  predicate SubsequenceOf<T(==)>(r: seq<T>, s: seq<T>)
  {
    if r == [] then true
    else if s == [] then false
    else if r[|r| - 1] == s[|s| - 1] && SubsequenceOf(r[..|r| - 1], s[..|s| - 1]) then true
    else SubsequenceOf(r, s[..|s| - 1])
  }

  /** `r` keeps exactly the elements of `s` that satisfy `keep`, each as often as in `s`,
      in their order in `s`. */
  ghost predicate KeepsExactly<T>(r: seq<T>, s: seq<T>, keep: T -> bool)
  {
    && SubsequenceOf(r, s)
    && forall x :: x in s ==> multiset(r)[x] == if keep(x) then multiset(s)[x] else 0
  }

  /** `s.filter(keep)`. */
  function Filter<T(==)>(s: seq<T>, keep: T -> bool): (r: seq<T>)
    ensures |r| <= |s|
  {
    if s == [] then []
    else
      var init, last := s[..|s| - 1], s[|s| - 1];
      Filter(init, keep) + (if keep(last) then [last] else [])
  }

  /** `filter` keeps exactly the elements `keep` accepts, in order. */
  lemma {:induction false} FilterKeepsExactly<T>(s: seq<T>, keep: T -> bool)
    ensures KeepsExactly(Filter(s, keep), s, keep)
  {
    if s != [] {
      var init, last := s[..|s| - 1], s[|s| - 1];
      assert s == init + [last];
      var r' := Filter(init, keep);
      FilterKeepsExactly(init, keep);
      SubsequenceExtend(r', init, last);
      var r := Filter(s, keep);
      if keep(last) {
        assert r == r' + [last];
      } else {
        assert r == r';
      }
      assert SubsequenceOf(r, s);
      assert multiset(r) == multiset(r') + (if keep(last) then multiset{last} else multiset{});
      assert multiset(s) == multiset(init) + multiset{last};
      forall x | x in s ensures multiset(r)[x] == if keep(x) then multiset(s)[x] else 0 {
        if x != last {
          assert x in init;
        } else if x !in init {
          SubsequenceMultiset(r', init);
          assert multiset(r')[x] == 0;
        }
      }
    }
  }

  /** An element is in a filtered list exactly when it is in the list and `keep` accepts it. */
  lemma FilterMembers<T>(s: seq<T>, keep: T -> bool)
    ensures forall x :: x in Filter(s, keep) <==> x in s && keep(x)
  {
    var r := Filter(s, keep);
    FilterKeepsExactly(s, keep);
    SubsequenceMultiset(r, s);
    forall x | x in r ensures x in s && keep(x) {
      assert multiset(r)[x] > 0;
    }
  }

  /** Extending `s` by an element keeps a subsequence one, with or without that element. */
  lemma SubsequenceExtend<T>(r: seq<T>, s: seq<T>, x: T)
    requires SubsequenceOf(r, s)
    ensures SubsequenceOf(r, s + [x]) && SubsequenceOf(r + [x], s + [x])
  {
    assert (s + [x])[..|s|] == s;
    assert (r + [x])[..|r|] == r;
  }

  /** `s.find(sel)`: the first element that `sel` picks, if any (see `FindNone`,
      `FindFirst` and `FindIsFirst`). */
  function Find<T>(s: seq<T>, sel: T -> bool): (r: Option<T>)
    ensures r.Some? ==> r.value in s && sel(r.value)
  {
    if s == [] then None
    else if sel(s[0]) then Some(s[0])
    else
      var r := Find(s[1..], sel);
      assert r.Some? ==> r.value in s[1..];
      r
  }

  /** `s.map(x => sel(x) ? upd(x) : x)`. */
  function Replace<T>(s: seq<T>, sel: T -> bool, upd: T -> T): (r: seq<T>)
    ensures |r| == |s|
    ensures forall i :: 0 <= i < |s| ==> r[i] == if sel(s[i]) then upd(s[i]) else s[i]
  {
    if s == [] then []
    else
      var last := s[|s| - 1];
      Replace(s[..|s| - 1], sel, upd) + [if sel(last) then upd(last) else last]
  }

  // ---------------------------------------------------------------------------
  // Find

  /** `find` comes back empty exactly when `sel` picks no element. */
  lemma {:induction false} FindNone<T>(s: seq<T>, sel: T -> bool)
    ensures Find(s, sel).None? <==> forall i :: 0 <= i < |s| ==> !sel(s[i])
  {
    if s != [] && !sel(s[0]) {
      FindNone(s[1..], sel);
      assert forall i :: 1 <= i < |s| ==> s[i] == s[1..][i - 1];
    }
  }

  /** What `find` returns sits at an index that `sel` picks and before which it picks none. */
  lemma {:induction false} FindFirst<T>(s: seq<T>, sel: T -> bool)
    ensures Find(s, sel).Some? ==>
              exists i :: 0 <= i < |s| && s[i] == Find(s, sel).value && sel(s[i]) &&
                          forall j :: 0 <= j < i ==> !sel(s[j])
  {
    if s != [] && !sel(s[0]) && Find(s, sel).Some? {
      FindFirst(s[1..], sel);
      var i :| 0 <= i < |s[1..]| && s[1..][i] == Find(s, sel).value && sel(s[1..][i]) &&
               forall j :: 0 <= j < i ==> !sel(s[1..][j]);
      assert s[i + 1] == s[1..][i];
      assert forall j :: 1 <= j < i + 1 ==> s[j] == s[1..][j - 1];
    } else if s != [] && sel(s[0]) {
      assert s[0] == Find(s, sel).value;
    }
  }

  /** The first match is determined by its index: any element that `sel` picks and that
      has no match before it is what `Find` returns. */
  lemma {:induction false} FindIsFirst<T>(s: seq<T>, sel: T -> bool, i: nat)
    requires i < |s| && sel(s[i])
    requires forall j :: 0 <= j < i ==> !sel(s[j])
    ensures Find(s, sel) == Some(s[i])
  {
    if i > 0 {
      assert !sel(s[0]);
      assert forall j :: 0 <= j < i - 1 ==> s[1..][j] == s[j + 1];
      FindIsFirst(s[1..], sel, i - 1);
    }
  }

  /** An element appended at the end is found only when nothing earlier matches. */
  lemma {:induction false} FindAppend<T>(s: seq<T>, x: T, sel: T -> bool)
    ensures Find(s + [x], sel) == if Find(s, sel).Some? then Find(s, sel) else if sel(x) then Some(x) else None
  {
    if s != [] {
      assert (s + [x])[1..] == s[1..] + [x];
      FindAppend(s[1..], x, sel);
    }
  }

  /** Dropping elements that `sel` never picks does not change what `find` returns. */
  lemma {:induction false} FindFilter<T>(s: seq<T>, keep: T -> bool, sel: T -> bool)
    requires forall x :: x in s && sel(x) ==> keep(x)
    ensures Find(Filter(s, keep), sel) == Find(s, sel)
  {
    if s != [] {
      var init, last := s[..|s| - 1], s[|s| - 1];
      assert s == init + [last];
      FindFilter(init, keep, sel);
      FindAppend(init, last, sel);
      if keep(last) {
        assert Filter(s, keep) == Filter(init, keep) + [last];
        FindAppend(Filter(init, keep), last, sel);
      } else {
        assert Filter(s, keep) == Filter(init, keep);
        assert last in s;
      }
    }
  }

  // ---------------------------------------------------------------------------
  // Sum

  lemma {:induction false} SumAppend<T>(a: seq<T>, b: seq<T>, f: T -> real)
    ensures Sum(a + b, f) == Sum(a, f) + Sum(b, f)
  {
    if b == [] {
      assert a + b == a;
    } else {
      var ab := a + b;
      var b' := b[..|b| - 1];
      assert ab[..|ab| - 1] == a + b';
      assert ab[|ab| - 1] == b[|b| - 1];
      SumAppend(a, b', f);
    }
  }

  /** An element appended at the end adds its own term. */
  lemma SumSnoc<T>(s: seq<T>, x: T, f: T -> real)
    ensures Sum(s + [x], f) == Sum(s, f) + f(x)
  {
    var s' := s + [x];
    assert s'[..|s'| - 1] == s;
  }

  /** Sums agree when the projections agree on every element. */
  lemma {:induction false} SumCongruent<T>(s: seq<T>, f: T -> real, g: T -> real)
    requires forall x :: x in s ==> f(x) == g(x)
    ensures Sum(s, f) == Sum(s, g)
  {
    if s != [] {
      SumCongruent(s[..|s| - 1], f, g);
    }
  }

  /** A sum of zeros is zero. */
  lemma {:induction false} SumZero<T>(s: seq<T>, f: T -> real)
    requires forall x :: x in s ==> f(x) == 0.0
    ensures Sum(s, f) == 0.0
  {
    if s != [] {
      SumZero(s[..|s| - 1], f);
    }
  }

  /** The sum of a pointwise sum is the sum of the sums. */
  lemma {:induction false} SumPointwise<T>(s: seq<T>, f: T -> real, g: T -> real, h: T -> real)
    requires forall x :: x in s ==> f(x) == g(x) + h(x)
    ensures Sum(s, f) == Sum(s, g) + Sum(s, h)
  {
    if s != [] {
      SumPointwise(s[..|s| - 1], f, g, h);
    }
  }

  /** A constant factor moves out of the sum. */
  lemma {:induction false} SumScale<T>(s: seq<T>, f: T -> real, g: T -> real, c: real)
    requires forall x :: x in s ==> g(x) == c * f(x)
    ensures Sum(s, g) == c * Sum(s, f)
  {
    if s != [] {
      SumScale(s[..|s| - 1], f, g, c);
    }
  }

  /** Summing a filtered list is summing the whole list with the dropped elements counted as 0. */
  lemma {:induction false} SumFilter<T>(s: seq<T>, keep: T -> bool, f: T -> real, g: T -> real)
    requires forall x :: x in s ==> g(x) == if keep(x) then f(x) else 0.0
    ensures Sum(Filter(s, keep), f) == Sum(s, g)
  {
    if s != [] {
      var init, last := s[..|s| - 1], s[|s| - 1];
      assert s == init + [last];
      SumFilter(init, keep, f, g);
      SumAppend(Filter(init, keep), if keep(last) then [last] else [], f);
      assert Sum([last], f) == f(last);
    }
  }

  /** A list's sum splits into the sum of what a filter keeps and the sum of what it drops. */
  lemma SumSplit<T>(s: seq<T>, keep: T -> bool, drop: T -> bool, f: T -> real)
    requires forall x :: x in s ==> drop(x) == !keep(x)
    ensures Sum(s, f) == Sum(Filter(s, keep), f) + Sum(Filter(s, drop), f)
  {
    var g := (x: T) => if keep(x) then f(x) else 0.0;
    var h := (x: T) => if drop(x) then f(x) else 0.0;
    SumFilter(s, keep, f, g);
    SumFilter(s, drop, f, h);
    SumPointwise(s, f, g, h);
  }

  /** With non-negative terms, summing what a weaker filter keeps never gives less. */
  lemma {:induction false} SumFilterMonotone<T>(s: seq<T>, p: T -> bool, q: T -> bool, f: T -> real)
    requires forall x :: x in s ==> (p(x) ==> q(x)) && f(x) >= 0.0
    ensures Sum(Filter(s, p), f) <= Sum(Filter(s, q), f)
  {
    if s != [] {
      var init, last := s[..|s| - 1], s[|s| - 1];
      assert s == init + [last];
      SumFilterMonotone(init, p, q, f);
      SumAppend(Filter(init, p), if p(last) then [last] else [], f);
      SumAppend(Filter(init, q), if q(last) then [last] else [], f);
      assert Sum([last], f) == f(last);
    }
  }

  /** Replacing the selected elements changes the sum by the change of each of them. */
  lemma {:induction false} SumReplace<T>(s: seq<T>, sel: T -> bool, upd: T -> T, f: T -> real, d: T -> real)
    requires forall x :: x in s ==> d(x) == f(upd(x)) - f(x)
    ensures Sum(Replace(s, sel, upd), f) == Sum(s, f) + Sum(Filter(s, sel), d)
  {
    if s != [] {
      var init, last := s[..|s| - 1], s[|s| - 1];
      assert s == init + [last];
      SumReplace(init, sel, upd, f, d);
      var r := Replace(s, sel, upd);
      assert r[..|r| - 1] == Replace(init, sel, upd);
      SumAppend(Filter(init, sel), if sel(last) then [last] else [], d);
      assert Sum([last], d) == d(last);
    }
  }

  // ---------------------------------------------------------------------------
  // Filter

  /** Filters agree when their predicates agree on every element. */
  lemma {:induction false} FilterCongruent<T>(s: seq<T>, p: T -> bool, q: T -> bool)
    requires forall x :: x in s ==> p(x) == q(x)
    ensures Filter(s, p) == Filter(s, q)
  {
    if s != [] {
      var init := s[..|s| - 1];
      assert s == init + [s[|s| - 1]];
      FilterCongruent(init, p, q);
    }
  }

  /** A filter that keeps every element returns the list itself. */
  lemma {:induction false} FilterAll<T>(s: seq<T>, keep: T -> bool)
    requires forall x :: x in s ==> keep(x)
    ensures Filter(s, keep) == s
  {
    if s != [] {
      var init := s[..|s| - 1];
      assert s == init + [s[|s| - 1]];
      FilterAll(init, keep);
    }
  }

  /** A second filter that implies the first makes the first redundant. */
  lemma {:induction false} FilterNested<T>(s: seq<T>, p: T -> bool, q: T -> bool)
    requires forall x :: x in s && q(x) ==> p(x)
    ensures Filter(Filter(s, p), q) == Filter(s, q)
  {
    if s != [] {
      var init, last := s[..|s| - 1], s[|s| - 1];
      assert s == init + [last];
      FilterNested(init, p, q);
      FilterAppend(Filter(init, p), if p(last) then [last] else [], q);
    }
  }

  lemma {:induction false} FilterAppend<T>(a: seq<T>, b: seq<T>, keep: T -> bool)
    ensures Filter(a + b, keep) == Filter(a, keep) + Filter(b, keep)
  {
    if b == [] {
      assert a + b == a;
    } else {
      var ab := a + b;
      var b' := b[..|b| - 1];
      assert ab[..|ab| - 1] == a + b';
      assert ab[|ab| - 1] == b[|b| - 1];
      FilterAppend(a, b', keep);
    }
  }

  // ---------------------------------------------------------------------------
  // KeepsExactly pins its result down

  lemma {:induction false} SubsequenceMultiset<T>(r: seq<T>, s: seq<T>)
    requires SubsequenceOf(r, s)
    ensures multiset(r) <= multiset(s)
  {
    if r != [] {
      var s' := s[..|s| - 1];
      assert s == s' + [s[|s| - 1]];
      if r[|r| - 1] == s[|s| - 1] && SubsequenceOf(r[..|r| - 1], s') {
        SubsequenceMultiset(r[..|r| - 1], s');
        assert r == r[..|r| - 1] + [r[|r| - 1]];
      } else {
        SubsequenceMultiset(r, s');
      }
    }
  }

  /** Two lists that keep exactly the same elements of `s` are equal: `KeepsExactly` is a
      complete description of `filter`, independent of how `Filter` computes. */
  lemma {:induction false} KeepsExactlyUnique<T>(r1: seq<T>, r2: seq<T>, s: seq<T>, keep: T -> bool)
    requires KeepsExactly(r1, s, keep) && KeepsExactly(r2, s, keep)
    ensures r1 == r2
  {
    if s == [] {
      assert r1 == [] && r2 == [];
    } else {
      var s', x := s[..|s| - 1], s[|s| - 1];
      assert s == s' + [x];
      var r1' := Peel(r1, s', x, keep);
      var r2' := Peel(r2, s', x, keep);
      KeepsExactlyUnique(r1', r2', s', keep);
    }
  }

  /** One step of the uniqueness proof: taking the last element `x` off `s` takes it off `r`
      exactly when `keep(x)`. */
  lemma Peel<T>(r: seq<T>, s': seq<T>, x: T, keep: T -> bool) returns (r': seq<T>)
    requires KeepsExactly(r, s' + [x], keep)
    ensures KeepsExactly(r', s', keep)
    ensures r == if keep(x) then r' + [x] else r'
  {
    var s := s' + [x];
    assert s[..|s| - 1] == s';
    if r != [] && r[|r| - 1] == x && SubsequenceOf(r[..|r| - 1], s') {
      r' := r[..|r| - 1];
      assert r == r' + [x];
      assert multiset(r)[x] == multiset(r')[x] + 1;
      SubsequenceMultiset(r', s');
      assert keep(x);
    } else {
      r' := r;
      assert SubsequenceOf(r, s');
      SubsequenceMultiset(r, s');
      assert multiset(r)[x] <= multiset(s')[x] < multiset(s)[x];
      assert !keep(x);
    }
    forall y ensures multiset(r')[y] == if keep(y) then multiset(s')[y] else 0 {
      if y != x {
        assert multiset(s)[y] == multiset(s')[y];
      }
    }
  }
}
