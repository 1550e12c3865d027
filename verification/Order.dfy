/** The code-point order on strings that `sorted` uses, and sorting by a total preorder. */
module Order {

  predicate LexLess(a: string, b: string) {
    if b == [] then false
    else if a == [] then true
    else a[0] < b[0] || (a[0] == b[0] && LexLess(a[1..], b[1..]))
  }

  /** How many characters two strings share before they part. */
  function CommonLength(a: string, b: string): (d: nat)
    ensures d <= |a| && d <= |b| && (forall k :: 0 <= k < d ==> a[k] == b[k])
    ensures d < |a| && d < |b| ==> a[d] != b[d]
  {
    if a != [] && b != [] && a[0] == b[0] then 1 + CommonLength(a[1..], b[1..]) else 0
  }

  /** Where they part decides: by the smaller character, or by the end of the first string. */
  lemma {:induction false} LexMeaning(a: string, b: string)
    ensures LexLess(a, b) <==> var d := CommonLength(a, b); d < |b| && (d == |a| || a[d] < b[d])
  {
    if a != [] && b != [] && a[0] == b[0] {
      LexMeaning(a[1..], b[1..]);
    }
  }

  lemma {:induction false} LexTrichotomy(a: string, b: string)
    ensures LexLess(a, b) || a == b || LexLess(b, a)
    ensures !(LexLess(a, b) && LexLess(b, a))
    ensures a == b ==> !LexLess(a, b)
  {
    if a != [] && b != [] {
      LexTrichotomy(a[1..], b[1..]);
      if a[0] == b[0] && a[1..] == b[1..] {
        assert a == [a[0]] + a[1..] && b == [b[0]] + b[1..];
      }
    }
  }

  lemma {:induction false} LexTransitive(a: string, b: string, c: string)
    requires LexLess(a, b) && LexLess(b, c)
    ensures LexLess(a, c)
  {
    if a != [] && a[0] == b[0] == c[0] {
      LexTransitive(a[1..], b[1..], c[1..]);
    }
  }

  // ----- Sorting by a strict weak order

  ghost predicate StrictWeak<T(!new)>(less: (T, T) -> bool) {
    && (forall a :: !less(a, a))
    && (forall a, b, c :: less(a, b) && less(b, c) ==> less(a, c))
    && (forall a, b, c :: less(a, c) ==> less(a, b) || less(b, c))
  }

  /** Stable insertion: `x` goes before its equals. */
  function InsertBy<T>(x: T, s: seq<T>, less: (T, T) -> bool): seq<T> {
    if s == [] then [x]
    else if less(s[0], x) then [s[0]] + InsertBy(x, s[1..], less)
    else [x] + s
  }

  function SortBy<T>(s: seq<T>, less: (T, T) -> bool): seq<T> {
    if s == [] then [] else InsertBy(s[0], SortBy(s[1..], less), less)
  }

  ghost predicate Nondecreasing<T>(s: seq<T>, less: (T, T) -> bool) {
    forall i, j :: 0 <= i < j < |s| ==> !less(s[j], s[i])
  }

  ghost predicate StrictlyIncreasing<T>(s: seq<T>, less: (T, T) -> bool) {
    forall i, j :: 0 <= i < j < |s| ==> less(s[i], s[j])
  }

  lemma {:induction false} InsertByFacts<T(!new)>(x: T, s: seq<T>, less: (T, T) -> bool)
    requires StrictWeak(less) && Nondecreasing(s, less)
    ensures var r := InsertBy(x, s, less);
            Nondecreasing(r, less) && multiset(r) == multiset(s) + multiset{x}
  {
    var r := InsertBy(x, s, less);
    if s != [] {
      assert s == [s[0]] + s[1..];
      if less(s[0], x) {
        InsertByFacts(x, s[1..], less);
        var rest := InsertBy(x, s[1..], less);
        forall j | 0 <= j < |rest| ensures !less(rest[j], s[0]) {
          assert rest[j] in multiset(rest);
          if rest[j] != x {
            assert rest[j] in s[1..];
          }
        }
      } else {
        forall j | 0 <= j < |s| ensures !less(s[j], x) {
        }
      }
    }
  }

  lemma {:induction false} SortBySorts<T(!new)>(s: seq<T>, less: (T, T) -> bool)
    requires StrictWeak(less)
    ensures Nondecreasing(SortBy(s, less), less) && multiset(SortBy(s, less)) == multiset(s)
  {
    if s != [] {
      SortBySorts(s[1..], less);
      InsertByFacts(s[0], SortBy(s[1..], less), less);
      assert s == [s[0]] + s[1..];
    }
  }

  /** Comparing a list with its sorted copy is a test of order. */
  lemma {:induction false} SortedCopyIffNondecreasing<T(!new)>(s: seq<T>, less: (T, T) -> bool)
    requires StrictWeak(less)
    ensures SortBy(s, less) == s <==> Nondecreasing(s, less)
  {
    SortBySorts(s, less);
    if s != [] && Nondecreasing(s, less) {
      SortedCopyIffNondecreasing(s[1..], less);
      assert s == [s[0]] + s[1..];
    }
  }

  /** A strictly increasing list is determined by its elements. */
  lemma {:induction false} IncreasingListsAgree<T(!new)>(a: seq<T>, b: seq<T>, less: (T, T) -> bool)
    requires StrictWeak(less) && StrictlyIncreasing(a, less) && StrictlyIncreasing(b, less)
    requires forall x :: x in a <==> x in b
    ensures a == b
  {
    assert a != [] ==> a[0] in a;
    assert b != [] ==> b[0] in b;
    if a != [] && b != [] {
      assert a[0] in b && b[0] in a;
      var i :| 0 <= i < |b| && b[i] == a[0];
      var j :| 0 <= j < |a| && a[j] == b[0];
      assert i == 0;
      forall x ensures x in a[1..] <==> x in b[1..] {
        TailMembers(a, x, less);
        TailMembers(b, x, less);
      }
      IncreasingListsAgree(a[1..], b[1..], less);
      assert a == [a[0]] + a[1..] && b == [b[0]] + b[1..];
    }
  }

  lemma TailMembers<T(!new)>(a: seq<T>, x: T, less: (T, T) -> bool)
    requires StrictWeak(less) && StrictlyIncreasing(a, less) && a != []
    ensures x in a[1..] <==> x in a && x != a[0]
  {
    if x in a && x != a[0] {
      var k :| 0 <= k < |a| && a[k] == x;
      assert a[1..][k - 1] == x;
    }
    if x in a[1..] {
      var k :| 0 <= k < |a[1..]| && a[1..][k] == x;
      assert a[k + 1] == x;
    }
  }

  lemma LexIsStrictWeak()
    ensures StrictWeak(LexLess)
  {
    forall a, b, c: string ensures LexLess(a, c) ==> LexLess(a, b) || LexLess(b, c) {
      LexTrichotomy(a, b);
      LexTrichotomy(b, c);
      if LexLess(a, c) && !LexLess(a, b) && LexLess(b, a) {
        LexTransitive(b, a, c);
      }
    }
    forall a: string ensures !LexLess(a, a) {
      LexTrichotomy(a, a);
    }
    forall a, b, c: string ensures LexLess(a, b) && LexLess(b, c) ==> LexLess(a, c) {
      if LexLess(a, b) && LexLess(b, c) {
        LexTransitive(a, b, c);
      }
    }
  }
}
