/** The JavaScript array built-ins the core relies on (`findIndex`, `find`,
    `filter`, and the stable `sort` with a numeric comparator), as functions
    over sequences, with the facts about them the rest of the model uses. */
module Arrays {
  import opened Common

  /** `findIndex`: the position of the first element satisfying `p`. */
  function FirstIndex<T>(xs: seq<T>, p: T -> bool): (r: Option<nat>)
    ensures r.Some? ==> r.value < |xs| && p(xs[r.value])
    ensures r.Some? ==> forall j :: 0 <= j < r.value ==> !p(xs[j])
    ensures r.None? <==> forall j :: 0 <= j < |xs| ==> !p(xs[j])
  {
    if xs == [] then None
    else if p(xs[0]) then Some(0)
    else match FirstIndex(xs[1..], p)
      case None => None
      case Some(k) => Some(k + 1)
  }

  /** `find`: the first element satisfying `p`, if any. */
  function Find<T>(xs: seq<T>, p: T -> bool): (r: Option<T>)
    ensures r.None? <==> forall j :: 0 <= j < |xs| ==> !p(xs[j])
    ensures r.Some? ==> r.value in xs && p(r.value)
    ensures r.Some? ==> exists k :: 0 <= k < |xs| && r == Some(xs[k]) && p(xs[k])
                          && forall j :: 0 <= j < k ==> !p(xs[j])
  {
    match FirstIndex(xs, p)
    case None => None
    case Some(k) => Some(xs[k])
  }

  /** `filter`: the elements satisfying `p`, in their original order. */
  function Filter<T>(xs: seq<T>, p: T -> bool): (r: seq<T>)
    ensures |r| <= |xs|
    ensures forall j :: 0 <= j < |r| ==> r[j] in xs && p(r[j])
    ensures forall j :: 0 <= j < |xs| && p(xs[j]) ==> xs[j] in r
  {
    if xs == [] then [] else (if p(xs[0]) then [xs[0]] else []) + Filter(xs[1..], p)
  }

  /** The first step of `filter`. */
  lemma FilterCons<T>(x: T, xs: seq<T>, p: T -> bool)
    ensures Filter([x] + xs, p) == (if p(x) then [x] else []) + Filter(xs, p)
  {
    assert ([x] + xs)[0] == x;
    assert ([x] + xs)[1..] == xs;
  }

  lemma FilterAppend<T>(xs: seq<T>, ys: seq<T>, p: T -> bool)
    ensures Filter(xs + ys, p) == Filter(xs, p) + Filter(ys, p)
  {
    if xs == [] {
      assert xs + ys == ys;
    } else {
      assert (xs + ys)[1..] == xs[1..] + ys;
      FilterAppend(xs[1..], ys, p);
    }
  }

  /** Filtering by `p` and then by `q` is filtering once by their conjunction `pq`:
      one step of a chain of optional filters. */
  lemma {:induction false} FilterRefine<T>(xs: seq<T>, p: T -> bool, q: T -> bool, pq: T -> bool)
    requires forall x :: pq(x) == (p(x) && q(x))
    ensures Filter(Filter(xs, p), q) == Filter(xs, pq)
  {
    if xs != [] {
      FilterRefine(xs[1..], p, q, pq);
      var head := if p(xs[0]) then [xs[0]] else [];
      FilterAppend(head, Filter(xs[1..], p), q);
    }
  }

  /** Two tests that agree on every value filter alike: a skipped filter step. */
  lemma {:induction false} FilterSame<T>(xs: seq<T>, p: T -> bool, q: T -> bool)
    requires forall x :: p(x) == q(x)
    ensures Filter(xs, p) == Filter(xs, q)
  {
    if xs != [] {
      FilterSame(xs[1..], p, q);
    }
  }

  /** A filter that no element passes leaves nothing. */
  lemma {:induction false} FilterNone<T>(xs: seq<T>, p: T -> bool)
    requires forall j :: 0 <= j < |xs| ==> !p(xs[j])
    ensures Filter(xs, p) == []
  {
    if xs != [] {
      FilterNone(xs[1..], p);
    }
  }

  /** A filter that every element passes changes nothing. */
  lemma {:induction false} FilterAll<T>(xs: seq<T>, p: T -> bool)
    requires forall j :: 0 <= j < |xs| ==> p(xs[j])
    ensures Filter(xs, p) == xs
  {
    if xs != [] {
      FilterAll(xs[1..], p);
    }
  }

  /** The positions of `xs` whose element satisfies `p`, in increasing order. */
  function Passing<T>(xs: seq<T>, p: T -> bool): seq<nat>
  {
    if xs == [] then []
    else
      var rest := Passing(xs[1..], p);
      (if p(xs[0]) then [0] else []) + seq(|rest|, k requires 0 <= k < |rest| => rest[k] + 1)
  }

  lemma PassingUnfold<T>(xs: seq<T>, p: T -> bool)
    requires xs != []
    ensures var rest := Passing(xs[1..], p);
            var head: seq<nat> := if p(xs[0]) then [0] else [];
            && |Passing(xs, p)| == |head| + |rest|
            && (forall j :: 0 <= j < |head| ==> Passing(xs, p)[j] == 0)
            && (forall k :: 0 <= k < |rest| ==> Passing(xs, p)[|head| + k] == rest[k] + 1)
  {
  }

  lemma {:induction false} PassingLength<T>(xs: seq<T>, p: T -> bool)
    ensures |Passing(xs, p)| == |Filter(xs, p)|
  {
    if xs != [] {
      PassingLength(xs[1..], p);
      PassingUnfold(xs, p);
    }
  }

  /** Position `j` of the filtered sequence is element `Passing(xs, p)[j]` of `xs`. */
  lemma {:induction false} PassingReads<T>(xs: seq<T>, p: T -> bool)
    ensures |Passing(xs, p)| == |Filter(xs, p)|
    ensures forall j :: 0 <= j < |Filter(xs, p)| ==> Passing(xs, p)[j] < |xs| && Filter(xs, p)[j] == xs[Passing(xs, p)[j]]
  {
    PassingLength(xs, p);
    if xs != [] {
      PassingReads(xs[1..], p);
      PassingUnfold(xs, p);
      var rest := Passing(xs[1..], p);
      var tail := Filter(xs[1..], p);
      var h := if p(xs[0]) then 1 else 0;
      forall j | 0 <= j < |Filter(xs, p)|
        ensures Passing(xs, p)[j] < |xs| && Filter(xs, p)[j] == xs[Passing(xs, p)[j]]
      {
        if j >= h {
          PassingReadsStep(xs, p, j - h);
        }
      }
    }
  }

  lemma PassingReadsStep<T>(xs: seq<T>, p: T -> bool, k: nat)
    requires xs != []
    requires |Passing(xs[1..], p)| == |Filter(xs[1..], p)|
    requires k < |Filter(xs[1..], p)|
    requires Passing(xs[1..], p)[k] < |xs| - 1 && Filter(xs[1..], p)[k] == xs[1..][Passing(xs[1..], p)[k]]
    ensures var h := if p(xs[0]) then 1 else 0;
            h + k < |Passing(xs, p)| && h + k < |Filter(xs, p)|
            && Passing(xs, p)[h + k] < |xs| && Filter(xs, p)[h + k] == xs[Passing(xs, p)[h + k]]
  {
    PassingUnfold(xs, p);
    var h := if p(xs[0]) then 1 else 0;
    var fhead := if p(xs[0]) then [xs[0]] else [];
    assert Filter(xs, p) == fhead + Filter(xs[1..], p);
    assert Filter(xs, p)[h + k] == Filter(xs[1..], p)[k];
  }

  /** The passing positions increase strictly. */
  lemma {:induction false} PassingIncreasing<T>(xs: seq<T>, p: T -> bool)
    ensures forall j :: 0 <= j < |Passing(xs, p)| ==> Passing(xs, p)[j] < |xs|
    ensures forall j, k :: 0 <= j < k < |Passing(xs, p)| ==> Passing(xs, p)[j] < Passing(xs, p)[k]
  {
    if xs != [] {
      PassingIncreasing(xs[1..], p);
      PassingUnfold(xs, p);
    }
  }

  /** Every passing position is listed. */
  lemma {:induction false} PassingComplete<T>(xs: seq<T>, p: T -> bool)
    ensures forall i :: 0 <= i < |xs| && p(xs[i]) ==> i in Passing(xs, p)
  {
    if xs != [] {
      PassingComplete(xs[1..], p);
      PassingUnfold(xs, p);
      var rest := Passing(xs[1..], p);
      var h := if p(xs[0]) then 1 else 0;
      forall i | 0 <= i < |xs| && p(xs[i]) ensures i in Passing(xs, p) {
        if i > 0 {
          assert xs[1..][i - 1] == xs[i];
          var k :| 0 <= k < |rest| && rest[k] == i - 1;
          assert Passing(xs, p)[h + k] == i;
        } else {
          assert Passing(xs, p)[0] == 0;
        }
      }
    }
  }

  /** `filter` keeps order and multiplicity: its result is `xs` read at the
      increasing positions that pass, and every passing position is read. */
  lemma FilterKeepsOrder<T>(xs: seq<T>, p: T -> bool)
    ensures |Passing(xs, p)| == |Filter(xs, p)|
    ensures forall j :: 0 <= j < |Filter(xs, p)| ==> Passing(xs, p)[j] < |xs| && Filter(xs, p)[j] == xs[Passing(xs, p)[j]]
    ensures forall j, k :: 0 <= j < k < |Passing(xs, p)| ==> Passing(xs, p)[j] < Passing(xs, p)[k]
    ensures forall i :: 0 <= i < |xs| && p(xs[i]) ==> i in Passing(xs, p)
  {
    PassingReads(xs, p);
    PassingIncreasing(xs, p);
    PassingComplete(xs, p);
  }

  /** `filter` keeps every passing element as often as it occurs, and no other. */
  lemma {:induction false} FilterCount<T>(xs: seq<T>, p: T -> bool, x: T)
    ensures multiset(Filter(xs, p))[x] == (if p(x) then multiset(xs)[x] else 0)
  {
    if xs != [] {
      FilterCount(xs[1..], p, x);
      assert xs == [xs[0]] + xs[1..];
    }
  }

  /** A filter never invents elements: the result is a sub-multiset. */
  lemma {:induction false} FilterSubMultiset<T>(xs: seq<T>, p: T -> bool)
    ensures multiset(Filter(xs, p)) <= multiset(xs)
  {
    if xs != [] {
      FilterSubMultiset(xs[1..], p);
      assert xs == [xs[0]] + xs[1..];
    }
  }

  /** Sorted so that `key` never increases from one element to the next. */
  ghost predicate SortedDesc<T>(s: seq<T>, key: T -> int)
  {
    forall i, j :: 0 <= i < j < |s| ==> key(s[i]) >= key(s[j])
  }

  /** Inserts `x` before the first element whose key does not exceed its own. */
  function InsertDesc<T>(x: T, s: seq<T>, key: T -> int): seq<T>
  {
    if s == [] || key(x) >= key(s[0]) then [x] + s
    else [s[0]] + InsertDesc(x, s[1..], key)
  }

  /** `sort((a, b) => key(b) - key(a))`: a stable sort, largest key first. */
  function SortDescBy<T>(xs: seq<T>, key: T -> int): seq<T>
  {
    if xs == [] then [] else InsertDesc(xs[0], SortDescBy(xs[1..], key), key)
  }

  lemma {:induction false} InsertDescBounded<T>(x: T, s: seq<T>, key: T -> int, b: int)
    requires key(x) <= b
    requires forall j :: 0 <= j < |s| ==> key(s[j]) <= b
    ensures forall j :: 0 <= j < |InsertDesc(x, s, key)| ==> key(InsertDesc(x, s, key)[j]) <= b
  {
    if s != [] && key(x) < key(s[0]) {
      InsertDescBounded(x, s[1..], key, b);
    }
  }

  lemma {:induction false} InsertDescSorted<T>(x: T, s: seq<T>, key: T -> int)
    requires SortedDesc(s, key)
    ensures SortedDesc(InsertDesc(x, s, key), key)
  {
    var r := InsertDesc(x, s, key);
    if s == [] || key(x) >= key(s[0]) {
      assert r == [x] + s;
      forall i, j | 0 <= i < j < |r| ensures key(r[i]) >= key(r[j]) {
        if i == 0 {
          assert r[j] == s[j - 1];
          assert key(s[0]) >= key(s[j - 1]);
        } else {
          assert r[i] == s[i - 1] && r[j] == s[j - 1];
        }
      }
    } else {
      var t := InsertDesc(x, s[1..], key);
      InsertDescSorted(x, s[1..], key);
      InsertDescBounded(x, s[1..], key, key(s[0]));
      assert r == [s[0]] + t;
      forall i, j | 0 <= i < j < |r| ensures key(r[i]) >= key(r[j]) {
        if i == 0 {
          assert r[j] == t[j - 1];
        } else {
          assert r[i] == t[i - 1] && r[j] == t[j - 1];
        }
      }
    }
  }

  lemma {:induction false} InsertDescMultiset<T>(x: T, s: seq<T>, key: T -> int)
    ensures multiset(InsertDesc(x, s, key)) == multiset(s) + multiset{x}
  {
    if s != [] && key(x) < key(s[0]) {
      InsertDescMultiset(x, s[1..], key);
      assert s == [s[0]] + s[1..];
    }
  }

  /** The stable sort returns a rearrangement of its input in non-increasing key order. */
  lemma {:induction false} SortDescByCorrect<T>(xs: seq<T>, key: T -> int)
    ensures SortedDesc(SortDescBy(xs, key), key)
    ensures multiset(SortDescBy(xs, key)) == multiset(xs)
  {
    if xs != [] {
      SortDescByCorrect(xs[1..], key);
      InsertDescSorted(xs[0], SortDescBy(xs[1..], key), key);
      InsertDescMultiset(xs[0], SortDescBy(xs[1..], key), key);
      assert xs == [xs[0]] + xs[1..];
    }
  }

  /** The test "has key `k`", as one named function so that every use is the same term. */
  function KeyIs<T>(key: T -> int, k: int): T -> bool
  {
    x => key(x) == k
  }

  /** Inserting `x` places it among the elements of its own key after none
      of them: it goes in front of the first element whose key does not
      exceed its own, which has a smaller key or is such an element. */
  lemma {:induction false} InsertDescStable<T>(x: T, s: seq<T>, key: T -> int, k: int)
    ensures Filter(InsertDesc(x, s, key), KeyIs(key, k))
         == (if key(x) == k then [x] else []) + Filter(s, KeyIs(key, k))
  {
    var p := KeyIs(key, k);
    if s == [] || key(x) >= key(s[0]) {
      FilterCons(x, s, p);
    } else {
      InsertDescStable(x, s[1..], key, k);
      InsertDescStableStep(x, s, key, k);
    }
  }

  lemma InsertDescStableStep<T>(x: T, s: seq<T>, key: T -> int, k: int)
    requires s != [] && key(x) < key(s[0])
    requires Filter(InsertDesc(x, s[1..], key), KeyIs(key, k))
          == (if key(x) == k then [x] else []) + Filter(s[1..], KeyIs(key, k))
    ensures Filter(InsertDesc(x, s, key), KeyIs(key, k))
         == (if key(x) == k then [x] else []) + Filter(s, KeyIs(key, k))
  {
    var p := KeyIs(key, k);
    var t := InsertDesc(x, s[1..], key);
    var rest := Filter(s[1..], p);
    assert InsertDesc(x, s, key) == [s[0]] + t;
    assert [s[0]] + s[1..] == s;
    FilterCons(s[0], t, p);
    FilterCons(s[0], s[1..], p);
    assert p(s[0]) == (key(s[0]) == k);
    if key(x) == k {
      assert !p(s[0]);
      assert Filter(t, p) == [x] + rest;
      assert Filter(s, p) == rest;
    } else {
      assert Filter(t, p) == rest;
    }
  }

  /** Stability: among elements sharing a key, the sort keeps the input order. */
  lemma {:induction false} SortDescByStable<T>(xs: seq<T>, key: T -> int, k: int)
    ensures Filter(SortDescBy(xs, key), KeyIs(key, k)) == Filter(xs, KeyIs(key, k))
  {
    if xs != [] {
      SortDescByStable(xs[1..], key, k);
      InsertDescStable(xs[0], SortDescBy(xs[1..], key), key, k);
    }
  }
}
