/**
 * `[...xs].sort((a, b) => key(a) - key(b))` and `h.push(x); h.sort(...)` on
 * numbers. JavaScript's sort is stable, so sorting records by a key orders
 * them by (key, original position); the model sorts positions.
 */
module Sorting {

  /** Position `p` comes before position `q` in a stable sort by `keys`. */
  predicate Before(keys: seq<int>, p: nat, q: nat)
    requires p < |keys| && q < |keys|
  {
    keys[p] < keys[q] || (keys[p] == keys[q] && p < q)
  }

  predicate StablySorted(keys: seq<int>, order: seq<nat>)
  {
    (forall i :: 0 <= i < |order| ==> order[i] < |keys|) &&
    (forall i, j :: 0 <= i < j < |order| ==> Before(keys, order[i], order[j]))
  }

  function Range(n: nat): (r: seq<nat>)
    ensures |r| == n && forall i :: 0 <= i < n ==> r[i] == i
  {
    if n == 0 then [] else Range(n - 1) + [n - 1]
  }

  /** Inserts position `x` behind every position whose key is at most keys[x]. */
  function Insert(keys: seq<int>, order: seq<nat>, x: nat): (r: seq<nat>)
    requires x < |keys|
    ensures |r| == |order| + 1
    ensures forall e :: e in r <==> e in order || e == x
  {
    if order == [] then [x]
    else
      var last := order[|order| - 1];
      if last >= |keys| || keys[last] <= keys[x] then order + [x]
      else
        assert order == order[..|order| - 1] + [last];
        Insert(keys, order[..|order| - 1], x) + [last]
  }

  lemma {:induction false} InsertPermutes(keys: seq<int>, order: seq<nat>, x: nat)
    requires x < |keys|
    ensures multiset(Insert(keys, order, x)) == multiset(order) + multiset{x}
    decreases |order|
  {
    if order != [] {
      var last := order[|order| - 1];
      if last < |keys| && keys[last] > keys[x] {
        var front := order[..|order| - 1];
        assert order == front + [last];
        InsertPermutes(keys, front, x);
      }
    }
  }

  /** The positions 0..n-1 in the order a stable sort by `keys` puts them. */
  function StableSortBy(keys: seq<int>, n: nat): (r: seq<nat>)
    requires n <= |keys|
    ensures |r| == n
    ensures forall e :: e in r <==> 0 <= e < n
  {
    if n == 0 then [] else Insert(keys, StableSortBy(keys, n - 1), n - 1)
  }

  function SortedPositions(keys: seq<int>): seq<nat>
  {
    StableSortBy(keys, |keys|)
  }

  lemma AppendSorted(keys: seq<int>, r: seq<nat>, last: nat)
    requires StablySorted(keys, r) && last < |keys|
    requires forall i :: 0 <= i < |r| ==> Before(keys, r[i], last)
    ensures StablySorted(keys, r + [last])
  {
    var t := r + [last];
    forall i, j | 0 <= i < j < |t| ensures Before(keys, t[i], t[j]) {
      if j < |r| { assert t[i] == r[i] && t[j] == r[j]; }
    }
  }

  lemma {:induction false} InsertSorted(keys: seq<int>, order: seq<nat>, x: nat)
    requires x < |keys| && StablySorted(keys, order)
    requires forall e :: e in order ==> e < x
    ensures StablySorted(keys, Insert(keys, order, x))
    decreases |order|
  {
    if order != [] {
      var last := order[|order| - 1];
      if keys[last] > keys[x] {
        var front := order[..|order| - 1];
        assert forall e :: e in front ==> e in order;
        assert StablySorted(keys, front);
        InsertSorted(keys, front, x);
        var r := Insert(keys, front, x);
        forall i | 0 <= i < |r| ensures Before(keys, r[i], last) {
          assert r[i] in r;
          if r[i] != x {
            var k :| 0 <= k < |front| && front[k] == r[i];
            assert order[k] == r[i];
          }
        }
        AppendSorted(keys, r, last);
      } else {
        forall i | 0 <= i < |order| ensures Before(keys, order[i], x) {
          assert order[i] in order;
          if i < |order| - 1 { assert Before(keys, order[i], last); }
        }
        AppendSorted(keys, order, x);
      }
    }
  }

  lemma {:induction false} SortIsStable(keys: seq<int>, n: nat)
    requires n <= |keys|
    ensures StablySorted(keys, StableSortBy(keys, n))
  {
    if n > 0 {
      SortIsStable(keys, n - 1);
      InsertSorted(keys, StableSortBy(keys, n - 1), n - 1);
    }
  }

  lemma {:induction false} SortPermutes(keys: seq<int>, n: nat)
    requires n <= |keys|
    ensures multiset(StableSortBy(keys, n)) == multiset(Range(n))
  {
    if n > 0 {
      SortPermutes(keys, n - 1);
      InsertPermutes(keys, StableSortBy(keys, n - 1), n - 1);
    }
  }

  /** An input already in key order is left as it is. */
  lemma {:induction false} SortOfSortedIsIdentity(keys: seq<int>, n: nat)
    requires n <= |keys|
    requires forall i, j :: 0 <= i < j < n ==> keys[i] <= keys[j]
    ensures StableSortBy(keys, n) == Range(n)
  {
    if n > 0 {
      SortOfSortedIsIdentity(keys, n - 1);
      if n > 1 {
        assert keys[n - 2] <= keys[n - 1];
      }
    }
  }

  predicate Descending(h: seq<int>) { forall i, j :: 0 <= i < j < |h| ==> h[i] >= h[j] }
  predicate Ascending(h: seq<int>) { forall i, j :: 0 <= i < j < |h| ==> h[i] <= h[j] }

  /** `h.push(x); h.sort((a, b) => b - a)` on a descending array. */
  function InsertDescending(h: seq<int>, x: int): (r: seq<int>)
    ensures |r| == |h| + 1
    ensures forall e :: e in r <==> e in h || e == x
  {
    if h == [] then [x]
    else if h[|h| - 1] >= x then h + [x]
    else InsertDescending(h[..|h| - 1], x) + [h[|h| - 1]]
  }

  lemma InsertDescendingSorted(h: seq<int>, x: int)
    requires Descending(h)
    ensures Descending(InsertDescending(h, x))
    ensures multiset(InsertDescending(h, x)) == multiset(h) + multiset{x}
  {
    InsertDescendingOrdered(h, x);
    InsertDescendingPermutes(h, x);
  }

  lemma {:induction false} InsertDescendingOrdered(h: seq<int>, x: int)
    requires Descending(h)
    ensures Descending(InsertDescending(h, x))
    decreases |h|
  {
    if h != [] && h[|h| - 1] < x {
      var front := h[..|h| - 1];
      var last := h[|h| - 1];
      InsertDescendingOrdered(front, x);
      var r := InsertDescending(front, x);
      forall i | 0 <= i < |r| ensures r[i] >= last {
        assert r[i] in r;
        if r[i] != x {
          var k :| 0 <= k < |front| && front[k] == r[i];
          assert h[k] == r[i];
        }
      }
    }
  }

  lemma {:induction false} InsertDescendingPermutes(h: seq<int>, x: int)
    ensures multiset(InsertDescending(h, x)) == multiset(h) + multiset{x}
    decreases |h|
  {
    if h != [] && h[|h| - 1] < x {
      var front := h[..|h| - 1];
      assert h == front + [h[|h| - 1]];
      InsertDescendingPermutes(front, x);
    }
  }

  /** `h.push(x); h.sort((a, b) => a - b)` on an ascending array. */
  function InsertAscending(h: seq<int>, x: int): (r: seq<int>)
    ensures |r| == |h| + 1
    ensures forall e :: e in r <==> e in h || e == x
  {
    if h == [] then [x]
    else if h[|h| - 1] <= x then h + [x]
    else InsertAscending(h[..|h| - 1], x) + [h[|h| - 1]]
  }

  lemma InsertAscendingSorted(h: seq<int>, x: int)
    requires Ascending(h)
    ensures Ascending(InsertAscending(h, x))
    ensures multiset(InsertAscending(h, x)) == multiset(h) + multiset{x}
  {
    InsertAscendingOrdered(h, x);
    InsertAscendingPermutes(h, x);
  }

  lemma {:induction false} InsertAscendingOrdered(h: seq<int>, x: int)
    requires Ascending(h)
    ensures Ascending(InsertAscending(h, x))
    decreases |h|
  {
    if h != [] && h[|h| - 1] > x {
      var front := h[..|h| - 1];
      var last := h[|h| - 1];
      InsertAscendingOrdered(front, x);
      var r := InsertAscending(front, x);
      forall i | 0 <= i < |r| ensures r[i] <= last {
        assert r[i] in r;
        if r[i] != x {
          var k :| 0 <= k < |front| && front[k] == r[i];
          assert h[k] == r[i];
        }
      }
    }
  }

  lemma {:induction false} InsertAscendingPermutes(h: seq<int>, x: int)
    ensures multiset(InsertAscending(h, x)) == multiset(h) + multiset{x}
    decreases |h|
  {
    if h != [] && h[|h| - 1] > x {
      var front := h[..|h| - 1];
      assert h == front + [h[|h| - 1]];
      InsertAscendingPermutes(front, x);
    }
  }
}
