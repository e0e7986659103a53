/** The dial history of dial.go: a binary heap of past dials ordered by expiry,
    maintained in place with the sift-up and sift-down loops of container/heap. */
module DialHistory {
  import opened NodeTypes

  datatype PastDial = PastDial(id: NodeId, exp: int)

  function Parent(j: int): int {
    (j - 1) / 2
  }

  /** Every entry expires no earlier than its parent. */
  ghost predicate IsHeap(h: seq<PastDial>) {
    forall j :: 1 <= j < |h| ==> h[Parent(j)].exp <= h[j].exp
  }

  /** Heap order except that entry `k` may expire before its parent. */
  ghost predicate HeapExceptUp(h: seq<PastDial>, k: int) {
    && 0 <= k < |h|
    && (forall j :: 1 <= j < |h| && j != k ==> h[Parent(j)].exp <= h[j].exp)
    && (forall j :: 1 <= j < |h| && Parent(j) == k && 1 <= k ==> h[Parent(k)].exp <= h[j].exp)
  }

  /** Heap order of the first `n` entries except that entry `i` may expire after its children. */
  ghost predicate HeapExceptDown(h: seq<PastDial>, i: int, n: int) {
    && 0 <= i && 0 <= n <= |h|
    && (forall j :: 1 <= j < n && Parent(j) != i ==> h[Parent(j)].exp <= h[j].exp)
    && (forall j :: 1 <= j < n && Parent(j) == i && 1 <= i ==> h[Parent(i)].exp <= h[j].exp)
  }

  function Swap(h: seq<PastDial>, i: int, j: int): (r: seq<PastDial>)
    requires 0 <= i < |h| && 0 <= j < |h|
    ensures |r| == |h| && multiset(r) == multiset(h)
  {
    h[i := h[j]][j := h[i]]
  }

  /** Heap order of the first `n` entries. */
  ghost predicate HeapFront(h: seq<PastDial>, n: int) {
    0 <= n <= |h| && forall j :: 1 <= j < n ==> h[Parent(j)].exp <= h[j].exp
  }

  /** Sifting down is over when entry `i` has no child or does not expire after its earlier child. */
  lemma SettledDown(h: seq<PastDial>, i: int, n: int)
    requires HeapExceptDown(h, i, n)
    requires forall k :: 1 <= k < n && Parent(k) == i ==> h[i].exp <= h[k].exp
    ensures HeapFront(h, n)
  {
  }

  /** Entry `i` has only the children 2i+1 and 2i+2. */
  lemma Children(i: int, k: int)
    requires 0 <= i && 1 <= k && Parent(k) == i
    ensures k == 2 * i + 1 || k == 2 * i + 2
  {
  }

  lemma DropLast(h: seq<PastDial>)
    requires |h| > 0
    ensures multiset(h[..|h| - 1]) == multiset(h) - multiset{h[|h| - 1]}
    ensures HeapFront(h, |h| - 1) ==> IsHeap(h[..|h| - 1])
  {
    assert h == h[..|h| - 1] + [h[|h| - 1]];
  }

  /** Swapping the ends of a heap leaves only the root out of order among the rest. */
  lemma SwapEnds(h: seq<PastDial>)
    requires IsHeap(h) && |h| > 0
    ensures var r := Swap(h, 0, |h| - 1);
            r[|h| - 1] == h[0] && HeapExceptDown(r, 0, |h| - 1)
  {
  }

  /** One sift-up swap moves the only possible violation to the parent. */
  lemma SwapUp(h: seq<PastDial>, j: int)
    requires HeapExceptUp(h, j) && 1 <= j && h[j].exp < h[Parent(j)].exp
    ensures HeapExceptUp(Swap(h, Parent(j), j), Parent(j))
  {
    var i, r := Parent(j), Swap(h, Parent(j), j);
    forall k | 1 <= k < |r| && k != i
      ensures r[Parent(k)].exp <= r[k].exp
    {
      assert h[Parent(k)].exp <= h[k].exp || k == j;
    }
    forall k | 1 <= k < |r| && Parent(k) == i && 1 <= i
      ensures r[Parent(i)].exp <= r[k].exp
    {
      assert h[Parent(i)].exp <= h[i].exp;
      assert k == j || h[i].exp <= h[k].exp;
    }
  }

  /** One sift-down swap with the earlier child moves the only possible violation to that child. */
  lemma SwapDown(h: seq<PastDial>, i: int, j: int, n: int)
    requires HeapExceptDown(h, i, n) && 1 <= j < n && Parent(j) == i && h[j].exp < h[i].exp
    requires forall k :: 1 <= k < n && Parent(k) == i ==> h[j].exp <= h[k].exp
    ensures HeapExceptDown(Swap(h, i, j), j, n)
  {
  }

  /** The root of a heap expires first. */
  lemma {:induction false} RootExpiresFirst(h: seq<PastDial>, k: nat)
    requires IsHeap(h) && k < |h|
    ensures h[0].exp <= h[k].exp
  {
    if k > 0 {
      RootExpiresFirst(h, Parent(k));
    }
  }

  /** What expire leaves: the entries that do not expire before `now`, each as often as before. */
  ghost predicate Unexpired(before: multiset<PastDial>, after: multiset<PastDial>, now: int) {
    forall e: PastDial :: after[e] == if e.exp >= now then before[e] else 0
  }

  /** The entries of a history, whatever their positions. */
  ghost function Entries(h: seq<PastDial>): set<PastDial> {
    set e | e in h
  }

  class History {
    var h: seq<PastDial>

    ghost predicate Valid()
      reads this
    {
      IsHeap(h)
    }

    constructor ()
      ensures Valid() && h == []
    {
      h := [];
    }

    /** Records a dial: heap.Push. */
    method Add(id: NodeId, exp: int)
      requires Valid()
      modifies this
      ensures Valid()
      ensures multiset(h) == old(multiset(h)) + multiset{PastDial(id, exp)}
    {
      h := h + [PastDial(id, exp)];
      Up(|h| - 1);
    }

    /** Sifts entry `k` towards the root until its parent does not expire later. */
    method Up(k: int)
      requires HeapExceptUp(h, k)
      modifies this
      ensures Valid()
      ensures multiset(h) == old(multiset(h))
    {
      var j := k;
      while true
        invariant HeapExceptUp(h, j)
        invariant multiset(h) == old(multiset(h))
        decreases j
      {
        // Go's (0-1)/2 is 0, so the root is its own parent
        var i := if j == 0 then 0 else Parent(j);
        if i == j || !(h[j].exp < h[i].exp) {
          break;
        }
        SwapUp(h, j);
        h := Swap(h, i, j);
        j := i;
      }
    }

    /** Sifts entry 0 down within the first `n` entries. */
    method Down(n: int)
      requires HeapExceptDown(h, 0, n)
      modifies this
      ensures |h| == old(|h|) && HeapFront(h, n)
      ensures forall k :: n <= k < |h| ==> h[k] == old(h)[k]
      ensures multiset(h) == old(multiset(h))
    {
      var i := 0;
      while true
        invariant |h| == old(|h|) && HeapExceptDown(h, i, n)
        invariant forall k :: n <= k < |h| ==> h[k] == old(h)[k]
        invariant multiset(h) == old(multiset(h))
        decreases n - i
      {
        var j := EarlierChild(i, n);
        if j == n || !(h[j].exp < h[i].exp) {
          SettledDown(h, i, n);
          return;
        }
        SwapDown(h, i, j, n);
        h := Swap(h, i, j);
        i := j;
      }
    }

    /** The child of `i` that expires first, or `n` if it has none. */
    method EarlierChild(i: int, n: int) returns (j: int)
      requires 0 <= i && 0 <= n <= |h|
      ensures i < j <= n || (j == n && n <= i)
      ensures j < n ==> Parent(j) == i
      ensures forall k :: 1 <= k < n && Parent(k) == i ==> j < n && h[j].exp <= h[k].exp
    {
      var j1 := 2 * i + 1;
      forall k | 1 <= k < n && Parent(k) == i
        ensures k == j1 || k == j1 + 1
      {
        Children(i, k);
      }
      if j1 >= n {
        return n;
      }
      j := j1;
      var j2 := j1 + 1;
      if j2 < n && h[j2].exp < h[j1].exp {
        j := j2;
      }
    }

    method SwapFirstAndLast()
      requires Valid() && |h| > 0
      modifies this
      ensures |h| == old(|h|) && multiset(h) == old(multiset(h))
      ensures h[|h| - 1] == old(h)[0] && HeapExceptDown(h, 0, |h| - 1)
    {
      SwapEnds(h);
      h := Swap(h, 0, |h| - 1);
    }

    /** Removes an entry that expires first: heap.Pop. */
    method Pop() returns (x: PastDial)
      requires Valid() && |h| > 0
      modifies this
      ensures Valid() && |h| == old(|h|) - 1
      ensures x == old(h)[0]
      ensures multiset(h) == old(multiset(h)) - multiset{x}
    {
      var n := |h| - 1;
      SwapFirstAndLast();
      Down(n);
      x := h[n];
      DropLast(h);
      h := h[..n];
    }

    method Contains(id: NodeId) returns (found: bool)
      ensures found <==> exists e :: e in h && e.id == id
    {
      for i := 0 to |h|
        invariant forall k :: 0 <= k < i ==> h[k].id != id
      {
        if h[i].id == id {
          return true;
        }
      }
      return false;
    }

    /** Drops every entry that expires before `now`, and no other. */
    method Expire(now: int)
      requires Valid()
      modifies this
      ensures Valid()
      ensures Unexpired(old(multiset(h)), multiset(h), now)
    {
      while |h| > 0 && h[0].exp < now
        invariant Valid()
        invariant forall e: PastDial :: e.exp >= now ==> multiset(h)[e] == old(multiset(h))[e]
        invariant forall e: PastDial :: multiset(h)[e] <= old(multiset(h))[e]
        decreases |h|
      {
        var x := Pop();
      }
      forall e: PastDial | e.exp < now
        ensures multiset(h)[e] == 0
      {
        if e in h {
          var k :| 0 <= k < |h| && h[k] == e;
          RootExpiresFirst(h, k);
        }
      }
    }
  }
}
