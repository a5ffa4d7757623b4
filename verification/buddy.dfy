/**
 * The buddy physical-page allocator: one free list and one counter per
 * order, orders 0 .. MAX_ORDER - 1; a free block of order k is 2^k
 * contiguous pages whose first page (the block head) carries the order in
 * its `property` field and has the PG_property flag set.
 */
module Buddy {
  import opened Common

  const MAX_ORDER: nat := 11

  /** One entry of the page map, reduced to the fields this allocator reads or writes. */
  datatype Page = Page(reserved: bool, freeHead: bool, property: nat, ref: int)

  /** A block laid down by `InitMemmap`: its head page and its order. */
  datatype Block = Block(head: nat, order: nat)

  // ---------------------------------------------------------------------------
  // Orders and buddies
  // ---------------------------------------------------------------------------

  /** The least order whose blocks hold n pages. */
  ghost function OrderFor(n: nat): nat
  {
    if n <= 1 then 0 else 1 + OrderFor((n + 1) / 2)
  }

  lemma {:induction false} OrderForIsLeast(n: nat)
    ensures Pow2(OrderFor(n)) >= n
    ensures OrderFor(n) == 0 || Pow2(OrderFor(n) - 1) < n
  {
    if n > 1 {
      OrderForIsLeast((n + 1) / 2);
    }
  }

  /** Two orders that both satisfy "least order holding n pages" are equal. */
  lemma LeastOrderUnique(n: nat, a: nat, b: nat)
    requires Pow2(a) >= n && (a == 0 || Pow2(a - 1) < n)
    requires Pow2(b) >= n && (b == 0 || Pow2(b - 1) < n)
    ensures a == b
  {
    if a < b {
      Pow2Monotone(a, b - 1);
    } else if b < a {
      Pow2Monotone(b, a - 1);
    }
  }

  /**
   * buddy_get_order: double a size from 1 until it reaches n. The size is a
   * 64-bit size_t, so the loop only ends for n <= 2^63.
   */
  method GetOrder(n: nat) returns (order: nat)
    requires n <= 0x8000_0000_0000_0000
    ensures Pow2(order) >= n
    ensures order == 0 || Pow2(order - 1) < n
    ensures order == OrderFor(n)
  {
    order := 0;
    var size: nat := 1;
    while size < n
      invariant size == Pow2(order)
      invariant order == 0 || Pow2(order - 1) < n
      decreases n - size
    {
      size := size * 2;
      order := order + 1;
    }
    OrderForIsLeast(n);
    LeastOrderUnique(n, order, OrderFor(n));
  }

  /**
   * buddy_get_buddy_index: flip bit `order` of a page index. The mask is
   * computed as a C `int` shift, so orders of 31 and above are out of range.
   */
  function BuddyIndex(index: bv64, order: bv64): (buddy: bv64)
    requires order < 31
    ensures buddy != index
  {
    index ^ (1 << order)
  }

  /** Buddies pair up: the buddy's buddy is the page itself, and the two differ in bit `order` and nowhere else. */
  lemma BuddyIndexPairs(index: bv64, order: bv64)
    requires order < 31
    ensures BuddyIndex(BuddyIndex(index, order), order) == index
    ensures (BuddyIndex(index, order) >> order) & 1 != (index >> order) & 1
    ensures BuddyIndex(index, order) & !(1 << order) == index & !(1 << order)
  {
  }

  lemma BuddyIndexExamples()
    ensures BuddyIndex(0, 1) == 2 && BuddyIndex(2, 1) == 0
    ensures BuddyIndex(4, 1) == 6 && BuddyIndex(6, 1) == 4
  {
  }

  // ---------------------------------------------------------------------------
  // The value-level invariant of the free area
  // ---------------------------------------------------------------------------

  /** Page h heads a free block of order k: flagged, order recorded, no reserved page, no other flagged page inside. */
  ghost predicate BlockOk(pg: seq<Page>, h: nat, k: nat)
  {
    && h + Pow2(k) <= |pg|
    && pg[h].freeHead
    && pg[h].property == k
    && (forall j :: h <= j < h + Pow2(k) ==> !pg[j].reserved)
    && (forall j :: h < j < h + Pow2(k) ==> !pg[j].freeHead)
  }

  /**
   * The free area is consistent: one list and one counter per order, every
   * counter equals its list's length, every listed page heads a free block of
   * that list's order, and no list names a page twice.
   */
  ghost predicate AreaOk(fl: seq<seq<nat>>, nf: seq<nat>, pg: seq<Page>)
  {
    && |fl| == MAX_ORDER
    && |nf| == MAX_ORDER
    && (forall k :: 0 <= k < MAX_ORDER ==> nf[k] == |fl[k]|)
    && (forall k, i :: 0 <= k < MAX_ORDER && 0 <= i < |fl[k]| ==> BlockOk(pg, fl[k][i], k))
    && (forall k, i, j :: 0 <= k < MAX_ORDER && 0 <= i < j < |fl[k]| ==> fl[k][i] != fl[k][j])
  }

  /** No listed free block meets the page range [lo, hi). */
  ghost predicate Outside(fl: seq<seq<nat>>, lo: nat, hi: nat)
  {
    forall k, i :: 0 <= k < |fl| && 0 <= i < |fl[k]| ==> fl[k][i] + Pow2(k) <= lo || hi <= fl[k][i]
  }

  /** The pages [lo, hi) exist, are neither reserved nor flagged, and meet no listed block. */
  ghost predicate Detached(fl: seq<seq<nat>>, pg: seq<Page>, lo: nat, hi: nat)
  {
    && lo <= hi <= |pg|
    && (forall j :: lo <= j < hi ==> !pg[j].reserved && !pg[j].freeHead)
    && Outside(fl, lo, hi)
  }

  /** Free pages counted from the counters: the sum of nf[i] * 2^i over i < k. */
  ghost function TotalUpTo(nf: seq<nat>, k: nat): nat
    requires k <= |nf|
  {
    if k == 0 then 0 else TotalUpTo(nf, k - 1) + nf[k - 1] * Pow2(k - 1)
  }

  ghost function TotalFree(nf: seq<nat>): nat
  {
    TotalUpTo(nf, |nf|)
  }

  lemma BlockOkFrame(pg: seq<Page>, pg': seq<Page>, h: nat, k: nat)
    requires BlockOk(pg, h, k)
    requires |pg'| == |pg|
    requires forall j :: h <= j < h + Pow2(k) ==> pg'[j] == pg[j]
    ensures BlockOk(pg', h, k)
  {
  }

  /** Two different list entries head disjoint blocks. */
  lemma ListedDisjoint(fl: seq<seq<nat>>, nf: seq<nat>, pg: seq<Page>, k1: nat, i1: nat, k2: nat, i2: nat)
    requires AreaOk(fl, nf, pg)
    requires k1 < MAX_ORDER && i1 < |fl[k1]|
    requires k2 < MAX_ORDER && i2 < |fl[k2]|
    requires k1 != k2 || i1 != i2
    ensures fl[k1][i1] + Pow2(k1) <= fl[k2][i2] || fl[k2][i2] + Pow2(k2) <= fl[k1][i1]
  {
    var h1, h2 := fl[k1][i1], fl[k2][i2];
    assert BlockOk(pg, h1, k1) && BlockOk(pg, h2, k2);
    if h1 == h2 {
      // equal heads have equal orders, and one list never names a page twice
      assert false;
    }
  }

  lemma TotalBump(nf: seq<nat>, j: nat, k: nat)
    requires j < |nf| && k <= |nf|
    ensures TotalUpTo(nf[j := nf[j] + 1], k) == TotalUpTo(nf, k) + (if j < k then Pow2(j) else 0)
  {
    if k > 0 {
      TotalBump(nf, j, k - 1);
      if j == k - 1 {
        calc {
          (nf[j] + 1) * Pow2(j);
          nf[j] * Pow2(j) + Pow2(j);
        }
      }
    }
  }

  lemma TotalDrop(nf: seq<nat>, j: nat, k: nat)
    requires j < |nf| && k <= |nf| && nf[j] > 0
    ensures TotalUpTo(nf[j := nf[j] - 1], k) + (if j < k then Pow2(j) else 0) == TotalUpTo(nf, k)
  {
    var nf' := nf[j := nf[j] - 1];
    assert nf'[j := nf'[j] + 1] == nf;
    TotalBump(nf', j, k);
  }

  lemma TotalOfZeros(nf: seq<nat>, k: nat)
    requires k <= |nf|
    requires forall i :: 0 <= i < |nf| ==> nf[i] == 0
    ensures TotalUpTo(nf, k) == 0
  {
    if k > 0 {
      TotalOfZeros(nf, k - 1);
    }
  }

  /** Appending a detached block of order k at the tail of list k keeps the area consistent. */
  lemma AppendBlockOk(fl: seq<seq<nat>>, nf: seq<nat>, pg: seq<Page>, head: nat, k: nat)
    requires AreaOk(fl, nf, pg)
    requires k < MAX_ORDER
    requires Detached(fl, pg, head, head + Pow2(k))
    ensures AreaOk(fl[k := fl[k] + [head]], nf[k := nf[k] + 1], pg[head := pg[head].(freeHead := true, property := k)])
  {
    var fl', nf', pg' := fl[k := fl[k] + [head]], nf[k := nf[k] + 1], pg[head := pg[head].(freeHead := true, property := k)];
    forall k', i | 0 <= k' < MAX_ORDER && 0 <= i < |fl'[k']|
      ensures BlockOk(pg', fl'[k'][i], k')
    {
      if k' == k && i == |fl[k]| {
        assert fl'[k'][i] == head;
      } else {
        assert fl'[k'][i] == fl[k'][i];
        BlockOkFrame(pg, pg', fl[k'][i], k');
      }
    }
    forall k', i, j | 0 <= k' < MAX_ORDER && 0 <= i < j < |fl'[k']|
      ensures fl'[k'][i] != fl'[k'][j]
    {
      if k' == k && j == |fl[k]| {
        assert fl'[k'][i] == fl[k][i];
      }
    }
  }

  /** Pushing a detached block of order k at the front of list k keeps the area consistent. */
  lemma PushBlockOk(fl: seq<seq<nat>>, nf: seq<nat>, pg: seq<Page>, head: nat, k: nat)
    requires AreaOk(fl, nf, pg)
    requires k < MAX_ORDER
    requires Detached(fl, pg, head, head + Pow2(k))
    ensures AreaOk(fl[k := [head] + fl[k]], nf[k := nf[k] + 1], pg[head := pg[head].(freeHead := true, property := k)])
  {
    var fl' := fl[k := [head] + fl[k]];
    PushedBlocksOk(fl, nf, pg, head, k);
    PushedDistinct(fl, nf, pg, head, k);
    assert forall k' :: 0 <= k' < MAX_ORDER ==> nf[k := nf[k] + 1][k'] == |fl'[k']|;
  }

  lemma PushedBlocksOk(fl: seq<seq<nat>>, nf: seq<nat>, pg: seq<Page>, head: nat, k: nat)
    requires AreaOk(fl, nf, pg)
    requires k < MAX_ORDER
    requires Detached(fl, pg, head, head + Pow2(k))
    ensures var fl', pg' := fl[k := [head] + fl[k]], pg[head := pg[head].(freeHead := true, property := k)];
      forall k', i :: 0 <= k' < MAX_ORDER && 0 <= i < |fl'[k']| ==> BlockOk(pg', fl'[k'][i], k')
  {
    var fl', pg' := fl[k := [head] + fl[k]], pg[head := pg[head].(freeHead := true, property := k)];
    forall k', i | 0 <= k' < MAX_ORDER && 0 <= i < |fl'[k']|
      ensures BlockOk(pg', fl'[k'][i], k')
    {
      if k' == k && i == 0 {
        assert fl'[k'][i] == head;
      } else if k' == k {
        assert fl'[k'][i] == fl[k][i - 1];
        BlockOkFrame(pg, pg', fl[k][i - 1], k);
      } else {
        assert fl'[k'][i] == fl[k'][i];
        BlockOkFrame(pg, pg', fl[k'][i], k');
      }
    }
  }

  lemma PushedDistinct(fl: seq<seq<nat>>, nf: seq<nat>, pg: seq<Page>, head: nat, k: nat)
    requires AreaOk(fl, nf, pg)
    requires k < MAX_ORDER
    requires Detached(fl, pg, head, head + Pow2(k))
    ensures var fl' := fl[k := [head] + fl[k]];
      forall k', i, j :: 0 <= k' < MAX_ORDER && 0 <= i < j < |fl'[k']| ==> fl'[k'][i] != fl'[k'][j]
  {
    var fl' := fl[k := [head] + fl[k]];
    forall k', i, j | 0 <= k' < MAX_ORDER && 0 <= i < j < |fl'[k']|
      ensures fl'[k'][i] != fl'[k'][j]
    {
      if k' == k && i == 0 {
        assert fl'[k'][j] == fl[k][j - 1];
      } else if k' == k {
        assert fl'[k'][i] == fl[k][i - 1] && fl'[k'][j] == fl[k][j - 1];
      }
    }
  }

  /** Removing the first block of list k detaches it; the rest stays consistent. */
  lemma RemoveFirstOk(fl: seq<seq<nat>>, nf: seq<nat>, pg: seq<Page>, k: nat)
    requires AreaOk(fl, nf, pg)
    requires k < MAX_ORDER && fl[k] != []
    ensures var h := fl[k][0];
      var fl' := fl[k := fl[k][1..]];
      var pg' := pg[h := pg[h].(freeHead := false)];
      && AreaOk(fl', nf[k := nf[k] - 1], pg')
      && Detached(fl', pg', h, h + Pow2(k))
      && pg'[h].property == k
  {
    var h := fl[k][0];
    var fl', nf', pg' := fl[k := fl[k][1..]], nf[k := nf[k] - 1], pg[h := pg[h].(freeHead := false)];
    assert BlockOk(pg, h, k);
    forall k', i | 0 <= k' < MAX_ORDER && 0 <= i < |fl'[k']|
      ensures BlockOk(pg', fl'[k'][i], k')
      ensures fl'[k'][i] + Pow2(k') <= h || h + Pow2(k) <= fl'[k'][i]
    {
      var i0 := if k' == k then i + 1 else i;
      assert fl'[k'][i] == fl[k'][i0];
      ListedDisjoint(fl, nf, pg, k, 0, k', i0);
      BlockOkFrame(pg, pg', fl[k'][i0], k');
    }
    forall k', i, j | 0 <= k' < MAX_ORDER && 0 <= i < j < |fl'[k']|
      ensures fl'[k'][i] != fl'[k'][j]
    {
      if k' == k {
        assert fl'[k'][i] == fl[k][i + 1] && fl'[k'][j] == fl[k][j + 1];
      }
    }
  }

  /** Both halves of a detached block of order k >= 1 are detached. */
  lemma DetachedHalves(fl: seq<seq<nat>>, pg: seq<Page>, page: nat, k: nat)
    requires 1 <= k
    requires Detached(fl, pg, page, page + Pow2(k))
    ensures Detached(fl, pg, page, page + Pow2(k - 1))
    ensures Detached(fl, pg, page + Pow2(k - 1), page + Pow2(k - 1) + Pow2(k - 1))
  {
    assert Pow2(k) == 2 * Pow2(k - 1);
  }

  /** Changing the order field of a page no listed block covers keeps the free area consistent. */
  lemma RetagOk(fl: seq<seq<nat>>, nf: seq<nat>, pg: seq<Page>, page: nat, hi: nat, p: nat)
    requires AreaOk(fl, nf, pg)
    requires page < hi <= |pg| && Outside(fl, page, hi)
    ensures AreaOk(fl, nf, pg[page := pg[page].(property := p)])
  {
    var pg' := pg[page := pg[page].(property := p)];
    forall k, i | 0 <= k < MAX_ORDER && 0 <= i < |fl[k]|
      ensures BlockOk(pg', fl[k][i], k)
    {
      BlockOkFrame(pg, pg', fl[k][i], k);
    }
  }

  /**
   * After the right half of a block [page, page + 2 * 2^k) is pushed onto
   * free_list(k) and the left half retagged, the left half is still detached.
   */
  lemma LeftHalfDetached(fl: seq<seq<nat>>, pg: seq<Page>, page: nat, k: nat, p: nat)
    requires Detached(fl, pg, page, page + Pow2(k) + Pow2(k))
    requires k < |fl|
    ensures var half := page + Pow2(k);
      Detached(fl[k := [half] + fl[k]], pg[half := pg[half].(freeHead := true, property := p)][page := pg[page].(property := p)], page, half)
  {
    var half := page + Pow2(k);
    var fl' := fl[k := [half] + fl[k]];
    forall k', i | 0 <= k' < |fl'| && 0 <= i < |fl'[k']|
      ensures fl'[k'][i] + Pow2(k') <= page || half <= fl'[k'][i]
    {
      if k' == k && i > 0 {
        assert fl'[k'][i] == fl[k][i - 1];
      } else if k' != k {
        assert fl'[k'][i] == fl[k'][i];
      }
    }
  }

  // ---------------------------------------------------------------------------
  // The greedy layout of init_memmap
  // ---------------------------------------------------------------------------

  /**
   * The blocks init_memmap lays down for `rem` pages starting at page `at`,
   * trying orders from `order` downwards and taking as many blocks of each
   * order as fit.
   */
  function Layout(rem: nat, order: nat, at: nat): seq<Block>
    decreases order, rem
  {
    if rem >= Pow2(order) then [Block(at, order)] + Layout(rem - Pow2(order), order, at + Pow2(order))
    else if order == 0 then []
    else Layout(rem, order - 1, at)
  }

  /** The total number of pages of some blocks. */
  ghost function Size(bs: seq<Block>): nat
  {
    if bs == [] then 0 else Pow2(bs[0].order) + Size(bs[1..])
  }

  /** Heads of the blocks of order k, in layout order. */
  function HeadsOfOrder(bs: seq<Block>, k: nat): seq<nat>
  {
    if bs == [] then []
    else HeadsOfOrder(bs[..|bs| - 1], k) + (if bs[|bs| - 1].order == k then [bs[|bs| - 1].head] else [])
  }

  /** The layout covers exactly the requested number of pages. */
  lemma {:induction false} LayoutCovers(rem: nat, order: nat, at: nat)
    ensures Size(Layout(rem, order, at)) == rem
    decreases order, rem
  {
    if rem >= Pow2(order) {
      LayoutCovers(rem - Pow2(order), order, at + Pow2(order));
      var L := Layout(rem, order, at);
      assert L[1..] == Layout(rem - Pow2(order), order, at + Pow2(order));
    } else if order > 0 {
      LayoutCovers(rem, order - 1, at);
    }
  }

  /**
   * The layout is contiguous: it starts at `at`, each block starts where
   * the previous one ends, and so the blocks never overlap and all lie in
   * [at, at + rem).
   */
  lemma {:induction false} LayoutContiguous(rem: nat, order: nat, at: nat)
    ensures var L := Layout(rem, order, at);
      && (L != [] ==> L[0].head == at)
      && (forall i :: 0 <= i < |L| - 1 ==> L[i + 1].head == L[i].head + Pow2(L[i].order))
      && (forall i :: 0 <= i < |L| ==> at <= L[i].head && L[i].head + Pow2(L[i].order) <= at + rem)
    decreases order, rem
  {
    var L := Layout(rem, order, at);
    if rem >= Pow2(order) {
      var rest := Layout(rem - Pow2(order), order, at + Pow2(order));
      LayoutContiguous(rem - Pow2(order), order, at + Pow2(order));
      assert L == [Block(at, order)] + rest;
      forall i | 0 <= i < |L| - 1
        ensures L[i + 1].head == L[i].head + Pow2(L[i].order)
      {
        if i > 0 {
          assert L[i] == rest[i - 1] && L[i + 1] == rest[i];
        }
      }
      forall i | 0 <= i < |L|
        ensures at <= L[i].head && L[i].head + Pow2(L[i].order) <= at + rem
      {
        if i > 0 {
          assert L[i] == rest[i - 1];
        }
      }
    } else if order > 0 {
      LayoutContiguous(rem, order - 1, at);
    }
  }

  ghost predicate OrdersAtMost(bs: seq<Block>, order: nat)
  {
    forall i :: 0 <= i < |bs| ==> bs[i].order <= order
  }

  /** Orders never rise along the sequence, and only `top` may appear more than once. */
  ghost predicate Descending(bs: seq<Block>, top: nat)
  {
    forall i, j :: 0 <= i < j < |bs| ==> bs[j].order < bs[i].order || bs[j].order == bs[i].order == top
  }

  ghost predicate StrictlyDescending(bs: seq<Block>)
  {
    forall i, j :: 0 <= i < j < |bs| ==> bs[j].order < bs[i].order
  }

  /**
   * Orders never rise along the layout and never exceed the starting order;
   * every order below the starting one is used at most once, and when fewer
   * than 2^(order+1) pages remain even the starting order is used at most once.
   */
  lemma {:induction false} LayoutOrders(rem: nat, order: nat, at: nat)
    ensures OrdersAtMost(Layout(rem, order, at), order)
    ensures Descending(Layout(rem, order, at), order)
    ensures rem < Pow2(order + 1) ==> StrictlyDescending(Layout(rem, order, at))
    decreases order, rem
  {
    var L := Layout(rem, order, at);
    if rem >= Pow2(order) {
      var rest := Layout(rem - Pow2(order), order, at + Pow2(order));
      LayoutOrders(rem - Pow2(order), order, at + Pow2(order));
      assert L == [Block(at, order)] + rest;
      assert Pow2(order + 1) == 2 * Pow2(order);
      if rem < Pow2(order + 1) && order > 0 {
        // fewer than 2^order pages remain: the rest starts one order lower
        assert rest == Layout(rem - Pow2(order), order - 1, at + Pow2(order));
        assert Pow2(order - 1 + 1) == Pow2(order);
        LayoutOrders(rem - Pow2(order), order - 1, at + Pow2(order));
      }
      forall i, j | 0 <= i < j < |L|
        ensures L[j].order < L[i].order || L[j].order == L[i].order == order
        ensures rem < Pow2(order + 1) ==> L[j].order < L[i].order
      {
        assert L[j] == rest[j - 1];
        if i > 0 {
          assert L[i] == rest[i - 1];
        }
      }
      forall i | 0 < i < |L|
        ensures L[i].order <= order
      {
        assert L[i] == rest[i - 1];
      }
    } else if order > 0 {
      assert L == Layout(rem, order - 1, at);
      assert Pow2(order - 1 + 1) == Pow2(order);
      LayoutOrders(rem, order - 1, at);
    }
  }

  lemma LayoutOfThirteen()
    ensures Layout(13, MAX_ORDER - 1, 0) == [Block(0, 3), Block(8, 2), Block(12, 0)]
  {
    assert Pow2(0) == 1 && Pow2(1) == 2 && Pow2(2) == 4 && Pow2(3) == 8;
    assert Pow2(4) == 16 && Pow2(5) == 32 && Pow2(6) == 64 && Pow2(7) == 128;
    assert Pow2(8) == 256 && Pow2(9) == 512 && Pow2(10) == 1024;
    assert Layout(0, 0, 13) == [];
    assert Layout(1, 0, 12) == [Block(12, 0)];
    assert Layout(1, 2, 12) == [Block(12, 0)] by {
      assert Layout(1, 2, 12) == Layout(1, 1, 12) == Layout(1, 0, 12);
    }
    assert Layout(5, 2, 8) == [Block(8, 2), Block(12, 0)];
    assert Layout(5, 3, 8) == [Block(8, 2), Block(12, 0)];
    assert Layout(13, 3, 0) == [Block(0, 3), Block(8, 2), Block(12, 0)];
    assert Layout(13, 10, 0) == Layout(13, 9, 0) == Layout(13, 8, 0) == Layout(13, 7, 0);
    assert Layout(13, 7, 0) == Layout(13, 6, 0) == Layout(13, 5, 0) == Layout(13, 4, 0) == Layout(13, 3, 0);
  }

  // ---------------------------------------------------------------------------
  // The allocator state
  // ---------------------------------------------------------------------------

  /** The first order at or above `from` whose free list is not empty, or |fl| if none. */
  ghost function FirstNonEmpty(fl: seq<seq<nat>>, from: nat): (c: nat)
    ensures from <= c || c == |fl|
    ensures c <= |fl|
    ensures c < |fl| ==> fl[c] != []
    ensures forall k :: from <= k < c ==> fl[k] == []
    decreases |fl| - from
  {
    if from >= |fl| then |fl| else if fl[from] != [] then from else FirstNonEmpty(fl, from + 1)
  }

  class BuddyPmm {
    /** free_list(k): the head pages of the free blocks of order k, in list order. */
    var freeList: seq<seq<nat>>
    /** nr_free(k): the number of free blocks of order k. */
    var nrFree: seq<nat>
    /** The page map; the array itself never changes, only its entries. */
    const pages: array<Page>

    ghost predicate Valid()
      reads this, pages
    {
      AreaOk(freeList, nrFree, pages[..])
    }

    /** A page map of `npage` reserved pages and an empty free area (the state before pages are handed over). */
    constructor (npage: nat)
      ensures Valid()
      ensures fresh(pages)
      ensures pages.Length == npage
      ensures forall j :: 0 <= j < npage ==> pages[j] == Page(true, false, 0, 0)
    {
      freeList := seq(MAX_ORDER, _ => []);
      nrFree := seq(MAX_ORDER, _ => 0);
      pages := new Page[npage](_ => Page(true, false, 0, 0));
    }

    /** buddy_init: every free list empty, every counter zero. */
    method Init()
      requires |freeList| == MAX_ORDER && |nrFree| == MAX_ORDER
      modifies this
      ensures Valid()
      ensures forall k :: 0 <= k < MAX_ORDER ==> freeList[k] == [] && nrFree[k] == 0
      ensures TotalFree(nrFree) == 0
    {
      for i := 0 to MAX_ORDER
        invariant |freeList| == MAX_ORDER && |nrFree| == MAX_ORDER
        invariant forall k :: 0 <= k < i ==> freeList[k] == [] && nrFree[k] == 0
      {
        freeList := freeList[i := []];
        nrFree := nrFree[i := 0];
      }
      TotalOfZeros(nrFree, MAX_ORDER);
    }

    /** buddy_nr_free_pages: the sum of nr_free(i) * 2^i. */
    method NrFreePages() returns (total: nat)
      requires Valid()
      ensures total == TotalFree(nrFree)
    {
      total := 0;
      for i := 0 to MAX_ORDER
        invariant total == TotalUpTo(nrFree, i)
      {
        total := total + nrFree[i] * Pow2(i);
      }
    }

    /**
     * One step of buddy_init_memmap: mark the clean page `head` as the head of
     * a free block of order k and append it to free_list(k); the pages after
     * the block, up to `hi`, stay clean and clear of listed blocks.
     */
    method AppendFreeBlock(head: nat, k: nat, ghost pg0: seq<Page>, ghost base: nat, ghost hi: nat)
      requires Valid()
      requires k < MAX_ORDER && head + Pow2(k) <= hi
      requires Handed(pages[..], pg0, base, head, hi)
      requires Outside(freeList, head, hi)
      modifies pages, this
      ensures Valid()
      ensures Handed(pages[..], pg0, base, head + Pow2(k), hi)
      ensures Outside(freeList, head + Pow2(k), hi)
      ensures freeList == old(freeList[k := freeList[k] + [head]])
      ensures TotalFree(nrFree) == old(TotalFree(nrFree)) + Pow2(k)
    {
      ghost var fl, pg := freeList, pages[..];
      HandedBlockDetached(fl, pg, pg0, base, head, k, hi);
      AppendBlockOk(freeList, nrFree, pages[..], head, k);
      TotalBump(nrFree, k, MAX_ORDER);
      pages[head] := pages[head].(property := k, freeHead := true);
      freeList := freeList[k := freeList[k] + [head]];
      nrFree := nrFree[k := nrFree[k] + 1];
      assert pages[..] == pg[head := pg[head].(freeHead := true, property := k)];
      HandedStep(pg, pg0, base, head, k, hi);
      DetachedAfterAppend(fl, freeList, head, k, hi);
    }

    /** The first half of buddy_init_memmap: clear the flags, order and reference count of each page in [base, base + n). */
    method ClearRegion(base: nat, n: nat)
      requires Valid()
      requires n > 0
      requires base + n <= pages.Length
      requires forall j :: base <= j < base + n ==> pages[j].reserved
      modifies pages
      ensures Valid()
      ensures Handed(pages[..], old(pages[..]), base, base, base + n)
      ensures Outside(freeList, base, base + n)
    {
      ghost var fl, nf, pg := freeList, nrFree, pages[..];
      var p := base;
      while p < base + n
        invariant base <= p <= base + n
        invariant forall j :: base <= j < p ==> pages[j] == Page(false, false, 0, 0)
        invariant forall j :: 0 <= j < pages.Length && !(base <= j < p) ==> pages[j] == pg[j]
      {
        pages[p] := Page(false, false, 0, 0);
        p := p + 1;
      }
      ClearedRegionOk(fl, nf, pg, pages[..], base, base + n);
    }

    /**
     * buddy_init_memmap: hand the n reserved pages from `base` to the
     * allocator, clearing their flags, orders and reference counts, then
     * cutting them greedily into blocks from order MAX_ORDER - 1 down and
     * appending each block to its free list.
     */
    method InitMemmap(base: nat, n: nat)
      requires Valid()
      requires n > 0
      requires base + n <= pages.Length
      requires forall j :: base <= j < base + n ==> pages[j].reserved
      modifies this, pages
      ensures Valid()
      ensures forall k :: 0 <= k < MAX_ORDER ==>
        freeList[k] == old(freeList[k]) + HeadsOfOrder(Layout(n, MAX_ORDER - 1, base), k)
      ensures TotalFree(nrFree) == old(TotalFree(nrFree)) + n
      ensures Handed(pages[..], old(pages[..]), base, base + n, base + n)
    {
      ClearRegion(base, n);
      ghost var fl0, nf0 := freeList, nrFree;
      var remaining := n;
      var index := 0;
      var order: int := MAX_ORDER - 1;
      ghost var whole := Layout(n, order, base);
      ghost var added: seq<Block> := [];
      assert Progress(whole, added, remaining, order, base + index);
      while order >= 0
        invariant -1 <= order < MAX_ORDER
        invariant LayInv(base, n, index, remaining, order, whole, added, fl0, nf0, old(pages[..]))
      {
        index, remaining, added := LayOrder(order, base, n, index, remaining, whole, added, fl0, nf0, old(pages[..]));
        order := order - 1;
      }
      ProgressDone(whole, added, remaining, base + index);
      LayoutOrders(n, MAX_ORDER - 1, base);
      AppendAllHeads(fl0, whole);
    }

    /** Where buddy_init_memmap's outer loop stands before order `order`. */
    ghost predicate LayInv(base: nat, n: nat, index: nat, remaining: nat, order: int, whole: seq<Block>,
                           added: seq<Block>, fl0: seq<seq<nat>>, nf0: seq<nat>, pg0: seq<Page>)
      reads this, pages
    {
      && index + remaining == n
      && Progress(whole, added, remaining, order, base + index)
      && Valid()
      && Outside(freeList, base + index, base + n)
      && Handed(pages[..], pg0, base, base + index, base + n)
      && freeList == AppendAll(fl0, added)
      && TotalFree(nrFree) == TotalFree(nf0) + index
    }

    /** One pass of buddy_init_memmap's outer loop: the blocks of order `order`, then the next lower order. */
    method LayOrder(order: nat, base: nat, n: nat, index0: nat, remaining0: nat, ghost whole: seq<Block>,
                    ghost added0: seq<Block>, ghost fl0: seq<seq<nat>>, ghost nf0: seq<nat>, ghost pg0: seq<Page>)
      returns (index: nat, remaining: nat, ghost added: seq<Block>)
      requires order < MAX_ORDER
      requires LayInv(base, n, index0, remaining0, order, whole, added0, fl0, nf0, pg0)
      modifies this, pages
      ensures LayInv(base, n, index, remaining, order - 1, whole, added, fl0, nf0, pg0)
    {
      index, remaining, added := FillOrder(order, base, n, index0, remaining0, whole, added0, fl0, nf0, pg0);
      ProgressDown(whole, added, remaining, order, base + index);
    }

    /** The inner loop of buddy_init_memmap: lay down blocks of order `order` while the remaining pages fill one. */
    method FillOrder(order: nat, base: nat, n: nat, index0: nat, remaining0: nat, ghost whole: seq<Block>,
                     ghost added0: seq<Block>, ghost fl0: seq<seq<nat>>, ghost nf0: seq<nat>, ghost pg0: seq<Page>)
      returns (index: nat, remaining: nat, ghost added: seq<Block>)
      requires order < MAX_ORDER && index0 + remaining0 == n
      requires Progress(whole, added0, remaining0, order, base + index0)
      requires Valid()
      requires Outside(freeList, base + index0, base + n)
      requires Handed(pages[..], pg0, base, base + index0, base + n)
      requires freeList == AppendAll(fl0, added0)
      requires TotalFree(nrFree) == TotalFree(nf0) + index0
      modifies this, pages
      ensures index + remaining == n && remaining < Pow2(order)
      ensures Progress(whole, added, remaining, order, base + index)
      ensures Valid()
      ensures Outside(freeList, base + index, base + n)
      ensures Handed(pages[..], pg0, base, base + index, base + n)
      ensures freeList == AppendAll(fl0, added)
      ensures TotalFree(nrFree) == TotalFree(nf0) + index
    {
      index, remaining, added := index0, remaining0, added0;
      var blockSize := Pow2(order);
      while remaining >= blockSize
        invariant index + remaining == n
        invariant Progress(whole, added, remaining, order, base + index)
        invariant Valid()
        invariant Outside(freeList, base + index, base + n)
        invariant Handed(pages[..], pg0, base, base + index, base + n)
        invariant freeList == AppendAll(fl0, added)
        invariant TotalFree(nrFree) == TotalFree(nf0) + index
      {
        var head := base + index;
        AppendFreeBlock(head, order, pg0, base, base + n);
        AppendAllSnoc(fl0, added, Block(head, order));
        ghost var addedPrev, remPrev := added, remaining;
        added := added + [Block(head, order)];
        index := index + blockSize;
        remaining := remaining - blockSize;
        ProgressStep(whole, addedPrev, added, remPrev, remaining, order, head, base + index);
      }
    }

    /** Take the first block off free_list(k): list_del, nr_free(k)--, ClearPageProperty. */
    method TakeFirst(k: nat) returns (head: nat)
      requires Valid()
      requires k < MAX_ORDER && freeList[k] != []
      modifies this, pages
      ensures Valid()
      ensures head == old(freeList[k][0])
      ensures freeList == old(freeList[k := freeList[k][1..]])
      ensures nrFree == old(nrFree[k := nrFree[k] - 1])
      ensures pages[..] == old(pages[..])[head := old(pages[head]).(freeHead := false)]
      ensures Detached(freeList, pages[..], head, head + Pow2(k))
      ensures pages[head].property == k
      ensures TotalFree(nrFree) + Pow2(k) == old(TotalFree(nrFree))
    {
      head := freeList[k][0];
      RemoveFirstOk(freeList, nrFree, pages[..], k);
      TotalDrop(nrFree, k, MAX_ORDER);
      freeList := freeList[k := freeList[k][1..]];
      nrFree := nrFree[k := nrFree[k] - 1];
      pages[head] := pages[head].(freeHead := false);
    }

    /**
     * split: cut the detached block headed by `page` (order o, 1 <= o <
     * MAX_ORDER) in two; the right half, at page + 2^(o-1), becomes a free
     * block of order o - 1 pushed at the front of free_list(o - 1), and the
     * left half, with its order lowered, is returned.
     */
    method Split(page: nat) returns (left: nat)
      requires Valid()
      requires page < pages.Length
      requires 1 <= pages[page].property < MAX_ORDER
      requires Detached(freeList, pages[..], page, page + Pow2(pages[page].property))
      modifies this, pages
      ensures Valid()
      ensures var o := old(pages[page].property);
        var half := page + Pow2(o - 1);
        && left == page
        && pages[page].property == o - 1
        && freeList == old(freeList[o - 1 := [half] + freeList[o - 1]])
        && nrFree == old(nrFree[o - 1 := nrFree[o - 1] + 1])
        && pages[..] == old(pages[..])[half := old(pages[half]).(freeHead := true, property := o - 1)][page := old(pages[page]).(property := o - 1)]
        && Detached(freeList, pages[..], page, page + Pow2(o - 1))
        && TotalFree(nrFree) == old(TotalFree(nrFree)) + Pow2(o - 1)
    {
      var order := pages[page].property;
      var cur := order - 1;
      var half := page + Pow2(cur);
      ghost var fl, nf, pg := freeList, nrFree, pages[..];
      DetachedHalves(fl, pg, page, order);
      PushBlockOk(fl, nf, pg, half, cur);
      LeftHalfDetached(fl, pg, page, cur, cur);
      TotalBump(nf, cur, MAX_ORDER);
      pages[half] := pages[half].(property := cur, freeHead := true);
      ghost var pg1 := pg[half := pg[half].(freeHead := true, property := cur)];
      assert pages[..] == pg1;
      freeList := freeList[cur := [half] + freeList[cur]];
      nrFree := nrFree[cur := nrFree[cur] + 1];
      RetagOk(freeList, nrFree, pg1, page, half, cur);
      pages[page] := pages[page].(property := cur);
      assert pages[..] == pg1[page := pg[page].(property := cur)];
      left := page;
    }

    /**
     * The splitting loop of buddy_alloc_pages: split the detached block of
     * order `from` headed by `head` until it has order `to`, pushing each
     * right half onto the list of its order.
     */
    method SplitDown(head: nat, from: nat, to: nat) returns (page: nat)
      requires Valid()
      requires to <= from < MAX_ORDER
      requires head < pages.Length && pages[head].property == from
      requires Detached(freeList, pages[..], head, head + Pow2(from))
      modifies this, pages
      ensures Valid()
      ensures page == head
      ensures pages[head].property == to
      ensures SplitPages(pages[..], old(pages[..]), head, to, from)
      ensures Detached(freeList, pages[..], head, head + Pow2(to))
      ensures Pushed(freeList, old(freeList), head, to, from)
      ensures TotalFree(nrFree) + Pow2(to) == old(TotalFree(nrFree)) + Pow2(from)
    {
      page := head;
      var c := from;
      assert pages[..][head] == pages[..][head].(property := from);
      while c > to
        invariant to <= c <= from
        invariant page == head
        invariant SplitInv(old(freeList), old(pages[..]), old(TotalFree(nrFree)), head, c, from)
      {
        SplitOnce(old(freeList), old(pages[..]), old(TotalFree(nrFree)), head, c, from);
        c := c - 1;
      }
    }

    /** Where the splitting loop stands with the head's block at order c. */
    ghost predicate SplitInv(fl0: seq<seq<nat>>, pg0: seq<Page>, total0: nat, head: nat, c: nat, from: nat)
      reads this, pages
    {
      && Valid()
      && head < pages.Length && pages[head].property == c
      && SplitPages(pages[..], pg0, head, c, from)
      && Detached(freeList, pages[..], head, head + Pow2(c))
      && Pushed(freeList, fl0, head, c, from)
      && TotalFree(nrFree) + Pow2(c) == total0 + Pow2(from)
    }

    /** One pass of the splitting loop: the block at order c becomes one at order c - 1. */
    method SplitOnce(ghost fl0: seq<seq<nat>>, ghost pg0: seq<Page>, ghost total0: nat, head: nat, c: nat, from: nat)
      requires 0 < c <= from < MAX_ORDER
      requires SplitInv(fl0, pg0, total0, head, c, from)
      modifies this, pages
      ensures SplitInv(fl0, pg0, total0, head, c - 1, from)
    {
      ghost var flPrev, pgPrev := freeList, pages[..];
      var page := Split(head);
      PushedStep(fl0, flPrev, freeList, head, c, from);
      SplitPagesStep(pg0, pgPrev, pages[..], head, c, from);
      Pow2Succ(c - 1);
    }

    /**
     * buddy_alloc_pages: find the first non-empty free list at or above the
     * order n needs, take its first block and split it down to that order.
     * Fails, changing nothing, when n needs an order >= MAX_ORDER or every
     * list from that order up is empty.
     */
    method AllocPages(n: nat) returns (page: Option<nat>)
      requires Valid()
      requires 0 < n <= 0x8000_0000_0000_0000
      modifies this, pages
      ensures Valid()
      ensures var order := OrderFor(n);
        var c := FirstNonEmpty(old(freeList), order);
        && (page.None? <==> order >= MAX_ORDER || c == MAX_ORDER)
        && (page.None? ==> freeList == old(freeList) && nrFree == old(nrFree) && pages[..] == old(pages[..]))
        && (page.Some? ==>
             && AllocatedFrom(freeList, old(freeList), pages[..], old(pages[..]), page.value, order, c)
             && TotalFree(nrFree) + Pow2(order) == old(TotalFree(nrFree)))
    {
      var order := GetOrder(n);
      if order >= MAX_ORDER {
        return None;
      }
      var cur := FindList(order);
      if cur == MAX_ORDER {
        return None;
      }
      var head := TakeAndSplit(cur, order);
      page := Some(head);
    }

    /** The search of buddy_alloc_pages: the first list at or above `order` that is not empty, or MAX_ORDER. */
    method FindList(order: nat) returns (cur: nat)
      requires Valid() && order < MAX_ORDER
      ensures cur == FirstNonEmpty(freeList, order)
    {
      cur := order;
      while cur < MAX_ORDER && freeList[cur] == []
        invariant order <= cur <= MAX_ORDER
        invariant FirstNonEmpty(freeList, order) == FirstNonEmpty(freeList, cur)
      {
        cur := cur + 1;
      }
    }

    /** The success path of buddy_alloc_pages: take the first block of list cur and split it down to `order`. */
    method TakeAndSplit(cur: nat, order: nat) returns (head: nat)
      requires Valid()
      requires order <= cur < MAX_ORDER && freeList[cur] != []
      modifies this, pages
      ensures Valid()
      ensures AllocatedFrom(freeList, old(freeList), pages[..], old(pages[..]), head, order, cur)
      ensures TotalFree(nrFree) + Pow2(order) == old(TotalFree(nrFree))
    {
      ghost var fl0, pg0 := freeList, pages[..];
      head := TakeFirst(cur);
      head := SplitDown(head, cur, order);
      AllocatedOf(fl0, freeList, pg0, pages[..], head, order, cur);
    }
  }

  /** Lists lo .. hi - 1 of fl are those of fl0 with the right half head + 2^k pushed at the front of list k; the others are unchanged. */
  ghost predicate Pushed(fl: seq<seq<nat>>, fl0: seq<seq<nat>>, head: nat, lo: nat, hi: nat)
  {
    && |fl| == |fl0| == MAX_ORDER
    && lo <= hi <= MAX_ORDER
    && (forall k :: lo <= k < hi ==> fl[k] == [head + Pow2(k)] + fl0[k])
    && (forall k :: 0 <= k < MAX_ORDER && !(lo <= k < hi) ==> fl[k] == fl0[k])
  }

  /** Page i is one of the right halves head + 2^k, lo <= k < hi, that splitting a block headed by head from order hi down to lo pushes. */
  ghost predicate IsRightHalf(i: nat, head: nat, lo: nat, hi: nat)
  {
    exists k :: lo <= k < hi && i == RightHalf(head, k)
  }

  /** The head of the right half split off when a block headed by head goes from order k + 1 to k. */
  function RightHalf(head: nat, k: nat): nat
  {
    head + Pow2(k)
  }

  /**
   * The page map pg is pg0 after the block headed by head went from order hi
   * down to order lo: the head's order is lo, each right half head + 2^k is
   * a free head of order k, and no other page changes.
   */
  ghost predicate SplitPages(pg: seq<Page>, pg0: seq<Page>, head: nat, lo: nat, hi: nat)
  {
    && |pg| == |pg0| && head < |pg|
    && pg[head] == pg0[head].(property := lo)
    && (forall k :: lo <= k < hi ==>
          RightHalf(head, k) < |pg| && pg[RightHalf(head, k)] == pg0[RightHalf(head, k)].(freeHead := true, property := k))
    && (forall i :: 0 <= i < |pg| && i != head && !IsRightHalf(i, head, lo, hi) ==> pg[i] == pg0[i])
  }

  /** Powers of two grow strictly. */
  lemma Pow2Strict(i: nat, j: nat)
    requires i < j
    ensures Pow2(i) < Pow2(j)
  {
    Pow2Monotone(i + 1, j);
  }

  /** One more split of the head's block, at order c, extends SplitPages from c down to c - 1. */
  lemma {:induction false} SplitPagesStep(pg0: seq<Page>, pgPrev: seq<Page>, pg: seq<Page>, head: nat, c: nat, hi: nat)
    requires SplitPages(pgPrev, pg0, head, c, hi)
    requires 0 < c <= hi && head + Pow2(c) <= |pgPrev|
    requires var half := head + Pow2(c - 1);
      pg == pgPrev[half := pgPrev[half].(freeHead := true, property := c - 1)][head := pgPrev[head].(property := c - 1)]
    ensures SplitPages(pg, pg0, head, c - 1, hi)
  {
    var half := RightHalf(head, c - 1);
    assert IsRightHalf(half, head, c - 1, hi);
    Pow2Strict(c - 1, c);
    assert !IsRightHalf(half, head, c, hi) by {
      forall k | c <= k < hi
        ensures half != RightHalf(head, k)
      {
        Pow2Strict(c - 1, k);
      }
    }
    assert pgPrev[half] == pg0[half];
    forall k | c - 1 <= k < hi
      ensures RightHalf(head, k) < |pg| && pg[RightHalf(head, k)] == pg0[RightHalf(head, k)].(freeHead := true, property := k)
    {
      if k > c - 1 {
        Pow2Strict(c - 1, k);
      }
    }
    forall i | 0 <= i < |pg| && i != head && !IsRightHalf(i, head, c - 1, hi)
      ensures pg[i] == pg0[i]
    {
      assert i != half;
      assert !IsRightHalf(i, head, c, hi);
    }
  }

  lemma PushedStep(fl0: seq<seq<nat>>, flPrev: seq<seq<nat>>, fl: seq<seq<nat>>, head: nat, c: nat, hi: nat)
    requires Pushed(flPrev, fl0, head, c, hi)
    requires 0 < c <= hi
    requires fl == flPrev[c - 1 := [head + Pow2(c - 1)] + flPrev[c - 1]]
    ensures Pushed(fl, fl0, head, c - 1, hi)
  {
    assert flPrev[c - 1] == fl0[c - 1];
  }

  /**
   * What buddy_alloc_pages leaves when it hands out the block at head of
   * order `order`, taken from list c: the block was the head of list c,
   * each list from the order up to c - 1 gained the right half of that
   * order at its front, the others keep their blocks; in the page map only
   * the head (order lowered, no longer a free head) and the right halves
   * changed; and the block lies outside every free block.
   */
  ghost predicate AllocatedFrom(fl: seq<seq<nat>>, fl0: seq<seq<nat>>, pg: seq<Page>, pg0: seq<Page>,
                                head: nat, order: nat, c: nat)
  {
    && |fl| == |fl0| == MAX_ORDER && c < MAX_ORDER && fl0[c] != [] && head < |pg0|
    && head == fl0[c][0]
    && fl[c] == fl0[c][1..]
    && (forall k :: order <= k < c ==> fl[k] == [head + Pow2(k)] + fl0[k])
    && (forall k :: 0 <= k < MAX_ORDER && !(order <= k <= c) ==> fl[k] == fl0[k])
    && SplitPages(pg, pg0[head := pg0[head].(freeHead := false)], head, order, c)
    && pg[head].property == order && !pg[head].freeHead
    && Detached(fl, pg, head, head + Pow2(order))
  }

  /** Taking the first block of list cur and splitting it down to `order` gives AllocatedFrom. */
  lemma AllocatedOf(fl0: seq<seq<nat>>, fl: seq<seq<nat>>, pg0: seq<Page>, pg: seq<Page>, head: nat, order: nat, cur: nat)
    requires |fl0| == MAX_ORDER && order <= cur < MAX_ORDER && fl0[cur] != [] && head == fl0[cur][0] && head < |pg0|
    requires Pushed(fl, fl0[cur := fl0[cur][1..]], head, order, cur)
    requires SplitPages(pg, pg0[head := pg0[head].(freeHead := false)], head, order, cur)
    requires Detached(fl, pg, head, head + Pow2(order))
    ensures AllocatedFrom(fl, fl0, pg, pg0, head, order, cur)
  {
    AllocLists(fl0, fl0[cur := fl0[cur][1..]], fl, head, order, cur);
  }

  /** The free lists after buddy_alloc_pages took the first block of list cur and split it down to `order`. */
  lemma AllocLists(fl0: seq<seq<nat>>, fl1: seq<seq<nat>>, fl: seq<seq<nat>>, head: nat, order: nat, cur: nat)
    requires |fl0| == MAX_ORDER && cur < MAX_ORDER && fl0[cur] != []
    requires fl1 == fl0[cur := fl0[cur][1..]]
    requires Pushed(fl, fl1, head, order, cur)
    ensures fl[cur] == fl0[cur][1..]
    ensures forall k :: order <= k < cur ==> fl[k] == [head + Pow2(k)] + fl0[k]
    ensures forall k :: 0 <= k < MAX_ORDER && !(order <= k <= cur) ==> fl[k] == fl0[k]
  {
  }

  lemma Pow2Succ(k: nat)
    ensures Pow2(k + 1) == 2 * Pow2(k)
  {
  }

  /** Clearing reserved pages that no free block uses leaves the area consistent and the region detached. */
  lemma ClearedRegionOk(fl: seq<seq<nat>>, nf: seq<nat>, pg: seq<Page>, pg': seq<Page>, lo: nat, hi: nat)
    requires AreaOk(fl, nf, pg)
    requires lo < hi <= |pg| == |pg'|
    requires forall j :: lo <= j < hi ==> pg[j].reserved && pg'[j] == Page(false, false, 0, 0)
    requires forall j :: 0 <= j < |pg| && !(lo <= j < hi) ==> pg'[j] == pg[j]
    ensures AreaOk(fl, nf, pg')
    ensures Detached(fl, pg', lo, hi)
  {
    forall k, i | 0 <= k < MAX_ORDER && 0 <= i < |fl[k]|
      ensures fl[k][i] + Pow2(k) <= lo || hi <= fl[k][i]
      ensures BlockOk(pg', fl[k][i], k)
    {
      var h := fl[k][i];
      assert BlockOk(pg, h, k);
      // the page max(h, lo) is reserved when it lies in [lo, hi), and free when it lies in the block
      var j := if h < lo then lo else h;
      assert h <= j < h + Pow2(k) ==> !pg[j].reserved;
      BlockOkFrame(pg, pg', h, k);
    }
  }

  /**
   * The page map during init_memmap: the pages [from, hi) are still clean,
   * no page of [base, hi) is reserved or referenced, and every page outside
   * [base, hi) is as it was in pg0.
   */
  ghost predicate Handed(pg: seq<Page>, pg0: seq<Page>, base: nat, from: nat, hi: nat)
  {
    && |pg| == |pg0|
    && base <= from <= hi <= |pg|
    && (forall j :: from <= j < hi ==> pg[j] == Page(false, false, 0, 0))
    && (forall j :: base <= j < hi ==> !pg[j].reserved && pg[j].ref == 0)
    && (forall j :: 0 <= j < |pg| && !(base <= j < hi) ==> pg[j] == pg0[j])
  }

  lemma HandedBlockDetached(fl: seq<seq<nat>>, pg: seq<Page>, pg0: seq<Page>, base: nat, head: nat, k: nat, hi: nat)
    requires Handed(pg, pg0, base, head, hi)
    requires Outside(fl, head, hi)
    requires head + Pow2(k) <= hi
    ensures Detached(fl, pg, head, head + Pow2(k))
  {
  }

  lemma HandedStep(pg: seq<Page>, pg0: seq<Page>, base: nat, head: nat, k: nat, hi: nat)
    requires Handed(pg, pg0, base, head, hi)
    requires head + Pow2(k) <= hi
    ensures Handed(pg[head := pg[head].(freeHead := true, property := k)], pg0, base, head + Pow2(k), hi)
  {
  }

  /** After appending the block [head, head + 2^k), the pages that follow it still meet no listed block. */
  lemma DetachedAfterAppend(fl: seq<seq<nat>>, fl': seq<seq<nat>>, head: nat, k: nat, hi: nat)
    requires k < |fl|
    requires Outside(fl, head, hi)
    requires fl' == fl[k := fl[k] + [head]]
    requires head + Pow2(k) <= hi
    ensures Outside(fl', head + Pow2(k), hi)
  {
    forall k', i | 0 <= k' < |fl'| && 0 <= i < |fl'[k']|
      ensures fl'[k'][i] + Pow2(k') <= head + Pow2(k) || hi <= fl'[k'][i]
    {
      if !(k' == k && i == |fl[k]|) {
        assert fl'[k'][i] == fl[k'][i];
      }
    }
  }

  /** Laying down the next block of the greedy layout. */
  /**
   * Progress of init_memmap's greedy loop at order `order` (-1 once every
   * order is done): the blocks laid down so far followed by the layout of
   * the remaining pages make up the whole layout.
   */
  ghost predicate Progress(whole: seq<Block>, added: seq<Block>, rem: nat, order: int, at: nat)
  {
    if order >= 0 then added + Layout(rem, order, at) == whole else rem == 0 && added == whole
  }

  lemma ProgressStep(whole: seq<Block>, added: seq<Block>, added': seq<Block>, rem: nat, rem': nat, order: nat, at: nat, at': nat)
    requires rem >= Pow2(order)
    requires added' == added + [Block(at, order)] && rem' == rem - Pow2(order) && at' == at + Pow2(order)
    requires Progress(whole, added, rem, order, at)
    ensures Progress(whole, added', rem', order, at')
  {
    assert Layout(rem, order, at) == [Block(at, order)] + Layout(rem', order, at');
  }

  lemma ProgressDown(whole: seq<Block>, added: seq<Block>, rem: nat, order: nat, at: nat)
    requires rem < Pow2(order)
    requires Progress(whole, added, rem, order, at)
    ensures Progress(whole, added, rem, order - 1, at)
  {
  }

  lemma ProgressDone(whole: seq<Block>, added: seq<Block>, rem: nat, at: nat)
    requires Progress(whole, added, rem, -1, at)
    ensures rem == 0 && added == whole
  {
  }

  /** The free lists fl after appending the heads of bs, in order, each to the list of its order. */
  ghost function AppendAll(fl: seq<seq<nat>>, bs: seq<Block>): (r: seq<seq<nat>>)
    ensures |r| == |fl|
  {
    if bs == [] then fl
    else
      var last := bs[|bs| - 1];
      var prev := AppendAll(fl, bs[..|bs| - 1]);
      if last.order < |prev| then prev[last.order := prev[last.order] + [last.head]] else prev
  }

  lemma AppendAllSnoc(fl: seq<seq<nat>>, bs: seq<Block>, b: Block)
    requires b.order < |fl|
    ensures AppendAll(fl, bs + [b]) == AppendAll(fl, bs)[b.order := AppendAll(fl, bs)[b.order] + [b.head]]
  {
    assert (bs + [b])[..|bs|] == bs;
  }

  /** Appending the heads of bs adds to each list k exactly the heads of the blocks of order k. */
  lemma {:induction false} AppendAllHeads(fl: seq<seq<nat>>, bs: seq<Block>)
    requires forall i :: 0 <= i < |bs| ==> bs[i].order < |fl|
    ensures forall k :: 0 <= k < |fl| ==> AppendAll(fl, bs)[k] == fl[k] + HeadsOfOrder(bs, k)
    decreases |bs|
  {
    if bs != [] {
      var init := bs[..|bs| - 1];
      AppendAllHeads(fl, init);
    }
  }

  lemma HeadsOfOrderSnoc(bs: seq<Block>, b: Block)
    ensures forall k :: HeadsOfOrder(bs + [b], k) == HeadsOfOrder(bs, k) + (if b.order == k then [b.head] else [])
  {
    assert (bs + [b])[..|bs + [b]| - 1] == bs;
  }

  /** After buddy_init and init_memmap(base, n), buddy_nr_free_pages reports n pages. */
  method FreePagesAfterInit(npage: nat, base: nat, n: nat) returns (total: nat)
    requires 0 < n && base + n <= npage
    ensures total == n
  {
    var pmm := new BuddyPmm(npage);
    pmm.Init();
    pmm.InitMemmap(base, n);
    total := pmm.NrFreePages();
  }
}
