/**
 * The process family tree. Process records live in an arena addressed by
 * index; here only their links matter, held in a map from record index to
 * the record's Link. The children of a process form a doubly linked chain that starts at the
 * parent's cptr with the youngest child and follows optr to the oldest. The
 * chains are described by a ghost map from each process to the sequence of
 * its children, youngest first, and the predicates below tie that map to the
 * pointers.
 */
module Family {
  import opened Common

  /** The index of a record in the arena. */
  newtype Idx = nat

  /**
   * The family links of a process record: its parent, its youngest child
   * (cptr), its next older sibling (optr) and its next younger sibling (yptr).
   */
  datatype Link = Link(parent: Option<Idx>, cptr: Option<Idx>, optr: Option<Idx>, yptr: Option<Idx>)

  /** The links of a record as alloc_proc leaves them: all null. */
  const NoLinks := Link(None, None, None, None)

  /** The first element of a chain, as a pointer. */
  function Head(cs: seq<Idx>): (r: Option<Idx>)
    ensures r.None? <==> cs == []
    ensures r.Some? ==> r.value == cs[0]
  {
    if cs == [] then None else Some(cs[0])
  }

  // ---------------------------------------------------------------------------
  // Chains
  // ---------------------------------------------------------------------------

  /**
   * `cs` is the sibling chain of p: p's cptr is its first element, p is not
   * its own child, every element has parent p, yptr the element before it
   * (hy for the first) and optr the element after it (null for the last).
   */
  ghost predicate ChainOk(procs: map<Idx, Link>, p: Idx, cs: seq<Idx>, hy: Option<Idx>)
  {
    && p in procs
    && procs[p].cptr == Head(cs)
    && Distinct(cs)
    && p !in cs
    && (forall i :: 0 <= i < |cs| ==> cs[i] in procs && procs[cs[i]].parent == Some(p))
    && (forall i :: 0 <= i < |cs| ==> procs[cs[i]].yptr == if i == 0 then hy else Some(cs[i - 1]))
    && (forall i :: 0 <= i < |cs| ==> procs[cs[i]].optr == if i + 1 == |cs| then None else Some(cs[i + 1]))
  }

  /** What ChainOk says about the element at position k. */
  lemma ChainAt(procs: map<Idx, Link>, p: Idx, cs: seq<Idx>, hy: Option<Idx>, k: int)
    requires ChainOk(procs, p, cs, hy) && 0 <= k < |cs|
    ensures cs[k] in procs && procs[cs[k]].parent == Some(p) && cs[k] != p
    ensures procs[cs[k]].yptr == if k == 0 then hy else Some(cs[k - 1])
    ensures procs[cs[k]].optr == if k + 1 == |cs| then None else Some(cs[k + 1])
  {
  }

  /** Every chain in ch is linked as ChainOk says; the chain of x may have hy as its first element's yptr. */
  ghost predicate ChainsOk(procs: map<Idx, Link>, ch: map<Idx, seq<Idx>>, x: Idx, hy: Option<Idx>)
  {
    forall p :: p in ch ==> ChainOk(procs, p, ch[p], if p == x then hy else None)
  }

  /**
   * The members of ch are records, children are themselves members, and
   * every member with a parent is in its parent's chain.
   */
  ghost predicate Closed(procs: map<Idx, Link>, ch: map<Idx, seq<Idx>>)
  {
    ch.Keys <= procs.Keys && ChildrenKnown(ch) && ParentsKnown(procs, ch)
  }

  /** Every child in ch is itself a member of ch. */
  ghost predicate ChildrenKnown(ch: map<Idx, seq<Idx>>)
  {
    forall p, c :: p in ch && c in ch[p] ==> c in ch
  }

  /** Every member with a parent is in its parent's chain. */
  ghost predicate ParentsKnown(procs: map<Idx, Link>, ch: map<Idx, seq<Idx>>)
    requires ch.Keys <= procs.Keys
  {
    forall c {:trigger procs[c], c in ch} :: c in ch && procs[c].parent.Some? ==> procs[c].parent.value in ch && c in ch[procs[c].parent.value]
  }

  /** The family tree of the processes in ch's domain. */
  ghost predicate FamilyExcept(procs: map<Idx, Link>, ch: map<Idx, seq<Idx>>, x: Idx, hy: Option<Idx>)
  {
    ChainsOk(procs, ch, x, hy) && Closed(procs, ch)
  }

  /** The family tree with every chain fully linked. */
  ghost predicate FamilyOk(procs: map<Idx, Link>, ch: map<Idx, seq<Idx>>)
  {
    FamilyExcept(procs, ch, 0, None)
  }

  lemma FamilyOkAnyException(procs: map<Idx, Link>, ch: map<Idx, seq<Idx>>, x: Idx)
    ensures FamilyOk(procs, ch) <==> FamilyExcept(procs, ch, x, None)
  {
  }

  /** The links of a record that place it in its parent's chain. */
  function Sibling(r: Link): (Option<Idx>, Option<Idx>, Option<Idx>)
  {
    (r.parent, r.optr, r.yptr)
  }

  // ---------------------------------------------------------------------------
  // set_links and remove_links on the pointers
  // ---------------------------------------------------------------------------

  /**
   * set_links' pointer work for record p, whose parent is set: p gets no
   * younger sibling and the parent's first child as its older sibling, that
   * child gets p as its younger sibling, and p becomes the parent's first child.
   */
  function LinkIn(procs: map<Idx, Link>, p: Idx): (r: map<Idx, Link>)
    requires p in procs && procs[p].parent.Some? && procs[p].parent.value in procs
    ensures r.Keys == procs.Keys
  {
    map q | q in procs :: LinkedIn(procs, p, q)
  }

  /** Record q after set_links' three writes, applied in the order of the source. */
  function LinkedIn(procs: map<Idx, Link>, p: Idx, q: Idx): Link
    requires p in procs && procs[p].parent.Some? && procs[p].parent.value in procs && q in procs
  {
    var par := procs[p].parent.value;
    var o := procs[par].cptr;
    var a := if q == p then procs[p].(yptr := None, optr := o) else procs[q];
    var b := if Some(q) == o then a.(yptr := Some(p)) else a;
    if q == par then b.(cptr := Some(p)) else b
  }

  /** A chain stays linked when its parent's cptr and its members' links are unchanged. */
  lemma ChainFrame(procs: map<Idx, Link>, procs': map<Idx, Link>, q: Idx, cs: seq<Idx>, hy: Option<Idx>)
    requires ChainOk(procs, q, cs, hy)
    requires q in procs' && procs'[q].cptr == procs[q].cptr
    requires forall i :: 0 <= i < |cs| ==> cs[i] in procs' && Sibling(procs'[cs[i]]) == Sibling(procs[cs[i]])
    ensures ChainOk(procs', q, cs, hy)
  {
  }

  /**
   * Linking in a new record p keeps the tree consistent: p heads its parent's
   * chain, in front of the children already there, and has no children yet.
   */
  lemma LinkInOk(procs: map<Idx, Link>, ch: map<Idx, seq<Idx>>, p: Idx)
    requires FamilyOk(procs, ch)
    requires p in procs && p !in ch && procs[p].cptr == None
    requires procs[p].parent.Some? && procs[p].parent.value in ch
    ensures var par := procs[p].parent.value;
      FamilyOk(LinkIn(procs, p), ch[par := [p] + ch[par]][p := []])
  {
    LinkInChains(procs, ch, p);
    LinkInClosed(procs, ch, p);
  }

  lemma LinkInClosed(procs: map<Idx, Link>, ch: map<Idx, seq<Idx>>, p: Idx)
    requires Closed(procs, ch)
    requires p in procs && p !in ch
    requires procs[p].parent.Some? && procs[p].parent.value in ch
    ensures var par := procs[p].parent.value;
      Closed(LinkIn(procs, p), ch[par := [p] + ch[par]][p := []])
  {
    var par := procs[p].parent.value;
    AdoptKnown(ch, par, p);
    LinkInParentsKnown(procs, ch, p);
  }

  /** Giving par the new child p, which has no children, keeps children known. */
  lemma AdoptKnown(ch: map<Idx, seq<Idx>>, par: Idx, p: Idx)
    requires ChildrenKnown(ch) && par in ch
    ensures ChildrenKnown(ch[par := [p] + ch[par]][p := []])
  {
    var ch' := ch[par := [p] + ch[par]][p := []];
    forall q, c | q in ch' && c in ch'[q]
      ensures c in ch'
    {
      if q != par && q != p {
        assert ch'[q] == ch[q];
      } else if q == par && c != p {
        assert c in ch[par];
      }
    }
  }

  lemma LinkInParentsKnown(procs: map<Idx, Link>, ch: map<Idx, seq<Idx>>, p: Idx)
    requires ch.Keys <= procs.Keys && ParentsKnown(procs, ch)
    requires p in procs && p !in ch
    requires procs[p].parent.Some? && procs[p].parent.value in ch
    ensures var par := procs[p].parent.value;
      ParentsKnown(LinkIn(procs, p), ch[par := [p] + ch[par]][p := []])
  {
    var par := procs[p].parent.value;
    var r := LinkIn(procs, p);
    var ch' := ch[par := [p] + ch[par]][p := []];
    forall c | c in ch' && r[c].parent.Some?
      ensures r[c].parent.value in ch' && c in ch'[r[c].parent.value]
    {
      if c == p {
        assert r[p].parent == Some(par);
        assert ch'[par] == [p] + ch[par];
      } else {
        assert r[c].parent == procs[c].parent;
        var q := procs[c].parent.value;
        assert q in ch && c in ch[q] && q != p;
        if q == par {
          assert ch'[par] == [p] + ch[par];
        } else {
          assert ch'[q] == ch[q];
        }
      }
    }
  }

  lemma LinkInChains(procs: map<Idx, Link>, ch: map<Idx, seq<Idx>>, p: Idx)
    requires ChainsOk(procs, ch, 0, None) && ChildrenKnown(ch)
    requires p in procs && p !in ch && procs[p].cptr == None
    requires procs[p].parent.Some? && procs[p].parent.value in ch
    ensures var par := procs[p].parent.value;
      ChainsOk(LinkIn(procs, p), ch[par := [p] + ch[par]][p := []], 0, None)
  {
    var par := procs[p].parent.value;
    var r := LinkIn(procs, p);
    var ch' := ch[par := [p] + ch[par]][p := []];
    assert ChainOk(procs, par, ch[par], None);
    LinkInOtherChains(procs, ch, p);
    LinkInParentChain(procs, ch, p, par);
    assert ChainOk(r, p, [], None);
    forall q | q in ch'
      ensures ChainOk(r, q, ch'[q], None)
    {
      if q != p && q != par {
        assert ch'[q] == ch[q];
      }
    }
  }

  lemma LinkInOtherChains(procs: map<Idx, Link>, ch: map<Idx, seq<Idx>>, p: Idx)
    requires ChainsOk(procs, ch, 0, None) && ChildrenKnown(ch)
    requires p in procs && p !in ch
    requires procs[p].parent.Some? && procs[p].parent.value in ch
    ensures var par := procs[p].parent.value;
      forall q :: q in ch && q != par ==> ChainOk(LinkIn(procs, p), q, ch[q], None)
  {
    var par := procs[p].parent.value;
    assert ChainOk(procs, par, ch[par], None);
    forall q | q in ch && q != par
      ensures ChainOk(LinkIn(procs, p), q, ch[q], None)
    {
      assert ChainOk(procs, q, ch[q], None);
      assert p !in ch[q];
      LinkInOtherChain(procs, p, par, ch[par], q, ch[q]);
    }
  }

  /** The chains of other processes keep their links. */
  lemma LinkInOtherChain(procs: map<Idx, Link>, p: Idx, par: Idx, pcs: seq<Idx>, q: Idx, cs: seq<Idx>)
    requires p in procs && procs[p].parent == Some(par) && ChainOk(procs, par, pcs, None)
    requires ChainOk(procs, q, cs, None) && q != par && q != p && p !in cs
    ensures ChainOk(LinkIn(procs, p), q, cs, None)
  {
    var o := procs[par].cptr;
    var r := LinkIn(procs, p);
    forall i | 0 <= i < |cs|
      ensures cs[i] in r && Sibling(r[cs[i]]) == Sibling(procs[cs[i]])
    {
      if o.Some? {
        assert pcs[0] == o.value;
      }
    }
    ChainFrame(procs, r, q, cs, None);
  }

  lemma LinkInParentChain(procs: map<Idx, Link>, ch: map<Idx, seq<Idx>>, p: Idx, par: Idx)
    requires p in procs && procs[p].parent == Some(par) && par in ch && par != p
    requires ChainOk(procs, par, ch[par], None) && p !in ch[par]
    ensures ChainOk(LinkIn(procs, p), par, [p] + ch[par], None)
  {
    var r := LinkIn(procs, p);
    var cs := [p] + ch[par];
    forall i | 0 <= i < |cs|
      ensures cs[i] in r && r[cs[i]].parent == Some(par)
      ensures r[cs[i]].yptr == if i == 0 then None else Some(cs[i - 1])
      ensures r[cs[i]].optr == if i + 1 == |cs| then None else Some(cs[i + 1])
    {
      if i == 0 {
        assert procs[par].cptr == Head(ch[par]);
        if 1 < |cs| {
          assert cs[1] == ch[par][0];
        }
      } else {
        assert cs[i] == ch[par][i - 1];
        assert cs[i] != par;
        assert r[cs[i]].optr == procs[cs[i]].optr;
        ChainAt(procs, par, ch[par], None, i - 1);
        if i + 1 < |cs| {
          assert cs[i + 1] == ch[par][i];
        }
      }
    }
    assert ChainOk(r, par, cs, None);
  }

  /**
   * remove_links' pointer work for record p: its older sibling takes p's
   * younger sibling as its own, and its younger sibling (or, when p is the
   * first child, the parent's cptr) takes p's older sibling. p's own links
   * are left as they were.
   */
  function LinkOut(procs: map<Idx, Link>, p: Idx): (r: map<Idx, Link>)
    requires p in procs
    requires procs[p].yptr.None? ==> procs[p].parent.Some?
    ensures r.Keys == procs.Keys
  {
    map q | q in procs :: LinkedOut(procs, p, q)
  }

  /** Record q after remove_links' writes, applied in the order of the source. */
  function LinkedOut(procs: map<Idx, Link>, p: Idx, q: Idx): Link
    requires p in procs && q in procs
    requires procs[p].yptr.None? ==> procs[p].parent.Some?
  {
    var o, y := procs[p].optr, procs[p].yptr;
    var a := if Some(q) == o then procs[q].(yptr := y) else procs[q];
    if y.Some? then (if Some(q) == y then a.(optr := o) else a)
    else if Some(q) == procs[p].parent then a.(cptr := o)
    else a
  }

  /** s without the element at position k. */
  function Without(s: seq<Idx>, k: nat): (r: seq<Idx>)
    requires k < |s|
    ensures |r| == |s| - 1
    ensures forall i :: 0 <= i < k ==> r[i] == s[i]
    ensures forall i :: k <= i < |r| ==> r[i] == s[i + 1]
  {
    s[..k] + s[k + 1..]
  }

  /** Unlinking the k-th child of par leaves the chain of the others linked. */
  lemma LinkOutParentChain(procs: map<Idx, Link>, par: Idx, cs: seq<Idx>, k: nat)
    requires ChainOk(procs, par, cs, None) && k < |cs|
    ensures procs[cs[k]].yptr.None? ==> procs[cs[k]].parent.Some?
    ensures ChainOk(LinkOut(procs, cs[k]), par, Without(cs, k), None)
  {
    var p := cs[k];
    ChainAt(procs, par, cs, None, k);
    var r := LinkOut(procs, p);
    var cs' := Without(cs, k);
    SpliceDistinct(cs, k);
    assert Distinct(cs');
    if k == 0 {
      assert r[par].cptr == procs[p].optr;
      if 1 < |cs| {
        assert cs'[0] == cs[1];
      }
    } else {
      ChainAt(procs, par, cs, None, 0);
      assert r[par].cptr == procs[par].cptr;
    }
    forall i | 0 <= i < |cs'|
      ensures cs'[i] in r && r[cs'[i]].parent == Some(par)
      ensures r[cs'[i]].yptr == if i == 0 then None else Some(cs'[i - 1])
      ensures r[cs'[i]].optr == if i + 1 == |cs'| then None else Some(cs'[i + 1])
    {
      var j := if i < k then i else i + 1;
      assert cs'[i] == cs[j];
      ChainAt(procs, par, cs, None, j);
      if j + 1 < |cs| {
        ChainAt(procs, par, cs, None, j + 1);
      }
      if j > 0 {
        ChainAt(procs, par, cs, None, j - 1);
      }
    }
    assert ChainOk(r, par, cs', None);
  }

  /** Unlinking a child of par leaves the chains of other processes linked. */
  lemma LinkOutOtherChain(procs: map<Idx, Link>, par: Idx, pcs: seq<Idx>, k: nat, q: Idx, cs: seq<Idx>)
    requires ChainOk(procs, par, pcs, None) && k < |pcs|
    requires ChainOk(procs, q, cs, None) && q != par
    ensures ChainOk(LinkOut(procs, pcs[k]), q, cs, None)
  {
    var p := pcs[k];
    ChainAt(procs, par, pcs, None, k);
    var o, y := procs[p].optr, procs[p].yptr;
    var r := LinkOut(procs, p);
    if o.Some? {
      ChainAt(procs, par, pcs, None, k + 1);
    }
    if y.Some? {
      ChainAt(procs, par, pcs, None, k - 1);
    }
    forall i | 0 <= i < |cs|
      ensures cs[i] in r && Sibling(r[cs[i]]) == Sibling(procs[cs[i]])
    {
      ChainAt(procs, q, cs, None, i);
    }
    ChainFrame(procs, r, q, cs, None);
  }

  lemma LinkOutChains(procs: map<Idx, Link>, ch: map<Idx, seq<Idx>>, p: Idx, par: Idx, k: nat)
    requires ChainsOk(procs, ch, 0, None)
    requires par in ch && k < |ch[par]| && ch[par][k] == p && p in ch
    ensures var ch' := (ch - {p})[par := Without(ch[par], k)];
      procs[p].yptr.None? ==> procs[p].parent.Some?
    ensures var ch' := (ch - {p})[par := Without(ch[par], k)];
      ChainsOk(LinkOut(procs, p), ch', 0, None)
  {
    var ch' := (ch - {p})[par := Without(ch[par], k)];
    assert ChainOk(procs, par, ch[par], None);
    LinkOutParentChain(procs, par, ch[par], k);
    var r := LinkOut(procs, p);
    forall q | q in ch'
      ensures ChainOk(r, q, ch'[q], None)
    {
      if q != par {
        assert ch'[q] == ch[q];
        assert ChainOk(procs, q, ch[q], None);
        LinkOutOtherChain(procs, par, ch[par], k, q, ch[q]);
      }
    }
  }

  lemma LinkOutClosed(procs: map<Idx, Link>, ch: map<Idx, seq<Idx>>, p: Idx, par: Idx, k: nat)
    requires FamilyOk(procs, ch)
    requires par in ch && k < |ch[par]| && ch[par][k] == p && p in ch && ch[p] == []
    requires procs[p].yptr.None? ==> procs[p].parent.Some?
    ensures Closed(LinkOut(procs, p), (ch - {p})[par := Without(ch[par], k)])
  {
    assert ChainOk(procs, par, ch[par], None);
    forall q | q in ch && q != par
      ensures p !in ch[q]
    {
      assert ChainOk(procs, q, ch[q], None);
    }
    DropKnown(ch, p, par, k);
    LinkOutParentsKnown(procs, ch, p, par, k);
  }

  /** Dropping p, which has no children, from its parent's chain keeps children known. */
  lemma DropKnown(ch: map<Idx, seq<Idx>>, p: Idx, par: Idx, k: nat)
    requires ChildrenKnown(ch) && par in ch && k < |ch[par]| && ch[par][k] == p && Distinct(ch[par])
    requires forall q :: q in ch && q != par ==> p !in ch[q]
    ensures ChildrenKnown((ch - {p})[par := Without(ch[par], k)])
  {
    var ch' := (ch - {p})[par := Without(ch[par], k)];
    SpliceDistinct(ch[par], k);
    forall q, c | q in ch' && c in ch'[q]
      ensures c in ch'
    {
      if q == par {
        assert c in ch[par] && c != p;
      } else {
        assert ch'[q] == ch[q];
      }
    }
  }

  lemma LinkOutParentsKnown(procs: map<Idx, Link>, ch: map<Idx, seq<Idx>>, p: Idx, par: Idx, k: nat)
    requires ch.Keys <= procs.Keys && ParentsKnown(procs, ch)
    requires par in ch && k < |ch[par]| && ch[par][k] == p && Distinct(ch[par]) && p in ch && ch[p] == []
    requires procs[p].yptr.None? ==> procs[p].parent.Some?
    ensures ParentsKnown(LinkOut(procs, p), (ch - {p})[par := Without(ch[par], k)])
  {
    var ch' := (ch - {p})[par := Without(ch[par], k)];
    var r := LinkOut(procs, p);
    SpliceDistinct(ch[par], k);
    forall c | c in ch' && r[c].parent.Some?
      ensures r[c].parent.value in ch' && c in ch'[r[c].parent.value]
    {
      assert r[c].parent == procs[c].parent;
      var q := procs[c].parent.value;
      assert q in ch && c in ch[q] && q != p;
      if q != par {
        assert ch'[q] == ch[q];
      } else {
        assert c != p;
      }
    }
  }

  /**
   * Unlinking a childless process p, the k-th child of par, keeps the tree
   * consistent: p leaves the family and par's chain loses exactly p.
   */
  lemma LinkOutOk(procs: map<Idx, Link>, ch: map<Idx, seq<Idx>>, p: Idx, par: Idx, k: nat)
    requires FamilyOk(procs, ch)
    requires par in ch && k < |ch[par]| && ch[par][k] == p && p in ch && ch[p] == []
    ensures procs[p].yptr.None? ==> procs[p].parent.Some?
    ensures FamilyOk(LinkOut(procs, p), (ch - {p})[par := Without(ch[par], k)])
  {
    LinkOutChains(procs, ch, p, par, k);
    LinkOutClosed(procs, ch, p, par, k);
  }

  /** set_links and remove_links only touch sibling and child pointers: every parent stays as it was. */
  lemma LinkInParents(procs: map<Idx, Link>, p: Idx)
    requires p in procs && procs[p].parent.Some? && procs[p].parent.value in procs
    ensures forall q :: q in procs ==> LinkIn(procs, p)[q].parent == procs[q].parent
  {
  }

  lemma LinkOutParents(procs: map<Idx, Link>, p: Idx)
    requires p in procs && (procs[p].yptr.None? ==> procs[p].parent.Some?)
    ensures forall q :: q in procs ==> LinkOut(procs, p)[q].parent == procs[q].parent
  {
  }

  /**
   * set_links followed by remove_links gives every other record its links
   * back, provided the parent's first child had no younger sibling, as
   * ChainOk guarantees.
   */
  lemma LinkInOutUndo(procs: map<Idx, Link>, p: Idx)
    requires p in procs && procs[p].parent.Some? && procs[p].parent.value in procs
    requires var par := procs[p].parent.value; par != p
    requires var o := procs[procs[p].parent.value].cptr;
      o.Some? ==> o.value in procs && o.value != p && procs[o.value].yptr == None
    ensures LinkIn(procs, p)[p].yptr == None
    ensures var r := LinkOut(LinkIn(procs, p), p);
      forall q :: q in procs && q != p ==> r[q] == procs[q]
  {
  }

  // ---------------------------------------------------------------------------
  // do_exit's re-parenting loop
  // ---------------------------------------------------------------------------

  /**
   * One iteration of do_exit's loop: the first child c of cur leaves cur's
   * chain (cur's cptr moves on to c's older sibling) and is linked in as
   * init's first child, with init as its parent. The writes follow the order
   * of the source.
   */
  function MoveChild(procs: map<Idx, Link>, cur: Idx, init: Idx): (r: map<Idx, Link>)
    requires cur in procs && init in procs && cur != init
    requires procs[cur].cptr.Some? && procs[cur].cptr.value in procs
    requires var o := procs[init].cptr; o.Some? ==> o.value in procs
    ensures r.Keys == procs.Keys
  {
    var c := procs[cur].cptr.value;
    var m1 := procs[cur := procs[cur].(cptr := procs[c].optr)];
    var o := m1[init].cptr;
    var m2 := m1[c := m1[c].(yptr := None, optr := o)];
    var m3 := if o.Some? then m2[o.value := m2[o.value].(yptr := Some(c))] else m2;
    var m4 := m3[c := m3[c].(parent := Some(init))];
    m4[init := m4[init].(cptr := Some(c))]
  }

  /** The chain of cur once its first child has moved: the rest, whose head keeps c as a stale yptr. */
  lemma MoveChildCurChain(procs: map<Idx, Link>, cur: Idx, init: Idx, cs: seq<Idx>, hy: Option<Idx>, ics: seq<Idx>)
    requires ChainOk(procs, cur, cs, hy) && cs != [] && ChainOk(procs, init, ics, None)
    requires cur != init && init !in cs
    ensures var o := procs[init].cptr; o.Some? ==> o.value in procs
    ensures ChainOk(MoveChild(procs, cur, init), cur, cs[1..], Some(cs[0]))
  {
    var r := MoveChild(procs, cur, init);
    var c := cs[0];
    var o := procs[init].cptr;
    ChainAt(procs, cur, cs, hy, 0);
    if o.Some? {
      ChainAt(procs, init, ics, None, 0);
    }
    var cs' := cs[1..];
    assert r[cur].cptr == Head(cs') by {
      if 1 < |cs| {
        ChainAt(procs, cur, cs, hy, 1);
      }
    }
    forall i | 0 <= i < |cs'|
      ensures cs'[i] in r && r[cs'[i]].parent == Some(cur)
      ensures r[cs'[i]].yptr == Some(cs[i])
      ensures r[cs'[i]].optr == if i + 1 == |cs'| then None else Some(cs'[i + 1])
    {
      ChainAt(procs, cur, cs, hy, i + 1);
    }
    assert ChainOk(r, cur, cs', Some(c));
  }

  /** init's chain once c has moved: c in front of init's former children. */
  lemma MoveChildInitChain(procs: map<Idx, Link>, cur: Idx, init: Idx, cs: seq<Idx>, hy: Option<Idx>, ics: seq<Idx>)
    requires ChainOk(procs, cur, cs, hy) && cs != [] && ChainOk(procs, init, ics, None)
    requires cur != init && init !in cs
    ensures var o := procs[init].cptr; o.Some? ==> o.value in procs
    ensures ChainOk(MoveChild(procs, cur, init), init, [cs[0]] + ics, None)
  {
    var r := MoveChild(procs, cur, init);
    var c := cs[0];
    ChainAt(procs, cur, cs, hy, 0);
    var cs' := [c] + ics;
    forall j | 0 <= j < |ics|
      ensures ics[j] != c
    {
      ChainAt(procs, init, ics, None, j);
    }
    forall i | 0 <= i < |cs'|
      ensures cs'[i] in r && r[cs'[i]].parent == Some(init)
      ensures r[cs'[i]].yptr == if i == 0 then None else Some(cs'[i - 1])
      ensures r[cs'[i]].optr == if i + 1 == |cs'| then None else Some(cs'[i + 1])
    {
      if i == 0 {
        if 0 < |ics| {
          ChainAt(procs, init, ics, None, 0);
        }
      } else {
        assert cs'[i] == ics[i - 1];
        ChainAt(procs, init, ics, None, i - 1);
        if i + 1 < |cs'| {
          assert cs'[i + 1] == ics[i];
        }
      }
    }
    assert ChainOk(r, init, cs', None);
  }

  /** Chains of processes other than cur and init keep their links. */
  lemma MoveChildOtherChain(procs: map<Idx, Link>, cur: Idx, init: Idx, cs: seq<Idx>, hy: Option<Idx>, ics: seq<Idx>,
                            q: Idx, qcs: seq<Idx>, qy: Option<Idx>)
    requires ChainOk(procs, cur, cs, hy) && cs != [] && ChainOk(procs, init, ics, None)
    requires cur != init && init !in cs
    requires ChainOk(procs, q, qcs, qy) && q != cur && q != init
    ensures var o := procs[init].cptr; o.Some? ==> o.value in procs
    ensures ChainOk(MoveChild(procs, cur, init), q, qcs, qy)
  {
    var r := MoveChild(procs, cur, init);
    var c := cs[0];
    var o := procs[init].cptr;
    ChainAt(procs, cur, cs, hy, 0);
    if o.Some? {
      ChainAt(procs, init, ics, None, 0);
    }
    forall i | 0 <= i < |qcs|
      ensures qcs[i] in r && Sibling(r[qcs[i]]) == Sibling(procs[qcs[i]])
    {
      ChainAt(procs, q, qcs, qy, i);
    }
    ChainFrame(procs, r, q, qcs, qy);
  }

  /**
   * One iteration of the re-parenting loop keeps the tree consistent: the
   * first child of cur moves to the front of init's chain and only the head
   * of cur's remaining chain keeps a stale yptr, the child just moved.
   */
  lemma MoveChildOk(procs: map<Idx, Link>, ch: map<Idx, seq<Idx>>, cur: Idx, init: Idx, hy: Option<Idx>)
    requires FamilyExcept(procs, ch, cur, hy)
    requires cur in ch && init in ch && cur != init && ch[cur] != [] && init !in ch[cur]
    ensures procs[cur].cptr.Some? && procs[cur].cptr.value in procs
    ensures var o := procs[init].cptr; o.Some? ==> o.value in procs
    ensures var c := ch[cur][0];
      FamilyExcept(MoveChild(procs, cur, init), ch[cur := ch[cur][1..]][init := [c] + ch[init]], cur, Some(c))
  {
    assert ChainOk(procs, cur, ch[cur], hy);
    assert ChainOk(procs, init, ch[init], None);
    ChainAt(procs, cur, ch[cur], hy, 0);
    MoveChildChains(procs, ch, cur, init, hy);
    MoveChildClosed(procs, ch, cur, init, hy);
  }

  lemma MoveChildChains(procs: map<Idx, Link>, ch: map<Idx, seq<Idx>>, cur: Idx, init: Idx, hy: Option<Idx>)
    requires ChainsOk(procs, ch, cur, hy)
    requires cur in ch && init in ch && cur != init && ch[cur] != [] && init !in ch[cur]
    requires procs[cur].cptr.Some? && procs[cur].cptr.value in procs
    requires var o := procs[init].cptr; o.Some? ==> o.value in procs
    ensures var c := ch[cur][0];
      ChainsOk(MoveChild(procs, cur, init), ch[cur := ch[cur][1..]][init := [c] + ch[init]], cur, Some(c))
  {
    var cs, ics := ch[cur], ch[init];
    var c := cs[0];
    var r := MoveChild(procs, cur, init);
    var ch' := ch[cur := cs[1..]][init := [c] + ics];
    assert ChainOk(procs, cur, cs, hy);
    assert ChainOk(procs, init, ics, None);
    MoveChildCurChain(procs, cur, init, cs, hy, ics);
    MoveChildInitChain(procs, cur, init, cs, hy, ics);
    forall q | q in ch'
      ensures ChainOk(r, q, ch'[q], if q == cur then Some(c) else None)
    {
      if q != cur && q != init {
        assert ch'[q] == ch[q];
        assert ChainOk(procs, q, ch[q], None);
        MoveChildOtherChain(procs, cur, init, cs, hy, ics, q, ch[q], None);
      }
    }
  }

  lemma MoveChildClosed(procs: map<Idx, Link>, ch: map<Idx, seq<Idx>>, cur: Idx, init: Idx, hy: Option<Idx>)
    requires Closed(procs, ch)
    requires cur in ch && init in ch && cur != init && ch[cur] != [] && init !in ch[cur]
    requires Distinct(ch[cur]) && procs[cur].cptr == Some(ch[cur][0])
    requires var o := procs[init].cptr; o.Some? ==> o.value in procs
    ensures var c := ch[cur][0];
      Closed(MoveChild(procs, cur, init), ch[cur := ch[cur][1..]][init := [c] + ch[init]])
  {
    var cs, ics := ch[cur], ch[init];
    var c := cs[0];
    var r := MoveChild(procs, cur, init);
    var ch' := ch[cur := cs[1..]][init := [c] + ics];
    forall q, d | q in ch' && d in ch'[q]
      ensures d in ch'
    {
      if q == cur {
        assert d in cs;
      } else if q == init {
        assert d == c || d in ics;
      } else {
        assert ch'[q] == ch[q];
      }
    }
    forall d | d in ch' && r[d].parent.Some?
      ensures r[d].parent.value in ch' && d in ch'[r[d].parent.value]
    {
      if d == c {
        assert r[c].parent == Some(init);
      } else {
        assert r[d].parent == procs[d].parent;
        var q := procs[d].parent.value;
        assert q in ch && d in ch[q];
        if q == cur {
          assert d in cs[1..] by {
            var j :| 0 <= j < |cs| && cs[j] == d;
            assert j != 0;
            assert cs[1..][j - 1] == d;
          }
        } else if q != init {
          assert ch'[q] == ch[q];
        }
      }
    }
  }

  /** With cur's chain empty, the stale yptr no longer matters. */
  lemma FamilyExceptDone(procs: map<Idx, Link>, ch: map<Idx, seq<Idx>>, cur: Idx, hy: Option<Idx>)
    requires FamilyExcept(procs, ch, cur, hy) && cur in ch && ch[cur] == []
    ensures FamilyOk(procs, ch)
  {
    forall q | q in ch
      ensures ChainOk(procs, q, ch[q], None)
    {
      assert ChainOk(procs, q, ch[q], if q == cur then hy else None);
    }
  }

  /** s in reverse order. */
  function Reversed(s: seq<Idx>): (r: seq<Idx>)
    ensures |r| == |s|
    ensures forall x :: x in r <==> x in s
  {
    if s == [] then [] else [s[|s| - 1]] + Reversed(s[..|s| - 1])
  }

  /** MoveChild may run: cur has a first child, and both first children are records. */
  ghost predicate CanMove(procs: map<Idx, Link>, cur: Idx, init: Idx)
  {
    && cur in procs && init in procs && cur != init
    && procs[cur].cptr.Some? && procs[cur].cptr.value in procs
    && (procs[init].cptr.Some? ==> procs[init].cptr.value in procs)
  }

  /** The links after n iterations of do_exit's loop (it stops once cur has no child left). */
  ghost function Reparented(procs: map<Idx, Link>, cur: Idx, init: Idx, n: nat): (r: map<Idx, Link>)
    ensures r.Keys == procs.Keys
  {
    if n == 0 then procs
    else
      var m := Reparented(procs, cur, init, n - 1);
      if CanMove(m, cur, init) then MoveChild(m, cur, init) else m
  }

  /** The chains after n iterations: cur has lost its first n children, which head init's chain in reverse. */
  function Moved(ch: map<Idx, seq<Idx>>, cur: Idx, init: Idx, n: nat): (r: map<Idx, seq<Idx>>)
    requires cur in ch && init in ch && n <= |ch[cur]|
    ensures r.Keys == ch.Keys
  {
    ch[cur := ch[cur][n..]][init := Reversed(ch[cur][..n]) + ch[init]]
  }

  /**
   * do_exit's loop keeps the tree consistent, iteration by iteration: after
   * n of them the first n children of cur have moved to init (the last one
   * moved in front), only the head of cur's remaining chain has a stale
   * yptr, and only the moved children have a new parent, init.
   */
  lemma {:induction false} ReparentedOk(procs: map<Idx, Link>, ch: map<Idx, seq<Idx>>, cur: Idx, init: Idx, n: nat)
    requires FamilyOk(procs, ch)
    requires cur in ch && init in ch && cur != init && init !in ch[cur] && n <= |ch[cur]|
    ensures FamilyExcept(Reparented(procs, cur, init, n), Moved(ch, cur, init, n), cur, Stale(ch[cur], n))
    ensures forall q :: q in procs ==>
      Reparented(procs, cur, init, n)[q].parent == if q in ch[cur][..n] then Some(init) else procs[q].parent
  {
    if n == 0 {
      FamilyOkAnyException(procs, ch, cur);
      MovedNone(ch, cur, init);
    } else {
      ReparentedOk(procs, ch, cur, init, n - 1);
      ReparentedStep(procs, ch, cur, init, n);
    }
  }

  /** Where the loop stands after n iterations: cur's cptr is its n-th child, if any, and MoveChild may run on it. */
  lemma ReparentedNext(procs: map<Idx, Link>, ch: map<Idx, seq<Idx>>, cur: Idx, init: Idx, n: nat)
    requires FamilyOk(procs, ch)
    requires cur in ch && init in ch && cur != init && init !in ch[cur] && n <= |ch[cur]|
    ensures var m := Reparented(procs, cur, init, n);
      && cur in m && m[cur].cptr == Head(ch[cur][n..])
      && (n < |ch[cur]| ==> CanMove(m, cur, init) && m[cur].cptr.value == ch[cur][n])
  {
    ReparentedOk(procs, ch, cur, init, n);
    var m := Reparented(procs, cur, init, n);
    var chm := Moved(ch, cur, init, n);
    assert chm[cur] == ch[cur][n..];
    assert ChainOk(m, cur, chm[cur], Stale(ch[cur], n));
    assert ChainOk(m, init, chm[init], None);
  }

  /** One iteration of the loop from where it stands after n: it is MoveChild, and cur's cptr becomes its next child. */
  lemma ReparentedMove(procs: map<Idx, Link>, ch: map<Idx, seq<Idx>>, cur: Idx, init: Idx, n: nat)
    requires FamilyOk(procs, ch)
    requires cur in ch && init in ch && cur != init && init !in ch[cur] && n < |ch[cur]|
    ensures var m := Reparented(procs, cur, init, n);
      && CanMove(m, cur, init) && m[cur].cptr.value == ch[cur][n]
      && Reparented(procs, cur, init, n + 1) == MoveChild(m, cur, init)
      && Reparented(procs, cur, init, n + 1)[cur].cptr == Head(ch[cur][n + 1..])
  {
    ReparentedNext(procs, ch, cur, init, n);
    ReparentedNext(procs, ch, cur, init, n + 1);
  }

  lemma MovedNone(ch: map<Idx, seq<Idx>>, cur: Idx, init: Idx)
    requires cur in ch && init in ch
    ensures Moved(ch, cur, init, 0) == ch
  {
    assert ch[cur][0..] == ch[cur] && ch[cur][..0] == [];
    assert Reversed(ch[cur][..0]) + ch[init] == ch[init];
  }

  /** Iteration n of the loop, given the state after n - 1 iterations. */
  lemma ReparentedStep(procs: map<Idx, Link>, ch: map<Idx, seq<Idx>>, cur: Idx, init: Idx, n: nat)
    requires cur in ch && init in ch && cur != init && init !in ch[cur] && 0 < n <= |ch[cur]|
    requires FamilyExcept(Reparented(procs, cur, init, n - 1), Moved(ch, cur, init, n - 1), cur, Stale(ch[cur], n - 1))
    requires forall q :: q in procs ==>
      Reparented(procs, cur, init, n - 1)[q].parent == if q in ch[cur][..n - 1] then Some(init) else procs[q].parent
    ensures FamilyExcept(Reparented(procs, cur, init, n), Moved(ch, cur, init, n), cur, Stale(ch[cur], n))
    ensures forall q :: q in procs ==>
      Reparented(procs, cur, init, n)[q].parent == if q in ch[cur][..n] then Some(init) else procs[q].parent
  {
    var cs := ch[cur];
    var m := Reparented(procs, cur, init, n - 1);
    var chm := Moved(ch, cur, init, n - 1);
    MovedStep(ch, cur, init, n);
    MoveChildOk(m, chm, cur, init, Stale(cs, n - 1));
    MoveChildParents(m, cur, init);
    PrefixGrows(cs, n);
  }

  /** The yptr the head of cur's chain is left with after n iterations: the child moved last. */
  function Stale(cs: seq<Idx>, n: nat): Option<Idx>
    requires n <= |cs|
  {
    if n == 0 then None else Some(cs[n - 1])
  }

  lemma PrefixGrows(cs: seq<Idx>, n: nat)
    requires 0 < n <= |cs|
    ensures forall q :: q in cs[..n] <==> q in cs[..n - 1] || q == cs[n - 1]
  {
    assert cs[..n] == cs[..n - 1] + [cs[n - 1]];
  }

  /** The chains after iteration n, from those after iteration n - 1. */
  lemma MovedStep(ch: map<Idx, seq<Idx>>, cur: Idx, init: Idx, n: nat)
    requires cur in ch && init in ch && cur != init && init !in ch[cur] && 0 < n <= |ch[cur]|
    ensures var chm := Moved(ch, cur, init, n - 1);
      && chm[cur] != [] && chm[cur][0] == ch[cur][n - 1] && init !in chm[cur]
      && chm[cur := chm[cur][1..]][init := [chm[cur][0]] + chm[init]] == Moved(ch, cur, init, n)
  {
    var cs := ch[cur];
    var chm := Moved(ch, cur, init, n - 1);
    assert chm[cur] == cs[n - 1..];
    assert forall x :: x in cs[n - 1..] ==> x in cs;
    assert Reversed(cs[..n]) == [cs[n - 1]] + Reversed(cs[..n - 1]) by {
      assert cs[..n][..n - 1] == cs[..n - 1];
    }
    assert cs[n - 1..][1..] == cs[n..];
    var ch2 := chm[cur := chm[cur][1..]][init := [chm[cur][0]] + chm[init]];
    var chn := Moved(ch, cur, init, n);
    assert ch2[cur] == chn[cur] && ch2[init] == chn[init];
    assert forall q :: q in ch && q != cur && q != init ==> ch2[q] == ch[q] == chn[q];
    assert ch2.Keys == chn.Keys;
  }

  /** MoveChild gives the moved child the parent init and leaves every other parent alone. */
  lemma MoveChildParents(procs: map<Idx, Link>, cur: Idx, init: Idx)
    requires CanMove(procs, cur, init)
    ensures forall q :: q in procs ==>
      MoveChild(procs, cur, init)[q].parent == if q == procs[cur].cptr.value then Some(init) else procs[q].parent
  {
  }

  // ---------------------------------------------------------------------------
  // Records outside the tree
  // ---------------------------------------------------------------------------

  /** The tree only depends on the links of its members: a record outside it may change freely. */
  lemma FamilyOutside(procs: map<Idx, Link>, procs': map<Idx, Link>, ch: map<Idx, seq<Idx>>)
    requires FamilyOk(procs, ch)
    requires forall q :: q in ch ==> q in procs' && procs'[q] == procs[q]
    ensures FamilyOk(procs', ch)
  {
    forall p | p in ch
      ensures ChainOk(procs', p, ch[p], None)
    {
      assert ChainOk(procs, p, ch[p], None);
      forall i | 0 <= i < |ch[p]|
        ensures ch[p][i] in procs' && Sibling(procs'[ch[p][i]]) == Sibling(procs[ch[p][i]])
      {
        assert ch[p][i] in ch;
      }
      ChainFrame(procs, procs', p, ch[p], None);
    }
  }
}
