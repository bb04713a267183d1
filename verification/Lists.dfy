/**
 The intrusive lists of src/utils/list.h on real pointers: a circular doubly linked list and a hash
 chain with back-links, each standing for a sequence of nodes.
 */
module Lists {
  import opened Seqs

  /** `struct list_head` */
  class ListNode {
    var prev: ListNode?
    var next: ListNode?

    constructor ()
      ensures prev == null && next == null
    {
      prev, next := null, null;
    }
  }

  /** The position after `i` on a ring of `n` nodes. */
  function Succ(i: nat, n: nat): nat {
    if i + 1 < n then i + 1 else 0
  }

  /** Links run forwards and backwards once round `all`. */
  ghost predicate Circle(all: seq<ListNode>)
    reads all
  {
    && |all| >= 1 && Distinct(all)
    && (forall i {:trigger all[i].next} :: 0 <= i < |all| ==> all[i].next == all[Succ(i, |all|)])
    && (forall i {:trigger all[i].prev} :: 0 <= i < |all| ==> all[i].prev == all[if i == 0 then |all| - 1 else i - 1])
  }

  /** The ring from `head` through `ns`, in this order, and back. */
  ghost predicate Ring(head: ListNode, ns: seq<ListNode>)
    reads head, ns
  {
    Circle([head] + ns)
  }

  /** `INIT_LIST_HEAD` */
  method InitListHead(head: ListNode)
    modifies head
    ensures Ring(head, [])
  {
    head.prev := head;
    head.next := head;
  }

  /** The links of the nodes of `all` at some moment. */
  datatype Links = Links(next: seq<ListNode?>, prev: seq<ListNode?>)

  ghost function LinksOf(all: seq<ListNode>): (l: Links)
    reads all
    ensures |l.next| == |l.prev| == |all|
    ensures forall i {:trigger all[i].next} :: 0 <= i < |all| ==> l.next[i] == all[i].next
    ensures forall i {:trigger all[i].prev} :: 0 <= i < |all| ==> l.prev[i] == all[i].prev
  {
    Links(seq(|all|, i requires 0 <= i < |all| reads all => all[i].next),
          seq(|all|, i requires 0 <= i < |all| reads all => all[i].prev))
  }

  /** `l` links `all` up into a circle. */
  ghost predicate CircleLinks(all: seq<ListNode>, l: Links) {
    && |all| >= 1 && Distinct(all) && |l.next| == |l.prev| == |all|
    && (forall i {:trigger l.next[i]} :: 0 <= i < |all| ==> l.next[i] == all[Succ(i, |all|)])
    && (forall i {:trigger l.prev[i]} :: 0 <= i < |all| ==> l.prev[i] == all[if i == 0 then |all| - 1 else i - 1])
  }

  /** `r` is `all` with `n` put in at position `p`. */
  ghost predicate Inserted(all: seq<ListNode>, r: seq<ListNode>, p: nat, n: ListNode) {
    && |r| == |all| + 1 && p <= |all| && r[p] == n
    && (forall i {:trigger r[i]} :: 0 <= i < p ==> r[i] == all[i])
    && (forall i {:trigger r[i]} :: p < i < |r| ==> r[i] == all[i - 1])
  }

  /** Splicing a node in between two neighbours of what was a circle. */
  lemma CircleInsert(all: seq<ListNode>, r: seq<ListNode>, p: nat, n: ListNode, l: Links)
    requires CircleLinks(all, l) && n !in all && 1 <= p && Inserted(all, r, p, n)
    requires n.prev == all[p - 1] && n.next == all[Succ(p - 1, |all|)]
    requires all[p - 1].next == n && all[Succ(p - 1, |all|)].prev == n
    requires forall i {:trigger all[i].next} :: 0 <= i < |all| && i != p - 1 ==> all[i].next == l.next[i]
    requires forall i {:trigger all[i].prev} :: 0 <= i < |all| && i != Succ(p - 1, |all|) ==> all[i].prev == l.prev[i]
    ensures Circle(r)
  {
    forall i, j | 0 <= i < j < |r| ensures r[i] != r[j] {
      assert r[i] == if i < p then all[i] else if i == p then n else all[i - 1];
      assert r[j] == if j < p then all[j] else if j == p then n else all[j - 1];
    }
    forall i | 0 <= i < |r| ensures r[i].next == r[Succ(i, |r|)] {
      if i < p {
        assert r[i] == all[i];
      } else if i > p {
        assert r[i] == all[i - 1];
      }
    }
    forall i | 0 <= i < |r| ensures r[i].prev == r[if i == 0 then |r| - 1 else i - 1] {
      if i < p {
        assert r[i] == all[i];
      } else if i > p {
        assert r[i] == all[i - 1];
      }
    }
  }

  /** `r` is `all` without position `p`. */
  ghost predicate Cut<T>(all: seq<T>, r: seq<T>, p: nat) {
    && |r| == |all| - 1 && p < |all|
    && (forall i {:trigger r[i]} :: 0 <= i < p ==> r[i] == all[i])
    && (forall i {:trigger r[i]} :: p <= i < |r| ==> r[i] == all[i + 1])
  }

  /** Taking a node out from between its neighbours in what was a circle. */
  lemma CircleCut(all: seq<ListNode>, r: seq<ListNode>, p: nat, l: Links)
    requires CircleLinks(all, l) && 1 <= p && Cut(all, r, p)
    requires all[p - 1].next == all[Succ(p, |all|)] && all[Succ(p, |all|)].prev == all[p - 1]
    requires forall i {:trigger all[i].next} :: 0 <= i < |all| && i != p - 1 && i != p ==> all[i].next == l.next[i]
    requires forall i {:trigger all[i].prev} ::
               0 <= i < |all| && i != Succ(p, |all|) && i != p ==> all[i].prev == l.prev[i]
    ensures Circle(r)
  {
    forall i, j | 0 <= i < j < |r| ensures r[i] != r[j] {
      assert r[i] == all[if i < p then i else i + 1] && r[j] == all[if j < p then j else j + 1];
    }
    forall i | 0 <= i < |r| ensures r[i].next == r[Succ(i, |r|)] {
      assert r[i] == all[if i < p then i else i + 1];
    }
    forall i | 0 <= i < |r| ensures r[i].prev == r[if i == 0 then |r| - 1 else i - 1] {
      assert r[i] == all[if i < p then i else i + 1];
    }
  }

  /** `list_add`; its footprint is the new node and the two around it, so no other ring changes. */
  method ListAdd(n: ListNode, head: ListNode, ghost ns: seq<ListNode>)
    requires Ring(head, ns) && n != head && n !in ns
    modifies n, head, head.next
    ensures Ring(head, [n] + ns)
  {
    ghost var all := [head] + ns;
    ghost var l := LinksOf(all);
    assert all[0].next == all[Succ(0, |all|)];
    head.next.prev := n;
    n.next := head.next;
    n.prev := head;
    head.next := n;
    CircleInsert(all, [head] + ([n] + ns), 1, n, l);
  }

  /** `list_add_tail` */
  method ListAddTail(n: ListNode, head: ListNode, ghost ns: seq<ListNode>)
    requires Ring(head, ns) && n != head && n !in ns
    modifies n, head, head.prev
    ensures Ring(head, ns + [n])
  {
    ghost var all := [head] + ns;
    ghost var l := LinksOf(all);
    assert all[0].prev == all[|all| - 1];
    head.prev.next := n;
    n.prev := head.prev;
    n.next := head;
    head.prev := n;
    CircleInsert(all, [head] + (ns + [n]), |all|, n, l);
  }

  /** `list_del` */
  method ListDel(entry: ListNode, ghost head: ListNode, ghost ns: seq<ListNode>)
    requires Ring(head, ns) && entry in ns
    modifies entry, entry.prev, entry.next
    ensures Ring(head, Remove(ns, entry)) && entry.prev == null && entry.next == null
  {
    ghost var all := [head] + ns;
    ghost var p := IndexOf(ns, entry) + 1;
    RemoveIsCut(head, ns, entry);
    hide Cut, Remove;
    Unlink(entry, all, p);
    assert Circle([head] + Remove(ns, entry));
  }

  /** The four assignments of `list_del`, at position `p` of a circle. */
  method Unlink(entry: ListNode, ghost all: seq<ListNode>, ghost p: nat)
    requires Circle(all) && 1 <= p < |all| && all[p] == entry
    modifies entry, entry.prev, entry.next
    ensures entry.prev == null && entry.next == null
    ensures forall r :: Cut(all, r, p) ==> Circle(r)
  {
    ghost var l := LinksOf(all);
    assert all[p].next == all[Succ(p, |all|)] && all[p].prev == all[p - 1];
    entry.prev.next := entry.next;
    entry.next.prev := entry.prev;
    entry.prev := null;
    entry.next := null;
    forall r | Cut(all, r, p) ensures Circle(r) {
      CircleCut(all, r, p, l);
    }
  }

  /** `list_del_init` */
  method ListDelInit(entry: ListNode, ghost head: ListNode, ghost ns: seq<ListNode>)
    requires Ring(head, ns) && entry in ns
    modifies entry, entry.prev, entry.next
    ensures Ring(head, Remove(ns, entry)) && Ring(entry, [])
  {
    RemoveDistinctTail(head, ns, entry);
    ListDel(entry, head, ns);
    InitListHead(entry);
  }

  lemma RemoveDistinctTail(head: ListNode, ns: seq<ListNode>, entry: ListNode)
    requires Ring(head, ns) && entry in ns
    ensures entry != head && entry !in Remove(ns, entry)
    ensures forall x :: x in Remove(ns, entry) ==> x in ns
  {
    TailDistinct(head, ns);
    RemoveDistinct(ns, entry);
  }

  lemma TailDistinct(head: ListNode, ns: seq<ListNode>)
    requires Distinct([head] + ns)
    ensures Distinct(ns) && head !in ns
  {
    var all := [head] + ns;
    assert forall i :: 0 <= i < |ns| ==> ns[i] == all[i + 1] && all[i + 1] != all[0];
  }

  /** Removing an entry from the sequence is cutting its position out of the ring. */
  lemma RemoveIsCut(head: ListNode, ns: seq<ListNode>, entry: ListNode)
    requires entry in ns
    ensures var p := IndexOf(ns, entry) + 1;
            ([head] + ns)[p] == entry && Cut([head] + ns, [head] + Remove(ns, entry), p)
  {
    RemoveCuts(ns, entry);
    CutCons(head, ns, Remove(ns, entry), IndexOf(ns, entry));
  }

  lemma RemoveCuts<T>(s: seq<T>, x: T)
    requires x in s
    ensures Cut(s, Remove(s, x), IndexOf(s, x))
  {
  }

  lemma CutCons<T>(x: T, s: seq<T>, r: seq<T>, p: nat)
    requires Cut(s, r, p)
    ensures Cut([x] + s, [x] + r, p + 1)
  {
  }

  /** `list_move` within one ring. */
  method ListMove(entry: ListNode, head: ListNode, ghost ns: seq<ListNode>)
    requires Ring(head, ns) && entry in ns
    modifies head, ns
    ensures Ring(head, [entry] + Remove(ns, entry))
  {
    RemoveDistinctTail(head, ns, entry);
    RingNeighbours(head, ns, entry);
    ListDel(entry, head, ns);
    RingNext(head, Remove(ns, entry));
    ListAdd(entry, head, Remove(ns, entry));
  }

  /** `list_move_tail` within one ring. */
  method ListMoveTail(entry: ListNode, head: ListNode, ghost ns: seq<ListNode>)
    requires Ring(head, ns) && entry in ns
    modifies head, ns
    ensures Ring(head, Remove(ns, entry) + [entry])
  {
    RemoveDistinctTail(head, ns, entry);
    RingNeighbours(head, ns, entry);
    ListDel(entry, head, ns);
    RingNext(head, Remove(ns, entry));
    ListAddTail(entry, head, Remove(ns, entry));
  }

  /** `list_move` from one ring to another. */
  method ListMoveAcross(entry: ListNode, head: ListNode, ghost ms: seq<ListNode>, ghost src: ListNode,
                        ghost ns: seq<ListNode>)
    requires Ring(src, ns) && entry in ns && Ring(head, ms)
    requires forall x :: x in [head] + ms ==> x != src && x !in ns
    modifies src, ns, head, ms
    ensures Ring(src, Remove(ns, entry)) && Ring(head, [entry] + ms)
  {
    hide Remove;
    RemoveDistinctTail(src, ns, entry);
    RingNeighbours(src, ns, entry);
    RingNext(head, ms);
    assert head in [head] + ms && forall x :: x in ms ==> x in [head] + ms;
    assert entry.prev != head && entry.prev !in ms && entry.next != head && entry.next !in ms;
    ListDel(entry, src, ns);
    assert Ring(head, ms);
    assert head.next in [head] + ms;
    ghost var left := Remove(ns, entry);
    assert forall x :: x in [src] + left ==> x != entry && x != head && x !in ms by {
      assert forall x :: x in left ==> x in ns && x != entry;
      assert forall x :: x in [head] + ms ==> x != src && x !in ns;
      assert forall x :: x in ms ==> x in [head] + ms;
    }
    assert Ring(src, left);
    ListAdd(entry, head, ms);
  }

  lemma RingNeighbours(head: ListNode, ns: seq<ListNode>, entry: ListNode)
    requires Ring(head, ns) && entry in ns
    ensures entry.prev != null && (entry.prev == head || entry.prev in ns)
    ensures entry.next != null && (entry.next == head || entry.next in ns)
  {
    var all := [head] + ns;
    var p := IndexOf(ns, entry) + 1;
    assert all[p] == entry && all[p].next == all[Succ(p, |all|)] && all[p].prev == all[p - 1];
  }

  lemma RingNext(head: ListNode, ns: seq<ListNode>)
    requires Ring(head, ns)
    ensures head.next == if ns == [] then head else ns[0]
    ensures head.prev == if ns == [] then head else Last(ns)
  {
    var all := [head] + ns;
    assert all[0].next == all[Succ(0, |all|)] && all[0].prev == all[|all| - 1];
  }

  /** `list_empty` */
  method ListEmpty(head: ListNode, ghost ns: seq<ListNode>) returns (empty: bool)
    requires Ring(head, ns)
    ensures empty <==> ns == []
  {
    RingNext(head, ns);
    ghost var all := [head] + ns;
    assert ns != [] ==> all[1] != all[0];
    empty := head.next == head;
  }

  /** `list_length` */
  method ListLength(head: ListNode, ghost ns: seq<ListNode>) returns (count: nat)
    requires Ring(head, ns)
    ensures count == |ns|
  {
    ghost var all := [head] + ns;
    RingNext(head, ns);
    assert forall i :: 0 < i < |all| ==> all[i] != all[0];
    count := 0;
    var pos := head.next;
    while pos != head
      invariant count <= |ns| && pos == all[Succ(count, |all|)]
      decreases |ns| - count
    {
      assert all[count + 1].next == all[Succ(count + 1, |all|)];
      pos := pos.next;
      count := count + 1;
    }
  }

  // ---------- One ring, one sequence ----------

  /** A head is the start of one sequence only. */
  lemma {:induction false} RingUnique(head: ListNode, a: seq<ListNode>, b: seq<ListNode>, i: nat)
    requires Ring(head, a) && Ring(head, b) && i <= |a| && i <= |b|
    ensures a[..i] == b[..i]
    decreases i
  {
    if i > 0 {
      RingUnique(head, a, b, i - 1);
      var x, y := [head] + a, [head] + b;
      assert x[i - 1] == y[i - 1] by {
        if i > 1 {
          assert a[..i - 1][i - 2] == b[..i - 1][i - 2];
        }
      }
      assert x[i - 1].next == x[i] && y[i - 1].next == y[i];
      assert a[..i] == a[..i - 1] + [a[i - 1]];
      assert b[..i] == b[..i - 1] + [b[i - 1]];
    }
  }

  lemma RingIsSequence(head: ListNode, a: seq<ListNode>, b: seq<ListNode>)
    requires Ring(head, a) && Ring(head, b)
    ensures a == b
  {
    var n := if |a| <= |b| then |a| else |b|;
    RingUnique(head, a, b, n);
    var x, y := [head] + a, [head] + b;
    assert x[n] == y[n] by {
      if n > 0 {
        assert a[..n][n - 1] == b[..n][n - 1];
      }
    }
    assert forall i :: 0 < i < |x| ==> x[i] != x[0];
    assert forall i :: 0 < i < |y| ==> y[i] != y[0];
    assert x[n].next == x[Succ(n, |x|)] && y[n].next == y[Succ(n, |y|)];
  }

  /** Rings with different heads that are not on each other share no node. */
  lemma {:induction false} RingsAreDisjoint(h: ListNode, a: seq<ListNode>, g: ListNode, b: seq<ListNode>,
                                            i: nat, j: nat)
    requires Ring(h, a) && Ring(g, b) && g != h && g !in a
    requires i <= |a| && j <= |b|
    ensures ([h] + a)[i] != ([g] + b)[j]
    decreases |b| - j
  {
    var x, y := [h] + a, [g] + b;
    assert x[i].next == x[Succ(i, |x|)] && y[j].next == y[Succ(j, |y|)];
    assert g !in x;
    if j < |b| {
      RingsAreDisjoint(h, a, g, b, Succ(i, |x|), j + 1);
    }
  }

  // ---------- Hash chains ----------

  /** What `pprev` points at: the head's `first` or a node's `next`. */
  datatype Slot = Null | First(head: ChainHead) | Next(node: ChainNode)

  /** `struct hlist_head` */
  class ChainHead {
    var first: ChainNode?

    constructor ()
      ensures first == null
    {
      first := null;
    }
  }

  /** `struct hlist_node` */
  class ChainNode {
    var next: ChainNode?
    var pprev: Slot

    constructor ()
      ensures next == null && pprev == Null
    {
      next, pprev := null, Null;
    }
  }

  function NextOf(ns: seq<ChainNode>, i: nat): ChainNode? {
    if i + 1 < |ns| then ns[i + 1] else null
  }

  function SlotOf(h: ChainHead, ns: seq<ChainNode>, i: nat): Slot
    requires i < |ns|
  {
    if i == 0 then First(h) else Next(ns[i - 1])
  }

  /** The chain that starts at `h` is `ns`, and every node knows the slot that points at it. */
  ghost predicate Chain(h: ChainHead, ns: seq<ChainNode>)
    reads h, ns
  {
    && Distinct(ns) && h.first == (if ns == [] then null else ns[0])
    && (forall i {:trigger ns[i].next} :: 0 <= i < |ns| ==> ns[i].next == NextOf(ns, i))
    && (forall i {:trigger ns[i].pprev} :: 0 <= i < |ns| ==> ns[i].pprev == SlotOf(h, ns, i))
  }

  /** `hlist_add_head` */
  method HlistAddHead(n: ChainNode, h: ChainHead, ghost ns: seq<ChainNode>)
    requires Chain(h, ns) && n !in ns
    modifies h, n, h.first
    ensures Chain(h, [n] + ns)
  {
    var first := h.first;
    n.next := first;
    if first != null {
      first.pprev := Next(n);
    }
    h.first := n;
    n.pprev := First(h);
    ghost var r := [n] + ns;
    forall i | 0 <= i < |r|
      ensures r[i].next == NextOf(r, i) && r[i].pprev == SlotOf(h, r, i)
    {
      if i > 0 {
        assert r[i] == ns[i - 1] && ns[i - 1].next == NextOf(ns, i - 1);
      }
    }
  }

  /** Writes through a `pprev` pointer. */
  method Store(slot: Slot, n: ChainNode?)
    requires slot != Null
    modifies if slot.First? then {slot.head as object} else if slot.Next? then {slot.node as object} else {}
    ensures slot.First? ==> slot.head.first == n
    ensures slot.Next? ==> slot.node.next == n && slot.node.pprev == old(slot.node.pprev)
  {
    match slot
    case First(h) => h.first := n;
    case Next(m) => m.next := n;
  }

  /** `hlist_del`, which is not told the head. */
  method HlistDel(n: ChainNode, ghost h: ChainHead, ghost ns: seq<ChainNode>)
    requires Chain(h, ns) && n in ns
    modifies h, ns
    ensures Chain(h, Remove(ns, n)) && n.next == null && n.pprev == Null
  {
    hide Remove, Cut;
    ghost var p := IndexOf(ns, n);
    assert ns[p].next == NextOf(ns, p) && ns[p].pprev == SlotOf(h, ns, p);
    var next := n.next;
    var pprev := n.pprev;
    Store(pprev, next);
    if next != null {
      next.pprev := pprev;
    }
    n.next, n.pprev := null, Null;
    RemoveCuts(ns, n);
    ChainCut(h, ns, Remove(ns, n), p);
  }

  /** Cutting position `p` out of what was a chain. */
  lemma ChainCut(h: ChainHead, ns: seq<ChainNode>, r: seq<ChainNode>, p: nat)
    requires Distinct(ns) && Cut(ns, r, p)
    requires h.first == if p > 0 then ns[0] else NextOf(ns, 0)
    requires forall i {:trigger ns[i].next} ::
               0 <= i < |ns| && i != p ==> ns[i].next == NextOf(ns, if i == p - 1 then p else i)
    requires forall i {:trigger ns[i].pprev} ::
               0 <= i < |ns| && i != p ==> ns[i].pprev == SlotOf(h, ns, if i == p + 1 then p else i)
    ensures Chain(h, r)
  {
    forall i, j | 0 <= i < j < |r| ensures r[i] != r[j] {
      assert r[i] == ns[if i < p then i else i + 1] && r[j] == ns[if j < p then j else j + 1];
    }
    forall i | 0 <= i < |r| ensures r[i].next == NextOf(r, i) && r[i].pprev == SlotOf(h, r, i) {
      assert r[i] == ns[if i < p then i else i + 1];
    }
  }
}
