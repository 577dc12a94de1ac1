/**
The timer heap of `heap.c`: a 1-based binary heap in a growable array, ordered by wrapped
32-bit deadlines, whose queued nodes carry their own position.

`dl` gives every queued node its true deadline, an unbounded integer of which the array
holds the low 32 bits; it is the content of the heap.
*/
module Heap {
  import opened Probe
  import opened HeapOrder

  class Node {
    var index: int

    constructor ()
      ensures index == 0
    {
      index := 0;
    }
  }

  datatype Entry = Blank | Entry(value: nat, node: Node)

  // ---------- the array on values ----------

  /** Positions 1.. hold the nodes of `ix`, each at the position `ix` gives it. */
  ghost predicate Linked(e: seq<Entry>, ix: map<Node, nat>) {
    && 1 <= |e|
    && (forall i | 1 <= i < |e| :: e[i].Entry? && e[i].node in ix && ix[e[i].node] == i)
    && (forall n | n in ix :: 1 <= ix[n] < |e| && e[ix[n]].Entry? && e[ix[n]].node == n)
  }

  /** Every entry holds the low 32 bits of its node's true deadline. */
  ghost predicate Timed(e: seq<Entry>, dl: map<Node, int>) {
    forall i | 1 <= i < |e| :: e[i].Entry? && e[i].node in dl && e[i].value == U32(dl[e[i].node])
  }

  ghost predicate Queue(e: seq<Entry>, ix: map<Node, nat>, dl: map<Node, int>) {
    Linked(e, ix) && Timed(e, dl) && ix.Keys == dl.Keys
  }

  ghost function KeyAt(e: seq<Entry>, dl: map<Node, int>, i: nat): int {
    if 1 <= i < |e| && e[i].Entry? && e[i].node in dl then dl[e[i].node] else 0
  }

  /** The true deadlines in array order. */
  ghost function Keys(e: seq<Entry>, dl: map<Node, int>): (k: seq<int>)
    ensures |k| == |e|
  {
    seq(|e|, i requires 0 <= i => KeyAt(e, dl, i))
  }

  /** All live deadlines are within reach of the 32-bit comparison of each other. */
  ghost predicate Spanned(dl: map<Node, int>) {
    forall a, b | a in dl && b in dl :: InReach(dl[a] - dl[b])
  }

  lemma EntryAt(e: seq<Entry>, ix: map<Node, nat>, dl: map<Node, int>, i: nat)
    requires Queue(e, ix, dl) && 1 <= i < |e|
    ensures e[i].Entry? && e[i].node in ix && ix[e[i].node] == i && e[i].node in dl
    ensures Keys(e, dl)[i] == dl[e[i].node] && e[i].value == U32(dl[e[i].node])
  {
  }

  lemma NodeAt(e: seq<Entry>, ix: map<Node, nat>, dl: map<Node, int>, n: Node)
    requires Queue(e, ix, dl) && (n in ix || n in dl)
    ensures n in ix && n in dl && 1 <= ix[n] < |e| && e[ix[n]].Entry? && e[ix[n]].node == n
  {
  }

  /** `heap_less` compares true deadlines when they are within reach. */
  lemma LessIsTrue(e: seq<Entry>, ix: map<Node, nat>, dl: map<Node, int>, a: nat, b: nat)
    requires Queue(e, ix, dl) && 1 <= a < |e| && 1 <= b < |e|
    requires InReach(Keys(e, dl)[a] - Keys(e, dl)[b])
    ensures e[a].Entry? && e[b].Entry?
    ensures Less32(e[a].value, e[b].value) <==> Keys(e, dl)[a] < Keys(e, dl)[b]
  {
    Exact(dl[e[a].node], dl[e[b].node]);
  }

  lemma SwapKeepsQueue(e: seq<Entry>, ix: map<Node, nat>, dl: map<Node, int>, a: nat, b: nat)
    requires Queue(e, ix, dl) && 1 <= a < |e| && 1 <= b < |e| && a != b
    ensures e[a].Entry? && e[b].Entry? && e[a].node in ix && e[b].node in ix && e[a].node != e[b].node
    ensures var ix' := ix[e[a].node := b][e[b].node := a];
            Queue(Swapped(e, a, b), ix', dl) && ix'.Keys == ix.Keys
    ensures Keys(Swapped(e, a, b), dl) == Swapped(Keys(e, dl), a, b)
  {
  }

  /** Entry `i` can be compared with every entry. */
  ghost predicate Comparable(k: seq<int>, i: nat) {
    i < |k| && forall j | 1 <= j < |k| :: InReach(k[i] - k[j])
  }

  lemma SwapComparable(k: seq<int>, a: nat, b: nat)
    requires 1 <= a < |k| && 1 <= b < |k| && Comparable(k, a)
    ensures Comparable(Swapped(k, a, b), b)
  {
  }

  lemma CompareFrom(e: seq<Entry>, ix: map<Node, nat>, dl: map<Node, int>, a: nat, b: nat)
    requires Queue(e, ix, dl) && 1 <= a < |e| && 1 <= b < |e| && Comparable(Keys(e, dl), a)
    ensures e[a].Entry? && e[b].Entry?
    ensures Less32(e[a].value, e[b].value) <==> Keys(e, dl)[a] < Keys(e, dl)[b]
  {
    LessIsTrue(e, ix, dl, a, b);
  }

  lemma CompareAny(e: seq<Entry>, ix: map<Node, nat>, dl: map<Node, int>, a: nat, b: nat)
    requires Queue(e, ix, dl) && 1 <= a < |e| && 1 <= b < |e| && Spanned(dl)
    ensures e[a].Entry? && e[b].Entry?
    ensures Less32(e[a].value, e[b].value) <==> Keys(e, dl)[a] < Keys(e, dl)[b]
  {
    LessIsTrue(e, ix, dl, a, b);
  }

  /** A new last entry for a node that is not queued. */
  lemma AppendKeepsQueue(e: seq<Entry>, ix: map<Node, nat>, dl: map<Node, int>, n: Node, d: int)
    requires Queue(e, ix, dl) && n !in ix
    ensures Queue(e + [Entry(U32(d), n)], ix[n := |e|], dl[n := d])
    ensures Keys(e + [Entry(U32(d), n)], dl[n := d]) == Keys(e, dl) + [d]
  {
  }

  /** A new deadline for the node at position `i`. */
  lemma RetimeKeepsQueue(e: seq<Entry>, ix: map<Node, nat>, dl: map<Node, int>, i: nat, d: int)
    requires Queue(e, ix, dl) && 1 <= i < |e|
    ensures e[i].Entry?
    ensures var e' := e[i := e[i].(value := U32(d))];
            var dl' := dl[e[i].node := d];
            Queue(e', ix, dl') && Keys(e', dl') == Keys(e, dl)[i := d]
  {
    var e' := e[i := e[i].(value := U32(d))];
    var dl' := dl[e[i].node := d];
    forall j | 0 <= j < |e| ensures Keys(e', dl')[j] == Keys(e, dl)[i := d][j] {
      if 1 <= j {
        EntryAt(e, ix, dl, j);
      }
    }
  }

  /** Dropping the last entry. */
  lemma DropLast(e: seq<Entry>, ix: map<Node, nat>, dl: map<Node, int>)
    requires Queue(e, ix, dl) && 2 <= |e|
    ensures e[|e| - 1].Entry?
    ensures var n := e[|e| - 1].node;
            Queue(e[..|e| - 1], ix - {n}, dl - {n}) && Keys(e[..|e| - 1], dl - {n}) == Keys(e, dl)[..|e| - 1]
  {
    var n, e' := e[|e| - 1].node, e[..|e| - 1];
    forall j | 0 <= j < |e'| ensures Keys(e', dl - {n})[j] == Keys(e, dl)[j] {
      if 1 <= j {
        EntryAt(e, ix, dl, j);
      }
    }
  }

  /** Moving the last entry over the head. */
  lemma MoveLastToHead(e: seq<Entry>, ix: map<Node, nat>, dl: map<Node, int>)
    requires Queue(e, ix, dl) && 3 <= |e|
    ensures e[1].Entry? && e[|e| - 1].Entry? && e[1].node != e[|e| - 1].node
    ensures var n, last, k := e[1].node, e[|e| - 1].node, |e| - 1;
            var e' := e[..k][1 := e[k]];
            Queue(e', (ix - {n})[last := 1], dl - {n}) && Keys(e', dl - {n}) == Keys(e, dl)[..k][1 := Keys(e, dl)[k]]
  {
    var n, k := e[1].node, |e| - 1;
    var e' := e[..k][1 := e[k]];
    assert ix[n] == 1 && ix[e[k].node] == k;
    forall j | 0 <= j < |e'| ensures Keys(e', dl - {n})[j] == Keys(e, dl)[..k][1 := Keys(e, dl)[k]][j] {
      if 1 <= j {
        EntryAt(e, ix, dl, j);
      }
    }
  }

  /** Position 0 does not matter. */
  lemma ZeroIrrelevant(e: seq<Entry>, e': seq<Entry>, ix: map<Node, nat>, dl: map<Node, int>)
    requires Queue(e, ix, dl) && |e| == |e'|
    requires forall i | 1 <= i < |e| :: e[i] == e'[i]
    ensures Queue(e', ix, dl) && Keys(e', dl) == Keys(e, dl)
  {
  }

  lemma HeadMinusOne(x: int)
    ensures U32(U32(x) - 1) == U32(x - 1)
  {
  }

  /** The value one before the head's can be compared with every live value, and precedes it. */
  lemma DoomedComparable(e: seq<Entry>, ix: map<Node, nat>, dl: map<Node, int>, i: nat)
    requires Queue(e, ix, dl) && Spanned(dl) && Ordered(Keys(e, dl)) && 1 <= i < |e|
    ensures var k := Keys(e, dl);
            Comparable(k[i := k[1] - 1], i) && forall j | 1 <= j < |e| :: k[1] - 1 < k[j]
  {
    var k := Keys(e, dl);
    forall j | 1 <= j < |e| ensures k[1] <= k[j] && InReach(k[1] - 1 - k[j]) {
      HeadIsLeast(k, j);
      assert InReach(dl[e[j].node] - dl[e[1].node]);
    }
  }

  /** In a heap, the node that precedes all others is the head. */
  lemma LeastIsHead(e: seq<Entry>, ix: map<Node, nat>, dl: map<Node, int>, n: Node)
    requires Queue(e, ix, dl) && Ordered(Keys(e, dl)) && n in dl
    requires forall o | o in dl && o != n :: dl[n] < dl[o]
    ensures 1 < |e| && e[1].Entry? && e[1].node == n
  {
    NodeAt(e, ix, dl, n);
    HeadIsLeast(Keys(e, dl), ix[n]);
  }

  lemma OrderedPrefix(k: seq<int>)
    requires Ordered(k) && 1 <= |k|
    ensures Ordered(k[..|k| - 1])
  {
    forall j | 2 <= j < |k| - 1 ensures k[..|k| - 1][j / 2] <= k[..|k| - 1][j] {
      assert k[j / 2] <= k[j];
    }
  }

  /** A node that is queued already cannot be queued again: one position cannot name two entries. */
  lemma AppendLinks(e: seq<Entry>, ix: map<Node, nat>, value: nat, n: Node)
    requires Linked(e, ix)
    ensures (exists ix' :: Linked(e + [Entry(value, n)], ix')) <==> n !in ix
  {
    var e' := e + [Entry(value, n)];
    if n !in ix {
      assert Linked(e', ix[n := |e|]);
    } else {
      forall ix': map<Node, nat> ensures !Linked(e', ix') {
        assert e'[ix[n]] == e[ix[n]] && e'[|e|].node == n;
      }
    }
  }

  /**
  The positions `heap_remove` uses for an entry that is not the last, before it compares any
  others: the entry and its parent if it is not the head, the head, and the last entry.
  */
  function Touched(size: nat, idx: int): set<int> {
    if idx == size then {} else if idx == 1 then {1, size} else {idx, idx / 2, 1, size}
  }

  /** `heap_remove` stays within the entries of the heap. */
  predicate RemovalSound(size: nat, idx: int) {
    forall i | i in Touched(size, idx) :: 1 <= i <= size
  }

  /** It does if and only if `idx` is the position of an entry. */
  lemma SoundExactly(size: nat, idx: int)
    requires idx != 0
    ensures RemovalSound(size, idx) <==> 1 <= idx <= size
  {
    if RemovalSound(size, idx) && idx != size {
      assert 1 in Touched(size, idx) && size in Touched(size, idx);
      assert idx != 1 ==> idx in Touched(size, idx);
    }
  }

  lemma SpanShrinks(dl: map<Node, int>, n: Node)
    requires Spanned(dl)
    ensures Spanned(dl - {n})
  {
  }

  // ---------- the heap ----------

  class TimerHeap {
    var v: array<Entry>
    var size: nat
    var cap: nat
    ghost var ix: map<Node, nat>     // the position of each queued node
    ghost var dl: map<Node, int>     // the true deadline of each queued node

    /** The array from its unused position 0 to the last entry. */
    ghost function Entries(): seq<Entry>
      reads this, v
    {
      if size < v.Length then v[..size + 1] else [Blank]
    }

    ghost predicate Stamped()
      reads this, ix.Keys
    {
      forall n | n in ix :: n.index == ix[n]
    }

    /** A heap but for its order: `OrderedBelow` or `OrderedAbove` says what is missing. */
    ghost predicate Shaped()
      reads this, v, ix.Keys
      ensures Shaped() ==> cap == v.Length && (size < cap || size == 0)
    {
      && cap == v.Length && (size < cap || size == 0)
      && Stamped()
      && |Entries()| == size + 1
      && Queue(Entries(), ix, dl)
    }

    ghost predicate Valid()
      reads this, v, ix.Keys
    {
      Shaped() && Spanned(dl) && Ordered(K())
    }

    constructor ()
      ensures Valid() && fresh(v) && ix == map[] && dl == map[] && size == 0
    {
      v, size, cap, ix, dl := new Entry[0], 0, 0, map[], map[];
    }

    /** `heap_swap` */
    method Swap(a: nat, b: nat)
      requires Shaped() && 1 <= a <= size && 1 <= b <= size && a != b
      modifies this`ix, v, ix.Keys
      ensures Shaped() && ix.Keys == old(ix.Keys)
      ensures Entries() == Swapped(old(Entries()), a, b)
      ensures |old(K())| == |K()| == size + 1 && K() == Swapped(old(K()), a, b)
    {
      hide Queue, Keys;
      ghost var e := Entries();
      SwapKeepsQueue(e, ix, dl, a, b);
      var ae, be := v[a], v[b];
      ae.node.index := b;
      be.node.index := a;
      v[a] := be;
      v[b] := ae;
      ix := ix[ae.node := b][be.node := a];
      assert Entries() == Swapped(e, a, b);
    }

    /** The true deadlines in array order. */
    ghost function K(): (k: seq<int>)
      reads this, v
    {
      Keys(Entries(), dl)
    }

    /** The loop of `heap_bubble_up`. */
    method BubbleUp(start: nat)
      requires Shaped() && 1 <= start <= size
      requires OrderedBelow(K(), start) && Comparable(K(), start)
      modifies this`ix, v, ix.Keys
      ensures Shaped() && ix.Keys == old(ix.Keys) && Ordered(K())
    {
      hide *;
      var idx := start;
      while true
        invariant Shaped() && ix.Keys == old(ix.Keys) && 1 <= idx <= size
        invariant OrderedBelow(K(), idx) && Comparable(K(), idx)
        decreases idx
      {
        var parent := idx / 2;
        if parent == 0 {
          UpDone(K(), idx);
          break;
        }
        var less := Less(idx, parent);
        CompareFromHere(idx, parent);
        if !less {
          UpDone(K(), idx);
          break;
        }
        UpStep(K(), idx);
        SwapComparable(K(), idx, parent);
        Swap(idx, parent);
        idx := parent;
      }
    }

    lemma CompareFromHere(a: nat, b: nat)
      requires Shaped() && 1 <= a <= size && 1 <= b <= size && Comparable(K(), a)
      ensures |K()| == size + 1 && Entries()[a].Entry? && Entries()[b].Entry?
      ensures Less32(Entries()[a].value, Entries()[b].value) <==> K()[a] < K()[b]
    {
      hide Queue, Comparable;
      CompareFrom(Entries(), ix, dl, a, b);
    }

    lemma CompareAnyHere(a: nat, b: nat)
      requires Shaped() && 1 <= a <= size && 1 <= b <= size && Spanned(dl)
      ensures |K()| == size + 1 && Entries()[a].Entry? && Entries()[b].Entry?
      ensures Less32(Entries()[a].value, Entries()[b].value) <==> K()[a] < K()[b]
    {
      hide Queue, Spanned;
      CompareAny(Entries(), ix, dl, a, b);
    }

    /** `heap_less` */
    method Less(a: nat, b: nat) returns (r: bool)
      requires Shaped() && 1 <= a <= size && 1 <= b <= size
      ensures |Entries()| == size + 1 && Entries()[a].Entry? && Entries()[b].Entry?
      ensures r == Less32(Entries()[a].value, Entries()[b].value)
    {
      hide Queue;
      EntryAt(Entries(), ix, dl, a);
      EntryAt(Entries(), ix, dl, b);
      r := Less32(v[a].value, v[b].value);
    }

    /** The loop of `heap_bubble_down`, whose current position is the entry moved from the end. */
    method BubbleDown()
      requires Shaped() && 1 <= size && Spanned(dl) && OrderedAbove(K(), 1)
      modifies this`ix, v, ix.Keys
      ensures Shaped() && ix.Keys == old(ix.Keys) && Ordered(K())
    {
      hide *;
      var parent := 1;
      while true
        invariant Shaped() && ix.Keys == old(ix.Keys) && 1 <= parent <= size
        invariant Spanned(dl) && OrderedAbove(K(), parent)
        decreases size - parent
      {
        CompareAnyHere(parent, parent);
        var left := 2 * parent;
        if left > size {
          DownDone(K(), parent);
          break;
        }
        var smaller := ChooseChild(parent);
        var less := Less(smaller, parent);
        CompareAnyHere(smaller, parent);
        if !less {
          DownDone(K(), parent);
          break;
        }
        DownStep(K(), parent, smaller);
        Swap(smaller, parent);
        parent := smaller;
      }
    }

    /** The choice of the smaller child in `heap_bubble_down`. */
    method ChooseChild(parent: nat) returns (smaller: nat)
      requires Shaped() && 1 <= parent && 2 * parent <= size && Spanned(dl)
      ensures SmallerChild(K(), parent, smaller) && parent < smaller <= size
    {
      hide Shaped, Keys, Spanned, Less32, Entries;
      var left := 2 * parent;
      var right := left + 1;
      smaller := left;
      CompareAnyHere(left, left);
      if right <= size {
        var less := Less(right, left);
        CompareAnyHere(right, left);
        if less {
          smaller := right;
        }
      }
    }

    lemma Opened()
      ensures Valid() <==> Shaped() && Spanned(dl) && Ordered(K())
    {
    }

    lemma AllComparable(i: nat)
      requires Shaped() && 1 <= i <= size && Spanned(dl)
      ensures Comparable(K(), i)
    {
      hide Queue;
      forall j | 1 <= j <= size ensures InReach(K()[i] - K()[j]) {
        EntryAt(Entries(), ix, dl, i);
        EntryAt(Entries(), ix, dl, j);
      }
    }

    lemma Members()
      requires Shaped()
      ensures ix.Keys == dl.Keys
      ensures forall n | n in dl :: 1 <= n.index <= size && NodeAtIndex(n.index) == n
    {
      hide Keys;
      forall n | n in dl ensures 1 <= n.index <= size && NodeAtIndex(n.index) == n {
        NodeAt(Entries(), ix, dl, n);
      }
    }

    /** The head is a node of least deadline. */
    lemma HeadFirst()
      requires Valid() && 1 <= size
      ensures size < v.Length && v[1].Entry? && v[1].value == U32(dl[NodeAtIndex(1)])
      ensures forall o | o in dl :: dl[NodeAtIndex(1)] <= dl[o]
    {
      hide Queue, Ordered;
      EntryAt(Entries(), ix, dl, 1);
      forall o | o in dl ensures dl[NodeAtIndex(1)] <= dl[o] {
        NodeAt(Entries(), ix, dl, o);
        EntryAt(Entries(), ix, dl, ix[o]);
        HeadIsLeast(K(), ix[o]);
      }
    }

    lemma EmptyWhen()
      requires Valid()
      ensures size == 0 <==> dl == map[]
    {
      hide Ordered, Keys;
      if size > 0 {
        assert NodeAtIndex(1) in dl;
      }
    }

    /** The reallocation in `heap_insert`: room for one more entry. */
    method Grow()
      requires Shaped()
      modifies this`cap, this`v
      ensures Shaped() && 1 + size < cap && (v == old(v) || fresh(v))
      ensures K() == old(K())
    {
      hide Queue, Keys;
      if 1 + size >= cap {
        cap := cap * 2 + 16;
        ghost var e := Entries();
        var w := new Entry[cap];
        forall i | 0 <= i < v.Length {
          w[i] := v[i];
        }
        v := w;
        ZeroIrrelevant(e, Entries(), ix, dl);
      }
    }

    /** The part of `heap_insert` after the reallocation and before `heap_bubble_up`. */
    method Append(n: Node, value: nat, ghost d: int)
      requires Shaped() && n !in ix && 1 + size < cap && value == U32(d)
      modifies this`size, this`ix, this`dl, v, n`index
      ensures Shaped() && size == old(size) + 1 && dl == old(dl)[n := d] && ix.Keys == old(ix.Keys) + {n}
      ensures |K()| == size + 1 && K() == old(K()) + [d]
    {
      hide Queue, Keys;
      ghost var e := Entries();
      AppendKeepsQueue(e, ix, dl, n, d);
      var idx := 1 + size;
      size := size + 1;
      n.index := idx;
      v[idx] := Entry(value, n);
      ix, dl := ix[n := idx], dl[n := d];
      assert Entries() == e + [Entry(value, n)];
    }

    /** `heap_insert` for a node that is not queued, with true deadline `d`. */
    method Insert(n: Node, value: nat, ghost d: int)
      requires Valid() && n !in ix && value == U32(d) && Spanned(dl[n := d])
      modifies this, v, ix.Keys, n
      ensures Valid() && (v == old(v) || fresh(v))
      ensures dl == old(dl)[n := d] && ix.Keys == old(ix.Keys) + {n}
    {
      hide *;
      Opened();
      Grow();
      ghost var k := K();
      Append(n, value, d);
      Appended(k, d);
      AllComparable(size);
      BubbleUp(size);
      Opened();
    }

    ghost function NodeAtIndex(i: nat): (n: Node)
      requires Shaped() && 1 <= i <= size
      reads this, v, ix.Keys
      ensures n in ix && n in dl && ix[n] == i && n.index == i && size < v.Length && v[i].Entry? && v[i].node == n
    {
      EntryAt(Entries(), ix, dl, i);
      v[i].node
    }

    /** The last entry leaves: `h->size--`. */
    method Shrink() returns (ghost n: Node)
      requires Valid() && 1 <= size
      modifies this`size, this`ix, this`dl
      ensures Valid() && size == old(size) - 1 && n == old(NodeAtIndex(size))
      ensures ix.Keys == old(ix.Keys) - {n} && dl == old(dl) - {n}
    {
      hide Queue, Keys, Ordered, Spanned;
      ghost var e := Entries();
      EntryAt(e, ix, dl, size);
      DropLast(e, ix, dl);
      n := e[size].node;
      OrderedPrefix(K());
      SpanShrinks(dl, n);
      size := size - 1;
      ix, dl := ix - {n}, dl - {n};
      assert v[..size + 1] == e[..|e| - 1];
    }

    /** `h->v[idx].value = value` at the start of `heap_bubble_up`. */
    method Retime(idx: nat, value: nat, ghost d: int)
      requires Shaped() && 1 <= idx <= size && value == U32(d)
      modifies this`dl, v
      ensures Shaped() && |old(K())| == size + 1 && K() == old(K())[idx := d]
      ensures size < v.Length && old(v[idx]).Entry? && dl == old(dl)[old(v[idx]).node := d]
    {
      hide Queue, Keys;
      ghost var e := Entries();
      RetimeKeepsQueue(e, ix, dl, idx, d);
      dl := dl[v[idx].node := d];
      v[idx] := v[idx].(value := value);
      assert Entries() == e[idx := e[idx].(value := value)];
    }

    /** The last entry moves over the head, whose node leaves. */
    method Refill() returns (ghost n: Node)
      requires Shaped() && 2 <= size && Ordered(K())
      modifies this`size, this`ix, this`dl, v, ix.Keys
      ensures Shaped() && size == old(size) - 1 && OrderedAbove(K(), 1)
      ensures n == old(NodeAtIndex(1)) && n.index == 1
      ensures ix.Keys == old(ix.Keys) - {n} && dl == old(dl) - {n}
    {
      hide Queue, Keys, Ordered, OrderedAbove;
      ghost var e := Entries();
      EntryAt(e, ix, dl, 1);
      EntryAt(e, ix, dl, size);
      MoveLastToHead(e, ix, dl);
      Refilled(K(), size);
      n := e[1].node;
      size := size - 1;
      var last := v[1 + size];
      v[1] := last;
      last.node.index := 1;
      ix, dl := (ix - {n})[last.node := 1], dl - {n};
      assert v[..size + 1] == e[..|e| - 1][1 := e[|e| - 1]];
    }

    /**
    `heap_bubble_up(h, idx, h->v[HEAP_HEAD].value - 1)`: the entry at `idx` becomes the head,
    although its new value can lie a full 2^31 before the latest deadline.
    */
    method ForceUp(idx: nat) returns (ghost n: Node)
      requires Valid() && 2 <= idx <= size
      modifies this`ix, this`dl, v, ix.Keys
      ensures Shaped() && Ordered(K()) && ix.Keys == old(ix.Keys)
      ensures n == old(NodeAtIndex(idx)) && n == NodeAtIndex(1)
      ensures |old(K())| > 1 && dl == old(dl)[n := old(K())[1] - 1]
    {
      hide *;
      Opened();
      n := NodeAtIndex(idx);
      ghost var k, dl0 := K(), dl;
      HeadValue();
      ForcedComparable(idx);
      ForcedUp(k, idx);
      HeadMinusOne(k[1]);
      Retime(idx, U32(v[1].value - 1), k[1] - 1);
      BubbleUp(idx);
      Doomed(n, k, dl0);
    }

    lemma HeadValue()
      requires Shaped() && 1 <= size
      ensures |K()| == size + 1 && size < v.Length && v[1].Entry? && v[1].value == U32(K()[1])
    {
      hide Queue;
      EntryAt(Entries(), ix, dl, 1);
    }

    lemma ForcedComparable(idx: nat)
      requires Valid() && 1 <= idx <= size
      ensures |K()| == size + 1 && Comparable(K()[idx := K()[1] - 1], idx)
      ensures forall n | n in dl :: K()[1] - 1 < dl[n]
    {
      hide Queue, Comparable, Ordered;
      DoomedComparable(Entries(), ix, dl, idx);
      forall n | n in dl ensures K()[1] - 1 < dl[n] {
        NodeAt(Entries(), ix, dl, n);
        EntryAt(Entries(), ix, dl, ix[n]);
      }
    }

    lemma Doomed(n: Node, k: seq<int>, dl0: map<Node, int>)
      requires Shaped() && Ordered(K()) && 2 <= |k| && n in dl0 && dl == dl0[n := k[1] - 1]
      requires forall o | o in dl0 :: k[1] - 1 < dl0[o]
      ensures 1 <= size && NodeAtIndex(1) == n
    {
      hide Queue, Ordered;
      LeastIsHead(Entries(), ix, dl, n);
    }

    /** `heap_remove`: exactly the entry at `idx` leaves the heap. */
    method Remove(idx: nat) returns (ghost n: Node)
      requires Valid() && 1 <= idx <= size
      modifies this`size, this`ix, this`dl, v, ix.Keys
      ensures Valid() && size == old(size) - 1
      ensures n == old(NodeAtIndex(idx)) && dl == old(dl) - {n} && ix.Keys == old(ix.Keys) - {n}
      ensures n.index == if idx == old(size) then idx else 1
    {
      hide *;
      Opened();
      n := NodeAtIndex(idx);
      if idx == size {
        ghost var _ := Shrink();
        return;
      }
      SpanShrinks(dl, n);
      ghost var dl0 := dl;
      if idx != 1 {
        ghost var _ := ForceUp(idx);
      }
      assert dl - {n} == dl0 - {n};
      ghost var r := Refill();
      BubbleDown();
      Opened();
    }

    /** Whether `n` is queued, read off the array rather than the node. */
    method IsQueued(n: Node) returns (b: bool)
      requires Valid()
      ensures b <==> n in dl
    {
      hide *;
      Opened();
      Members();
      b := false;
      if 1 <= n.index <= size {
        ghost var _ := NodeAtIndex(n.index);
        b := v[n.index].node == n;
      }
    }
  }
}
