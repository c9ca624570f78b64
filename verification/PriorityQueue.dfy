/** The binary heap: nodes from index 1 on in an array that doubles. */
module PriorityQueue {
  import opened Bytes

  datatype Node<T> = Node(priority: int, data: T)

  datatype Option<T> = None | Some(value: T)

  /** The same 32 bits read as an unsigned int. */
  function Unsigned(priority: int): (r: int)
    ensures 0 <= priority < INT_LIMIT ==> r == priority
  {
    priority % (2 * INT_LIMIT)
  }

  /** A push compares priorities as unsigned ints, a pop as signed ones. */
  function Rank<T>(n: Node<T>, signed: bool): int {
    if signed then n.priority else Unsigned(n.priority)
  }

  /** Parent before child, for the nodes at 1 to |s| - 1. */
  predicate Ordered<T>(s: seq<Node<T>>, signed: bool) {
    forall k :: 2 <= k < |s| ==> Rank(s[k / 2], signed) <= Rank(s[k], signed)
  }

  /** What the queue holds; index 0 is not used. */
  ghost function Bag<T>(s: seq<Node<T>>): multiset<Node<T>> {
    if |s| == 0 then multiset{} else multiset(s[1..])
  }

  /** All priorities fit a non-negative int, where both readings agree. */
  predicate SmallPriorities<T>(s: seq<Node<T>>) {
    forall k :: 1 <= k < |s| ==> 0 <= s[k].priority < INT_LIMIT
  }

  lemma StoredPriority(priority: int)
    requires 0 <= priority < 2 * INT_LIMIT
    ensures Unsigned(ToInt(priority)) == priority
  {
  }

  lemma ReadingsAgree<T>(s: seq<Node<T>>)
    requires SmallPriorities(s)
    ensures Ordered(s, true) <==> Ordered(s, false)
  {
  }

  /** The root of an ordered heap comes before every other node. */
  lemma {:induction false} RootIsLeast<T>(s: seq<Node<T>>, signed: bool, k: nat)
    requires Ordered(s, signed) && 1 <= k < |s|
    ensures Rank(s[1], signed) <= Rank(s[k], signed)
    decreases k
  {
    if k > 1 {
      RootIsLeast(s, signed, k / 2);
    }
  }

  /** Exchanging two nodes changes nothing about what is held. */
  lemma ExchangeKeepsBag<T>(s: seq<Node<T>>, i: nat, k: nat)
    requires 1 <= i < |s| && 1 <= k < |s|
    ensures Bag(s[i := s[k]][k := s[i]]) == Bag(s)
  {
    var t := s[i := s[k]][k := s[i]];
    assert t[1..] == s[1..][i - 1 := s[k]][k - 1 := s[i]];
  }

  /** A heap with a hole at i: the order holds around the hole, and x may be
      put in as far as the nodes below are concerned. */
  predicate AboveHole<T>(s: seq<Node<T>>, i: nat, rank: int) {
    && (forall k :: 2 <= k < |s| && k != i && k / 2 != i ==> Rank(s[k / 2], false) <= Rank(s[k], false))
    && (forall k :: 2 <= k < |s| && k / 2 == i ==> rank <= Rank(s[k], false))
    && (forall k :: 2 <= k < |s| && k / 2 == i && i >= 2 ==> Rank(s[i / 2], false) <= Rank(s[k], false))
  }

  lemma MoveHoleUp<T>(s: seq<Node<T>>, i: nat, rank: int)
    requires 1 < i < |s| && AboveHole(s, i, rank) && Rank(s[i / 2], false) > rank
    ensures AboveHole(s[i := s[i / 2]], i / 2, rank)
  {
    var j, t := i / 2, s[i := s[i / 2]];
    forall k | 2 <= k < |t| && k / 2 == j ensures rank <= Rank(t[k], false) {
      if k != i { assert Rank(s[k / 2], false) <= Rank(s[k], false); }
    }
    forall k | 2 <= k < |t| && k != j && k / 2 != j ensures Rank(t[k / 2], false) <= Rank(t[k], false) {
    }
    forall k | 2 <= k < |t| && k / 2 == j && j >= 2 ensures Rank(t[j / 2], false) <= Rank(t[k], false) {
      assert Rank(s[j / 2], false) <= Rank(s[j], false);
      if k != i { assert Rank(s[k / 2], false) <= Rank(s[k], false); }
    }
  }

  /** A hole at i: with x put in, the queue holds `held`, and if the heap was in
      order, it is so around the hole. */
  ghost predicate Hole<T>(s: seq<Node<T>>, i: nat, x: Node<T>, held: multiset<Node<T>>, inOrder: bool) {
    1 <= i < |s| && Bag(s[i := x]) == held && (inOrder ==> AboveHole(s, i, Rank(x, false)))
  }

  /** The place behind the last node is a hole. */
  lemma OpenHole<T>(s: seq<Node<T>>, x: Node<T>)
    requires |s| > 1
    ensures Hole(s, |s| - 1, x, Bag(s[..|s| - 1]) + multiset{x}, Ordered(s[..|s| - 1], false))
  {
    var front := s[..|s| - 1];
    assert s[|s| - 1 := x][1..] == front[1..] + [x];
    forall k | 2 <= k < |s| - 1 && Ordered(front, false) ensures Rank(s[k / 2], false) <= Rank(s[k], false) {
      assert s[k] == front[k] && s[k / 2] == front[k / 2];
    }
  }

  lemma {:induction false} StepUp<T>(s: seq<Node<T>>, i: nat, x: Node<T>, held: multiset<Node<T>>, inOrder: bool)
    requires Hole(s, i, x, held, inOrder) && i > 1 && Rank(s[i / 2], false) > Rank(x, false)
    ensures Hole(s[i := s[i / 2]], i / 2, x, held, inOrder)
  {
    hide AboveHole, Rank, Bag;
    if inOrder { MoveHoleUp(s, i, Rank(x, false)); }
    ExchangeKeepsBag(s[i := x], i, i / 2);
    assert s[i := x][i := s[i / 2]][i / 2 := x] == s[i := s[i / 2]][i / 2 := x];
  }

  lemma FillHole<T>(s: seq<Node<T>>, i: nat, x: Node<T>, held: multiset<Node<T>>, inOrder: bool)
    requires Hole(s, i, x, held, inOrder)
    requires i > 1 ==> Rank(s[i / 2], false) <= Rank(x, false)
    ensures (inOrder ==> Ordered(s[i := x], false)) && Bag(s[i := x]) == held
  {
    var t := s[i := x];
    forall k | 2 <= k < |t| && inOrder ensures Rank(t[k / 2], false) <= Rank(t[k], false) {
      if k != i && k / 2 != i { assert t[k] == s[k] && t[k / 2] == s[k / 2]; }
    }
  }

  // ---- A pop ----

  /** The child that comes first, if it comes before the node at i. */
  function Lesser<T>(s: seq<Node<T>>, i: nat): (k: nat)
    requires 1 <= i < |s|
    ensures k == i || (i < k < |s| && k / 2 == i && s[k].priority < s[i].priority)
  {
    var j := 2 * i;
    var k := if j < |s| && s[j].priority < s[i].priority then j else i;
    if j + 1 < |s| && s[j + 1].priority < s[k].priority then j + 1 else k
  }

  /** The heap after a pop, when it was in order: the last node goes to the
      root, or one level below it. */
  function Popped<T>(s: seq<Node<T>>): (r: seq<Node<T>>)
    requires |s| > 1
    ensures |r| == |s| - 1
  {
    var last := s[|s| - 1];
    var rest := s[..|s| - 1];
    if |rest| == 1 then rest
    else
      var t := rest[1 := last];
      var k := Lesser(t, 1);
      t[1 := t[k]][k := last]
  }

  /** The last node may stand where it was put: it comes no later than the nodes
      that are then below it. */
  predicate LastFits<T>(s: seq<Node<T>>)
    requires |s| > 2
  {
    var t := s[..|s| - 1][1 := s[|s| - 1]];
    var k := Lesser(t, 1);
    forall c :: 2 <= c < |t| && c / 2 == k ==> t[1].priority <= t[c].priority
  }

  /** In a heap in order only the last node can be out of place after a pop. */
  lemma OthersStayOrdered<T>(s: seq<Node<T>>, c: nat)
    requires |s| > 2 && Ordered(s, true) && 2 <= c < |s| - 1
    requires c / 2 != Lesser(s[..|s| - 1][1 := s[|s| - 1]], 1)
    ensures Popped(s)[c / 2].priority <= Popped(s)[c].priority
  {
    var t := s[..|s| - 1][1 := s[|s| - 1]];
    assert Rank(s[c / 2], true) <= Rank(s[c], true);
    assert t[c] == s[c] && (c / 2 > 1 ==> t[c / 2] == s[c / 2]);
  }

  lemma BelowLast<T>(s: seq<Node<T>>, c: nat)
    requires |s| > 2 && 2 <= c < |s| - 1
    requires c / 2 == Lesser(s[..|s| - 1][1 := s[|s| - 1]], 1)
    ensures Popped(s)[c / 2] == s[|s| - 1] && Popped(s)[c] == s[c]
  {
  }

  /** A pop leaves the heap in order exactly when the last node fits. */
  lemma PopKeepsOrder<T>(s: seq<Node<T>>)
    requires |s| > 1 && Ordered(s, true)
    ensures Ordered(Popped(s), true) <==> |s| == 2 || LastFits(s)
  {
    if |s| > 2 {
      hide Popped, Lesser;
      var t := s[..|s| - 1][1 := s[|s| - 1]];
      var k, r := Lesser(t, 1), Popped(s);
      forall c | 2 <= c < |t|
        ensures c / 2 == k ==> (Rank(r[c / 2], true) <= Rank(r[c], true) <==> t[1].priority <= t[c].priority)
        ensures c / 2 != k ==> Rank(r[c / 2], true) <= Rank(r[c], true)
      {
        if c / 2 == k { BelowLast(s, c); } else { OthersStayOrdered(s, c); }
      }
    }
  }

  /** Five pushes and one pop: the node that moved up was compared with, so the
      last node lands above a smaller one. */
  lemma PopBreaksOrder()
    ensures exists s: seq<Node<int>> :: |s| == 6 && Ordered(s, true) && SmallPriorities(s) && !Ordered(Popped(s), true)
  {
    var n := (p: int) => Node(p, 0);
    var s := [n(0), n(1), n(2), n(5), n(3), n(4)];
    assert Popped(s) == [n(0), n(2), n(4), n(5), n(3)];
    assert Popped(s)[4 / 2].priority > Popped(s)[4].priority;
  }

  // ---- The queue ----

  class Heap<T(0)> {
    var nodes: array<Node<T>>
    var len: nat
    var size: nat

    ghost predicate Valid()
      reads this
    {
      nodes.Length == size && (len < size || len == size == 0)
    }

    /** Index 0 and the nodes in use. */
    ghost function Nodes(): (s: seq<Node<T>>)
      reads this, nodes
      requires Valid()
      ensures |s| == if size == 0 then 0 else len + 1
    {
      if size == 0 then [] else nodes[..len + 1]
    }

    constructor ()
      ensures Valid() && fresh(nodes) && Nodes() == []
    {
      nodes := new Node<T>[0];
      len, size := 0, 0;
    }

    /** realloc to twice the size, or to four nodes. */
    method Grow(filler: T)
      requires Valid()
      modifies this
      ensures Valid() && len == old(len) && len + 1 < size && (nodes == old(nodes) || fresh(nodes))
      ensures size == if old(len) + 1 < old(size) then old(size) else if old(size) == 0 then 4 else 2 * old(size)
      ensures |old(Nodes())| > 0 ==> Nodes() == old(Nodes())
      ensures |old(Nodes())| == 0 ==> len == 0
    {
      if len + 1 >= size {
        var more := if size != 0 then size * 2 else 4;
        var copy := new Node<T>[more](k requires 0 <= k reads this, nodes =>
          if k < nodes.Length then nodes[k] else Node(0, filler));
        assert size > 0 ==> copy[..len + 1] == nodes[..len + 1];
        nodes, size := copy, more;
      }
    }

    method Push(priority: int, data: T)
      requires Valid() && 0 <= priority < 2 * INT_LIMIT
      modifies this, nodes
      ensures Valid() && len == old(len) + 1 && (nodes == old(nodes) || fresh(nodes))
      ensures old(Ordered(Nodes(), false)) ==> Ordered(Nodes(), false)
      ensures Bag(Nodes()) == old(Bag(Nodes())) + multiset{Node(ToInt(priority), data)}
    {
      hide Unsigned, ToInt;
      Grow(data);
      assert Bag(Nodes()) == old(Bag(Nodes()));
      assert old(Ordered(Nodes(), false)) ==> Ordered(Nodes(), false);
      SiftUp(priority, data);
    }

    /** Makes room for a new node: parents that come later move down. */
    method SiftUp(priority: int, data: T)
      requires Valid() && len + 1 < size && 0 <= priority < 2 * INT_LIMIT
      modifies this`len, nodes
      ensures Valid() && len == old(len) + 1
      ensures old(Ordered(Nodes(), false)) ==> Ordered(Nodes(), false)
      ensures Bag(Nodes()) == old(Bag(Nodes())) + multiset{Node(ToInt(priority), data)}
    {
      hide AboveHole, Hole, Ordered, Bag, ToInt, Unsigned;
      var x := Node(ToInt(priority), data);
      ghost var held, inOrder := Bag(Nodes()) + multiset{x}, Ordered(Nodes(), false);
      ghost var s := nodes[..len + 2];
      StoredPriority(priority);
      assert s[..|s| - 1] == Nodes();
      OpenHole(s, x);
      var i := len + 1;
      var j := i / 2;
      while i > 1 && Unsigned(nodes[j].priority) > priority
        invariant len == old(len) && 1 <= i <= len + 1 && j == i / 2
        invariant s == nodes[..len + 2] && Hole(s, i, x, held, inOrder)
        decreases i
      {
        StepUp(s, i, x, held, inOrder);
        nodes[i] := nodes[j];
        s := s[i := s[j]];
        i := j;
        j := j / 2;
      }
      FillHole(s, i, x, held, inOrder);
      nodes[i] := x;
      len := len + 1;
      assert nodes[..len + 1] == s[i := x];
    }

    /** The node that comes first. */
    method Front() returns (n: Option<Node<T>>)
      requires Valid()
      ensures n == None <==> len == 0
      ensures n.Some? ==> n.value == nodes[1] && n.value in Bag(Nodes())
      ensures n.Some? && Ordered(Nodes(), false) ==>
                forall m :: m in Bag(Nodes()) ==> Rank(n.value, false) <= Rank(m, false)
      ensures n.Some? && Ordered(Nodes(), false) && SmallPriorities(Nodes()) ==>
                forall m :: m in Bag(Nodes()) ==> n.value.priority <= m.priority
    {
      if len == 0 {
        return None;
      }
      n := Some(nodes[1]);
      ghost var s := Nodes();
      assert s[1..][0] == n.value;
      forall m | m in Bag(s) && Ordered(s, false) ensures Rank(n.value, false) <= Rank(m, false) {
        var k :| 0 <= k < |s[1..]| && s[1..][k] == m;
        RootIsLeast(s, false, k + 1);
      }
      forall m | m in Bag(s) && SmallPriorities(s) ensures Rank(m, false) == m.priority {
        var k :| 0 <= k < |s[1..]| && s[1..][k] == m;
        assert s[k + 1] == m;
      }
    }

    /** Whatever the order was, a pop takes away the root and nothing else; a
        heap in order becomes `Popped`. */
    method Pop()
      requires Valid()
      modifies this`len, nodes
      ensures Valid()
      ensures old(len) == 0 ==> len == 0 && Nodes() == old(Nodes())
      ensures old(len) > 0 ==> len == old(len) - 1
      ensures old(len) > 0 ==> Bag(Nodes()) == old(Bag(Nodes()) - multiset{nodes[1]})
      ensures old(len) > 0 && old(Ordered(Nodes(), true)) ==> Nodes() == Popped(old(Nodes()))
    {
      hide Ordered, Lesser, Bag;
      if len == 0 {
        return;
      }
      ghost var s := Nodes();
      nodes[1] := nodes[len];
      len := len - 1;
      DropRoot(s, nodes[..len + 1]);
      if len == 0 {
        nodes[1] := nodes[len + 1];
      } else {
        assert nodes[..len + 1] == s[..|s| - 1][1 := s[|s| - 1]];
        SiftDown(s);
      }
    }

    /** Children that come before the node they are compared with move up; the
        last node is put where that stops. */
    method SiftDown(ghost s: seq<Node<T>>)
      requires Valid() && len > 0 && len + 1 < size
      requires |s| == len + 2 && nodes[len + 1] == s[len + 1]
      requires nodes[..len + 1] == s[..len + 1][1 := s[len + 1]]
      modifies nodes
      ensures Bag(Nodes()) == old(Bag(Nodes()))
      ensures Ordered(s, true) ==> Nodes() == Popped(s)
    {
      hide Ordered, Bag, Popped;
      var last := nodes[len + 1];
      ghost var t, filled := nodes[..len + 1], nodes[..len + 1];
      var i := 1;
      while true
        invariant 1 <= i <= len && nodes[len + 1] == last
        invariant |filled| == len + 1 && Bag(filled) == Bag(t)
        invariant filled == nodes[..len + 1][i := last]
        invariant i == 1 ==> filled == t == nodes[..len + 1]
        invariant i > 1 && Ordered(s, true) ==> Settled(s, nodes[..len + 1], i) && filled == Popped(s)
        decreases len - i
      {
        var k := i;
        var j := 2 * i;
        if j <= len && nodes[j].priority < nodes[k].priority {
          k := j;
        }
        if j + 1 <= len && nodes[j + 1].priority < nodes[k].priority {
          k := j + 1;
        }
        ghost var now := nodes[..len + 1];
        assert k == Lesser(now, i);
        if Ordered(s, true) { Descends(s, now, i, k); }
        if k == i {
          break;
        }
        ExchangeKeepsBag(filled, i, k);
        filled := filled[i := filled[k]][k := last];
        nodes[i] := nodes[k];
        assert nodes[..len + 1] == now[i := now[k]];
        i := k;
      }
      nodes[i] := nodes[len + 1];
      assert nodes[..len + 1] == filled;
    }
  }

  /** A child has moved up to the root, and the nodes below it still follow. */
  ghost predicate Settled<T>(s: seq<Node<T>>, now: seq<Node<T>>, i: nat)
    requires |s| > 2 && |now| == |s| - 1
  {
    var t := s[..|s| - 1][1 := s[|s| - 1]];
    i == Lesser(t, 1) && now == t[1 := t[i]]
  }

  /** In a heap in order the descent stops after one level. */
  lemma Descends<T>(s: seq<Node<T>>, now: seq<Node<T>>, i: nat, k: nat)
    requires |s| > 2 && |now| == |s| - 1 && 1 <= i < |now| && k == Lesser(now, i)
    requires Ordered(s, true)
    ensures i > 1 && Settled(s, now, i) ==> k == i
    ensures i == 1 && now == s[..|s| - 1][1 := s[|s| - 1]] ==>
              Popped(s) == now[1 := now[k]][k := s[|s| - 1]] && (k > 1 ==> Settled(s, now[1 := now[k]], k))
  {
    if i > 1 && Settled(s, now, i) {
      forall c | 2 * i <= c <= 2 * i + 1 && c < |now| ensures now[c].priority >= now[i].priority {
        assert Rank(s[c / 2], true) <= Rank(s[c], true);
      }
    }
  }

  /** The last node in the place of the root: the root is gone. */
  lemma DropRoot<T>(s: seq<Node<T>>, t: seq<Node<T>>)
    requires |s| > 1 && |t| == |s| - 1
    requires |t| == 1 || t == s[..|t|][1 := s[|t|]]
    ensures Bag(t) == Bag(s) - multiset{s[1]}
  {
    if |t| == 1 {
      assert s[1..] == [s[1]];
    } else {
      assert t[1..] == [s[|t|]] + s[2..|t|];
      assert s[1..] == [s[1]] + s[2..|t|] + [s[|t|]];
    }
  }
}
