/** The parallel tables of descriptors and clients, and the loop that closes
    the gaps that closed connections leave. */
module ConnectionTable {

  /** A descriptor that has been closed. */
  const CLOSED := -1

  function Pairs<C>(fds: seq<int>, clients: seq<C>): (r: seq<(int, C)>)
    requires |fds| == |clients|
  {
    seq(|fds|, k requires 0 <= k < |fds| => (fds[k], clients[k]))
  }

  /** What the loop makes of a table: the entry that slides into the place of a
      removed one is not looked at. */
  function Swept<C>(table: seq<(int, C)>): seq<(int, C)> {
    if table == [] then []
    else if table[0].0 != CLOSED then [table[0]] + Swept(table[1..])
    else if |table| == 1 then []
    else [table[1]] + Swept(table[2..])
  }

  function Live<C>(table: seq<(int, C)>): seq<(int, C)> {
    if table == [] then []
    else (if table[0].0 != CLOSED then [table[0]] else []) + Live(table[1..])
  }

  function Without<X>(s: seq<X>, i: nat): (r: seq<X>)
    requires i < |s|
    ensures |r| == |s| - 1
  {
    s[..i] + s[i + 1..]
  }

  /** Every entry behind position i moves down by one. */
  method Remove<C>(fds: array<int>, clients: array<C>, i: nat, nfds: nat)
    requires i < nfds < fds.Length && nfds < clients.Length
    modifies fds, clients
    ensures fds[..nfds - 1] == Without(old(fds[..nfds]), i)
    ensures clients[..nfds - 1] == Without(old(clients[..nfds]), i)
  {
    ghost var fds0, clients0 := fds[..], clients[..];
    var j := i;
    while j < nfds
      invariant i <= j <= nfds
      invariant forall k :: 0 <= k < i || j <= k < fds.Length ==> fds[k] == fds0[k]
      invariant forall k :: 0 <= k < i || j <= k < clients.Length ==> clients[k] == clients0[k]
      invariant forall k :: i <= k < j ==> fds[k] == fds0[k + 1]
      invariant forall k :: i <= k < j ==> clients[k] == clients0[k + 1]
    {
      fds[j] := fds[j + 1];
      clients[j] := clients[j + 1];
      j := j + 1;
    }
    IsWithout(fds[..nfds - 1], fds0[..nfds], i);
    IsWithout(clients[..nfds - 1], clients0[..nfds], i);
  }

  lemma IsWithout<X>(r: seq<X>, s: seq<X>, i: nat)
    requires i < |s| && |r| == |s| - 1
    requires forall k :: 0 <= k < i ==> r[k] == s[k]
    requires forall k :: i <= k < |r| ==> r[k] == s[k + 1]
    ensures r == Without(s, i)
  {
  }

  lemma PairsWithout<C>(fds: seq<int>, clients: seq<C>, i: nat)
    requires i < |fds| == |clients|
    ensures Pairs(Without(fds, i), Without(clients, i)) == Without(Pairs(fds, clients), i)
  {
  }

  /** The whole sweep. One entry behind the table must exist: it is copied, and
      forgotten again. */
  method Compact<C>(fds: array<int>, clients: array<C>, nfds0: nat) returns (nfds: nat)
    requires nfds0 < fds.Length && nfds0 < clients.Length
    modifies fds, clients
    ensures nfds <= nfds0
    ensures Pairs(fds[..nfds], clients[..nfds]) == Swept(old(Pairs(fds[..nfds0], clients[..nfds0])))
  {
    hide Swept, Without;
    ghost var now := Pairs(fds[..nfds0], clients[..nfds0]);
    ghost var table := now;
    nfds := nfds0;
    var i := 0;
    while i < nfds
      invariant i <= nfds + 1 && nfds <= nfds0
      invariant now == Pairs(fds[..nfds], clients[..nfds])
      invariant i <= nfds ==> Swept(table) == now[..i] + Swept(now[i..])
      invariant i > nfds ==> Swept(table) == now
      decreases nfds0 - i
    {
      if fds[i] == CLOSED {
        PairsWithout(fds[..nfds], clients[..nfds], i);
        SweepClosed(now, i);
        Remove(fds, clients, i, nfds);
        nfds := nfds - 1;
        now := Without(now, i);
      } else {
        SweepLive(now, i);
      }
      i := i + 1;
    }
    if i == nfds { SweepNothing(now); }
  }

  lemma SweepNothing<C>(now: seq<(int, C)>)
    ensures now[..|now|] + Swept(now[|now|..]) == now
  {
  }

  lemma SweepLive<C>(now: seq<(int, C)>, i: nat)
    requires i < |now| && now[i].0 != CLOSED
    ensures now[..i] + Swept(now[i..]) == now[..i + 1] + Swept(now[i + 1..])
  {
    assert now[i..][1..] == now[i + 1..];
  }

  lemma SweepClosed<C>(now: seq<(int, C)>, i: nat)
    requires i < |now| && now[i].0 == CLOSED
    ensures var next := Without(now, i);
            now[..i] + Swept(now[i..]) ==
              if i + 1 < |now| then next[..i + 1] + Swept(next[i + 1..]) else next
  {
    var next := Without(now, i);
    if i + 1 < |now| {
      assert now[i..][2..] == next[i + 1..];
    }
  }

  /** No live connection is lost, the order is kept, and every descriptor stays
      with its client. */
  lemma {:induction false} SweepKeepsLive<C(!new)>(table: seq<(int, C)>)
    ensures Live(Swept(table)) == Live(table)
    ensures forall x :: x in Live(table) <==> x in table && x.0 != -1
  {
    LiveOnes(table);
    KeepsLive(table);
  }

  lemma {:induction false} LiveOnes<C(!new)>(table: seq<(int, C)>)
    ensures forall x :: x in Live(table) <==> x in table && x.0 != -1
  {
    if table != [] {
      LiveOnes(table[1..]);
      assert forall x :: x in table <==> x == table[0] || x in table[1..];
    }
  }

  lemma {:induction false} KeepsLive<C>(table: seq<(int, C)>)
    ensures Live(Swept(table)) == Live(table)
  {
    if table != [] {
      if table[0].0 != CLOSED {
        KeepsLive(table[1..]);
        assert Swept(table)[1..] == Swept(table[1..]);
      } else if |table| > 1 {
        KeepsLive(table[2..]);
        assert Swept(table)[1..] == Swept(table[2..]);
        assert table[1..][1..] == table[2..];
      }
    }
  }

  predicate AllLive<C>(table: seq<(int, C)>) {
    forall k :: 0 <= k < |table| ==> table[k].0 != CLOSED
  }

  /** Two connections next to each other closed in the same round. */
  ghost predicate AdjacentClosed<C(!new)>(table: seq<(int, C)>) {
    exists k :: ClosedPairAt(table, k)
  }

  predicate ClosedPairAt<C>(table: seq<(int, C)>, k: int) {
    0 <= k < |table| - 1 && table[k].0 == CLOSED && table[k + 1].0 == CLOSED
  }

  lemma AdjacentTail<C(!new)>(table: seq<(int, C)>)
    requires table != []
    ensures AdjacentClosed(table) <==> ClosedPairAt(table, 0) || AdjacentClosed(table[1..])
  {
    var rest := table[1..];
    if AdjacentClosed(rest) {
      var k :| ClosedPairAt(rest, k);
      assert ClosedPairAt(table, k + 1);
    }
    if AdjacentClosed(table) && !ClosedPairAt(table, 0) {
      var k :| ClosedPairAt(table, k);
      assert ClosedPairAt(rest, k - 1);
    }
  }

  /** One sweep removes every closed entry exactly when no two of them are
      neighbours. */
  lemma {:induction false} SweepRemovesAll<C(!new)>(table: seq<(int, C)>)
    ensures AllLive(Swept(table)) <==> !AdjacentClosed(table)
  {
    if table != [] {
      var swept := Swept(table);
      AdjacentTail(table);
      if table[0].0 != CLOSED {
        SweepRemovesAll(table[1..]);
        assert swept[1..] == Swept(table[1..]);
        LiveTail(swept);
      } else if |table| > 1 {
        SweepRemovesAll(table[2..]);
        assert swept[1..] == Swept(table[2..]);
        LiveTail(swept);
        AdjacentTail(table[1..]);
        assert table[1..][1..] == table[2..];
      }
    }
  }

  lemma LiveTail<C>(table: seq<(int, C)>)
    requires table != []
    ensures AllLive(table) <==> table[0].0 != CLOSED && AllLive(table[1..])
  {
    assert forall k :: 1 <= k < |table| ==> table[k] == table[1..][k - 1];
  }
}
