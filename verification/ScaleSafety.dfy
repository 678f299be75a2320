/**
 * The memory of a process tree from one process table: the loop that collects descendants, whatever
 * order the table lists them in, and the sum over the rows it collected.
 */
module ScaleSafety {
  import Reach

  datatype Process = Process(pid: int, parent: int, rss: nat)

  /** The children each process has in the table. */
  function Graph(table: seq<Process>): Reach.Graph<int> {
    map p | p in Parents(table) :: Children(table, p)
  }

  function Parents(table: seq<Process>): set<int> {
    set row | row in table :: row.parent
  }

  function Children(table: seq<Process>, p: int): seq<int> {
    if table == [] then []
    else
      var last := table[|table| - 1];
      Children(table[..|table| - 1], p) + if last.parent == p then [last.pid] else []
  }

  lemma {:induction false} ChildrenAre(table: seq<Process>, p: int, c: int)
    ensures c in Children(table, p) <==> exists row :: row in table && row.parent == p && row.pid == c
  {
    if table != [] {
      var n := |table| - 1;
      ChildrenAre(table[..n], p, c);
      assert table == table[..n] + [table[n]];
      assert table[n] in table && forall row | row in table[..n] :: row in table;
    }
  }

  lemma NextAre(table: seq<Process>, p: int, c: int)
    ensures c in Reach.Next(Graph(table), p) <==> exists row :: row in table && row.parent == p && row.pid == c
  {
    ChildrenAre(table, p, c);
  }

  /** The resident kilobytes of the owned rows, each row once. */
  function Owned(table: seq<Process>, owned: set<int>): nat {
    if table == [] then 0
    else
      var last := table[|table| - 1];
      Owned(table[..|table| - 1], owned) + if last.pid in owned then last.rss * 1024 else 0
  }

  function Pids(table: seq<Process>): set<int> {
    set row | row in table :: row.pid
  }

  lemma RowOwned(table: seq<Process>, roots: seq<int>, owned: set<int>, row: Process)
    requires row in table && row.parent in owned && Reach.AllReachable(Graph(table), roots, owned)
    ensures Reach.AllReachable(Graph(table), roots, owned + {row.pid})
  {
    NextAre(table, row.parent, row.pid);
    Reach.NextReachable(Graph(table), roots, row.parent, row.pid);
  }

  /** A pass that adds nothing has found every child of every owned process. */
  lemma QuietPassCloses(table: seq<Process>, owned: set<int>)
    requires forall i | 0 <= i < |table| :: table[i].parent in owned ==> table[i].pid in owned
    ensures Reach.Closed(Graph(table), owned, [])
  {
    forall x, y | x in owned && y in Reach.Next(Graph(table), x)
      ensures y in owned
    {
      NextAre(table, x, y);
      var row :| row in table && row.parent == x && row.pid == y;
    }
  }

  /** One pass over the table. */
  method Pass(table: seq<Process>, start: set<int>, ghost roots: seq<int>) returns (owned: set<int>, added: bool)
    requires Reach.AllReachable(Graph(table), roots, start)
    ensures start <= owned <= start + Pids(table) && (added <==> owned != start)
    ensures Reach.AllReachable(Graph(table), roots, owned)
    ensures !added ==> Reach.Closed(Graph(table), owned, [])
  {
    owned, added := start, false;
    for i := 0 to |table|
      invariant start <= owned <= start + Pids(table) && (added <==> owned != start)
      invariant Reach.AllReachable(Graph(table), roots, owned)
      invariant !added ==> forall k | 0 <= k < i :: table[k].parent in owned ==> table[k].pid in owned
    {
      var row := table[i];
      if row.parent in owned && row.pid !in owned {
        RowOwned(table, roots, owned, row);
        assert row.pid in Pids(table);
        owned, added := owned + {row.pid}, true;
      }
    }
    if !added {
      QuietPassCloses(table, owned);
    }
  }

  /** The working set of a process with all its descendants, in bytes. */
  method ChildWorkingSet(table: seq<Process>, pid: int) returns (total: nat, owned: set<int>)
    ensures forall x :: x in owned <==> Reach.Reachable(Graph(table), [pid], x)
    ensures total == Owned(table, owned)
  {
    var found := {pid};
    Reach.RootReachable(Graph(table), [pid], pid);
    var added := true;
    while added
      invariant pid in found && Reach.AllReachable(Graph(table), [pid], found)
      invariant !added ==> Reach.Closed(Graph(table), found, [])
      decreases |Pids(table) - found|, added
    {
      ghost var before := found;
      found, added := Pass(table, found, [pid]);
      MoreFound(Pids(table), before, found);
    }
    forall x
      ensures x in found <==> Reach.Reachable(Graph(table), [pid], x)
    {
      Reach.ClosedIsReachable(Graph(table), [pid], found, x);
    }
    owned := found;
    total := 0;
    for i := 0 to |table|
      invariant total == Owned(table[..i], found)
    {
      assert table[..i + 1][..i] == table[..i];
      total := total + if table[i].pid in found then table[i].rss * 1024 else 0;
    }
    assert table[..|table|] == table;
  }

  lemma MoreFound(pids: set<int>, before: set<int>, after: set<int>)
    requires before <= after <= before + pids
    ensures after != before ==> |pids - after| < |pids - before|
    ensures after == before ==> pids - after == pids - before
  {
    if after != before {
      assert pids - after < pids - before;
      SubsetSize(pids - after, pids - before);
    }
  }

  lemma SubsetSize(a: set<int>, b: set<int>)
    requires a < b
    ensures |a| < |b|
  {
    assert b == a + (b - a);
    assert b - a != {};
  }

  // ---------------------------------------------------------------------------------------------
  // The order of the table

  lemma {:induction false} OwnedTakes(table: seq<Process>, owned: set<int>, i: nat)
    requires i < |table|
    ensures Owned(table, owned) ==
      Owned(table[..i] + table[i + 1..], owned) + if table[i].pid in owned then table[i].rss * 1024 else 0
  {
    var n := |table| - 1;
    var rest := table[..i] + table[i + 1..];
    if i == n {
      assert rest == table[..n];
    } else {
      OwnedTakes(table[..n], owned, i);
      assert rest[..n - 1] == table[..n][..i] + table[..n][i + 1..];
      assert rest[n - 1] == table[n];
    }
  }

  lemma TakenRows(a: seq<Process>, b: seq<Process>, i: nat)
    requires a != [] && i < |b| && b[i] == a[|a| - 1] && multiset(a) == multiset(b)
    ensures multiset(a[..|a| - 1]) == multiset(b[..i] + b[i + 1..])
  {
    var n := |a| - 1;
    var rest := b[..i] + b[i + 1..];
    assert a == a[..n] + [a[n]];
    assert b == b[..i] + [b[i]] + b[i + 1..];
    assert multiset(rest) == multiset(b[..i]) + multiset(b[i + 1..]);
    assert multiset(rest) == multiset(b) - multiset{b[i]};
    assert multiset(a[..n]) == multiset(a) - multiset{a[n]};
  }

  lemma {:induction false} OwnedInAnyOrder(a: seq<Process>, b: seq<Process>, owned: set<int>)
    requires multiset(a) == multiset(b)
    ensures Owned(a, owned) == Owned(b, owned)
  {
    assert |a| == |multiset(a)| == |b|;
    if a != [] {
      var last := a[|a| - 1];
      assert last in multiset(b);
      var i :| 0 <= i < |b| && b[i] == last;
      TakenRows(a, b, i);
      OwnedTakes(b, owned, i);
      OwnedInAnyOrder(a[..|a| - 1], b[..i] + b[i + 1..], owned);
    }
  }

  lemma SameRowsSameNext(a: seq<Process>, b: seq<Process>, p: int, c: int)
    requires multiset(a) == multiset(b)
    ensures c in Reach.Next(Graph(a), p) <==> c in Reach.Next(Graph(b), p)
  {
    NextAre(a, p, c);
    NextAre(b, p, c);
    assert forall row :: row in a <==> row in multiset(a);
    assert forall row :: row in b <==> row in multiset(b);
  }

  lemma ReachesToo(a: seq<Process>, b: seq<Process>, roots: seq<int>, x: int)
    requires multiset(a) == multiset(b) && Reach.Reachable(Graph(a), roots, x)
    ensures Reach.Reachable(Graph(b), roots, x)
  {
    var p :| Reach.Path(Graph(a), p) && p[0] in roots && p[|p| - 1] == x;
    forall i | 0 <= i < |p| - 1
      ensures p[i + 1] in Reach.Next(Graph(b), p[i])
    {
      SameRowsSameNext(a, b, p[i], p[i + 1]);
    }
    assert Reach.Path(Graph(b), p);
  }

  /** The order of the process table decides neither who is owned nor the sum. */
  lemma TableOrderIrrelevant(a: seq<Process>, b: seq<Process>, pid: int, x: int, owned: set<int>)
    requires multiset(a) == multiset(b)
    ensures Reach.Reachable(Graph(a), [pid], x) <==> Reach.Reachable(Graph(b), [pid], x)
    ensures Owned(a, owned) == Owned(b, owned)
  {
    OwnedInAnyOrder(a, b, owned);
    if Reach.Reachable(Graph(a), [pid], x) {
      ReachesToo(a, b, [pid], x);
    }
    if Reach.Reachable(Graph(b), [pid], x) {
      ReachesToo(b, a, [pid], x);
    }
  }
}
