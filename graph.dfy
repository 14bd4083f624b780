/** `build_graph`: the transfer graph (forward and reverse adjacency lists in
    row order) and the per-account counters, built in one pass over the rows.
    A row whose timestamp does not parse is skipped before anything is
    recorded for it. */
module TxGraph {

  import opened Wrappers

  /** One input row. `epoch` is the parsed timestamp in seconds, `None` when
      the timestamp matches none of the accepted date formats. */
  datatype Transaction = Transaction(txId: string, sender: string, receiver: string, amount: real, epoch: Option<int>)

  /** An adjacency entry. In `adjacency` the peer is the receiver, in
      `reverseAdj` it is the sender. */
  datatype Edge = Edge(peer: string, amount: real, epoch: int, txId: string)

  /** The per-account counters of `node_stats`. */
  datatype Stats = Stats(inDeg: nat, outDeg: nat, totalIn: real, totalOut: real, txCount: nat, epochs: seq<int>)

  /** `order` lists the accounts in the order they entered `node_stats`
      (Python dicts iterate in insertion order); the node set is `stats.Keys`. */
  datatype Graph = Graph(adjacency: map<string, seq<Edge>>, reverseAdj: map<string, seq<Edge>>, order: seq<string>, stats: map<string, Stats>)

  const NoStats := Stats(0, 0, 0.0, 0.0, 0, [])

  /** `adjacency.get(a, [])` */
  function OutEdges(g: Graph, a: string): seq<Edge>
  {
    if a in g.adjacency then g.adjacency[a] else []
  }

  /** `reverse_adj.get(a, [])` */
  function InEdges(g: Graph, a: string): seq<Edge>
  {
    if a in g.reverseAdj then g.reverseAdj[a] else []
  }

  function SumAmounts(es: seq<Edge>): real
  {
    if es == [] then 0.0 else SumAmounts(es[..|es| - 1]) + es[|es| - 1].amount
  }

  predicate NoDuplicates<T(==)>(s: seq<T>)
  {
    forall i, j :: 0 <= i < j < |s| ==> s[i] != s[j]
  }

  // ---------------------------------------------------------------------
  // The graph of a row sequence, account by account.

  /** The rows that are kept: those whose timestamp parsed. */
  predicate Kept(t: Transaction) { t.epoch.Some? }

  /** Edges sent by `a`, in row order. */
  function Sent(txs: seq<Transaction>, a: string): seq<Edge>
  {
    if txs == [] then []
    else
      var t := txs[|txs| - 1];
      Sent(txs[..|txs| - 1], a)
        + (if Kept(t) && t.sender == a then [Edge(t.receiver, t.amount, t.epoch.value, t.txId)] else [])
  }

  /** Edges received by `a`, in row order. */
  function Received(txs: seq<Transaction>, a: string): seq<Edge>
  {
    if txs == [] then []
    else
      var t := txs[|txs| - 1];
      Received(txs[..|txs| - 1], a)
        + (if Kept(t) && t.receiver == a then [Edge(t.sender, t.amount, t.epoch.value, t.txId)] else [])
  }

  /** Timestamps of every kept row `a` takes part in: the sender's copy
      first, so a self-transfer contributes its epoch twice. */
  function Epochs(txs: seq<Transaction>, a: string): seq<int>
  {
    if txs == [] then []
    else
      var t := txs[|txs| - 1];
      Epochs(txs[..|txs| - 1], a)
        + (if Kept(t) && t.sender == a then [t.epoch.value] else [])
        + (if Kept(t) && t.receiver == a then [t.epoch.value] else [])
  }

  function Senders(txs: seq<Transaction>): set<string>
  {
    set t | t in txs && Kept(t) :: t.sender
  }

  function Receivers(txs: seq<Transaction>): set<string>
  {
    set t | t in txs && Kept(t) :: t.receiver
  }

  /** Accounts in order of first appearance (sender before receiver). */
  function Appearance(txs: seq<Transaction>): seq<string>
  {
    if txs == [] then []
    else
      var t := txs[|txs| - 1];
      var before := Appearance(txs[..|txs| - 1]);
      if !Kept(t) then before
      else
        var withSender := if t.sender in before then before else before + [t.sender];
        if t.receiver in withSender then withSender else withSender + [t.receiver]
  }

  function StatsOf(txs: seq<Transaction>, a: string): Stats
  {
    var sent, received := Sent(txs, a), Received(txs, a);
    Stats(|received|, |sent|, SumAmounts(received), SumAmounts(sent), |received| + |sent|, Epochs(txs, a))
  }

  function AdjacencyOf(txs: seq<Transaction>): map<string, seq<Edge>>
  {
    map a | a in Senders(txs) :: Sent(txs, a)
  }

  function ReverseOf(txs: seq<Transaction>): map<string, seq<Edge>>
  {
    map a | a in Receivers(txs) :: Received(txs, a)
  }

  function StatsMap(txs: seq<Transaction>): map<string, Stats>
  {
    map a | a in Senders(txs) + Receivers(txs) :: StatsOf(txs, a)
  }

  /** The graph `build_graph` returns, described account by account. */
  function Build(txs: seq<Transaction>): Graph
  {
    Graph(AdjacencyOf(txs), ReverseOf(txs), Appearance(txs), StatsMap(txs))
  }

  /** The counters and lists agree with each other, every edge ends at a
      known account, and `order` lists each account exactly once. */
  ghost predicate WellFormed(g: Graph)
  {
    && g.adjacency.Keys <= g.stats.Keys
    && g.reverseAdj.Keys <= g.stats.Keys
    && (forall a, e :: a in g.adjacency && e in g.adjacency[a] ==> e.peer in g.stats)
    && (forall a, e :: a in g.reverseAdj && e in g.reverseAdj[a] ==> e.peer in g.stats)
    && (forall a :: a in g.stats ==>
          var s := g.stats[a];
          && s.outDeg == |OutEdges(g, a)|
          && s.inDeg == |InEdges(g, a)|
          && s.totalOut == SumAmounts(OutEdges(g, a))
          && s.totalIn == SumAmounts(InEdges(g, a))
          && s.txCount == s.inDeg + s.outDeg
          && |s.epochs| == s.txCount)
    && NoDuplicates(g.order)
    && (forall a :: a in g.order <==> a in g.stats)
  }

  // ---------------------------------------------------------------------
  // Lemmas about `Build`.

  lemma {:induction false} PrefixOfSnoc<T>(s: seq<T>, x: T)
    ensures (s + [x])[..|s|] == s && (s + [x])[|s|] == x
  {
  }

  /** An account that sent nothing has no out-edges, and one that received
      nothing has no in-edges. */
  lemma {:induction false} SilentAccounts(txs: seq<Transaction>, a: string)
    ensures a !in Senders(txs) ==> Sent(txs, a) == []
    ensures a !in Receivers(txs) ==> Received(txs, a) == []
    ensures a !in Senders(txs) + Receivers(txs) ==> Epochs(txs, a) == []
  {
    if txs != [] {
      var init := txs[..|txs| - 1];
      assert txs == init + [txs[|txs| - 1]];
      assert Senders(init) <= Senders(txs);
      assert Receivers(init) <= Receivers(txs);
      SilentAccounts(init, a);
    }
  }

  /** Every edge ends at an account that appears in a kept row. */
  lemma {:induction false} PeersAreAccounts(txs: seq<Transaction>, a: string)
    ensures forall e :: e in Sent(txs, a) ==> e.peer in Receivers(txs)
    ensures forall e :: e in Received(txs, a) ==> e.peer in Senders(txs)
  {
    if txs != [] {
      var init := txs[..|txs| - 1];
      assert txs == init + [txs[|txs| - 1]];
      assert Senders(init) <= Senders(txs);
      assert Receivers(init) <= Receivers(txs);
      PeersAreAccounts(init, a);
    }
  }

  /** An account has one epoch entry per sent and one per received edge. */
  lemma {:induction false} EpochCount(txs: seq<Transaction>, a: string)
    ensures |Epochs(txs, a)| == |Sent(txs, a)| + |Received(txs, a)|
  {
    if txs != [] {
      EpochCount(txs[..|txs| - 1], a);
    }
  }

  /** The appearance order lists every account of a kept row exactly once. */
  lemma {:induction false} AppearanceListsAccounts(txs: seq<Transaction>)
    ensures NoDuplicates(Appearance(txs))
    ensures forall a :: a in Appearance(txs) <==> a in Senders(txs) + Receivers(txs)
  {
    if txs != [] {
      var init := txs[..|txs| - 1];
      var t := txs[|txs| - 1];
      assert txs == init + [t];
      AppearanceListsAccounts(init);
      SendersSnoc(init, t);
    }
  }

  /** Graph counters: after `build_graph` every account's `outDeg` and
      `inDeg` are the lengths of its adjacency lists, its totals are the sums
      of their amounts, and `txCount = inDeg + outDeg = |epochs|`. */
  lemma {:induction false} BuildWellFormed(txs: seq<Transaction>)
    ensures WellFormed(Build(txs))
  {
    var g := Build(txs);
    forall a | a in g.stats
      ensures g.stats[a].outDeg == |OutEdges(g, a)| && g.stats[a].inDeg == |InEdges(g, a)|
      ensures g.stats[a].totalOut == SumAmounts(OutEdges(g, a)) && g.stats[a].totalIn == SumAmounts(InEdges(g, a))
      ensures |g.stats[a].epochs| == g.stats[a].txCount
    {
      SilentAccounts(txs, a);
      EpochCount(txs, a);
    }
    forall a, e | a in g.adjacency && e in g.adjacency[a] ensures e.peer in g.stats {
      PeersAreAccounts(txs, a);
    }
    forall a, e | a in g.reverseAdj && e in g.reverseAdj[a] ensures e.peer in g.stats {
      PeersAreAccounts(txs, a);
    }
    AppearanceListsAccounts(txs);
  }

  lemma {:induction false} SendersSnoc(txs: seq<Transaction>, t: Transaction)
    ensures Senders(txs + [t]) == Senders(txs) + (if Kept(t) then {t.sender} else {})
    ensures Receivers(txs + [t]) == Receivers(txs) + (if Kept(t) then {t.receiver} else {})
  {
    assert forall x :: x in txs + [t] <==> x in txs || x == t;
  }

  /** Appending one row extends the per-account lists by what that row adds. */
  lemma {:induction false} ListsSnoc(txs: seq<Transaction>, t: Transaction, a: string)
    ensures Sent(txs + [t], a)
      == Sent(txs, a) + (if Kept(t) && t.sender == a then [Edge(t.receiver, t.amount, t.epoch.value, t.txId)] else [])
    ensures Received(txs + [t], a)
      == Received(txs, a) + (if Kept(t) && t.receiver == a then [Edge(t.sender, t.amount, t.epoch.value, t.txId)] else [])
    ensures Epochs(txs + [t], a)
      == Epochs(txs, a) + (if Kept(t) && t.sender == a then [t.epoch.value] else [])
         + (if Kept(t) && t.receiver == a then [t.epoch.value] else [])
  {
    PrefixOfSnoc(txs, t);
  }

  lemma {:induction false} SkippedRowAccount(txs: seq<Transaction>, t: Transaction, a: string)
    requires t.epoch.None?
    ensures Sent(txs + [t], a) == Sent(txs, a)
    ensures Received(txs + [t], a) == Received(txs, a)
    ensures StatsOf(txs + [t], a) == StatsOf(txs, a)
  {
    ListsSnoc(txs, t, a);
    assert Sent(txs + [t], a) == Sent(txs, a);
    assert Received(txs + [t], a) == Received(txs, a);
    assert Epochs(txs + [t], a) == Epochs(txs, a);
  }

  lemma {:induction false} SkippedRowAdjacency(txs: seq<Transaction>, t: Transaction)
    requires t.epoch.None?
    ensures AdjacencyOf(txs + [t]) == AdjacencyOf(txs)
  {
    SendersSnoc(txs, t);
    var m, m' := AdjacencyOf(txs), AdjacencyOf(txs + [t]);
    forall a | a in m' ensures m'[a] == m[a] {
      SkippedRowAccount(txs, t, a);
    }
  }

  lemma {:induction false} SkippedRowReverse(txs: seq<Transaction>, t: Transaction)
    requires t.epoch.None?
    ensures ReverseOf(txs + [t]) == ReverseOf(txs)
  {
    SendersSnoc(txs, t);
    var m, m' := ReverseOf(txs), ReverseOf(txs + [t]);
    forall a | a in m' ensures m'[a] == m[a] {
      SkippedRowAccount(txs, t, a);
    }
  }

  lemma {:induction false} SkippedRowStats(txs: seq<Transaction>, t: Transaction)
    requires t.epoch.None?
    ensures StatsMap(txs + [t]) == StatsMap(txs)
  {
    SendersSnoc(txs, t);
    var m, m' := StatsMap(txs), StatsMap(txs + [t]);
    forall a | a in m' ensures m'[a] == m[a] {
      SkippedRowAccount(txs, t, a);
    }
  }

  /** A row whose timestamp does not parse changes none of the maps. */
  lemma {:induction false} SkippedRow(txs: seq<Transaction>, t: Transaction)
    requires t.epoch.None?
    ensures Build(txs + [t]) == Build(txs)
  {
    SkippedRowAdjacency(txs, t);
    SkippedRowReverse(txs, t);
    SkippedRowStats(txs, t);
    PrefixOfSnoc(txs, t);
    assert Appearance(txs + [t]) == Appearance(txs);
  }

  lemma {:induction false} KeptRowAccount(txs: seq<Transaction>, t: Transaction, a: string)
    requires Kept(t)
    ensures Sent(txs + [t], a)
      == if t.sender == a then Sent(txs, a) + [Edge(t.receiver, t.amount, t.epoch.value, t.txId)] else Sent(txs, a)
    ensures Received(txs + [t], a)
      == if t.receiver == a then Received(txs, a) + [Edge(t.sender, t.amount, t.epoch.value, t.txId)] else Received(txs, a)
  {
    ListsSnoc(txs, t, a);
    if t.sender != a {
      assert Sent(txs + [t], a) == Sent(txs, a);
    }
    if t.receiver != a {
      assert Received(txs + [t], a) == Received(txs, a);
    }
  }

  /** The forward list of the sender of a kept row grows by one edge. */
  lemma {:induction false} KeptRowAdjacency(txs: seq<Transaction>, t: Transaction)
    requires Kept(t)
    ensures AdjacencyOf(txs + [t])
      == AdjacencyOf(txs)[t.sender := OutEdges(Build(txs), t.sender) + [Edge(t.receiver, t.amount, t.epoch.value, t.txId)]]
  {
    SendersSnoc(txs, t);
    SilentAccounts(txs, t.sender);
    var m, m' := AdjacencyOf(txs), AdjacencyOf(txs + [t]);
    var e := Edge(t.receiver, t.amount, t.epoch.value, t.txId);
    assert m'.Keys == m.Keys + {t.sender};
    forall a | a in m' ensures m'[a] == m[t.sender := OutEdges(Build(txs), t.sender) + [e]][a] {
      KeptRowAccount(txs, t, a);
    }
  }

  /** The reverse list of the receiver of a kept row grows by one edge. */
  lemma {:induction false} KeptRowReverse(txs: seq<Transaction>, t: Transaction)
    requires Kept(t)
    ensures ReverseOf(txs + [t])
      == ReverseOf(txs)[t.receiver := InEdges(Build(txs), t.receiver) + [Edge(t.sender, t.amount, t.epoch.value, t.txId)]]
  {
    SendersSnoc(txs, t);
    SilentAccounts(txs, t.receiver);
    var m, m' := ReverseOf(txs), ReverseOf(txs + [t]);
    var e := Edge(t.sender, t.amount, t.epoch.value, t.txId);
    assert m'.Keys == m.Keys + {t.receiver};
    forall a | a in m' ensures m'[a] == m[t.receiver := InEdges(Build(txs), t.receiver) + [e]][a] {
      KeptRowAccount(txs, t, a);
    }
  }

  /** What one kept row adds to the counters of account `a`: one sent
      and one received transfer at most (both, for a self-transfer), and
      the row's epoch once for each, the sender's copy first. */
  function Record(s: Stats, t: Transaction, a: string): Stats
    requires Kept(t)
  {
    var sent := if a == t.sender then 1 else 0;
    var received := if a == t.receiver then 1 else 0;
    Stats(s.inDeg + received, s.outDeg + sent,
          s.totalIn + (if a == t.receiver then t.amount else 0.0),
          s.totalOut + (if a == t.sender then t.amount else 0.0),
          s.txCount + received + sent,
          s.epochs + (if a == t.sender then [t.epoch.value] else []) + (if a == t.receiver then [t.epoch.value] else []))
  }

  lemma SumSnoc(es: seq<Edge>, e: Edge)
    ensures SumAmounts(es + [e]) == SumAmounts(es) + e.amount
  {
    assert (es + [e])[..|es|] == es;
  }

  lemma {:induction false} KeptRowOut(txs: seq<Transaction>, t: Transaction, a: string)
    requires Kept(t)
    ensures |Sent(txs + [t], a)| == |Sent(txs, a)| + (if t.sender == a then 1 else 0)
    ensures SumAmounts(Sent(txs + [t], a)) == SumAmounts(Sent(txs, a)) + (if t.sender == a then t.amount else 0.0)
  {
    KeptRowAccount(txs, t, a);
    if t.sender == a {
      SumSnoc(Sent(txs, a), Edge(t.receiver, t.amount, t.epoch.value, t.txId));
    }
  }

  lemma {:induction false} KeptRowIn(txs: seq<Transaction>, t: Transaction, a: string)
    requires Kept(t)
    ensures |Received(txs + [t], a)| == |Received(txs, a)| + (if t.receiver == a then 1 else 0)
    ensures SumAmounts(Received(txs + [t], a)) == SumAmounts(Received(txs, a)) + (if t.receiver == a then t.amount else 0.0)
  {
    KeptRowAccount(txs, t, a);
    if t.receiver == a {
      SumSnoc(Received(txs, a), Edge(t.sender, t.amount, t.epoch.value, t.txId));
    }
  }

  /** The counters of account `a` after a kept row. */
  lemma {:induction false} KeptRowStats(txs: seq<Transaction>, t: Transaction, a: string)
    requires Kept(t)
    ensures StatsOf(txs + [t], a) == Record(StatsOf(txs, a), t, a)
  {
    KeptRowOut(txs, t, a);
    KeptRowIn(txs, t, a);
    ListsSnoc(txs, t, a);
  }

  /** The accounts with counters after a kept row. */
  lemma {:induction false} KeptRowStatsMap(txs: seq<Transaction>, t: Transaction)
    requires Kept(t)
    ensures StatsMap(txs + [t]).Keys == StatsMap(txs).Keys + {t.sender, t.receiver}
    ensures forall a :: a in StatsMap(txs + [t]) ==>
      StatsMap(txs + [t])[a] == Record(if a in StatsMap(txs) then StatsMap(txs)[a] else NoStats, t, a)
  {
    SendersSnoc(txs, t);
    var m, m' := StatsMap(txs), StatsMap(txs + [t]);
    assert m'.Keys == m.Keys + {t.sender, t.receiver};
    forall a | a in m'
      ensures m'[a] == Record(if a in m then m[a] else NoStats, t, a)
    {
      KeptRowStats(txs, t, a);
      if a !in m {
        SilentAccounts(txs, a);
        assert StatsOf(txs, a) == NoStats;
      }
    }
  }

  /** The accounts of a kept row enter `order` sender first, each once. */
  lemma {:induction false} KeptRowOrder(txs: seq<Transaction>, t: Transaction)
    requires Kept(t)
    ensures var before := Appearance(txs);
      var withSender := if t.sender in StatsMap(txs) then before else before + [t.sender];
      Appearance(txs + [t]) == if t.receiver in StatsMap(txs) || t.receiver == t.sender then withSender else withSender + [t.receiver]
  {
    PrefixOfSnoc(txs, t);
    AppearanceListsAccounts(txs);
  }

  // ---------------------------------------------------------------------
  // The builder.

  const EmptyGraph := Graph(map[], map[], [], map[])

  /** The updates the loop of `build_graph` makes for one row. */
  function AddRow(g: Graph, t: Transaction): Graph
  {
    if !Kept(t) then g
    else
      var sender, receiver, epoch := t.sender, t.receiver, t.epoch.value;
      var adjacency := g.adjacency[sender := OutEdges(g, sender) + [Edge(receiver, t.amount, epoch, t.txId)]];
      var reverseAdj := g.reverseAdj[receiver := InEdges(g, receiver) + [Edge(sender, t.amount, epoch, t.txId)]];
      var order1 := if sender in g.stats then g.order else g.order + [sender];
      var stats1 := if sender in g.stats then g.stats else g.stats[sender := NoStats];
      var order2 := if receiver in stats1 then order1 else order1 + [receiver];
      var stats2 := if receiver in stats1 then stats1 else stats1[receiver := NoStats];
      var s := stats2[sender];
      var stats3 := stats2[sender := s.(outDeg := s.outDeg + 1, totalOut := s.totalOut + t.amount,
                                        txCount := s.txCount + 1, epochs := s.epochs + [epoch])];
      var r := stats3[receiver];
      var stats4 := stats3[receiver := r.(inDeg := r.inDeg + 1, totalIn := r.totalIn + t.amount,
                                          txCount := r.txCount + 1, epochs := r.epochs + [epoch])];
      Graph(adjacency, reverseAdj, order2, stats4)
  }

  /** The loop of `build_graph` run over `txs`. */
  function Fold(txs: seq<Transaction>): Graph
  {
    if txs == [] then EmptyGraph else AddRow(Fold(txs[..|txs| - 1]), txs[|txs| - 1])
  }

  lemma AddRowStats(g: Graph, t: Transaction, a: string)
    requires Kept(t)
    ensures AddRow(g, t).stats.Keys == g.stats.Keys + {t.sender, t.receiver}
    ensures a in AddRow(g, t).stats ==>
      AddRow(g, t).stats[a] == Record(if a in g.stats then g.stats[a] else NoStats, t, a)
  {
  }

  lemma {:induction false} AddRowBuildStats(txs: seq<Transaction>, t: Transaction)
    requires Kept(t)
    ensures AddRow(Build(txs), t).stats == StatsMap(txs + [t])
  {
    var g := Build(txs);
    KeptRowStatsMap(txs, t);
    var n := AddRow(g, t).stats;
    var m' := StatsMap(txs + [t]);
    assert n.Keys == m'.Keys by {
      AddRowStats(g, t, t.sender);
    }
    forall a | a in n ensures n[a] == m'[a] {
      AddRowStats(g, t, a);
    }
  }

  /** One step of the loop keeps the graph equal to `Build` of the rows
      read so far. */
  lemma {:induction false} AddRowBuild(txs: seq<Transaction>, t: Transaction)
    ensures AddRow(Build(txs), t) == Build(txs + [t])
  {
    if !Kept(t) {
      SkippedRow(txs, t);
    } else {
      KeptRowAdjacency(txs, t);
      KeptRowReverse(txs, t);
      KeptRowOrder(txs, t);
      AddRowBuildStats(txs, t);
    }
  }

  lemma {:induction false} FoldIsBuild(txs: seq<Transaction>)
    ensures Fold(txs) == Build(txs)
  {
    if txs == [] {
      assert Build(txs).adjacency == map[];
      assert Build(txs).reverseAdj == map[];
      assert Build(txs).stats == map[];
    } else {
      var init := txs[..|txs| - 1];
      FoldIsBuild(init);
      AddRowBuild(init, txs[|txs| - 1]);
      assert init + [txs[|txs| - 1]] == txs;
    }
  }

  /** `build_graph(transactions)`. */
  method BuildGraph(txs: seq<Transaction>) returns (g: Graph)
    ensures g == Build(txs)
  {
    var adjacency: map<string, seq<Edge>> := map[];
    var reverseAdj: map<string, seq<Edge>> := map[];
    var order: seq<string> := [];
    var stats: map<string, Stats> := map[];
    for i := 0 to |txs|
      invariant Graph(adjacency, reverseAdj, order, stats) == Fold(txs[..i])
    {
      assert txs[..i + 1][..i] == txs[..i];
      adjacency, reverseAdj, order, stats := ReadRow(adjacency, reverseAdj, order, stats, txs[i]);
    }
    assert txs[..|txs|] == txs;
    FoldIsBuild(txs);
    g := Graph(adjacency, reverseAdj, order, stats);
  }

  /** One pass of the loop body of `build_graph`: a row without a
      timestamp is skipped, any other one is recorded in both adjacency
      lists and in the counters of its two accounts. */
  method ReadRow(adjacency: map<string, seq<Edge>>, reverseAdj: map<string, seq<Edge>>,
                 order: seq<string>, stats: map<string, Stats>, tx: Transaction)
    returns (adjacency': map<string, seq<Edge>>, reverseAdj': map<string, seq<Edge>>,
             order': seq<string>, stats': map<string, Stats>)
    ensures Graph(adjacency', reverseAdj', order', stats') == AddRow(Graph(adjacency, reverseAdj, order, stats), tx)
  {
    adjacency', reverseAdj', order', stats' := adjacency, reverseAdj, order, stats;
    if tx.epoch.None? {
      return;
    }
    var epoch := tx.epoch.value;
    var sender, receiver := tx.sender, tx.receiver;
    var out := if sender in adjacency' then adjacency'[sender] else [];
    adjacency' := adjacency'[sender := out + [Edge(receiver, tx.amount, epoch, tx.txId)]];
    var inc := if receiver in reverseAdj' then reverseAdj'[receiver] else [];
    reverseAdj' := reverseAdj'[receiver := inc + [Edge(sender, tx.amount, epoch, tx.txId)]];
    if sender !in stats' {
      stats' := stats'[sender := NoStats];
      order' := order' + [sender];
    }
    if receiver !in stats' {
      stats' := stats'[receiver := NoStats];
      order' := order' + [receiver];
    }
    var s := stats'[sender];
    stats' := stats'[sender := s.(outDeg := s.outDeg + 1, totalOut := s.totalOut + tx.amount,
                                  txCount := s.txCount + 1, epochs := s.epochs + [epoch])];
    var r := stats'[receiver];
    stats' := stats'[receiver := r.(inDeg := r.inDeg + 1, totalIn := r.totalIn + tx.amount,
                                    txCount := r.txCount + 1, epochs := r.epochs + [epoch])];
  }

}
