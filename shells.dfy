/** Pattern 3, layered shell networks: `detect_shell_networks` follows
    chains of money that leave an ordinary account and pass through
    "shell" accounts, accounts with only two or three transfers in all,
    at least one of them in and one out. */
module Shells {

  import opened Wrappers
  import opened TxGraph
  import Sorting

  const ShellTxMin: nat := 2
  const ShellTxMax: nat := 3
  /** A chain is reported from `MinChainLength` hops, i.e. one more account. */
  const MinChainLength: nat := 3
  const MaxChains: nat := 100
  /** A chain stops growing once it holds more accounts than this. */
  const MaxChainAccounts: nat := 10

  /** A reported chain: its accounts in order, the shell accounts among its
      intermediaries, and its number of hops. */
  datatype ShellChain = ShellChain(chain: seq<string>, shellAccounts: seq<string>, hopCount: nat)

  predicate IsShell(s: Stats)
  {
    ShellTxMin <= s.txCount <= ShellTxMax && s.inDeg > 0 && s.outDeg > 0
  }

  /** `potential_shells` */
  function Shells(g: Graph): set<string>
  {
    set a | a in g.order && a in g.stats && IsShell(g.stats[a])
  }

  /** The loop that collects `potential_shells`, over `node_stats` in order. */
  method PotentialShells(g: Graph) returns (shells: set<string>)
    requires forall a :: a in g.order ==> a in g.stats
    ensures shells == Shells(g)
  {
    shells := {};
    for i := 0 to |g.order|
      invariant shells == set a | a in g.order[..i] && IsShell(g.stats[a])
    {
      var accountId := g.order[i];
      assert g.order[..i + 1] == g.order[..i] + [accountId];
      if IsShell(g.stats[accountId]) {
        shells := shells + {accountId};
      }
    }
    assert g.order[..|g.order|] == g.order;
  }

  // ---------------------------------------------------------------------
  // Growing one chain

  /** A receiver the chain may move to: a shell (or, when `wantShell` is
      false, a non-shell) not yet in the chain. */
  predicate Qualifies(x: string, shells: set<string>, wantShell: bool, seen: set<string>)
  {
    (x in shells) == wantShell && x !in seen
  }

  /** The receiver of the first edge in `edges` that qualifies, if any. */
  function FirstReceiver(edges: seq<Edge>, shells: set<string>, wantShell: bool, seen: set<string>): (r: Option<string>)
    ensures r.Some? ==> exists i :: 0 <= i < |edges| && edges[i].peer == r.value && Qualifies(r.value, shells, wantShell, seen)
                                     && forall k :: 0 <= k < i ==> !Qualifies(edges[k].peer, shells, wantShell, seen)
    ensures r.None? ==> forall i :: 0 <= i < |edges| ==> !Qualifies(edges[i].peer, shells, wantShell, seen)
  {
    if edges == [] then None
    else if Qualifies(edges[0].peer, shells, wantShell, seen) then Some(edges[0].peer)
    else
      var r := FirstReceiver(edges[1..], shells, wantShell, seen);
      assert forall i :: 0 < i < |edges| ==> edges[i] == edges[1..][i - 1];
      r
  }

  /** One of the two `for edge in out_edges` scans: the first edge whose
      receiver qualifies. */
  method FindReceiver(edges: seq<Edge>, shells: set<string>, wantShell: bool, seen: set<string>)
    returns (found: Option<string>)
    ensures found == FirstReceiver(edges, shells, wantShell, seen)
  {
    found := None;
    var j := 0;
    while j < |edges|
      invariant j <= |edges|
      invariant FirstReceiver(edges[j..], shells, wantShell, seen) == FirstReceiver(edges, shells, wantShell, seen)
    {
      var receiver := edges[j].peer;
      assert edges[j..][1..] == edges[j + 1..];
      if Qualifies(receiver, shells, wantShell, seen) {
        found := Some(receiver);
        return;
      }
      j := j + 1;
    }
  }

  /** The chain grown from `chain` by the `while True` loop: step to the
      first unvisited shell receiver of the last account; when there is
      none, append the first unvisited non-shell receiver, if any, and stop;
      stop as well once the chain holds more than ten accounts. `seen` is
      `chain_visited`. */
  function GrowChain(g: Graph, shells: set<string>, chain: seq<string>, seen: set<string>): seq<string>
    requires 1 <= |chain| <= MaxChainAccounts
    decreases MaxChainAccounts - |chain|
  {
    var out := OutEdges(g, chain[|chain| - 1]);
    match FirstReceiver(out, shells, true, seen)
    case Some(x) =>
      if |chain| + 1 > MaxChainAccounts then chain + [x]
      else GrowChain(g, shells, chain + [x], seen + {x})
    case None =>
      match FirstReceiver(out, shells, false, seen)
      case Some(y) => chain + [y]
      case None => chain
  }

  function ChainFrom(g: Graph, shells: set<string>, start: string): seq<string>
  {
    GrowChain(g, shells, [start], {start})
  }

  /** The chain built from `start`, as the source builds it. */
  method BuildChain(g: Graph, shells: set<string>, start: string) returns (chain: seq<string>)
    ensures chain == ChainFrom(g, shells, start)
  {
    chain := [start];
    var current := start;
    var chainVisited := {start};
    while true
      invariant 1 <= |chain| <= MaxChainAccounts
      invariant current == chain[|chain| - 1]
      invariant GrowChain(g, shells, chain, chainVisited) == ChainFrom(g, shells, start)
      decreases MaxChainAccounts - |chain|
    {
      var outEdges := OutEdges(g, current);
      var next := FindReceiver(outEdges, shells, true, chainVisited);
      if next.None? {
        var exit := FindReceiver(outEdges, shells, false, chainVisited);
        if exit.Some? {
          chain := chain + [exit.value];
        }
        return;
      }
      chain := chain + [next.value];
      chainVisited := chainVisited + {next.value};
      current := next.value;
      if |chain| > MaxChainAccounts {
        return;
      }
    }
  }

  // ---------------------------------------------------------------------
  // The chains of the whole graph

  /** `chain[1:-1]` */
  function Intermediaries(chain: seq<string>): seq<string>
  {
    if |chain| < 2 then [] else chain[1..|chain| - 1]
  }

  /** `[a for a in intermediaries if a in potential_shells]` */
  function ShellsAmong(s: seq<string>, shells: set<string>): seq<string>
  {
    Sorting.Filter(s, x => x in shells)
  }

  predicate Kept(chain: seq<string>, shells: set<string>)
  {
    |chain| >= MinChainLength + 1 && |ShellsAmong(Intermediaries(chain), shells)| >= 1
  }

  function Record(chain: seq<string>, shells: set<string>): ShellChain
  {
    ShellChain(chain, ShellsAmong(Intermediaries(chain), shells), if |chain| == 0 then 0 else |chain| - 1)
  }

  /** The chains reported after visiting `starts` in order: nothing more
      once a hundred chains are reported, shells never start a chain, and a
      chain is kept when it is long enough and passes through a shell. */
  function ShellChains(g: Graph, shells: set<string>, starts: seq<string>): seq<ShellChain>
  {
    if starts == [] then []
    else
      var before := ShellChains(g, shells, starts[..|starts| - 1]);
      var start := starts[|starts| - 1];
      if |before| >= MaxChains || start in shells then before
      else
        var chain := ChainFrom(g, shells, start);
        if Kept(chain, shells) then before + [Record(chain, shells)] else before
  }

  /** `detect_shell_networks(adjacency, node_stats)`. */
  method DetectShellNetworks(g: Graph) returns (chains: seq<ShellChain>)
    requires forall a :: a in g.order ==> a in g.stats
    ensures chains == ShellChains(g, Shells(g), g.order)
  {
    var shells := PotentialShells(g);
    chains := [];
    var i := 0;
    while i < |g.order|
      invariant i <= |g.order|
      invariant chains == ShellChains(g, shells, g.order[..i])
    {
      if |chains| >= MaxChains {
        ChainsSaturate(g, shells, g.order, i);
        return;
      }
      ShellChainsStep(g, shells, g.order, i);
      chains := ChainFromStart(g, shells, g.order[i], chains);
      i := i + 1;
    }
    assert g.order[..i] == g.order;
  }

  /** The body of the outer loop for one start account: a chain is walked
      from a non-shell account and kept when long enough and through a
      shell. */
  method ChainFromStart(g: Graph, shells: set<string>, start: string, chains: seq<ShellChain>)
    returns (chains': seq<ShellChain>)
    ensures chains' == if start in shells then chains
      else if Kept(ChainFrom(g, shells, start), shells) then chains + [Record(ChainFrom(g, shells, start), shells)]
      else chains
  {
    chains' := chains;
    if start !in shells {
      var chain := BuildChain(g, shells, start);
      var shellIntermediaries := ShellsAmong(Intermediaries(chain), shells);
      if |chain| >= MinChainLength + 1 && |shellIntermediaries| >= 1 {
        chains' := chains + [ShellChain(chain, shellIntermediaries, |chain| - 1)];
      }
    }
  }

  /** One more start account, as the recursion takes it. */
  lemma ShellChainsStep(g: Graph, shells: set<string>, starts: seq<string>, i: nat)
    requires i < |starts|
    ensures var before, start := ShellChains(g, shells, starts[..i]), starts[i];
      ShellChains(g, shells, starts[..i + 1])
      == if |before| >= MaxChains || start in shells then before
         else if Kept(ChainFrom(g, shells, start), shells) then before + [Record(ChainFrom(g, shells, start), shells)]
         else before
  {
    assert starts[..i + 1][..i] == starts[..i];
  }

  /** Once a hundred chains are reported the rest of the accounts add
      nothing, so the `break` and the recursion agree. */
  lemma {:induction false} ChainsSaturate(g: Graph, shells: set<string>, starts: seq<string>, n: nat)
    requires n <= |starts| && |ShellChains(g, shells, starts[..n])| >= MaxChains
    ensures ShellChains(g, shells, starts) == ShellChains(g, shells, starts[..n])
    decreases |starts| - n
  {
    if n < |starts| {
      var init := starts[..|starts| - 1];
      assert init[..n] == starts[..n];
      ChainsSaturate(g, shells, init, n);
    } else {
      assert starts[..n] == starts;
    }
  }

  // ---------------------------------------------------------------------
  // What a chain is

  /** Account `a` sends to account `b`. */
  predicate Sends(g: Graph, a: string, b: string)
  {
    exists e :: e in OutEdges(g, a) && e.peer == b
  }

  /** The shape of a chain while it grows: it starts anywhere, every later
      account is a shell, no account repeats, each account sends to the
      next, and `seen` holds exactly its accounts. */
  ghost predicate Growing(g: Graph, shells: set<string>, chain: seq<string>, seen: set<string>)
  {
    && 1 <= |chain|
    && NoDuplicates(chain)
    && (forall i :: 1 <= i < |chain| ==> chain[i] in shells)
    && (forall i :: 0 <= i < |chain| - 1 ==> Sends(g, chain[i], chain[i + 1]))
    && (forall x :: x in seen <==> x in chain)
  }

  /** Growing keeps the accounts already in the chain, adds at most up to
      eleven accounts in all, repeats none, follows transfers, and only the
      last account added may be a non-shell. */
  lemma {:induction false} GrowChainShape(g: Graph, shells: set<string>, chain: seq<string>, seen: set<string>)
    requires 1 <= |chain| <= MaxChainAccounts && Growing(g, shells, chain, seen)
    ensures var r := GrowChain(g, shells, chain, seen);
      && |chain| <= |r| <= MaxChainAccounts + 1
      && r[..|chain|] == chain
      && NoDuplicates(r)
      && (forall i :: 1 <= i < |r| - 1 ==> r[i] in shells)
      && (forall i :: 0 <= i < |r| - 1 ==> Sends(g, r[i], r[i + 1]))
    decreases MaxChainAccounts - |chain|
  {
    var last := chain[|chain| - 1];
    var out := OutEdges(g, last);
    match FirstReceiver(out, shells, true, seen)
    case Some(x) =>
      var longer := chain + [x];
      Extended(g, shells, chain, seen, x);
      if |chain| + 1 <= MaxChainAccounts {
        GrowChainShape(g, shells, longer, seen + {x});
        var r := GrowChain(g, shells, longer, seen + {x});
        assert r[..|chain|] == r[..|longer|][..|chain|];
      } else {
        assert longer[..|chain|] == chain;
      }
    case None =>
      match FirstReceiver(out, shells, false, seen)
      case Some(y) =>
        var r := chain + [y];
        Extended(g, shells, chain, seen, y);
        assert r[..|chain|] == chain;
      case None =>
        assert chain[..|chain|] == chain;
  }

  /** One step of growth: a receiver of the last account that is not yet
      in the chain. */
  lemma Extended(g: Graph, shells: set<string>, chain: seq<string>, seen: set<string>, x: string)
    requires Growing(g, shells, chain, seen)
    requires x !in seen && Sends(g, chain[|chain| - 1], x)
    ensures var r := chain + [x];
      && NoDuplicates(r)
      && (forall i :: 1 <= i < |r| - 1 ==> r[i] in shells)
      && (forall i :: 0 <= i < |r| - 1 ==> Sends(g, r[i], r[i + 1]))
    ensures x in shells ==> Growing(g, shells, chain + [x], seen + {x})
  {
    var r := chain + [x];
    assert forall i :: 0 <= i < |chain| ==> r[i] == chain[i];
  }

  /** A reported layered chain: four to eleven distinct accounts, each
      sending to the next; the first is not a shell and every intermediary
      is one; `shellAccounts` lists all the intermediaries and `hopCount`
      counts the transfers. */
  ghost predicate Layered(g: Graph, shells: set<string>, c: ShellChain)
  {
    && MinChainLength + 1 <= |c.chain| <= MaxChainAccounts + 1
    && NoDuplicates(c.chain)
    && c.chain[0] !in shells
    && (forall i :: 1 <= i < |c.chain| - 1 ==> c.chain[i] in shells)
    && (forall i :: 0 <= i < |c.chain| - 1 ==> Sends(g, c.chain[i], c.chain[i + 1]))
    && c.shellAccounts == c.chain[1..|c.chain| - 1]
    && c.hopCount == |c.chain| - 1
  }

  /** Keeping everything, the filter gives back its input. */
  lemma {:induction false} KeepsAll(s: seq<string>, shells: set<string>)
    requires forall i :: 0 <= i < |s| ==> s[i] in shells
    ensures ShellsAmong(s, shells) == s
  {
    if s != [] {
      KeepsAll(s[1..], shells);
    }
  }

  /** The chain grown from an account that is not a shell has the layered
      shape once it is long enough, and the test for a shell intermediary
      then never rejects it: a chain is kept exactly when it holds four or
      more accounts. */
  lemma ChainFromShape(g: Graph, shells: set<string>, start: string)
    requires start !in shells
    ensures var chain := ChainFrom(g, shells, start);
      && |chain| >= 1 && chain[0] == start
      && (Kept(chain, shells) <==> |chain| >= MinChainLength + 1)
      && (Kept(chain, shells) ==> Layered(g, shells, Record(chain, shells)))
  {
    GrowChainShape(g, shells, [start], {start});
    var chain := ChainFrom(g, shells, start);
    assert chain[0] == start by {
      assert chain[..1] == [start];
    }
    if |chain| >= MinChainLength + 1 {
      var middle := Intermediaries(chain);
      assert forall i :: 0 <= i < |middle| ==> middle[i] == chain[i + 1];
      KeepsAll(middle, shells);
      assert middle[0] in ShellsAmong(middle, shells);
    }
  }

  /** `detect_shell_networks` reports at most a hundred chains, each
      layered and each starting at an account of `starts`. */
  lemma {:induction false} ShellChainsSound(g: Graph, shells: set<string>, starts: seq<string>)
    ensures |ShellChains(g, shells, starts)| <= MaxChains
    ensures forall c :: c in ShellChains(g, shells, starts) ==> Layered(g, shells, c) && c.chain[0] in starts
  {
    if starts != [] {
      var init := starts[..|starts| - 1];
      var start := starts[|starts| - 1];
      var before := ShellChains(g, shells, init);
      ShellChainsSound(g, shells, init);
      assert forall c :: c in before ==> c.chain[0] in starts by {
        assert forall x :: x in init ==> x in starts;
      }
      if |before| < MaxChains && start !in shells {
        ChainFromShape(g, shells, start);
        var chain := ChainFrom(g, shells, start);
        if Kept(chain, shells) {
          assert ShellChains(g, shells, starts) == before + [Record(chain, shells)];
        } else {
          assert ShellChains(g, shells, starts) == before;
        }
      } else {
        assert ShellChains(g, shells, starts) == before;
      }
    }
  }

}
