/** Pattern 2, smurfing: `detect_smurfing` looks for accounts that receive
    from (fan-in) or send to (fan-out) ten or more distinct counterparties,
    and `_compute_temporal_density` measures how tightly their transfers
    bunch in time: the largest share of them that fits in one 72-hour
    window. */
module Smurfing {

  import opened TxGraph
  import Sorting

  const FanInThreshold: nat := 10
  const FanOutThreshold: nat := 10
  /** `TEMPORAL_WINDOW_S`: 72 hours, in seconds. */
  const TemporalWindow: nat := 72 * 3600

  datatype Kind = FanIn | FanOut

  /** A detected pattern. `connected` lists the distinct counterparties,
      `txCount` and `totalAmount` count and sum every transfer of the
      centre in that direction. */
  datatype SmurfPattern = SmurfPattern(
    kind: Kind,
    center: string,
    connected: seq<string>,
    temporalScore: real,
    totalAmount: real,
    txCount: nat)

  // ---------------------------------------------------------------------
  // Temporal density

  /** How many of the epochs at or before position `i`, from position `k`
      on, lie within `w` seconds before `s[i]`. The boundary is inclusive. */
  function CountWithin(s: seq<int>, i: nat, w: int, k: nat): nat
    requires i < |s| && k <= i + 1
    decreases i + 1 - k
  {
    if k > i then 0
    else (if s[i] - s[k] <= w then 1 else 0) + CountWithin(s, i, w, k + 1)
  }

  /** The size of the window of length `w` that ends at position `i`. */
  function Window(s: seq<int>, i: nat, w: int): nat
    requires i < |s|
  {
    CountWithin(s, i, w, 0)
  }

  /** The largest window ending at one of the first `n` positions. */
  function MaxWindow(s: seq<int>, w: int, n: nat): nat
    requires n <= |s|
  {
    if n == 0 then 0 else Max(MaxWindow(s, w, n - 1), Window(s, n - 1, w))
  }

  function Max(a: nat, b: nat): nat
  {
    if a >= b then a else b
  }

  /** The value `_compute_temporal_density` returns: 0 for fewer than two
      epochs, otherwise the largest window of the sorted epochs as a share
      of all of them. */
  function DensityScore(epochs: seq<int>, w: nat): real
  {
    if |epochs| < 2 then 0.0
    else
      var s := Sorting.SortAsc(epochs);
      MaxWindow(s, w, |s|) as real / |s| as real
  }

  /** From position `k` on, every epoch up to `i` that is not before the
      window start counts. */
  lemma {:induction false} CountAll(s: seq<int>, i: nat, w: int, start: nat, k: nat)
    requires Sorting.Ascending(s) && start <= k <= i + 1 && start <= i < |s|
    requires s[i] - s[start] <= w
    ensures CountWithin(s, i, w, k) == i + 1 - k
    decreases i + 1 - k
  {
    if k <= i {
      CountAll(s, i, w, start, k + 1);
    }
  }

  /** Epochs before the window start count for nothing. */
  lemma {:induction false} CountSkip(s: seq<int>, i: nat, w: int, start: nat, k: nat)
    requires k <= start <= i < |s|
    requires forall j :: 0 <= j < start ==> s[i] - s[j] > w
    ensures CountWithin(s, i, w, k) == CountWithin(s, i, w, start)
    decreases start - k
  {
    if k < start {
      CountSkip(s, i, w, start, k + 1);
    }
  }

  /** In sorted epochs the window ending at `i` runs from the first position
      within `w` of `s[i]` through `i`. */
  lemma WindowFromStart(s: seq<int>, i: nat, w: int, start: nat)
    requires Sorting.Ascending(s) && start <= i < |s|
    requires forall j :: 0 <= j < start ==> s[i] - s[j] > w
    requires s[i] - s[start] <= w
    ensures Window(s, i, w) == i - start + 1
  {
    CountSkip(s, i, w, start, 0);
    CountAll(s, i, w, start, start);
  }

  /** `_compute_temporal_density(epochs, window)`: sorts the epochs, then
      slides the window start forward as the end advances, keeping the
      largest window seen. */
  method TemporalDensity(epochs: seq<int>, window: nat) returns (score: real)
    ensures score == DensityScore(epochs, window)
  {
    if |epochs| < 2 {
      return 0.0;
    }
    var s := Sorting.SortAsc(epochs);
    var maxInWindow := 0;
    var winStart := 0;
    for i := 0 to |s|
      invariant winStart <= i
      invariant i < |s| ==> forall j :: 0 <= j < winStart ==> s[i] - s[j] > window
      invariant maxInWindow == MaxWindow(s, window, i)
    {
      winStart := SlideStart(s, window, i, winStart);
      WindowFromStart(s, i, window, winStart);
      maxInWindow := Max(maxInWindow, i - winStart + 1);
      if i + 1 < |s| {
        assert s[i] <= s[i + 1];
      }
    }
    score := maxInWindow as real / |s| as real;
  }

  /** The inner `while` loop: moves the window start past every epoch more
      than `window` seconds before `s[i]`. */
  method SlideStart(s: seq<int>, window: nat, i: nat, start: nat) returns (winStart: nat)
    requires Sorting.Ascending(s) && start <= i < |s|
    requires forall j :: 0 <= j < start ==> s[i] - s[j] > window
    ensures start <= winStart <= i && s[i] - s[winStart] <= window
    ensures forall j :: 0 <= j < winStart ==> s[i] - s[j] > window
  {
    winStart := start;
    while s[i] - s[winStart] > window
      invariant winStart <= i
      invariant forall j :: 0 <= j < winStart ==> s[i] - s[j] > window
      decreases i - winStart
    {
      winStart := winStart + 1;
    }
  }

  /** Every window holds at least its own end and at most everything up to
      it. */
  lemma {:induction false} WindowBounds(s: seq<int>, i: nat, w: nat)
    requires i < |s|
    ensures 1 <= Window(s, i, w) <= i + 1
  {
    CountAtMost(s, i, w, 0);
    CountEnd(s, i, w, 0);
  }

  lemma {:induction false} CountAtMost(s: seq<int>, i: nat, w: int, k: nat)
    requires i < |s| && k <= i + 1
    ensures CountWithin(s, i, w, k) <= i + 1 - k
    decreases i + 1 - k
  {
    if k <= i {
      CountAtMost(s, i, w, k + 1);
    }
  }

  lemma {:induction false} CountEnd(s: seq<int>, i: nat, w: nat, k: nat)
    requires i < |s| && k <= i
    ensures CountWithin(s, i, w, k) >= 1
    decreases i - k
  {
    if k < i {
      CountEnd(s, i, w, k + 1);
    }
  }

  /** `MaxWindow` is the size of the largest window: no window ending in the
      first `n` positions is larger, one of them is that large, and it lies
      between 1 and `n`. */
  lemma {:induction false} MaxWindowIsLargest(s: seq<int>, w: nat, n: nat)
    requires 1 <= n <= |s|
    ensures forall i :: 0 <= i < n ==> Window(s, i, w) <= MaxWindow(s, w, n)
    ensures exists i :: 0 <= i < n && Window(s, i, w) == MaxWindow(s, w, n)
    ensures 1 <= MaxWindow(s, w, n) <= n
  {
    WindowBounds(s, n - 1, w);
    if n > 1 {
      MaxWindowIsLargest(s, w, n - 1);
    }
  }

  /** With two or more epochs the density is a positive share, at most 1.
      So on its own the `temporal_score > 0` test rejects nothing once the
      ten-transfer gate has passed. */
  lemma DensityPositive(epochs: seq<int>, w: nat)
    requires |epochs| >= 2
    ensures 0.0 < DensityScore(epochs, w) <= 1.0
  {
    var s := Sorting.SortAsc(epochs);
    MaxWindowIsLargest(s, w, |s|);
    ShareBounds(MaxWindow(s, w, |s|), |s|);
  }

  lemma ShareBounds(m: nat, n: nat)
    requires 1 <= m <= n
    ensures 0.0 < m as real / n as real <= 1.0
  {
    assert m as real / n as real <= n as real / n as real;
  }

  /** The window is closed: two transfers up to and including 72 hours
      apart share one, any further apart and they do not. */
  lemma InclusiveBoundary(gap: nat)
    ensures DensityScore([0, gap], TemporalWindow) == if gap <= TemporalWindow then 1.0 else 0.5
  {
    var w, s := TemporalWindow, [0, gap];
    assert s[1..] == [gap];
    assert Sorting.SortAsc([gap]) == [gap] by {
      assert [gap][1..] == [];
    }
    assert Sorting.SortAsc(s) == s;
    assert Window(s, 0, w) == 1;
    assert Window(s, 1, w) == if gap <= w then 2 else 1;
    assert MaxWindow(s, w, 1) == 1;
  }

  // ---------------------------------------------------------------------
  // Patterns

  /** `[t["epoch"] for t in edges]` */
  function EpochsOf(edges: seq<Edge>): seq<int>
  {
    seq(|edges|, i requires 0 <= i < |edges| => edges[i].epoch)
  }

  /** `list(set(t[peer] for t in edges))`: each counterparty once. Python's
      set order is unspecified; this lists them by first appearance. */
  function DistinctPeers(edges: seq<Edge>): (r: seq<string>)
    ensures NoDuplicates(r)
    ensures forall x :: x in r <==> exists i :: 0 <= i < |edges| && edges[i].peer == x
  {
    if edges == [] then []
    else
      var init := edges[..|edges| - 1];
      var last := edges[|edges| - 1].peer;
      var before := DistinctPeers(init);
      assert forall i :: 0 <= i < |init| ==> init[i] == edges[i];
      if last in before then before else before + [last]
  }

  /** The pattern centred on `center` over its transfers `edges` in one
      direction, once the degree test has passed: the temporal score must
      be positive and there must be `threshold` or more distinct
      counterparties. */
  function PatternOf(kind: Kind, center: string, edges: seq<Edge>, threshold: nat): seq<SmurfPattern>
  {
    var score := DensityScore(EpochsOf(edges), TemporalWindow);
    if score > 0.0 then
      var peers := DistinctPeers(edges);
      if |peers| >= threshold then
        [SmurfPattern(kind, center, peers, score, SumAmounts(edges), |edges|)]
      else []
    else []
  }

  /** The fan-in pattern of account `a`, if it has one. */
  function FanInOf(g: Graph, a: string): seq<SmurfPattern>
    requires a in g.stats
  {
    if g.stats[a].inDeg >= FanInThreshold then PatternOf(FanIn, a, InEdges(g, a), FanInThreshold) else []
  }

  /** The fan-out pattern of account `a`, if it has one. */
  function FanOutOf(g: Graph, a: string): seq<SmurfPattern>
    requires a in g.stats
  {
    if g.stats[a].outDeg >= FanOutThreshold then PatternOf(FanOut, a, OutEdges(g, a), FanOutThreshold) else []
  }

  /** The patterns of `accounts`, in order, fan-in before fan-out. */
  function Smurfing(g: Graph, accounts: seq<string>): seq<SmurfPattern>
    requires forall a :: a in accounts ==> a in g.stats
  {
    if accounts == [] then []
    else
      var a := accounts[|accounts| - 1];
      Smurfing(g, accounts[..|accounts| - 1]) + FanInOf(g, a) + FanOutOf(g, a)
  }

  /** `detect_smurfing(adjacency, reverse_adj, node_stats)`. */
  method DetectSmurfing(g: Graph) returns (patterns: seq<SmurfPattern>)
    requires forall a :: a in g.order ==> a in g.stats
    ensures patterns == Smurfing(g, g.order)
  {
    patterns := [];
    for i := 0 to |g.order|
      invariant patterns == Smurfing(g, g.order[..i])
    {
      var accountId := g.order[i];
      var found := AccountPatterns(g, accountId);
      SmurfingStep(g, g.order, i);
      patterns := patterns + found;
    }
    assert g.order[..|g.order|] == g.order;
  }

  lemma SmurfingStep(g: Graph, accounts: seq<string>, i: nat)
    requires forall a :: a in accounts ==> a in g.stats
    requires i < |accounts|
    ensures Smurfing(g, accounts[..i + 1])
            == Smurfing(g, accounts[..i]) + FanInOf(g, accounts[i]) + FanOutOf(g, accounts[i])
  {
    assert accounts[..i + 1][..i] == accounts[..i];
  }

  /** One iteration of `detect_smurfing`'s loop: the fan-in test, then the
      fan-out test, for `accountId`. */
  method AccountPatterns(g: Graph, accountId: string) returns (patterns: seq<SmurfPattern>)
    requires accountId in g.stats
    ensures patterns == FanInOf(g, accountId) + FanOutOf(g, accountId)
  {
    patterns := [];
    var stats := g.stats[accountId];
    if stats.inDeg >= FanInThreshold {
      patterns := TestDirection(FanIn, accountId, InEdges(g, accountId), FanInThreshold);
    }
    if stats.outDeg >= FanOutThreshold {
      var fanOut := TestDirection(FanOut, accountId, OutEdges(g, accountId), FanOutThreshold);
      patterns := patterns + fanOut;
    }
  }

  /** The body of either test once the degree gate has passed: the
      temporal score, then the distinct counterparties. */
  method TestDirection(kind: Kind, center: string, edges: seq<Edge>, threshold: nat)
    returns (patterns: seq<SmurfPattern>)
    ensures patterns == PatternOf(kind, center, edges, threshold)
  {
    patterns := [];
    var temporalScore := TemporalDensity(EpochsOf(edges), TemporalWindow);
    if temporalScore > 0.0 {
      var peers := DistinctPeers(edges);
      if |peers| >= threshold {
        patterns := [SmurfPattern(kind, center, peers, temporalScore, SumAmounts(edges), |edges|)];
      }
    }
  }

  /** What a reported pattern promises: its centre is one of the accounts
      searched and has ten or more transfers in that direction; the
      connected accounts are exactly its distinct counterparties, ten or
      more of them, each once; the count and the total cover every transfer
      in that direction; the score is a positive share. */
  ghost predicate Reported(g: Graph, p: SmurfPattern)
  {
    && p.center in g.stats
    && var edges := if p.kind == FanIn then InEdges(g, p.center) else OutEdges(g, p.center);
       && (if p.kind == FanIn then g.stats[p.center].inDeg >= FanInThreshold
           else g.stats[p.center].outDeg >= FanOutThreshold)
       && |p.connected| >= 10
       && NoDuplicates(p.connected)
       && (forall x :: x in p.connected <==> exists i :: 0 <= i < |edges| && edges[i].peer == x)
       && p.txCount == |edges|
       && p.totalAmount == SumAmounts(edges)
       && 0.0 < p.temporalScore <= 1.0
  }

  /** Every pattern `detect_smurfing` reports meets `Reported`:
      the gates hold and its counterparties, count and total are exact; and
      it is centred on one of the accounts searched. */
  lemma {:induction false} SmurfingSound(g: Graph, accounts: seq<string>)
    requires forall a :: a in accounts ==> a in g.stats
    ensures forall p :: p in Smurfing(g, accounts) ==> Reported(g, p) && p.center in accounts
  {
    if accounts != [] {
      var init := accounts[..|accounts| - 1];
      var a := accounts[|accounts| - 1];
      SmurfingSound(g, init);
      FanInReported(g, a);
      FanOutReported(g, a);
    }
  }

  lemma FanInReported(g: Graph, a: string)
    requires a in g.stats
    ensures forall p :: p in FanInOf(g, a) ==> Reported(g, p) && p.center == a
  {
    if FanInOf(g, a) != [] {
      var edges := InEdges(g, a);
      var p := FanInOf(g, a)[0];
      assert FanInOf(g, a) == PatternOf(FanIn, a, edges, FanInThreshold) == [p];
      DensityPositive(EpochsOf(edges), TemporalWindow);
      assert Reported(g, p);
    }
  }

  lemma FanOutReported(g: Graph, a: string)
    requires a in g.stats
    ensures forall p :: p in FanOutOf(g, a) ==> Reported(g, p) && p.center == a
  {
    if FanOutOf(g, a) != [] {
      var edges := OutEdges(g, a);
      var p := FanOutOf(g, a)[0];
      assert FanOutOf(g, a) == PatternOf(FanOut, a, edges, FanOutThreshold) == [p];
      DensityPositive(EpochsOf(edges), TemporalWindow);
      assert Reported(g, p);
    }
  }

  /** The patterns found among the first accounts stay among those found
      for all of them. */
  lemma {:induction false} SmurfingGrows(g: Graph, accounts: seq<string>, n: nat)
    requires forall a :: a in accounts ==> a in g.stats
    requires n <= |accounts|
    ensures forall p :: p in Smurfing(g, accounts[..n]) ==> p in Smurfing(g, accounts)
    decreases |accounts| - n
  {
    if n < |accounts| {
      var init := accounts[..|accounts| - 1];
      assert accounts[..n] == init[..n];
      SmurfingGrows(g, init, n);
    } else {
      assert accounts[..n] == accounts;
    }
  }

  /** Conversely, on a well-formed graph every searched account with ten or
      more incoming transfers from ten or more distinct senders is reported
      as a fan-in centre, and likewise for fan-out: the temporal gate never
      rejects. */
  lemma SmurfingComplete(g: Graph, accounts: seq<string>, a: string)
    requires WellFormed(g) && forall b :: b in accounts ==> b in g.stats
    requires a in accounts
    ensures g.stats[a].inDeg >= FanInThreshold && |DistinctPeers(InEdges(g, a))| >= FanInThreshold ==>
              exists p :: p in Smurfing(g, accounts) && p.kind == FanIn && p.center == a
    ensures g.stats[a].outDeg >= FanOutThreshold && |DistinctPeers(OutEdges(g, a))| >= FanOutThreshold ==>
              exists p :: p in Smurfing(g, accounts) && p.kind == FanOut && p.center == a
  {
    PatternsKept(g, accounts, a);
    if g.stats[a].inDeg >= FanInThreshold && |DistinctPeers(InEdges(g, a))| >= FanInThreshold {
      DensityPositive(EpochsOf(InEdges(g, a)), TemporalWindow);
      assert FanInOf(g, a)[0] in FanInOf(g, a) + FanOutOf(g, a);
    }
    if g.stats[a].outDeg >= FanOutThreshold && |DistinctPeers(OutEdges(g, a))| >= FanOutThreshold {
      DensityPositive(EpochsOf(OutEdges(g, a)), TemporalWindow);
      assert FanOutOf(g, a)[0] in FanInOf(g, a) + FanOutOf(g, a);
    }
  }

  /** The patterns of a searched account are among those reported. */
  lemma PatternsKept(g: Graph, accounts: seq<string>, a: string)
    requires forall b :: b in accounts ==> b in g.stats
    requires a in accounts
    ensures forall p :: p in FanInOf(g, a) + FanOutOf(g, a) ==> p in Smurfing(g, accounts)
  {
    var n :| 0 <= n < |accounts| && accounts[n] == a;
    var upTo := accounts[..n + 1];
    assert upTo[..n] == accounts[..n] && upTo[n] == a;
    SmurfingGrows(g, accounts, n + 1);
    assert Smurfing(g, upTo) == Smurfing(g, accounts[..n]) + FanInOf(g, a) + FanOutOf(g, a);
  }
}
