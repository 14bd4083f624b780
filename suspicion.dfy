/** The rest of `calculate_suspicion_scores`: account-level bonuses, the
    legitimate-account discount, the cap at 100 and the ring risk scores,
    and the whole function as the composition of its steps. */
module Suspicion {

  import opened TxGraph
  import Sorting
  import Smurfing
  import Shells
  import opened Scoring

  const VelocityMinEpochs: nat := 5
  /** The velocity test's bound on the mean gap between transactions, in
      seconds (one hour). */
  const VelocityMaxGap: int := 3600
  /** The degree anomaly fires when one degree exceeds five times the other. */
  const AnomalyRatio: real := 5.0
  /** The pass-through test: the smaller total is above 85% of the larger. */
  const PassThroughRatio: real := 0.85
  const PassThroughMinTx: nat := 4

  // ---------------------------------------------------------------------
  // Step 4: account-level bonuses

  function MaxR(x: real, y: real): real
  {
    if x >= y then x else y
  }

  function MinR(x: real, y: real): real
  {
    if x <= y then x else y
  }

  /** High velocity: five or more transactions whose mean gap, from the
      first to the last epoch, is positive and under an hour. */
  predicate FastPaced(epochs: seq<int>)
  {
    |epochs| >= VelocityMinEpochs
    && var sorted := Sorting.SortAsc(epochs);
       var gap := (sorted[|sorted| - 1] - sorted[0]) as real / (|sorted| - 1) as real;
       0.0 < gap < VelocityMaxGap as real
  }

  /** Degree anomaly: both degrees positive and one more than five times
      the other. */
  predicate Lopsided(s: Stats)
  {
    s.inDeg > 0 && s.outDeg > 0
    && MaxR(s.inDeg as real, s.outDeg as real) / MinR(s.inDeg as real, s.outDeg as real) > AnomalyRatio
  }

  /** Pass-through: money in and money out within 15% of each other, over
      four or more transactions. */
  predicate PassesThrough(s: Stats)
  {
    s.totalIn > 0.0 && s.totalOut > 0.0
    && MinR(s.totalIn, s.totalOut) / MaxR(s.totalIn, s.totalOut) > PassThroughRatio
    && s.txCount >= PassThroughMinTx
  }

  function Bonus(s: Stats): nat
  {
    (if FastPaced(s.epochs) then VelocityPoints else 0)
    + (if Lopsided(s) then AnomalyPoints else 0)
    + (if PassesThrough(s) then PassThroughPoints else 0)
  }

  function BonusTags(s: Stats): set<Tag>
  {
    (if FastPaced(s.epochs) then {HighVelocity} else {})
    + (if Lopsided(s) then {DegreeAnomaly} else {})
    + (if PassesThrough(s) then {PassThrough} else {})
  }

  /** The bonus of an account of `node_stats`; none for any other. */
  function BonusAt(g: Graph, a: string): nat
  {
    if a in g.stats then Bonus(g.stats[a]) else 0
  }

  function BonusTagsAt(g: Graph, a: string): set<Tag>
  {
    if a in g.stats then BonusTags(g.stats[a]) else {}
  }

  /** The three tests on one account of `node_stats`. */
  method AccountBonus(s: Stats) returns (points: nat, tags: set<Tag>)
    ensures points == Bonus(s) && tags == BonusTags(s)
  {
    points, tags := 0, {};
    var epochs := s.epochs;
    if |epochs| >= VelocityMinEpochs {
      var sorted := Sorting.SortAsc(epochs);
      var timeSpan := sorted[|sorted| - 1] - sorted[0];
      var avgInterval := timeSpan as real / (|sorted| - 1) as real;
      if 0.0 < avgInterval < VelocityMaxGap as real {
        points, tags := points + VelocityPoints, tags + {HighVelocity};
      }
    }
    if s.inDeg > 0 && s.outDeg > 0 {
      var ratio := MaxR(s.inDeg as real, s.outDeg as real) / MinR(s.inDeg as real, s.outDeg as real);
      if ratio > AnomalyRatio {
        points, tags := points + AnomalyPoints, tags + {DegreeAnomaly};
      }
    }
    if s.totalIn > 0.0 && s.totalOut > 0.0 {
      var passThrough := MinR(s.totalIn, s.totalOut) / MaxR(s.totalIn, s.totalOut);
      if passThrough > PassThroughRatio && s.txCount >= PassThroughMinTx {
        points, tags := points + PassThroughPoints, tags + {PassThrough};
      }
    }
  }

  /** The bonus loop over `node_stats`: every account of `g` gets its
      bonus points and tags, and nothing else on the board changes. */
  method AddBonuses(b: Board, g: Graph) returns (b': Board)
    requires NoDuplicates(g.order) && (forall a :: a in g.order <==> a in g.stats)
    requires forall a :: a in g.order ==> a in b.scores && a in b.tags
    ensures b'.scores.Keys == b.scores.Keys && b'.tags.Keys == b.tags.Keys
    ensures forall a :: a in b.scores ==> b'.scores[a] == b.scores[a] + BonusAt(g, a)
    ensures forall a :: a in b.tags ==> b'.tags[a] == b.tags[a] + BonusTagsAt(g, a)
    ensures b'.ringOf == b.ringOf && b'.order == b.order
  {
    b' := b;
    for i := 0 to |g.order|
      invariant Bonused(b, b', g, g.order[..i])
    {
      b' := AddBonus(b, b', g, i);
    }
    assert g.order[..|g.order|] == g.order;
    forall a | a in b.tags && a !in g.order ensures b.tags[a] + BonusTagsAt(g, a) == b.tags[a] {
      assert BonusTagsAt(g, a) == {};
    }
  }

  /** The board `b'` is `b` with the bonuses of the accounts in `done`. */
  ghost predicate Bonused(b: Board, b': Board, g: Graph, done: seq<string>)
  {
    && b'.scores.Keys == b.scores.Keys && b'.tags.Keys == b.tags.Keys
    && (forall a :: a in b.scores && a in done ==> b'.scores[a] == b.scores[a] + BonusAt(g, a))
    && (forall a :: a in b.scores && a !in done ==> b'.scores[a] == b.scores[a])
    && (forall a :: a in b.tags && a in done ==> b'.tags[a] == b.tags[a] + BonusTagsAt(g, a))
    && (forall a :: a in b.tags && a !in done ==> b'.tags[a] == b.tags[a])
    && b'.ringOf == b.ringOf && b'.order == b.order
  }

  /** The loop body for the `i`-th account of `node_stats`: its bonus
      points and tags are added, and the board moves on by that account. */
  method AddBonus(ghost b: Board, b': Board, g: Graph, i: nat) returns (b'': Board)
    requires NoDuplicates(g.order) && i < |g.order| && g.order[i] in g.stats
    requires Bonused(b, b', g, g.order[..i]) && g.order[i] in b.scores && g.order[i] in b.tags
    ensures b'' == b'.(scores := b'.scores[g.order[i] := b'.scores[g.order[i]] + BonusAt(g, g.order[i])],
                       tags := b'.tags[g.order[i] := b'.tags[g.order[i]] + BonusTagsAt(g, g.order[i])])
    ensures Bonused(b, b'', g, g.order[..i + 1])
  {
    var accountId := g.order[i];
    assert accountId !in g.order[..i] by {
      assert forall k :: 0 <= k < i ==> g.order[k] != accountId;
    }
    assert g.order[..i + 1] == g.order[..i] + [accountId];
    var points, tags := AccountBonus(g.stats[accountId]);
    b'' := b'.(scores := b'.scores[accountId := b'.scores[accountId] + points],
               tags := b'.tags[accountId := b'.tags[accountId] + tags]);
  }

  // ---------------------------------------------------------------------
  // Step 5: the legitimate discount

  /** The loop over `legitimate_accounts`, in whatever order the set
      yields them: a legitimate account with a score has it halved,
      rounded half to even, and is tagged; nothing else changes. */
  method DiscountLegitimate(b: Board, legitimate: set<string>) returns (b': Board)
    requires b.scores.Keys <= b.tags.Keys
    ensures b'.scores.Keys == b.scores.Keys && b'.tags.Keys == b.tags.Keys
    ensures forall a :: a in b.scores ==> b'.scores[a] == if a in legitimate then Halve(b.scores[a]) else b.scores[a]
    ensures forall a :: a in b.tags ==>
      b'.tags[a] == if a in legitimate && a in b.scores then b.tags[a] + {LikelyLegitimate} else b.tags[a]
    ensures b'.ringOf == b.ringOf && b'.order == b.order
  {
    b' := b;
    var remaining := legitimate;
    while remaining != {}
      invariant remaining <= legitimate
      invariant Discounted(b, b', legitimate - remaining)
      decreases |remaining|
    {
      var accountId :| accountId in remaining;
      b' := DiscountOne(b, b', legitimate, remaining, accountId);
      remaining := remaining - {accountId};
    }
    assert legitimate - remaining == legitimate;
  }

  /** The board `b'` is `b` with the accounts of `done` that have a score
      halved and tagged. */
  ghost predicate Discounted(b: Board, b': Board, done: set<string>)
  {
    && b'.scores.Keys == b.scores.Keys && b'.tags.Keys == b.tags.Keys
    && (forall a :: a in b.scores && a in done ==> b'.scores[a] == Halve(b.scores[a]))
    && (forall a :: a in b.scores && a !in done ==> b'.scores[a] == b.scores[a])
    && (forall a :: a in b.tags && a in done && a in b.scores ==> b'.tags[a] == b.tags[a] + {LikelyLegitimate})
    && (forall a :: a in b.tags && !(a in done && a in b.scores) ==> b'.tags[a] == b.tags[a])
    && b'.ringOf == b.ringOf && b'.order == b.order
  }

  /** The loop body for one legitimate account still to visit. */
  method DiscountOne(ghost b: Board, b': Board, ghost legitimate: set<string>, ghost remaining: set<string>,
                     a: string) returns (b'': Board)
    requires b.scores.Keys <= b.tags.Keys
    requires a in remaining && remaining <= legitimate && Discounted(b, b', legitimate - remaining)
    ensures b'' == if a in b'.scores then b'.(scores := b'.scores[a := Halve(b'.scores[a])],
                                              tags := b'.tags[a := b'.tags[a] + {LikelyLegitimate}])
                   else b'
    ensures Discounted(b, b'', legitimate - (remaining - {a}))
  {
    assert legitimate - (remaining - {a}) == (legitimate - remaining) + {a};
    if a in b'.scores {
      b'' := b'.(scores := b'.scores[a := Halve(b'.scores[a])],
                 tags := b'.tags[a := b'.tags[a] + {LikelyLegitimate}]);
    } else {
      b'' := b';
    }
  }

  // ---------------------------------------------------------------------
  // Step 6: the cap, and the ring risk scores

  /** The cap: `min(100, round(s * 10) / 10)`, which for a whole score `s`
      is `min(100, s)`. */
  method CapScores(scores: map<string, int>, order: seq<string>) returns (capped: map<string, real>)
    requires forall a :: a in order <==> a in scores
    ensures capped.Keys == scores.Keys
    ensures forall a :: a in capped ==> capped[a] == Min(MaxScore, scores[a]) as real
  {
    capped := map[];
    for i := 0 to |order|
      invariant capped.Keys == set k | 0 <= k < i :: order[k]
      invariant forall a :: a in capped ==> a in scores && capped[a] == Min(MaxScore, scores[a]) as real
    {
      var accountId := order[i];
      var s := scores[accountId];
      var tenths := RoundHalfEven((s * 10) as real);
      RoundWhole(s * 10);
      var v := tenths as real / 10.0;
      capped := capped[accountId := if MaxScore as real <= v then MaxScore as real else v];
    }
    assert forall a :: a in scores ==> a in capped by {
      forall a | a in scores ensures a in capped {
        var k :| 0 <= k < |order| && order[k] == a;
      }
    }
  }

  /** `sum(scores.get(a, 0) for a in members)` */
  function MemberSum(members: seq<string>, scores: map<string, real>): real
  {
    if members == [] then 0.0
    else MemberSum(members[..|members| - 1], scores)
         + (if members[|members| - 1] in scores then scores[members[|members| - 1]] else 0.0)
  }

  /** `round(mean * 10) / 10`: the mean member score to one decimal. */
  function Risk(members: seq<string>, scores: map<string, real>): real
    requires |members| > 0
  {
    RoundHalfEven(MemberSum(members, scores) / |members| as real * 10.0) as real / 10.0
  }

  /** A ring with its risk score set, when it has members. */
  function Rated(r: Ring, scores: map<string, real>): Ring
  {
    if |r.members| > 0 then r.(riskScore := Risk(r.members, scores)) else r
  }

  /** The loop over `cycle_rings` that sets each ring's risk score. */
  method RiskScores(rings: seq<Ring>, scores: map<string, real>) returns (rated: seq<Ring>)
    ensures |rated| == |rings|
    ensures forall k :: 0 <= k < |rings| ==> rated[k] == Rated(rings[k], scores)
  {
    rated := rings;
    for k := 0 to |rings|
      invariant |rated| == |rings|
      invariant forall i :: 0 <= i < k ==> rated[i] == Rated(rings[i], scores)
      invariant forall i :: k <= i < |rings| ==> rated[i] == rings[i]
    {
      var ring := rated[k];
      var members := ring.members;
      if |members| > 0 {
        var total := MemberSum(members, scores);
        var risk := RoundHalfEven(total / |members| as real * 10.0) as real / 10.0;
        rated := rated[k := ring.(riskScore := risk)];
      }
    }
  }

  // ---------------------------------------------------------------------
  // The whole function

  /** Every member visit of the three scoring loops. The loops over
      cycles, smurfing patterns and shell chains share one ring counter, so
      they are one loop over the detections in that order, from ring 1. */
  function Visits(cycles: seq<seq<string>>, patterns: seq<Smurfing.SmurfPattern>,
                  chains: seq<Shells.ShellChain>): seq<Visit>
  {
    AllVisits(Detections(cycles, patterns, chains), 1)
  }

  /** An account's points before the discount and the cap: its ring
      credits and its bonuses. */
  function RawScore(g: Graph, vs: seq<Visit>, a: string): nat
  {
    Hits(vs, a) + BonusAt(g, a)
  }

  /** Halved when legitimate, then capped at 100. */
  function FinalScore(raw: nat, legitimate: bool): int
  {
    Min(MaxScore, if legitimate then Halve(raw) else raw)
  }

  /** What `calculate_suspicion_scores` returns, with the key order of
      `scores` kept alongside. */
  datatype Assessment = Assessment(scores: map<string, real>, tags: map<string, set<Tag>>,
                                   ringOf: map<string, nat>, rings: seq<Ring>, order: seq<string>)

  /** The assessment `calculate_suspicion_scores` makes of the detections:
      every account of the graph and every ring member is scored, its ring
      credits plus its bonuses, halved when legitimate, capped at 100; its
      tags are the tags of its visits and bonuses, plus the legitimate tag;
      a ring member belongs to the ring of its first visit; and there is
      one ring per detection, rated by its members' final scores. */
  ghost predicate Scored(g: Graph, cycles: seq<seq<string>>, patterns: seq<Smurfing.SmurfPattern>,
                         chains: seq<Shells.ShellChain>, legitimate: set<string>, r: Assessment)
  {
    var vs := Visits(cycles, patterns, chains);
    && r.scores.Keys == g.stats.Keys + Accounts(vs)
    && (forall a :: a in r.scores ==> r.scores[a] == FinalScore(RawScore(g, vs, a), a in legitimate) as real)
    && r.tags.Keys == r.scores.Keys
    && (forall a :: a in r.tags ==>
          r.tags[a] == VisitTags(vs, a) + BonusTagsAt(g, a) + (if a in legitimate then {LikelyLegitimate} else {}))
    && r.ringOf.Keys == Accounts(vs)
    && (forall a :: a in r.ringOf ==> r.ringOf[a] == FirstRing(vs, a).value)
    && var rings := RingsOf(Detections(cycles, patterns, chains), 1);
       |r.rings| == |rings| && forall k :: 0 <= k < |rings| ==> r.rings[k] == Rated(rings[k], r.scores)
  }

  /** `calculate_suspicion_scores(node_stats, cycles, smurfing_patterns,
      shell_chains, legitimate_accounts)`. Every account of `node_stats` and
      every ring member is scored: its ring credits plus its bonuses,
      halved when legitimate, capped at 100. Its tags are the tags of its
      visits and bonuses, plus the legitimate tag. A ring member belongs to
      the ring of its first visit. Each ring is rated by its members'
      final scores. */
  method CalculateSuspicionScores(g: Graph, cycles: seq<seq<string>>, patterns: seq<Smurfing.SmurfPattern>,
                                  chains: seq<Shells.ShellChain>, legitimate: set<string>)
    returns (r: Assessment)
    requires NoDuplicates(g.order) && (forall a :: a in g.order <==> a in g.stats)
    ensures Scored(g, cycles, patterns, chains, legitimate, r)
    ensures forall a :: a in r.scores ==> 0.0 <= r.scores[a] <= MaxScore as real
    ensures forall k :: 0 <= k < |r.rings| ==> 0.0 <= r.rings[k].riskScore <= MaxScore as real
    ensures NoDuplicates(r.order) && (forall a :: a in r.order <==> a in r.scores)
    ensures |g.order| <= |r.order| && r.order[..|g.order|] == g.order
  {
    var b, rings := RingsAndBonuses(g, cycles, patterns, chains);
    ghost var vs := Visits(cycles, patterns, chains);
    var discounted := DiscountLegitimate(b, legitimate);
    var scores := CapScores(discounted.scores, discounted.order);
    forall a | a in scores
      ensures scores[a] == FinalScore(RawScore(g, vs, a), a in legitimate) as real
      ensures 0.0 <= scores[a] <= MaxScore as real
    {
      assert discounted.scores[a] == if a in legitimate then Halve(b.scores[a]) else b.scores[a];
      FinalScoreBounds(RawScore(g, vs, a), a in legitimate);
    }
    ghost var unrated := rings;
    rings := RiskScores(rings, scores);
    forall k | 0 <= k < |rings| ensures 0.0 <= rings[k].riskScore <= MaxScore as real {
      if |unrated[k].members| > 0 {
        RiskBounds(unrated[k].members, scores);
      }
    }
    r := Assessment(scores, discounted.tags, discounted.ringOf, rings, discounted.order);
  }

  /** Steps 1 to 4: the board opened, credited by the ring loops and given
      the account bonuses; and the rings, not yet rated. */
  method RingsAndBonuses(g: Graph, cycles: seq<seq<string>>, patterns: seq<Smurfing.SmurfPattern>,
                         chains: seq<Shells.ShellChain>)
    returns (b: Board, rings: seq<Ring>)
    requires NoDuplicates(g.order) && (forall a :: a in g.order <==> a in g.stats)
    ensures var vs := Visits(cycles, patterns, chains);
      && Consistent(b)
      && |g.order| <= |b.order| && b.order[..|g.order|] == g.order
      && b.scores.Keys == g.stats.Keys + Accounts(vs)
      && (forall a :: a in b.scores ==> b.scores[a] == RawScore(g, vs, a))
      && (forall a :: a in b.tags ==> b.tags[a] == VisitTags(vs, a) + BonusTagsAt(g, a))
      && b.ringOf.Keys == Accounts(vs)
      && (forall a :: a in b.ringOf ==> b.ringOf[a] == FirstRing(vs, a).value)
    ensures rings == RingsOf(Detections(cycles, patterns, chains), 1)
  {
    b := OpenBoard(g);
    b, rings := ScoreRings(b, Detections(cycles, patterns, chains), 1);
    RingBoard(g, Visits(cycles, patterns, chains));
    b := AddBonuses(b, g);
  }

  /** The board after the three ring loops, account by account. */
  lemma RingBoard(g: Graph, vs: seq<Visit>)
    requires NoDuplicates(g.order) && (forall a :: a in g.order <==> a in g.stats)
    ensures var b := Apply(Opened(g), vs);
      && Consistent(b)
      && |g.order| <= |b.order| && b.order[..|g.order|] == g.order
      && b.scores.Keys == g.stats.Keys + Accounts(vs)
      && (forall a :: a in b.scores ==> b.scores[a] == Hits(vs, a))
      && (forall a :: a in b.tags ==> b.tags[a] == VisitTags(vs, a))
      && b.ringOf.Keys == Accounts(vs)
      && (forall a :: a in b.ringOf ==> b.ringOf[a] == FirstRing(vs, a).value)
  {
    var b0 := Opened(g);
    ApplyKeys(b0, vs);
    ApplyRings(b0, vs);
    RingBoardCounts(g, vs);
  }

  /** The scores and tags the detections leave, starting from zero. */
  lemma RingBoardCounts(g: Graph, vs: seq<Visit>)
    ensures var b := Apply(Opened(g), vs);
      && (forall a :: a in b.scores ==> b.scores[a] == Hits(vs, a))
      && (forall a :: a in b.tags ==> b.tags[a] == VisitTags(vs, a))
  {
    var b0 := Opened(g);
    ApplyScores(b0, vs);
    ApplyTags(b0, vs);
    var b := Apply(b0, vs);
    forall a | a in b.scores ensures b.scores[a] == Hits(vs, a) {
      assert ScoreOf(b, a) == ScoreOf(b0, a) + Hits(vs, a);
    }
    forall a | a in b.tags ensures b.tags[a] == VisitTags(vs, a) {
      assert TagsOf(b, a) == TagsOf(b0, a) + VisitTags(vs, a);
    }
  }

  // ---------------------------------------------------------------------
  // Properties of the bonuses

  /** The velocity test without the sort and the division: at least five
      epochs, not all equal, and no two further apart than an hour per
      gap between them. */
  lemma FastPacedBySpan(epochs: seq<int>)
    ensures FastPaced(epochs) <==>
      |epochs| >= VelocityMinEpochs
      && (exists i, j :: 0 <= i < |epochs| && 0 <= j < |epochs| && epochs[i] != epochs[j])
      && (forall i, j :: 0 <= i < |epochs| && 0 <= j < |epochs| ==>
            epochs[i] - epochs[j] < VelocityMaxGap * (|epochs| - 1))
  {
    if |epochs| >= VelocityMinEpochs {
      var sorted := Sorting.SortAsc(epochs);
      var n := |sorted|;
      var lo, hi := sorted[0], sorted[n - 1];
      Extremes(epochs, sorted);
      GapBelow(hi - lo, n - 1);
      if exists i, j :: 0 <= i < n && 0 <= j < n && epochs[i] != epochs[j] {
        var i, j :| 0 <= i < n && 0 <= j < n && epochs[i] != epochs[j];
        assert lo < hi;
      }
      if lo < hi {
        assert epochs[Extreme(epochs, lo)] != epochs[Extreme(epochs, hi)];
      }
    }
  }

  /** The least and the greatest element of `epochs` lead and close its
      sorted copy; every element lies between them. */
  lemma Extremes(epochs: seq<int>, sorted: seq<int>)
    requires |sorted| == |epochs| > 0
    requires Sorting.Ascending(sorted) && multiset(sorted) == multiset(epochs)
    ensures sorted[0] in epochs && sorted[|sorted| - 1] in epochs
    ensures forall i :: 0 <= i < |epochs| ==> sorted[0] <= epochs[i] <= sorted[|sorted| - 1]
  {
    assert sorted[0] in multiset(sorted) && sorted[|sorted| - 1] in multiset(sorted);
    forall i | 0 <= i < |epochs| ensures sorted[0] <= epochs[i] <= sorted[|sorted| - 1] {
      assert epochs[i] in multiset(sorted);
      var k :| 0 <= k < |sorted| && sorted[k] == epochs[i];
    }
  }

  /** An index where `x` occurs. */
  function Extreme(epochs: seq<int>, x: int): (k: nat)
    requires x in epochs
    ensures k < |epochs| && epochs[k] == x
  {
    if epochs[0] == x then 0 else 1 + Extreme(epochs[1..], x)
  }

  /** `0 < span / gaps < 3600` over the reals is `0 < span < 3600 * gaps`
      over the integers. */
  lemma GapBelow(span: int, gaps: nat)
    requires gaps > 0
    ensures (0.0 < span as real / gaps as real < VelocityMaxGap as real) <==> 0 < span < VelocityMaxGap * gaps
  {
    QuotientCompare(span as real, gaps as real, 0.0);
    QuotientCompare(span as real, gaps as real, VelocityMaxGap as real);
  }

  /** Comparing a quotient with a bound is comparing the dividend with the
      bound times the divisor. */
  lemma QuotientCompare(x: real, y: real, c: real)
    requires y > 0.0
    ensures x / y > c <==> x > c * y
    ensures x / y < c <==> x < c * y
  {
    var q := x / y;
    assert q * y == x;
    assert (q - c) * y == x - c * y;
    if q > c {
      assert (q - c) * y > 0.0;
    } else if q < c {
      assert (c - q) * y > 0.0;
    }
  }

  /** The degree anomaly without the division: one degree more than five
      times the other, both positive. */
  lemma LopsidedByDegrees(s: Stats)
    ensures Lopsided(s) <==> s.inDeg > 0 && s.outDeg > 0 && (s.inDeg > 5 * s.outDeg || s.outDeg > 5 * s.inDeg)
  {
    if s.inDeg > 0 && s.outDeg > 0 {
      var hi, lo := MaxR(s.inDeg as real, s.outDeg as real), MinR(s.inDeg as real, s.outDeg as real);
      QuotientCompare(hi, lo, AnomalyRatio);
    }
  }

  /** The pass-through test without the division: each total more than
      85% of the other, over four or more transactions. */
  lemma PassesThroughByTotals(s: Stats)
    ensures PassesThrough(s) <==>
      s.totalIn > 0.0 && s.totalOut > 0.0
      && PassThroughRatio * s.totalIn < s.totalOut && PassThroughRatio * s.totalOut < s.totalIn
      && s.txCount >= PassThroughMinTx
  {
    if s.totalIn > 0.0 && s.totalOut > 0.0 {
      var hi, lo := MaxR(s.totalIn, s.totalOut), MinR(s.totalIn, s.totalOut);
      QuotientCompare(lo, hi, PassThroughRatio);
    }
  }

  /** Points are given exactly when tags are, a positive bonus is worth at
      least the five points of pass-through, and at most 25. */
  lemma BonusTagged(s: Stats)
    ensures Bonus(s) > 0 <==> BonusTags(s) != {}
    ensures Bonus(s) > 0 ==> Bonus(s) >= PassThroughPoints
    ensures Bonus(s) <= VelocityPoints + AnomalyPoints + PassThroughPoints
  {
    if FastPaced(s.epochs) {
      assert HighVelocity in BonusTags(s);
    } else if Lopsided(s) {
      assert DegreeAnomaly in BonusTags(s);
    } else if PassesThrough(s) {
      assert PassThrough in BonusTags(s);
    }
  }

  // ---------------------------------------------------------------------
  // Properties of the final scores

  /** A final score lies in [0, 100], is never raised by the discount, and
      is positive exactly when the raw points are at least 2, or 1 on an
      account that is not legitimate (half of 1 rounds to the even 0). */
  lemma FinalScoreBounds(raw: nat, legitimate: bool)
    ensures 0 <= FinalScore(raw, legitimate) <= MaxScore
    ensures FinalScore(raw, true) <= FinalScore(raw, false)
    ensures FinalScore(raw, legitimate) > 0 <==> raw >= 2 || (raw == 1 && !legitimate)
    ensures raw >= ConnectedPoints ==> FinalScore(raw, legitimate) >= 7
  {
    HalveBounds(raw);
  }

  /** An account ends with a positive score exactly when some ring takes it
      in or it earns a bonus: the discount never brings such an account down
      to zero, since a ring visit is worth at least 15 points and a bonus at
      least 5. */
  lemma Flagged(g: Graph, cycles: seq<seq<string>>, patterns: seq<Smurfing.SmurfPattern>,
                chains: seq<Shells.ShellChain>, legitimate: set<string>, a: string)
    ensures var vs := Visits(cycles, patterns, chains);
      FinalScore(RawScore(g, vs, a), a in legitimate) > 0 <==> a in Accounts(vs) || BonusAt(g, a) > 0
  {
    var vs := Visits(cycles, patterns, chains);
    VisitPoints(Detections(cycles, patterns, chains), 1);
    HitsAtLeast(vs, a);
    if a in g.stats {
      BonusTagged(g.stats[a]);
    }
    FinalScoreBounds(RawScore(g, vs, a), a in legitimate);
  }

  /** Every member of every ring is scored, with at least 7 points even
      after the discount, and belongs to a ring no later than this one. */
  lemma RingMembersFlagged(g: Graph, cycles: seq<seq<string>>, patterns: seq<Smurfing.SmurfPattern>,
                           chains: seq<Shells.ShellChain>, legitimate: set<string>, k: nat, a: string)
    requires k < |Detections(cycles, patterns, chains)| && a in Members(Detections(cycles, patterns, chains)[k])
    ensures var vs := Visits(cycles, patterns, chains);
      && a in Accounts(vs)
      && FinalScore(RawScore(g, vs, a), a in legitimate) >= 7
      && 1 <= FirstRing(vs, a).value <= k + 1
  {
    var ds := Detections(cycles, patterns, chains);
    var vs := Visits(cycles, patterns, chains);
    MembersVisited(ds, 1, a);
    VisitPoints(ds, 1);
    HitsAtLeast(vs, a);
    FinalScoreBounds(RawScore(g, vs, a), a in legitimate);
    var j := EarliestRing(ds, 0, k, a);
    FirstRingIsFirstDetection(ds, 1, j, a);
  }

  /** The first detection from `i` on, up to `k`, that has `a` as a
      member. */
  function EarliestRing(ds: seq<Detection>, i: nat, k: nat, a: string): (j: nat)
    requires i <= k < |ds| && a in Members(ds[k])
    requires forall h :: 0 <= h < i ==> a !in Members(ds[h])
    ensures i <= j <= k && a in Members(ds[j])
    ensures forall h :: 0 <= h < j ==> a !in Members(ds[h])
    decreases k - i
  {
    if a in Members(ds[i]) then i else EarliestRing(ds, i + 1, k, a)
  }

  /** Scores of [0, 100] rate every ring in [0, 100], within 0.05 of the
      exact mean of its members' scores. */
  lemma RiskBounds(members: seq<string>, scores: map<string, real>)
    requires |members| > 0
    requires forall a :: a in scores ==> 0.0 <= scores[a] <= MaxScore as real
    ensures 0.0 <= Risk(members, scores) <= MaxScore as real
    ensures var mean := MemberSum(members, scores) / |members| as real;
      -0.05 <= Risk(members, scores) - mean <= 0.05
  {
    var n := |members| as real;
    MemberSumBounds(members, scores);
    var mean := MemberSum(members, scores) / n;
    QuotientCompare(MemberSum(members, scores), n, 0.0);
    QuotientCompare(MemberSum(members, scores), n, MaxScore as real);
    var x := mean * 10.0;
    RoundWithin(x, 0, 10 * MaxScore);
    RoundNearest(x);
  }

  lemma {:induction false} MemberSumBounds(members: seq<string>, scores: map<string, real>)
    requires forall a :: a in scores ==> 0.0 <= scores[a] <= MaxScore as real
    ensures 0.0 <= MemberSum(members, scores) <= (|members| * MaxScore) as real
  {
    if members != [] {
      MemberSumBounds(members[..|members| - 1], scores);
    }
  }

}
