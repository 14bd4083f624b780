/** Suspicion scoring: `calculate_suspicion_scores` turns the detected
    cycles, smurfing patterns and shell chains into fraud rings, credits
    every member of a ring with points, adds bonuses for account-level
    anomalies, halves the score of legitimate-looking accounts, caps
    scores at 100 and gives each ring the mean score of its members. */
module Scoring {

  import opened Wrappers
  import opened TxGraph
  import Lex
  import Sorting
  import Smurfing
  import Shells

  const CyclePoints: nat := 30
  const CenterPoints: nat := 25
  const ConnectedPoints: nat := 15
  const ShellPoints: nat := 20
  const VelocityPoints: nat := 10
  const AnomalyPoints: nat := 10
  const PassThroughPoints: nat := 5
  const MaxScore: int := 100

  /** The entries of an account's `patterns` set. */
  datatype Tag =
    | CycleLength(length: nat)           // "cycle_length_<n>"
    | Pattern(kind: Smurfing.Kind)       // "fan_in" / "fan_out", on the centre
    | SmurfingMember(kind: Smurfing.Kind) // "smurfing_fan_in" / "smurfing_fan_out"
    | HighVelocity                       // "high_velocity"
    | ShellNetwork                       // "shell_network"
    | ShellIntermediary                  // "shell_intermediary"
    | DegreeAnomaly                      // "degree_anomaly"
    | PassThrough                        // "pass_through"
    | LikelyLegitimate                   // "likely_legitimate"

  // ---------------------------------------------------------------------
  // Python's round(): to the nearest integer, ties to the even one

  function RoundHalfEven(x: real): int
  {
    var f := x.Floor;
    var d := x - f as real;
    if d < 0.5 then f
    else if d > 0.5 then f + 1
    else if f % 2 == 0 then f else f + 1
  }

  /** `round` picks an integer at most one half away, and the even one when
      two are exactly one half away. */
  lemma RoundNearest(x: real)
    ensures var r := RoundHalfEven(x);
      && -0.5 <= r as real - x <= 0.5
      && ((r as real - x == 0.5 || x - r as real == 0.5) ==> r % 2 == 0)
  {
  }

  /** Rounding stays between integer bounds of its argument. */
  lemma RoundWithin(x: real, lo: int, hi: int)
    requires lo as real <= x <= hi as real
    ensures lo <= RoundHalfEven(x) <= hi
  {
  }

  /** `round(score * 0.5)`: half a score, rounded half to even. */
  function Halve(n: int): int
  {
    RoundHalfEven(n as real * 0.5)
  }

  /** Halving a score loses at most a half point either way, keeps it
      non-negative, and rounds an odd score to the even neighbour. */
  lemma HalveBounds(n: nat)
    ensures 0 <= Halve(n) && n <= 2 * Halve(n) + 1 && 2 * Halve(n) <= n + 1
    ensures n % 2 == 0 ==> 2 * Halve(n) == n
    ensures n % 2 == 1 ==> Halve(n) % 2 == 0
  {
    RoundNearest(n as real * 0.5);
  }

  /** `round(s * 10) / 10` of a whole score is that score. */
  lemma RoundWhole(n: int)
    ensures RoundHalfEven(n as real) == n
  {
  }

  function Min(a: int, b: int): int
  {
    if a <= b then a else b
  }

  // ---------------------------------------------------------------------
  // Ring identifiers

  function Zeros(k: nat): (z: string)
    ensures |z| == k && forall i :: 0 <= i < k ==> z[i] == '0'
  {
    seq(k, _ => '0')
  }

  /** `f"{n:03d}"`: at least three digits, padded with zeros on the left. */
  function Pad3(d: string): string
  {
    if |d| >= 3 then d else Zeros(3 - |d|) + d
  }

  /** `f"RING_{n:03d}"` */
  function RingId(n: nat): string
  {
    "RING_" + Pad3(Lex.Digits(n))
  }

  lemma LeadingDigit(n: nat)
    requires n >= 1
    ensures Lex.Digits(n)[0] != '0'
  {
  }

  /** Drops leading zeros. */
  function StripZeros(s: string): string
  {
    if |s| > 0 && s[0] == '0' then StripZeros(s[1..]) else s
  }

  lemma {:induction false} StripPadding(k: nat, d: string)
    requires |d| >= 1 && d[0] != '0'
    ensures StripZeros(Zeros(k) + d) == d
  {
    if k > 0 {
      assert (Zeros(k) + d)[1..] == Zeros(k - 1) + d;
      StripPadding(k - 1, d);
    } else {
      assert Zeros(k) + d == d;
    }
  }

  /** Padding is one-to-one on digit strings without a leading zero: the
      zeros it adds can be stripped off again. */
  lemma PadInjective(d: string, e: string)
    requires |d| >= 1 && |e| >= 1 && d[0] != '0' && e[0] != '0'
    requires Pad3(d) == Pad3(e)
    ensures d == e
  {
    StripPadding(if |d| >= 3 then 0 else 3 - |d|, d);
    StripPadding(if |e| >= 3 then 0 else 3 - |e|, e);
    assert Pad3(d) == (if |d| >= 3 then Zeros(0) + d else Zeros(3 - |d|) + d);
    assert Pad3(e) == (if |e| >= 3 then Zeros(0) + e else Zeros(3 - |e|) + e);
  }

  /** Ring numbers, from 1 on, get distinct identifiers. */
  lemma RingIdInjective(m: nat, n: nat)
    requires m >= 1 && n >= 1 && RingId(m) == RingId(n)
    ensures m == n
  {
    var pm, pn := Pad3(Lex.Digits(m)), Pad3(Lex.Digits(n));
    assert pm == RingId(m)[5..] == RingId(n)[5..] == pn;
    LeadingDigit(m);
    LeadingDigit(n);
    PadInjective(Lex.Digits(m), Lex.Digits(n));
    Lex.DigitsInjective(m, n);
  }

  // ---------------------------------------------------------------------
  // Rings and the credits they hand out

  /** One detection, in the order the three scoring loops take them. */
  datatype Detection =
    | CycleFound(cycle: seq<string>)
    | SmurfFound(pattern: Smurfing.SmurfPattern)
    | ShellFound(shell: Shells.ShellChain)

  /** The detections of the three lists, cycles first, then smurfing
      patterns, then shell chains: ring `k` (from 0) is number `k + 1`. */
  function Detections(cycles: seq<seq<string>>, patterns: seq<Smurfing.SmurfPattern>,
                      chains: seq<Shells.ShellChain>): (ds: seq<Detection>)
    ensures |ds| == |cycles| + |patterns| + |chains|
  {
    seq(|cycles|, i requires 0 <= i < |cycles| => CycleFound(cycles[i]))
    + seq(|patterns|, i requires 0 <= i < |patterns| => SmurfFound(patterns[i]))
    + seq(|chains|, i requires 0 <= i < |chains| => ShellFound(chains[i]))
  }

  /** `member_accounts`: a cycle's accounts; a pattern's centre followed by
      its connected accounts; a chain's accounts. */
  function Members(d: Detection): seq<string>
  {
    match d
    case CycleFound(c) => c
    case SmurfFound(p) => [p.center] + p.connected
    case ShellFound(s) => s.chain
  }

  /** The points member `j` of `d` earns. */
  function Points(d: Detection, j: nat): nat
  {
    match d
    case CycleFound(_) => CyclePoints
    case SmurfFound(_) => if j == 0 then CenterPoints else ConnectedPoints
    case ShellFound(_) => ShellPoints
  }

  /** The tags member `j` of `d` receives. */
  function TagsAt(d: Detection, j: nat): set<Tag>
    requires j < |Members(d)|
  {
    match d
    case CycleFound(c) => {CycleLength(|c|)}
    case SmurfFound(p) => if j == 0 then {Pattern(p.kind), HighVelocity} else {SmurfingMember(p.kind)}
    case ShellFound(s) => {ShellNetwork} + (if Members(d)[j] in s.shellAccounts then {ShellIntermediary} else {})
  }

  datatype RingKind =
    | CycleRing(cycleLength: nat)
    | SmurfRing(kind: Smurfing.Kind, temporalScore: real)
    | ShellRing(hopCount: nat)

  function KindOf(d: Detection): RingKind
  {
    match d
    case CycleFound(c) => CycleRing(|c|)
    case SmurfFound(p) => SmurfRing(p.kind, p.temporalScore)
    case ShellFound(s) => ShellRing(s.hopCount)
  }

  /** An entry of `cycle_rings`. */
  datatype Ring = Ring(ringId: string, members: seq<string>, kind: RingKind, riskScore: real)

  /** The rings of `ds`, numbered from `first`, before their risk scores
      are set. */
  function RingsOf(ds: seq<Detection>, first: nat): (rings: seq<Ring>)
    ensures |rings| == |ds|
  {
    seq(|ds|, k requires 0 <= k < |ds| => Ring(RingId(first + k), Members(ds[k]), KindOf(ds[k]), 0.0))
  }

  /** One pass of an inner scoring loop over one ring member. */
  datatype Visit = Visit(account: string, points: nat, tags: set<Tag>, ring: nat)

  function VisitsOf(d: Detection, ring: nat): (vs: seq<Visit>)
    ensures |vs| == |Members(d)|
  {
    seq(|Members(d)|, j requires 0 <= j < |Members(d)| => Visit(Members(d)[j], Points(d, j), TagsAt(d, j), ring))
  }

  /** Every member visit of the rings `ds`, numbered from `first`. */
  function AllVisits(ds: seq<Detection>, first: nat): seq<Visit>
  {
    Flatten(RingVisits(ds, first))
  }

  /** The visits of each ring of `ds`, numbered from `first`. */
  function RingVisits(ds: seq<Detection>, first: nat): (rv: seq<seq<Visit>>)
    ensures |rv| == |ds|
  {
    seq(|ds|, k requires 0 <= k < |ds| => VisitsOf(ds[k], first + k))
  }

  function Flatten(vss: seq<seq<Visit>>): seq<Visit>
  {
    if vss == [] then [] else Flatten(vss[..|vss| - 1]) + vss[|vss| - 1]
  }

  // ---------------------------------------------------------------------
  // The score board and the credit fold

  /** The dictionaries `scores`, `patterns` and `ring_membership`, and the
      insertion order of `scores`' keys. */
  datatype Board = Board(scores: map<string, int>, tags: map<string, set<Tag>>,
                         ringOf: map<string, nat>, order: seq<string>)

  /** `scores.get(a, 0)` */
  function ScoreOf(b: Board, a: string): int
  {
    if a in b.scores then b.scores[a] else 0
  }

  /** `patterns.get(a, set())` */
  function TagsOf(b: Board, a: string): set<Tag>
  {
    if a in b.tags then b.tags[a] else {}
  }

  /** The body of an inner scoring loop: `setdefault`, add the points and
      tags, and claim the account for this ring unless an earlier ring
      has. */
  function Credit(b: Board, v: Visit): Board
  {
    var a := v.account;
    Board(b.scores[a := ScoreOf(b, a) + v.points],
          b.tags[a := TagsOf(b, a) + v.tags],
          if a in b.ringOf then b.ringOf else b.ringOf[a := v.ring],
          if a in b.scores then b.order else b.order + [a])
  }

  function Apply(b: Board, vs: seq<Visit>): Board
  {
    if vs == [] then b else Credit(Apply(b, vs[..|vs| - 1]), vs[|vs| - 1])
  }

  /** The dictionaries agree on their keys and `order` lists each once. */
  ghost predicate Consistent(b: Board)
  {
    && b.tags.Keys == b.scores.Keys
    && NoDuplicates(b.order)
    && (forall a :: a in b.order <==> a in b.scores)
    && b.ringOf.Keys <= b.scores.Keys
  }

  /** The accounts visited. */
  function Accounts(vs: seq<Visit>): set<string>
  {
    set i | 0 <= i < |vs| :: vs[i].account
  }

  /** The points `a` collects from `vs`. */
  function Hits(vs: seq<Visit>, a: string): nat
  {
    if vs == [] then 0
    else Hits(vs[..|vs| - 1], a) + (if vs[|vs| - 1].account == a then vs[|vs| - 1].points else 0)
  }

  /** The tags `a` collects from `vs`. */
  function VisitTags(vs: seq<Visit>, a: string): set<Tag>
  {
    if vs == [] then {}
    else VisitTags(vs[..|vs| - 1], a) + (if vs[|vs| - 1].account == a then vs[|vs| - 1].tags else {})
  }

  /** The ring of the first visit of `a`. */
  function FirstRing(vs: seq<Visit>, a: string): (r: Option<nat>)
    ensures r.Some? <==> a in Accounts(vs)
  {
    if vs == [] then None
    else
      var init := vs[..|vs| - 1];
      var before := FirstRing(init, a);
      assert Accounts(vs) == Accounts(init) + {vs[|vs| - 1].account} by {
        assert forall i :: 0 <= i < |init| ==> init[i] == vs[i];
      }
      if before.Some? then before
      else if vs[|vs| - 1].account == a then Some(vs[|vs| - 1].ring)
      else None
  }

  lemma AccountsSnoc(vs: seq<Visit>)
    requires vs != []
    ensures Accounts(vs) == Accounts(vs[..|vs| - 1]) + {vs[|vs| - 1].account}
  {
    var init := vs[..|vs| - 1];
    assert forall i :: 0 <= i < |init| ==> init[i] == vs[i];
  }

  /** The fold keeps the board consistent and appends new accounts to the
      key order. */
  lemma {:induction false} ApplyKeys(b: Board, vs: seq<Visit>)
    requires Consistent(b)
    ensures var r := Apply(b, vs);
      && Consistent(r)
      && |b.order| <= |r.order| && r.order[..|b.order|] == b.order
  {
    if vs != [] {
      var init := vs[..|vs| - 1];
      ApplyKeys(b, init);
      var m := Apply(b, init);
      var r := Credit(m, vs[|vs| - 1]);
      assert r.order[..|m.order|] == m.order;
      assert r.order[..|b.order|] == m.order[..|b.order|];
    }
  }

  /** The fold adds the visited accounts to the keys, and an account's
      score after it is the score it had plus every point of its visits. */
  lemma {:induction false} ApplyScores(b: Board, vs: seq<Visit>)
    ensures Apply(b, vs).scores.Keys == b.scores.Keys + Accounts(vs)
    ensures forall a :: ScoreOf(Apply(b, vs), a) == ScoreOf(b, a) + Hits(vs, a)
  {
    if vs != [] {
      ApplyScores(b, vs[..|vs| - 1]);
      AccountsSnoc(vs);
    }
  }

  /** Its tags are the tags it had plus every tag of its visits. */
  lemma {:induction false} ApplyTags(b: Board, vs: seq<Visit>)
    ensures forall a :: TagsOf(Apply(b, vs), a) == TagsOf(b, a) + VisitTags(vs, a)
  {
    if vs != [] {
      ApplyTags(b, vs[..|vs| - 1]);
    }
  }

  /** Its ring is the one it had, or else the ring of its first visit. */
  lemma {:induction false} ApplyRings(b: Board, vs: seq<Visit>)
    ensures var r := Apply(b, vs);
      && (forall a :: a in r.ringOf <==> a in b.ringOf || a in Accounts(vs))
      && (forall a :: a in r.ringOf ==> r.ringOf[a] == if a in b.ringOf then b.ringOf[a] else FirstRing(vs, a).value)
  {
    if vs != [] {
      ApplyRings(b, vs[..|vs| - 1]);
      AccountsSnoc(vs);
    }
  }

  lemma ApplySnoc(b: Board, vs: seq<Visit>, j: nat)
    requires j < |vs|
    ensures Apply(b, vs[..j + 1]) == Credit(Apply(b, vs[..j]), vs[j])
  {
    assert vs[..j + 1][..j] == vs[..j];
  }

  /** The visits of the first `k + 1` rings are those of the first `k`,
      then those of ring `k`. */
  lemma AllVisitsSnoc(ds: seq<Detection>, first: nat, k: nat)
    requires k < |ds|
    ensures AllVisits(ds[..k + 1], first) == AllVisits(ds[..k], first) + VisitsOf(ds[k], first + k)
  {
    var upTo := ds[..k + 1];
    var vss := RingVisits(upTo, first);
    assert upTo[..k] == ds[..k];
    assert RingVisits(ds[..k], first) == vss[..k];
    assert vss[k] == VisitsOf(ds[k], first + k);
  }

  /** One turn of a ring loop, as a fold over the visits made so far. */
  lemma RingStep(b: Board, ds: seq<Detection>, first: nat, k: nat)
    requires k < |ds|
    ensures Apply(Apply(b, AllVisits(ds[..k], first)), VisitsOf(ds[k], first + k))
         == Apply(b, AllVisits(ds[..k + 1], first))
  {
    AllVisitsSnoc(ds, first, k);
    ApplyAppend(b, AllVisits(ds[..k], first), VisitsOf(ds[k], first + k));
  }

  /** `{"ring_id": ..., "member_accounts": ..., "pattern_type": ...}`,
      appended for detection `k`. */
  function NextRing(ds: seq<Detection>, first: nat, k: nat, rings: seq<Ring>): (r: seq<Ring>)
    requires k < |ds| && rings == RingsOf(ds[..k], first)
    ensures r == RingsOf(ds[..k + 1], first)
  {
    rings + [Ring(RingId(first + k), Members(ds[k]), KindOf(ds[k]), 0.0)]
  }

  lemma {:induction false} ApplyAppend(b: Board, xs: seq<Visit>, ys: seq<Visit>)
    ensures Apply(b, xs + ys) == Apply(Apply(b, xs), ys)
  {
    if ys == [] {
      assert xs + ys == xs;
    } else {
      var init := ys[..|ys| - 1];
      assert (xs + ys)[..|xs + ys| - 1] == xs + init;
      ApplyAppend(b, xs, init);
    }
  }

  // ---------------------------------------------------------------------
  // Steps 1-3: the ring loops

  /** Every account of `node_stats` at zero, with no tags and no ring. */
  function Opened(g: Graph): (b: Board)
    ensures NoDuplicates(g.order) ==> Consistent(b)
  {
    Board(map a | a in g.order :: 0, map a | a in g.order :: {}, map[], g.order)
  }

  /** The loop that opens `scores` and `patterns` with every account of
      `node_stats`, at zero and with no tags. */
  method OpenBoard(g: Graph) returns (b: Board)
    ensures b == Opened(g)
  {
    var scores: map<string, int> := map[];
    var tags: map<string, set<Tag>> := map[];
    for i := 0 to |g.order|
      invariant scores == map a | a in g.order[..i] :: 0
      invariant tags == map a | a in g.order[..i] :: {}
    {
      assert g.order[..i + 1] == g.order[..i] + [g.order[i]];
      scores := scores[g.order[i] := 0];
      tags := tags[g.order[i] := {}];
    }
    assert g.order[..|g.order|] == g.order;
    b := Board(scores, tags, map[], g.order);
  }

  /** The inner loop over the members of detection `k`, ring number
      `first + k`: the board moves on by that ring. */
  method ScoreRing(ghost b0: Board, ds: seq<Detection>, first: nat, k: nat, b: Board) returns (b': Board)
    requires k < |ds| && b == Apply(b0, AllVisits(ds[..k], first))
    ensures b' == Apply(b0, AllVisits(ds[..k + 1], first))
  {
    RingStep(b0, ds, first, k);
    b' := CreditMembers(b, ds[k], first + k);
  }

  /** The body of that loop for each member of `d` in turn. */
  method CreditMembers(b: Board, d: Detection, ring: nat) returns (b': Board)
    ensures b' == Apply(b, VisitsOf(d, ring))
  {
    var members := Members(d);
    ghost var visits := VisitsOf(d, ring);
    b' := b;
    for j := 0 to |members|
      invariant b' == Apply(b, visits[..j])
    {
      var account := members[j];
      ghost var before := b';
      assert visits[j] == Visit(account, Points(d, j), TagsAt(d, j), ring);
      var score := if account in b'.scores then b'.scores[account] else 0;
      var accountTags := if account in b'.tags then b'.tags[account] else {};
      var ringOf := if account in b'.ringOf then b'.ringOf else b'.ringOf[account := ring];
      var order := if account in b'.scores then b'.order else b'.order + [account];
      b' := Board(b'.scores[account := score + Points(d, j)],
                  b'.tags[account := accountTags + TagsAt(d, j)],
                  ringOf, order);
      assert b' == Credit(before, visits[j]);
      ApplySnoc(b, visits, j);
    }
    assert visits[..|members|] == visits;
  }

  /** One of the three ring loops: the rings of `ds`, numbered from
      `first`, each scored in turn and appended to the ring list. */
  method ScoreRings(b: Board, ds: seq<Detection>, first: nat) returns (b': Board, rings: seq<Ring>)
    ensures b' == Apply(b, AllVisits(ds, first))
    ensures rings == RingsOf(ds, first)
  {
    b' := b;
    rings := [];
    for k := 0 to |ds|
      invariant b' == Apply(b, AllVisits(ds[..k], first))
      invariant rings == RingsOf(ds[..k], first)
    {
      b' := ScoreRing(b, ds, first, k, b');
      rings := NextRing(ds, first, k, rings);
    }
    assert ds[..|ds|] == ds;
  }

  // ---------------------------------------------------------------------
  // What the ring loops promise

  /** Every visit earns at least the 15 points of a connected account. */
  lemma VisitPoints(ds: seq<Detection>, first: nat)
    ensures forall i :: 0 <= i < |AllVisits(ds, first)| ==> AllVisits(ds, first)[i].points >= ConnectedPoints
  {
    var vss: seq<seq<Visit>> := RingVisits(ds, first);
    forall k | 0 <= k < |vss| ensures forall i :: 0 <= i < |vss[k]| ==> vss[k][i].points >= ConnectedPoints {
    }
    FlattenPoints(vss);
  }

  lemma {:induction false} FlattenPoints(vss: seq<seq<Visit>>)
    requires forall k :: 0 <= k < |vss| ==> forall i :: 0 <= i < |vss[k]| ==> vss[k][i].points >= ConnectedPoints
    ensures forall i :: 0 <= i < |Flatten(vss)| ==> Flatten(vss)[i].points >= ConnectedPoints
  {
    if vss != [] {
      FlattenPoints(vss[..|vss| - 1]);
    }
  }

  /** An account that is visited collects at least the points of one
      visit; one that is not collects none. */
  lemma {:induction false} HitsAtLeast(vs: seq<Visit>, a: string)
    requires forall i :: 0 <= i < |vs| ==> vs[i].points >= ConnectedPoints
    ensures a in Accounts(vs) ==> Hits(vs, a) >= ConnectedPoints
    ensures a !in Accounts(vs) ==> Hits(vs, a) == 0
  {
    if vs != [] {
      AccountsSnoc(vs);
      HitsAtLeast(vs[..|vs| - 1], a);
    }
  }

  lemma AccountsOfRing(d: Detection, ring: nat)
    ensures Accounts(VisitsOf(d, ring)) == set a | a in Members(d)
  {
    var vs := VisitsOf(d, ring);
    forall a | a in Members(d) ensures a in Accounts(vs) {
      var j :| 0 <= j < |Members(d)| && Members(d)[j] == a;
      assert vs[j].account == a;
    }
  }

  lemma AccountsAppend(xs: seq<Visit>, ys: seq<Visit>)
    ensures Accounts(xs + ys) == Accounts(xs) + Accounts(ys)
  {
    var all := xs + ys;
    forall a | a in Accounts(ys) ensures a in Accounts(all) {
      var i :| 0 <= i < |ys| && ys[i].account == a;
      assert all[|xs| + i].account == a;
    }
    forall a | a in Accounts(xs) ensures a in Accounts(all) {
      var i :| 0 <= i < |xs| && xs[i].account == a;
      assert all[i].account == a;
    }
  }

  /** The accounts of a flattened list are those of its parts. */
  lemma {:induction false} FlattenAccounts(vss: seq<seq<Visit>>, a: string)
    ensures a in Accounts(Flatten(vss)) <==> exists k :: 0 <= k < |vss| && a in Accounts(vss[k])
  {
    if vss != [] {
      var n := |vss| - 1;
      AccountsAppend(Flatten(vss[..n]), vss[n]);
      FlattenAccounts(vss[..n], a);
      if a in Accounts(Flatten(vss[..n])) {
        var k :| 0 <= k < n && a in Accounts(vss[..n][k]);
        assert vss[..n][k] == vss[k];
      }
      if exists k :: 0 <= k < |vss| && a in Accounts(vss[k]) {
        var k :| 0 <= k < |vss| && a in Accounts(vss[k]);
        if k < n {
          assert vss[..n][k] == vss[k];
        }
      }
    }
  }

  /** The visited accounts are exactly the members of the rings. */
  lemma MembersVisited(ds: seq<Detection>, first: nat, a: string)
    ensures a in Accounts(AllVisits(ds, first)) <==> exists k :: 0 <= k < |ds| && a in Members(ds[k])
  {
    var vss := RingVisits(ds, first);
    FlattenAccounts(vss, a);
    forall k | 0 <= k < |ds| ensures a in Accounts(vss[k]) <==> a in Members(ds[k]) {
      AccountsOfRing(ds[k], first + k);
    }
  }

  lemma {:induction false} FirstRingAppend(xs: seq<Visit>, ys: seq<Visit>, a: string)
    ensures FirstRing(xs + ys, a) == if a in Accounts(xs) then FirstRing(xs, a) else FirstRing(ys, a)
  {
    if ys == [] {
      assert xs + ys == xs;
    } else {
      var init := ys[..|ys| - 1];
      assert (xs + ys)[..|xs + ys| - 1] == xs + init;
      FirstRingAppend(xs, init, a);
    }
  }

  /** The first part of a flattened list that has the account gives its
      first ring. */
  lemma {:induction false} FirstRingFlatten(vss: seq<seq<Visit>>, k: nat, a: string)
    requires k < |vss| && a in Accounts(vss[k])
    requires forall i :: 0 <= i < k ==> a !in Accounts(vss[i])
    ensures FirstRing(Flatten(vss), a) == FirstRing(vss[k], a)
  {
    var n := |vss| - 1;
    FirstRingAppend(Flatten(vss[..n]), vss[n], a);
    if k == n {
      FlattenAccounts(vss[..n], a);
      assert forall i :: 0 <= i < n ==> vss[..n][i] == vss[i];
    } else {
      assert vss[..n][k] == vss[k];
      FlattenAccounts(vss[..n], a);
      FirstRingFlatten(vss[..n], k, a);
    }
  }

  /** When every visit is to one ring, an account's first ring is that
      ring. */
  lemma {:induction false} FirstRingIn(vs: seq<Visit>, a: string, ring: nat)
    requires forall i :: 0 <= i < |vs| ==> vs[i].ring == ring
    ensures a in Accounts(vs) ==> FirstRing(vs, a) == Some(ring)
  {
    if vs != [] {
      AccountsSnoc(vs);
      FirstRingIn(vs[..|vs| - 1], a, ring);
    }
  }

  /** `ring_membership` names the first ring that lists the account. */
  lemma FirstRingIsFirstDetection(ds: seq<Detection>, first: nat, k: nat, a: string)
    requires k < |ds| && a in Members(ds[k])
    requires forall i :: 0 <= i < k ==> a !in Members(ds[i])
    ensures FirstRing(AllVisits(ds, first), a) == Some(first + k)
  {
    var vss := RingVisits(ds, first);
    forall i | 0 <= i <= k ensures a in Accounts(vss[i]) <==> a in Members(ds[i]) {
      AccountsOfRing(ds[i], first + i);
    }
    FirstRingFlatten(vss, k, a);
    FirstRingIn(vss[k], a, first + k);
  }

}
