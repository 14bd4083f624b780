/** `analyze_transactions`: the pipeline from rows to report. The graph is
    built, the three detectors and the legitimacy filter run on it, the
    accounts are scored, and the report lists the accounts with a positive
    score, highest first, the rings, riskiest first, and summary counts. */
module Report {

  import opened Wrappers
  import opened TxGraph
  import Sorting
  import Cycles
  import Smurfing
  import Shells
  import Legitimacy
  import opened Scoring
  import opened Suspicion

  /** An entry of `suspicious_accounts`. */
  datatype Entry = Entry(accountId: string, score: real, patterns: set<Tag>, ringId: Option<string>)

  /** `summary`, without the processing time. */
  datatype Summary = Summary(totalAccounts: nat, totalTransactions: nat, flagged: nat, ringsDetected: nat)

  datatype Analysis = Analysis(suspicious: seq<Entry>, rings: seq<Ring>, summary: Summary)

  /** What `calculate_suspicion_scores` guarantees of its key order. */
  ghost predicate Keyed(r: Assessment)
  {
    NoDuplicates(r.order) && forall a :: a in r.order <==> a in r.scores
  }

  /** The entry of a scored account: its score, its tags (`get(a, [])`)
      and the identifier of its ring (`get(a)`). */
  function EntryOf(r: Assessment, a: string): Entry
    requires a in r.scores
  {
    Entry(a, r.scores[a],
          if a in r.tags then r.tags[a] else {},
          if a in r.ringOf then Some(RingId(r.ringOf[a])) else None)
  }

  function ScoreKey(e: Entry): real
  {
    e.score
  }

  function RiskKey(ring: Ring): real
  {
    ring.riskScore
  }

  predicate Positive(r: Assessment, a: string)
  {
    a in r.scores && r.scores[a] > 0.0
  }

  /** The accounts of `scores.items()` that pass `if score > 0`, in key
      order. */
  function FlaggedAccounts(r: Assessment): (accounts: seq<string>)
    ensures forall a :: a in accounts <==> a in r.order && Positive(r, a)
    ensures multiset(accounts) <= multiset(r.order)
  {
    Sorting.Filter(r.order, a => Positive(r, a))
  }

  /** The list comprehension, before the sort. */
  function Entries(r: Assessment): (es: seq<Entry>)
    ensures |es| == |FlaggedAccounts(r)|
  {
    var accounts := FlaggedAccounts(r);
    seq(|accounts|, i requires 0 <= i < |accounts| => assert accounts[i] in accounts; EntryOf(r, accounts[i]))
  }

  /** `sorted(..., key=suspicion_score, reverse=True)` */
  function SuspiciousAccounts(r: Assessment): seq<Entry>
  {
    Sorting.SortDesc(Entries(r), ScoreKey)
  }

  /** `sorted(rings, key=risk_score, reverse=True)` */
  function FraudRings(r: Assessment): seq<Ring>
  {
    Sorting.SortDesc(r.rings, RiskKey)
  }

  /** The report of an assessment of `accounts` accounts built from
      `transactions` rows. */
  function Assemble(r: Assessment, accounts: nat, transactions: nat): Analysis
  {
    var suspicious := SuspiciousAccounts(r);
    var rings := FraudRings(r);
    Analysis(suspicious, rings, Summary(accounts, transactions, |suspicious|, |rings|))
  }

  // ---------------------------------------------------------------------
  // The pipeline

  /** `analyze_transactions(transactions)`. `nodeList` is `list(nodes)`:
      every account once, in an order Python leaves unspecified. The report
      is assembled from the assessment `r` of the detections the pipeline
      ran: the rings `cycles` found, the smurfing patterns, the shell chains
      and the legitimate accounts of the graph. */
  method AnalyzeTransactions(txs: seq<Transaction>, nodeList: seq<string>)
    returns (report: Analysis, ghost r: Assessment, ghost cycles: seq<seq<string>>,
             ghost patterns: seq<Smurfing.SmurfPattern>, ghost chains: seq<Shells.ShellChain>,
             ghost legitimate: set<string>)
    requires NoDuplicates(nodeList) && forall n :: n in nodeList <==> n in Build(txs).stats
    ensures Detected(Build(txs), nodeList, cycles, patterns, chains, legitimate)
    ensures Scored(Build(txs), cycles, patterns, chains, legitimate, r) && Keyed(r)
    ensures |Build(txs).order| <= |r.order| && r.order[..|Build(txs).order|] == Build(txs).order
    ensures report == Assemble(r, |Build(txs).stats.Keys|, |txs|)
    ensures report.summary.totalAccounts == |Build(txs).stats.Keys|
    ensures report.summary.totalTransactions == |txs|
    ensures Ranked(report)
  {
    var g := BuildGraph(txs);
    BuildWellFormed(txs);
    var assessed;
    assessed, cycles, patterns, chains, legitimate := Assess(g, nodeList);
    report := Assemble(assessed, |g.order|, |txs|);
    r := assessed;
    KeysCount(g.order, g.stats);
    AssembledSound(r, |g.order|, |txs|);
  }

  /** What steps 2 to 5 produce on the graph `g`, whose key order lists
      known accounts: the rings of
      `detect_cycles`, the patterns of `detect_smurfing`, the chains of
      `detect_shell_networks`, and the accounts `identify_legitimate_accounts`
      keeps, which are exactly the merchants and the payroll accounts. */
  ghost predicate Detected(g: Graph, nodeList: seq<string>, cycles: seq<seq<string>>,
                           patterns: seq<Smurfing.SmurfPattern>, chains: seq<Shells.ShellChain>,
                           legitimate: set<string>)
  {
    && Cycles.Found(g, nodeList, cycles)
    && (forall a :: a in g.order ==> a in g.stats)
    && patterns == Smurfing.Smurfing(g, g.order)
    && chains == Shells.ShellChains(g, Shells.Shells(g), g.order)
    && forall a :: a in legitimate <==>
         a in g.order && a in g.stats && (Legitimacy.Merchant(g, a) || Legitimacy.Payroll(g, a))
  }

  /** Steps 2 to 6: the detectors, the legitimacy filter and the scores.
      Every score and every ring's risk lies in [0, 100], and every ring
      member has a positive score. */
  method Assess(g: Graph, nodeList: seq<string>)
    returns (r: Assessment, ghost cycles: seq<seq<string>>, ghost patterns: seq<Smurfing.SmurfPattern>,
             ghost chains: seq<Shells.ShellChain>, ghost legitimate: set<string>)
    requires NoDuplicates(g.order) && (forall a :: a in g.order <==> a in g.stats)
    requires forall n :: n in nodeList ==> n in g.stats
    ensures Detected(g, nodeList, cycles, patterns, chains, legitimate)
    ensures Scored(g, cycles, patterns, chains, legitimate, r)
    ensures Keyed(r) && Bounded(r)
    ensures |g.order| <= |r.order| && r.order[..|g.order|] == g.order
    ensures forall k, m :: 0 <= k < |r.rings| && m in r.rings[k].members ==> Positive(r, m)
  {
    var found := Cycles.DetectCycles(g, nodeList);
    var smurfs := Smurfing.DetectSmurfing(g);
    var shells := Shells.DetectShellNetworks(g);
    var kept := Legitimacy.IdentifyLegitimateAccounts(g);
    r := Score(g, found, smurfs, shells, kept);
    cycles, patterns, chains, legitimate := found, smurfs, shells, kept;
  }

  /** Step 6, with what the report needs of it. */
  method Score(g: Graph, cycles: seq<seq<string>>, patterns: seq<Smurfing.SmurfPattern>,
               chains: seq<Shells.ShellChain>, legitimate: set<string>) returns (r: Assessment)
    requires NoDuplicates(g.order) && (forall a :: a in g.order <==> a in g.stats)
    ensures Scored(g, cycles, patterns, chains, legitimate, r)
    ensures Keyed(r) && Bounded(r)
    ensures |g.order| <= |r.order| && r.order[..|g.order|] == g.order
    ensures forall k, m :: 0 <= k < |r.rings| && m in r.rings[k].members ==> Positive(r, m)
  {
    r := CalculateSuspicionScores(g, cycles, patterns, chains, legitimate);
    RingMembersPositive(g, cycles, patterns, chains, legitimate, r);
  }

  /** What the report promises its reader: the summary counts the two
      lists; the accounts are listed once each, with scores in (0, 100],
      highest first; the rings are listed riskiest first, with risks in
      [0, 100], and their members are among the listed accounts. */
  ghost predicate Ranked(report: Analysis)
  {
    && report.summary.flagged == |report.suspicious|
    && report.summary.ringsDetected == |report.rings|
    && (forall i :: 0 <= i < |report.suspicious| ==> 0.0 < report.suspicious[i].score <= MaxScore as real)
    && (forall i, j :: 0 <= i < j < |report.suspicious| ==>
          report.suspicious[i].score >= report.suspicious[j].score
          && report.suspicious[i].accountId != report.suspicious[j].accountId)
    && (forall i, j :: 0 <= i < j < |report.rings| ==> report.rings[i].riskScore >= report.rings[j].riskScore)
    && (forall k :: 0 <= k < |report.rings| ==> 0.0 <= report.rings[k].riskScore <= MaxScore as real)
    && (forall k, m :: 0 <= k < |report.rings| && m in report.rings[k].members ==>
          exists i :: 0 <= i < |report.suspicious| && report.suspicious[i].accountId == m)
  }

  /** Scores and risks in [0, 100]. */
  ghost predicate Bounded(r: Assessment)
  {
    && (forall a :: a in r.scores ==> 0.0 <= r.scores[a] <= MaxScore as real)
    && (forall k :: 0 <= k < |r.rings| ==> 0.0 <= r.rings[k].riskScore <= MaxScore as real)
  }

  // ---------------------------------------------------------------------
  // Properties of the report

  /** `suspicious_accounts` lists every account with a positive score, and
      no other, once each, with its own score, tags and ring, highest
      score first; accounts of equal score keep the key order of
      `scores`. */
  lemma SuspiciousExactly(r: Assessment)
    requires Keyed(r)
    ensures var s := SuspiciousAccounts(r);
      && (forall a :: Positive(r, a) ==> EntryOf(r, a) in s)
      && (forall i :: 0 <= i < |s| ==> Positive(r, s[i].accountId) && s[i] == EntryOf(r, s[i].accountId))
      && (forall i, j :: 0 <= i < j < |s| ==> s[i].accountId != s[j].accountId)
      && (forall i, j :: 0 <= i < j < |s| ==> s[i].score >= s[j].score)
      && (forall k :: Sorting.WithKey(s, ScoreKey, k) == Sorting.WithKey(Entries(r), ScoreKey, k))
  {
    var es := Entries(r);
    var s := SuspiciousAccounts(r);
    EntriesExactly(r);
    SortedEntries(r);
    forall i, j | 0 <= i < j < |s| ensures s[i].accountId != s[j].accountId {
      assert s[i] in es && s[j] in es;
    }
  }

  /** The sort neither adds, drops nor repeats an entry. */
  lemma SortedEntries(r: Assessment)
    requires NoDuplicates(Entries(r))
    ensures var s := SuspiciousAccounts(r);
      (forall e :: e in s <==> e in Entries(r)) && NoDuplicates(s)
  {
    var es := Entries(r);
    var s := SuspiciousAccounts(r);
    forall e ensures e in s <==> e in es {
      assert e in s <==> e in multiset(s);
      assert e in es <==> e in multiset(es);
    }
    Fewer(s, es);
  }

  /** The comprehension before the sort: one entry per account with a
      positive score, in key order, none repeated. */
  lemma EntriesExactly(r: Assessment)
    requires Keyed(r)
    ensures var es := Entries(r);
      && (forall a :: Positive(r, a) ==> EntryOf(r, a) in es)
      && (forall e :: e in es ==> Positive(r, e.accountId) && e == EntryOf(r, e.accountId))
      && NoDuplicates(es)
  {
    var f := FlaggedAccounts(r);
    var es := Entries(r);
    Fewer(f, r.order);
    forall a | Positive(r, a) ensures EntryOf(r, a) in es {
      var k :| 0 <= k < |f| && f[k] == a;
      assert es[k] == EntryOf(r, a);
    }
    forall i, j | 0 <= i < j < |es| ensures es[i] != es[j] {
      assert es[i].accountId == f[i] && es[j].accountId == f[j];
    }
  }

  /** `fraud_rings` holds the rings of the assessment, each once, riskiest
      first, rings of equal risk in the order they were found. */
  lemma RingsRanked(r: Assessment)
    ensures var rings := FraudRings(r);
      && multiset(rings) == multiset(r.rings)
      && (forall i, j :: 0 <= i < j < |rings| ==> rings[i].riskScore >= rings[j].riskScore)
      && (forall k :: Sorting.WithKey(rings, RiskKey, k) == Sorting.WithKey(r.rings, RiskKey, k))
  {
  }

  /** The report of a keyed assessment whose scores and risks lie in
      [0, 100] and whose ring members all score: the accounts are listed
      once each, with positive scores, highest first; the rings riskiest
      first, with their members among the listed accounts; and the summary
      counts the lists. */
  lemma AssembledSound(r: Assessment, accounts: nat, transactions: nat)
    requires Keyed(r) && Bounded(r)
    requires forall k, m :: 0 <= k < |r.rings| && m in r.rings[k].members ==> Positive(r, m)
    ensures var report := Assemble(r, accounts, transactions);
      && report.summary.totalAccounts == accounts && report.summary.totalTransactions == transactions
      && Ranked(report)
  {
    var s := SuspiciousAccounts(r);
    SuspiciousExactly(r);
    forall i | 0 <= i < |s| ensures 0.0 < s[i].score <= MaxScore as real {
      assert Positive(r, s[i].accountId);
    }
    RingsRanked(r);
    RingsReported(r);
  }

  /** The summary counts: one flagged account per positive score. */
  lemma FlaggedCount(r: Assessment, accounts: nat, transactions: nat)
    requires Keyed(r)
    ensures Assemble(r, accounts, transactions).summary.flagged == |set a | a in r.scores && r.scores[a] > 0.0|
  {
    var f := FlaggedAccounts(r);
    Fewer(f, r.order);
    DistinctCount(f);
    assert (set a | a in f) == set a | a in r.scores && r.scores[a] > 0.0;
  }

  /** Every member of every ring has a positive score: ring members score
      at least 7 points, even after the discount. */
  lemma RingMembersPositive(g: Graph, cycles: seq<seq<string>>, patterns: seq<Smurfing.SmurfPattern>,
                            chains: seq<Shells.ShellChain>, legitimate: set<string>, r: Assessment)
    requires var ds := Detections(cycles, patterns, chains);
      |r.rings| == |ds| && forall j :: 0 <= j < |ds| ==> r.rings[j].members == Members(ds[j])
    requires r.scores.Keys == g.stats.Keys + Accounts(Visits(cycles, patterns, chains))
    requires forall a :: a in r.scores ==>
      r.scores[a] == FinalScore(RawScore(g, Visits(cycles, patterns, chains), a), a in legitimate) as real
    ensures forall k, m :: 0 <= k < |r.rings| && m in r.rings[k].members ==> Positive(r, m)
  {
    forall k, m | 0 <= k < |r.rings| && m in r.rings[k].members ensures Positive(r, m) {
      RingMembersFlagged(g, cycles, patterns, chains, legitimate, k, m);
    }
  }

  /** Every reported ring has its risk in [0, 100], and its members are
      among the reported accounts. */
  lemma RingsReported(r: Assessment)
    requires Keyed(r) && Bounded(r)
    requires forall k, m :: 0 <= k < |r.rings| && m in r.rings[k].members ==> Positive(r, m)
    ensures var rings, s := FraudRings(r), SuspiciousAccounts(r);
      && (forall k :: 0 <= k < |rings| ==> 0.0 <= rings[k].riskScore <= MaxScore as real)
      && (forall k, m :: 0 <= k < |rings| && m in rings[k].members ==>
            exists i :: 0 <= i < |s| && s[i].accountId == m)
  {
    var s := SuspiciousAccounts(r);
    var rings := FraudRings(r);
    SuspiciousExactly(r);
    forall k | 0 <= k < |rings| ensures exists j :: 0 <= j < |r.rings| && r.rings[j] == rings[k] {
      assert rings[k] in multiset(r.rings);
    }
    forall k, m | 0 <= k < |rings| && m in rings[k].members
      ensures exists i :: 0 <= i < |s| && s[i].accountId == m
    {
      var j :| 0 <= j < |r.rings| && r.rings[j] == rings[k];
      assert Positive(r, m);
      assert EntryOf(r, m) in s;
      var i :| 0 <= i < |s| && s[i] == EntryOf(r, m);
    }
  }

  // ---------------------------------------------------------------------
  // Counting helpers

  lemma {:induction false} CountAtMostOne<T>(t: seq<T>, x: T)
    requires NoDuplicates(t)
    ensures multiset(t)[x] <= 1
  {
    if t != [] {
      assert t == [t[0]] + t[1..];
      CountAtMostOne(t[1..], x);
      if x == t[0] {
        assert forall j :: 0 <= j < |t[1..]| ==> t[1..][j] == t[j + 1];
        assert x !in t[1..];
      }
    }
  }

  lemma CountRepeated<T>(s: seq<T>, i: nat, j: nat)
    requires i < j < |s| && s[i] == s[j]
    ensures multiset(s)[s[i]] >= 2
  {
    assert s == s[..j] + [s[j]] + s[j + 1..];
    assert s[..j][i] == s[i];
    assert s[i] in multiset(s[..j]);
  }

  /** A sub-multiset of a list without repeats has none either. */
  lemma Fewer<T>(s: seq<T>, t: seq<T>)
    requires multiset(s) <= multiset(t) && NoDuplicates(t)
    ensures NoDuplicates(s)
  {
    forall i, j | 0 <= i < j < |s| ensures s[i] != s[j] {
      if s[i] == s[j] {
        CountRepeated(s, i, j);
        CountAtMostOne(t, s[i]);
        assert false;
      }
    }
  }

  /** A list of the keys of a map, without repeats, is as long as the map. */
  lemma KeysCount<V>(order: seq<string>, m: map<string, V>)
    requires NoDuplicates(order) && forall a :: a in order <==> a in m
    ensures |m.Keys| == |order|
  {
    DistinctCount(order);
    assert (set a | a in order) == m.Keys;
  }

  /** A list without repeats is as long as the set of its elements. */
  lemma {:induction false} DistinctCount<T>(s: seq<T>)
    requires NoDuplicates(s)
    ensures |set x | x in s| == |s|
  {
    if s != [] {
      var init := s[..|s| - 1];
      var last := s[|s| - 1];
      DistinctCount(init);
      assert (set x | x in s) == (set x | x in init) + {last} by {
        assert s == init + [last];
      }
      assert last !in init;
    }
  }

}
