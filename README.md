# Transaction-graph fraud engine, modelled in Dafny

This project models the analysis core of a money-muling detector. The
engine reads a batch of transfers, each with a sender, a receiver, an
amount and a timestamp. It builds a directed transaction graph and looks
for three laundering patterns:

- **cycles** of three to five accounts passing money round a loop, found
  by a depth-bounded search inside the strongly connected components;
- **smurfing**: one account receiving from, or paying out to, ten or more
  distinct counterparties, scored by how tightly the transfers cluster in
  a 72-hour window;
- **layered shell chains**: a path through low-activity intermediaries
  that each hold two or three transactions.

A filter recognises merchants and payroll accounts by their steady
payment sizes. The scorer turns every detection into a numbered fraud
ring (`RING_001`, `RING_002`, ...). It credits the members with points,
adds bonuses for fast, lopsided or pass-through accounts, halves the
scores of legitimate-looking accounts, and caps scores at 100. The report
lists the flagged accounts, highest score first, and the rings, riskiest
first.

One Dafny module stands for each stage:

- `TxGraph` (graph.dfy) is `build_graph`.
- `Scc` (scc.dfy) is Tarjan's search, as a class over its dictionaries and stack.
- `Cycles` (cycles.dfy) is `detect_cycles`, `_dfs` and `_normalize_cycle`. The search state is a class.
- `Smurfing` (smurfing.dfy) is `detect_smurfing` and the sliding window.
- `Shells` (shells.dfy) is `detect_shell_networks`.
- `Legitimacy` (legitimacy.dfy) is `identify_legitimate_accounts`.
- `Scoring` and `Suspicion` (scoring.dfy, suspicion.dfy) are `calculate_suspicion_scores`.
- `Report` (report.dfy) is the filter, the sorts and the summary of `analyze_transactions`.
- `Lex`, `Sorting` and `Wrappers` supply Python's string order, `"->".join`, `sorted` and `Option`.

The loops of the source are methods with loop invariants. Each method is
proved equal to a function that describes its result (`BuildGraph` and
`Build`, `TemporalDensity` and `DensityScore`, `DetectShellNetworks` and
`ShellChains`, ...). The promises of the source are then proved about
those functions.

Properties worth noting:

- The graph's counters always agree with its edge lists (`BuildWellFormed`).
- A row without a timestamp changes nothing (`SkippedRow`).
- Every recorded cycle is a genuine simple cycle. No cycle is a rotation of another.
- The smurfing test `temporal_score > 0` can never fail once ten transfers exist (`SmurfingComplete`).
- The shell test `len(shell_intermediaries) >= 1` can never fail for a chain of four or more accounts (`ChainFromShape`).
- A ring member always ends with a positive score, even after the legitimacy discount. So every ring's members appear among the reported accounts (`RingMembersPositive`, `RingsReported`).
- `MAX_CYCLES` is checked only when `_dfs` is entered, so the search can record up to two cycles beyond 200 (`DetectCycles` proves at most 202).

Behaviour of the source that the model keeps:

- A row whose timestamp matches none of the date formats is skipped, and the rest of the batch is analysed (backend/graph_engine.py:53-67).
- The 4-second cycle budget only stops the loop over start nodes (backend/graph_engine.py:190-192). Nothing in the result marks it as cut short.
- The `visited` set of the shell search is created and tested but never added to (backend/graph_engine.py:319, 326). So every account that is not a shell starts a chain.

## Model

| member | source | states |
|---|---|---|
| Lex.LessIrreflexive | backend/graph_engine.py:231 | no account id is smaller than itself under Python's string `<` |
| Lex.LessTransitive | backend/graph_engine.py:231 | string `<` is transitive |
| Lex.LessTotal | backend/graph_engine.py:231 | of two different ids one is smaller, so the minimum scan is well defined |
| Lex.Digits | backend/graph_engine.py:424 | the decimal form of a ring counter is a non-empty run of digits without a leading zero |
| Lex.DigitsInjective | backend/graph_engine.py:424 | different counters have different decimal forms |
| Lex.Join | backend/graph_engine.py:217 | `"->".join` of no parts is empty and of one part is that part |
| Sorting.InsertAsc | backend/graph_engine.py:292 | inserting into an ascending list keeps it ascending and adds exactly that element |
| Sorting.SortAsc | backend/graph_engine.py:292 | `sorted(epochs)` is ascending and a permutation of its input |
| Sorting.InsertDesc | backend/graph_engine.py:185-188 | inserting by key into a descending list keeps it descending and adds exactly that element |
| Sorting.InsertDescKeepsOrder | backend/graph_engine.py:185-188 | the inserted element goes before every element of equal key, so equal keys keep their input order |
| Sorting.SortDescStep | backend/graph_engine.py:185-188 | one insertion step preserves the permutation and the order of equal keys |
| Sorting.SortDesc | backend/graph_engine.py:583-587 | `sorted(..., key, reverse=True)` is descending by key, a permutation of its input, and stable |
| Sorting.Filter | backend/graph_engine.py:182 | a comprehension filter keeps exactly the elements that pass, without adding any |
| TxGraph.SilentAccounts | backend/graph_engine.py:74-86 | an account that never sends (receives) has no forward (reverse) edges and no epochs |
| TxGraph.PeersAreAccounts | backend/graph_engine.py:71-86 | every edge's counterparty is an account of some kept row |
| TxGraph.EpochCount | backend/graph_engine.py:96-104 | an account has one epoch per transfer it sends or receives |
| TxGraph.AppearanceListsAccounts | backend/graph_engine.py:88-94 | `node_stats` lists each sender and receiver of a kept row exactly once |
| TxGraph.BuildWellFormed | backend/graph_engine.py:48-104 | after the build, `outDeg` and `inDeg` are the lengths of the edge lists, `totalOut` and `totalIn` their sums, `txCount = inDeg + outDeg = len(epochs)`, and every edge ends at a known account |
| TxGraph.SendersSnoc | backend/graph_engine.py:71-72 | a row adds its sender and receiver to the accounts only when it is kept |
| TxGraph.ListsSnoc | backend/graph_engine.py:74-104 | a row appends one edge to its sender's and receiver's lists, and its epoch to both, only when it is kept |
| TxGraph.SkippedRowAccount | backend/graph_engine.py:53-67 | a row without a timestamp leaves every account's edges and counters unchanged |
| TxGraph.SkippedRowAdjacency | backend/graph_engine.py:53-67 | a row without a timestamp leaves `adjacency` unchanged |
| TxGraph.SkippedRowReverse | backend/graph_engine.py:53-67 | a row without a timestamp leaves `reverse_adj` unchanged |
| TxGraph.SkippedRowStats | backend/graph_engine.py:53-67 | a row without a timestamp leaves `node_stats` unchanged |
| TxGraph.SkippedRow | backend/graph_engine.py:53-67 | a row without a timestamp leaves the whole graph unchanged |
| TxGraph.KeptRowAccount | backend/graph_engine.py:74-86 | a kept row appends its edge to the sender's forward list and the receiver's reverse list only |
| TxGraph.KeptRowAdjacency | backend/graph_engine.py:74-79 | a kept row changes `adjacency` at the sender alone, by one appended edge |
| TxGraph.KeptRowReverse | backend/graph_engine.py:81-86 | a kept row changes `reverse_adj` at the receiver alone, by one appended edge |
| TxGraph.KeptRowOut | backend/graph_engine.py:96-97 | a kept row raises its sender's out-count by one and out-total by its amount |
| TxGraph.KeptRowIn | backend/graph_engine.py:101-102 | a kept row raises its receiver's in-count by one and in-total by its amount |
| TxGraph.KeptRowStats | backend/graph_engine.py:96-104 | an account's counters after a kept row are its counters before, updated as lines 96-104 do |
| TxGraph.KeptRowStatsMap | backend/graph_engine.py:88-104 | a kept row adds its two accounts to `node_stats`, starting at zero, and updates their counters |
| TxGraph.KeptRowOrder | backend/graph_engine.py:88-94 | a kept row appends the sender, then the receiver, to the key order when each is new |
| TxGraph.SumSnoc | backend/graph_engine.py:97 | the total of an edge list grows by the amount of an appended edge |
| TxGraph.AddRowStats | backend/graph_engine.py:88-104 | one loop iteration adds exactly the row's two accounts and updates their counters |
| TxGraph.AddRowBuildStats | backend/graph_engine.py:88-104 | one loop iteration on the built graph gives the counters of the longer row list |
| TxGraph.AddRowBuild | backend/graph_engine.py:48-104 | one loop iteration on the built graph gives the graph of the longer row list |
| TxGraph.FoldIsBuild | backend/graph_engine.py:48-104 | running the loop over all rows gives exactly the graph `Build(txs)` |
| TxGraph.BuildGraph | backend/graph_engine.py:29-111 | `build_graph` returns the described graph (so `BuildWellFormed` holds of it) |
| TxGraph.ReadRow | backend/graph_engine.py:48-104 | the loop body turns the four dictionaries into those of one more row |
| Scc.Tarjan.constructor | backend/graph_engine.py:121-126 | the search starts with no index, no low links, an empty stack and no components |
| Scc.Tarjan.StrongConnect | backend/graph_engine.py:128-151 | `strongconnect(v)` indexes `v`, keeps the search invariant (stack without repeats, `on_stack` mirrors it, components of 3+ indexed accounts, disjoint, off the stack) and only grows the stack and the component list |
| Scc.Tarjan.VisitEdge | backend/graph_engine.py:134-140 | following one edge keeps the invariant and what lies below `v` on the stack |
| Scc.Tarjan.Descend | backend/graph_engine.py:136-138 | recursing into an unindexed account indexes it and keeps the invariant |
| Scc.Tarjan.Push | backend/graph_engine.py:129-132 | `v` gets the current counter as both its index and its low link; the counter goes up by one; `v` is pushed onto the stack and added to `on_stack`; the components are unchanged |
| Scc.Tarjan.Pop | backend/graph_engine.py:145-146 | one pop removes the top of the stack from the stack and from `on_stack` |
| Scc.Tarjan.PopComponent | backend/graph_engine.py:142-151 | the stack is popped down to and including the root `v`; the set of popped accounts is appended to the components exactly when it has 3 or more accounts, otherwise the components are unchanged; the indexes are unchanged |
| Scc.Tarjan.PopInto | backend/graph_engine.py:144-147 | one round of the popping loop: the top account leaves the stack and `on_stack` and joins the component being collected |
| Scc.Tarjan.Record | backend/graph_engine.py:150-151 | the component is appended exactly when it has 3 or more accounts, and the search invariant is kept |
| Scc.FindSccs | backend/graph_engine.py:119-158 | every component returned has three or more accounts, all in the graph or the node list, and no two share an account |
| Cycles.Rotate | backend/graph_engine.py:233 | `cycle[k:] + cycle[:k]` has the same length and the same accounts |
| Cycles.RotateIndex | backend/graph_engine.py:233 | position `i` of a rotation by `k` holds element `i + k` modulo the length |
| Cycles.RotateAt | backend/graph_engine.py:233 | the same, for every position at once |
| Cycles.FirstMin | backend/graph_engine.py:229-232 | the minimum scan returns a position inside the cycle |
| Cycles.FirstMinIsFirstSmallest | backend/graph_engine.py:229-232 | that position holds a smallest id, and no earlier position holds one as small |
| Cycles.NormalizeCycle | backend/graph_engine.py:228-233 | `_normalize_cycle` returns the canonical rotation: same length, same accounts, smallest id first |
| Cycles.RotateTwice | backend/graph_engine.py:233 | two rotations are one rotation by the sum of the offsets |
| Cycles.FirstMinUnique | backend/graph_engine.py:229-232 | in a cycle without repeats the scan finds the unique smallest id |
| Cycles.RotatedMinimum | backend/graph_engine.py:228-233 | rotating a cycle moves the smallest id to the matching position |
| Cycles.RotationSameKey | backend/graph_engine.py:216-217 | every rotation of a cycle without repeats has the same normal form and dedup key |
| Cycles.CycleSearch.constructor | backend/graph_engine.py:163-164 | the search starts with no cycles and no keys seen |
| Cycles.CycleSearch.RecordedSnoc | backend/graph_engine.py:218-220 | recording a genuine cycle under an unseen key keeps every cycle admissible and every key distinct and seen |
| Cycles.CycleSearch.SearchFrom | backend/graph_engine.py:193-197 | one start node's search keeps the invariant, adds nothing once the cap is reached, and otherwise stays within the cap plus the overshoot |
| Cycles.CycleSearch.SearchEach | backend/graph_engine.py:190-197 | the loop over the start nodes keeps the invariant and the bound of 202 cycles |
| Cycles.CycleSearch.Dfs | backend/graph_engine.py:202-225 | `_dfs` keeps every recorded cycle genuine, within `valid_nodes`, starting at a start node and with a key of its own; it only grows `seen`; it adds nothing once the cap is reached and otherwise at most the overshoot of its depth |
| Cycles.CycleSearch.OnPathExtend | backend/graph_engine.py:205-206 | appending `current` to a simple path of transfers from `start` gives a longer simple path |
| Cycles.CycleSearch.FollowEdge | backend/graph_engine.py:208-222 | one edge of the loop either closes a cycle, recurses, or is skipped, keeping the invariant |
| Cycles.CycleSearch.Record | backend/graph_engine.py:213-220 | a genuine path is appended, with its key added to `seen`, exactly when its key was unseen |
| Cycles.KeysSnoc | backend/graph_engine.py:217-220 | appending a cycle appends its key to the list of keys |
| Cycles.DistinctKeysNoRotation | backend/graph_engine.py:216-220 | when keys are distinct, no recorded cycle is a rotation of another |
| Cycles.Candidates | backend/graph_engine.py:170-173 | the candidates are exactly the listed accounts with both degrees positive |
| Cycles.SearchOrder | backend/graph_engine.py:182-188 | the start nodes are exactly the candidates inside a component, by degree, highest first |
| Cycles.UnionOf | backend/graph_engine.py:177-179 | `scc_nodes` is the union of the components |
| Cycles.DetectCycles | backend/graph_engine.py:161-199 | (`Found`) every cycle has 3 to 5 distinct accounts, each sending to the next and the last to the first; it starts at a listed candidate; keys are distinct; no cycle is a rotation of another; at most 202 cycles |
| Smurfing.CountAll | backend/graph_engine.py:295-298 | in sorted epochs, every epoch from the window start up to `i` lies within the window of epoch `i` |
| Smurfing.CountSkip | backend/graph_engine.py:296-297 | epochs skipped by the window start do not count for epoch `i` |
| Smurfing.WindowFromStart | backend/graph_engine.py:295-298 | `i - win_start + 1` is the number of epochs within the window ending at `i` |
| Smurfing.SlideStart | backend/graph_engine.py:296-297 | the inner loop moves the window start to the first epoch within the window of epoch `i`, never past `i` |
| Smurfing.TemporalDensity | backend/graph_engine.py:288-299 | `_compute_temporal_density` is 0 below two epochs, otherwise the largest window count over the number of epochs |
| Smurfing.WindowBounds | backend/graph_engine.py:298 | each window holds between 1 and `i + 1` epochs |
| Smurfing.CountAtMost | backend/graph_engine.py:298 | a window count never exceeds the epochs it ranges over |
| Smurfing.CountEnd | backend/graph_engine.py:298 | epoch `i` always lies in its own window |
| Smurfing.MaxWindowIsLargest | backend/graph_engine.py:293-298 | `max_in_window` is the largest window count, attained by some epoch, between 1 and n |
| Smurfing.DensityPositive | backend/graph_engine.py:288-299 | with two or more epochs the density lies in (0, 1] |
| Smurfing.InclusiveBoundary | backend/graph_engine.py:296 | two epochs exactly 72 hours apart share a window (density 1), one second more splits them (density 0.5) |
| Smurfing.DistinctPeers | backend/graph_engine.py:256 | the distinct counterparties of an edge list, each once, and no others |
| Smurfing.AccountPatterns | backend/graph_engine.py:249-283 | one account yields its fan-in pattern, if any, then its fan-out pattern |
| Smurfing.TestDirection | backend/graph_engine.py:250-265 | one direction's gates (degree, density, distinct counterparties) give exactly the patterns `PatternOf` defines |
| Smurfing.DetectSmurfing | backend/graph_engine.py:241-285 | `detect_smurfing` returns the described patterns, account by account in `node_stats` order |
| Smurfing.SmurfingStep | backend/graph_engine.py:248-283 | each account appends its own fan-in and fan-out patterns |
| Smurfing.SmurfingSound | backend/graph_engine.py:248-283 | every pattern has degree >= 10 in its direction, connected accounts exactly its distinct counterparties (10+, no repeats), `txCount` and `totalAmount` over all its transfers, and a score in (0, 1] |
| Smurfing.FanInReported | backend/graph_engine.py:250-265 | a fan-in pattern satisfies those promises over `reverse_adj` |
| Smurfing.FanOutReported | backend/graph_engine.py:268-283 | a fan-out pattern satisfies them over `adjacency` |
| Smurfing.SmurfingGrows | backend/graph_engine.py:246-285 | patterns found for earlier accounts are never dropped |
| Smurfing.SmurfingComplete | backend/graph_engine.py:250-283 | on a built graph, an account with ten or more transfers and ten or more distinct counterparties in a direction is always reported: the density gate never rejects |
| Smurfing.PatternsKept | backend/graph_engine.py:248-285 | an account's patterns all appear in the result |
| Shells.PotentialShells | backend/graph_engine.py:312-316 | the shells are exactly the accounts with 2 or 3 transactions and both degrees positive |
| Shells.FirstReceiver | backend/graph_engine.py:336-348 | the scan returns the receiver of the first qualifying edge, or none when no edge qualifies |
| Shells.FindReceiver | backend/graph_engine.py:336-348 | the `for ... break` loop finds that same receiver |
| Shells.BuildChain | backend/graph_engine.py:329-352 | the `while True` walk builds exactly the chain `ChainFrom` defines |
| Shells.ChainFromStart | backend/graph_engine.py:324-361 | one start node adds its chain exactly when it is not a shell and the chain qualifies |
| Shells.ShellChainsStep | backend/graph_engine.py:321-361 | one outer iteration stops at 100 chains, skips shells, and appends a qualifying chain |
| Shells.ChainsSaturate | backend/graph_engine.py:322-323 | once 100 chains exist no later start node adds one |
| Shells.GrowChainShape | backend/graph_engine.py:333-352 | the walk extends the chain without repeats, through shells only, along transfers, to at most 11 accounts |
| Shells.Extended | backend/graph_engine.py:336-348 | appending an unvisited receiver keeps the chain a simple transfer path |
| Shells.KeepsAll | backend/graph_engine.py:355 | filtering intermediaries that are all shells keeps them all |
| Shells.ChainFromShape | backend/graph_engine.py:329-356 | a chain starts at its start node, qualifies exactly when it has 4 or more accounts (the intermediary test never rejects), and then is layered |
| Shells.ShellChainsSound | backend/graph_engine.py:306-363 | at most 100 chains, each of 4 to 11 distinct accounts along transfers, first not a shell, every intermediary a shell, `shellAccounts` the intermediaries, `hopCount` the length minus one |
| Shells.DetectShellNetworks | backend/graph_engine.py:306-363 | `detect_shell_networks` returns the described chains over `node_stats` order |
| Legitimacy.Amounts | backend/graph_engine.py:376 | one amount per edge |
| Legitimacy.SteadyAmounts | backend/graph_engine.py:376-383 | the mean, variance and CV test accept exactly a non-empty list of positive mean whose CV is under the bound |
| Legitimacy.IdentifyLegitimateAccounts | backend/graph_engine.py:370-396 | an account is legitimate exactly when it passes the merchant test (in >= 20, out <= 3, steady incoming, CV < 0.5) or the payroll test (out >= 20, in <= 3, steady outgoing, CV < 0.3) |
| Legitimacy.SquaredDeviationsNonNegative | backend/graph_engine.py:380 | the sum of squared deviations is never negative |
| Legitimacy.ConstantSums | backend/graph_engine.py:378-380 | identical amounts sum to count times amount and deviate by zero |
| Legitimacy.ConstantIsSteady | backend/graph_engine.py:377-382 | identical positive amounts have that mean, variance 0, and pass any positive CV bound |
| Legitimacy.VarianceNonNegative | backend/graph_engine.py:380-381 | the variance is never negative, so the square root is defined |
| Legitimacy.UniformMerchant | backend/graph_engine.py:375-383 | twenty or more equal positive incoming payments and at most three outgoing make a merchant |
| Legitimacy.UniformPayroll | backend/graph_engine.py:386-394 | twenty or more equal positive outgoing payments and at most three incoming make a payroll account |
| Scoring.RoundNearest | backend/graph_engine.py:517 | Python `round` picks an integer at most one half away, and the even one on a tie |
| Scoring.RoundWithin | backend/graph_engine.py:522 | rounding a value between two integers stays between them |
| Scoring.HalveBounds | backend/graph_engine.py:517 | `round(s * 0.5)` is `s / 2` for even `s` and the even neighbour of `s / 2` for odd `s` |
| Scoring.RoundWhole | backend/graph_engine.py:522 | rounding a whole number leaves it unchanged |
| Scoring.Zeros | backend/graph_engine.py:424 | the padding is a run of `'0'` of the asked length |
| Scoring.LeadingDigit | backend/graph_engine.py:424 | a positive counter's digits do not start with 0 |
| Scoring.StripPadding | backend/graph_engine.py:424 | removing the zero padding gives the digits back |
| Scoring.PadInjective | backend/graph_engine.py:424 | `:03d` padding of digit strings without leading zeros is one-to-one |
| Scoring.RingIdInjective | backend/graph_engine.py:424 | `RING_{n:03d}` gives different ids to different ring numbers, so ring numbers stand for ids |
| Scoring.Detections | backend/graph_engine.py:422-486 | the rings are the cycles, then the patterns, then the chains: as many as all three together |
| Scoring.RingsOf | backend/graph_engine.py:430-486 | as many ring records as detections, so the counter ends at `len(cycles) + len(patterns) + len(chains)` |
| Scoring.FirstRing | backend/graph_engine.py:428 | an account has a first ring exactly when some ring visits it |
| Scoring.ApplyKeys | backend/graph_engine.py:451-474 | the credit loops keep the three dictionaries on the same keys and only append to their order |
| Scoring.ApplyScores | backend/graph_engine.py:425-473 | the credit loops add each account's visit points to its score, starting at 0 for new accounts |
| Scoring.ApplyTags | backend/graph_engine.py:427-477 | the credit loops add each account's visit tags to its set |
| Scoring.ApplyRings | backend/graph_engine.py:428-479 | `ring_membership` keeps an existing entry and otherwise gets the first visiting ring |
| Scoring.ApplySnoc | backend/graph_engine.py:425-479 | one more visit is one more loop body |
| Scoring.AllVisitsSnoc | backend/graph_engine.py:422-486 | one more ring appends that ring's visits |
| Scoring.RingStep | backend/graph_engine.py:422-486 | crediting one more ring's members continues the fold over all visits |
| Scoring.NextRing | backend/graph_engine.py:430-486 | appending one ring record extends the list of rings by that detection's ring |
| Scoring.ApplyAppend | backend/graph_engine.py:422-486 | crediting two lists of visits one after the other is crediting their concatenation |
| Scoring.Opened | backend/graph_engine.py:414-416 | the opened dictionaries share their keys, and their key order lists each account of `node_stats` once |
| Scoring.OpenBoard | backend/graph_engine.py:414-416 | the opening loop builds that board |
| Scoring.CreditMembers | backend/graph_engine.py:425-479 | an inner loop credits one ring's members, in order |
| Scoring.ScoreRing | backend/graph_engine.py:423-486 | one outer iteration credits ring `k` after rings before it |
| Scoring.ScoreRings | backend/graph_engine.py:418-486 | the three ring loops credit every visit and return one ring record per detection |
| Scoring.VisitPoints | backend/graph_engine.py:426-473 | every visit is worth at least 15 points |
| Scoring.FlattenPoints | backend/graph_engine.py:426-473 | that bound carries over the concatenation of rings |
| Scoring.HitsAtLeast | backend/graph_engine.py:426-473 | a visited account earns at least 15 ring points and an unvisited one none |
| Scoring.AccountsOfRing | backend/graph_engine.py:425-471 | the accounts a ring visits are its members |
| Scoring.FlattenAccounts | backend/graph_engine.py:422-486 | an account is visited exactly when some ring visits it |
| Scoring.MembersVisited | backend/graph_engine.py:422-486 | an account is visited exactly when it is a member of some detection |
| Scoring.FirstRingAppend | backend/graph_engine.py:428 | an account's first ring lies in the earlier part when that part visits it |
| Scoring.FirstRingFlatten | backend/graph_engine.py:428 | the first ring is that of the first ring list that visits it |
| Scoring.FirstRingIn | backend/graph_engine.py:428 | inside one ring the first ring is that ring |
| Scoring.FirstRingIsFirstDetection | backend/graph_engine.py:428-479 | `ring_membership` of an account is the number of the first detection that lists it, never overwritten by a later one |
| Suspicion.AccountBonus | backend/graph_engine.py:489-512 | the three account tests give exactly the velocity, anomaly and pass-through points `Bonus` and tags `BonusTags` |
| Suspicion.AddBonuses | backend/graph_engine.py:489-512 | every account of `node_stats` gets its bonus points and tags; no key, ring or order changes |
| Suspicion.AddBonus | backend/graph_engine.py:490-512 | one iteration adds one account's bonus |
| Suspicion.DiscountLegitimate | backend/graph_engine.py:514-518 | every legitimate account with a score is halved, rounded half to even, and tagged; nothing else changes |
| Suspicion.DiscountOne | backend/graph_engine.py:516-518 | one iteration halves and tags one account, if it has a score |
| Suspicion.CapScores | backend/graph_engine.py:520-522 | every score becomes `min(100, s)` on the same keys |
| Suspicion.RiskScores | backend/graph_engine.py:524-528 | every ring with members gets the mean member score rounded to tenths; others are unchanged |
| Suspicion.RingsAndBonuses | backend/graph_engine.py:414-512 | after steps 1 to 4 each account's score is its ring points plus bonus, its tags those of its visits and bonus, its ring its first ring |
| Suspicion.RingBoard | backend/graph_engine.py:414-486 | after the ring loops the dictionaries share their keys, which are `node_stats` followed by new ring members; scores are ring points, tags are visit tags, and ring membership is the first ring |
| Suspicion.RingBoardCounts | backend/graph_engine.py:414-486 | after the ring loops each score is the account's ring points and its tags those of its visits |
| Suspicion.CalculateSuspicionScores | backend/graph_engine.py:403-535 | (`Scored`) every account of `node_stats` and every ring member is scored `min(100, half-if-legitimate(ring points + bonus))` in [0, 100]; its tags are its visit and bonus tags plus `likely_legitimate` if legitimate; its ring is its first ring; one ring per detection with risk in [0, 100] |
| Suspicion.FastPacedBySpan | backend/graph_engine.py:491-498 | the velocity test holds exactly when there are 5+ epochs, not all equal, each pair closer than 3600 s per gap |
| Suspicion.Extremes | backend/graph_engine.py:493-494 | the first and last sorted epochs are the smallest and largest |
| Suspicion.LopsidedByDegrees | backend/graph_engine.py:501-505 | the degree anomaly holds exactly when both degrees are positive and one exceeds five times the other |
| Suspicion.PassesThroughByTotals | backend/graph_engine.py:508-512 | pass-through holds exactly when each total exceeds 85% of the other over 4+ transactions |
| Suspicion.BonusTagged | backend/graph_engine.py:489-512 | points come with tags and vice versa; a bonus is 0 or between 5 and 25 |
| Suspicion.FinalScoreBounds | backend/graph_engine.py:514-522 | a final score lies in [0, 100], the discount never raises it, it is positive exactly when raw points are 2+ (or 1 without the discount), and 15 raw points leave at least 7 |
| Suspicion.Flagged | backend/graph_engine.py:422-522 | an account ends positive exactly when some ring visits it or it earns a bonus |
| Suspicion.RingMembersFlagged | backend/graph_engine.py:422-522 | every ring member scores at least 7 and belongs to a ring no later than this one |
| Suspicion.RiskBounds | backend/graph_engine.py:526-528 | with member scores in [0, 100] the ring risk lies in [0, 100] and within 0.05 of the exact mean |
| Suspicion.MemberSumBounds | backend/graph_engine.py:526 | the member scores sum to between 0 and 100 times the member count |
| Report.FlaggedAccounts | backend/graph_engine.py:580-581 | the comprehension keeps exactly the scored accounts with a positive score, in key order |
| Report.Entries | backend/graph_engine.py:573-582 | one entry per flagged account |
| Report.EntriesExactly | backend/graph_engine.py:573-582 | the entries are exactly those of the positive accounts, each with its score, tags and ring id, without repeats |
| Report.SortedEntries | backend/graph_engine.py:572-585 | sorting neither adds nor drops an entry |
| Report.SuspiciousExactly | backend/graph_engine.py:572-585 | `suspicious_accounts` holds every positive account once, with its own entry, highest score first, equal scores in key order |
| Report.RingsRanked | backend/graph_engine.py:587 | `fraud_rings` is a permutation of the rings, riskiest first, equal risks in found order |
| Report.FlaggedCount | backend/graph_engine.py:601 | the flagged count is the number of accounts with a positive score |
| Report.KeysCount | backend/graph_engine.py:599 | a duplicate-free key list is as long as the map, so `len(nodes)` counts the accounts |
| Report.RingMembersPositive | backend/graph_engine.py:422-528 | every member of every ring has a positive final score |
| Report.RingsReported | backend/graph_engine.py:572-587 | every reported ring has risk in [0, 100] and all its members among the reported accounts |
| Report.Score | backend/graph_engine.py:563-566 | step 6 scores exactly as `Scored` describes for the given detections and legitimate set; its keys are duplicate-free and begin with the `node_stats` order; scores and risks lie in [0, 100]; every ring member has a positive score |
| Report.Assess | backend/graph_engine.py:549-566 | the detections are what `detect_cycles` promises (`Cycles.Found`), the smurfing patterns and shell chains of the graph, and exactly the merchants and payroll accounts (`Detected`); the assessment is `Scored` from them, with the key order, bounds and positive ring members of `Score` |
| Report.AssembledSound | backend/graph_engine.py:573-606 | the report built from a keyed, bounded assessment lists accounts with scores in (0, 100], each once, highest first; rings riskiest first with risks in [0, 100] and members among the listed accounts; the summary counts both lists (`Ranked`) |
| Report.AnalyzeTransactions | backend/graph_engine.py:542-606 | the report is exactly `Assemble` of an assessment `Scored` from the detections `Detected` on `Build(txs)`, whose key order begins with the `node_stats` order of `Build(txs)`, so accounts of equal score are listed in that order; the summary counts the accounts and the rows; and the report is `Ranked` |

## Left out

- Timestamp parsing with `datetime.strptime` over a list of formats is a library call. A transaction carries its parsed epoch as `Option<int>`, where `None` is a row that failed to parse.
- The failure message printed for a skipped row is left out.
- Wall-clock budgets are left out: the 4-second cycle timeout and `processing_time`. A timeout could only cut the start-node loop short, and every property proved of the cycles survives that.
- `_build_graph_data_for_frontend` is not part of this model. It is a visualisation projection.
- `parse_csv_content` is not part of this model. Neither are `backend/main.py`, `backend/gradio_tunnel.py` and `api/index.py`: these are CSV, HTTP and deployment glue.
- Floating point is left out:
  - Amounts, totals, densities and scores are exact reals.
  - Python's `round` is modelled exactly, as round half to even on reals.
  - Binary rounding error of `* 0.5`, `* 10` and `/ 10` is not modelled.
- The CV test `sqrt(var) / avg < c` is stated as `var < (c * avg)^2`. With `avg > 0` and `c > 0` the two are equivalent over the reals.
- Python set iteration order is left out:
  - `nodes` (`list(set)`) is a parameter, so every duplicate-free listing of the accounts is allowed.
  - The legitimate set is visited in any order, and the discount commutes.
  - `connectedAccounts` and `shellAccounts` are lists. `DistinctPeers` fixes first-appearance order, which is one admissible order of `list(set)`.
  - The contracts state only what holds for every order.
- The tag sets are kept as sets, not as the `list(v)` the source returns. Ring membership is kept as ring numbers and rendered to `RING_nnn` ids in the report; `RingIdInjective` shows that nothing is lost.
- The three ring loops are one fold over the cycles, patterns and chains in that order. The shared counter makes them one sequence of rings.
- The `KeyError` that `scores[account] += 30` would raise on an account missing from `node_stats` cannot happen: every cycle member and smurfing centre is an account of the graph. The model credits through `setdefault` everywhere.
- Scc.FindSccs: proves that each component has three or more accounts, that the components are disjoint, and that they lie within the graph. It does not prove that they are exactly the strongly connected components. The cycle properties do not depend on which accounts the pruning keeps.
- Scc.Tarjan.StrongConnect: states the search invariant and how the index, stack and component list grow. It does not state the low-link invariant of Tarjan's algorithm.
- Transaction amounts are reals. `float(tx["amount"])` runs outside the `try` (backend/graph_engine.py:51), so an amount that does not parse raises `ValueError` and aborts the whole analysis. The model has no such failure.
- Scc.FindSccs: `strongconnect` is recursive (backend/graph_engine.py:128-156), so a long enough chain of accounts makes Python raise `RecursionError`. The model's search always returns; it does not model the recursion limit.
- Cycles.DetectCycles: proves soundness, deduplication and the bound of 202. It does not prove completeness, i.e. that every simple cycle of 3 to 5 accounts through a start node is found below the cap.
- Lex.Join: its contract states only the empty and one-part cases. The key's role is carried by `Cycles.RotationSameKey` and `Cycles.DistinctKeysNoRotation`.
- Smurfing.TemporalDensity: returns the quotient as a real rather than the pair (window count, epoch count). `MaxWindowIsLargest` states the pair's properties.
