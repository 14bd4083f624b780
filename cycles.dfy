/** Pattern 1, circular fund routing: `detect_cycles`, its depth-first
    search `_dfs` and `_normalize_cycle`, the rotation used to recognise the
    same ring found from another of its accounts. */
module Cycles {

  import opened TxGraph
  import Lex
  import Sorting
  import Scc

  /** `MAX_CYCLES`: the search stops starting new paths once this many rings
      are recorded. */
  const MaxCycles: nat := 200

  // ---------------------------------------------------------------------
  // Normalisation

  /** `c` read from position `k` on, wrapping round to its start. */
  function Rotate<T>(c: seq<T>, k: nat): (r: seq<T>)
    requires k <= |c|
    ensures |r| == |c| && multiset(r) == multiset(c)
  {
    assert c == c[..k] + c[k..];
    c[k..] + c[..k]
  }

  /** A position `i < 2 * n` brought back into `[0, n)`. */
  function Wrap(i: nat, n: nat): nat
  {
    if i < n then i else i - n
  }

  /** Position `i` of a rotation is position `i + k` of the ring, wrapped. */
  lemma RotateIndex<T>(c: seq<T>, k: nat, i: nat)
    requires k <= |c| && i < |c|
    ensures Rotate(c, k)[i] == c[Wrap(i + k, |c|)]
  {
  }

  /** The same for every position at once. */
  lemma RotateAt<T>(c: seq<T>, k: nat)
    requires k <= |c|
    ensures forall i :: 0 <= i < |c| ==> Rotate(c, k)[i] == c[Wrap(i + k, |c|)]
  {
    forall i | 0 <= i < |c| ensures Rotate(c, k)[i] == c[Wrap(i + k, |c|)] {
      RotateIndex(c, k, i);
    }
  }

  /** The position of the first smallest account of `c` in Python's string
      order, found as `_normalize_cycle`'s scan finds it. */
  function FirstMin(c: seq<string>): (m: nat)
    requires |c| > 0
    ensures m < |c|
  {
    if |c| == 1 then 0
    else
      var m := FirstMin(c[..|c| - 1]);
      if Lex.Less(c[|c| - 1], c[m]) then |c| - 1 else m
  }

  /** Nothing in `c` is smaller than the account at `FirstMin(c)`, and every
      account before it is larger. */
  lemma {:induction false} FirstMinIsFirstSmallest(c: seq<string>)
    requires |c| > 0
    ensures forall i :: 0 <= i < |c| ==> !Lex.Less(c[i], c[FirstMin(c)])
    ensures forall i :: 0 <= i < FirstMin(c) ==> Lex.Less(c[FirstMin(c)], c[i])
  {
    if |c| == 1 {
      Lex.LessIrreflexive(c[0]);
    } else {
      var last := |c| - 1;
      var m := FirstMin(c[..last]);
      FirstMinIsFirstSmallest(c[..last]);
      assert forall i :: 0 <= i < last ==> c[..last][i] == c[i];
      if Lex.Less(c[last], c[m]) {
        forall i | 0 <= i < |c| ensures !Lex.Less(c[i], c[last]) {
          if i == last {
            Lex.LessIrreflexive(c[last]);
          } else if Lex.Less(c[i], c[last]) {
            Lex.LessTransitive(c[i], c[last], c[m]);
          }
        }
        forall i | 0 <= i < last ensures Lex.Less(c[last], c[i]) {
          if c[i] != c[m] {
            Lex.LessTotal(c[i], c[m]);
            Lex.LessTransitive(c[last], c[m], c[i]);
          }
        }
      }
    }
  }

  /** `_normalize_cycle` as a value: the rotation of the ring that starts at
      its first smallest account. */
  function Canonical(c: seq<string>): seq<string>
  {
    if c == [] then [] else Rotate(c, FirstMin(c))
  }

  /** The dedup key of a ring: its normal form joined with "->". */
  function Key(c: seq<string>): string
  {
    Lex.Join(Canonical(c))
  }

  /** `_normalize_cycle(cycle)`: a scan for the first smallest account, then
      the rotation that starts there. */
  method NormalizeCycle(c: seq<string>) returns (r: seq<string>)
    ensures r == Canonical(c)
    ensures |r| == |c| && multiset(r) == multiset(c)
    ensures forall i :: 0 <= i < |r| ==> !Lex.Less(r[i], r[0])
  {
    var minIdx := 0;
    if c == [] {
      return c[minIdx..] + c[..minIdx];
    }
    FirstMinIsFirstSmallest(c);
    for i := 1 to |c|
      invariant minIdx == FirstMin(c[..i])
    {
      assert c[..i + 1][..i] == c[..i];
      if Lex.Less(c[i], c[minIdx]) {
        minIdx := i;
      }
    }
    assert c[..|c|] == c;
    r := c[minIdx..] + c[..minIdx];
    forall i | 0 <= i < |r| ensures !Lex.Less(r[i], r[0]) {
      RotateAt(c, minIdx);
    }
  }

  /** Rotating twice is rotating once by the sum of the offsets. */
  lemma RotateTwice<T>(c: seq<T>, k: nat, j: nat)
    requires k < |c| && j < |c|
    ensures Rotate(Rotate(c, k), j) == Rotate(c, Wrap(k + j, |c|))
  {
    var n := |c|;
    var d := Rotate(c, k);
    var s := Wrap(k + j, n);
    forall i | 0 <= i < n ensures Rotate(d, j)[i] == Rotate(c, s)[i] {
      var a := Wrap(i + j, n);
      RotateIndex(d, j, i);
      RotateIndex(c, k, a);
      RotateIndex(c, s, i);
      assert Wrap(a + k, n) == Wrap(i + s, n);
    }
  }

  /** An account no other account of `c` is smaller than or equal to
      is the one `FirstMin` finds. */
  lemma FirstMinUnique(c: seq<string>, i: nat)
    requires i < |c|
    requires forall x :: 0 <= x < |c| ==> !Lex.Less(c[x], c[i])
    requires forall x :: 0 <= x < |c| && x != i ==> c[x] != c[i]
    ensures FirstMin(c) == i
  {
    var m := FirstMin(c);
    FirstMinIsFirstSmallest(c);
    if m != i {
      assert !Lex.Less(c[i], c[m]) && !Lex.Less(c[m], c[i]);
      Lex.LessTotal(c[i], c[m]);
    }
  }

  /** In a ring without repeated accounts the smallest account is unique,
      so the normal form of a rotation by `k` starts at the position `j`
      the smallest account was moved to. */
  lemma RotatedMinimum(c: seq<string>, k: nat, j: nat)
    requires |c| > 0 && k < |c| && NoDuplicates(c)
    requires j < |c| && Wrap(j + k, |c|) == FirstMin(c)
    ensures FirstMin(Rotate(c, k)) == j
  {
    var n := |c|;
    var m := FirstMin(c);
    var d := Rotate(c, k);
    RotateIndex(c, k, j);
    forall x | 0 <= x < n
      ensures !Lex.Less(d[x], d[j])
      ensures x != j ==> d[x] != d[j]
    {
      var y := Wrap(x + k, n);
      RotateIndex(c, k, x);
      assert x != j ==> y != m;
      FirstMinIsFirstSmallest(c);
    }
    FirstMinUnique(d, j);
  }

  /** Hence every rotation of such a ring has the same normal form, and the
      same key: a ring found again from another of its accounts is
      recognised. */
  lemma RotationSameKey(c: seq<string>, k: nat)
    requires |c| > 0 && k < |c| && NoDuplicates(c)
    ensures Canonical(Rotate(c, k)) == Canonical(c)
    ensures Key(Rotate(c, k)) == Key(c)
  {
    var n := |c|;
    var m := FirstMin(c);
    var j := if k <= m then m - k else m + n - k;
    RotatedMinimum(c, k, j);
    RotateTwice(c, k, j);
  }

  // ---------------------------------------------------------------------
  // Rings

  /** There is a transfer from `a` to `b`. */
  predicate Linked(adjacency: map<string, seq<Edge>>, a: string, b: string)
  {
    a in adjacency && exists e :: e in adjacency[a] && e.peer == b
  }

  /** A ring as the pattern promises it: three to five distinct accounts,
      each sending to the next and the last sending back to the first. */
  predicate Genuine(adjacency: map<string, seq<Edge>>, c: seq<string>)
  {
    && 3 <= |c| <= 5
    && NoDuplicates(c)
    && (forall i :: 0 <= i < |c| - 1 ==> Linked(adjacency, c[i], c[i + 1]))
    && Linked(adjacency, c[|c| - 1], c[0])
  }

  /** The most rings a search from one depth can record once it was entered
      below `MaxCycles`: the cap is tested only on entry to `_dfs`, so each of
      the frames at depths 2 and 3 still on the stack may close one more ring
      after a deeper frame reached the cap. */
  function Overshoot(depth: nat): nat
  {
    if depth >= 4 then 0 else if depth >= 2 then 4 - depth else 2
  }

  /** The state shared by the depth-first searches of `detect_cycles`: the
      rings found and the keys seen. The path and the visited set of the
      search in progress are passed down as values: `_dfs` restores both
      before it returns, so a callee's changes are never seen by its
      caller. */
  class CycleSearch {
    const adjacency: map<string, seq<Edge>>
    /** `valid_nodes`: the accounts a ring may pass through. */
    const validNodes: set<string>
    /** The accounts a search may start from. */
    ghost const starts: set<string>

    var cycles: seq<seq<string>>
    var seen: set<string>

    /** Every recorded ring is genuine, within the valid accounts, starts at a
        start account, and has a key of its own that `seen` holds. */
    ghost predicate Valid()
      reads this`cycles, this`seen
    {
      Recorded(cycles, seen)
    }

    ghost predicate Recorded(cycles: seq<seq<string>>, seen: set<string>)
    {
      && (forall i :: 0 <= i < |cycles| ==> Admissible(cycles[i]))
      && (forall k :: k in KeysOf(cycles) ==> k in seen)
      && NoDuplicates(KeysOf(cycles))
    }

    /** Recording an admissible ring under a key not seen before keeps the
        rings admissible and their keys distinct and seen. */
    lemma RecordedSnoc(cycles: seq<seq<string>>, seen: set<string>, c: seq<string>)
      requires Recorded(cycles, seen) && Admissible(c) && Key(c) !in seen
      ensures Recorded(cycles + [c], seen + {Key(c)})
    {
      KeysSnoc(cycles, c);
      var keys := KeysOf(cycles);
      assert Key(c) !in keys;
      forall i | 0 <= i < |cycles + [c]| ensures Admissible((cycles + [c])[i]) {
        if i < |cycles| {
          assert (cycles + [c])[i] == cycles[i];
        }
      }
    }

    /** A ring the search may record: genuine, within the valid accounts,
        and starting at a start account. */
    ghost predicate Admissible(c: seq<string>)
    {
      && Genuine(adjacency, c)
      && (forall k :: 0 <= k < |c| ==> c[k] in validNodes)
      && c[0] in starts
    }

    /** `path` is a simple path of transfers from `start` through valid
        accounts, and `visited` is exactly its set of accounts. */
    ghost predicate OnPath(start: string, path: seq<string>, visited: set<string>)
    {
      && (|path| > 0 ==> path[0] == start)
      && NoDuplicates(path)
      && (forall x :: x in visited <==> x in path)
      && (forall k :: 0 <= k < |path| ==> path[k] in validNodes)
      && (forall k :: 0 <= k < |path| - 1 ==> Linked(adjacency, path[k], path[k + 1]))
    }

    constructor (adjacency: map<string, seq<Edge>>, validNodes: set<string>, ghost starts: set<string>)
      ensures Valid() && cycles == []
      ensures this.adjacency == adjacency && this.validNodes == validNodes && this.starts == starts
    {
      this.adjacency := adjacency;
      this.validNodes := validNodes;
      this.starts := starts;
      cycles := [];
      seen := {};
    }

    /** One search of `detect_cycles`' loop: `_dfs(start, start, 0, ...)`
        with a fresh visited set and path. */
    method SearchFrom(start: string)
      requires Valid() && start in validNodes && start in starts
      modifies this
      ensures Valid()
      ensures old(|cycles|) >= MaxCycles ==> cycles == old(cycles)
      ensures old(|cycles|) < MaxCycles ==> |cycles| <= MaxCycles + Overshoot(0)
    {
      var visited: set<string> := {};
      var path: seq<string> := [];
      Dfs(start, start, 0, visited, path);
    }

    /** The loop of `detect_cycles`: a search from each account of `order`
        in turn, stopping once `MaxCycles` rings are recorded. */
    method SearchEach(order: seq<string>)
      requires Valid() && |cycles| <= MaxCycles + Overshoot(0)
      requires forall n :: n in order ==> n in validNodes && n in starts
      modifies this
      ensures Valid() && |cycles| <= MaxCycles + Overshoot(0)
    {
      for i := 0 to |order|
        invariant Valid() && |cycles| <= MaxCycles + Overshoot(0)
      {
        if |cycles| >= MaxCycles {
          break;
        }
        SearchFrom(order[i]);
      }
    }

    /** `_dfs(current, start, depth, visited, path, ...)`: extends the path by
        `current` and follows each transfer out of `current`. Entered below
        `MaxCycles`, it records at most `Overshoot(depth)` rings past the
        cap. */
    method Dfs(current: string, start: string, depth: nat, visited: set<string>, path: seq<string>)
      requires Valid() && OnPath(start, path, visited) && start in starts
      requires |path| == depth && current in validNodes && current !in visited
      requires depth == 0 ==> current == start
      requires depth > 0 ==> Linked(adjacency, path[depth - 1], current)
      modifies this
      ensures Valid() && old(seen) <= seen
      ensures old(|cycles|) >= MaxCycles ==> cycles == old(cycles)
      ensures old(|cycles|) < MaxCycles ==> |cycles| <= MaxCycles + Overshoot(depth)
      decreases 5 - depth, 1
    {
      if depth > 5 || |cycles| >= MaxCycles {
        return;
      }
      OnPathExtend(start, path, visited, current);
      var visited := visited + {current};
      var path := path + [current];
      ghost var closed := false;

      var edges := if current in adjacency then adjacency[current] else [];
      for j := 0 to |edges|
        invariant Valid() && old(seen) <= seen
        invariant Closing(depth, path, closed)
      {
        assert Linked(adjacency, current, edges[j].peer) by {
          assert edges[j] in adjacency[current];
        }
        closed := FollowEdge(current, edges[j].peer, start, depth, visited, path, closed);
      }
    }

    /** Stepping from the end of a simple path to an unvisited valid
        account it links to keeps the path simple. */
    lemma OnPathExtend(start: string, path: seq<string>, visited: set<string>, current: string)
      requires OnPath(start, path, visited) && current in validNodes && current !in visited
      requires |path| == 0 ==> current == start
      requires |path| > 0 ==> Linked(adjacency, path[|path| - 1], current)
      ensures OnPath(start, path + [current], visited + {current})
    {
      var p := path + [current];
      forall k | 0 <= k < |p| - 1 ensures Linked(adjacency, p[k], p[k + 1]) {
        if k < |path| - 1 {
          assert p[k] == path[k] && p[k + 1] == path[k + 1];
        }
      }
    }

    /** What `_dfs` at `depth` keeps about the cap while it follows its
        transfers: below the cap a deeper frame may overshoot, and this frame
        itself records at most one ring, the one its own path closes
        (`closed`), whose key is then in `seen`. */
    ghost predicate Closing(depth: nat, path: seq<string>, closed: bool)
      reads this`cycles, this`seen
    {
      && (closed ==> depth >= 2 && Key(path) in seen)
      && |cycles| <= (if depth < 4 then MaxCycles + Overshoot(depth + 1) else MaxCycles - 1)
                     + (if closed then 1 else 0)
    }

    /** One iteration of `_dfs`' loop, for the transfer `current -> nxt`:
        accounts outside `valid_nodes` are skipped; a transfer back to
        `start` after two or more steps closes the path into a ring of
        three to five accounts; any other unvisited account is searched
        from while the depth is below 4. */
    method FollowEdge(current: string, nxt: string, start: string, depth: nat,
                      visited: set<string>, path: seq<string>, ghost closed: bool)
      returns (ghost closed': bool)
      requires Valid() && OnPath(start, path, visited) && start in starts
      requires |path| == depth + 1 && path[depth] == current && Linked(adjacency, current, nxt)
      requires Closing(depth, path, closed)
      modifies this
      ensures Valid() && Closing(depth, path, closed') && old(seen) <= seen
      decreases 5 - depth, 0
    {
      closed' := closed;
      if nxt !in validNodes {
        return;
      }
      if nxt == start && depth >= 2 {
        var cycleLen := |path|;
        if 3 <= cycleLen <= 5 {
          var cyclePath := path;
          ghost var before := |cycles|;
          Record(cyclePath);
          closed' := closed || |cycles| > before;
        }
      } else if nxt !in visited && depth < 4 {
        Dfs(nxt, start, depth + 1, visited, path);
      }
    }

    /** The closing step of `_dfs`: the ring `c` is appended, and its key
        added to `seen`, unless a ring with the same key was recorded. */
    method Record(c: seq<string>)
      requires Valid() && Genuine(adjacency, c) && c[0] in starts
      requires forall k :: 0 <= k < |c| ==> c[k] in validNodes
      modifies this
      ensures Valid() && Key(c) in seen
      ensures Key(c) in old(seen) ==> cycles == old(cycles) && seen == old(seen)
      ensures Key(c) !in old(seen) ==> cycles == old(cycles) + [c] && seen == old(seen) + {Key(c)}
    {
      var norm := NormalizeCycle(c);
      var key := Lex.Join(norm);
      if key !in seen {
        RecordedSnoc(cycles, seen, c);
        seen := seen + {key};
        cycles := cycles + [c];
      }
    }
  }

  /** The dedup keys of `cycles`, in order. */
  function KeysOf(cycles: seq<seq<string>>): (keys: seq<string>)
    ensures |keys| == |cycles|
  {
    seq(|cycles|, i requires 0 <= i < |cycles| => Key(cycles[i]))
  }

  lemma KeysSnoc(cycles: seq<seq<string>>, c: seq<string>)
    ensures KeysOf(cycles + [c]) == KeysOf(cycles) + [Key(c)]
  {
    forall i | 0 <= i < |cycles| ensures KeysOf(cycles + [c])[i] == KeysOf(cycles)[i] {
      assert (cycles + [c])[i] == cycles[i];
    }
  }

  /** Distinct keys mean that no recorded ring is a rotation of another:
      the same ring is never reported twice from different starting
      accounts. */
  lemma DistinctKeysNoRotation(adjacency: map<string, seq<Edge>>, cycles: seq<seq<string>>)
    requires forall i :: 0 <= i < |cycles| ==> Genuine(adjacency, cycles[i])
    requires NoDuplicates(KeysOf(cycles))
    ensures forall i, j :: 0 <= i < j < |cycles| ==> Key(cycles[i]) != Key(cycles[j])
    ensures forall i, j, k :: 0 <= i < |cycles| && 0 <= j < |cycles| && i != j && 0 <= k < |cycles[i]| ==>
              cycles[j] != Rotate(cycles[i], k)
  {
    var keys := KeysOf(cycles);
    forall i, j | 0 <= i < |cycles| && 0 <= j < |cycles| && i != j
      ensures Key(cycles[i]) != Key(cycles[j])
    {
      assert keys[i] == Key(cycles[i]) && keys[j] == Key(cycles[j]);
    }
    forall i, j, k | 0 <= i < |cycles| && 0 <= j < |cycles| && i != j && 0 <= k < |cycles[i]|
      ensures cycles[j] != Rotate(cycles[i], k)
    {
      RotationSameKey(cycles[i], k);
    }
  }

  /** `candidates`: the accounts of `nodeList` that both receive and send. */
  function Candidates(g: Graph, nodeList: seq<string>): (r: seq<string>)
    ensures forall n :: n in r <==> n in nodeList && n in g.stats && g.stats[n].inDeg > 0 && g.stats[n].outDeg > 0
  {
    Sorting.Filter(nodeList, n => n in g.stats && g.stats[n].inDeg > 0 && g.stats[n].outDeg > 0)
  }

  /** `inDeg + outDeg` of an account, 0 for an unknown one. */
  function Degree(g: Graph, n: string): nat
  {
    if n in g.stats then g.stats[n].inDeg + g.stats[n].outDeg else 0
  }

  /** `scc_candidates` sorted by `inDeg + outDeg`, largest first: the
      candidates that lie in some component, in the order they are searched
      from. Python's sort is stable, so equal degrees keep their order. */
  function SearchOrder(g: Graph, candidates: seq<string>, sccNodes: set<string>): (order: seq<string>)
    ensures forall n :: n in order <==> n in candidates && n in sccNodes
    ensures forall i, j :: 0 <= i < j < |order| ==> Degree(g, order[i]) >= Degree(g, order[j])
  {
    var sccCandidates := Sorting.Filter(candidates, n => n in sccNodes);
    var order := Sorting.SortDesc(sccCandidates, n => Degree(g, n) as real);
    assert forall n :: n in order <==> n in sccCandidates by {
      forall n ensures n in order <==> n in sccCandidates {
        assert n in order <==> n in multiset(order);
        assert n in sccCandidates <==> n in multiset(sccCandidates);
      }
    }
    order
  }

  /** `scc_nodes`: the accounts of all the components, gathered one
      component at a time. */
  method UnionOf(sccs: seq<set<string>>) returns (nodes: set<string>)
    ensures forall x :: x in nodes <==> exists k :: 0 <= k < |sccs| && x in sccs[k]
  {
    nodes := {};
    for i := 0 to |sccs|
      invariant forall x :: x in nodes <==> exists k :: 0 <= k < i && x in sccs[k]
    {
      nodes := nodes + sccs[i];
    }
  }

  /** What `detect_cycles` promises of the rings it returns: each is a real
      ring of the graph starting at a candidate of `nodeList` that both sends
      and receives, no two share a canonical key or are rotations of each
      other, and the budget bounds how many there are. */
  ghost predicate Found(g: Graph, nodeList: seq<string>, cycles: seq<seq<string>>)
  {
    && (forall i :: 0 <= i < |cycles| ==>
          && Genuine(g.adjacency, cycles[i])
          && var first := cycles[i][0];
             first in nodeList && first in g.stats && g.stats[first].inDeg > 0 && g.stats[first].outDeg > 0)
    && (forall i, j :: 0 <= i < j < |cycles| ==> Key(cycles[i]) != Key(cycles[j]))
    && (forall i, j, k :: 0 <= i < |cycles| && 0 <= j < |cycles| && i != j && 0 <= k < |cycles[i]| ==>
          cycles[j] != Rotate(cycles[i], k))
    && |cycles| <= MaxCycles + Overshoot(0)
  }

  /** `detect_cycles(adjacency, node_list, node_stats)`: searches from the
      accounts that both send and receive and lie in a strongly connected
      component of three or more accounts, busiest first, until `MaxCycles`
      rings are recorded. */
  method DetectCycles(g: Graph, nodeList: seq<string>) returns (cycles: seq<seq<string>>)
    requires forall n :: n in nodeList ==> n in g.stats
    ensures Found(g, nodeList, cycles)
  {
    var candidates := Candidates(g, nodeList);
    var sccs := Scc.FindSccs(g.adjacency, candidates);
    var sccNodes := UnionOf(sccs);
    var order := SearchOrder(g, candidates, sccNodes);
    ghost var starts := set n | n in nodeList && n in g.stats && g.stats[n].inDeg > 0 && g.stats[n].outDeg > 0;
    var search := new CycleSearch(g.adjacency, sccNodes, starts);
    search.SearchEach(order);
    cycles := search.cycles;
    DistinctKeysNoRotation(g.adjacency, cycles);
  }
}
