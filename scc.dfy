/** `_find_sccs`: Tarjan's strongly connected components over the forward
    adjacency lists, keeping only components of three or more accounts. The
    recursion of the source becomes a recursive method on an object that
    holds the search state (`index`, `lowlink`, the explicit stack and its
    membership set, and the components found). */
module Scc {

  import opened TxGraph

  /** Every account named in `adjacency`, as a key or as a receiver. */
  function Mentioned(adjacency: map<string, seq<Edge>>): set<string>
  {
    adjacency.Keys + set a, e | a in adjacency && e in adjacency[a] :: e.peer
  }

  predicate Disjoint(sccs: seq<set<string>>)
  {
    forall i, j :: 0 <= i < j < |sccs| ==> sccs[i] !! sccs[j]
  }

  class Tarjan {
    const adjacency: map<string, seq<Edge>>
    /** The accounts the search can reach: the bound on its recursion. */
    ghost const nodes: set<string>

    var counter: nat
    var stack: seq<string>
    var onStack: set<string>
    var index: map<string, nat>
    var lowlink: map<string, nat>
    var sccs: seq<set<string>>

    /** The search invariant, apart from the low links. */
    ghost predicate Valid()
      reads this`index, this`stack, this`onStack, this`sccs
    {
      && (forall a, e :: a in adjacency && e in adjacency[a] ==> e.peer in nodes)
      && index.Keys <= nodes
      && NoDuplicates(stack)
      && (forall x :: x in onStack <==> x in stack)
      && onStack <= index.Keys
      && (forall i :: 0 <= i < |sccs| ==> |sccs[i]| >= 3 && sccs[i] <= index.Keys && sccs[i] !! onStack)
      && Disjoint(sccs)
    }

    constructor (adjacency: map<string, seq<Edge>>, ghost nodes: set<string>)
      requires Mentioned(adjacency) <= nodes
      ensures Valid()
      ensures this.adjacency == adjacency && this.nodes == nodes
      ensures index == map[] && lowlink == map[] && stack == [] && sccs == []
    {
      this.adjacency := adjacency;
      this.nodes := nodes;
      counter := 0;
      stack := [];
      onStack := {};
      index := map[];
      lowlink := map[];
      sccs := [];
      new;
      forall a, e | a in adjacency && e in adjacency[a] ensures e.peer in nodes {
        assert e.peer in Mentioned(adjacency);
      }
    }

    /** `strongconnect(v)`: indexes `v` and everything it reaches that was not
        indexed yet, and records the components closed on the way. The stack
        below `v` and the components found before are left as they were. */
    method StrongConnect(v: string)
      requires Valid() && lowlink.Keys == index.Keys && v in nodes && v !in index
      modifies this
      ensures Valid() && lowlink.Keys == index.Keys
      ensures old(index).Keys + {v} <= index.Keys
      ensures Prefix(old(stack), stack)
      ensures Prefix(old(sccs), sccs)
      decreases |nodes - index.Keys|, 0
    {
      ghost var below, sccs0, indexed0 := stack, sccs, index.Keys;
      Push(v);

      var edges := if v in adjacency then adjacency[v] else [];
      for j := 0 to |edges|
        invariant Valid() && lowlink.Keys == index.Keys
        invariant indexed0 + {v} <= index.Keys
        invariant Prefix(below + [v], stack)
        invariant Prefix(sccs0, sccs)
      {
        var w := edges[j].peer;
        assert w in nodes by {
          assert edges[j] in adjacency[v];
        }
        ShrinksUnvisited(nodes, indexed0, index.Keys, v);
        VisitEdge(v, w, below, sccs0, indexed0);
      }

      if lowlink[v] == index[v] {
        PopComponent(v, below);
      }
    }

    /** The body of the loop over the edges of `v`, for the edge to `w`:
        an account not indexed yet is searched from; one still on the stack
        lowers the low link of `v` to its index. */
    method VisitEdge(v: string, w: string, ghost below: seq<string>, ghost sccs0: seq<set<string>>,
                     ghost indexed0: set<string>)
      requires Valid() && lowlink.Keys == index.Keys && w in nodes
      requires indexed0 + {v} <= index.Keys && Prefix(below + [v], stack) && Prefix(sccs0, sccs)
      modifies this
      ensures Valid() && lowlink.Keys == index.Keys
      ensures indexed0 + {v} <= index.Keys && Prefix(below + [v], stack) && Prefix(sccs0, sccs)
      decreases |nodes - index.Keys|, 2
    {
      if w !in index {
        ghost var pre, preSccs := stack, sccs;
        Descend(v, w);
        PrefixTransitive(below + [v], pre, stack);
        PrefixTransitive(sccs0, preSccs, sccs);
      } else if w in onStack {
        lowlink := lowlink[v := Min(lowlink[v], index[w])];
      }
    }

    /** The tree edge `v -> w` of the search: searches from `w`, then lowers
        the low link of `v` to that of `w`. */
    method Descend(v: string, w: string)
      requires Valid() && lowlink.Keys == index.Keys && v in index && w in nodes && w !in index
      modifies this
      ensures Valid() && lowlink.Keys == index.Keys
      ensures old(index).Keys + {w} <= index.Keys
      ensures Prefix(old(stack), stack)
      ensures Prefix(old(sccs), sccs)
      decreases |nodes - index.Keys|, 1
    {
      StrongConnect(w);
      lowlink := lowlink[v := Min(lowlink[v], lowlink[w])];
    }

    /** Gives `v` the next index, as its own low link, and pushes it. */
    method Push(v: string)
      requires Valid() && lowlink.Keys == index.Keys && v in nodes && v !in index
      modifies this
      ensures Valid() && lowlink.Keys == index.Keys
      ensures index == old(index)[v := old(counter)] && lowlink == old(lowlink)[v := old(counter)]
      ensures counter == old(counter) + 1
      ensures stack == old(stack) + [v] && onStack == old(onStack) + {v} && sccs == old(sccs)
    {
      assert v !in stack;
      forall c | c in sccs ensures v !in c {
      }
      index := index[v := counter];
      lowlink := lowlink[v := counter];
      counter := counter + 1;
      stack := stack + [v];
      onStack := onStack + {v};
    }

    /** `w = stack.pop(); on_stack.discard(w)`, on a stack that still
        holds `v` above `below`. */
    method Pop(v: string, ghost below: seq<string>) returns (w: string)
      requires Prefix(below + [v], stack) && NoDuplicates(stack)
      requires forall x :: x in onStack <==> x in stack
      modifies this`stack, this`onStack
      ensures w == old(stack)[|old(stack)| - 1] && w in old(onStack)
      ensures stack == old(stack)[..|old(stack)| - 1] && onStack == old(onStack) - {w}
      ensures NoDuplicates(stack) && forall x :: x in onStack <==> x in stack
      ensures w == v ==> stack == below
      ensures w != v ==> Prefix(below + [v], stack)
    {
      w := stack[|stack| - 1];
      if w == v {
        assert stack[|below|] == v;
        assert |stack| == |below| + 1;
      }
      stack := stack[..|stack| - 1];
      onStack := onStack - {w};
      if w == v {
        assert stack == below;
      }
    }

    /** Pops the stack down to and including `v`, and records the popped
        accounts as a component when there are three or more of them. */
    method PopComponent(v: string, ghost below: seq<string>)
      requires Valid() && Prefix(below + [v], stack)
      modifies this`stack, this`onStack, this`sccs
      ensures Valid()
      ensures index == old(index) && stack == below
      ensures var comp := Elements(old(stack)[|below|..]);
        sccs == if |comp| >= 3 then old(sccs) + [comp] else old(sccs)
    {
      ghost var stack0 := stack;
      ghost var popped: seq<string> := [];
      var scc: set<string> := {};
      var done := false;
      while !done
        invariant stack0 == stack + popped && scc == Elements(popped)
        invariant !done ==> Prefix(below + [v], stack) && v !in scc
        invariant done ==> stack == below
        invariant NoDuplicates(stack)
        invariant forall x :: x in onStack <==> x in stack
        invariant onStack <= index.Keys
        invariant scc <= index.Keys && scc !! onStack
        invariant sccs == old(sccs)
        invariant forall i :: 0 <= i < |sccs| ==> sccs[i] !! scc && sccs[i] !! onStack
        decreases |stack|
      {
        var w;
        w, popped, scc := PopInto(v, below, stack0, popped, scc);
        done := w == v;
      }
      assert popped == stack0[|below|..];
      Record(scc);
    }

    /** One round of the popping loop: `w` leaves the stack and joins the
        component being collected. */
    method PopInto(v: string, ghost below: seq<string>, ghost stack0: seq<string>,
                   ghost popped: seq<string>, scc: set<string>)
      returns (w: string, ghost popped': seq<string>, scc': set<string>)
      requires Prefix(below + [v], stack) && NoDuplicates(stack)
      requires forall x :: x in onStack <==> x in stack
      requires stack0 == stack + popped && scc == Elements(popped)
      modifies this`stack, this`onStack
      ensures stack0 == stack + popped' && scc' == Elements(popped') && scc' == scc + {w}
      ensures w in old(onStack) && onStack == old(onStack) - {w} && |stack| < |old(stack)|
      ensures NoDuplicates(stack) && forall x :: x in onStack <==> x in stack
      ensures w == v ==> stack == below
      ensures w != v ==> Prefix(below + [v], stack)
    {
      ghost var pre := stack;
      w := Pop(v, below);
      assert pre == stack + [w];
      assert stack0 == stack + ([w] + popped);
      ElementsCons(w, popped);
      popped' := [w] + popped;
      scc' := scc + {w};
    }

    /** `if len(scc) >= 3: sccs.append(scc)`. */
    method Record(comp: set<string>)
      requires Valid() && comp <= index.Keys && comp !! onStack
      requires forall i :: 0 <= i < |sccs| ==> sccs[i] !! comp
      modifies this`sccs
      ensures Valid()
      ensures sccs == if |comp| >= 3 then old(sccs) + [comp] else old(sccs)
    {
      if |comp| >= 3 {
        sccs := sccs + [comp];
        assert forall i :: 0 <= i < |old(sccs)| ==> sccs[i] == old(sccs)[i];
      }
    }
  }

  lemma ShrinksUnvisited(nodes: set<string>, before: set<string>, now: set<string>, v: string)
    requires v in nodes && v !in before && before + {v} <= now
    ensures |nodes - now| < |nodes - before|
  {
    var smaller, larger := nodes - now, nodes - before;
    assert v in larger - smaller;
    assert larger == smaller + (larger - smaller);
    assert |larger - smaller| >= 1;
  }

  /** The accounts a stack segment holds. */
  ghost function Elements(s: seq<string>): set<string>
  {
    set x | x in s
  }

  lemma ElementsCons(x: string, s: seq<string>)
    ensures Elements([x] + s) == {x} + Elements(s)
  {
    assert forall y :: y in [x] + s <==> y == x || y in s;
  }

  ghost predicate Prefix<T>(a: seq<T>, b: seq<T>)
  {
    |a| <= |b| && b[..|a|] == a
  }

  lemma PrefixTransitive<T>(a: seq<T>, b: seq<T>, c: seq<T>)
    requires Prefix(a, b) && Prefix(b, c)
    ensures Prefix(a, c)
  {
    assert c[..|a|] == c[..|b|][..|a|];
  }

  function Min(a: nat, b: nat): nat
  {
    if a <= b then a else b
  }

  /** `_find_sccs(adjacency, node_list)`: the components of three or more
      accounts found by searching from each not yet indexed account of
      `nodeList` in turn. */
  method FindSccs(adjacency: map<string, seq<Edge>>, nodeList: seq<string>) returns (sccs: seq<set<string>>)
    ensures forall c :: c in sccs ==> |c| >= 3 && c <= Mentioned(adjacency) + (set v | v in nodeList)
    ensures Disjoint(sccs)
  {
    ghost var nodes := Mentioned(adjacency) + (set v | v in nodeList);
    var search := new Tarjan(adjacency, nodes);
    for i := 0 to |nodeList|
      invariant search.Valid() && search.lowlink.Keys == search.index.Keys && search.nodes == nodes
    {
      var v := nodeList[i];
      if v !in search.index {
        search.StrongConnect(v);
      }
    }
    sccs := search.sccs;
  }

}
