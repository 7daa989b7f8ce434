/** blockTxGraph of daemon/processing/block_scheduler.go: its construction and the release of children. */
module BlockTxGraphs {
  import opened Collections
  import opened TxGraph

  function EdgesInto(edges: set<Edge>, child: TxId): set<Edge> {
    set e | e in edges && e.child == child
  }

  /** What addDependency adds: nothing for a missing id or a transaction that depends on itself. */
  function NewEdge(parent: TxId, child: TxId, reason: Reason): set<Edge> {
    if parent == "" || child == "" || parent == child then {} else {Edge(parent, child, reason)}
  }

  /** The graph of a block: its transactions in order, by id. */
  ghost predicate IsBlock(order: seq<TxId>, txById: map<TxId, Tx>) {
    && Distinct(order) && "" !in order
    && (forall id :: id in order <==> id in txById)
  }

  /** children lists the edges by parent, each once. */
  ghost predicate ListsEdges(edges: set<Edge>, children: map<TxId, seq<Edge>>) {
    && (forall p :: p in children ==> Distinct(children[p]))
    && (forall e :: e in edges <==> e.parent in children && e in children[e.parent])
    && (forall p, e :: p in children && e in children[p] ==> e.parent == p)
  }

  /** unresolved counts the edges by child. */
  ghost predicate CountsEdges(order: seq<TxId>, edges: set<Edge>, unresolved: map<TxId, int>) {
    && (forall id :: id in unresolved <==> id in order)
    && (forall id :: id in unresolved ==> unresolved[id] == |EdgesInto(edges, id)|)
  }

  ghost predicate Indexed(order: seq<TxId>, edges: set<Edge>, children: map<TxId, seq<Edge>>,
                          unresolved: map<TxId, int>)
  {
    && (forall e :: e in edges ==> e.parent in order && e.child in order && e.parent != e.child)
    && ListsEdges(edges, children) && CountsEdges(order, edges, unresolved)
  }

  lemma ListsOneMore(edges: set<Edge>, children: map<TxId, seq<Edge>>, e: Edge)
    requires ListsEdges(edges, children) && e !in edges
    ensures ListsEdges(edges + {e},
                       children[e.parent := (if e.parent in children then children[e.parent] else []) + [e]])
  {
    var old' := if e.parent in children then children[e.parent] else [];
    assert e !in old';
    assert Distinct(old' + [e]);
  }

  lemma CountsOneMore(order: seq<TxId>, edges: set<Edge>, unresolved: map<TxId, int>, e: Edge)
    requires CountsEdges(order, edges, unresolved) && e !in edges && e.child in order
    ensures CountsEdges(order, edges + {e}, unresolved[e.child := unresolved[e.child] + 1])
  {
    var more := edges + {e};
    forall id | id in unresolved
      ensures |EdgesInto(more, id)| == |EdgesInto(edges, id)| + if id == e.child then 1 else 0
    {
      if id == e.child {
        assert EdgesInto(more, id) == EdgesInto(edges, id) + {e};
      } else {
        assert EdgesInto(more, id) == EdgesInto(edges, id);
      }
    }
  }

  /** The edge joins two conflicting accesses in block order. */
  ghost predicate Justifies(e: Edge, done: seq<Access>) {
    exists i, j :: 0 <= i < j < |done| && done[i].tx == e.parent && done[j].tx == e.child && Conflict(done[i], done[j])
  }

  lemma JustifiesMore(e: Edge, done: seq<Access>, a: Access)
    requires Justifies(e, done)
    ensures Justifies(e, done + [a])
  {
    var i, j :| 0 <= i < j < |done| && done[i].tx == e.parent && done[j].tx == e.child && Conflict(done[i], done[j]);
    var d := done + [a];
    assert d[i] == done[i] && d[j] == done[j];
  }

  lemma JustifiesLast(e: Edge, done: seq<Access>, i: nat, a: Access)
    requires i < |done| && done[i].tx == e.parent && a.tx == e.child && Conflict(done[i], a)
    ensures Justifies(e, done + [a])
  {
    var d := done + [a];
    assert d[i] == done[i] && d[|done|] == a;
  }

  class BlockTxGraph {
    const order: seq<TxId>
    const txById: map<TxId, Tx>
    var children: map<TxId, seq<Edge>>
    var unresolved: map<TxId, int>
    var edgeSet: set<Edge>
    var ready: seq<TxId>

    ghost predicate Valid()
      reads this
    {
      IsBlock(order, txById) && Indexed(order, edgeSet, children, unresolved)
    }

    /** newBlockTxGraph. */
    constructor (order: seq<TxId>, txById: map<TxId, Tx>)
      requires IsBlock(order, txById)
      ensures Valid() && this.order == order && this.txById == txById && edgeSet == {} && ready == []
    {
      this.order, this.txById := order, txById;
      children, edgeSet, ready := map[], {}, [];
      unresolved := map id | id in order :: 0;
    }

    method AddDependency(parent: TxId, child: TxId, reason: Reason)
      requires Valid() && parent in order && child in order
      modifies this`children, this`unresolved, this`edgeSet
      ensures Valid() && edgeSet == old(edgeSet) + NewEdge(parent, child, reason)
    {
      if parent == "" || child == "" || parent == child {
        return;
      }
      var edge := Edge(parent, child, reason);
      if edge in edgeSet {
        return;
      }
      ListsOneMore(edgeSet, children, edge);
      CountsOneMore(order, edgeSet, unresolved, edge);
      edgeSet := edgeSet + {edge};
      children := children[parent := (if parent in children then children[parent] else []) + [edge]];
      unresolved := unresolved[child := unresolved[child] + 1];
    }

    /** The edges from the spent transactions of this block to the transactions among the first n that spend them. */
    ghost predicate IsUtxoEdge(e: Edge, n: nat)
      requires n <= |order| && IsBlock(order, txById)
    {
      && e.reason == Utxo && e.parent != e.child && e.parent in txById
      && exists i :: 0 <= i < n && order[i] == e.child && e.parent in txById[order[i]].inputs
    }

    lemma UtxoEdgeStep(i: nat)
      requires IsBlock(order, txById) && i < |order|
      ensures forall e :: IsUtxoEdge(e, i + 1) <==>
                            IsUtxoEdge(e, i) || IsInputEdge(e, order[i], txById[order[i]].inputs)
    {
    }

    method AddUTXODependencies()
      requires Valid()
      modifies this`children, this`unresolved, this`edgeSet
      ensures Valid()
      ensures forall e :: e in edgeSet <==> e in old(edgeSet) || IsUtxoEdge(e, |order|)
    {
      for i := 0 to |order|
        invariant Valid()
        invariant forall e :: e in edgeSet <==> e in old(edgeSet) || IsUtxoEdge(e, i)
      {
        UtxoEdgeStep(i);
        AddInputEdges(order[i], txById[order[i]].inputs);
      }
    }

    predicate IsInputEdge(e: Edge, txID: TxId, inputs: seq<TxId>) {
      e.reason == Utxo && e.child == txID && e.parent != txID && e.parent in txById && e.parent in inputs
    }

    lemma InputEdgeStep(txID: TxId, inputs: seq<TxId>, k: nat)
      requires IsBlock(order, txById) && txID in order && k < |inputs|
      ensures forall e :: IsInputEdge(e, txID, inputs[..k + 1]) <==>
                            IsInputEdge(e, txID, inputs[..k])
                              || (inputs[k] in txById && e in NewEdge(inputs[k], txID, Utxo))
    {
      assert inputs[..k + 1] == inputs[..k] + [inputs[k]];
    }

    /** The edges from the transactions of this block that one transaction spends. */
    method AddInputEdges(txID: TxId, inputs: seq<TxId>)
      requires Valid() && txID in order
      modifies this`children, this`unresolved, this`edgeSet
      ensures Valid()
      ensures forall e :: e in edgeSet <==> e in old(edgeSet) || IsInputEdge(e, txID, inputs)
    {
      for k := 0 to |inputs|
        invariant Valid()
        invariant forall e :: e in edgeSet <==> e in old(edgeSet) || IsInputEdge(e, txID, inputs[..k])
      {
        InputEdgeStep(txID, inputs, k);
        if inputs[k] in txById {
          AddDependency(inputs[k], txID, Utxo);
        }
      }
      assert inputs[..|inputs|] == inputs;
    }

    /** The edge from an earlier access that conflicts with a. */
    method AddClaimEdge(parent: TxId, a: Access, ghost done: seq<Access>, ghost i: nat)
      requires Valid() && a.tx in order && i < |done| && done[i].tx == parent && parent in order && Conflict(done[i], a)
      modifies this`children, this`unresolved, this`edgeSet
      ensures Valid() && Adds(old(edgeSet), edgeSet, done + [a]) && Reaches(edgeSet, parent, a.tx)
    {
      AddDependency(parent, a.tx, Claim);
      JoinsLast(old(edgeSet), edgeSet, done, i, a);
    }

    /** The edges one access of a claim calls for. */
    method AddAccess(latestWriter: map<string, TxId>, waiting: map<string, seq<TxId>>, a: Access,
                     ghost done: seq<Access>)
      requires Valid() && Summary(done, latestWriter, waiting) && a.tx in order
      requires forall x :: x in done ==> x.tx in order
      modifies this`children, this`unresolved, this`edgeSet
      ensures Valid() && Adds(old(edgeSet), edgeSet, done + [a]) && Linked(edgeSet, latestWriter, waiting, a)
    {
      if a.claimId in latestWriter {
        ghost var w :| IsLastWriter(done, a.claimId, w) && done[w].tx == latestWriter[a.claimId];
        assert done[w] in done;
        AddClaimEdge(latestWriter[a.claimId], a, done, w);
      }
      if a.writer && a.claimId in waiting {
        ghost var mid := edgeSet;
        AddReaderEdges(waiting[a.claimId], a, done);
        AddsTransitive(old(edgeSet), mid, edgeSet, done + [a]);
        if a.claimId in latestWriter { ReachesMore(mid, edgeSet, latestWriter[a.claimId], a.tx); }
      }
    }

    /** The edges from the readers waiting since the last writer. */
    method AddReaderEdges(readers: seq<TxId>, a: Access, ghost done: seq<Access>)
      requires Valid() && a.writer && a.tx in order && (forall x :: x in done ==> x.tx in order)
      requires forall t :: t in readers ==> Access(t, a.claimId, false) in done
      modifies this`children, this`unresolved, this`edgeSet
      ensures Valid() && Adds(old(edgeSet), edgeSet, done + [a])
      ensures forall t :: t in readers ==> Reaches(edgeSet, t, a.tx)
    {
      assert readers[..0] == [];
      for k := 0 to |readers|
        invariant Valid() && Adds(old(edgeSet), edgeSet, done + [a])
        invariant AllReach(edgeSet, readers[..k], a.tx)
      {
        assert Access(readers[k], a.claimId, false) in done;
        ghost var i :| 0 <= i < |done| && done[i] == Access(readers[k], a.claimId, false);
        ghost var before := edgeSet;
        AddClaimEdge(readers[k], a, done, i);
        ReaderStep(old(edgeSet), before, edgeSet, readers, k, a.tx, done + [a]);
      }
      assert readers[..|readers|] == readers;
    }

    /** Where addClaimDependencies stands after the accesses done. */
    ghost predicate Progress(first: set<Edge>, done: seq<Access>, latestWriter: map<string, TxId>,
                             waiting: map<string, seq<TxId>>)
      reads this
    {
      && Valid() && Adds(first, edgeSet, done) && Ordered(edgeSet, done) && Summary(done, latestWriter, waiting)
      && (forall x :: x in done ==> x.tx in order)
    }

    /** The edges order conflicting events as the block does. */
    ghost predicate OrdersConflicts(edges: set<Edge>)
      requires IsBlock(order, txById)
    {
      forall i, k, j, m :: EventsConflict(order, txById, i, k, j, m) ==> Reaches(edges, order[i], order[j])
    }

    /** The edge leads from one to the other of two conflicting events. */
    ghost predicate IsClaimEdge(e: Edge)
      requires IsBlock(order, txById)
    {
      && e.reason == Claim && e.parent != e.child
      && exists i, k, j, m :: EventsConflict(order, txById, i, k, j, m) && order[i] == e.parent && order[j] == e.child
    }

    lemma OrdersEvents(edges: set<Edge>)
      requires IsBlock(order, txById) && Ordered(edges, AllAccesses(order, txById, |order|))
      ensures OrdersConflicts(edges)
    {
      forall i, k, j, m | EventsConflict(order, txById, i, k, j, m)
        ensures Reaches(edges, order[i], order[j])
      {
        var x, y := EventsListed(order, txById, |order|, i, k, j, m);
      }
    }

    lemma JustifiedIsClaimEdge(e: Edge)
      requires IsBlock(order, txById) && Justifies(e, AllAccesses(order, txById, |order|))
      requires e.reason == Claim && e.parent != e.child
      ensures IsClaimEdge(e)
    {
      var all := AllAccesses(order, txById, |order|);
      var x, y :| 0 <= x < y < |all| && all[x].tx == e.parent && all[y].tx == e.child && Conflict(all[x], all[y]);
      var i, k, j, m := ListsEvents(order, txById, |order|, x, y);
      assert EventsConflict(order, txById, i, k, j, m);
    }

    method AddClaimDependencies()
      requires Valid()
      modifies this`children, this`unresolved, this`edgeSet
      ensures Valid() && old(edgeSet) <= edgeSet && OrdersConflicts(edgeSet)
      ensures forall e :: e in edgeSet ==> e in old(edgeSet) || IsClaimEdge(e)
    {
      var latestWriter: map<string, TxId> := map[];
      var waiting: map<string, seq<TxId>> := map[];
      ghost var done: seq<Access> := [];
      for i := 0 to |order|
        invariant Progress(old(edgeSet), done, latestWriter, waiting)
        invariant done == AllAccesses(order, txById, i)
      {
        var tx := txById[order[i]];
        latestWriter, waiting := AddEvents(order[i], tx.events, latestWriter, waiting, old(edgeSet), done);
        done := done + AccessesOf(order[i], tx.events);
      }
      OrdersEvents(edgeSet);
      forall e | e in edgeSet && e !in old(edgeSet)
        ensures IsClaimEdge(e)
      {
        JustifiedIsClaimEdge(e);
      }
    }

    /** The accesses of one transaction. */
    method AddEvents(txID: TxId, events: seq<ClaimEvent>, latestWriter0: map<string, TxId>,
                     waiting0: map<string, seq<TxId>>,
                     ghost first: set<Edge>, ghost start: seq<Access>)
      returns (latestWriter: map<string, TxId>, waiting: map<string, seq<TxId>>)
      requires Progress(first, start, latestWriter0, waiting0) && txID in order
      modifies this`children, this`unresolved, this`edgeSet
      ensures Progress(first, start + AccessesOf(txID, events), latestWriter, waiting)
    {
      latestWriter, waiting := latestWriter0, waiting0;
      ghost var all := AccessesOf(txID, events);
      ghost var done := start;
      assert start + all[..0] == start;
      for k := 0 to |events|
        invariant Progress(first, done, latestWriter, waiting) && done == start + all[..k]
      {
        var a := Access(txID, events[k].claimId, events[k].writer);
        ghost var before := edgeSet;
        AddAccess(latestWriter, waiting, a, done);
        Handled(first, before, edgeSet, done, latestWriter, waiting, a);
        if a.writer {
          waiting := waiting - {a.claimId};
          latestWriter := latestWriter[a.claimId := a.tx];
        } else {
          waiting := waiting[a.claimId := (if a.claimId in waiting then waiting[a.claimId] else []) + [a.tx]];
        }
        assert all[..k + 1] == all[..k] + [a];
        done := done + [a];
      }
      assert all[..|events|] == all;
    }

    /** What buildDependencies makes of a block: the edges of spent outputs and of conflicting events of a claim
        and no others, all conflicting events ordered, and the transactions without a parent ready. */
    ghost predicate Built()
      reads this
    {
      && Valid() && OrdersConflicts(edgeSet)
      && (forall e :: e in edgeSet ==> IsUtxoEdge(e, |order|) || IsClaimEdge(e))
      && (forall e :: IsUtxoEdge(e, |order|) ==> e in edgeSet)
      && Distinct(ready) && (forall id :: id in ready <==> id in order && unresolved[id] == 0)
    }

    /** buildDependencies; the order of sortChildren inside one list of children is left open. */
    method BuildDependencies() returns (stalled: bool)
      requires Valid() && edgeSet == {} && ready == []
      modifies this`children, this`unresolved, this`edgeSet, this`ready
      ensures Built()
      ensures stalled <==> order != [] && ready == []
    {
      AddUTXODependencies();
      AddClaimDependencies();
      CollectReady();
      stalled := |ready| == 0 && |order| > 0;
    }

    method CollectReady()
      requires Valid() && ready == []
      modifies this`ready
      ensures Distinct(ready) && forall id :: id in ready <==> id in order && unresolved[id] == 0
    {
      for i := 0 to |order|
        invariant Distinct(ready)
        invariant forall id :: id in ready <==> id in order[..i] && id in unresolved && unresolved[id] == 0
      {
        assert order[..i + 1] == order[..i] + [order[i]];
        assert order[i] in order && order[i] !in order[..i];
        if unresolved[order[i]] == 0 {
          ready := ready + [order[i]];
        }
      }
      assert order[..|order|] == order;
    }

    method ReleaseChildren(txID: TxId)
      requires Valid'() && txID in order
      modifies this`unresolved, this`ready
      ensures (unresolved, ready) == Release(ChildrenOf(txID), old(unresolved), old(ready))
      ensures Valid'()
    {
      if txID !in children {
        return;
      }
      var es := children[txID];
      ghost var goal := Release(es, unresolved, ready);
      assert es[0..] == es;
      for k := 0 to |es|
        invariant Valid'()
        invariant Release(es[k..], unresolved, ready) == goal
      {
        var edge := es[k];
        assert edge.child in unresolved;
        assert es[k..][1..] == es[k + 1..];
        unresolved := unresolved[edge.child := unresolved[edge.child] - 1];
        if unresolved[edge.child] == 0 {
          ready := ready + [edge.child];
        }
      }
    }

    /** What stays true while the graph is worked off: only unresolved and ready change. */
    ghost predicate Valid'()
      reads this
    {
      && IsBlock(order, txById)
      && (forall id :: id in unresolved <==> id in order)
      && (forall p, e :: p in children && e in children[p] ==> e.child in order)
    }

    function ChildrenOf(txID: TxId): seq<Edge>
      reads this
    {
      if txID in children then children[txID] else []
    }
  }

  /** releaseChildren: one decrement for each edge, and the child is ready when its count reaches zero. */
  function Release(es: seq<Edge>, unresolved: map<TxId, int>, ready: seq<TxId>): (r: (map<TxId, int>, seq<TxId>))
    requires forall e :: e in es ==> e.child in unresolved
    ensures r.0.Keys == unresolved.Keys
  {
    if es == [] then (unresolved, ready)
    else
      var c := es[0].child;
      var u := unresolved[c := unresolved[c] - 1];
      Release(es[1..], u, if u[c] == 0 then ready + [c] else ready)
  }

  /** The step adds claim edges only, each between conflicting accesses. */
  ghost predicate Adds(before: set<Edge>, after: set<Edge>, done: seq<Access>) {
    before <= after && forall e :: e in after && e !in before ==> e.reason == Claim && Justifies(e, done)
  }

  lemma AddsTransitive(a: set<Edge>, b: set<Edge>, c: set<Edge>, done: seq<Access>)
    requires Adds(a, b, done) && Adds(b, c, done)
    ensures Adds(a, c, done)
  {
    forall e | e in c && e !in a
      ensures e.reason == Claim && Justifies(e, done)
    {
      assert e in b || e !in b;
    }
  }

  ghost predicate AllReach(edges: set<Edge>, from: seq<TxId>, to: TxId) {
    forall t :: t in from ==> Reaches(edges, t, to)
  }

  lemma AllReachMore(edges: set<Edge>, more: set<Edge>, from: seq<TxId>, to: TxId)
    requires edges <= more && AllReach(edges, from, to)
    ensures AllReach(more, from, to)
  {
    forall t | t in from
      ensures Reaches(more, t, to)
    {
      ReachesMore(edges, more, t, to);
    }
  }

  lemma ReaderStep(first: set<Edge>, before: set<Edge>, after: set<Edge>, readers: seq<TxId>, k: nat, to: TxId,
                   done: seq<Access>)
    requires k < |readers| && Adds(first, before, done) && Adds(before, after, done)
    requires AllReach(before, readers[..k], to) && Reaches(after, readers[k], to)
    ensures Adds(first, after, done) && AllReach(after, readers[..k + 1], to)
  {
    AddsTransitive(first, before, after, done);
    AllReachMore(before, after, readers[..k], to);
    assert readers[..k + 1] == readers[..k] + [readers[k]];
  }

  lemma JoinsLast(before: set<Edge>, after: set<Edge>, done: seq<Access>, i: nat, a: Access)
    requires i < |done| && Conflict(done[i], a)
    requires after == before + NewEdge(done[i].tx, a.tx, Claim) && done[i].tx != "" && a.tx != ""
    ensures Reaches(after, done[i].tx, a.tx) && Adds(before, after, done + [a])
  {
    if done[i].tx != a.tx {
      var e := Edge(done[i].tx, a.tx, Claim);
      ReachesEdge(after, done[i].tx, e);
      JustifiesLast(e, done, i, a);
    }
  }

  lemma Handled(first: set<Edge>, before: set<Edge>, after: set<Edge>, done: seq<Access>,
                latestWriter: map<string, TxId>, waiting: map<string, seq<TxId>>, a: Access)
    requires Ordered(before, done) && Summary(done, latestWriter, waiting)
    requires Linked(after, latestWriter, waiting, a)
    requires Adds(first, before, done) && Adds(before, after, done + [a])
    ensures Ordered(after, done + [a]) && Adds(first, after, done + [a])
    ensures Summary(done + [a], AfterWriter(latestWriter, a), AfterReader(waiting, a))
  {
    forall i, j | 0 <= i < j < |done| && Conflict(done[i], done[j])
      ensures Reaches(after, done[i].tx, done[j].tx)
    {
      ReachesMore(before, after, done[i].tx, done[j].tx);
    }
    OrderedStep(after, done, latestWriter, waiting, a);
    SummaryStep(done, latestWriter, waiting, a);
    forall e | e in after && e !in first
      ensures e.reason == Claim && Justifies(e, done + [a])
    {
      if e in before { JustifiesMore(e, done, a); }
    }
  }
}
