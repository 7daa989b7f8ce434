/** The dependency graph of one block's transactions, built by daemon/processing/block_scheduler.go. */
module TxGraph {

  type TxId = string

  /** An output that creates or updates a claim writes it; a support or a purchase reads it. */
  datatype ClaimEvent = ClaimEvent(claimId: string, writer: bool)

  datatype Tx = Tx(inputs: seq<TxId>, events: seq<ClaimEvent>)

  datatype Reason = Utxo | Claim
  datatype Edge = Edge(parent: TxId, child: TxId, reason: Reason)

  // ---- reachability ----

  ghost predicate Closed(edges: set<Edge>, s: set<TxId>) {
    forall e :: e in edges && e.parent in s ==> e.child in s
  }

  /** There is a path of zero or more edges from a to b: every closed set with a in it has b in it. */
  ghost predicate Reaches(edges: set<Edge>, a: TxId, b: TxId) {
    forall s {:trigger Closed(edges, s)} :: Closed(edges, s) && a in s ==> b in s
  }

  lemma ReachesEdge(edges: set<Edge>, a: TxId, e: Edge)
    requires e in edges && Reaches(edges, a, e.parent)
    ensures Reaches(edges, a, e.child)
  {
  }

  lemma ReachesMore(edges: set<Edge>, more: set<Edge>, a: TxId, b: TxId)
    requires edges <= more && Reaches(edges, a, b)
    ensures Reaches(more, a, b)
  {
    forall s | Closed(more, s) && a in s
      ensures b in s
    {
      assert Closed(edges, s);
    }
  }

  /** A path of at least one edge. */
  ghost predicate Before(edges: set<Edge>, a: TxId, b: TxId) {
    exists e :: e in edges && Reaches(edges, a, e.parent) && e.child == b
  }

  lemma BeforeIsReaches(edges: set<Edge>, a: TxId, b: TxId)
    ensures Reaches(edges, a, b) <==> a == b || Before(edges, a, b)
  {
    if Before(edges, a, b) {
      var e :| e in edges && Reaches(edges, a, e.parent) && e.child == b;
      ReachesEdge(edges, a, e);
    }
    if Reaches(edges, a, b) && a != b && !Before(edges, a, b) {
      var s := {a} + (set e | e in edges && Before(edges, a, e.child) :: e.child);
      forall e | e in edges && e.parent in s
        ensures e.child in s
      {
        if e.parent != a {
          BeforeIsReachesOneWay(edges, a, e.parent);
        }
        assert Before(edges, a, e.child);
      }
      assert Closed(edges, s) && a in s;
    }
  }

  lemma BeforeIsReachesOneWay(edges: set<Edge>, a: TxId, b: TxId)
    requires Before(edges, a, b)
    ensures Reaches(edges, a, b)
  {
    var e :| e in edges && Reaches(edges, a, e.parent) && e.child == b;
    ReachesEdge(edges, a, e);
  }

  lemma BeforeTransitive(edges: set<Edge>, a: TxId, b: TxId, c: TxId)
    requires Before(edges, a, b) && Before(edges, b, c)
    ensures Before(edges, a, c)
  {
    BeforeIsReachesOneWay(edges, a, b);
    var e :| e in edges && Reaches(edges, b, e.parent) && e.child == c;
    assert Reaches(edges, a, e.parent);
  }

  ghost predicate Cyclic(edges: set<Edge>) {
    exists t :: Before(edges, t, t)
  }

  // ---- conflicts ----

  /** One access of a claim, in block order. */
  datatype Access = Access(tx: TxId, claimId: string, writer: bool)

  predicate Conflict(a: Access, b: Access) {
    a.claimId == b.claimId && (a.writer || b.writer)
  }

  function AccessesOf(id: TxId, events: seq<ClaimEvent>): (r: seq<Access>)
    ensures |r| == |events| && forall k :: 0 <= k < |r| ==> r[k] == Access(id, events[k].claimId, events[k].writer)
  {
    seq(|events|, k requires 0 <= k < |events| => Access(id, events[k].claimId, events[k].writer))
  }

  /** All accesses of the block's first n transactions, in order. */
  function AllAccesses(order: seq<TxId>, txById: map<TxId, Tx>, n: nat): seq<Access>
    requires n <= |order| && forall id :: id in order ==> id in txById
  {
    if n == 0 then []
    else AllAccesses(order, txById, n - 1) + AccessesOf(order[n - 1], txById[order[n - 1]].events)
  }

  /** Event k of the i-th transaction comes before event m of the j-th, both are about the same claim, and one of them
      writes it. */
  predicate EventsConflict(order: seq<TxId>, txById: map<TxId, Tx>, i: int, k: int, j: int, m: int)
    requires forall id :: id in order ==> id in txById
  {
    && 0 <= i <= j < |order|
    && var e, f := txById[order[i]].events, txById[order[j]].events;
       && 0 <= k < |e| && 0 <= m < |f| && (i == j ==> k < m)
       && e[k].claimId == f[m].claimId && (e[k].writer || f[m].writer)
  }

  /** x is where the list has event k of the i-th of the first n transactions. */
  predicate IsEvent(order: seq<TxId>, txById: map<TxId, Tx>, n: nat, x: int, i: int, k: int)
    requires n <= |order| && forall id :: id in order ==> id in txById
  {
    var all := AllAccesses(order, txById, n);
    && 0 <= i < n && 0 <= k < |txById[order[i]].events| && 0 <= x < |all|
    && var e := txById[order[i]].events[k]; all[x] == Access(order[i], e.claimId, e.writer)
  }

  lemma {:induction false} EventListed(order: seq<TxId>, txById: map<TxId, Tx>, n: nat, i: nat, k: nat)
    returns (x: nat)
    requires n <= |order| && (forall id :: id in order ==> id in txById) && i < n && k < |txById[order[i]].events|
    ensures IsEvent(order, txById, n, x, i, k)
  {
    if i == n - 1 {
      x := |AllAccesses(order, txById, n - 1)| + k;
    } else {
      x := EventListed(order, txById, n - 1, i, k);
    }
  }

  lemma {:induction false} ListsEvent(order: seq<TxId>, txById: map<TxId, Tx>, n: nat, x: nat) returns (i: nat, k: nat)
    requires n <= |order| && (forall id :: id in order ==> id in txById) && x < |AllAccesses(order, txById, n)|
    ensures IsEvent(order, txById, n, x, i, k)
  {
    var before := |AllAccesses(order, txById, n - 1)|;
    if x < before {
      i, k := ListsEvent(order, txById, n - 1, x);
    } else {
      i, k := n - 1, x - before;
    }
  }

  /** The list has the events in the order of the block, and nothing else: one before the other here is one before the
      other there. */
  lemma {:induction false} EventsListed(order: seq<TxId>, txById: map<TxId, Tx>, n: nat, i: nat, k: nat, j: nat,
                                        m: nat)
    returns (x: nat, y: nat)
    requires n <= |order| && (forall id :: id in order ==> id in txById) && i <= j < n && (i == j ==> k < m)
    requires k < |txById[order[i]].events| && m < |txById[order[j]].events|
    ensures x < y && IsEvent(order, txById, n, x, i, k) && IsEvent(order, txById, n, y, j, m)
  {
    var before := |AllAccesses(order, txById, n - 1)|;
    if j < n - 1 {
      x, y := EventsListed(order, txById, n - 1, i, k, j, m);
    } else if i < n - 1 {
      x := EventListed(order, txById, n - 1, i, k);
      y := before + m;
    } else {
      x, y := before + k, before + m;
    }
  }

  lemma {:induction false} ListsEvents(order: seq<TxId>, txById: map<TxId, Tx>, n: nat, x: nat, y: nat)
    returns (i: nat, k: nat, j: nat, m: nat)
    requires n <= |order| && (forall id :: id in order ==> id in txById) && x < y < |AllAccesses(order, txById, n)|
    ensures i <= j && (i == j ==> k < m)
    ensures IsEvent(order, txById, n, x, i, k) && IsEvent(order, txById, n, y, j, m)
  {
    var before := |AllAccesses(order, txById, n - 1)|;
    if y < before {
      i, k, j, m := ListsEvents(order, txById, n - 1, x, y);
    } else if x < before {
      i, k := ListsEvent(order, txById, n - 1, x);
      j, m := n - 1, y - before;
    } else {
      i, k, j, m := n - 1, x - before, n - 1, y - before;
    }
  }

  /** Conflicting accesses are ordered by the edges as they are in the block. */
  ghost predicate Ordered(edges: set<Edge>, done: seq<Access>) {
    forall i, j :: 0 <= i < j < |done| && Conflict(done[i], done[j]) ==> Reaches(edges, done[i].tx, done[j].tx)
  }

  ghost predicate IsLastWriter(done: seq<Access>, claimId: string, k: int) {
    && 0 <= k < |done| && done[k].claimId == claimId && done[k].writer
    && forall j :: k < j < |done| ==> !(done[j].claimId == claimId && done[j].writer)
  }

  ghost predicate NoLaterWriter(done: seq<Access>, j: nat)
    requires j < |done|
  {
    forall k :: j < k < |done| ==> !(done[k].claimId == done[j].claimId && done[k].writer)
  }

  /** The two maps of addClaimDependencies summarise the accesses handled so far. */
  ghost predicate Summary(done: seq<Access>, latestWriter: map<string, TxId>, waiting: map<string, seq<TxId>>) {
    && (forall c :: c in latestWriter ==> exists k :: IsLastWriter(done, c, k) && done[k].tx == latestWriter[c])
    && (forall j :: 0 <= j < |done| && done[j].writer ==> done[j].claimId in latestWriter)
    && (forall j :: 0 <= j < |done| && !done[j].writer && NoLaterWriter(done, j) ==>
          done[j].claimId in waiting && done[j].tx in waiting[done[j].claimId])
    && (forall c, t :: c in waiting && t in waiting[c] ==> Access(t, c, false) in done)
  }

  /** The edges one more access needs: from the last writer of its claim and, for a writer, from the readers since. */
  ghost predicate Linked(edges: set<Edge>, latestWriter: map<string, TxId>, waiting: map<string, seq<TxId>>,
                         a: Access) {
    && (a.claimId in latestWriter ==> Reaches(edges, latestWriter[a.claimId], a.tx))
    && (a.writer && a.claimId in waiting ==> forall t :: t in waiting[a.claimId] ==> Reaches(edges, t, a.tx))
  }

  function AfterWriter(latestWriter: map<string, TxId>, a: Access): map<string, TxId> {
    if a.writer then latestWriter[a.claimId := a.tx] else latestWriter
  }

  function AfterReader(waiting: map<string, seq<TxId>>, a: Access): map<string, seq<TxId>> {
    if a.writer then waiting - {a.claimId}
    else waiting[a.claimId := (if a.claimId in waiting then waiting[a.claimId] else []) + [a.tx]]
  }

  lemma OrderedStep(edges: set<Edge>, done: seq<Access>, latestWriter: map<string, TxId>,
                    waiting: map<string, seq<TxId>>, a: Access)
    requires Ordered(edges, done) && Summary(done, latestWriter, waiting) && Linked(edges, latestWriter, waiting, a)
    ensures Ordered(edges, done + [a])
  {
    var n := |done|;
    forall i | 0 <= i < n && Conflict(done[i], a)
      ensures Reaches(edges, done[i].tx, a.tx)
    {
      if a.claimId in latestWriter {
        var w :| IsLastWriter(done, a.claimId, w) && done[w].tx == latestWriter[a.claimId];
        if i < w {
          assert Conflict(done[i], done[w]);
        }
      }
    }
  }

  lemma SummaryStep(done: seq<Access>, latestWriter: map<string, TxId>, waiting: map<string, seq<TxId>>, a: Access)
    requires Summary(done, latestWriter, waiting)
    ensures Summary(done + [a], AfterWriter(latestWriter, a), AfterReader(waiting, a))
  {
    var d, lw, wt := done + [a], AfterWriter(latestWriter, a), AfterReader(waiting, a);
    forall c | c in lw
      ensures exists k :: IsLastWriter(d, c, k) && d[k].tx == lw[c]
    {
      if a.writer && c == a.claimId {
        assert IsLastWriter(d, c, |done|);
      } else {
        var k :| IsLastWriter(done, c, k) && done[k].tx == latestWriter[c];
        assert IsLastWriter(d, c, k) && d[k].tx == lw[c];
      }
    }
    forall j | 0 <= j < |d| && !d[j].writer && NoLaterWriter(d, j)
      ensures d[j].claimId in wt && d[j].tx in wt[d[j].claimId]
    {
      if j < |done| {
        assert !(d[|done|].claimId == d[j].claimId && d[|done|].writer);
        assert forall k :: j < k < |done| ==> done[k] == d[k];
      }
    }
    forall c, t | c in wt && t in wt[c]
      ensures Access(t, c, false) in d
    {
      if !(c == a.claimId && t == a.tx && !a.writer) {
        assert c in waiting && t in waiting[c];
      } else {
        assert d[|done|] == Access(t, c, false);
      }
    }
  }
}
