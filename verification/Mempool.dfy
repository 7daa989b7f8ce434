/** The mempool pass of daemon/jobs/mempoolsync.go over the transaction table. */
module Mempool {
  import opened Collections

  type TxId = string
  const MEMPOOL := "MEMPOOL" // the hash of the special block

  /** whole: ProcessTx came to its end for this row. */
  datatype Row = Row(block: string, whole: bool)
  type Rows = map<TxId, Row>

  /** One entry of the node's verbose mempool. */
  datatype Entry = Entry(height: nat, depends: seq<TxId>)
  type Pool = map<TxId, Entry>

  /** What happens to one transaction: its row cannot be read, or ProcessTx works, fails before it has saved the
      row, or after. */
  datatype Fate = Works | LookupFails | FailsEarly | FailsLate

  datatype Env = Env(fate: TxId -> Fate, deletes: TxId -> bool)

  /** The table, and the transactions handed to ProcessTx in order. */
  datatype Store = Store(rows: Rows, handed: seq<TxId>)

  datatype Outcome = Finished | Running | Failed

  // ---- processMempoolTx ----

  function Process(env: Env, raw: set<TxId>, s: Store, id: TxId): (Store, bool) {
    if env.fate(id) == LookupFails then (s, false)
    else if id in s.rows then (s, true)
    else if id !in raw then (s, false)
    else match env.fate(id)
      case Works => (Store(s.rows[id := Row(MEMPOOL, true)], s.handed + [id]), true)
      case FailsLate => (Store(s.rows[id := Row(MEMPOOL, false)], s.handed + [id]), false)
      case _ => (Store(s.rows, s.handed + [id]), false)
  }

  /** One after the other, up to the first failure. */
  function ProcessAll(env: Env, raw: set<TxId>, s: Store, ids: seq<TxId>): (Store, bool)
    decreases ids
  {
    if ids == [] then (s, true)
    else
      var r := Process(env, raw, s, ids[0]);
      if r.1 then ProcessAll(env, raw, r.0, ids[1..]) else r
  }

  /** An entry's dependencies, then the entry itself. */
  function Family(pool: Pool, id: TxId): seq<TxId>
    requires id in pool
  {
    pool[id].depends + [id]
  }

  predicate TooHigh(pool: Pool, head: nat, id: TxId)
    requires id in pool
  {
    head + 1 < pool[id].height
  }

  /** The scan of the pool in the order in which the map yields it. */
  function Scan(env: Env, pool: Pool, raw: set<TxId>, head: nat, s: Store, order: seq<TxId>): (Store, Outcome)
    requires forall id :: id in order ==> id in pool
    decreases order
  {
    if order == [] then (s, Finished)
    else if TooHigh(pool, head, order[0]) then (s, Running)
    else
      var r := ProcessAll(env, raw, s, Family(pool, order[0]));
      if r.1 then Scan(env, pool, raw, head, r.0, order[1..]) else (r.0, Failed)
  }

  /** The removal of stale rows in the order in which the map yields them. */
  function Sweep(env: Env, rows: Rows, order: seq<TxId>): (Rows, Outcome)
    decreases order
  {
    if order == [] then (rows, Finished)
    else if env.fate(order[0]) == LookupFails then (rows, Failed)
    else if order[0] !in rows || rows[order[0]].block != MEMPOOL then Sweep(env, rows, order[1..])
    else if !env.deletes(order[0]) then (rows, Failed)
    else Sweep(env, rows - {order[0]}, order[1..])
  }

  function Depending(pool: Pool): set<TxId> {
    set t, d | t in pool && d in pool[t].depends :: d
  }

  /** All transactions a pass may touch. */
  function Ids(pool: Pool): set<TxId> {
    pool.Keys + Depending(pool)
  }

  /** A way for a map to yield its keys, or some of them. */
  predicate Yields(order: seq<TxId>, keys: set<TxId>) {
    Distinct(order) && forall id :: id in order ==> id in keys
  }

  predicate YieldsAll(order: seq<TxId>, keys: set<TxId>) {
    Yields(order, keys) && forall id :: id in keys ==> id in order
  }

  /** processTxSet, given the order of its two loops over maps. */
  function Pass(env: Env, pool: Pool, raw: set<TxId>, head: nat, s: Store, order: seq<TxId>, swept: seq<TxId>)
    : (Store, Outcome)
    requires forall id :: id in order ==> id in pool
  {
    var r := Scan(env, pool, raw, head, s, order);
    if r.1 != Finished then r
    else
      var d := Sweep(env, r.0.rows, swept);
      (Store(d.0, r.0.handed), d.1)
  }

  class Table {
    var rows: Rows
    ghost var handed: seq<TxId>

    ghost function State(): Store
      reads this
    {
      Store(rows, handed)
    }

    method ProcessMempoolTx(env: Env, raw: set<TxId>, id: TxId) returns (ok: bool)
      modifies this
      ensures (State(), ok) == Process(env, raw, old(State()), id)
    {
      if env.fate(id) != LookupFails && id in rows {
        return true;
      }
      if env.fate(id) == LookupFails {
        return false;
      }
      if id !in raw {
        return false;
      }
      handed := handed + [id];
      match env.fate(id) {
        case Works => rows := rows[id := Row(MEMPOOL, true)];
        case FailsLate => rows := rows[id := Row(MEMPOOL, false)];
        case _ =>
      }
      ok := env.fate(id) == Works;
    }

    /** One entry of the pool: true if every transaction of its family went through. */
    method ProcessEntry(env: Env, pool: Pool, raw: set<TxId>, id: TxId, stale: set<TxId>)
      returns (ok: bool, left: set<TxId>)
      requires id in pool
      modifies this
      ensures (State(), ok) == ProcessAll(env, raw, old(State()), Family(pool, id))
      ensures ok ==> left == stale - set d | d in Family(pool, id)
    {
      left := stale - {id};
      var ids := pool[id].depends;
      ghost var family := Family(pool, id);
      assert family[0..] == family;
      for k := 0 to |ids|
        invariant ProcessAll(env, raw, State(), family[k..]) == ProcessAll(env, raw, old(State()), family)
        invariant left == stale - {id} - set d | d in ids[..k]
      {
        assert family[k..][0] == ids[k] && family[k..][1..] == family[k + 1..];
        ok := ProcessMempoolTx(env, raw, ids[k]);
        if !ok {
          return;
        }
        assert ids[..k + 1] == ids[..k] + [ids[k]];
        left := left - {ids[k]};
      }
      assert family[|ids|..] == [id];
      assert ids[..|ids|] == ids;
      ok := ProcessMempoolTx(env, raw, id);
    }

    method DeleteStale(env: Env, stale: set<TxId>) returns (r: Outcome, ghost order: seq<TxId>)
      modifies this`rows
      ensures (rows, r) == Sweep(env, old(rows), order) && Yields(order, stale)
              && (r == Finished ==> YieldsAll(order, stale))
    {
      var todo := stale;
      order := [];
      while todo != {}
        invariant Yields(order, stale) && todo <= stale
        invariant forall id :: id in stale ==> (id in todo <==> id !in order)
        invariant Sweep(env, old(rows), order) == (rows, Finished)
        decreases |todo|
      {
        var id :| id in todo;
        todo := todo - {id};
        SweepOne(env, old(rows), order, id);
        order := order + [id];
        if env.fate(id) == LookupFails {
          return Failed, order;
        }
        if id !in rows || rows[id].block != MEMPOOL {
          continue;
        }
        if !env.deletes(id) {
          return Failed, order;
        }
        rows := rows - {id};
      }
      r := Finished;
    }

    /** The loop over the pool; left are the stale rows it did not touch. */
    method ScanPool(env: Env, pool: Pool, raw: set<TxId>, head: nat, stale: set<TxId>)
      returns (r: Outcome, left: set<TxId>, ghost order: seq<TxId>)
      modifies this
      ensures Yields(order, pool.Keys) && (State(), r) == Scan(env, pool, raw, head, old(State()), order)
      ensures r == Finished ==> YieldsAll(order, pool.Keys) && left == stale - Ids(pool)
    {
      order, left := [], stale;
      var todo := pool.Keys;
      while todo != {}
        invariant Yields(order, pool.Keys) && todo <= pool.Keys
        invariant forall id :: id in pool ==> (id in todo <==> id !in order)
        invariant Scan(env, pool, raw, head, old(State()), order) == (State(), Finished)
        invariant left == stale - Touched(pool, order)
        decreases |todo|
      {
        var id :| id in todo;
        todo := todo - {id};
        ScanOne(env, pool, raw, head, old(State()), order, id);
        TouchedOne(pool, order, id);
        order := order + [id];
        if head + 1 >= pool[id].height {
          var ok;
          ok, left := ProcessEntry(env, pool, raw, id, left);
          if !ok {
            return Failed, left, order;
          }
        } else {
          return Running, left, order;
        }
      }
      TouchedAll(pool, order);
      r := Finished;
    }

    /** processTxSet. */
    method ProcessTxSet(env: Env, pool: Pool, raw: set<TxId>, lastBlock: Option<nat>, staleTxs: seq<TxId>)
      returns (r: Outcome, ghost order: seq<TxId>, ghost swept: seq<TxId>)
      modifies this
      ensures lastBlock.None? ==> r == Failed && rows == old(rows) && handed == old(handed)
      ensures lastBlock.Some? ==>
                && Yields(order, pool.Keys)
                && (State(), r) == Pass(env, pool, raw, lastBlock.value, old(State()), order, swept)
                && (Scan(env, pool, raw, lastBlock.value, old(State()), order).1 == Finished ==>
                    YieldsAll(order, pool.Keys))
                && Yields(swept, (set id | id in staleTxs) - Ids(pool))
                && (r == Finished ==> YieldsAll(swept, (set id | id in staleTxs) - Ids(pool)))
    {
      order, swept := [], [];
      if lastBlock.None? {
        return Failed, order, swept;
      }
      var left;
      r, left, order := ScanPool(env, pool, raw, lastBlock.value, set id | id in staleTxs);
      if r == Finished {
        r, swept := DeleteStale(env, left);
      }
    }
  }

  /** What the entries of order, and their dependencies, remove from the stale map. */
  function Touched(pool: Pool, order: seq<TxId>): set<TxId>
    requires forall id :: id in order ==> id in pool
  {
    set t, d | t in order && d in Family(pool, t) :: d
  }

  lemma TouchedOne(pool: Pool, order: seq<TxId>, id: TxId)
    requires id in pool && forall t :: t in order ==> t in pool
    ensures Touched(pool, order + [id]) == Touched(pool, order) + set d | d in Family(pool, id)
  {
    forall x
      ensures x in Touched(pool, order + [id]) <==> x in Touched(pool, order) || x in Family(pool, id)
    {
      if x in Touched(pool, order) {
        var t :| t in order && x in Family(pool, t);
        assert t in order + [id];
      }
      if x in Family(pool, id) {
        assert id in order + [id];
      }
    }
  }

  lemma TouchedAll(pool: Pool, order: seq<TxId>)
    requires YieldsAll(order, pool.Keys)
    ensures Touched(pool, order) == Ids(pool)
  {
    forall x
      ensures x in Touched(pool, order) <==> x in Ids(pool)
    {
      if x in pool { assert x in Family(pool, x); }
      if x in Depending(pool) {
        var t :| t in pool && x in pool[t].depends;
        assert x in Family(pool, t);
      }
    }
  }

  lemma {:induction false} SweepOne(env: Env, rows: Rows, order: seq<TxId>, id: TxId)
    ensures var r := Sweep(env, rows, order);
            Sweep(env, rows, order + [id]) == if r.1 == Finished then Sweep(env, r.0, [id]) else r
    decreases order
  {
    if order == [] {
      assert order + [id] == [id];
    } else {
      assert (order + [id])[1..] == order[1..] + [id];
      SweepOne(env, rows, order[1..], id);
      SweepOne(env, rows - {order[0]}, order[1..], id);
    }
  }

  lemma {:induction false} ScanOne(env: Env, pool: Pool, raw: set<TxId>, head: nat, s: Store, order: seq<TxId>,
                                   id: TxId)
    requires id in pool && forall t :: t in order ==> t in pool
    ensures var r := Scan(env, pool, raw, head, s, order);
            Scan(env, pool, raw, head, s, order + [id]) ==
            if r.1 == Finished then Scan(env, pool, raw, head, r.0, [id]) else r
    decreases order
  {
    if order == [] {
      assert order + [id] == [id];
    } else {
      assert (order + [id])[1..] == order[1..] + [id];
      ScanOne(env, pool, raw, head, ProcessAll(env, raw, s, Family(pool, order[0])).0, order[1..], id);
    }
  }
}
