/** A block's list of transactions and the transactions' pointers back to it, in model/block.go. */
module Relations {
  import opened Collections

  type Hash = string

  // ---- removal by swapping with the last ----

  /** The first occurrence of x makes room for the last element. */
  function Without<T(==)>(s: seq<T>, x: T): seq<T> {
    if x !in s then s
    else
      var i, n := IndexOf(s, x), |s| - 1;
      if i < n then s[i := s[n]][..n] else s[..n]
  }

  function WithoutAll<T(==)>(s: seq<T>, xs: seq<T>): seq<T>
    decreases |xs|
  {
    if xs == [] then s else WithoutAll(Without(s, xs[0]), xs[1..])
  }

  lemma Cancels<T>(a: multiset<T>, b: multiset<T>, y: T)
    requires a + multiset{y} == b + multiset{y}
    ensures a == b
  {
    forall t
      ensures a[t] == b[t]
    {
      assert (a + multiset{y})[t] == (b + multiset{y})[t];
    }
  }

  lemma MiddleOut<T>(s: seq<T>, i: nat, n: nat)
    requires i < n && n + 1 == |s|
    ensures multiset(s[i := s[n]][..n]) == multiset(s) - multiset{s[i]}
  {
    var t := s[i := s[n]];
    assert t == t[..n] + [s[n]];
    assert s[i] in multiset(s);
    assert multiset(t) == multiset(s) - multiset{s[i]} + multiset{s[n]};
    Cancels(multiset(t[..n]), multiset(s) - multiset{s[i]}, s[n]);
  }

  lemma LastOut<T>(s: seq<T>, n: nat)
    requires n + 1 == |s|
    ensures multiset(s[..n]) == multiset(s) - multiset{s[n]}
  {
    assert s == s[..n] + [s[n]];
    assert multiset(s) == multiset(s[..n]) + multiset{s[n]};
  }

  lemma NoneOut<T>(s: seq<T>, x: T)
    requires x !in s
    ensures multiset(s) == multiset(s) - multiset{x}
  {
    assert x !in multiset(s);
  }

  lemma WithoutIsDifference<T>(s: seq<T>, x: T)
    ensures multiset(Without(s, x)) == multiset(s) - multiset{x}
  {
    if x !in s {
      NoneOut(s, x);
    } else if IndexOf(s, x) < |s| - 1 {
      MiddleOut(s, IndexOf(s, x), |s| - 1);
    } else {
      LastOut(s, |s| - 1);
    }
  }

  lemma MinusMinus<T>(a: multiset<T>, b: multiset<T>, c: multiset<T>)
    ensures a - b - c == a - (b + c)
  {
  }

  /** Swap-with-last removal leaves exactly the difference of list and arguments, in some order. */
  lemma {:induction false} WithoutAllIsDifference<T>(s: seq<T>, xs: seq<T>)
    ensures multiset(WithoutAll(s, xs)) == multiset(s) - multiset(xs)
    decreases |xs|
  {
    if xs == [] {
    } else {
      WithoutIsDifference(s, xs[0]);
      WithoutAllIsDifference(Without(s, xs[0]), xs[1..]);
      assert xs == [xs[0]] + xs[1..];
      assert multiset(xs) == multiset{xs[0]} + multiset(xs[1..]);
      MinusMinus(multiset(s), multiset{xs[0]}, multiset(xs[1..]));
    }
  }

  // ---- agreement of list and back pointers ----

  /** list is what the block lists, back the transactions that point to it. */
  datatype Relation<T(==)> = Relation(list: seq<T>, back: set<T>) {
    ghost predicate Agrees() {
      SetOf(list) == back
    }
  }

  datatype Op<T> = Add(related: seq<T>) | Set(related: seq<T>) | Remove(related: seq<T>)

  function Do<T(==)>(r: Relation<T>, op: Op<T>): Relation<T> {
    match op
    case Add(ts) => Relation(r.list + ts, r.back + SetOf(ts))
    case Set(ts) => Relation(ts, r.back - SetOf(r.list) + SetOf(ts))
    case Remove(ts) => Relation(WithoutAll(r.list, ts), r.back - SetOf(ts))
  }

  /** Each transaction is removed as often as it is listed; only a repeated entry can violate this. */
  ghost predicate RemovesAll<T>(list: seq<T>, op: Op<T>) {
    op.Remove? ==> forall t :: t in op.related ==> multiset(list)[t] <= multiset(op.related)[t]
  }

  lemma LeftIn<T>(list: seq<T>, xs: seq<T>, t: T)
    ensures t in WithoutAll(list, xs) <==> multiset(list)[t] > multiset(xs)[t]
    ensures t in list <==> multiset(list)[t] > 0
    ensures t in xs <==> multiset(xs)[t] > 0
  {
    WithoutAllIsDifference(list, xs);
    assert t in WithoutAll(list, xs) <==> t in multiset(WithoutAll(list, xs));
    assert t in list <==> t in multiset(list);
    assert t in xs <==> t in multiset(xs);
  }

  /** Add and Set always keep agreement, and Remove keeps it exactly when it removes all occurrences. */
  lemma AgreesIff<T>(r: Relation<T>, op: Op<T>)
    requires r.Agrees()
    ensures Do(r, op).Agrees() <==> RemovesAll(r.list, op)
  {
    if op.Remove? {
      var list := WithoutAll(r.list, op.related);
      forall t
        ensures t in list <==> multiset(r.list)[t] > multiset(op.related)[t]
        ensures t in r.back - SetOf(op.related) <==> multiset(r.list)[t] > 0 && multiset(op.related)[t] == 0
      {
        LeftIn(r.list, op.related, t);
        assert t in r.back <==> t in SetOf(r.list);
      }
      if SetOf(list) == r.back - SetOf(op.related) {
        forall t | t in op.related
          ensures multiset(r.list)[t] <= multiset(op.related)[t]
        {
          assert t in SetOf(list) <==> t in r.back - SetOf(op.related);
        }
      } else {
        var t :| t in SetOf(list) <==> t !in r.back - SetOf(op.related);
        assert multiset(r.list)[t] > multiset(op.related)[t] > 0;
        LeftIn(r.list, op.related, t);
        assert t in op.related;
      }
    }
  }

  lemma ClearThenAdd<T>(r: Relation<T>, ts: seq<T>)
    ensures Do(Do(r, Set([])), Add(ts)) == Do(r, Set(ts))
  {
    assert [] + ts == ts;
    assert r.back - SetOf(r.list) + SetOf<T>([]) + SetOf(ts) == r.back - SetOf(r.list) + SetOf(ts);
  }

  /** The call adds no transaction that is listed already, and names none twice. */
  predicate Fresh<T(==)>(list: seq<T>, op: Op<T>) {
    match op
    case Add(ts) => Distinct(ts) && forall t :: t in ts ==> t !in list
    case Set(ts) => Distinct(ts)
    case Remove(_) => true
  }

  predicate AllFresh<T(==)>(r: Relation<T>, ops: seq<Op<T>>)
    decreases |ops|
  {
    ops == [] || (Fresh(r.list, ops[0]) && AllFresh(Do(r, ops[0]), ops[1..]))
  }

  function After<T(==)>(r: Relation<T>, ops: seq<Op<T>>): Relation<T>
    decreases |ops|
  {
    if ops == [] then r else After(Do(r, ops[0]), ops[1..])
  }

  lemma {:induction false} DistinctCounts<T>(s: seq<T>)
    requires Distinct(s)
    ensures forall t :: multiset(s)[t] <= 1
  {
    if s == [] {
    } else {
      DistinctCounts(s[1..]);
      assert s == [s[0]] + s[1..];
      assert s[0] !in s[1..];
      assert s[0] !in multiset(s[1..]);
    }
  }

  lemma WithoutStaysDistinct<T>(s: seq<T>, x: T)
    requires Distinct(s)
    ensures Distinct(Without(s, x)) && forall t :: t in Without(s, x) ==> t in s
  {
  }

  lemma {:induction false} WithoutAllStaysDistinct<T>(s: seq<T>, xs: seq<T>)
    requires Distinct(s)
    ensures Distinct(WithoutAll(s, xs))
    decreases |xs|
  {
    if xs == [] {
    } else {
      WithoutStaysDistinct(s, xs[0]);
      WithoutAllStaysDistinct(Without(s, xs[0]), xs[1..]);
    }
  }

  lemma StepStaysDistinct<T>(r: Relation<T>, op: Op<T>)
    requires Distinct(r.list) && Fresh(r.list, op)
    ensures Distinct(Do(r, op).list) && RemovesAll(r.list, op)
  {
    match op
    case Add(ts) => assert forall i :: 0 <= i < |ts| ==> ts[i] in ts;
    case Set(ts) =>
    case Remove(ts) =>
      WithoutAllStaysDistinct(r.list, ts);
      DistinctCounts(r.list);
      forall t | t in ts
        ensures multiset(r.list)[t] <= multiset(ts)[t]
      {
        assert t in multiset(ts);
      }
  }

  /** Over any sequence of calls that list no transaction twice, list and back pointers agree after each. */
  lemma {:induction false} AgreesThroughout<T>(r: Relation<T>, ops: seq<Op<T>>)
    requires r.Agrees() && Distinct(r.list) && AllFresh(r, ops)
    ensures After(r, ops).Agrees() && Distinct(After(r, ops).list)
    decreases |ops|
  {
    if ops == [] {
    } else {
      StepStaysDistinct(r, ops[0]);
      AgreesIff(r, ops[0]);
      AgreesThroughout(Do(r, ops[0]), ops[1..]);
    }
  }

  /** Added twice and removed once, a transaction is still listed by a block it no longer points to. */
  lemma AddedTwiceRemovedOnce<T>(t: T)
    ensures !After(Relation([], {}), [Add([t]), Add([t]), Remove([t])]).Agrees()
  {
    var ops: seq<Op<T>> := [Add([t]), Add([t]), Remove([t])];
    var r0: Relation<T> := Relation([], {});
    var r2 := Do(Do(r0, Add([t])), Add([t]));
    assert r2 == Relation([t, t], {t});
    assert ops[1..] == [Add([t]), Remove([t])] && ops[1..][1..] == [Remove([t])] && ops[1..][1..][1..] == [];
    assert After(r0, ops) == After(r2, [Remove([t])]) == Do(r2, Remove([t]));
    assert multiset([t, t])[t] == 2 && multiset([t])[t] == 1;
    AgreesIff(r2, Remove([t]));
  }

  // ---- the objects ----

  class Transaction {
    var blockHashID: Option<Hash>
    var hasR: bool // R is not nil
    var blockHash: Block? // R.BlockHash
  }

  /** The first failing statement of n, or n. */
  function FirstFailure(fails: nat -> bool, n: nat): (k: nat)
    ensures k <= n && (forall i :: 0 <= i < k ==> !fails(i)) && (k < n ==> fails(k))
  {
    Failure(fails, 0, n)
  }

  function Failure(fails: nat -> bool, from: nat, n: nat): (k: nat)
    requires from <= n
    ensures from <= k <= n && (forall i :: from <= i < k ==> !fails(i)) && (k < n ==> fails(k))
    decreases n - from
  {
    if from == n || fails(from) then from else Failure(fails, from + 1, n)
  }

  class Block {
    const hash: Hash
    var hasR: bool // R is not nil
    var txs: seq<Transaction> // R.BlockHashTransactions

    /** The relation of this block within a set of transactions. */
    ghost function Seen(us: set<Transaction>): Relation<Transaction>
      reads this, us
    {
      Relation(txs, Pointing(us))
    }

    ghost function Pointing(us: set<Transaction>): set<Transaction>
      reads us
    {
      set t | t in us && t.blockHash == this
    }

    ghost predicate NilHoldsNothing(us: set<Transaction>)
      reads us
    {
      forall t :: t in us && !t.hasR ==> t.blockHash == null
    }

    /** A nil R holds nothing, and the block lists nothing outside us. */
    ghost predicate Shaped(us: set<Transaction>)
      reads this, us
    {
      && (!hasR ==> txs == []) && NilHoldsNothing(us)
      && (forall t :: t in txs ==> t in us)
    }

    /** The loop over the database: one statement for each transaction, fails says which of them it rejects. */
    method WriteHashes(insert: bool, related: seq<Transaction>, fails: nat -> bool) returns (ok: bool)
      modifies related`blockHashID
      ensures ok <==> FirstFailure(fails, |related|) == |related|
      ensures ok ==> forall t :: t in related ==> t.blockHashID == Some(hash)
    {
      for k := 0 to |related|
        invariant k <= FirstFailure(fails, |related|)
        invariant forall i :: 0 <= i < k ==> related[i].blockHashID == Some(hash)
      {
        if insert {
          related[k].blockHashID := Some(hash);
          if fails(k) {
            return false;
          }
        } else {
          if fails(k) {
            return false;
          }
          related[k].blockHashID := Some(hash);
        }
      }
      ok := true;
    }

    method PointBack(related: seq<Transaction>, ghost us: set<Transaction>)
      requires NilHoldsNothing(us) && forall t :: t in related ==> t in us
      modifies related`hasR, related`blockHash
      ensures NilHoldsNothing(us) && Pointing(us) == old(Pointing(us)) + SetOf(related)
    {
      for k := 0 to |related|
        invariant NilHoldsNothing(us)
        invariant forall t :: t in us ==> t.blockHash == if t in related[..k] then this else old(t.blockHash)
      {
        assert related[..k + 1] == related[..k] + [related[k]];
        related[k].hasR, related[k].blockHash := true, this;
      }
      assert related[..|related|] == related;
    }

    method AddBlockHashTransactions(insert: bool, related: seq<Transaction>, fails: nat -> bool,
                                    ghost us: set<Transaction>)
      returns (ok: bool)
      requires Shaped(us) && forall t :: t in related ==> t in us
      modifies this, related
      ensures Shaped(us)
      ensures ok <==> FirstFailure(fails, |related|) == |related|
      ensures ok ==> Seen(us) == Do(old(Seen(us)), Add(related))
      ensures ok ==> txs == old(txs) + related && Pointing(us) == old(Pointing(us)) + SetOf(related)
      ensures ok ==> forall t :: t in related ==> t.blockHashID == Some(hash)
      ensures !ok ==> Seen(us) == old(Seen(us))
    {
      ok := WriteHashes(insert, related, fails);
      if !ok {
        return;
      }
      if !hasR {
        hasR, txs := true, related;
      } else {
        txs := txs + related;
      }
      PointBack(related, us);
    }

    /** The loop over the listed transactions of SetBlockHashTransactions. */
    method Forget(ghost us: set<Transaction>)
      requires Shaped(us)
      modifies txs`blockHashID, txs`blockHash
      ensures NilHoldsNothing(us) && Pointing(us) == old(Pointing(us)) - SetOf(txs)
    {
      for k := 0 to |txs|
        invariant NilHoldsNothing(us)
        invariant forall t :: t in us ==> t.blockHash == if t in txs[..k] then null else old(t.blockHash)
      {
        assert txs[..k + 1] == txs[..k] + [txs[k]];
        txs[k].blockHashID := None;
        if !txs[k].hasR {
          continue;
        }
        txs[k].blockHash := null;
      }
      assert txs[..|txs|] == txs;
    }

    method ForgetAll(ghost us: set<Transaction>)
      requires Shaped(us)
      modifies this`txs, txs`blockHashID, txs`blockHash
      ensures Shaped(us) && Seen(us) == Do(old(Seen(us)), Set([]))
    {
      if hasR {
        Forget(us);
        txs := [];
      }
    }

    /** clearFails: the statement that clears the column is rejected. */
    method SetBlockHashTransactions(insert: bool, related: seq<Transaction>, clearFails: bool, fails: nat -> bool,
                                    ghost us: set<Transaction>)
      returns (ok: bool)
      requires Shaped(us) && forall t :: t in related ==> t in us
      modifies this, related, txs
      ensures Shaped(us)
      ensures ok <==> !clearFails && FirstFailure(fails, |related|) == |related|
      ensures ok ==> Seen(us) == Do(old(Seen(us)), Set(related))
      ensures ok ==> txs == related && Pointing(us) == old(Pointing(us)) - SetOf(old(txs)) + SetOf(related)
      ensures !ok ==> Seen(us) == old(Seen(us)) || Seen(us) == Do(old(Seen(us)), Set([]))
    {
      if clearFails {
        return false;
      }
      ForgetAll(us);
      ok := AddBlockHashTransactions(insert, related, fails, us);
      ClearThenAdd(old(Seen(us)), related);
    }

    method RemoveOne(rel: Transaction)
      modifies this`txs
      ensures txs == Without(old(txs), rel)
    {
      for i := 0 to |txs|
        invariant txs == old(txs) && forall k :: 0 <= k < i ==> txs[k] != rel
      {
        if rel != txs[i] {
          continue;
        }
        var ln := |txs|;
        if ln > 1 && i < ln - 1 {
          txs := txs[i := txs[ln - 1]];
        }
        txs := txs[..ln - 1];
        return;
      }
    }

    /** The loop over the database of RemoveBlockHashTransactions; it stops at the first statement that fails. */
    method ClearHashes(related: seq<Transaction>, fails: nat -> bool, ghost us: set<Transaction>) returns (ok: bool)
      requires Shaped(us) && forall t :: t in related ==> t in us
      modifies related`blockHashID, related`blockHash
      ensures ok <==> FirstFailure(fails, |related|) == |related|
      ensures var n := FirstFailure(fails, |related|); var done := if ok then related else related[..n + 1];
              NilHoldsNothing(us) && Pointing(us) == old(Pointing(us)) - SetOf(done)
    {
      for k := 0 to |related|
        invariant k <= FirstFailure(fails, |related|) && NilHoldsNothing(us)
        invariant forall t :: t in us ==> t.blockHash == if t in related[..k] then null else old(t.blockHash)
      {
        assert related[..k + 1] == related[..k] + [related[k]];
        related[k].blockHashID := None;
        if related[k].hasR {
          related[k].blockHash := null;
        }
        if fails(k) {
          return false;
        }
      }
      assert related[..|related|] == related;
      ok := true;
    }

    method RemoveEach(related: seq<Transaction>)
      modifies this`txs
      ensures txs == WithoutAll(old(txs), related)
    {
      assert related[0..] == related;
      for k := 0 to |related|
        invariant WithoutAll(txs, related[k..]) == WithoutAll(old(txs), related)
      {
        assert related[k..][0] == related[k] && related[k..][1..] == related[k + 1..];
        RemoveOne(related[k]);
      }
    }

    method RemoveBlockHashTransactions(related: seq<Transaction>, fails: nat -> bool, ghost us: set<Transaction>)
      returns (ok: bool)
      requires Shaped(us) && forall t :: t in related ==> t in us
      modifies this, related
      ensures Shaped(us)
      ensures ok <==> FirstFailure(fails, |related|) == |related|
      ensures ok ==> Seen(us) == Do(old(Seen(us)), Remove(related))
      ensures ok ==> multiset(txs) == multiset(old(txs)) - multiset(related)
                     && Pointing(us) == old(Pointing(us)) - SetOf(related)
      ensures !ok ==> txs == old(txs)
      ensures !ok ==> Seen(us).back == old(Seen(us).back) - SetOf(related[..FirstFailure(fails, |related|) + 1])
    {
      WithoutAllIsDifference(txs, related);
      if |related| == 0 {
        return true;
      }
      ok := ClearHashes(related, fails, us);
      if !ok {
        return;
      }
      StillListed(txs, related);
      if !hasR {
        NothingLeft(related);
        return;
      }
      RemoveEach(related);
    }
  }

  lemma {:induction false} NothingLeft<T>(xs: seq<T>)
    ensures WithoutAll([], xs) == []
    decreases |xs|
  {
    if xs == [] {
    } else {
      NothingLeft(xs[1..]);
    }
  }

  lemma {:induction false} StillListed<T>(s: seq<T>, xs: seq<T>)
    ensures forall t :: t in WithoutAll(s, xs) ==> t in s
    decreases |xs|
  {
    if xs == [] {
    } else {
      StillListed(Without(s, xs[0]), xs[1..]);
    }
  }

  // ---- eager loading ----

  /** The rows that carry a hash, in order. */
  function Carrying(rows: seq<Transaction>, hash: Hash): seq<Transaction>
    reads rows`blockHashID
    decreases |rows|
  {
    if rows == [] then []
    else
      var n := |rows| - 1;
      Carrying(rows[..n], hash) + if rows[n].blockHashID == Some(hash) then [rows[n]] else []
  }

  /** The first of the blocks with a hash. */
  function First(slice: seq<Block>, hash: Hash): Block?
    decreases |slice|
  {
    if slice == [] then null else if slice[0].hash == hash then slice[0] else First(slice[1..], hash)
  }

  lemma {:induction false} FirstIsIn(slice: seq<Block>, hash: Hash)
    ensures var b := First(slice, hash); b == null || (b in slice && b.hash == hash)
    ensures First(slice, hash) == null <==> forall b :: b in slice ==> b.hash != hash
    decreases |slice|
  {
    if slice == [] {
    } else {
      assert slice == [slice[0]] + slice[1..];
      FirstIsIn(slice[1..], hash);
    }
  }

  /** What the load has done with the rows so far: every block that is the first with its hash has gained the rows
      that carry it, and these rows point to it. */
  twostate predicate Joined(slice: seq<Block>, rows: seq<Transaction>)
    reads slice, rows
  {
    (forall b :: b in slice ==> Gained(slice, rows, b)) && forall t :: t in rows ==> PointsRight(slice, t)
  }

  twostate predicate Gained(slice: seq<Block>, rows: seq<Transaction>, b: Block)
    reads b, rows
  {
    b.txs == old(b.txs) + if First(slice, b.hash) == b then Carrying(rows, b.hash) else []
  }

  twostate predicate PointsRight(slice: seq<Block>, t: Transaction)
    reads t
  {
    var b := if t.blockHashID.Some? then First(slice, t.blockHashID.value) else null;
    if b == null then t.hasR == old(t.hasR) && t.blockHash == old(t.blockHash) else t.hasR && t.blockHash == b
  }

  /** The inner loop: the row goes to the first block with its hash, if there is one. */
  method Attach(slice: seq<Block>, foreign: Transaction)
    modifies slice`txs, foreign`hasR, foreign`blockHash
    ensures PointsRight(slice, foreign)
    ensures forall b :: b in slice ==>
              var gains := foreign.blockHashID == Some(b.hash) && First(slice, b.hash) == b;
              b.txs == old(b.txs) + if gains then [foreign] else []
  {
    for k := 0 to |slice|
      invariant forall b :: b in slice ==> b.txs == old(b.txs)
      invariant foreign.hasR == old(foreign.hasR) && foreign.blockHash == old(foreign.blockHash)
      invariant foreign.blockHashID.Some? ==>
                  First(slice, foreign.blockHashID.value) == First(slice[k..], foreign.blockHashID.value)
    {
      var local := slice[k];
      if Some(local.hash) == foreign.blockHashID {
        assert First(slice, local.hash) == local;
        local.txs := local.txs + [foreign];
        if !foreign.hasR {
          foreign.hasR := true;
        }
        foreign.blockHash := local;
        return;
      }
    }
    if foreign.blockHashID.Some? {
      FirstIsIn(slice, foreign.blockHashID.value);
    }
  }

  predicate DistinctHashes(slice: seq<Block>) {
    forall i, j :: 0 <= i < j < |slice| ==> slice[i].hash != slice[j].hash
  }

  lemma {:induction false} FirstIsOnly(slice: seq<Block>, b: Block)
    requires DistinctHashes(slice) && b in slice
    ensures First(slice, b.hash) == b
    decreases |slice|
  {
    if slice[0] != b {
      assert slice == [slice[0]] + slice[1..];
      FirstIsOnly(slice[1..], b);
    }
  }

  method MakeR(slice: seq<Block>)
    modifies slice`hasR
    ensures forall b :: b in slice ==> b.hasR
  {
    for k := 0 to |slice|
      invariant forall i :: 0 <= i < k ==> slice[i].hasR
    {
      if !slice[k].hasR {
        slice[k].hasR := true;
      }
    }
  }

  lemma CarryingOneMore(rows: seq<Transaction>, k: nat, hash: Hash)
    requires k < |rows|
    ensures Carrying(rows[..k + 1], hash) ==
            Carrying(rows[..k], hash) + if rows[k].blockHashID == Some(hash) then [rows[k]] else []
  {
    assert rows[..k + 1][..k] == rows[..k];
  }

  twostate predicate PointsSoFar(slice: seq<Block>, done: seq<Transaction>, t: Transaction)
    reads t
  {
    if t in done then PointsRight(slice, t) else t.hasR == old(t.hasR) && t.blockHash == old(t.blockHash)
  }

  /** The outer loop. */
  method AttachAll(slice: seq<Block>, rows: seq<Transaction>)
    modifies slice`txs, rows`hasR, rows`blockHash
    ensures Joined(slice, rows)
  {
    for k := 0 to |rows|
      invariant forall b :: b in slice ==> Gained(slice, rows[..k], b)
      invariant forall t :: t in rows ==> PointsSoFar(slice, rows[..k], t)
    {
      assert rows[..k + 1] == rows[..k] + [rows[k]];
      Attach(slice, rows[k]);
      forall b | b in slice
        ensures Gained(slice, rows[..k + 1], b)
      {
        CarryingOneMore(rows, k, b.hash);
      }
    }
    assert rows[..|rows|] == rows;
  }

  /** LoadBlockHashTransactions for several blocks, given the rows that the query returns: a join. */
  method LoadBlockHashTransactions(slice: seq<Block>, rows: seq<Transaction>)
    requires forall b :: b in slice && !b.hasR ==> b.txs == []
    modifies slice`hasR, slice`txs, rows`hasR, rows`blockHash
    ensures (forall b :: b in slice ==> b.hasR) && (slice != [] ==> Joined(slice, rows))
    ensures DistinctHashes(slice) ==> forall b :: b in slice ==> b.txs == old(b.txs) + Carrying(rows, b.hash)
  {
    MakeR(slice);
    if |slice| == 0 {
      return;
    }
    AttachAll(slice, rows);
    forall b | b in slice && DistinctHashes(slice)
      ensures First(slice, b.hash) == b
    {
      FirstIsOnly(slice, b);
    }
  }

  /** The same for one block: its list becomes the rows, all of which point to it. */
  method LoadOne(block: Block, rows: seq<Transaction>)
    modifies block, rows`hasR, rows`blockHash
    ensures block.hasR && block.txs == rows && forall t :: t in rows ==> t.hasR && t.blockHash == block
  {
    block.hasR, block.txs := true, rows;
    for k := 0 to |rows|
      invariant block.hasR && block.txs == rows
      invariant forall i :: 0 <= i < k ==> rows[i].hasR && rows[i].blockHash == block
    {
      rows[k].hasR, rows[k].blockHash := true, block;
    }
  }
}
