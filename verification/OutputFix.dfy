/**
 * fixOutputs of daemon/jobs/outputfixsync.go: a pager feeds the claims marked spent, in pages, to a pool of workers
 * that change the table it pages over.
 */
module OutputFix {
  import opened Collections

  const PAGE_LIMIT := 15000
  const BUFFER := 100 // capacity of spentClaimsChan

  type Id = nat // claim.id, which counts from 1

  /** The output a claim was last moved to. */
  datatype Point = Point(claimId: string, txHash: string, vout: nat)
  datatype Claim = Claim(bidState: string, point: Point)
  type Table = map<Id, Claim>

  /** table is the claim table before the run; spent are the outputs that are spent. */
  datatype Config = Config(table: Table, spent: set<Point>, cpus: nat)

  datatype Worker = Free | Holding(id: Id) | Failed | Done
  datatype Phase = Paging | Closed | Returned | Aborted

  datatype State = State(
    table: Table,
    phase: Phase,
    last: Id, // lastClaimRecordID
    page: seq<Id>, // the rest of the current page
    queue: seq<Id>, // spentClaimsChan
    workers: seq<Worker>,
    errors: nat, // errorsChan
    log: Log)

  /** What has happened so far; nothing in fixOutputs reads it. */
  datatype Log = Log(enqueued: seq<Id>, finished: multiset<Id>, failed: multiset<Id>, skipped: set<Id>)

  datatype Action =
    | Fetch(page: seq<Id>)
    | FetchFails
    | Enqueue
    | Take(i: nat)
    | Finish(i: nat)
    | Fail(i: nat)
    | Exit(i: nat)
    | Return

  predicate IsSpent(t: Table, id: Id) { id in t && t[id].bidState == "Spent" }

  /** The rows the query of the next page selects from. */
  function Matches(s: State): set<Id> {
    set id | id in s.table && IsSpent(s.table, id) && id > s.last
  }

  /** What the query promises, which names no order: up to PAGE_LIMIT matching rows, and all of them if they fit. */
  predicate IsPage(matches: set<Id>, page: seq<Id>) {
    && Distinct(page) && (forall id :: id in page ==> id in matches)
    && |page| == if |matches| < PAGE_LIMIT then |matches| else PAGE_LIMIT
  }

  predicate Ascending(ids: seq<Id>) {
    forall i, j :: 0 <= i < j < |ids| ==> ids[i] < ids[j]
  }

  /** The page holds the smallest matching ids, in order. */
  predicate InOrder(matches: set<Id>, page: seq<Id>) {
    Ascending(page) && forall id :: id in matches && page != [] ==> id in page || id > page[|page| - 1]
  }

  /** What a worker does to the row of a claim. */
  function Examined(c: Config, claim: Claim): Claim {
    if claim.point in c.spent then claim else claim.(bidState := "Active")
  }

  predicate HasWorker(s: State, i: nat) { i < |s.workers| }

  predicate Can(c: Config, s: State, a: Action) {
    match a
    case Fetch(page) => s.phase == Paging && s.page == [] && IsPage(Matches(s), page)
    case FetchFails => s.phase == Paging && s.page == []
    case Enqueue => s.phase == Paging && s.page != [] && |s.queue| < BUFFER
    case Take(i) => HasWorker(s, i) && s.workers[i] == Free && s.queue != []
    case Finish(i) => HasWorker(s, i) && s.workers[i].Holding? && s.workers[i].id in s.table
    case Fail(i) => HasWorker(s, i) && s.workers[i].Holding? && s.errors < c.cpus // room in errorsChan
    case Exit(i) => HasWorker(s, i) && s.workers[i] == Free && s.queue == [] && s.phase == Closed
    case Return => s.phase == Closed && forall w :: w in s.workers ==> w == Failed || w == Done
  }

  /** The matching ids the next query will not select, and this page does not hold. */
  function Skips(s: State, page: seq<Id>): set<Id> {
    set id | id in Matches(s) && page != [] && id !in page && id <= page[|page| - 1]
  }

  function Do(c: Config, s: State, a: Action): State
    requires Can(c, s, a)
  {
    match a
    case Fetch(page) =>
      if page == [] then s.(phase := Closed)
      else s.(page := page, log := s.log.(skipped := s.log.skipped + Skips(s, page)))
    case FetchFails => s.(phase := Aborted)
    case Enqueue =>
      s.(queue := s.queue + [s.page[0]], last := s.page[0], page := s.page[1..],
         log := s.log.(enqueued := s.log.enqueued + [s.page[0]]))
    case Take(i) => s.(queue := s.queue[1..], workers := s.workers[i := Holding(s.queue[0])])
    case Finish(i) =>
      var id := s.workers[i].id;
      s.(table := s.table[id := Examined(c, s.table[id])], workers := s.workers[i := Free],
         log := s.log.(finished := s.log.finished + multiset{id}))
    case Fail(i) =>
      s.(errors := s.errors + 1, workers := s.workers[i := Failed],
         log := s.log.(failed := s.log.failed + multiset{s.workers[i].id}))
    case Exit(i) => s.(workers := s.workers[i := Done])
    case Return => s.(phase := Returned)
  }

  predicate Start(c: Config, s: State) {
    && 0 !in c.table && c.cpus >= 1
    && s == State(c.table, Paging, 0, [], [], seq(c.cpus - 1, _ => Free), 0, Log([], multiset{}, multiset{}, {}))
  }

  predicate Runs(c: Config, s: State, run: seq<Action>)
    decreases run
  {
    run == [] || (Can(c, s, run[0]) && Runs(c, Do(c, s, run[0]), run[1..]))
  }

  function After(c: Config, s: State, run: seq<Action>): State
    requires Runs(c, s, run)
    decreases run
  {
    if run == [] then s else After(c, Do(c, s, run[0]), run[1..])
  }

  // ---- adding up over the workers ----

  function Total(ws: seq<Worker>, weigh: Worker -> nat): nat {
    if ws == [] then 0 else weigh(ws[0]) + Total(ws[1..], weigh)
  }

  function Holds(id: Id): Worker -> nat {
    w => if w == Holding(id) then 1 else 0
  }

  /** How many workers have the claim in hand. */
  function Held(ws: seq<Worker>, id: Id): nat { Total(ws, Holds(id)) }

  lemma {:induction false} TotalUpdate(ws: seq<Worker>, i: nat, w: Worker, weigh: Worker -> nat)
    requires i < |ws|
    ensures Total(ws[i := w], weigh) + weigh(ws[i]) == Total(ws, weigh) + weigh(w)
  {
    if i == 0 {
      assert ws[i := w][1..] == ws[1..];
    } else {
      assert ws[i := w][1..] == ws[1..][i - 1 := w];
      TotalUpdate(ws[1..], i - 1, w, weigh);
    }
  }

  lemma {:induction false} HeldIs(ws: seq<Worker>, id: Id)
    ensures Held(ws, id) > 0 <==> Holding(id) in ws
  {
    if ws == [] {
    } else {
      assert forall w :: w in ws <==> w == ws[0] || w in ws[1..];
      HeldIs(ws[1..], id);
    }
  }

  function HasFailed(w: Worker): nat { if w == Failed then 1 else 0 }

  /** The steps a worker may still take without another claim. */
  function Effort(w: Worker): nat { match w case Holding(_) => 2 case Free => 1 case _ => 0 }

  lemma {:induction false} TotalBound(ws: seq<Worker>)
    ensures Total(ws, HasFailed) <= |ws|
    ensures (exists w :: w in ws && w != Failed) ==> Total(ws, HasFailed) < |ws|
    ensures (forall w :: w in ws ==> w != Failed) ==> Total(ws, HasFailed) == 0
  {
    if ws == [] {
    } else {
      assert ws[0] in ws && forall w :: w in ws <==> w == ws[0] || w in ws[1..];
      TotalBound(ws[1..]);
    }
  }

  // ---- what every step keeps ----

  ghost predicate Balanced(s: State, id: Id) {
    multiset(s.log.enqueued)[id] == multiset(s.queue)[id] + Held(s.workers, id) + s.log.finished[id] + s.log.failed[id]
  }

  /** Every claim sent to the workers is in the buffer, in hand, finished, or was in hand of a worker that failed. */
  ghost predicate Conserved(s: State) {
    forall id: Id :: Balanced(s, id)
  }

  ghost predicate Pool(c: Config, s: State) {
    && c.cpus >= 1 && |s.workers| == c.cpus - 1
    && s.errors == Total(s.workers, HasFailed)
    && |s.queue| <= BUFFER
    && (s.phase != Paging && s.phase != Aborted ==> s.page == [])
    && (Done in s.workers ==> s.queue == [] && (s.phase == Closed || s.phase == Returned))
  }

  /** The table after exactly the claims in done have been examined. */
  function Repaired(c: Config, done: multiset<Id>): Table {
    map id | id in c.table :: if id in done then Examined(c, c.table[id]) else c.table[id]
  }

  /** Only claims that were marked spent are sent to the workers. */
  ghost predicate OnlySpent(c: Config, s: State) {
    forall id :: id in s.page || id in s.log.enqueued ==> IsSpent(c.table, id)
  }

  /** Where the next page starts. */
  function Bound(s: State): Id {
    if s.page == [] then s.last else s.page[|s.page| - 1]
  }

  /** Every claim marked spent has been sent, is on the page, is still ahead, or was skipped. */
  ghost predicate Covered(c: Config, s: State) {
    forall id: Id :: IsSpent(c.table, id) ==>
                   || id in s.log.enqueued || id in s.page || id in s.log.skipped
                   || (id > Bound(s) && (s.phase == Paging || s.phase == Aborted))
  }

  ghost predicate Inv(c: Config, s: State) {
    && Conserved(s) && Pool(c, s) && OnlySpent(c, s) && Covered(c, s)
    && s.table == Repaired(c, s.log.finished)
  }

  lemma {:induction false} AllFree(n: nat, weigh: Worker -> nat)
    ensures Total(seq(n, _ => Free), weigh) == n * weigh(Free)
  {
    if n == 0 {
    } else {
      assert seq(n, _ => Free)[1..] == seq(n - 1, _ => Free);
      AllFree(n - 1, weigh);
    }
  }

  lemma StartInv(c: Config, s: State)
    requires Start(c, s)
    ensures Inv(c, s)
  {
    AllFree(c.cpus - 1, HasFailed);
    forall id: Id
      ensures Balanced(s, id)
    {
      AllFree(c.cpus - 1, Holds(id));
    }
  }

  /** A claim in the buffer or in hand has been sent. */
  lemma WasSent(c: Config, s: State, id: Id)
    requires Conserved(s)
    ensures id in s.queue || Holding(id) in s.workers || id in s.log.finished || id in s.log.failed <==>
              id in s.log.enqueued
  {
    assert Balanced(s, id);
    HeldIs(s.workers, id);
    assert id in multiset(s.log.enqueued) <==> id in s.log.enqueued;
    assert id in multiset(s.queue) <==> id in s.queue;
  }

  lemma TakeBalances(c: Config, s: State, i: nat, id: Id)
    requires Balanced(s, id) && Can(c, s, Take(i))
    ensures Balanced(Do(c, s, Take(i)), id)
  {
    TotalUpdate(s.workers, i, Holding(s.queue[0]), Holds(id));
    assert s.queue == [s.queue[0]] + s.queue[1..];
    assert multiset(s.queue)[id] == multiset([s.queue[0]])[id] + multiset(s.queue[1..])[id];
  }

  lemma EnqueueBalances(c: Config, s: State, id: Id)
    requires Balanced(s, id) && Can(c, s, Enqueue)
    ensures Balanced(Do(c, s, Enqueue), id)
  {
    var one: seq<Id> := [s.page[0]];
    assert multiset(s.queue + one)[id] == multiset(s.queue)[id] + multiset(one)[id];
    assert multiset(s.log.enqueued + one)[id] == multiset(s.log.enqueued)[id] + multiset(one)[id];
  }

  lemma FinishBalances(c: Config, s: State, i: nat, id: Id)
    requires Balanced(s, id) && Can(c, s, Finish(i))
    ensures Balanced(Do(c, s, Finish(i)), id)
  {
    TotalUpdate(s.workers, i, Free, Holds(id));
  }

  lemma FailBalances(c: Config, s: State, i: nat, id: Id)
    requires Balanced(s, id) && Can(c, s, Fail(i))
    ensures Balanced(Do(c, s, Fail(i)), id)
  {
    TotalUpdate(s.workers, i, Failed, Holds(id));
  }

  lemma StepBalances(c: Config, s: State, a: Action, id: Id)
    requires Balanced(s, id) && Can(c, s, a)
    ensures Balanced(Do(c, s, a), id)
  {
    match a
    case Enqueue => EnqueueBalances(c, s, id);
    case Take(i) => TakeBalances(c, s, i, id);
    case Finish(i) => FinishBalances(c, s, i, id);
    case Fail(i) => FailBalances(c, s, i, id);
    case Exit(i) => TotalUpdate(s.workers, i, Done, Holds(id));
    case _ =>
  }

  lemma StepConserves(c: Config, s: State, a: Action)
    requires Inv(c, s) && Can(c, s, a)
    ensures Conserved(Do(c, s, a))
  {
    forall id: Id
      ensures Balanced(Do(c, s, a), id)
    {
      assert Balanced(s, id);
      StepBalances(c, s, a, id);
    }
  }

  lemma StepPool(c: Config, s: State, a: Action)
    requires Inv(c, s) && Can(c, s, a)
    ensures Pool(c, Do(c, s, a))
  {
    match a
    case Take(i) => TotalUpdate(s.workers, i, Holding(s.queue[0]), HasFailed);
    case Finish(i) => TotalUpdate(s.workers, i, Free, HasFailed);
    case Fail(i) => TotalUpdate(s.workers, i, Failed, HasFailed);
    case Exit(i) => TotalUpdate(s.workers, i, Done, HasFailed);
    case _ =>
  }

  lemma FinishTable(c: Config, s: State, i: nat)
    requires Inv(c, s) && Can(c, s, Finish(i))
    ensures Do(c, s, Finish(i)).table == Repaired(c, Do(c, s, Finish(i)).log.finished)
  {
    var id := s.workers[i].id;
    assert Examined(c, s.table[id]) == Examined(c, c.table[id]);
  }

  lemma StepTable(c: Config, s: State, a: Action)
    requires Inv(c, s) && Can(c, s, a)
    ensures Do(c, s, a).table == Repaired(c, Do(c, s, a).log.finished)
  {
    if a.Finish? { FinishTable(c, s, a.i); }
  }

  /** A claim marked spent that the query did not select is finished already. */
  lemma UnmatchedIsFinished(c: Config, s: State, id: Id)
    requires Inv(c, s) && IsSpent(c.table, id) && id > s.last && id !in Matches(s)
    ensures id in s.log.enqueued
  {
    assert id in s.log.finished;
    WasSent(c, s, id);
  }

  lemma {:induction false} EmptyPage(matches: set<Id>, page: seq<Id>)
    requires IsPage(matches, page) && page == []
    ensures matches == {}
  {
  }

  lemma FetchCovers(c: Config, s: State, page: seq<Id>)
    requires Inv(c, s) && Can(c, s, Fetch(page))
    ensures Covered(c, Do(c, s, Fetch(page))) && OnlySpent(c, Do(c, s, Fetch(page)))
  {
    var u := Do(c, s, Fetch(page));
    forall id | id in page
      ensures IsSpent(c.table, id)
    {
      assert id in Matches(s);
      if id in s.log.finished { WasSent(c, s, id); }
    }
    forall id: Id | IsSpent(c.table, id)
      ensures id in u.log.enqueued || id in u.page || id in u.log.skipped || (id > Bound(u) && u.phase == Paging)
    {
      if id !in s.log.enqueued && id !in s.log.skipped {
        if id !in Matches(s) {
          UnmatchedIsFinished(c, s, id);
        } else if page == [] {
          EmptyPage(Matches(s), page);
        }
      }
    }
  }

  lemma EnqueueCovers(c: Config, s: State)
    requires Inv(c, s) && Can(c, s, Enqueue)
    ensures Covered(c, Do(c, s, Enqueue)) && OnlySpent(c, Do(c, s, Enqueue))
  {
    var u := Do(c, s, Enqueue);
    assert s.page == [s.page[0]] + u.page;
    assert Bound(u) == Bound(s);
  }

  lemma StepInv(c: Config, s: State, a: Action)
    requires Inv(c, s) && Can(c, s, a)
    ensures Inv(c, Do(c, s, a))
  {
    StepConserves(c, s, a);
    StepPool(c, s, a);
    StepTable(c, s, a);
    match a
    case Fetch(page) => FetchCovers(c, s, page);
    case Enqueue => EnqueueCovers(c, s);
    case _ =>
  }

  lemma {:induction false} InvHolds(c: Config, s: State, run: seq<Action>)
    requires Inv(c, s) && Runs(c, s, run)
    ensures Inv(c, After(c, s, run))
    decreases run
  {
    if run == [] {
    } else {
      StepInv(c, s, run[0]);
      InvHolds(c, Do(c, s, run[0]), run[1..]);
    }
  }

  // ---- the result ----

  /** One pass over the table, claim by claim. */
  function Sequential(c: Config): Table {
    map id | id in c.table :: if IsSpent(c.table, id) then Examined(c, c.table[id]) else c.table[id]
  }

  /** The row of the claim after the run: its output is what it was, and its state is "Active" if it was examined and
      the output is not spent, and otherwise what it was. */
  predicate RowAfter(c: Config, t: Table, id: Id, examined: bool)
    requires id in c.table
  {
    && id in t && t[id].point == c.table[id].point
    && t[id].bidState == if examined && c.table[id].point !in c.spent then "Active" else c.table[id].bidState
  }

  lemma RepairedRows(c: Config, done: multiset<Id>)
    ensures Repaired(c, done).Keys == c.table.Keys
    ensures forall id :: id in c.table ==> RowAfter(c, Repaired(c, done), id, id in done)
  {
  }

  lemma SequentialRows(c: Config)
    ensures Sequential(c).Keys == c.table.Keys
    ensures forall id :: id in c.table ==> RowAfter(c, Sequential(c), id, IsSpent(c.table, id))
    ensures forall id :: id in c.table ==>
              (Sequential(c)[id].bidState == "Active" <==>
               c.table[id].bidState == "Active" || (c.table[id].bidState == "Spent" && c.table[id].point !in c.spent))
  {
    assert "Spent"[0] != "Active"[0];
  }

  /** When fixOutputs returns, exactly the finished claims have been put right, and every claim marked spent is
      finished, was skipped by a page, was in the hands of a worker that failed, or was left in the buffer; the last
      happens only when every worker failed. */
  lemma Outcome(c: Config, s: State, run: seq<Action>)
    requires Start(c, s) && Runs(c, s, run) && After(c, s, run).phase == Returned
    ensures var u := After(c, s, run);
            && u.table == Repaired(c, u.log.finished) && u.table.Keys == c.table.Keys
            && (forall id :: id in c.table ==> RowAfter(c, u.table, id, id in u.log.finished))
            && (forall id: Id :: IsSpent(c.table, id) ==>
                  id in u.log.finished || id in u.log.failed || id in u.queue || id in u.log.skipped)
            && (forall id: Id :: id in u.log.finished || id in u.log.failed || id in u.queue ==> IsSpent(c.table, id))
            && (u.queue != [] ==> forall w :: w in u.workers ==> w == Failed)
  {
    StartInv(c, s);
    InvHolds(c, s, run);
    ReturnedIdle(c, s, run);
    var u := After(c, s, run);
    RepairedRows(c, u.log.finished);
    forall id: Id
      ensures id in u.queue || id in u.log.finished || id in u.log.failed <==> id in u.log.enqueued
    {
      WasSent(c, u, id);
    }
  }

  ghost predicate Idle(s: State) {
    forall w :: w in s.workers ==> w == Failed || w == Done
  }

  lemma StepIdle(c: Config, s: State, a: Action)
    requires Can(c, s, a) && (s.phase == Returned ==> Idle(s))
    ensures Do(c, s, a).phase == Returned ==> Idle(Do(c, s, a))
  {
    match a
    case Take(i) => assert s.workers[i] in s.workers;
    case Finish(i) => assert s.workers[i] in s.workers;
    case Fail(i) => assert s.workers[i] in s.workers;
    case _ =>
  }

  lemma {:induction false} ReturnedIdle(c: Config, s: State, run: seq<Action>)
    requires Runs(c, s, run) && (s.phase == Returned ==> Idle(s))
    ensures After(c, s, run).phase == Returned ==> Idle(After(c, s, run))
    decreases run
  {
    if run == [] {
    } else {
      StepIdle(c, s, run[0]);
      ReturnedIdle(c, Do(c, s, run[0]), run[1..]);
    }
  }

  /** The database returned the claim in some page. */
  predicate Fetched(run: seq<Action>, id: Id) {
    exists k :: 0 <= k < |run| && run[k].Fetch? && id in run[k].page
  }

  predicate Sends(s: State, id: Id) { id in s.log.enqueued || id in s.page }

  /** Exactly the claims in the pages are sent. */
  lemma {:induction false} SendsFetched(c: Config, s: State, run: seq<Action>, id: Id)
    requires Runs(c, s, run)
    ensures Sends(After(c, s, run), id) <==> Sends(s, id) || Fetched(run, id)
    decreases run
  {
    if run == [] {
    } else {
      var t := Do(c, s, run[0]);
      if run[0].Enqueue? { assert s.page == [s.page[0]] + t.page; }
      assert Sends(t, id) <==> Sends(s, id) || (run[0].Fetch? && id in run[0].page);
      SendsFetched(c, t, run[1..], id);
      FetchedTail(run, id);
    }
  }

  lemma FetchedTail(run: seq<Action>, id: Id)
    requires run != []
    ensures Fetched(run, id) <==> (run[0].Fetch? && id in run[0].page) || Fetched(run[1..], id)
  {
    if k :| 0 <= k < |run| && run[k].Fetch? && id in run[k].page {
      assert k == 0 || run[1..][k - 1] == run[k];
    }
    if k :| 0 <= k < |run[1..]| && run[1..][k].Fetch? && id in run[1..][k].page {
      assert run[k + 1] == run[1..][k];
    }
  }

  predicate NoWorkerFails(run: seq<Action>) {
    forall k :: 0 <= k < |run| ==> !run[k].Fail?
  }

  lemma FinishedAreFetched(c: Config, s: State, run: seq<Action>)
    requires Start(c, s) && Runs(c, s, run) && c.cpus >= 2
    requires After(c, s, run).phase == Returned && NoWorkerFails(run)
    ensures forall id: Id :: id in After(c, s, run).log.finished <==> Fetched(run, id)
  {
    var u := After(c, s, run);
    NoFailureHolds(c, s, run);
    AllFinished(c, s, run);
    forall id: Id
      ensures id in u.log.finished <==> Fetched(run, id)
    {
      SendsFetched(c, s, run, id);
      assert id in multiset(u.log.enqueued) <==> id in u.log.enqueued;
    }
  }

  lemma RepairedIsSequentialIff(c: Config, done: multiset<Id>)
    requires forall id: Id :: id in done ==> IsSpent(c.table, id)
    ensures Repaired(c, done) == Sequential(c) <==>
            forall id: Id :: IsSpent(c.table, id) && id !in done ==> c.table[id].point in c.spent
  {
    if Repaired(c, done) == Sequential(c) {
      forall id: Id | IsSpent(c.table, id) && id !in done
        ensures c.table[id].point in c.spent
      {
        assert Repaired(c, done)[id] == Sequential(c)[id];
      }
    }
  }

  /** With at least one worker and none that fails, the table is that of a sequential pass exactly when every
      claim marked spent that the database left out of all pages is really spent. */
  lemma SequentialIff(c: Config, s: State, run: seq<Action>)
    requires Start(c, s) && Runs(c, s, run) && c.cpus >= 2
    requires After(c, s, run).phase == Returned && NoWorkerFails(run)
    ensures After(c, s, run).table == Sequential(c) <==>
            forall id: Id :: IsSpent(c.table, id) && !Fetched(run, id) ==> c.table[id].point in c.spent
  {
    FinishedAreFetched(c, s, run);
    Outcome(c, s, run);
    RepairedIsSequentialIff(c, After(c, s, run).log.finished);
  }

  ghost predicate NoFailure(u: State) {
    u.log.failed == multiset{} && Failed !in u.workers
  }

  lemma {:induction false} NoFailureHolds(c: Config, s: State, run: seq<Action>)
    requires Runs(c, s, run) && NoWorkerFails(run) && NoFailure(s)
    ensures NoFailure(After(c, s, run))
    decreases run
  {
    if run == [] {
    } else {
      NoFailureHolds(c, Do(c, s, run[0]), run[1..]);
    }
  }

  // ---- pages in id order ----

  ghost predicate Sorted(s: State) {
    && Ascending(s.log.enqueued + s.page) && s.log.skipped == {}
    && s.last == if s.log.enqueued == [] then 0 else s.log.enqueued[|s.log.enqueued| - 1]
  }

  predicate PagesInOrder(c: Config, s: State, run: seq<Action>)
    requires Runs(c, s, run)
    decreases run
  {
    run == [] || ((run[0].Fetch? ==> InOrder(Matches(s), run[0].page)) && PagesInOrder(c, Do(c, s, run[0]), run[1..]))
  }

  lemma StepSorted(c: Config, s: State, a: Action)
    requires Sorted(s) && Can(c, s, a) && (a.Fetch? ==> InOrder(Matches(s), a.page))
    ensures Sorted(Do(c, s, a))
  {
    var u := Do(c, s, a);
    if a.Enqueue? {
      assert s.log.enqueued + s.page == u.log.enqueued + u.page;
    }
    if a.Fetch? {
      assert s.log.enqueued + s.page == s.log.enqueued;
      SortedPage(s.log.enqueued, a.page, s.last);
      assert forall id :: id in a.page ==> id in Matches(s);
    }
  }

  lemma SortedPage(sent: seq<Id>, page: seq<Id>, last: Id)
    requires Ascending(sent) && Ascending(page) && (sent != [] ==> last == sent[|sent| - 1])
    requires forall id :: id in page ==> id > last
    ensures Ascending(sent + page)
  {
    assert forall k :: 0 <= k < |page| ==> page[k] in page;
  }

  lemma {:induction false} SortedHolds(c: Config, s: State, run: seq<Action>)
    requires Sorted(s) && Runs(c, s, run) && PagesInOrder(c, s, run)
    ensures Sorted(After(c, s, run))
    decreases run
  {
    if run == [] {
    } else {
      StepSorted(c, s, run[0]);
      SortedHolds(c, Do(c, s, run[0]), run[1..]);
    }
  }

  lemma {:induction false} AscendingCounts(ids: seq<Id>, id: Id)
    requires Ascending(ids)
    ensures multiset(ids)[id] == if id in ids then 1 else 0
  {
    if ids == [] {
    } else {
      var n := |ids| - 1;
      assert ids == ids[..n] + [ids[n]];
      AscendingCounts(ids[..n], id);
    }
  }

  /** With pages in id order every claim marked spent is sent once, in increasing id order; with at least one worker and
      no failure each is examined exactly once and the table is that of a sequential pass: active if and only if it was
      active or no matching output is spent. */
  lemma ExactlyOnce(c: Config, s: State, run: seq<Action>)
    requires Start(c, s) && Runs(c, s, run) && PagesInOrder(c, s, run) && c.cpus >= 2
    requires After(c, s, run).phase == Returned && NoWorkerFails(run)
    ensures var u := After(c, s, run);
            && Ascending(u.log.enqueued) && multiset(u.log.enqueued) == u.log.finished
            && (forall id: Id :: u.log.finished[id] == if IsSpent(c.table, id) then 1 else 0)
            && u.table == Sequential(c) && u.table.Keys == c.table.Keys
            && (forall id :: id in c.table ==> RowAfter(c, u.table, id, IsSpent(c.table, id)))
            && (forall id :: id in c.table ==>
                  (u.table[id].bidState == "Active" <==>
                   c.table[id].bidState == "Active"
                     || (c.table[id].bidState == "Spent" && c.table[id].point !in c.spent)))
  {
    var u := After(c, s, run);
    SequentialRows(c);
    SortedHolds(c, s, run);
    NoFailureHolds(c, s, run);
    Outcome(c, s, run);
    AllFinished(c, s, run);
    assert u.log.enqueued + u.page == u.log.enqueued;
    forall id: Id
      ensures u.log.finished[id] == if IsSpent(c.table, id) then 1 else 0
    {
      AscendingCounts(u.log.enqueued, id);
      assert id in u.log.finished <==> id in u.log.enqueued;
    }
    RepairedIsSequentialIff(c, u.log.finished);
  }

  lemma AllFinished(c: Config, s: State, run: seq<Action>)
    requires Start(c, s) && Runs(c, s, run) && c.cpus >= 2
    requires After(c, s, run).phase == Returned && NoFailure(After(c, s, run))
    ensures var u := After(c, s, run); u.queue == [] && u.page == [] && multiset(u.log.enqueued) == u.log.finished
  {
    var u := After(c, s, run);
    StartInv(c, s);
    InvHolds(c, s, run);
    ReturnedIdle(c, s, run);
    assert u.workers[0] in u.workers;
    forall id: Id
      ensures multiset(u.log.enqueued)[id] == u.log.finished[id]
    {
      assert Balanced(u, id);
      HeldIs(u.workers, id);
    }
  }

  /** The pages have passed the claim without it. */
  predicate Passed(s: State, id: Id) {
    id !in s.log.enqueued && id !in s.page && id <= Bound(s)
  }

  lemma StepPassed(c: Config, s: State, a: Action, id: Id)
    requires Can(c, s, a) && Passed(s, id)
    ensures Passed(Do(c, s, a), id)
  {
    match a
    case Fetch(page) =>
      assert id !in Matches(s);
      assert page != [] ==> page[|page| - 1] in page && page[|page| - 1] in Matches(s);
    case Enqueue =>
      assert s.page == [s.page[0]] + s.page[1..];
      assert Bound(Do(c, s, a)) == Bound(s);
    case _ =>
  }

  lemma {:induction false} NeverExamined(c: Config, s: State, run: seq<Action>, id: Id)
    requires Inv(c, s) && Runs(c, s, run) && Passed(s, id)
    ensures id !in After(c, s, run).log.enqueued
    ensures id in c.table ==> id in After(c, s, run).table && After(c, s, run).table[id] == c.table[id]
    decreases run
  {
    if run == [] {
      WasSent(c, s, id);
    } else {
      StepPassed(c, s, run[0], id);
      StepInv(c, s, run[0]);
      NeverExamined(c, Do(c, s, run[0]), run[1..], id);
    }
  }

  /** The query names no order, and without one a claim can be lost: a page that ends above a row it left out. Whatever
      follows, that claim stays marked spent, even if no matching output is spent. */
  lemma OutOfOrderPageSkips(c: Config, s: State, page: seq<Id>, rest: seq<Action>, id: Id)
    requires Start(c, s) && IsPage(Matches(s), page) && page != [] && Runs(c, s, [Fetch(page)] + rest)
    requires IsSpent(c.table, id) && id !in page && id < page[|page| - 1]
    ensures IsSpent(After(c, s, [Fetch(page)] + rest).table, id)
  {
    var run := [Fetch(page)] + rest;
    StartInv(c, s);
    StepInv(c, s, run[0]);
    assert run[1..] == rest;
    NeverExamined(c, Do(c, s, run[0]), rest, id);
  }

  // ---- nothing blocks for good ----

  /** A worker always has room to report its error: there is one place for each processor, and one worker fewer. */
  lemma ErrorSendNeverBlocks(c: Config, s: State, run: seq<Action>, i: nat)
    requires Start(c, s) && Runs(c, s, run)
    requires var u := After(c, s, run); HasWorker(u, i) && u.workers[i].Holding?
    ensures Can(c, After(c, s, run), Fail(i))
  {
    StartInv(c, s);
    InvHolds(c, s, run);
    var u := After(c, s, run);
    assert u.workers[i] in u.workers;
    TotalBound(u.workers);
  }

  /** The pager waits for room in the buffer and no worker is left to make any. */
  predicate Deadlocked(s: State) {
    s.phase == Paging && s.page != [] && |s.queue| == BUFFER && forall w :: w in s.workers ==> w == Failed
  }

  lemma PageExists(ids: set<Id>) returns (page: seq<Id>)
    ensures IsPage(ids, page)
  {
    page := ListOf(ids);
    if |page| > PAGE_LIMIT {
      assert forall k :: 0 <= k < PAGE_LIMIT ==> page[k] in page;
      page := page[..PAGE_LIMIT];
    }
  }

  /** A step of the fault-free run: neither a query nor a worker fails. */
  predicate Faultless(a: Action) {
    !a.FetchFails? && !a.Fail?
  }

  /** Until fixOutputs returns some step is possible without another fault, except exactly in the deadlock. */
  lemma StuckIff(c: Config, s: State, run: seq<Action>)
    requires Start(c, s) && Runs(c, s, run)
    requires After(c, s, run).phase == Paging || After(c, s, run).phase == Closed
    ensures (forall a :: Faultless(a) ==> !Can(c, After(c, s, run), a)) <==> Deadlocked(After(c, s, run))
  {
    StartInv(c, s);
    InvHolds(c, s, run);
    var u := After(c, s, run);
    if !Deadlocked(u) {
      var a := NextStep(c, u);
    } else {
      forall a
        ensures !Can(c, u, a)
      {
        DeadlockedHasNoStep(c, u, a);
      }
    }
  }

  lemma DeadlockedHasNoStep(c: Config, u: State, a: Action)
    requires Deadlocked(u)
    ensures !Can(c, u, a)
  {
    forall i: nat | HasWorker(u, i)
      ensures u.workers[i] == Failed
    {
      assert u.workers[i] in u.workers;
    }
  }

  lemma NextStep(c: Config, u: State) returns (a: Action)
    requires Inv(c, u) && (u.phase == Paging || u.phase == Closed) && !Deadlocked(u)
    ensures Faultless(a) && Can(c, u, a)
  {
    if u.phase == Paging && u.page == [] {
      var page := PageExists(Matches(u));
      a := Fetch(page);
    } else if u.phase == Paging && |u.queue| < BUFFER {
      a := Enqueue;
    } else if w :| w in u.workers && w != Failed && w != Done {
      var i :| 0 <= i < |u.workers| && u.workers[i] == w;
      if w == Free {
        a := if u.queue != [] then Take(i) else Exit(i);
      } else {
        WasSent(c, u, w.id);
        a := Finish(i);
      }
    } else {
      a := Return;
    }
  }

  /** The deadlock needs every worker to have failed. */
  lemma OneWorkerSuffices(c: Config, s: State, run: seq<Action>)
    requires Start(c, s) && Runs(c, s, run) && c.cpus >= 2 && |After(c, s, run).log.failed| < c.cpus - 1
    ensures !Deadlocked(After(c, s, run))
  {
    var u := After(c, s, run);
    StartInv(c, s);
    InvHolds(c, s, run);
    FailuresCounted(c, s, run);
    TotalBound(u.workers);
    if Deadlocked(u) {
      AllFailed(u.workers);
    }
  }

  lemma {:induction false} AllFailed(ws: seq<Worker>)
    requires forall w :: w in ws ==> w == Failed
    ensures Total(ws, HasFailed) == |ws|
  {
    if ws == [] {
    } else {
      assert ws[0] in ws && forall w :: w in ws[1..] ==> w in ws;
      AllFailed(ws[1..]);
    }
  }

  lemma {:induction false} FailuresCounted(c: Config, s: State, run: seq<Action>)
    requires Runs(c, s, run) && s.errors == |s.log.failed|
    ensures After(c, s, run).errors == |After(c, s, run).log.failed|
    decreases run
  {
    if run == [] {
    } else {
      FailuresCounted(c, Do(c, s, run[0]), run[1..]);
    }
  }

  // ---- every run ends ----

  /** The rows the pages have not reached. */
  function Ahead(c: Config, s: State): set<Id> {
    set id | id in c.table && id > Bound(s)
  }

  function Left(c: Config, s: State): int {
    (3 * |c.table| + 1) * |Ahead(c, s)| + 3 * |s.page| + 2 * |s.queue| + Total(s.workers, Effort)
    + match s.phase case Paging => 2 case Closed => 1 case _ => 0
  }

  lemma AheadShrinks(c: Config, s: State, page: seq<Id>)
    requires Inv(c, s) && Can(c, s, Fetch(page)) && page != []
    ensures |Ahead(c, Do(c, s, Fetch(page)))| < |Ahead(c, s)| && |page| <= |c.table|
  {
    var u := Do(c, s, Fetch(page));
    var m := page[|page| - 1];
    assert m in page && m in Matches(s) && m in Ahead(c, s) && m !in Ahead(c, u);
    SubsetSize(Ahead(c, u), Ahead(c, s));
    DistinctSize(page);
    SubsetSize(SetOf(page), Matches(s));
    SubsetSize(Matches(s), c.table.Keys);
  }

  lemma FetchUsesUp(c: Config, s: State, page: seq<Id>)
    requires Inv(c, s) && Can(c, s, Fetch(page)) && page != []
    ensures Left(c, Do(c, s, Fetch(page))) < Left(c, s)
  {
    AheadShrinks(c, s, page);
    Scaled(3 * |c.table| + 1, |Ahead(c, Do(c, s, Fetch(page)))|, |Ahead(c, s)|);
  }

  lemma {:induction false} Scaled(k: nat, x: nat, y: nat)
    requires x < y
    ensures k * x + k <= k * y
    decreases y
  {
    assert k * y == k * (y - 1) + k;
    if y - 1 > x {
      Scaled(k, x, y - 1);
    }
  }

  lemma StepUsesUp(c: Config, s: State, a: Action)
    requires Inv(c, s) && Can(c, s, a)
    ensures Left(c, Do(c, s, a)) < Left(c, s)
  {
    match a
    case Fetch(page) => if page != [] { FetchUsesUp(c, s, page); }
    case Enqueue => assert Bound(Do(c, s, a)) == Bound(s);
    case Take(i) => TotalUpdate(s.workers, i, Holding(s.queue[0]), Effort);
    case Finish(i) => TotalUpdate(s.workers, i, Free, Effort);
    case Fail(i) => TotalUpdate(s.workers, i, Failed, Effort);
    case Exit(i) => TotalUpdate(s.workers, i, Done, Effort);
    case _ =>
  }

  lemma {:induction false} LeftBoundsRun(c: Config, s: State, run: seq<Action>)
    requires Inv(c, s) && Runs(c, s, run)
    ensures |run| <= Left(c, s)
    decreases run
  {
    if run == [] {
    } else {
      StepUsesUp(c, s, run[0]);
      StepInv(c, s, run[0]);
      LeftBoundsRun(c, Do(c, s, run[0]), run[1..]);
    }
  }

  lemma StartLeft(c: Config, s: State)
    requires Start(c, s)
    ensures Left(c, s) == (3 * |c.table| + 1) * |c.table| + c.cpus + 1
  {
    AllFree(c.cpus - 1, Effort);
    assert Ahead(c, s) == c.table.Keys;
  }

  /** The repair ends, whatever the order of its steps, of its pages, and whatever fails. */
  lemma RunsEnd(c: Config, s: State, run: seq<Action>)
    requires Start(c, s) && Runs(c, s, run)
    ensures |run| <= (3 * |c.table| + 1) * |c.table| + c.cpus + 1
  {
    StartInv(c, s);
    LeftBoundsRun(c, s, run);
    StartLeft(c, s);
  }
}
