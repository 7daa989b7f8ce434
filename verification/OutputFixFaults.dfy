/** When the output repair can deadlock, drop claims and skip claims: each in some run exactly under a condition
    on the table. */
module OutputFixFaults {
  import opened Collections
  import opened OutputFix

  function SpentIds(c: Config): set<Id> {
    set id | id in c.table && IsSpent(c.table, id)
  }

  // ---- runs ----

  /** The order of a page: the query names none, and the database may choose any; ById are the runs in which it
      chooses that of the ids. */
  datatype PageOrder = ById | AnyOrder

  /** Some run with such pages leads from s to t. */
  ghost predicate Reaches(c: Config, o: PageOrder, s: State, t: State) {
    exists run :: Leads(c, o, s, run, t)
  }

  ghost predicate Leads(c: Config, o: PageOrder, s: State, run: seq<Action>, t: State) {
    Runs(c, s, run) && (o == ById ==> PagesInOrder(c, s, run)) && After(c, s, run) == t
  }

  lemma {:induction false} LeadsOn(c: Config, o: PageOrder, s: State, run: seq<Action>, t: State, more: seq<Action>,
                                   u: State)
    requires Leads(c, o, s, run, t) && Leads(c, o, t, more, u)
    ensures Leads(c, o, s, run + more, u)
    decreases run
  {
    if run == [] {
      assert run + more == more;
    } else {
      assert (run + more)[1..] == run[1..] + more;
      LeadsOn(c, o, Do(c, s, run[0]), run[1..], t, more, u);
    }
  }

  lemma Then(c: Config, o: PageOrder, s: State, t: State, u: State)
    requires Reaches(c, o, s, t) && Reaches(c, o, t, u)
    ensures Reaches(c, o, s, u)
  {
    var run :| Leads(c, o, s, run, t);
    var more :| Leads(c, o, t, more, u);
    LeadsOn(c, o, s, run, t, more, u);
  }

  lemma OneStep(c: Config, s: State, a: Action)
    requires Can(c, s, a)
    ensures Runs(c, s, [a]) && After(c, s, [a]) == Do(c, s, a)
    ensures (a.Fetch? ==> InOrder(Matches(s), a.page)) ==> PagesInOrder(c, s, [a])
  {
    var run := [a];
    assert run[1..] == [];
    assert Runs(c, Do(c, s, a), run[1..]);
    assert PagesInOrder(c, Do(c, s, a), run[1..]);
  }

  lemma ByStep(c: Config, o: PageOrder, s: State, a: Action)
    requires Can(c, s, a) && (a.Fetch? && o == ById ==> InOrder(Matches(s), a.page))
    ensures Reaches(c, o, s, Do(c, s, a))
  {
    OneStep(c, s, a);
    assert Leads(c, o, s, [a], Do(c, s, a));
  }

  lemma Stays(c: Config, o: PageOrder, s: State)
    ensures Reaches(c, o, s, s)
  {
    assert Leads(c, o, s, [], s);
  }

  lemma ReachedInAnyOrder(c: Config, o: PageOrder, s: State, t: State)
    requires Reaches(c, o, s, t)
    ensures Reaches(c, AnyOrder, s, t)
  {
    var run :| Leads(c, o, s, run, t);
    assert Leads(c, AnyOrder, s, run, t);
  }

  // ---- pages ----

  lemma {:induction false} Least(ids: set<Id>) returns (m: Id)
    requires ids != {}
    ensures m in ids && forall id :: id in ids ==> m <= id
  {
    var x :| x in ids;
    m := x;
    if ids != {x} {
      var n := Least(ids - {x});
      m := if x < n then x else n;
      assert forall id :: id in ids ==> id == x || id in ids - {x};
    }
  }

  lemma LeastFirst(ids: set<Id>, m: Id, rest: seq<Id>)
    requires m in ids && (forall id :: id in ids ==> m <= id)
    requires Ascending(rest) && (forall id :: id in rest ==> id in ids - {m}) && InOrder(ids - {m}, rest)
    ensures Ascending([m] + rest) && (forall id :: id in [m] + rest ==> id in ids) && InOrder(ids, [m] + rest)
  {
    var page := [m] + rest;
    assert forall k :: 0 <= k < |rest| ==> rest[k] in rest;
    if rest != [] {
      assert page[|page| - 1] == rest[|rest| - 1];
    }
    forall id | id in ids
      ensures id in page || id > page[|page| - 1]
    {
      assert id == m || id in ids - {m};
    }
  }

  /** The n smallest ids, in order. */
  lemma {:induction false} Smallest(ids: set<Id>, n: nat) returns (page: seq<Id>)
    requires n <= |ids|
    ensures |page| == n && Ascending(page) && (forall id :: id in page ==> id in ids) && InOrder(ids, page)
    decreases n
  {
    if n == 0 {
      page := [];
    } else {
      var m := Least(ids);
      var rest := Smallest(ids - {m}, n - 1);
      page := [m] + rest;
      LeastFirst(ids, m, rest);
    }
  }

  lemma NextPage(matches: set<Id>) returns (page: seq<Id>)
    ensures IsPage(matches, page) && InOrder(matches, page) && (matches != {} ==> page != [])
  {
    page := Smallest(matches, if |matches| < PAGE_LIMIT then |matches| else PAGE_LIMIT);
  }

  /** A page that holds all the rows there are skips none. */
  lemma WholePage(matches: set<Id>, page: seq<Id>)
    requires IsPage(matches, page) && |matches| <= PAGE_LIMIT
    ensures SetOf(page) == matches
  {
    DistinctSize(page);
    SubsetSize(SetOf(page), matches);
  }

  /** A page that ends in its least id, so that the next one may hold the others again. */
  lemma BackwardPage(matches: set<Id>) returns (page: seq<Id>)
    requires matches != {}
    ensures IsPage(matches, page) && page != [] && page[|page| - 1] in matches
    ensures forall id :: id in matches ==> page[|page| - 1] <= id
  {
    var m := Least(matches);
    var others := ListOf(matches - {m});
    if |others| >= PAGE_LIMIT {
      others := others[..PAGE_LIMIT - 1];
    }
    assert forall k :: 0 <= k < |others| ==> others[k] in matches - {m};
    page := others + [m];
  }

  // ---- how many claims a run can send ----

  /** The most that can be sent of n claims: with pages in id order each goes once; otherwise a page that ends in its
      least id lets all others go again. */
  function MaxSends(o: PageOrder, n: nat): nat {
    if n == 0 then 0
    else if o == ById then n
    else (if n < PAGE_LIMIT then n else PAGE_LIMIT) + MaxSends(o, n - 1)
  }

  lemma {:induction false} MaxSendsMonotone(o: PageOrder, m: nat, n: nat)
    requires m <= n
    ensures MaxSends(o, m) <= MaxSends(o, n)
    decreases n
  {
    if m == n {
    } else {
      MaxSendsMonotone(o, m, n - 1);
    }
  }

  lemma {:induction false} MaxSendsIsTriangular(n: nat)
    requires n <= PAGE_LIMIT
    ensures 2 * MaxSends(AnyOrder, n) == n * (n + 1)
  {
    if n == 0 {
    } else {
      MaxSendsIsTriangular(n - 1);
    }
  }

  /** The claims marked spent before the run with an id above the bound. */
  function SpentBeyond(c: Config, bound: Id): set<Id> {
    set id | id in SpentIds(c) && id > bound
  }

  /** How many claims can still be sent. */
  function Room(c: Config, o: PageOrder, s: State): nat {
    |s.page| + MaxSends(o, |SpentBeyond(c, Bound(s))|)
  }

  lemma StartRoom(c: Config, o: PageOrder, s: State)
    requires Start(c, s)
    ensures Room(c, o, s) == MaxSends(o, |SpentIds(c)|)
  {
    assert SpentBeyond(c, 0) == SpentIds(c);
  }

  lemma MatchesAreSpent(c: Config, s: State)
    requires Inv(c, s)
    ensures Matches(s) <= SpentIds(c)
  {
    forall id | id in Matches(s)
      ensures id in SpentIds(c)
    {
      if id in s.log.finished { WasSent(c, s, id); }
    }
  }

  lemma PageIsAhead(c: Config, s: State, page: seq<Id>)
    requires Inv(c, s) && Can(c, s, Fetch(page))
    ensures SetOf(page) <= SpentBeyond(c, s.last) && |SetOf(page)| == |page| <= PAGE_LIMIT
  {
    MatchesAreSpent(c, s);
    forall id | id in page
      ensures id in SpentBeyond(c, s.last)
    {
      assert id in Matches(s);
    }
    DistinctSize(page);
  }

  lemma SortedPageUsesRoom(c: Config, last: Id, page: seq<Id>)
    requires page != [] && Ascending(page) && SetOf(page) <= SpentBeyond(c, last) && |SetOf(page)| == |page|
    ensures |page| + |SpentBeyond(c, page[|page| - 1])| <= |SpentBeyond(c, last)|
  {
    var after := SpentBeyond(c, page[|page| - 1]);
    assert page[|page| - 1] in SetOf(page);
    assert SetOf(page) !! after;
    SubsetSize(SetOf(page) + after, SpentBeyond(c, last));
  }

  lemma BeyondShrinks(c: Config, last: Id, m: Id)
    requires m in SpentBeyond(c, last)
    ensures |SpentBeyond(c, m)| < |SpentBeyond(c, last)|
  {
    SubsetSize(SpentBeyond(c, m), SpentBeyond(c, last));
    assert m !in SpentBeyond(c, m);
  }

  lemma AnyPageUsesRoom(c: Config, last: Id, page: seq<Id>)
    requires page != [] && SetOf(page) <= SpentBeyond(c, last) && |SetOf(page)| == |page| <= PAGE_LIMIT
    ensures |page| + MaxSends(AnyOrder, |SpentBeyond(c, page[|page| - 1])|) <=
            MaxSends(AnyOrder, |SpentBeyond(c, last)|)
  {
    var m := page[|page| - 1];
    assert m in SetOf(page);
    BeyondShrinks(c, last, m);
    SubsetSize(SetOf(page), SpentBeyond(c, last));
    MaxSendsMonotone(AnyOrder, |SpentBeyond(c, m)|, |SpentBeyond(c, last)| - 1);
  }

  lemma PageUsesRoom(c: Config, o: PageOrder, s: State, page: seq<Id>)
    requires Inv(c, s) && Can(c, s, Fetch(page)) && page != [] && (o == ById ==> InOrder(Matches(s), page))
    ensures Room(c, o, Do(c, s, Fetch(page))) <= Room(c, o, s)
  {
    PageIsAhead(c, s, page);
    if o == ById {
      SortedPageUsesRoom(c, s.last, page);
    } else {
      AnyPageUsesRoom(c, s.last, page);
    }
  }

  lemma StepUsesRoom(c: Config, o: PageOrder, s: State, a: Action)
    requires Inv(c, s) && Can(c, s, a) && (a.Fetch? && o == ById ==> InOrder(Matches(s), a.page))
    ensures |Do(c, s, a).log.enqueued| + Room(c, o, Do(c, s, a)) <= |s.log.enqueued| + Room(c, o, s)
  {
    match a
    case Fetch(page) => if page != [] { PageUsesRoom(c, o, s, page); }
    case Enqueue => assert Bound(Do(c, s, a)) == Bound(s);
    case _ =>
  }

  lemma {:induction false} SentSize(c: Config, o: PageOrder, s: State, run: seq<Action>)
    requires Inv(c, s) && Runs(c, s, run) && (o == ById ==> PagesInOrder(c, s, run))
    ensures var u := After(c, s, run);
            |u.log.enqueued| + Room(c, o, u) <= |s.log.enqueued| + Room(c, o, s)
    decreases run
  {
    if run == [] {
    } else {
      StepUsesRoom(c, o, s, run[0]);
      StepInv(c, s, run[0]);
      SentSize(c, o, Do(c, s, run[0]), run[1..]);
    }
  }

  /** No run sends more. */
  lemma SentIsBounded(c: Config, o: PageOrder, s: State, u: State)
    requires Start(c, s) && Reaches(c, o, s, u)
    ensures |u.log.enqueued| + Room(c, o, u) <= MaxSends(o, |SpentIds(c)|)
  {
    var run :| Leads(c, o, s, run, u);
    StartInv(c, s);
    SentSize(c, o, s, run);
    StartRoom(c, o, s);
  }

  // ---- building runs ----

  /** The pager is at work, and what is ahead of it still matches. */
  ghost predicate Feeding(c: Config, o: PageOrder, s: State) {
    && Inv(c, s) && s.phase == Paging
    && if o == ById then Sorted(s) else s.log.finished == multiset{}
  }

  lemma AheadIsUnfinished(c: Config, o: PageOrder, s: State, id: Id)
    requires Feeding(c, o, s) && s.page == [] && id > s.last
    ensures id !in s.log.finished
  {
    WasSent(c, s, id);
    assert s.log.enqueued + s.page == s.log.enqueued;
  }

  lemma AheadMatches(c: Config, o: PageOrder, s: State)
    requires Feeding(c, o, s) && s.page == []
    ensures Matches(s) == SpentBeyond(c, s.last)
  {
    MatchesAreSpent(c, s);
    forall id | id in SpentBeyond(c, s.last)
      ensures id in Matches(s)
    {
      AheadIsUnfinished(c, o, s, id);
    }
  }

  lemma FeedingOn(c: Config, o: PageOrder, s: State, a: Action)
    requires Feeding(c, o, s) && Can(c, s, a) && !a.Finish? && !a.FetchFails? && a != Fetch([])
    requires a.Fetch? && o == ById ==> InOrder(Matches(s), a.page)
    ensures Feeding(c, o, Do(c, s, a))
  {
    StepInv(c, s, a);
    if o == ById { StepSorted(c, s, a); }
  }

  lemma SortedPageKeepsRoom(c: Config, last: Id) returns (page: seq<Id>)
    requires SpentBeyond(c, last) != {}
    ensures IsPage(SpentBeyond(c, last), page) && page != [] && InOrder(SpentBeyond(c, last), page)
    ensures |page| + |SpentBeyond(c, page[|page| - 1])| >= |SpentBeyond(c, last)|
  {
    page := NextPage(SpentBeyond(c, last));
    var after := SpentBeyond(c, page[|page| - 1]);
    assert SpentBeyond(c, last) <= SetOf(page) + after;
    DistinctSize(page);
    SubsetSize(SpentBeyond(c, last), SetOf(page) + after);
  }

  lemma BackwardPageKeepsRoom(c: Config, last: Id) returns (page: seq<Id>)
    requires SpentBeyond(c, last) != {}
    ensures IsPage(SpentBeyond(c, last), page) && page != []
    ensures |page| + MaxSends(AnyOrder, |SpentBeyond(c, page[|page| - 1])|) ==
            MaxSends(AnyOrder, |SpentBeyond(c, last)|)
  {
    page := BackwardPage(SpentBeyond(c, last));
    assert SpentBeyond(c, last) == {page[|page| - 1]} + SpentBeyond(c, page[|page| - 1]);
  }

  /** A page after which as much room is left as before. */
  lemma RoomyPage(c: Config, o: PageOrder, s: State) returns (page: seq<Id>)
    requires Feeding(c, o, s) && s.page == [] && Room(c, o, s) > 0
    ensures Can(c, s, Fetch(page)) && page != [] && (o == ById ==> InOrder(Matches(s), page))
    ensures Room(c, o, Do(c, s, Fetch(page))) >= Room(c, o, s)
  {
    AheadMatches(c, o, s);
    if o == ById {
      page := SortedPageKeepsRoom(c, s.last);
    } else {
      page := BackwardPageKeepsRoom(c, s.last);
    }
  }

  lemma Refill(c: Config, o: PageOrder, s: State) returns (t: State)
    requires Feeding(c, o, s) && Room(c, o, s) > 0
    ensures Reaches(c, o, s, t) && Feeding(c, o, t) && t.page != [] && Room(c, o, t) >= Room(c, o, s)
    ensures t.queue == s.queue && t.workers == s.workers
  {
    t := s;
    Stays(c, o, s);
    if s.page == [] {
      var page := RoomyPage(c, o, s);
      t := Do(c, s, Fetch(page));
      ByStep(c, o, s, Fetch(page));
      FeedingOn(c, o, s, Fetch(page));
    }
  }

  /** One more claim into the buffer. */
  lemma Feed(c: Config, o: PageOrder, s: State) returns (t: State)
    requires Feeding(c, o, s) && Room(c, o, s) > 0 && |s.queue| < BUFFER
    ensures Reaches(c, o, s, t) && Feeding(c, o, t) && Room(c, o, t) >= Room(c, o, s) - 1
    ensures |t.queue| == |s.queue| + 1 && t.workers == s.workers
  {
    var r := Refill(c, o, s);
    t := Do(c, r, Enqueue);
    ByStep(c, o, r, Enqueue);
    FeedingOn(c, o, r, Enqueue);
    Then(c, o, s, r, t);
    assert Bound(t) == Bound(r);
  }

  lemma {:induction false} FeedMany(c: Config, o: PageOrder, s: State, m: nat) returns (t: State)
    requires Feeding(c, o, s) && |s.queue| + m <= BUFFER && m <= Room(c, o, s)
    ensures Reaches(c, o, s, t) && Feeding(c, o, t) && Room(c, o, t) >= Room(c, o, s) - m
    ensures |t.queue| == |s.queue| + m && t.workers == s.workers
    decreases m
  {
    if m == 0 {
      t := s;
      Stays(c, o, s);
    } else {
      var r := Feed(c, o, s);
      t := FeedMany(c, o, r, m - 1);
      Then(c, o, s, r, t);
    }
  }

  lemma TakeAndFail(c: Config, o: PageOrder, s: State, i: nat) returns (t: State)
    requires Inv(c, s) && s.queue != [] && HasWorker(s, i) && s.workers[i] == Free
    ensures Reaches(c, o, s, t) && Inv(c, t) && (Feeding(c, o, s) ==> Feeding(c, o, t))
    ensures t.workers == s.workers[i := Failed] && t.queue == s.queue[1..]
    ensures t.page == s.page && t.last == s.last && t.phase == s.phase && t.table == s.table
  {
    var r := Do(c, s, Take(i));
    ByStep(c, o, s, Take(i));
    StepInv(c, s, Take(i));
    assert r.workers[i] in r.workers;
    TotalBound(r.workers);
    t := Do(c, r, Fail(i));
    ByStep(c, o, r, Fail(i));
    StepInv(c, r, Fail(i));
    Then(c, o, s, r, t);
    if Feeding(c, o, s) {
      FeedingOn(c, o, s, Take(i));
      FeedingOn(c, o, r, Fail(i));
    }
  }

  lemma TakeAndFinish(c: Config, o: PageOrder, s: State, i: nat) returns (t: State)
    requires Inv(c, s) && s.queue != [] && HasWorker(s, i) && s.workers[i] == Free
    ensures Reaches(c, o, s, t) && Inv(c, t) && Left(c, t) < Left(c, s)
    ensures t.workers == s.workers && t.queue == s.queue[1..]
    ensures t.page == s.page && t.last == s.last && t.phase == s.phase
  {
    var r := Do(c, s, Take(i));
    ByStep(c, o, s, Take(i));
    StepInv(c, s, Take(i));
    StepUsesUp(c, s, Take(i));
    assert r.workers[i] in r.workers;
    WasSent(c, r, r.workers[i].id);
    t := Do(c, r, Finish(i));
    ByStep(c, o, r, Finish(i));
    StepInv(c, r, Finish(i));
    StepUsesUp(c, r, Finish(i));
    Then(c, o, s, r, t);
    assert t.workers == s.workers;
  }

  /** The first k workers have failed, the others are free. */
  ghost predicate FreeFrom(s: State, k: nat) {
    && k <= |s.workers| && (forall i :: 0 <= i < k ==> s.workers[i] == Failed)
    && (forall i :: k <= i < |s.workers| ==> s.workers[i] == Free)
  }

  /** One worker after the other, up to the m-th, takes a claim and fails. */
  lemma {:induction false} FailUntil(c: Config, o: PageOrder, s: State, k: nat, m: nat) returns (t: State)
    requires Feeding(c, o, s) && s.queue == [] && FreeFrom(s, k) && k <= m <= |s.workers| && m - k <= Room(c, o, s)
    ensures Reaches(c, o, s, t) && Feeding(c, o, t) && t.queue == [] && FreeFrom(t, m) && |t.workers| == |s.workers|
    ensures Room(c, o, t) >= Room(c, o, s) - (m - k)
    decreases m - k
  {
    if k == m {
      t := s;
      Stays(c, o, s);
    } else {
      var fed := Feed(c, o, s);
      var failed := TakeAndFail(c, o, fed, k);
      assert Bound(failed) == Bound(fed);
      t := FailUntil(c, o, failed, k + 1, m);
      Then(c, o, s, fed, failed);
      Then(c, o, s, failed, t);
    }
  }

  lemma StartFeeds(c: Config, o: PageOrder, s: State)
    requires Start(c, s)
    ensures Feeding(c, o, s) && FreeFrom(s, 0) && s.queue == [] && |s.workers| == c.cpus - 1
    ensures Room(c, o, s) == MaxSends(o, |SpentIds(c)|)
  {
    StartInv(c, s);
    StartRoom(c, o, s);
  }

  // ---- the deadlock ----

  /** Where every worker has failed, each had a claim in hand that was sent before. */
  lemma FailedWereSent(c: Config, o: PageOrder, s: State, u: State)
    requires Start(c, s) && Reaches(c, o, s, u) && forall w :: w in u.workers ==> w == Failed
    ensures Inv(c, u) && |u.log.enqueued| == |u.queue| + (c.cpus - 1) + |u.log.finished|
  {
    var run :| Leads(c, o, s, run, u);
    StartInv(c, s);
    InvHolds(c, s, run);
    FailuresCounted(c, s, run);
    AllFailed(u.workers);
    forall id: Id
      ensures multiset(u.log.enqueued)[id] == (multiset(u.queue) + u.log.finished + u.log.failed)[id]
    {
      assert Balanced(u, id);
      HeldIs(u.workers, id);
    }
    assert multiset(u.log.enqueued) == multiset(u.queue) + u.log.finished + u.log.failed;
    assert |multiset(u.log.enqueued)| == |u.log.enqueued|;
  }

  lemma DeadlockReached(c: Config, o: PageOrder, s: State) returns (u: State)
    requires Start(c, s) && MaxSends(o, |SpentIds(c)|) > BUFFER + c.cpus - 1
    ensures Reaches(c, o, s, u) && Deadlocked(u)
  {
    StartFeeds(c, o, s);
    var t := FailUntil(c, o, s, 0, |s.workers|);
    var full := FeedMany(c, o, t, BUFFER);
    u := Refill(c, o, full);
    Then(c, o, s, t, full);
    Then(c, o, s, full, u);
  }

  /** Some run deadlocks exactly if more claims can be sent than the buffer and the workers together can hold: with
      pages in id order the claims marked spent, otherwise far more than there are. */
  lemma DeadlockIff(c: Config, o: PageOrder, s: State)
    requires Start(c, s)
    ensures (exists u :: Reaches(c, o, s, u) && Deadlocked(u)) <==> MaxSends(o, |SpentIds(c)|) > 100 + c.cpus - 1
  {
    if u :| Reaches(c, o, s, u) && Deadlocked(u) {
      FailedWereSent(c, o, s, u);
      SentIsBounded(c, o, s, u);
    }
    if MaxSends(o, |SpentIds(c)|) > BUFFER + c.cpus - 1 {
      var u := DeadlockReached(c, o, s);
    }
  }

  /** On one processor 14 claims are enough. */
  lemma DeadlockWithoutWorkers(c: Config, s: State)
    requires Start(c, s) && c.cpus == 1
    ensures (exists u :: Reaches(c, AnyOrder, s, u) && Deadlocked(u)) <==> |SpentIds(c)| >= 14
  {
    DeadlockIff(c, AnyOrder, s);
    MaxSendsIsTriangular(13);
    MaxSendsIsTriangular(14);
    if |SpentIds(c)| >= 14 {
      MaxSendsMonotone(AnyOrder, 14, |SpentIds(c)|);
    } else {
      MaxSendsMonotone(AnyOrder, |SpentIds(c)|, 13);
    }
  }

  // ---- claims dropped from the buffer ----

  ghost predicate Drops(u: State) {
    u.phase == Returned && u.queue != []
  }

  /** Nothing is ahead and every worker has failed: the pager closes the channel and returns. */
  lemma Finishes(c: Config, o: PageOrder, s: State) returns (t: State)
    requires Inv(c, s) && s.phase == Paging && s.page == [] && Matches(s) == {} && FreeFrom(s, |s.workers|)
    ensures Reaches(c, o, s, t) && t.phase == Returned && t.queue == s.queue
  {
    ByStep(c, o, s, Fetch([]));
    var r := Do(c, s, Fetch([]));
    ByStep(c, o, r, Return);
    t := Do(c, r, Return);
    Then(c, o, s, r, t);
  }

  /** Two claims are in the buffer and only worker i is left. */
  ghost predicate Draining(c: Config, s: State, i: nat) {
    Inv(c, s) && s.phase == Paging && |s.queue| == 2 && |s.workers| == i + 1 && FreeFrom(s, i)
  }

  lemma DrainOne(c: Config, o: PageOrder, s: State, i: nat) returns (t: State)
    requires Draining(c, s, i) && s.page != []
    ensures Reaches(c, o, s, t) && Draining(c, t, i) && Left(c, t) < Left(c, s)
  {
    var r := TakeAndFinish(c, o, s, i);
    t := Do(c, r, Enqueue);
    ByStep(c, o, r, Enqueue);
    StepInv(c, r, Enqueue);
    StepUsesUp(c, r, Enqueue);
    Then(c, o, s, r, t);
  }

  lemma DrainPage(c: Config, o: PageOrder, s: State, i: nat) returns (t: State)
    requires Draining(c, s, i) && s.page == [] && Matches(s) != {}
    ensures Reaches(c, o, s, t) && Draining(c, t, i) && Left(c, t) < Left(c, s)
  {
    var page := NextPage(Matches(s));
    t := Do(c, s, Fetch(page));
    ByStep(c, o, s, Fetch(page));
    StepInv(c, s, Fetch(page));
    StepUsesUp(c, s, Fetch(page));
  }

  lemma LastOneFails(c: Config, o: PageOrder, s: State, i: nat) returns (t: State)
    requires Draining(c, s, i) && s.page == [] && Matches(s) == {}
    ensures Reaches(c, o, s, t) && Drops(t)
  {
    var r := TakeAndFail(c, o, s, i);
    t := Finishes(c, o, r);
    Then(c, o, s, r, t);
  }

  /** It finishes all but these two, then takes one of them and fails. */
  lemma {:induction false} Drain(c: Config, o: PageOrder, s: State, i: nat) returns (t: State)
    requires Draining(c, s, i)
    ensures Reaches(c, o, s, t) && Drops(t)
    decreases Left(c, s)
  {
    if s.page == [] && Matches(s) == {} {
      t := LastOneFails(c, o, s, i);
    } else {
      var r;
      if s.page == [] {
        r := DrainPage(c, o, s, i);
      } else {
        r := DrainOne(c, o, s, i);
      }
      t := Drain(c, o, r, i);
      Then(c, o, s, r, t);
    }
  }

  lemma DropReached(c: Config, o: PageOrder, s: State) returns (u: State)
    requires Start(c, s) && MaxSends(o, |SpentIds(c)|) >= c.cpus && c.cpus >= 2
    ensures Reaches(c, o, s, u) && Drops(u)
  {
    StartFeeds(c, o, s);
    var t := FailUntil(c, o, s, 0, c.cpus - 2);
    var fed := FeedMany(c, o, t, 2);
    u := Drain(c, o, fed, c.cpus - 2);
    Then(c, o, s, t, fed);
    Then(c, o, s, fed, u);
  }

  /** Without workers everything goes into the buffer, if it fits. */
  lemma DropReachedWithoutWorkers(c: Config, s: State) returns (u: State)
    requires Start(c, s) && c.cpus == 1 && 1 <= |SpentIds(c)| <= BUFFER
    ensures Reaches(c, ById, s, u) && Drops(u)
  {
    StartFeeds(c, ById, s);
    var fed := FeedMany(c, ById, s, |SpentIds(c)|);
    FailedWereSent(c, ById, s, fed);
    SentIsBounded(c, ById, s, fed);
    AheadMatches(c, ById, fed);
    u := Finishes(c, ById, fed);
    Then(c, ById, s, fed, u);
  }

  /** Without workers nothing leaves the buffer, so all of the first page has to fit: it holds every claim marked
      spent, or PAGE_LIMIT of them. */
  ghost predicate FirstPageCounts(c: Config, s: State) {
    && Inv(c, s) && s.workers == [] && s.log.finished == multiset{}
    && var sent := s.log.enqueued + s.page;
       if sent == [] then s.last == 0 else SpentIds(c) <= SetOf(sent) || |sent| >= PAGE_LIMIT
  }

  lemma FirstPage(c: Config, s: State, page: seq<Id>)
    requires FirstPageCounts(c, s) && Can(c, s, Fetch(page)) && page != [] && 0 !in c.table
    ensures FirstPageCounts(c, Do(c, s, Fetch(page)))
  {
    var sent := Do(c, s, Fetch(page)).log.enqueued + page;
    StepInv(c, s, Fetch(page));
    assert s.log.enqueued + s.page == s.log.enqueued;
    if s.log.enqueued == [] {
      assert sent == page;
      assert Matches(s) == SpentIds(c);
      if |SpentIds(c)| < PAGE_LIMIT { WholePage(Matches(s), page); }
    } else {
      assert forall id :: id in s.log.enqueued ==> id in sent;
    }
  }

  lemma {:induction false} FirstPageStays(c: Config, s: State, run: seq<Action>)
    requires FirstPageCounts(c, s) && Runs(c, s, run) && 0 !in c.table
    ensures FirstPageCounts(c, After(c, s, run))
    decreases run
  {
    if run == [] {
    } else {
      var t := Do(c, s, run[0]);
      StepInv(c, s, run[0]);
      if run[0].Fetch? && run[0].page != [] {
        FirstPage(c, s, run[0].page);
      }
      if run[0].Enqueue? {
        assert t.log.enqueued + t.page == s.log.enqueued + s.page;
      }
      FirstPageStays(c, t, run[1..]);
    }
  }

  lemma DropsNeed(c: Config, o: PageOrder, s: State, u: State)
    requires Start(c, s) && Reaches(c, o, s, u) && Drops(u)
    ensures MaxSends(o, |SpentIds(c)|) >= c.cpus && (c.cpus >= 2 || |SpentIds(c)| <= BUFFER)
  {
    var run :| Leads(c, o, s, run, u);
    StartInv(c, s);
    Outcome(c, s, run);
    FailedWereSent(c, o, s, u);
    SentIsBounded(c, o, s, u);
    if c.cpus == 1 {
      FirstPageStays(c, s, run);
      assert u.log.enqueued + u.page == u.log.enqueued;
      SetSize(u.log.enqueued);
      if SpentIds(c) <= SetOf(u.log.enqueued) { SubsetSize(SpentIds(c), SetOf(u.log.enqueued)); }
    }
  }

  lemma {:induction false} SetSize(ids: seq<Id>)
    ensures |SetOf(ids)| <= |ids|
  {
    if ids == [] {
    } else {
      SetSize(ids[1..]);
      assert SetOf(ids) == {ids[0]} + SetOf(ids[1..]);
    }
  }

  /** Some run returns with claims left in the buffer, which no error reports as lost, exactly if a claim can be sent
      to each worker and one more, and, without workers, if all claims fit into the buffer. */
  lemma DropsIff(c: Config, o: PageOrder, s: State)
    requires Start(c, s)
    ensures (exists u :: Reaches(c, o, s, u) && Drops(u)) <==>
              MaxSends(o, |SpentIds(c)|) >= c.cpus && (c.cpus >= 2 || |SpentIds(c)| <= 100)
  {
    if u :| Reaches(c, o, s, u) && Drops(u) {
      DropsNeed(c, o, s, u);
    }
    if MaxSends(o, |SpentIds(c)|) >= c.cpus {
      if c.cpus >= 2 {
        var u := DropReached(c, o, s);
      } else if |SpentIds(c)| <= BUFFER {
        var u := DropReachedWithoutWorkers(c, s);
        if o == AnyOrder { ReachedInAnyOrder(c, ById, s, u); }
      }
    }
  }

  /** On three processors two claims are enough, but not with pages in id order. */
  lemma DropsDependOnOrder(c: Config, s: State)
    requires Start(c, s) && c.cpus == 3 && |SpentIds(c)| == 2
    ensures exists u :: Reaches(c, AnyOrder, s, u) && Drops(u)
    ensures !exists u :: Reaches(c, ById, s, u) && Drops(u)
  {
    DropsIff(c, AnyOrder, s);
    DropsIff(c, ById, s);
    MaxSendsIsTriangular(2);
  }

  // ---- claims skipped by a page ----

  lemma {:induction false} SmallTablesSkipNothing(c: Config, s: State, run: seq<Action>)
    requires Inv(c, s) && Runs(c, s, run) && |SpentIds(c)| <= PAGE_LIMIT && s.log.skipped == {}
    ensures After(c, s, run).log.skipped == {}
    decreases run
  {
    if run == [] {
    } else {
      if run[0].Fetch? {
        MatchesAreSpent(c, s);
        SubsetSize(Matches(s), SpentIds(c));
        WholePage(Matches(s), run[0].page);
        assert forall id :: id in Matches(s) ==> id in SetOf(run[0].page);
      }
      StepInv(c, s, run[0]);
      SmallTablesSkipNothing(c, Do(c, s, run[0]), run[1..]);
    }
  }

  /** A page without the smallest id. */
  lemma SkippingPage(ids: set<Id>) returns (page: seq<Id>, id: Id)
    requires |ids| > PAGE_LIMIT
    ensures IsPage(ids, page) && page != [] && id in ids && id !in page && id < page[|page| - 1]
  {
    id := Least(ids);
    page := Smallest(ids - {id}, PAGE_LIMIT);
    assert page[|page| - 1] in page;
  }

  /** Some order of the pages skips a claim exactly if more claims are marked spent than fit on a page. */
  lemma SkipsIff(c: Config, s: State)
    requires Start(c, s)
    ensures (exists run :: Runs(c, s, run) && After(c, s, run).log.skipped != {}) <==> |SpentIds(c)| > 15000
  {
    StartInv(c, s);
    if run :| Runs(c, s, run) && After(c, s, run).log.skipped != {} {
      if |SpentIds(c)| <= PAGE_LIMIT { SmallTablesSkipNothing(c, s, run); }
    }
    if |SpentIds(c)| > PAGE_LIMIT {
      var run := SkipReached(c, s);
    }
  }

  lemma SkipReached(c: Config, s: State) returns (run: seq<Action>)
    requires Start(c, s) && |SpentIds(c)| > PAGE_LIMIT
    ensures Runs(c, s, run) && After(c, s, run).log.skipped != {}
  {
    assert Matches(s) == SpentIds(c);
    var page, id := SkippingPage(Matches(s));
    run := [Fetch(page)];
    OneStep(c, s, Fetch(page));
    assert id in Skips(s, page);
    assert id in Do(c, s, Fetch(page)).log.skipped;
  }

  /** So for up to PAGE_LIMIT claims the order does not matter: without failures the table is that of a sequential
      pass. */
  lemma SmallTablesAreSequential(c: Config, s: State, run: seq<Action>)
    requires Start(c, s) && Runs(c, s, run) && c.cpus >= 2 && |SpentIds(c)| <= 15000
    requires After(c, s, run).phase == Returned && NoWorkerFails(run)
    ensures After(c, s, run).table == Sequential(c)
    ensures forall id :: id in c.table ==> RowAfter(c, After(c, s, run).table, id, IsSpent(c.table, id))
  {
    StartInv(c, s);
    SequentialRows(c);
    SmallTablesSkipNothing(c, s, run);
    SequentialIff(c, s, run);
    Outcome(c, s, run);
    NoFailureHolds(c, s, run);
    AllFinished(c, s, run);
    forall id: Id | IsSpent(c.table, id)
      ensures Fetched(run, id)
    {
      SendsFetched(c, s, run, id);
      InvHolds(c, s, run);
    }
  }
}
