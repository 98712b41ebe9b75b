/**
  Concurrent submissions: any number of handlers, interleaved between SQL statements.
 */
module VoteInterleavings {
  import opened VoteStatements

  /** Where a handler stands: before an insert (or finished), or before one of the two counter updates. */
  datatype Stage = Ready | OptionDue | TotalDue

  /** A handler past its checks; `pending` are the options not yet inserted, `current` the one in hand. */
  datatype Thread = Thread(voteId: int, openid: string, pending: seq<int>, current: int, stage: Stage)

  datatype System = System(tables: Tables, threads: seq<Thread>)

  datatype Action =
    | Begin(voteId: int, optionIds: seq<int>, openid: string, now: int)
    | Advance(thread: nat)

  /** The next statement of a handler. */
  function NextStatement(t: Tables, h: Thread): (Tables, Thread) {
    match h.stage
    case Ready =>
      if h.pending == [] then (t, h)
      else
        var r := Record(h.voteId, h.pending[0], h.openid);
        if CanInsert(t, r) then
          (Insert(t, r), h.(pending := h.pending[1..], current := h.pending[0], stage := OptionDue))
        else
          (t, h.(pending := []))
    case OptionDue => (BumpOption(t, h.current), h.(stage := TotalDue))
    case TotalDue => (BumpTotal(t, h.voteId), h.(stage := Ready))
  }

  function Do(s: System, a: Action): System {
    match a
    case Begin(voteId, optionIds, openid, now) =>
      if Check(s.tables, voteId, optionIds, openid, now) == Accepted then
        s.(threads := s.threads + [Thread(voteId, openid, optionIds, 0, Ready)])
      else s
    case Advance(i) =>
      if i < |s.threads| then
        var (t, h) := NextStatement(s.tables, s.threads[i]);
        System(t, s.threads[i := h])
      else s
  }

  function Run(s: System, actions: seq<Action>): System {
    if actions == [] then s else Do(Run(s, actions[..|actions| - 1]), actions[|actions| - 1])
  }

  // ----- Counting over handlers and records -----

  lemma {:induction false} CountUpdate<T>(xs: seq<T>, i: nat, x: T, p: T -> bool)
    requires i < |xs|
    ensures Count(xs[i := x], p) + (if p(xs[i]) then 1 else 0) == Count(xs, p) + if p(x) then 1 else 0
  {
    var n := |xs|;
    assert xs[i := x][..n - 1] == if i == n - 1 then xs[..n - 1] else xs[..n - 1][i := x];
    if i < n - 1 {
      CountUpdate(xs[..n - 1], i, x, p);
    }
  }

  lemma CountSnoc<T>(xs: seq<T>, x: T, p: T -> bool)
    ensures Count(xs + [x], p) == Count(xs, p) + if p(x) then 1 else 0
  {
    assert (xs + [x])[..|xs|] == xs;
  }

  function OnOption(optionId: int): Record -> bool {
    (r: Record) => r.optionId == optionId
  }

  function OnVote(voteId: int): Record -> bool {
    (r: Record) => r.voteId == voteId
  }

  function OwesOption(optionId: int): Thread -> bool {
    (h: Thread) => h.stage == OptionDue && h.current == optionId
  }

  function OwesTotal(voteId: int): Thread -> bool {
    (h: Thread) => h.stage != Ready && h.voteId == voteId
  }

  // ----- An undisturbed handler -----

  lemma {:induction false} RunConcat(s: System, a: seq<Action>, b: seq<Action>)
    ensures Run(s, a + b) == Run(Run(s, a), b)
  {
    if b == [] {
      assert a + b == a;
    } else {
      RunConcat(s, a, b[..|b| - 1]);
      assert (a + b)[..|a + b| - 1] == a + b[..|b| - 1];
    }
  }

  lemma EmptyRun(s: System)
    ensures Run(s, []) == s
  {
  }

  lemma RunOne(s: System, a: Action)
    ensures Run(s, [a]) == Do(s, a)
  {
    assert [a][..0] == [];
  }

  lemma RunThree(s: System, a: Action)
    ensures Run(s, [a, a, a]) == Do(Do(Do(s, a), a), a)
  {
    RunOne(s, a);
    RunOne(Do(s, a), a);
    RunOne(Do(Do(s, a), a), a);
    RunConcat(s, [a], [a]);
    RunConcat(s, [a] + [a], [a]);
    assert [a] + [a] + [a] == [a, a, a];
  }

  /** Statement by statement, a handler that nobody interleaves with does what the handler method does, to its end. */
  lemma {:induction false} AloneLikeTheHandler(s: System, i: nat) returns (actions: seq<Action>)
    requires i < |s.threads| && s.threads[i].stage == Ready
    ensures forall k :: 0 <= k < |actions| ==> actions[k] == Advance(i)
    ensures var h, s' := s.threads[i], Run(s, actions);
            && s'.tables == SubmittedAll(s.tables, h.voteId, h.pending, h.openid)
            && |s'.threads| == |s.threads| && s'.threads[i].stage == Ready && s'.threads[i].pending == []
    decreases |s.threads[i].pending|
  {
    var h := s.threads[i];
    var a := Advance(i);
    if h.pending == [] {
      return [];
    }
    if !CanInsert(s.tables, Record(h.voteId, h.pending[0], h.openid)) {
      RunOne(s, a);
      return [a];
    }
    RunThree(s, a);
    var rest := AloneLikeTheHandler(Run(s, [a, a, a]), i);
    RunConcat(s, [a, a, a], rest);
    actions := [a, a, a] + rest;
  }

  // ----- Who gets past the checks -----

  /** Thread `h` began with action `k`, as an admissible submission, and `h.pending` are the last of its options. */
  ghost predicate BeganAt(s: System, actions: seq<Action>, k: nat, h: Thread) {
    && k < |actions| && actions[k].Begin? && actions[k].voteId == h.voteId && actions[k].openid == h.openid
    && Admissible(Run(s, actions[..k]).tables, h.voteId, actions[k].optionIds, h.openid, actions[k].now)
    && exists i :: 0 <= i <= |actions[k].optionIds| && h.pending == actions[k].optionIds[i..]
  }

  lemma BeganEarlier(s: System, actions: seq<Action>, k: nat, h: Thread, h': Thread)
    requires actions != [] && BeganAt(s, actions[..|actions| - 1], k, h)
    requires h'.voteId == h.voteId && h'.openid == h.openid
    requires h'.pending == h.pending || h'.pending == [] || (h.pending != [] && h'.pending == h.pending[1..])
    ensures BeganAt(s, actions, k, h')
  {
    hide Run, Admissible;
    var options := actions[k].optionIds;
    assert actions[..|actions| - 1][..k] == actions[..k];
    var i :| 0 <= i <= |options| && h.pending == options[i..];
    assert options[|options|..] == [];
    assert i < |options| ==> options[i + 1..] == options[i..][1..];
    if h'.pending == h.pending {
      assert h'.pending == options[i..];
    } else if h'.pending == [] {
      assert h'.pending == options[|options|..];
    } else {
      assert h'.pending == options[i + 1..];
    }
  }

  /** Every handler past the checks began, at some point of the run, as an admissible submission. */
  lemma {:induction false} ThreadsWereAdmissible(t: Tables, actions: seq<Action>, i: nat) returns (k: nat)
    requires i < |Run(System(t, []), actions).threads|
    ensures BeganAt(System(t, []), actions, k, Run(System(t, []), actions).threads[i])
  {
    var start := System(t, []);
    var before, last := actions[..|actions| - 1], actions[|actions| - 1];
    var s, s' := Run(start, before), Run(start, actions);
    if i < |s.threads| {
      k := ThreadsWereAdmissible(t, before, i);
      BeganEarlier(start, actions, k, s.threads[i], s'.threads[i]);
    } else {
      k := |actions| - 1;
      CheckExact(s.tables, last.voteId, last.optionIds, last.openid, last.now);
      assert last.optionIds[0..] == last.optionIds;
    }
  }

  // ----- The counters match the records -----

  /** The counter of the option plus the inserts whose bump is still due is its number of records. */
  ghost predicate OptionBalanced(s: System, o: int) {
    o in s.tables.counts ==>
      s.tables.counts[o] + Count(s.threads, OwesOption(o)) == Count(s.tables.records, OnOption(o))
  }

  ghost predicate TotalBalanced(s: System, v: int) {
    v in s.tables.totals ==>
      s.tables.totals[v] + Count(s.threads, OwesTotal(v)) == Count(s.tables.records, OnVote(v))
  }

  /** A store whose counters match its records, with no submission under way. */
  ghost predicate Consistent(t: Tables) {
    && (forall o :: o in t.counts ==> t.counts[o] == Count(t.records, OnOption(o)))
    && forall v :: v in t.totals ==> t.totals[v] == Count(t.records, OnVote(v))
  }

  lemma OptionBalancedStep(s: System, i: nat, o: int)
    requires OptionBalanced(s, o) && i < |s.threads|
    ensures OptionBalanced(Do(s, Advance(i)), o)
  {
    var h := s.threads[i];
    var (t, h') := NextStatement(s.tables, h);
    CountUpdate(s.threads, i, h', OwesOption(o));
    if h.stage == Ready && h.pending != [] {
      CountSnoc(s.tables.records, Record(h.voteId, h.pending[0], h.openid), OnOption(o));
    }
  }

  lemma TotalBalancedStep(s: System, i: nat, v: int)
    requires TotalBalanced(s, v) && i < |s.threads|
    ensures TotalBalanced(Do(s, Advance(i)), v)
  {
    var h := s.threads[i];
    var (t, h') := NextStatement(s.tables, h);
    CountUpdate(s.threads, i, h', OwesTotal(v));
    if h.stage == Ready && h.pending != [] {
      CountSnoc(s.tables.records, Record(h.voteId, h.pending[0], h.openid), OnVote(v));
    }
  }

  lemma BalancedStep(s: System, a: Action, o: int, v: int)
    requires OptionBalanced(s, o) && TotalBalanced(s, v)
    ensures OptionBalanced(Do(s, a), o) && TotalBalanced(Do(s, a), v)
  {
    match a
    case Begin(voteId, optionIds, openid, _) =>
      var h := Thread(voteId, openid, optionIds, 0, Ready);
      CountSnoc(s.threads, h, OwesOption(o));
      CountSnoc(s.threads, h, OwesTotal(v));
    case Advance(i) =>
      if i < |s.threads| {
        OptionBalancedStep(s, i, o);
        TotalBalancedStep(s, i, v);
      }
  }

  lemma {:induction false} BalancedRun(t: Tables, actions: seq<Action>, o: int, v: int)
    requires Consistent(t)
    ensures OptionBalanced(Run(System(t, []), actions), o) && TotalBalanced(Run(System(t, []), actions), v)
  {
    if actions != [] {
      var before := actions[..|actions| - 1];
      BalancedRun(t, before, o, v);
      BalancedStep(Run(System(t, []), before), actions[|actions| - 1], o, v);
    }
  }

  ghost predicate Quiescent(s: System) {
    forall i :: 0 <= i < |s.threads| ==> s.threads[i].stage == Ready
  }

  lemma {:induction false} NobodyOwes(threads: seq<Thread>, o: int, v: int)
    requires forall i :: 0 <= i < |threads| ==> threads[i].stage == Ready
    ensures Count(threads, OwesOption(o)) == 0 && Count(threads, OwesTotal(v)) == 0
  {
    if threads != [] {
      NobodyOwes(threads[..|threads| - 1], o, v);
    }
  }

  /** Whatever the interleaving, once no bump is due the counters are exactly the numbers of records. */
  lemma CountersMatchAtRest(t: Tables, actions: seq<Action>)
    requires Consistent(t) && Quiescent(Run(System(t, []), actions))
    ensures Consistent(Run(System(t, []), actions).tables)
  {
    var s := Run(System(t, []), actions);
    forall o | o in s.tables.counts
      ensures s.tables.counts[o] == Count(s.tables.records, OnOption(o))
    {
      BalancedRun(t, actions, o, 0);
      NobodyOwes(s.threads, o, 0);
    }
    forall v | v in s.tables.totals
      ensures s.tables.totals[v] == Count(s.tables.records, OnVote(v))
    {
      BalancedRun(t, actions, 0, v);
      NobodyOwes(s.threads, 0, v);
    }
  }

  /** In particular the handler on its own leaves the counters right, even when it stops half way. */
  lemma {:induction false} HandlerKeepsCounters(t: Tables, voteId: int, optionIds: seq<int>, openid: string)
    requires Consistent(t)
    ensures Consistent(SubmittedAll(t, voteId, optionIds, openid))
    decreases |optionIds|
  {
    if optionIds != [] {
      var r := Record(voteId, optionIds[0], openid);
      if CanInsert(t, r) {
        OneMoreRecord(t, r);
        HandlerKeepsCounters(Submitted(t, r), voteId, optionIds[1..], openid);
      }
    }
  }

  lemma OneMoreRecord(t: Tables, r: Record)
    requires Consistent(t) && CanInsert(t, r)
    ensures Consistent(Submitted(t, r))
  {
    hide Count;
    var t' := Submitted(t, r);
    forall o | o in t'.counts
      ensures t'.counts[o] == Count(t'.records, OnOption(o))
    {
      CountSnoc(t.records, r, OnOption(o));
    }
    forall v | v in t'.totals
      ensures t'.totals[v] == Count(t'.records, OnVote(v))
    {
      CountSnoc(t.records, r, OnVote(v));
    }
  }

  // ----- The limit per user -----

  /** The handlers of that user and vote that still have inserts to make. */
  function Busy(voteId: int, openid: string): Thread -> bool {
    (h: Thread) => h.voteId == voteId && h.openid == openid && h.pending != []
  }

  function PendingInserts(threads: seq<Thread>, voteId: int, openid: string): nat {
    if threads == [] then 0
    else
      var h := threads[|threads| - 1];
      PendingInserts(threads[..|threads| - 1], voteId, openid)
      + if h.voteId == voteId && h.openid == openid then |h.pending| else 0
  }

  /** How many options one submission may carry. */
  function ChoiceLimit(v: Vote): int {
    if v.voteType == 1 then 1 else v.maxChoices
  }

  /** Both limits are in force; for a single-choice vote one choice is the limit in any case. */
  predicate Limited(v: Vote) {
    v.maxVotes > 0 && (v.voteType == 1 || v.maxChoices > 0)
  }

  lemma {:induction false} PendingUpdate(threads: seq<Thread>, i: nat, h: Thread, voteId: int, openid: string)
    requires i < |threads| && h.voteId == threads[i].voteId && h.openid == threads[i].openid
    ensures PendingInserts(threads[i := h], voteId, openid)
         == PendingInserts(threads, voteId, openid)
            + if h.voteId == voteId && h.openid == openid then |h.pending| - |threads[i].pending| else 0
  {
    var n := |threads|;
    assert threads[i := h][..n - 1] == if i == n - 1 then threads[..n - 1] else threads[..n - 1][i := h];
    if i < n - 1 {
      PendingUpdate(threads[..n - 1], i, h, voteId, openid);
    }
  }

  /** No handler carries more options than its vote allows. */
  ghost predicate WithinChoices(threads: seq<Thread>, voteId: int, limit: int) {
    forall i :: 0 <= i < |threads| && threads[i].voteId == voteId ==> |threads[i].pending| <= limit
  }

  lemma {:induction false} PendingBound(threads: seq<Thread>, voteId: int, openid: string, limit: int)
    requires WithinChoices(threads, voteId, limit) && limit >= 0
    ensures PendingInserts(threads, voteId, openid) <= Count(threads, Busy(voteId, openid)) * limit
  {
    if threads != [] {
      var init := threads[..|threads| - 1];
      PendingBound(init, voteId, openid, limit);
      assert (Count(init, Busy(voteId, openid)) + 1) * limit == Count(init, Busy(voteId, openid)) * limit + limit;
    }
  }

  /**
    Records made plus inserts to come stay within the bound: they only grow when a
    handler passes the count check, and then the user had fewer than `maxVotes` records
    and at most `c` handlers, the new one included, with inserts to make.
   */
  ghost predicate WithinBound(s: System, voteId: int, openid: string, v: Vote, bound: int) {
    && voteId in s.tables.votes && s.tables.votes[voteId] == v
    && WithinChoices(s.threads, voteId, ChoiceLimit(v))
    && CountByUser(s.tables.records, voteId, openid) + PendingInserts(s.threads, voteId, openid) <= bound
  }

  lemma BeginWithinBound(s: System, a: Action, voteId: int, openid: string, v: Vote, c: nat, bound: int)
    requires WithinBound(s, voteId, openid, v, bound) && Limited(v) && a.Begin?
    requires v.maxVotes - 1 + c * ChoiceLimit(v) <= bound
    requires Count(Do(s, a).threads, Busy(voteId, openid)) <= c
    ensures WithinBound(Do(s, a), voteId, openid, v, bound)
  {
    var s' := Do(s, a);
    if s' != s {
      assert s'.threads[..|s'.threads| - 1] == s.threads;
      if a.voteId == voteId && a.openid == openid {
        PendingBound(s'.threads, voteId, openid, ChoiceLimit(v));
        Scale(Count(s'.threads, Busy(voteId, openid)), c, ChoiceLimit(v));
      }
    }
  }

  lemma Scale(a: nat, b: nat, k: int)
    requires a <= b && k >= 0
    ensures a * k <= b * k
  {
  }

  lemma AdvanceWithinBound(s: System, i: nat, voteId: int, openid: string, v: Vote, bound: int)
    requires WithinBound(s, voteId, openid, v, bound) && i < |s.threads|
    ensures WithinBound(Do(s, Advance(i)), voteId, openid, v, bound)
  {
    var h := s.threads[i];
    var (t, h') := NextStatement(s.tables, h);
    PendingUpdate(s.threads, i, h', voteId, openid);
    if h.stage == Ready && h.pending != [] {
      var r := Record(h.voteId, h.pending[0], h.openid);
      assert (s.tables.records + [r])[..|s.tables.records|] == s.tables.records;
    }
  }

  /** At most `c` handlers of the user are ever between the count check and their last insert. */
  ghost predicate AtMostBusy(s: System, actions: seq<Action>, voteId: int, openid: string, c: nat) {
    forall i :: 0 <= i <= |actions| ==> Count(Run(s, actions[..i]).threads, Busy(voteId, openid)) <= c
  }

  lemma {:induction false} WithinBoundRun(t: Tables, actions: seq<Action>, voteId: int, openid: string, c: nat,
                                          bound: int)
    requires voteId in t.votes && Limited(t.votes[voteId])
    requires t.votes[voteId].maxVotes - 1 + c * ChoiceLimit(t.votes[voteId]) <= bound
    requires CountByUser(t.records, voteId, openid) <= bound
    requires AtMostBusy(System(t, []), actions, voteId, openid, c)
    ensures WithinBound(Run(System(t, []), actions), voteId, openid, t.votes[voteId], bound)
  {
    var s := System(t, []);
    if actions != [] {
      var before, last := actions[..|actions| - 1], actions[|actions| - 1];
      assert forall i :: 0 <= i <= |before| ==> before[..i] == actions[..i];
      assert AtMostBusy(s, before, voteId, openid, c);
      WithinBoundRun(t, before, voteId, openid, c, bound);
      assert actions[..|actions|] == actions;
      match last {
        case Begin(_, _, _, _) => BeginWithinBound(Run(s, before), last, voteId, openid, t.votes[voteId], c, bound);
        case Advance(i) =>
          if i < |Run(s, before).threads| {
            AdvanceWithinBound(Run(s, before), i, voteId, openid, t.votes[voteId], bound);
          }
      }
    }
  }

  function Max(a: int, b: int): int {
    if a >= b then a else b
  }

  /** The bound on a user's records, for every run with at most `c` of the user's handlers in flight. */
  lemma {:induction false} UserRecordsBounded(t: Tables, actions: seq<Action>, voteId: int, openid: string, c: nat)
    requires voteId in t.votes && Limited(t.votes[voteId])
    requires AtMostBusy(System(t, []), actions, voteId, openid, c)
    ensures var v := t.votes[voteId];
            CountByUser(Run(System(t, []), actions).tables.records, voteId, openid)
              <= Max(CountByUser(t.records, voteId, openid), v.maxVotes - 1 + c * ChoiceLimit(v))
  {
    var v := t.votes[voteId];
    WithinBoundRun(t, actions, voteId, openid, c,
                   Max(CountByUser(t.records, voteId, openid), v.maxVotes - 1 + c * ChoiceLimit(v)));
  }

  /** A vote that takes one choice at a time. */
  predicate OneChoice(v: Vote) {
    v.voteType == 1 || v.maxChoices == 1
  }

  /** One at a time, submissions to such a vote keep its limit. */
  lemma {:induction false} SingleChoiceKeepsLimit(t: Tables, actions: seq<Action>, voteId: int, openid: string)
    requires voteId in t.votes && OneChoice(t.votes[voteId]) && t.votes[voteId].maxVotes > 0
    requires CountByUser(t.records, voteId, openid) <= t.votes[voteId].maxVotes
    requires AtMostBusy(System(t, []), actions, voteId, openid, 1)
    ensures CountByUser(Run(System(t, []), actions).tables.records, voteId, openid) <= t.votes[voteId].maxVotes
  {
    UserRecordsBounded(t, actions, voteId, openid, 1);
  }

  // ----- Runs with a bounded number of handlers -----

  lemma AtMostBusyConcat(s: System, a: seq<Action>, b: seq<Action>, voteId: int, openid: string, c: nat)
    requires AtMostBusy(s, a, voteId, openid, c) && AtMostBusy(Run(s, a), b, voteId, openid, c)
    ensures AtMostBusy(s, a + b, voteId, openid, c)
  {
    forall i | 0 <= i <= |a + b|
      ensures Count(Run(s, (a + b)[..i]).threads, Busy(voteId, openid)) <= c
    {
      if i <= |a| {
        assert (a + b)[..i] == a[..i];
      } else {
        assert (a + b)[..i] == a + b[..i - |a|];
        RunConcat(s, a, b[..i - |a|]);
      }
    }
  }

  lemma MoreAllowed(s: System, actions: seq<Action>, voteId: int, openid: string, b: nat, c: nat)
    requires AtMostBusy(s, actions, voteId, openid, b) && b <= c
    ensures AtMostBusy(s, actions, voteId, openid, c)
  {
  }

  predicate JustAdvances(actions: seq<Action>) {
    forall i :: 0 <= i < |actions| ==> actions[i].Advance?
  }

  /** A handler that goes on does not become busy. */
  lemma AdvanceKeepsBusy(s: System, i: nat, voteId: int, openid: string)
    ensures Count(Do(s, Advance(i)).threads, Busy(voteId, openid)) <= Count(s.threads, Busy(voteId, openid))
  {
    if i < |s.threads| {
      CountUpdate(s.threads, i, NextStatement(s.tables, s.threads[i]).1, Busy(voteId, openid));
    }
  }

  lemma {:induction false} AdvancesKeepBusy(s: System, actions: seq<Action>, voteId: int, openid: string, c: nat)
    requires JustAdvances(actions) && Count(s.threads, Busy(voteId, openid)) <= c
    ensures AtMostBusy(s, actions, voteId, openid, c)
  {
    EmptyRun(s);
    if actions != [] {
      hide Count, Do;
      var before, last := actions[..|actions| - 1], actions[|actions| - 1];
      AdvancesKeepBusy(s, before, voteId, openid, c);
      AdvanceKeepsBusy(Run(s, before), last.thread, voteId, openid);
      assert before[..|before|] == before && actions[..|actions|] == actions;
      assert Run(s, actions) == Do(Run(s, before), last);
      hide Run;
      forall i | 0 <= i <= |actions|
        ensures Count(Run(s, actions[..i]).threads, Busy(voteId, openid)) <= c
      {
        if i < |actions| {
          assert actions[..i] == before[..i];
        }
      }
    }
  }

  // ----- The bound is reached -----

  /** A handler that can make all its inserts. */
  ghost predicate CanFinish(s: System, i: nat) {
    && i < |s.threads| && s.threads[i].stage == Ready
    && s.threads[i].voteId in s.tables.votes
    && forall k :: 0 <= k < |s.threads[i].pending| ==> s.threads[i].pending[k] in s.tables.counts
  }

  /** One option of one handler, from insert to total. */
  lemma FinishOne(s: System, i: nat) returns (actions: seq<Action>)
    requires CanFinish(s, i) && s.threads[i].pending != []
    ensures JustAdvances(actions)
    ensures var h := s.threads[i];
            var s' := Run(s, actions);
            && s'.threads == s.threads[i := h.(pending := h.pending[1..], current := h.pending[0])]
            && s'.tables.votes == s.tables.votes && s'.tables.counts.Keys == s.tables.counts.Keys
            && s'.tables.records == s.tables.records + [Record(h.voteId, h.pending[0], h.openid)]
  {
    var a := Advance(i);
    actions := [a, a, a];
    RunThree(s, a);
  }

  lemma {:induction false} Finish(s: System, i: nat) returns (actions: seq<Action>)
    requires CanFinish(s, i)
    ensures JustAdvances(actions)
    ensures var h := s.threads[i];
            var s' := Run(s, actions);
            && |s'.threads| == |s.threads| && s'.threads[i].pending == []
            && (forall k :: 0 <= k < |s.threads| && k != i ==> s'.threads[k] == s.threads[k])
            && s'.tables.votes == s.tables.votes && s'.tables.counts.Keys == s.tables.counts.Keys
            && CountByUser(s'.tables.records, h.voteId, h.openid)
                 == CountByUser(s.tables.records, h.voteId, h.openid) + |h.pending|
    decreases |s.threads[i].pending|
  {
    var h := s.threads[i];
    if h.pending == [] {
      return [];
    }
    var first := FinishOne(s, i);
    var s1 := Run(s, first);
    var r := Record(h.voteId, h.pending[0], h.openid);
    assert (s.tables.records + [r])[..|s.tables.records|] == s.tables.records;
    var rest := Finish(s1, i);
    RunConcat(s, first, rest);
    actions := first + rest;
  }

  /** All handlers from number `i` on finish, one after the other. */
  lemma {:induction false} FinishFrom(s: System, i: nat, voteId: int, openid: string, k: nat)
    returns (actions: seq<Action>)
    requires i <= |s.threads|
    requires forall j :: i <= j < |s.threads| ==>
               && CanFinish(s, j) && s.threads[j].voteId == voteId && s.threads[j].openid == openid
               && |s.threads[j].pending| == k
    ensures JustAdvances(actions)
    ensures CountByUser(Run(s, actions).tables.records, voteId, openid)
         == CountByUser(s.tables.records, voteId, openid) + (|s.threads| - i) * k
    decreases |s.threads| - i
  {
    hide Run, CountByUser;
    if i == |s.threads| {
      EmptyRun(s);
      return [];
    }
    var first := Finish(s, i);
    var s1 := Run(s, first);
    assert forall j :: i < j < |s1.threads| ==> s1.threads[j] == s.threads[j] && CanFinish(s, j);
    var rest := FinishFrom(s1, i + 1, voteId, openid, k);
    RunConcat(s, first, rest);
    actions := first + rest;
    assert (|s.threads| - i) * k == k + (|s.threads| - i - 1) * k;
  }

  /** `c` handlers pass the check, one after the other, before any of them inserts. */
  lemma {:induction false} BeginMany(s: System, voteId: int, optionIds: seq<int>, openid: string, now: int, c: nat)
    returns (actions: seq<Action>)
    requires Check(s.tables, voteId, optionIds, openid, now) == Accepted
    requires Count(s.threads, Busy(voteId, openid)) == 0
    ensures Run(s, actions) == System(s.tables, s.threads + seq(c, _ => Thread(voteId, openid, optionIds, 0, Ready)))
    ensures AtMostBusy(s, actions, voteId, openid, c)
    ensures Count(Run(s, actions).threads, Busy(voteId, openid)) <= c
  {
    EmptyRun(s);
    if c == 0 {
      return [];
    }
    var before := BeginMany(s, voteId, optionIds, openid, now, c - 1);
    var a := Begin(voteId, optionIds, openid, now);
    var s1 := Run(s, before);
    RunConcat(s, before, [a]);
    RunOne(s1, a);
    CountSnoc(s1.threads, Thread(voteId, openid, optionIds, 0, Ready), Busy(voteId, openid));
    OneActionBusy(s1, a, voteId, openid, c);
    AtMostBusyConcat(s, before, [a], voteId, openid, c);
    actions := before + [a];
  }

  lemma OneActionBusy(s: System, a: Action, voteId: int, openid: string, c: nat)
    requires Count(s.threads, Busy(voteId, openid)) <= c && Count(Do(s, a).threads, Busy(voteId, openid)) <= c
    ensures AtMostBusy(s, [a], voteId, openid, c)
  {
    EmptyRun(s);
    RunOne(s, a);
    assert [a][..0] == [] && [a][..1] == [a];
  }

  /** A user who may choose these options, with no submission under way. */
  ghost predicate MayVote(s: System, voteId: int, optionIds: seq<int>, openid: string, now: int) {
    && Check(s.tables, voteId, optionIds, openid, now) == Accepted
    && (forall k :: 0 <= k < |optionIds| ==> optionIds[k] in s.tables.counts)
    && s.tables.votes[voteId].maxVotes > 0
    && Count(s.threads, Busy(voteId, openid)) == 0
  }

  lemma BelowLimit(s: System, voteId: int, optionIds: seq<int>, openid: string, now: int)
    requires MayVote(s, voteId, optionIds, openid, now)
    ensures voteId in s.tables.votes && optionIds != []
    ensures CountByUser(s.tables.records, voteId, openid) < s.tables.votes[voteId].maxVotes
    ensures MayVote(s, voteId, optionIds[..1], openid, now)
  {
  }

  /** One vote at a time, up to one less than the limit. */
  lemma {:induction false} VoteUpToLast(s: System, voteId: int, optionIds: seq<int>, openid: string, now: int)
    returns (actions: seq<Action>)
    requires MayVote(s, voteId, optionIds, openid, now)
    ensures AtMostBusy(s, actions, voteId, openid, 1)
    ensures MayVote(Run(s, actions), voteId, optionIds, openid, now)
    ensures var v := s.tables.votes[voteId];
            && Run(s, actions).tables.votes[voteId] == v
            && CountByUser(Run(s, actions).tables.records, voteId, openid) == v.maxVotes - 1
    decreases s.tables.votes[voteId].maxVotes - CountByUser(s.tables.records, voteId, openid)
  {
    hide Count, AtMostBusy, CanFinish;
    EmptyRun(s);
    if CountByUser(s.tables.records, voteId, openid) == s.tables.votes[voteId].maxVotes - 1 {
      AdvancesKeepBusy(s, [], voteId, openid, 1);
      return [];
    }
    BelowLimit(s, voteId, optionIds, openid, now);
    var one := VoteOnce(s, voteId, optionIds[0], openid, now);
    var rest := VoteUpToLast(Run(s, one), voteId, optionIds, openid, now);
    AtMostBusyConcat(s, one, rest, voteId, openid, 1);
    RunConcat(s, one, rest);
    actions := one + rest;
  }

  lemma VoteOnce(s: System, voteId: int, o: int, openid: string, now: int) returns (actions: seq<Action>)
    requires MayVote(s, voteId, [o], openid, now)
    ensures AtMostBusy(s, actions, voteId, openid, 1)
    ensures var s' := Run(s, actions);
            && s'.tables.votes == s.tables.votes && s'.tables.counts.Keys == s.tables.counts.Keys
            && CountByUser(s'.tables.records, voteId, openid) == CountByUser(s.tables.records, voteId, openid) + 1
            && Count(s'.threads, Busy(voteId, openid)) == 0
  {
    BelowLimit(s, voteId, [o], openid, now);
    hide Run, Check, Count, AtMostBusy;
    var begin := BeginMany(s, voteId, [o], openid, now, 1);
    var begun := Run(s, begin);
    var i := |s.threads|;
    assert [o][0] in s.tables.counts;
    var end := Finish(begun, i);
    var s' := Run(begun, end);
    AdvancesKeepBusy(begun, end, voteId, openid, 1);
    AtMostBusyConcat(s, begin, end, voteId, openid, 1);
    RunConcat(s, begin, end);
    assert s'.threads == s.threads + [s'.threads[i]];
    CountSnoc(s.threads, s'.threads[i], Busy(voteId, openid));
    actions := begin + end;
  }

  /**
    The bound is exact, however many records the user has to begin with: one vote at a
    time up to the last, then `c` handlers that all pass the check before the first insert.
   */
  lemma {:induction false} UserBoundReached(t: Tables, voteId: int, optionIds: seq<int>, openid: string,
                                            now: int, c: nat)
    returns (actions: seq<Action>)
    requires MayVote(System(t, []), voteId, optionIds, openid, now)
    requires c == 0 ==> CountByUser(t.records, voteId, openid) == t.votes[voteId].maxVotes - 1
    ensures AtMostBusy(System(t, []), actions, voteId, openid, c)
    ensures CountByUser(Run(System(t, []), actions).tables.records, voteId, openid)
         == t.votes[voteId].maxVotes - 1 + c * |optionIds|
  {
    hide Run, Check, Count, CountByUser, AtMostBusy;
    var s := System(t, []);
    if c == 0 {
      EmptyRun(s);
      AdvancesKeepBusy(s, [], voteId, openid, c);
      return [];
    }
    var first := VoteUpToLast(s, voteId, optionIds, openid, now);
    var last := Run(s, first);
    BelowLimit(last, voteId, optionIds, openid, now);
    var begins := BeginMany(last, voteId, optionIds, openid, now, c);
    var begun := Run(last, begins);
    var ends := FinishFrom(begun, |last.threads|, voteId, openid, |optionIds|);
    AdvancesKeepBusy(begun, ends, voteId, openid, c);
    AtMostBusyConcat(last, begins, ends, voteId, openid, c);
    MoreAllowed(s, first, voteId, openid, 1, c);
    AtMostBusyConcat(s, first, begins + ends, voteId, openid, c);
    RunConcat(last, begins, ends);
    RunConcat(s, first, begins + ends);
    actions := first + (begins + ends);
  }

  /** Every run with at most `c` of the user's handlers in flight keeps the user's records within `MaxVotes`. */
  ghost predicate LimitKept(t: Tables, voteId: int, openid: string, c: nat)
    requires voteId in t.votes
  {
    forall actions :: AtMostBusy(System(t, []), actions, voteId, openid, c) ==>
      CountByUser(Run(System(t, []), actions).tables.records, voteId, openid) <= t.votes[voteId].maxVotes
  }

  /** Several choices at once are accepted as one is, if the vote allows so many. */
  lemma MayChooseMany(t: Tables, voteId: int, o: int, openid: string, now: int, k: nat)
    requires MayVote(System(t, []), voteId, [o], openid, now) && k >= 1
    requires Limited(t.votes[voteId]) ==> k <= ChoiceLimit(t.votes[voteId])
    ensures MayVote(System(t, []), voteId, seq(k, _ => o), openid, now)
  {
    assert [o][0] in t.counts;
  }

  lemma ProductAtMostOne(a: nat, b: nat)
    requires a >= 1 && b >= 1
    ensures a * b <= 1 <==> a == 1 && b == 1
  {
    assert a * b >= a && a * b >= b;
  }

  /** Exactly when the limit holds for a user who may vote: one handler at a time, and one choice at a time. */
  lemma {:induction false} LimitKeptExactly(t: Tables, voteId: int, o: int, openid: string, now: int, c: nat)
    requires MayVote(System(t, []), voteId, [o], openid, now) && c >= 1
    ensures LimitKept(t, voteId, openid, c) <==> c == 1 && OneChoice(t.votes[voteId])
    ensures Limited(t.votes[voteId]) ==> (LimitKept(t, voteId, openid, c) <==> c * ChoiceLimit(t.votes[voteId]) <= 1)
  {
    BelowLimit(System(t, []), voteId, [o], openid, now);
    var v := t.votes[voteId];
    if Limited(v) {
      ProductAtMostOne(c, ChoiceLimit(v));
    }
    hide *;
    if c == 1 && OneChoice(v) {
      forall actions | AtMostBusy(System(t, []), actions, voteId, openid, c)
        ensures CountByUser(Run(System(t, []), actions).tables.records, voteId, openid) <= v.maxVotes
      {
        SingleChoiceKeepsLimit(t, actions, voteId, openid);
      }
    } else {
      var k: nat := if OneChoice(v) then 1 else 2;
      MayChooseMany(t, voteId, o, openid, now, k);
      var actions := UserBoundReached(t, voteId, seq(k, _ => o), openid, now, c);
      ProductAtMostOne(c, k);
    }
  }
}
