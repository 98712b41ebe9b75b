/**
  Submitting votes: the SQL statements as functions on the tables, and the handler and
  repository methods that issue them one after the other.
 */
module VoteStatements {
  import opened Options

  datatype Vote = Vote(
    status: int,
    voteType: int,
    maxChoices: int,
    maxVotes: int,
    startTime: Option<int>,
    endTime: Option<int>,
    deleted: bool)

  datatype Record = Record(voteId: int, optionId: int, openid: string)

  /** The three tables: vote rows, the two counter columns, and the vote records. */
  datatype Tables = Tables(votes: map<int, Vote>, totals: map<int, int>, counts: map<int, int>, records: seq<Record>)

  // ----- Statements -----

  /** The foreign keys of `vote_records` demand that the vote and the option exist. */
  predicate CanInsert(t: Tables, r: Record) {
    r.voteId in t.votes && r.optionId in t.counts
  }

  function Insert(t: Tables, r: Record): Tables {
    t.(records := t.records + [r])
  }

  function BumpOption(t: Tables, optionId: int): Tables {
    if optionId in t.counts then t.(counts := t.counts[optionId := t.counts[optionId] + 1]) else t
  }

  function BumpTotal(t: Tables, voteId: int): Tables {
    if voteId in t.totals then t.(totals := t.totals[voteId := t.totals[voteId] + 1]) else t
  }

  function Count<T>(xs: seq<T>, p: T -> bool): nat {
    if xs == [] then 0 else Count(xs[..|xs| - 1], p) + if p(xs[|xs| - 1]) then 1 else 0
  }

  function ByUser(voteId: int, openid: string): Record -> bool {
    (r: Record) => r.voteId == voteId && r.openid == openid
  }

  function CountByUser(records: seq<Record>, voteId: int, openid: string): nat {
    Count(records, ByUser(voteId, openid))
  }

  // ----- The handler's checks -----

  datatype Outcome =
    | Accepted
    | BadRequest
    | ServerError
    | NotFound
    | NotRunning
    | NotStarted
    | Ended
    | SingleChoiceOnly
    | TooManyChoices
    | LimitReached

  /** What the handler answers before it records anything; `Accepted` means it goes on. */
  function Check(t: Tables, voteId: int, optionIds: seq<int>, openid: string, now: int): Outcome {
    if optionIds == [] || openid == "" then BadRequest
    else if voteId <= 0 then ServerError
    else if voteId !in t.votes || t.votes[voteId].deleted then NotFound
    else
      var v := t.votes[voteId];
      if v.status != 1 then NotRunning
      else if v.startTime.Some? && now < v.startTime.value then NotStarted
      else if v.endTime.Some? && now > v.endTime.value then Ended
      else if v.voteType == 1 && |optionIds| > 1 then SingleChoiceOnly
      else if v.maxChoices > 0 && |optionIds| > v.maxChoices then TooManyChoices
      else if v.maxVotes > 0 && CountByUser(t.records, voteId, openid) >= v.maxVotes then LimitReached
      else Accepted
  }

  // ----- What the checks come to -----

  /** The refusals in the order in which they are looked for. */
  const REFUSALS: seq<Outcome> :=
    [BadRequest, ServerError, NotFound, NotRunning, NotStarted, Ended, SingleChoiceOnly, TooManyChoices, LimitReached]

  /** The user's records for the vote, by their positions. */
  function RecordsOf(records: seq<Record>, voteId: int, openid: string): set<int> {
    set i | 0 <= i < |records| && records[i].voteId == voteId && records[i].openid == openid
  }

  predicate Exists(t: Tables, voteId: int) {
    voteId in t.votes && !t.votes[voteId].deleted
  }

  /** What is wrong with a submission that is refused with this outcome. */
  predicate Violates(refusal: Outcome, t: Tables, voteId: int, optionIds: seq<int>, openid: string, now: int) {
    match refusal
    case Accepted => false
    case BadRequest => |optionIds| == 0 || |openid| == 0
    case ServerError => voteId < 1
    case NotFound => !Exists(t, voteId)
    case NotRunning => Exists(t, voteId) && t.votes[voteId].status != 1
    case NotStarted => Exists(t, voteId) && t.votes[voteId].startTime.Some? && t.votes[voteId].startTime.value > now
    case Ended => Exists(t, voteId) && t.votes[voteId].endTime.Some? && t.votes[voteId].endTime.value < now
    case SingleChoiceOnly => Exists(t, voteId) && t.votes[voteId].voteType == 1 && |optionIds| >= 2
    case TooManyChoices => Exists(t, voteId) && 1 <= t.votes[voteId].maxChoices < |optionIds|
    case LimitReached =>
      Exists(t, voteId) && 1 <= t.votes[voteId].maxVotes <= |RecordsOf(t.records, voteId, openid)|
  }

  /** A submission with which nothing is wrong. */
  predicate Admissible(t: Tables, voteId: int, optionIds: seq<int>, openid: string, now: int) {
    && |optionIds| >= 1 && |openid| >= 1 && voteId >= 1
    && Exists(t, voteId)
    && var v := t.votes[voteId];
       && v.status == 1
       && (v.startTime.Some? ==> v.startTime.value <= now)
       && (v.endTime.Some? ==> now <= v.endTime.value)
       && (v.voteType == 1 ==> |optionIds| == 1)
       && (v.maxChoices >= 1 ==> |optionIds| <= v.maxChoices)
       && (v.maxVotes >= 1 ==> |RecordsOf(t.records, voteId, openid)| < v.maxVotes)
  }

  /** The outcome of the first violation. */
  predicate FirstViolation(refusal: Outcome, t: Tables, voteId: int, optionIds: seq<int>, openid: string, now: int) {
    exists i :: 0 <= i < |REFUSALS| && REFUSALS[i] == refusal && Violates(refusal, t, voteId, optionIds, openid, now)
                && forall j :: 0 <= j < i ==> !Violates(REFUSALS[j], t, voteId, optionIds, openid, now)
  }

  lemma {:induction false} CountIsNumber(records: seq<Record>, voteId: int, openid: string)
    ensures CountByUser(records, voteId, openid) == |RecordsOf(records, voteId, openid)|
  {
    if records != [] {
      var n := |records| - 1;
      var init := records[..n];
      CountIsNumber(init, voteId, openid);
      var before := RecordsOf(init, voteId, openid);
      assert RecordsOf(records, voteId, openid)
          == before + if records[n].voteId == voteId && records[n].openid == openid then {n} else {};
      assert n !in before;
    }
  }

  /** The handler goes on exactly with an admissible submission, and otherwise names its first violation. */
  lemma CheckExact(t: Tables, voteId: int, optionIds: seq<int>, openid: string, now: int)
    ensures Check(t, voteId, optionIds, openid, now) == Accepted <==> Admissible(t, voteId, optionIds, openid, now)
    ensures !Admissible(t, voteId, optionIds, openid, now) ==>
              FirstViolation(Check(t, voteId, optionIds, openid, now), t, voteId, optionIds, openid, now)
  {
    CountIsNumber(t.records, voteId, openid);
    hide CountByUser, RecordsOf;
    var refusal := Check(t, voteId, optionIds, openid, now);
    if refusal != Accepted {
      var i := match refusal
        case BadRequest => 0
        case ServerError => 1
        case NotFound => 2
        case NotRunning => 3
        case NotStarted => 4
        case Ended => 5
        case SingleChoiceOnly => 6
        case TooManyChoices => 7
        case LimitReached => 8;
      assert REFUSALS[i] == refusal;
    }
  }

  /** One `SubmitVote` of the repository, undisturbed. */
  function Submitted(t: Tables, r: Record): Tables {
    BumpTotal(BumpOption(Insert(t, r), r.optionId), r.voteId)
  }

  /** The handler's loop, undisturbed: it stops at the first option that cannot be recorded. */
  function SubmittedAll(t: Tables, voteId: int, optionIds: seq<int>, openid: string): Tables
    decreases |optionIds|
  {
    if optionIds == [] then t
    else
      var r := Record(voteId, optionIds[0], openid);
      if CanInsert(t, r) then SubmittedAll(Submitted(t, r), voteId, optionIds[1..], openid) else t
  }

  // ----- What the loop comes to -----

  function RecordsFor(voteId: int, optionIds: seq<int>, openid: string): seq<Record> {
    seq(|optionIds|, i requires 0 <= i < |optionIds| => Record(voteId, optionIds[i], openid))
  }

  function IsId(id: int): int -> bool {
    (x: int) => x == id
  }

  /** The first `k` options are recorded, in order, and counted, and nothing else has changed. */
  ghost predicate Recorded(t: Tables, t': Tables, voteId: int, optionIds: seq<int>, openid: string, k: nat)
    requires k <= |optionIds|
  {
    && t'.votes == t.votes
    && t'.records == t.records + RecordsFor(voteId, optionIds[..k], openid)
    && t'.counts.Keys == t.counts.Keys && t'.totals.Keys == t.totals.Keys
    && (forall o :: o in t.counts ==> t'.counts[o] == t.counts[o] + Count(optionIds[..k], IsId(o)))
    && forall v :: v in t.totals ==> t'.totals[v] == t.totals[v] + if v == voteId then k else 0
  }

  /** `k` is where the loop stops: at the end, or at the first option that does not exist. */
  predicate StopsAt(t: Tables, voteId: int, optionIds: seq<int>, k: nat) {
    && k <= |optionIds|
    && (forall i :: 0 <= i < k ==> voteId in t.votes && optionIds[i] in t.counts)
    && (k < |optionIds| ==> voteId !in t.votes || optionIds[k] !in t.counts)
  }

  lemma OneRecorded(t: Tables, t': Tables, voteId: int, optionIds: seq<int>, openid: string, k: nat)
    requires k < |optionIds| && Recorded(t, t', voteId, optionIds, openid, k)
    requires CanInsert(t', Record(voteId, optionIds[k], openid))
    ensures Recorded(t, Submitted(t', Record(voteId, optionIds[k], openid)), voteId, optionIds, openid, k + 1)
  {
    var r := Record(voteId, optionIds[k], openid);
    assert optionIds[..k + 1][..k] == optionIds[..k];
    assert RecordsFor(voteId, optionIds[..k + 1], openid) == RecordsFor(voteId, optionIds[..k], openid) + [r];
    assert t'.records + [r] == t.records + RecordsFor(voteId, optionIds[..k + 1], openid);
  }

  class VoteRepo {
    var votes: map<int, Vote>
    var totals: map<int, int>
    var counts: map<int, int>
    var records: seq<Record>

    function View(): Tables
      reads this
    {
      Tables(votes, totals, counts, records)
    }

    method CountVotesByUser(voteId: int, openid: string) returns (count: nat)
      ensures count == CountByUser(records, voteId, openid)
    {
      count := 0;
      for i := 0 to |records|
        invariant count == CountByUser(records[..i], voteId, openid)
      {
        assert records[..i + 1][..i] == records[..i];
        if records[i].voteId == voteId && records[i].openid == openid {
          count := count + 1;
        }
      }
      assert records[..|records|] == records;
    }

    method SubmitVote(record: Record) returns (ok: bool)
      modifies this
      ensures ok == old(CanInsert(View(), record))
      ensures View() == if ok then Submitted(old(View()), record) else old(View())
    {
      if !CanInsert(View(), record) {
        return false;
      }
      records := records + [record];
      if record.optionId in counts {
        counts := counts[record.optionId := counts[record.optionId] + 1];
      }
      if record.voteId in totals {
        totals := totals[record.voteId := totals[record.voteId] + 1];
      }
      return true;
    }

    /** The handler: its checks, then one `SubmitVote` for each chosen option. */
    method HandleSubmit(voteId: int, optionIds: seq<int>, openid: string, now: int)
      returns (outcome: Outcome, ghost stop: nat)
      modifies this
      ensures !old(Admissible(View(), voteId, optionIds, openid, now)) ==>
                && FirstViolation(outcome, old(View()), voteId, optionIds, openid, now)
                && View() == old(View())
      ensures old(Admissible(View(), voteId, optionIds, openid, now)) ==>
                && StopsAt(old(View()), voteId, optionIds, stop)
                && Recorded(old(View()), View(), voteId, optionIds, openid, stop)
                && View() == SubmittedAll(old(View()), voteId, optionIds, openid)
                && outcome == if stop == |optionIds| then Accepted else ServerError
    {
      stop := 0;
      CheckExact(View(), voteId, optionIds, openid, now);
      outcome := Check(View(), voteId, optionIds, openid, now);
      if outcome != Accepted {
        return;
      }
      ghost var before := View();
      for i := 0 to |optionIds|
        invariant SubmittedAll(View(), voteId, optionIds[i..], openid)
               == SubmittedAll(before, voteId, optionIds, openid)
        invariant Recorded(before, View(), voteId, optionIds, openid, i)
        invariant forall k :: 0 <= k < i ==> voteId in before.votes && optionIds[k] in before.counts
      {
        stop := i;
        assert optionIds[i..][0] == optionIds[i] && optionIds[i..][1..] == optionIds[i + 1..];
        ghost var here := View();
        var ok := SubmitVote(Record(voteId, optionIds[i], openid));
        if !ok {
          return ServerError, i;
        }
        OneRecorded(before, here, voteId, optionIds, openid, i);
      }
      stop := |optionIds|;
    }
  }
}
