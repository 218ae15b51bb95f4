/** The retry queue of late-report notices. */
module LateReports {
  import opened JsStrings
  import opened DiscordDelivery

  const MAX_ATTEMPTS := 10
  const PAGE := 20

  /** What a stored snapshot gives: a card, a parse error, or a date that only fails once the card is built. */
  datatype Snapshot = Usable | Corrupt | BadDate

  /** One delivery row. */
  datatype LateRow = LateRow(profileId: nat, reportId: nat, snapshot: Snapshot, status: Status, attempts: nat)

  datatype Profile = Profile(id: nat, reportsEnabled: bool, hasChannel: bool)

  /** Rows in order of creation. */
  type Queue = seq<LateRow>

  predicate Eligible(row: LateRow, profileId: nat) {
    row.profileId == profileId && row.status == Pending && row.attempts < MAX_ATTEMPTS
  }

  /** The positions of the first `take` eligible rows from `from` on. */
  function PageFrom(rows: Queue, profileId: nat, from: nat, take: nat): seq<nat>
    requires from <= |rows|
    decreases |rows| - from
  {
    if from == |rows| || take == 0 then []
    else if Eligible(rows[from], profileId) then [from] + PageFrom(rows, profileId, from + 1, take - 1)
    else PageFrom(rows, profileId, from + 1, take)
  }

  /** A 429 answer carries a retry delay; the post itself never throws. */
  predicate RateLimited(answer: PostResult) {
    answer.Refused? && answer.retryAfterMs.Some? && answer.retryAfterMs.value != 0
  }

  function Attempted(row: LateRow, answer: PostResult): LateRow {
    if row.snapshot.Corrupt? then row.(status := Failed)
    else if answer.Ok? then row.(status := Sent, attempts := row.attempts + 1)
    else row.(status := if row.attempts + 1 >= MAX_ATTEMPTS then Failed else Pending, attempts := row.attempts + 1)
  }

  predicate StopsPage(row: LateRow, answer: PostResult) {
    row.snapshot.Usable? && RateLimited(answer)
  }

  /** Building the card of a bad date throws outside the try block, which ends the tick. */
  function PageDone(rows: Queue, page: seq<nat>, answer: nat -> PostResult): Queue
    requires forall k :: 0 <= k < |page| ==> page[k] < |rows|
    decreases |page|
  {
    if page == [] || rows[page[0]].snapshot.BadDate? then rows
    else
      var i := page[0];
      var rows' := rows[i := Attempted(rows[i], answer(i))];
      if StopsPage(rows[i], answer(i)) then rows' else PageDone(rows', page[1..], answer)
  }

  lemma {:induction false} PageFacts(rows: Queue, profileId: nat, from: nat, take: nat)
    requires from <= |rows|
    ensures var page := PageFrom(rows, profileId, from, take);
            && |page| <= take
            && (forall k :: 0 <= k < |page| ==> from <= page[k] < |rows| && Eligible(rows[page[k]], profileId))
            && (forall j, k :: 0 <= j < k < |page| ==> page[j] < page[k])
            && (take > 0 ==> forall i :: from <= i < |rows| && Eligible(rows[i], profileId) ==>
                page != [] && page[0] <= i)
    decreases |rows| - from
  {
    if from == |rows| || take == 0 {
    } else {
      PageFacts(rows, profileId, from + 1, if Eligible(rows[from], profileId) then take - 1 else take);
    }
  }

  function Ticked(rows: Queue, profileId: nat, answer: nat -> PostResult): Queue {
    PageFacts(rows, profileId, 0, PAGE);
    PageDone(rows, PageFrom(rows, profileId, 0, PAGE), answer)
  }

  function Enqueued(rows: Queue, profileId: nat, reportId: nat): Queue {
    if exists i :: 0 <= i < |rows| && rows[i].reportId == reportId then rows
    else rows + [LateRow(profileId, reportId, Usable, Pending, 0)]
  }

  class LateReportService {
    var rows: Queue

    constructor ()
      ensures rows == []
    {
      rows := [];
    }

    /** The unique delivery key turns a second call for the same report into nothing. */
    method Enqueue(profile: Option<Profile>, reportId: nat)
      modifies this
      ensures rows == if profile == None then old(rows) else Enqueued(old(rows), profile.value.id, reportId)
      ensures rows == if profile == None || (exists i :: 0 <= i < |old(rows)| && old(rows)[i].reportId == reportId)
                      then old(rows)
                      else old(rows) + [LateRow(profile.value.id, reportId, Usable, Pending, 0)]
    {
      if profile == None { return; }
      if exists i :: 0 <= i < |rows| && rows[i].reportId == reportId { return; }
      rows := rows + [LateRow(profile.value.id, reportId, Usable, Pending, 0)];
    }

    method MarkFailed(i: nat)
      requires i < |rows|
      modifies this
      ensures rows == old(rows)[i := old(rows)[i].(status := Failed)]
    {
      rows := rows[i := rows[i].(status := Failed)];
    }

    /** SENT after an accepted post; otherwise one attempt further, and FAILED once they are used up. */
    method RecordAnswer(i: nat, resp: PostResult)
      requires i < |rows|
      modifies this
      ensures var row := old(rows)[i];
              var status := if resp.Ok? then Sent else if row.attempts >= 9 then Failed else Pending;
              rows == old(rows)[i := row.(status := status, attempts := row.attempts + 1)]
    {
      var row := rows[i];
      if resp.Ok? {
        rows := rows[i := row.(status := Sent, attempts := row.attempts + 1)];
      } else {
        var exhausted := row.attempts + 1 >= MAX_ATTEMPTS;
        rows := rows[i := row.(status := if exhausted then Failed else Pending, attempts := row.attempts + 1)];
      }
    }

    method Tick(profile: Option<Profile>, answer: nat -> PostResult)
      modifies this
      ensures rows == if profile.Some? && profile.value.reportsEnabled && profile.value.hasChannel
                      then Ticked(old(rows), profile.value.id, answer) else old(rows)
    {
      if profile == None || !profile.value.reportsEnabled || !profile.value.hasChannel { return; }
      var pending := PageFrom(rows, profile.value.id, 0, PAGE);
      PageFacts(rows, profile.value.id, 0, PAGE);
      var k := 0;
      while k < |pending|
        invariant 0 <= k <= |pending| && |rows| == |old(rows)|
        invariant forall j :: k <= j < |pending| ==> rows[pending[j]] == old(rows)[pending[j]]
        invariant PageDone(old(rows), pending, answer) == PageDone(rows, pending[k..], answer)
      {
        var i := pending[k];
        var row := rows[i];
        assert pending[k..][1..] == pending[k + 1..];
        if row.snapshot.BadDate? { return; }
        k := k + 1;
        if row.snapshot.Corrupt? {
          MarkFailed(i);
          continue;
        }
        var resp := answer(i);
        RecordAnswer(i, resp);
        if !resp.Ok? && RateLimited(resp) { break; }
      }
      assert pending[|pending|..] == [];
    }
  }

  // ---------- what a tick does, row by row ----------

  /** A pending row of the profile with fewer than ten attempts. */
  predicate Waits(row: LateRow, profileId: nat) {
    row.profileId == profileId && row.status == Pending && row.attempts < 10
  }

  function WaitingBefore(rows: Queue, profileId: nat, i: nat): nat
    requires i <= |rows|
  {
    if i == 0 then 0 else WaitingBefore(rows, profileId, i - 1) + if Waits(rows[i - 1], profileId) then 1 else 0
  }

  /** The row is among the twenty oldest waiting ones. */
  predicate OnPage(rows: Queue, profileId: nat, i: nat) {
    i < |rows| && Waits(rows[i], profileId) && WaitingBefore(rows, profileId, i) < 20
  }

  /** Nothing after the row is sent in this tick: its card cannot be built, or its post is answered with a delay. */
  predicate EndsTick(row: LateRow, answer: PostResult) {
    match row.snapshot
    case BadDate => true
    case Corrupt => false
    case Usable => answer.Refused? && answer.retryAfterMs.Some? && answer.retryAfterMs.value != 0
  }

  /** The tick gets to the row and past building its card. */
  predicate Handled(rows: Queue, profileId: nat, answer: nat -> PostResult, i: nat) {
    && OnPage(rows, profileId, i) && !rows[i].snapshot.BadDate?
    && forall j: nat :: j < i && OnPage(rows, profileId, j) ==> !EndsTick(rows[j], answer(j))
  }

  /** What a handled row becomes: unreadable, sent, or one attempt further, the tenth failure being the last. */
  function Outcome(row: LateRow, answer: PostResult): LateRow {
    if row.snapshot.Corrupt? then LateRow(row.profileId, row.reportId, Corrupt, Failed, row.attempts)
    else
      var status := if answer.Ok? then Sent else if row.attempts >= 9 then Failed else Pending;
      LateRow(row.profileId, row.reportId, row.snapshot, status, row.attempts + 1)
  }

  lemma {:induction false} WaitingGrows(rows: Queue, profileId: nat, i: nat, j: nat)
    requires i <= j <= |rows|
    ensures WaitingBefore(rows, profileId, i) <= WaitingBefore(rows, profileId, j)
    decreases j
  {
    if i < j { WaitingGrows(rows, profileId, i, j - 1); }
  }

  /** The page holds exactly the oldest waiting rows. */
  lemma {:induction false} PageIs(rows: Queue, profileId: nat, from: nat, take: nat, i: nat)
    requires from <= |rows|
    ensures i in PageFrom(rows, profileId, from, take)
       <==> && from <= i < |rows| && Waits(rows[i], profileId)
            && WaitingBefore(rows, profileId, i) - WaitingBefore(rows, profileId, from) < take
    decreases |rows| - from
  {
    if from < i <= |rows| { WaitingGrows(rows, profileId, from + 1, i); }
    if from == |rows| || take == 0 {
      if from <= i <= |rows| { WaitingGrows(rows, profileId, from, i); }
    } else if Eligible(rows[from], profileId) {
      PageIs(rows, profileId, from + 1, take - 1, i);
    } else {
      PageIs(rows, profileId, from + 1, take, i);
    }
  }

  /** The rows of an ascending page up to the first that ends the tick are handled, and no other row is written. */
  lemma {:induction false} PageHandles(rows: Queue, page: seq<nat>, answer: nat -> PostResult, i: nat)
    requires i < |rows| && forall k :: 0 <= k < |page| ==> page[k] < |rows|
    requires forall j, k :: 0 <= j < k < |page| ==> page[j] < page[k]
    ensures |PageDone(rows, page, answer)| == |rows|
    ensures var reached := && i in page && !rows[i].snapshot.BadDate?
                           && forall k :: 0 <= k < |page| && page[k] < i ==> !EndsTick(rows[page[k]], answer(page[k]));
            PageDone(rows, page, answer)[i] == if reached then Outcome(rows[i], answer(i)) else rows[i]
    decreases |page|
  {
    if page == [] || rows[page[0]].snapshot.BadDate? {
    } else {
      var rest, rows' := page[1..], rows[page[0] := Attempted(rows[page[0]], answer(page[0]))];
      assert i in page <==> i == page[0] || i in rest;
      assert forall k :: 0 <= k < |rest| ==> rest[k] == page[k + 1] > page[0];
      if !EndsTick(rows[page[0]], answer(page[0])) {
        PageHandles(rows', rest, answer, i);
      }
    }
  }

  /**
   * A tick writes exactly the twenty oldest waiting rows, up to the first whose card cannot be built or whose post is
   * answered with a delay, and each becomes what its answer says.
   */
  lemma TickHandlesExactly(rows: Queue, profileId: nat, answer: nat -> PostResult, i: nat)
    requires i < |rows|
    ensures |Ticked(rows, profileId, answer)| == |rows|
    ensures Ticked(rows, profileId, answer)[i]
         == if Handled(rows, profileId, answer, i) then Outcome(rows[i], answer(i)) else rows[i]
  {
    var page := PageFrom(rows, profileId, 0, PAGE);
    PageFacts(rows, profileId, 0, PAGE);
    PageHandles(rows, page, answer, i);
    forall j: nat ensures j in page <==> OnPage(rows, profileId, j) { PageIs(rows, profileId, 0, PAGE, j); }
    assert forall k :: 0 <= k < |page| ==> page[k] in page;
  }

  // ---------- what a tick keeps ----------

  /** No pending row has run out of attempts, so none is left behind by the page query. */
  ghost predicate NoneStranded(rows: Queue) {
    forall i :: 0 <= i < |rows| && rows[i].status == Pending ==> rows[i].attempts < MAX_ATTEMPTS
  }

  /** No eligible row before the position carries a date its card cannot be built from. */
  ghost predicate Unblocked(rows: Queue, profileId: nat, upTo: nat) {
    forall i :: 0 <= i < |rows| && i < upTo && Eligible(rows[i], profileId) ==> !rows[i].snapshot.BadDate?
  }

  /** A finished row is never written again. */
  ghost predicate Settles(before: Queue, after: Queue) {
    && |before| <= |after|
    && forall i :: 0 <= i < |before| ==>
         && after[i].profileId == before[i].profileId && after[i].snapshot == before[i].snapshot
         && (before[i].status != Pending ==> after[i] == before[i])
  }

  /** How many attempts the row can still use. */
  function Budget(row: LateRow, profileId: nat): nat {
    if Eligible(row, profileId) then MAX_ATTEMPTS - row.attempts else 0
  }

  function TotalBudget(rows: Queue, profileId: nat): nat {
    if rows == [] then 0 else TotalBudget(rows[..|rows| - 1], profileId) + Budget(rows[|rows| - 1], profileId)
  }

  lemma {:induction false} BudgetAt(rows: Queue, profileId: nat, i: nat, row: LateRow)
    requires i < |rows|
    ensures TotalBudget(rows[i := row], profileId)
              == TotalBudget(rows, profileId) - Budget(rows[i], profileId) + Budget(row, profileId)
  {
    var init := rows[..|rows| - 1];
    if i == |rows| - 1 {
      assert rows[i := row][..i] == init;
    } else {
      assert rows[i := row][..|rows| - 1] == init[i := row];
      BudgetAt(init, profileId, i, row);
    }
  }

  /** The rest of a page: what is finished stays, budgets of every prefix only shrink. */
  lemma {:induction false} PageKeeps(rows: Queue, page: seq<nat>, answer: nat -> PostResult, profileId: nat, upTo: nat)
    requires upTo <= |rows| && NoneStranded(rows)
    requires forall k :: 0 <= k < |page| ==> page[k] < |rows| && Eligible(rows[page[k]], profileId)
    requires forall j, k :: 0 <= j < k < |page| ==> page[j] < page[k]
    ensures var after := PageDone(rows, page, answer);
            && |after| == |rows| && Settles(rows, after) && NoneStranded(after)
            && TotalBudget(after[..upTo], profileId)
                 + (if page != [] && page[0] < upTo && !rows[page[0]].snapshot.BadDate? then 1 else 0)
               <= TotalBudget(rows[..upTo], profileId)
    decreases |page|
  {
    if page == [] || rows[page[0]].snapshot.BadDate? {
    } else {
      var i := page[0];
      var row' := Attempted(rows[i], answer(i));
      var rows' := rows[i := row'];
      if i < upTo {
        assert rows'[..upTo] == rows[..upTo][i := row'];
        BudgetAt(rows[..upTo], profileId, i, row');
      } else {
        assert rows'[..upTo] == rows[..upTo];
      }
      assert Settles(rows, rows') && NoneStranded(rows');
      if !StopsPage(rows[i], answer(i)) {
        PageKeeps(rows', page[1..], answer, profileId, upTo);
      }
    }
  }

  lemma TickKeeps(rows: Queue, profileId: nat, answer: nat -> PostResult, upTo: nat)
    requires upTo <= |rows| && NoneStranded(rows)
    ensures var after := Ticked(rows, profileId, answer);
            && |after| == |rows| && Settles(rows, after) && NoneStranded(after)
            && TotalBudget(after[..upTo], profileId) <= TotalBudget(rows[..upTo], profileId)
            && (Unblocked(rows, profileId, upTo) && (exists i :: 0 <= i < upTo && Eligible(rows[i], profileId)) ==>
                  TotalBudget(after[..upTo], profileId) < TotalBudget(rows[..upTo], profileId))
  {
    PageFacts(rows, profileId, 0, PAGE);
    PageKeeps(rows, PageFrom(rows, profileId, 0, PAGE), answer, profileId, upTo);
  }

  // ---------- the queue drains ----------

  datatype Op = Tick(answer: nat -> PostResult) | Enqueue(reportId: nat)

  function Applied(rows: Queue, profileId: nat, op: Op): Queue {
    match op
    case Tick(answer) => Ticked(rows, profileId, answer)
    case Enqueue(reportId) => Enqueued(rows, profileId, reportId)
  }

  function Run(rows: Queue, profileId: nat, ops: seq<Op>): Queue {
    if ops == [] then rows
    else
      Applied(Run(rows, profileId, ops[..|ops| - 1]), profileId, ops[|ops| - 1])
  }

  function Ticks(ops: seq<Op>): nat {
    if ops == [] then 0 else Ticks(ops[..|ops| - 1]) + if ops[|ops| - 1].Tick? then 1 else 0
  }

  /** One operation: what is finished stays, nothing gets blocked, and a tick with work left uses some of it up. */
  lemma OpKeeps(rows: Queue, profileId: nat, op: Op, upTo: nat)
    requires upTo <= |rows| && NoneStranded(rows) && Unblocked(rows, profileId, upTo)
    ensures var after := Applied(rows, profileId, op);
            && Settles(rows, after) && NoneStranded(after) && Unblocked(after, profileId, upTo)
            && TotalBudget(after[..upTo], profileId) <= TotalBudget(rows[..upTo], profileId)
            && (forall i :: 0 <= i < upTo && Eligible(after[i], profileId) ==> Eligible(rows[i], profileId))
            && (op.Tick? && (exists i :: 0 <= i < upTo && Eligible(rows[i], profileId)) ==>
                  TotalBudget(after[..upTo], profileId) < TotalBudget(rows[..upTo], profileId))
  {
    match op
    case Tick(answer) =>
      TickKeeps(rows, profileId, answer, upTo);
    case Enqueue(reportId) =>
      assert Enqueued(rows, profileId, reportId)[..upTo] == rows[..upTo];
  }

  lemma {:induction false} RunKeeps(rows: Queue, profileId: nat, ops: seq<Op>, upTo: nat)
    requires upTo <= |rows| && NoneStranded(rows) && Unblocked(rows, profileId, upTo)
    ensures var after := Run(rows, profileId, ops);
            && Settles(rows, after) && NoneStranded(after) && Unblocked(after, profileId, upTo)
            && (TotalBudget(after[..upTo], profileId) + Ticks(ops) <= TotalBudget(rows[..upTo], profileId)
                || forall i :: 0 <= i < upTo ==> !Eligible(after[i], profileId))
  {
    if ops == [] {
    } else {
      var before := Run(rows, profileId, ops[..|ops| - 1]);
      RunKeeps(rows, profileId, ops[..|ops| - 1], upTo);
      OpKeeps(before, profileId, ops[|ops| - 1], upTo);
    }
  }

  lemma {:induction false} NobodyLeft(rows: Queue, profileId: nat)
    requires TotalBudget(rows, profileId) == 0
    ensures forall i :: 0 <= i < |rows| ==> !Eligible(rows[i], profileId)
  {
    if rows == [] {
    } else {
      NobodyLeft(rows[..|rows| - 1], profileId);
    }
  }

  lemma {:induction false} BudgetBound(rows: Queue, profileId: nat)
    ensures TotalBudget(rows, profileId) <= MAX_ATTEMPTS * |rows|
  {
    if rows == [] {
    } else {
      BudgetBound(rows[..|rows| - 1], profileId);
    }
  }

  // ---------- a date that cannot be printed blocks the queue ----------

  lemma {:induction false} PageHas(rows: Queue, profileId: nat, from: nat, take: nat, j: nat, k: nat)
    requires from <= j < |rows| && Eligible(rows[j], profileId)
    requires k < |PageFrom(rows, profileId, from, take)| && PageFrom(rows, profileId, from, take)[k] > j
    ensures j in PageFrom(rows, profileId, from, take)[..k]
    decreases j - from
  {
    var page := PageFrom(rows, profileId, from, take);
    if Eligible(rows[from], profileId) {
      assert page[..k][0] == from;
      if j == from {
      } else {
        PageHas(rows, profileId, from + 1, take - 1, j, k - 1);
        assert page[..k] == [from] + page[1..][..k - 1];
      }
    } else {
      PageHas(rows, profileId, from + 1, take, j, k);
    }
  }

  /** A page that meets the row only before anything later leaves that row and all later ones as they are. */
  lemma {:induction false} BlockedPage(rows: Queue, page: seq<nat>, answer: nat -> PostResult, j: nat)
    requires j < |rows| && rows[j].snapshot.BadDate? && forall k :: 0 <= k < |page| ==> page[k] < |rows|
    requires forall k :: 0 <= k < |page| && page[k] > j ==> j in page[..k]
    ensures |PageDone(rows, page, answer)| == |rows|
    ensures forall i :: j <= i < |rows| ==> PageDone(rows, page, answer)[i] == rows[i]
    decreases |page|
  {
    if page == [] || rows[page[0]].snapshot.BadDate? {
    } else {
      var i := page[0];
      assert j !in page[..0];
      if StopsPage(rows[i], answer(i)) {
      } else {
        forall k | 0 <= k < |page[1..]| && page[1..][k] > j ensures j in page[1..][..k] {
          assert page[..k + 1] == [i] + page[1..][..k];
        }
        BlockedPage(rows[i := Attempted(rows[i], answer(i))], page[1..], answer, j);
      }
    }
  }

  /** From such a row on, no tick changes anything any more. */
  lemma {:induction false} BlockedStays(rows: Queue, profileId: nat, ops: seq<Op>, j: nat)
    requires j < |rows| && rows[j].snapshot.BadDate? && Eligible(rows[j], profileId)
    ensures |rows| <= |Run(rows, profileId, ops)| && forall i :: j <= i < |rows| ==>
              Run(rows, profileId, ops)[i] == rows[i]
  {
    if ops == [] {
    } else {
      var before := Run(rows, profileId, ops[..|ops| - 1]);
      BlockedStays(rows, profileId, ops[..|ops| - 1], j);
      match ops[|ops| - 1]
      case Enqueue(_) =>
      case Tick(answer) =>
        var page := PageFrom(before, profileId, 0, PAGE);
        PageFacts(before, profileId, 0, PAGE);
        forall k | 0 <= k < |page| && page[k] > j ensures j in page[..k] { PageHas(before, profileId, 0, PAGE, j, k); }
        BlockedPage(before, page, answer, j);
    }
  }

  /** Enqueueing stores only dates it printed itself, so a queue that it alone filled is never blocked. */
  lemma {:induction false} EnqueuedNeverBlocks(profileId: nat, ops: seq<Op>)
    ensures forall i :: 0 <= i < |Run([], profileId, ops)| ==> Run([], profileId, ops)[i].snapshot == Usable
  {
    if ops == [] {
    } else {
      EnqueuedNeverBlocks(profileId, ops[..|ops| - 1]);
      match ops[|ops| - 1]
      case Enqueue(_) =>
      case Tick(answer) => TickSnapshots(Run([], profileId, ops[..|ops| - 1]), profileId, answer);
    }
  }

  /** No two rows are for the same report. */
  ghost predicate OneRowPerReport(rows: Queue) {
    forall i, j :: 0 <= i < j < |rows| ==> rows[i].reportId != rows[j].reportId
  }

  /** In every run from the empty queue a report has one row, however often it is enqueued and whatever is sent. */
  lemma {:induction false} ReportsStayDistinct(profileId: nat, ops: seq<Op>)
    ensures OneRowPerReport(Run([], profileId, ops))
  {
    if ops == [] {
    } else {
      var before := Run([], profileId, ops[..|ops| - 1]);
      ReportsStayDistinct(profileId, ops[..|ops| - 1]);
      match ops[|ops| - 1]
      case Enqueue(_) =>
      case Tick(answer) => TickSnapshots(before, profileId, answer);
    }
  }

  /** Whatever is sent in between, a report has a row exactly when it was enqueued. */
  lemma {:induction false} EnqueuedExactly(profileId: nat, ops: seq<Op>, reportId: nat)
    ensures (exists row :: row in Run([], profileId, ops) && row.reportId == reportId) <==> Enqueue(reportId) in ops
  {
    if ops == [] {
    } else {
      var init, last := ops[..|ops| - 1], ops[|ops| - 1];
      var before, after := Run([], profileId, init), Run([], profileId, ops);
      EnqueuedExactly(profileId, init, reportId);
      assert ops == init + [last];
      match last
      case Enqueue(r) =>
        if row :| row in before && row.reportId == reportId { assert row in after; }
        if row :| row in after && row.reportId == reportId { assert row in before || r == reportId; }
        assert exists row :: row in after && row.reportId == r;
      case Tick(answer) =>
        TickSnapshots(before, profileId, answer);
        SameReports(before, after, reportId);
    }
  }

  lemma SameReports(before: Queue, after: Queue, reportId: nat)
    requires |before| == |after| && forall i :: 0 <= i < |before| ==> after[i].reportId == before[i].reportId
    ensures (exists row :: row in before && row.reportId == reportId)
       <==> (exists row :: row in after && row.reportId == reportId)
  {
    if row :| row in before && row.reportId == reportId {
      var i :| 0 <= i < |before| && before[i] == row;
      assert after[i] in after;
    }
    if row :| row in after && row.reportId == reportId {
      var i :| 0 <= i < |after| && after[i] == row;
      assert before[i] in before;
    }
  }

  lemma TickSnapshots(rows: Queue, profileId: nat, answer: nat -> PostResult)
    ensures var after := Ticked(rows, profileId, answer);
            && |after| == |rows|
            && forall i :: 0 <= i < |rows| ==>
                 after[i].snapshot == rows[i].snapshot && after[i].reportId == rows[i].reportId
  {
    PageFacts(rows, profileId, 0, PAGE);
    PageSnapshots(rows, PageFrom(rows, profileId, 0, PAGE), answer);
  }

  lemma {:induction false} PageSnapshots(rows: Queue, page: seq<nat>, answer: nat -> PostResult)
    requires forall k :: 0 <= k < |page| ==> page[k] < |rows|
    ensures var after := PageDone(rows, page, answer);
            && |after| == |rows|
            && forall i :: 0 <= i < |rows| ==>
                 after[i].snapshot == rows[i].snapshot && after[i].reportId == rows[i].reportId
    decreases |page|
  {
    if page == [] || rows[page[0]].snapshot.BadDate? {
    } else {
      PageSnapshots(rows[page[0] := Attempted(rows[page[0]], answer(page[0]))], page[1..], answer);
    }
  }

  // ---------- when reports settle ----------

  /**
   * After ten ticks for itself and each row created before it, a report is settled, SENT or FAILED, exactly when
   * it was already or no row up to it blocks the queue: rate limits, the page size, answers and reports that arrive
   * later cannot hold it up any longer.
   */
  lemma ReportsSettle(rows: Queue, profileId: nat, ops: seq<Op>, i: nat)
    requires NoneStranded(rows) && i < |rows| && rows[i].profileId == profileId
    requires Ticks(ops) >= MAX_ATTEMPTS * (i + 1)
    ensures var after := Run(rows, profileId, ops);
            && i < |after|
            && (after[i].status != Pending <==> rows[i].status != Pending || Unblocked(rows, profileId, i + 1))
            && (rows[i].status != Pending ==> after[i] == rows[i])
  {
    RunKeeps(rows, profileId, ops, 0);
    if Unblocked(rows, profileId, i + 1) {
      UnblockedSettles(rows, profileId, ops, i);
    } else {
      var j :| 0 <= j < |rows| && j < i + 1 && Eligible(rows[j], profileId) && rows[j].snapshot.BadDate?;
      BlockedStays(rows, profileId, ops, j);
    }
  }

  lemma UnblockedSettles(rows: Queue, profileId: nat, ops: seq<Op>, i: nat)
    requires NoneStranded(rows) && i < |rows| && rows[i].profileId == profileId && Unblocked(rows, profileId, i + 1)
    requires Ticks(ops) >= MAX_ATTEMPTS * (i + 1)
    ensures i < |Run(rows, profileId, ops)| && Run(rows, profileId, ops)[i].status != Pending
  {
    RunKeeps(rows, profileId, ops, i + 1);
    BudgetBound(rows[..i + 1], profileId);
    var after := Run(rows, profileId, ops);
    if TotalBudget(after[..i + 1], profileId) == 0 {
      NobodyLeft(after[..i + 1], profileId);
      assert after[..i + 1][i] == after[i];
    }
  }

  /** Ten ticks per row settle all rows of the profile exactly when none of them blocks the queue. */
  lemma QueueDrains(rows: Queue, profileId: nat, ops: seq<Op>)
    requires NoneStranded(rows)
    requires Ticks(ops) >= MAX_ATTEMPTS * |rows|
    ensures var after := Run(rows, profileId, ops);
            && |rows| <= |after|
            && ((forall i :: 0 <= i < |rows| && rows[i].profileId == profileId ==> after[i].status != Pending)
                <==> Unblocked(rows, profileId, |rows|))
  {
    RunKeeps(rows, profileId, ops, 0);
    forall i | 0 <= i < |rows| && rows[i].profileId == profileId
      ensures Run(rows, profileId, ops)[i].status != Pending
         <==> rows[i].status != Pending || Unblocked(rows, profileId, i + 1)
    {
      ReportsSettle(rows, profileId, ops, i);
    }
    if !Unblocked(rows, profileId, |rows|) {
      var j :| 0 <= j < |rows| && Eligible(rows[j], profileId) && rows[j].snapshot.BadDate?;
      assert !Unblocked(rows, profileId, j + 1);
    }
  }
}
