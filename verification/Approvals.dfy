/** The approval store: requests gather reviews of distinct accounts up to a threshold and are
    consumed once. Each operation is one update of the stored list; times are milliseconds. */
module Approvals {
  import opened Collections
  import opened Wrappers

  datatype Decision = Approve | Reject

  datatype Review = Review(reviewedBy: string, decision: Decision)

  datatype Status = Pending | Approved | Rejected | Used

  /** Counts are absent in records of earlier versions. */
  datatype Record = Record(
    id: string, action: string, target: string, requestedBy: string, status: Status,
    requiredApprovals: Option<nat>, approvedCount: Option<nat>, reviews: seq<Review>,
    expiresAt: int, consumedBy: Option<string>)

  datatype Error =
    | NotFound | Mismatch | NotApproved | TooFewApprovals | PolicyNeedsMore | Expired | NotPending | AlreadyReviewed

  datatype Outcome = Ok(approvals: seq<Record>) | Failed(error: Error)

  const MAX_RECORDS: nat := 1000

  function ReadRequired(r: Record): nat { if r.requiredApprovals.Some? then r.requiredApprovals.value else 1 }

  function ReadCount(r: Record): nat {
    if r.approvedCount.Some? then r.approvedCount.value
    else if r.status.Approved? then ReadRequired(r) else 0
  }

  /** The status clients see. */
  datatype PublicStatus = Shown(status: Status) | ShownExpired

  function ToApproval(r: Record, now: int): PublicStatus {
    if IsExpired(r, now) && (r.status.Pending? || r.status.Approved?) then ShownExpired else Shown(r.status)
  }

  predicate IsExpired(r: Record, now: int) { r.expiresAt <= now }

  /** The index of the first record with this id, or the length. */
  function IndexOf(approvals: seq<Record>, id: string): (i: nat)
    ensures i <= |approvals| && (i < |approvals| ==> approvals[i].id == id)
    ensures forall j :: 0 <= j < i ==> approvals[j].id != id
  {
    if approvals == [] || approvals[0].id == id then 0 else 1 + IndexOf(approvals[1..], id)
  }

  function ReplaceAt(items: seq<Record>, index: nat, item: Record): seq<Record>
    requires index < |items|
  {
    items[..index] + [item] + items[index + 1..]
  }

  function ApprovalCount(reviews: seq<Review>): nat {
    if reviews == [] then 0
    else ApprovalCount(reviews[..|reviews| - 1]) + if reviews[|reviews| - 1].decision.Approve? then 1 else 0
  }

  function Request(approvals: seq<Record>, id: string, action: string, target: string, required: nat,
      actor: string, expiresAt: int): seq<Record> {
    Last(approvals + [Record(id, action, target, actor, Pending, Some(required), Some(0), [], expiresAt, None)],
        MAX_RECORDS)
  }

  function Reviewed(r: Record, actor: string, decision: Decision): Record {
    var reviews := r.reviews + [Review(actor, decision)];
    var count := ApprovalCount(reviews);
    var status := if decision.Reject? then Rejected else if count >= ReadRequired(r) then Approved else Pending;
    r.(requiredApprovals := Some(ReadRequired(r)), approvedCount := Some(count), reviews := reviews, status := status)
  }

  predicate HasReviewed(r: Record, actor: string) { exists v <- r.reviews :: v.reviewedBy == actor }

  function ReviewOutcome(approvals: seq<Record>, id: string, actor: string, decision: Decision, now: int): Outcome {
    var i := IndexOf(approvals, id);
    if i == |approvals| then Failed(NotFound)
    else if !approvals[i].status.Pending? then Failed(NotPending)
    else if IsExpired(approvals[i], now) then Failed(Expired)
    else if HasReviewed(approvals[i], actor) then Failed(AlreadyReviewed)
    else Ok(ReplaceAt(approvals, i, Reviewed(approvals[i], actor, decision)))
  }

  function ConsumeOutcome(approvals: seq<Record>, id: string, action: string, target: string, actor: string,
      minimum: nat, now: int): Outcome {
    var i := IndexOf(approvals, id);
    if i == |approvals| then Failed(NotFound)
    else
      var r := approvals[i];
      if r.action != action || r.target != target then Failed(Mismatch)
      else if !r.status.Approved? then Failed(NotApproved)
      else if ReadCount(r) < ReadRequired(r) then Failed(TooFewApprovals)
      else if minimum != 0 && ReadCount(r) < minimum then Failed(PolicyNeedsMore)
      else if IsExpired(r, now) then Failed(Expired)
      else Ok(ReplaceAt(approvals, i, r.(status := Used, consumedBy := Some(actor))))
  }

  class ApprovalStore {
    var approvals: seq<Record>

    constructor ()
      ensures approvals == []
    {
      approvals := [];
    }

    /** `id` is freshly generated. */
    method RequestApproval(id: string, action: string, target: string, required: nat, actor: string,
        expiresInMinutes: nat, now: int)
      modifies this
      ensures approvals == Request(old(approvals), id, action, target, required, actor, now + expiresInMinutes * 60000)
    {
      var record := Record(id, action, target, actor, Pending, Some(required), Some(0), [],
          now + expiresInMinutes * 60000, None);
      approvals := Last(approvals + [record], MAX_RECORDS);
    }

    method AddReview(id: string, actor: string, decision: Decision, now: int) returns (error: Option<Error>)
      modifies this
      ensures match ReviewOutcome(old(approvals), id, actor, decision, now)
        case Ok(updated) => error == None && approvals == updated
        case Failed(e) => error == Some(e) && approvals == old(approvals)
    {
      var index := IndexOf(approvals, id);
      if index == |approvals| {
        return Some(NotFound);
      }
      var current := approvals[index];
      if current.status != Pending {
        return Some(NotPending);
      }
      if IsExpired(current, now) {
        return Some(Expired);
      }
      if HasReviewed(current, actor) {
        return Some(AlreadyReviewed);
      }
      var reviews := current.reviews + [Review(actor, decision)];
      var approvedCount := CountApprovals(reviews);
      var finalStatus :=
        if decision == Reject then Rejected else if approvedCount >= ReadRequired(current) then Approved else Pending;
      var reviewed := current.(requiredApprovals := Some(ReadRequired(current)), approvedCount := Some(approvedCount),
        reviews := reviews, status := finalStatus);
      approvals := ReplaceAt(approvals, index, reviewed);
      error := None;
    }

    static method CountApprovals(reviews: seq<Review>) returns (count: nat)
      ensures count == ApprovalCount(reviews)
    {
      count := 0;
      for i := 0 to |reviews|
        invariant count == ApprovalCount(reviews[..i])
      {
        assert reviews[..i + 1][..i] == reviews[..i];
        if reviews[i].decision == Approve {
          count := count + 1;
        }
      }
      assert reviews[..|reviews|] == reviews;
    }

    method Consume(id: string, action: string, target: string, actor: string, minimum: nat, now: int)
      returns (error: Option<Error>)
      modifies this
      ensures match ConsumeOutcome(old(approvals), id, action, target, actor, minimum, now)
        case Ok(updated) => error == None && approvals == updated
        case Failed(e) => error == Some(e) && approvals == old(approvals)
    {
      var index := IndexOf(approvals, id);
      if index == |approvals| {
        return Some(NotFound);
      }
      var current := approvals[index];
      if current.action != action || current.target != target {
        return Some(Mismatch);
      }
      if current.status != Approved {
        return Some(NotApproved);
      }
      if ReadCount(current) < ReadRequired(current) {
        return Some(TooFewApprovals);
      }
      if minimum != 0 && ReadCount(current) < minimum {
        return Some(PolicyNeedsMore);
      }
      if IsExpired(current, now) {
        return Some(Expired);
      }
      approvals := ReplaceAt(approvals, index, current.(status := Used, consumedBy := Some(actor)));
      error := None;
    }
  }

  // ---------------------------------------------------------------- runs

  datatype Step =
    | DoRequest(id: string, action: string, target: string, required: nat, actor: string, expiresAt: int)
    | DoReview(id: string, actor: string, decision: Decision, now: int)
    | DoConsume(id: string, action: string, target: string, actor: string, minimum: nat, now: int)

  /** The list, every id ever issued, and the ids of the successful consumptions in order. */
  datatype History = History(approvals: seq<Record>, issued: set<string>, consumed: seq<string>)

  /** Thresholds are at least one, and generated ids are fresh. */
  predicate Allowed(h: History, step: Step) {
    step.DoRequest? ==> step.id !in h.issued && 1 <= step.required
  }

  function Apply(h: History, step: Step): History {
    match step
    case DoRequest(id, action, target, required, actor, expiresAt) =>
      History(Request(h.approvals, id, action, target, required, actor, expiresAt), h.issued + {id}, h.consumed)
    case DoReview(id, actor, decision, now) =>
      (match ReviewOutcome(h.approvals, id, actor, decision, now)
       case Ok(updated) => h.(approvals := updated)
       case Failed(_) => h)
    case DoConsume(id, action, target, actor, minimum, now) =>
      (match ConsumeOutcome(h.approvals, id, action, target, actor, minimum, now)
       case Ok(updated) => h.(approvals := updated, consumed := h.consumed + [id])
       case Failed(_) => h)
  }

  function Run(h: History, steps: seq<Step>): History
    decreases |steps|
  {
    if steps == [] then h else Run(Apply(h, steps[0]), steps[1..])
  }

  predicate RunAllowed(h: History, steps: seq<Step>)
    decreases |steps|
  {
    steps == [] || (Allowed(h, steps[0]) && RunAllowed(Apply(h, steps[0]), steps[1..]))
  }

  function Reviewers(reviews: seq<Review>): set<string> { set v <- reviews :: v.reviewedBy }

  /** What is true of every record: reviewers are distinct, the count is the number of approvals, and
      the status says how the reviews stand to the threshold. */
  predicate Sound(r: Record) {
    && (forall i, j :: 0 <= i < j < |r.reviews| ==> r.reviews[i].reviewedBy != r.reviews[j].reviewedBy)
    && r.approvedCount == Some(ApprovalCount(r.reviews)) && 1 <= ReadRequired(r)
    && match r.status
       case Pending => ApprovalCount(r.reviews) == |r.reviews| < ReadRequired(r)
       case Rejected => ApprovalCount(r.reviews) == |r.reviews| - 1 < ReadRequired(r)
       case _ => ApprovalCount(r.reviews) == |r.reviews| == ReadRequired(r)
  }

  predicate DistinctIds(approvals: seq<Record>) {
    forall i, j :: 0 <= i < j < |approvals| ==> approvals[i].id != approvals[j].id
  }

  /** Every record is sound, has an issued id, and is used exactly when that id was consumed. */
  predicate Accounted(approvals: seq<Record>, issued: set<string>, consumed: seq<string>) {
    forall r <- approvals :: Sound(r) && r.id in issued && (r.status.Used? <==> r.id in consumed)
  }

  predicate ConsumedOnce(issued: set<string>, consumed: seq<string>) {
    && (forall i, j :: 0 <= i < j < |consumed| ==> consumed[i] != consumed[j])
    && (forall id <- consumed :: id in issued)
  }

  predicate Valid(h: History) {
    && DistinctIds(h.approvals) && |h.approvals| <= MAX_RECORDS
    && Accounted(h.approvals, h.issued, h.consumed)
    && ConsumedOnce(h.issued, h.consumed)
  }

  lemma ReviewSound(r: Record, actor: string, decision: Decision)
    requires Sound(r) && r.status.Pending? && !HasReviewed(r, actor)
    ensures Sound(Reviewed(r, actor, decision))
  {
    var reviews := r.reviews + [Review(actor, decision)];
    assert reviews[..|reviews| - 1] == r.reviews;
  }

  lemma ReplaceDistinct(approvals: seq<Record>, i: nat, r: Record)
    requires DistinctIds(approvals) && i < |approvals| && r.id == approvals[i].id
    ensures DistinctIds(ReplaceAt(approvals, i, r))
    ensures forall q <- ReplaceAt(approvals, i, r) :: q == r || (q in approvals && q.id != r.id)
  {
    var updated := ReplaceAt(approvals, i, r);
    assert |updated| == |approvals| && forall j :: 0 <= j < |updated| ==>
        updated[j] == if j == i then r else approvals[j];
  }

  /** Replacing one record by a sound successor, consumed now or not. */
  lemma ReplaceValid(h: History, i: nat, r: Record, consumes: bool)
    requires Valid(h) && i < |h.approvals| && Sound(r) && r.id == h.approvals[i].id
    requires !h.approvals[i].status.Used? && (r.status.Used? <==> consumes)
    ensures Valid(h.(approvals := ReplaceAt(h.approvals, i, r),
        consumed := if consumes then h.consumed + [r.id] else h.consumed))
  {
    ReplaceDistinct(h.approvals, i, r);
    assert h.approvals[i] in h.approvals;
    ConsumeOnce(h.issued, h.consumed, r.id);
  }

  lemma ConsumeOnce(issued: set<string>, consumed: seq<string>, id: string)
    requires ConsumedOnce(issued, consumed) && id in issued && id !in consumed
    ensures ConsumedOnce(issued, consumed + [id])
  {
  }

  lemma RequestValid(h: History, r: Record)
    requires Valid(h) && r.id !in h.issued && Sound(r) && r.status.Pending?
    ensures Valid(History(Last(h.approvals + [r], MAX_RECORDS), h.issued + {r.id}, h.consumed))
  {
    var all := h.approvals + [r];
    AppendDistinct(h.approvals, r);
    assert Accounted(all, h.issued + {r.id}, h.consumed);
    LastKeeps(all, MAX_RECORDS);
  }

  lemma AppendDistinct(approvals: seq<Record>, r: Record)
    requires DistinctIds(approvals) && forall q <- approvals :: q.id != r.id
    ensures DistinctIds(approvals + [r])
  {
  }

  /** Dropping the oldest records. */
  lemma LastKeeps(all: seq<Record>, n: nat)
    requires DistinctIds(all)
    ensures DistinctIds(Last(all, n)) && |Last(all, n)| <= n && forall r <- Last(all, n) :: r in all
  {
    var kept := Last(all, n);
    assert forall i :: 0 <= i < |kept| ==> kept[i] == all[i + (|all| - |kept|)];
  }

  lemma ReviewValid(h: History, id: string, actor: string, decision: Decision, now: int)
    requires Valid(h)
    ensures Valid(Apply(h, DoReview(id, actor, decision, now)))
  {
    var i := IndexOf(h.approvals, id);
    if ReviewOutcome(h.approvals, id, actor, decision, now).Ok? {
      ReviewSound(h.approvals[i], actor, decision);
      ReplaceValid(h, i, Reviewed(h.approvals[i], actor, decision), false);
    }
  }

  lemma ConsumeValid(h: History, step: Step)
    requires Valid(h) && step.DoConsume?
    ensures Valid(Apply(h, step))
  {
    var i := IndexOf(h.approvals, step.id);
    if ConsumeOutcome(h.approvals, step.id, step.action, step.target, step.actor, step.minimum, step.now).Ok? {
      ReplaceValid(h, i, h.approvals[i].(status := Used, consumedBy := Some(step.actor)), true);
    }
  }

  /** One step keeps everything `Valid` says: distinct ids and reviewers, exact counts, and each id
      consumed at most once, exactly by the record that is now used. */
  lemma StepValid(h: History, step: Step)
    requires Valid(h) && Allowed(h, step)
    ensures Valid(Apply(h, step))
  {
    match step
    case DoRequest(id, action, target, required, actor, expiresAt) =>
      RequestValid(h, Record(id, action, target, actor, Pending, Some(required), Some(0), [], expiresAt, None));
    case DoReview(id, actor, decision, now) =>
      ReviewValid(h, id, actor, decision, now);
    case DoConsume(_, _, _, _, _, _) =>
      ConsumeValid(h, step);
  }

  lemma {:induction false} RunValid(h: History, steps: seq<Step>)
    requires Valid(h) && RunAllowed(h, steps)
    ensures Valid(Run(h, steps))
    decreases |steps|
  {
    if steps != [] {
      StepValid(h, steps[0]);
      RunValid(Apply(h, steps[0]), steps[1..]);
    }
  }

  /** Whatever happens to a store that started empty, the invariant holds. */
  lemma EveryRun(steps: seq<Step>)
    requires RunAllowed(History([], {}, []), steps)
    ensures Valid(Run(History([], {}, []), steps))
  {
    RunValid(History([], {}, []), steps);
  }

  predicate Terminal(r: Record) { r.status.Rejected? || r.status.Used? }

  /** Rejected and used are final: such a record is never changed again, only dropped by the size limit. */
  lemma {:induction false} TerminalStays(h: History, steps: seq<Step>, r: Record)
    requires Valid(h) && RunAllowed(h, steps) && Terminal(r) && r.id in h.issued
    requires forall q <- h.approvals :: q.id == r.id ==> q == r
    ensures forall q <- Run(h, steps).approvals :: q.id == r.id ==> q == r
    decreases |steps|
  {
    if steps != [] {
      StepValid(h, steps[0]);
      TerminalStep(h, steps[0], r);
      TerminalStays(Apply(h, steps[0]), steps[1..], r);
    }
  }

  lemma TerminalStep(h: History, step: Step, r: Record)
    requires Valid(h) && Allowed(h, step) && Terminal(r) && r.id in h.issued
    requires forall q <- h.approvals :: q.id == r.id ==> q == r
    ensures forall q <- Apply(h, step).approvals :: q.id == r.id ==> q == r
  {
    if !step.DoRequest? {
      var i := IndexOf(h.approvals, step.id);
      if i < |h.approvals| {
        assert h.approvals[i] in h.approvals;
      }
    }
  }

  /** A record that was ever approved has exactly as many distinct approvers as it requires. */
  lemma ApproversCounted(r: Record)
    requires Sound(r) && (r.status.Approved? || r.status.Used?)
    ensures |Reviewers(r.reviews)| == ReadRequired(r) && forall v <- r.reviews :: v.decision.Approve?
  {
    DistinctReviewers(r.reviews);
    AllApprove(r.reviews);
  }

  lemma {:induction false} DistinctReviewers(reviews: seq<Review>)
    requires forall i, j :: 0 <= i < j < |reviews| ==> reviews[i].reviewedBy != reviews[j].reviewedBy
    ensures |Reviewers(reviews)| == |reviews|
  {
    if reviews != [] {
      var n := |reviews| - 1;
      DistinctReviewers(reviews[..n]);
      assert forall v <- reviews :: v == reviews[n] || v in reviews[..n];
      assert Reviewers(reviews) == Reviewers(reviews[..n]) + {reviews[n].reviewedBy};
    } else {
      assert Reviewers(reviews) == {};
    }
  }

  lemma {:induction false} AllApprove(reviews: seq<Review>)
    ensures ApprovalCount(reviews) <= |reviews|
    ensures ApprovalCount(reviews) == |reviews| ==> forall v <- reviews :: v.decision.Approve?
  {
    if reviews != [] {
      var n := |reviews| - 1;
      AllApprove(reviews[..n]);
      assert forall v <- reviews :: v == reviews[n] || v in reviews[..n];
    }
  }

  /** In reachable states a consumption succeeds exactly for an approved, matching, unexpired record
      whose threshold is at least the policy's minimum: a minimum above the threshold never does. */
  lemma ConsumeIff(h: History, r: Record, action: string, target: string, actor: string, minimum: nat, now: int)
    requires Valid(h) && r in h.approvals
    ensures ConsumeOutcome(h.approvals, r.id, action, target, actor, minimum, now).Ok? <==>
      r.status.Approved? && r.action == action && r.target == target && now < r.expiresAt && minimum <= ReadRequired(r)
  {
    FoundById(h, r);
  }

  lemma FoundById(h: History, r: Record)
    requires Valid(h) && r in h.approvals
    ensures var i := IndexOf(h.approvals, r.id); i < |h.approvals| && h.approvals[i] == r && Sound(r)
  {
    var i := IndexOf(h.approvals, r.id);
    var j :| 0 <= j < |h.approvals| && h.approvals[j] == r;
    assert i == j;
  }

  /** The shown status is honest: approved means consumable now, pending means open to every account
      that has not reviewed it yet. */
  lemma ShownStatus(h: History, r: Record, actor: string, decision: Decision, now: int)
    requires Valid(h) && r in h.approvals
    ensures ToApproval(r, now) == Shown(Approved) <==>
        ConsumeOutcome(h.approvals, r.id, r.action, r.target, actor, 0, now).Ok?
    ensures ToApproval(r, now) == Shown(Pending) && !HasReviewed(r, actor) <==>
        ReviewOutcome(h.approvals, r.id, actor, decision, now).Ok?
    ensures ToApproval(r, now) == ShownExpired <==> r.expiresAt <= now && (r.status.Pending? || r.status.Approved?)
    ensures r.status.Rejected? || r.status.Used? ==> ToApproval(r, now) == Shown(r.status)
  {
    FoundById(h, r);
  }

  // ---------------------------------------------------------------- each operation

  /** A request is the newest record: it says what was asked for, and waits without reviews. */
  lemma RequestAdds(h: History, step: Step)
    requires step.DoRequest?
    ensures var after := Apply(h, step).approvals;
      && after != [] && after[..|after| - 1] == Last(h.approvals, 999)
      && var r := after[|after| - 1];
         && r.id == step.id && r.action == step.action && r.target == step.target && r.requestedBy == step.actor
         && r.status == Pending && ReadRequired(r) == step.required && r.reviews == [] && ReadCount(r) == 0
         && r.expiresAt == step.expiresAt && r.consumedBy == None
  {
  }

  /** The accounts that approved. */
  function Approvers(reviews: seq<Review>): set<string> {
    set v <- reviews | v.decision.Approve? :: v.reviewedBy
  }

  lemma ReviewedFields(r: Record, actor: string, decision: Decision)
    requires Sound(r) && r.status.Pending? && !HasReviewed(r, actor)
    ensures var q := Reviewed(r, actor, decision);
      && q.reviews == r.reviews + [Review(actor, decision)]
      && (q.status == Rejected <==> decision == Reject)
      && (q.status == Approved <==> decision == Approve && |Approvers(q.reviews)| == ReadRequired(r))
      && q == Record(r.id, r.action, r.target, r.requestedBy, q.status, Some(ReadRequired(r)),
                     Some(|Approvers(q.reviews)|), q.reviews, r.expiresAt, r.consumedBy)
  {
    ApproversAfter(r, actor, decision);
  }

  lemma ApproversAfter(r: Record, actor: string, decision: Decision)
    requires Sound(r) && r.status.Pending? && !HasReviewed(r, actor)
    ensures var reviews := r.reviews + [Review(actor, decision)];
      ApprovalCount(reviews) == |Approvers(reviews)| == |r.reviews| + if decision.Approve? then 1 else 0
  {
    var reviews := r.reviews + [Review(actor, decision)];
    assert reviews[..|reviews| - 1] == r.reviews;
    AllApprove(r.reviews);
    DistinctReviewers(r.reviews);
    ApproversAre(r.reviews);
    OneMoreApprover(r.reviews, actor, decision);
  }

  lemma ApproversAre(reviews: seq<Review>)
    requires forall v <- reviews :: v.decision.Approve?
    ensures Approvers(reviews) == Reviewers(reviews)
  {
  }

  lemma OneMoreApprover(reviews: seq<Review>, actor: string, decision: Decision)
    requires actor !in Reviewers(reviews)
    ensures |Approvers(reviews + [Review(actor, decision)])| ==
      |Approvers(reviews)| + if decision.Approve? then 1 else 0
  {
    var all, added: set<string> := reviews + [Review(actor, decision)], if decision.Approve? then {actor} else {};
    forall name ensures name in Approvers(all) <==> name in Approvers(reviews) || name in added {
      ApproversOf(reviews, Review(actor, decision), name);
    }
    assert Approvers(all) == Approvers(reviews) + added;
    assert actor !in Approvers(reviews);
  }

  lemma ApproversOf(reviews: seq<Review>, v: Review, name: string)
    ensures name in Approvers(reviews + [v]) <==>
      name in Approvers(reviews) || (v.decision.Approve? && v.reviewedBy == name)
  {
    var all := reviews + [v];
    assert forall w :: w in all <==> w in reviews || w == v;
  }

  lemma ReplacedOne(approvals: seq<Record>, i: nat, q: Record)
    requires i < |approvals|
    ensures var after := ReplaceAt(approvals, i, q);
      |after| == |approvals| && forall j :: 0 <= j < |after| ==> after[j] == if j == i then q else approvals[j]
  {
  }

  /** An accepted review adds one review, by this account and with this decision. The record is rejected exactly
      when that was the decision, and approved exactly when it was to approve and the approving accounts now
      number the threshold; all else of it stays, and so do all other records. */
  lemma ReviewDecides(h: History, r: Record, actor: string, decision: Decision, now: int)
    requires Valid(h) && r in h.approvals && ReviewOutcome(h.approvals, r.id, actor, decision, now).Ok?
    ensures var after := Apply(h, DoReview(r.id, actor, decision, now)).approvals;
      |after| == |h.approvals| && forall i :: 0 <= i < |after| ==>
        if h.approvals[i].id != r.id then after[i] == h.approvals[i]
        else
          var q := after[i];
          && q.reviews == r.reviews + [Review(actor, decision)]
          && (q.status == Rejected <==> decision == Reject)
          && (q.status == Approved <==> decision == Approve && |Approvers(q.reviews)| == ReadRequired(r))
          && q == Record(r.id, r.action, r.target, r.requestedBy, q.status, Some(ReadRequired(r)),
                         Some(|Approvers(q.reviews)|), q.reviews, r.expiresAt, r.consumedBy)
  {
    FoundById(h, r);
    ReviewedFields(r, actor, decision);
    ReplacedOne(h.approvals, IndexOf(h.approvals, r.id), Reviewed(r, actor, decision));
  }

  /** A review is refused for the first of these reasons: no such record, one that does not wait any more,
      one that has expired, an account that has reviewed it; a refused review changes nothing. */
  lemma ReviewRefused(h: History, id: string, actor: string, decision: Decision, now: int)
    requires Valid(h)
    ensures var outcome := ReviewOutcome(h.approvals, id, actor, decision, now);
      && (outcome == Failed(NotFound) <==> forall r <- h.approvals :: r.id != id)
      && (forall r <- h.approvals :: r.id == id ==>
            && (outcome == Failed(NotPending) <==> r.status != Pending)
            && (outcome == Failed(Expired) <==> r.status == Pending && r.expiresAt <= now)
            && (outcome == Failed(AlreadyReviewed) <==>
                  r.status == Pending && now < r.expiresAt && actor in Reviewers(r.reviews))
            && (outcome.Ok? <==> r.status == Pending && now < r.expiresAt && actor !in Reviewers(r.reviews)))
      && (outcome.Failed? ==> Apply(h, DoReview(id, actor, decision, now)) == h)
  {
    forall r | r in h.approvals && r.id == id
      ensures h.approvals[IndexOf(h.approvals, id)] == r && IndexOf(h.approvals, id) < |h.approvals|
    {
      FoundById(h, r);
    }
    var i := IndexOf(h.approvals, id);
    if i < |h.approvals| {
      assert h.approvals[i] in h.approvals;
    }
  }

  /** A consumption that succeeds makes this record used by this account, and changes nothing else. */
  lemma ConsumeUses(h: History, r: Record, actor: string, minimum: nat, now: int)
    requires Valid(h) && r in h.approvals
    requires ConsumeOutcome(h.approvals, r.id, r.action, r.target, actor, minimum, now).Ok?
    ensures var after := Apply(h, DoConsume(r.id, r.action, r.target, actor, minimum, now)).approvals;
      |after| == |h.approvals| && forall i :: 0 <= i < |after| ==>
        if h.approvals[i].id != r.id then after[i] == h.approvals[i]
        else after[i] == Record(r.id, r.action, r.target, r.requestedBy, Used, r.requiredApprovals, r.approvedCount,
                                r.reviews, r.expiresAt, Some(actor))
  {
    FoundById(h, r);
    ReplacedOne(h.approvals, IndexOf(h.approvals, r.id), r.(status := Used, consumedBy := Some(actor)));
  }

  /** A record of an earlier version, without counts, requires one approval and has it once it is approved. */
  lemma OlderRecord(r: Record, action: string, target: string, actor: string, minimum: nat, now: int)
    requires r.requiredApprovals == r.approvedCount == None
    ensures ConsumeOutcome([r], r.id, action, target, actor, minimum, now).Ok? <==>
      r.status == Approved && r.action == action && r.target == target && now < r.expiresAt && minimum <= 1
    ensures ReviewOutcome([r], r.id, actor, Approve, now).Ok? && r.reviews == [] ==>
      ReviewOutcome([r], r.id, actor, Approve, now).approvals[0].status == Approved
  {
    assert ApprovalCount([Review(actor, Approve)]) == 1 by {
      assert [Review(actor, Approve)][..0] == [];
    }
    assert r.reviews == [] ==> r.reviews + [Review(actor, Approve)] == [Review(actor, Approve)];
  }

  /** A consumption is refused for the first of these reasons: no such record, another action or target, not
      approved, a policy that wants more approvals than the record required, expired. */
  lemma ConsumeRefused(h: History, id: string, action: string, target: string, actor: string, minimum: nat, now: int)
    requires Valid(h)
    ensures var outcome := ConsumeOutcome(h.approvals, id, action, target, actor, minimum, now);
      && (outcome == Failed(NotFound) <==> forall r <- h.approvals :: r.id != id)
      && (forall r <- h.approvals :: r.id == id ==>
            var fits, enough := r.action == action && r.target == target, minimum <= ReadRequired(r);
            && (outcome == Failed(Mismatch) <==> !fits)
            && (outcome == Failed(NotApproved) <==> fits && r.status != Approved)
            && (outcome == Failed(PolicyNeedsMore) <==> fits && r.status == Approved && !enough)
            && (outcome == Failed(Expired) <==> fits && r.status == Approved && enough && r.expiresAt <= now))
      && (outcome.Failed? ==> Apply(h, DoConsume(id, action, target, actor, minimum, now)) == h)
  {
    forall r | r in h.approvals && r.id == id
      ensures h.approvals[IndexOf(h.approvals, id)] == r && IndexOf(h.approvals, id) < |h.approvals| && Sound(r)
    {
      FoundById(h, r);
    }
    var i := IndexOf(h.approvals, id);
    if i < |h.approvals| {
      assert h.approvals[i] in h.approvals;
    }
  }
}
