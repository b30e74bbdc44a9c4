/**
 The admin validation portal: the split of submissions into the review queue
 and the history, and the approve/reject actions it offers.
 */
module ValidationPortal {
  import opened Domain
  import opened Seqs
  import opened State
  import Store
  import M = Mutations

  function IsPending(s: Submission): bool
  {
    s.status == Pending
  }

  function IsDecided(s: Submission): bool
  {
    s.status != Pending
  }

  /** `pending`: the submissions still awaiting review, in their original order. */
  function PendingQueue(subs: seq<Submission>): (r: seq<Submission>)
    ensures forall s :: s in r <==> s in subs && s.status == Pending
    ensures forall s :: multiset(r)[s] == if s.status == Pending then multiset(subs)[s] else 0
    ensures SubseqOf(r, subs)
  {
    Filter(subs, IsPending)
  }

  /** `history`: the approved and rejected submissions, in their original order. */
  function History(subs: seq<Submission>): (r: seq<Submission>)
    ensures forall s :: s in r <==> s in subs && s.status != Pending
    ensures forall s :: multiset(r)[s] == if s.status != Pending then multiset(subs)[s] else 0
    ensures SubseqOf(r, subs)
  {
    Filter(subs, IsDecided)
  }

  /** Queue and history split the submissions: sizes add up and nothing is in both. */
  lemma Partition(subs: seq<Submission>)
    ensures |PendingQueue(subs)| + |History(subs)| == |subs|
    ensures forall s :: !(s in PendingQueue(subs) && s in History(subs))
  {
    FilterPartition(subs, IsPending, IsDecided);
  }

  /** What the portal shows: the queue, the history and the two empty-list notices. */
  datatype Portal = Portal(
    queue: seq<Submission>,
    history: seq<Submission>,
    queueEmptyNotice: bool,
    historyEmptyNotice: bool)

  function Render(subs: seq<Submission>): (r: Portal)
    ensures r.queueEmptyNotice <==> forall s :: s in subs ==> s.status != Pending
    ensures r.historyEmptyNotice <==> forall s :: s in subs ==> s.status == Pending
    ensures r.queue == PendingQueue(subs) && r.history == History(subs)
    ensures |r.queue| + |r.history| == |subs|
  {
    var q := PendingQueue(subs);
    var h := History(subs);
    Partition(subs);
    FilterEmpty(subs, IsPending);
    FilterEmpty(subs, IsDecided);
    Portal(q, h, |q| == 0, |h| == 0)
  }

  /** The portal offers `op`: an approve or reject button on a queued submission's card. */
  function Offers(subs: seq<Submission>, op: Store.Op): (r: bool)
    ensures r <==> (op.Approve? || op.Reject?)
                   && exists k :: 0 <= k < |subs| && subs[k].id == op.id && subs[k].status == Pending
    ensures r ==> M.HasSubmission(subs, op.id)
  {
    if op.Approve? || op.Reject? then
      assert (exists s :: s in PendingQueue(subs) && s.id == op.id)
         <==> (exists k :: 0 <= k < |subs| && subs[k].id == op.id && subs[k].status == Pending) by {
        if exists k :: 0 <= k < |subs| && subs[k].id == op.id && subs[k].status == Pending {
          var k :| 0 <= k < |subs| && subs[k].id == op.id && subs[k].status == Pending;
          assert subs[k] in PendingQueue(subs);
        }
        if exists s :: s in PendingQueue(subs) && s.id == op.id {
          var s :| s in PendingQueue(subs) && s.id == op.id;
          var k :| 0 <= k < |subs| && subs[k] == s;
        }
      }
      exists s :: s in PendingQueue(subs) && s.id == op.id
    else
      false
  }

  /**
   With distinct submission ids, a decision taken from the portal moves exactly
   one pending submission to the decided status and leaves every other
   submission, decided ones included, as it was.
   */
  lemma PortalDecisionIsOneWay(st: AppState, op: Store.Op)
    requires UniqueBy(st.submissions, SubmissionId)
    requires Offers(st.submissions, op)
    ensures |Store.Apply(st, op).submissions| == |st.submissions|
    ensures exists k :: 0 <= k < |st.submissions|
              && st.submissions[k].id == op.id
              && st.submissions[k].status == Pending
              && Store.Apply(st, op).submissions[k]
                 == st.submissions[k].(status := if op.Approve? then Approved else Rejected)
              && forall i :: 0 <= i < |st.submissions| && i != k ==>
                   Store.Apply(st, op).submissions[i] == st.submissions[i]
  {
    var subs := st.submissions;
    var k :| 0 <= k < |subs| && subs[k].id == op.id && subs[k].status == Pending;
    assert M.HasSubmission(subs, op.id) by { assert subs[k] in subs; }
    OnlyOneWithId(subs, k);
    var after := Store.Apply(st, op).submissions;
    var decided := if op.Approve? then Approved else Rejected;
    if op.Approve? {
      assert after == M.ApproveSubmission(st, op.id).submissions;
    } else {
      assert after == M.RejectSubmission(st, op.id).submissions;
    }
    assert after[k] == subs[k].(status := decided);
    assert forall i :: 0 <= i < |subs| && i != k ==> after[i] == subs[i];
  }

  /** With distinct ids, the submission at `k` is the only one carrying its id. */
  lemma OnlyOneWithId(subs: seq<Submission>, k: nat)
    requires UniqueBy(subs, SubmissionId) && k < |subs|
    ensures forall i :: 0 <= i < |subs| && i != k ==> subs[i].id != subs[k].id
  {
    forall i | 0 <= i < |subs| && i != k
      ensures subs[i].id != subs[k].id
    {
      if i < k { assert SubmissionId(subs[i]) != SubmissionId(subs[k]); }
      else { assert SubmissionId(subs[k]) != SubmissionId(subs[i]); }
    }
  }
}
