/**
 The seven state transforms of the root component (`addXp`, `addStudent`,
 `deleteStudent`, `addMission`, `deleteMission`, `approveSubmission`,
 `rejectSubmission`), each a pure function from the previous snapshot and
 the operation's argument to the next snapshot.
 */
module Mutations {
  import opened Domain
  import opened State
  import opened Seqs

  /** `addXp`: experience grows by `amount` but never past `maxXp` (no lower clamp). */
  function AddXp(st: AppState, amount: int): (r: AppState)
    ensures r.userStats.xp <= st.userStats.maxXp
    ensures r.userStats.xp <= st.userStats.xp + amount
    ensures r.userStats.xp == st.userStats.maxXp || r.userStats.xp == st.userStats.xp + amount
    ensures XpWithinCap(st.userStats) && amount >= 0 ==> XpWithinCap(r.userStats)
    ensures r.userStats == st.userStats.(xp := r.userStats.xp)
    ensures OnlyChanged(st, r, UserStatsField)
  {
    var u := st.userStats;
    var xp := if u.maxXp <= u.xp + amount then u.maxXp else u.xp + amount;
    st.(userStats := u.(xp := xp))
  }

  /** `addStudent`: the new record goes first, the old roster follows unchanged. */
  function AddStudent(st: AppState, s: Student): (r: AppState)
    ensures |r.students| == |st.students| + 1
    ensures r.students[0] == s && r.students[1..] == st.students
    ensures OnlyChanged(st, r, StudentsField)
  {
    st.(students := [s] + st.students)
  }

  /** Prepending keeps student ids unique exactly when the new id is fresh; nothing checks it. */
  lemma AddStudentUniqueness(st: AppState, s: Student)
    requires UniqueBy(st.students, StudentId)
    ensures UniqueBy(AddStudent(st, s).students, StudentId)
            <==> forall x :: x in st.students ==> x.id != s.id
  {
    PrependUniqueBy(s, st.students, StudentId);
  }


  /** The filter predicate of `deleteStudent`: keep the students whose id differs. */
  function StudentIdIsNot(id: string): Student -> bool
  {
    (s: Student) => s.id != id
  }

  /** `deleteStudent`: every student with the id goes, the rest keep their order. */
  function DeleteStudent(st: AppState, id: string): (r: AppState)
    ensures forall s :: s in r.students <==> s in st.students && s.id != id
    ensures forall s :: multiset(r.students)[s] == if s.id != id then multiset(st.students)[s] else 0
    ensures SubseqOf(r.students, st.students)
    ensures OnlyChanged(st, r, StudentsField)
  {
    st.(students := Filter(st.students, StudentIdIsNot(id)))
  }

  /** Deleting an id no student has leaves the snapshot as it was. */
  lemma DeleteStudentAbsent(st: AppState, id: string)
    requires forall s :: s in st.students ==> s.id != id
    ensures DeleteStudent(st, id) == st
  {
    FilterKeepsAll(st.students, StudentIdIsNot(id));
  }

  /** Deleting the same student id twice is deleting it once. */
  lemma DeleteStudentTwice(st: AppState, id: string)
    ensures DeleteStudent(DeleteStudent(st, id), id) == DeleteStudent(st, id)
  {
    FilterIdempotent(st.students, StudentIdIsNot(id));
  }

  /** `addMission`: the new mission goes first, the old list follows unchanged. */
  function AddMission(st: AppState, m: Mission): (r: AppState)
    ensures |r.missions| == |st.missions| + 1
    ensures r.missions[0] == m && r.missions[1..] == st.missions
    ensures OnlyChanged(st, r, MissionsField)
  {
    st.(missions := [m] + st.missions)
  }

  /** Prepending keeps mission ids unique exactly when the new id is fresh; nothing checks it. */
  lemma AddMissionUniqueness(st: AppState, m: Mission)
    requires UniqueBy(st.missions, MissionId)
    ensures UniqueBy(AddMission(st, m).missions, MissionId)
            <==> forall x :: x in st.missions ==> x.id != m.id
  {
    PrependUniqueBy(m, st.missions, MissionId);
  }

  /** The filter predicate of `deleteMission`. */
  function MissionIdIsNot(id: string): Mission -> bool
  {
    (m: Mission) => m.id != id
  }

  /** `deleteMission`: every mission with the id goes, the rest keep their order. */
  function DeleteMission(st: AppState, id: string): (r: AppState)
    ensures forall m :: m in r.missions <==> m in st.missions && m.id != id
    ensures forall m :: multiset(r.missions)[m] == if m.id != id then multiset(st.missions)[m] else 0
    ensures SubseqOf(r.missions, st.missions)
    ensures OnlyChanged(st, r, MissionsField)
  {
    st.(missions := Filter(st.missions, MissionIdIsNot(id)))
  }

  /** Deleting an id no mission has leaves the snapshot as it was. */
  lemma DeleteMissionAbsent(st: AppState, id: string)
    requires forall m :: m in st.missions ==> m.id != id
    ensures DeleteMission(st, id) == st
  {
    FilterKeepsAll(st.missions, MissionIdIsNot(id));
  }

  /** Deleting the same mission id twice is deleting it once. */
  lemma DeleteMissionTwice(st: AppState, id: string)
    ensures DeleteMission(DeleteMission(st, id), id) == DeleteMission(st, id)
  {
    FilterIdempotent(st.missions, MissionIdIsNot(id));
  }

  /** `submissions.find(s => s.id === id)` succeeds. */
  predicate HasSubmission(subs: seq<Submission>, id: string)
  {
    exists s :: s in subs && s.id == id
  }

  /** The `map` both decisions share: every submission with the id gets `status`. */
  function SetStatus(subs: seq<Submission>, id: string, status: Status): (r: seq<Submission>)
    ensures |r| == |subs|
    ensures forall i :: 0 <= i < |subs| ==> r[i] == subs[i].(status := r[i].status)
    ensures forall i :: 0 <= i < |subs| && subs[i].id == id ==> r[i].status == status
    ensures forall i :: 0 <= i < |subs| && subs[i].id != id ==> r[i] == subs[i]
    ensures !HasSubmission(subs, id) ==> r == subs
  {
    var r := seq(|subs|, i requires 0 <= i < |subs| =>
      if subs[i].id == id then subs[i].(status := status) else subs[i]);
    assert !HasSubmission(subs, id) ==> forall i :: 0 <= i < |subs| ==> subs[i].id != id;
    r
  }

  /**
   `approveSubmission`: a no-op when no submission has the id; otherwise every
   submission with the id becomes approved, whatever its status was.
   */
  function ApproveSubmission(st: AppState, id: string): (r: AppState)
    ensures !HasSubmission(st.submissions, id) ==> r == st
    ensures |r.submissions| == |st.submissions|
    ensures forall i :: 0 <= i < |st.submissions| && st.submissions[i].id == id ==>
              r.submissions[i] == st.submissions[i].(status := Approved)
    ensures forall i :: 0 <= i < |st.submissions| && st.submissions[i].id != id ==>
              r.submissions[i] == st.submissions[i]
    ensures OnlyChanged(st, r, SubmissionsField)
  {
    if !HasSubmission(st.submissions, id) then st
    else st.(submissions := SetStatus(st.submissions, id, Approved))
  }

  /**
   `rejectSubmission`: every submission with the id becomes rejected, whatever
   its status was. There is no lookup first; with no match the content is unchanged.
   */
  function RejectSubmission(st: AppState, id: string): (r: AppState)
    ensures !HasSubmission(st.submissions, id) ==> r == st
    ensures |r.submissions| == |st.submissions|
    ensures forall i :: 0 <= i < |st.submissions| && st.submissions[i].id == id ==>
              r.submissions[i] == st.submissions[i].(status := Rejected)
    ensures forall i :: 0 <= i < |st.submissions| && st.submissions[i].id != id ==>
              r.submissions[i] == st.submissions[i]
    ensures OnlyChanged(st, r, SubmissionsField)
  {
    st.(submissions := SetStatus(st.submissions, id, Rejected))
  }

  /** The later of two decisions on the same id is the one that stands. */
  lemma DecisionLastWins(st: AppState, id: string)
    ensures RejectSubmission(ApproveSubmission(st, id), id) == RejectSubmission(st, id)
    ensures ApproveSubmission(RejectSubmission(st, id), id) == ApproveSubmission(st, id)
  {
    var a := ApproveSubmission(st, id);
    var r := RejectSubmission(st, id);
    assert HasSubmission(a.submissions, id) <==> HasSubmission(st.submissions, id) by {
      if HasSubmission(st.submissions, id) {
        var s :| s in st.submissions && s.id == id;
        var k :| 0 <= k < |st.submissions| && st.submissions[k] == s;
        assert a.submissions[k] in a.submissions;
      }
    }
    assert HasSubmission(r.submissions, id) ==> HasSubmission(st.submissions, id) by {
      if HasSubmission(r.submissions, id) {
        var s :| s in r.submissions && s.id == id;
        var k :| 0 <= k < |r.submissions| && r.submissions[k] == s;
        assert st.submissions[k] in st.submissions;
      }
    }
    assert RejectSubmission(a, id).submissions == r.submissions;
    if HasSubmission(st.submissions, id) {
      var s :| s in st.submissions && s.id == id;
      var k :| 0 <= k < |st.submissions| && st.submissions[k] == s;
      assert r.submissions[k] in r.submissions;
      assert ApproveSubmission(r, id).submissions == a.submissions;
    }
  }

  /** Repeating a decision on the same id changes nothing more. */
  lemma DecisionIdempotent(st: AppState, id: string)
    ensures ApproveSubmission(ApproveSubmission(st, id), id) == ApproveSubmission(st, id)
    ensures RejectSubmission(RejectSubmission(st, id), id) == RejectSubmission(st, id)
  {
    var a := ApproveSubmission(st, id);
    var r := RejectSubmission(st, id);
    if HasSubmission(st.submissions, id) {
      var s :| s in st.submissions && s.id == id;
      var k :| 0 <= k < |st.submissions| && st.submissions[k] == s;
      assert a.submissions[k] in a.submissions;
      assert ApproveSubmission(a, id).submissions == a.submissions;
    }
    assert RejectSubmission(r, id).submissions == r.submissions;
  }
}
