/**
 Loading and persisting the snapshot. Browser storage is a map from keys to
 stored values; serialisation is taken to be faithful, so a stored value is
 either blank, a serialised snapshot, or text that does not parse.
 */
module Store {
  import opened Wrappers
  import opened Domain
  import opened State
  import M = Mutations

  /** The single key the whole snapshot lives under. */
  const StorageKey := "itagame_full_state_v1"

  /**
   The stored values the model distinguishes for a key that is present. Text
   that parses without being a snapshot is not among them.
   */
  datatype Stored =
    | Blank                     // the empty string, which is falsy
    | Json(state: AppState)     // `JSON.stringify` of a snapshot
    | Malformed(text: string)   // non-empty text that `JSON.parse` rejects

  type Storage = map<string, Stored>

  /** The exception `JSON.parse` throws; nothing in the component catches it. */
  datatype LoadError = UnparsableState(text: string)

  /**
   The lazy initial state: an absent or blank value yields the seed, a
   serialised snapshot yields that snapshot, and unparsable text is an error.
   */
  function Load(storage: Storage, f: Fixtures): (r: Result<AppState, LoadError>)
    ensures r.Failure? <==> StorageKey in storage && storage[StorageKey].Malformed?
    ensures (StorageKey !in storage || storage[StorageKey] == Blank) ==> r == Success(InitialState(f))
    ensures StorageKey in storage && storage[StorageKey].Json? ==> r == Success(storage[StorageKey].state)
  {
    if StorageKey !in storage then Success(InitialState(f))
    else match storage[StorageKey]
      case Blank => Success(InitialState(f))
      case Json(s) => Success(s)
      case Malformed(text) => Failure(UnparsableState(text))
  }

  /** The persist effect: the whole snapshot replaces whatever was under the key. */
  function Save(storage: Storage, st: AppState): (r: Storage)
    ensures StorageKey in r && r[StorageKey] == Json(st)
    ensures forall k :: k != StorageKey ==> (k in r <==> k in storage)
    ensures forall k :: k != StorageKey && k in storage ==> r[k] == storage[k]
  {
    storage[StorageKey := Json(st)]
  }

  /** Loading right after saving returns the saved snapshot, whatever the seed. */
  lemma LoadAfterSave(storage: Storage, st: AppState, f: Fixtures)
    ensures Load(Save(storage, st), f) == Success(st)
  {
    assert Save(storage, st)[StorageKey] == Json(st);
  }

  /** The operations the screens can ask the container to perform. */
  datatype Op =
    | AddXp(amount: int)
    | AddStudent(student: Student)
    | DeleteStudent(id: string)
    | AddMission(mission: Mission)
    | DeleteMission(id: string)
    | Approve(id: string)
    | Reject(id: string)

  /** The one snapshot field an operation is allowed to touch. */
  function FieldOf(op: Op): Field
  {
    match op
    case AddXp(_) => UserStatsField
    case AddStudent(_) => StudentsField
    case DeleteStudent(_) => StudentsField
    case AddMission(_) => MissionsField
    case DeleteMission(_) => MissionsField
    case Approve(_) => SubmissionsField
    case Reject(_) => SubmissionsField
  }

  /** The updater each operation hands to `setState`; only one field ever changes. */
  function Apply(st: AppState, op: Op): (r: AppState)
    ensures OnlyChanged(st, r, FieldOf(op))
    ensures op.AddXp? ==> r.userStats.xp <= st.userStats.maxXp
    ensures op.AddStudent? ==> r.students == [op.student] + st.students
    ensures op.AddMission? ==> r.missions == [op.mission] + st.missions
    ensures op.DeleteStudent? ==> forall s :: s in r.students <==> s in st.students && s.id != op.id
    ensures op.DeleteMission? ==> forall m :: m in r.missions <==> m in st.missions && m.id != op.id
    ensures (op.Approve? || op.Reject?) && !M.HasSubmission(st.submissions, op.id) ==> r == st
  {
    match op
    case AddXp(a) => M.AddXp(st, a)
    case AddStudent(s) => M.AddStudent(st, s)
    case DeleteStudent(id) => M.DeleteStudent(st, id)
    case AddMission(m) => M.AddMission(st, m)
    case DeleteMission(id) => M.DeleteMission(st, id)
    case Approve(id) => M.ApproveSubmission(st, id)
    case Reject(id) => M.RejectSubmission(st, id)
  }

  /**
   Whether the updater returns a new object. The persist effect only runs
   when it does; `approveSubmission` hands back `prev` itself when nothing matches.
   */
  function Replaces(st: AppState, op: Op): (r: bool)
    ensures !r ==> Apply(st, op) == st
    ensures !op.Approve? ==> r
    ensures op.Approve? ==> (r <==> M.HasSubmission(st.submissions, op.id))
  {
    !(op.Approve? && !M.HasSubmission(st.submissions, op.id))
  }

  /** The blocking acknowledgment shown after a call, one per approve or reject call. */
  function Acknowledgment(op: Op): (r: Option<string>)
    ensures r.Some? <==> op.Approve? || op.Reject?
  {
    match op
    case Approve(_) => Some("Submissão aprovada! O aluno recebeu a recompensa.")
    case Reject(_) => Some("Submissão recusada.")
    case _ => None
  }

  /** The running container: durable storage next to the in-memory snapshot. */
  datatype Session = Session(storage: Storage, state: AppState)

  /** Storage holds exactly the in-memory snapshot. */
  predicate Synced(s: Session)
  {
    StorageKey in s.storage && s.storage[StorageKey] == Json(s.state)
  }

  /**
   Mounting the component: load (which throws on unparsable text), then run
   the persist effect once for the initial snapshot.
   */
  function Mount(storage: Storage, f: Fixtures): (r: Result<Session, LoadError>)
    ensures r.Failure? <==> StorageKey in storage && storage[StorageKey].Malformed?
    ensures r.Success? ==> Synced(r.value) && Load(storage, f) == Success(r.value.state)
  {
    match Load(storage, f)
    case Success(st) => Success(Session(Save(storage, st), st))
    case Failure(e) => Failure(e)
  }

  /** One event: apply the operation, then persist if the snapshot object was replaced. */
  function Commit(s: Session, op: Op): (r: Session)
    ensures r.state == Apply(s.state, op)
    ensures Synced(s) ==> Synced(r)
    ensures !Replaces(s.state, op) ==> r == s
  {
    var next := Apply(s.state, op);
    if Replaces(s.state, op) then Session(Save(s.storage, next), next) else s
  }

  /**
   A sequence of events, applied in order: storage keeps mirroring the
   snapshot, and no key other than the snapshot's is ever written.
   */
  function Run(s: Session, ops: seq<Op>): (r: Session)
    ensures Synced(s) ==> Synced(r)
    ensures forall k :: k != StorageKey ==> (k in r.storage <==> k in s.storage)
    ensures forall k :: k != StorageKey && k in s.storage ==> r.storage[k] == s.storage[k]
    decreases |ops|
  {
    if |ops| == 0 then s else Run(Commit(s, ops[0]), ops[1..])
  }

  /** After any sequence of events, a reload would yield the live snapshot. */
  lemma {:induction false} ReloadAfterRun(s: Session, ops: seq<Op>, f: Fixtures)
    requires Synced(s)
    ensures Synced(Run(s, ops))
    ensures Load(Run(s, ops).storage, f) == Success(Run(s, ops).state)
    decreases |ops|
  {
    if |ops| > 0 {
      ReloadAfterRun(Commit(s, ops[0]), ops[1..], f);
    }
  }
}
