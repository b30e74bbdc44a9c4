/**
 The domain records of the classroom game. Every string-typed enumeration of
 the source (`status`, `rewardType`, a mission's `type`) is a closed datatype
 here. JavaScript numbers holding counts, points and prices are `int`.
 */
module Domain {

  /** A submission's review state: 'pending' | 'approved' | 'rejected'. */
  datatype Status = Pending | Approved | Rejected

  /** What a mission pays out: 'xp' | 'coins'. */
  datatype RewardType = XpReward | CoinReward

  /** A mission's `type`: 'quiz' | 'upload' | 'other'. */
  datatype MissionKind = Quiz | Upload | OtherKind

  /** The logged-in student's own statistics (the `UserStats` singleton). */
  datatype UserStats = UserStats(
    name: string,
    level: int,
    xp: int,
    maxXp: int,
    coins: int,
    avatar: string)

  datatype Mission = Mission(
    id: string,
    title: string,
    objective: string,
    reward: int,
    rewardType: RewardType,
    progress: int,
    maxProgress: int,
    completed: bool,
    kind: MissionKind)

  /** One row of the admin's student roster; `group` is the source's `class` field. */
  datatype Student = Student(
    id: string,
    name: string,
    email: string,
    group: string,
    level: int,
    xp: int,
    coins: int,
    missionsCompleted: int,
    lastActive: string,
    avatar: string)

  /** Evidence a student sent for a mission; it names student and mission by display name. */
  datatype Submission = Submission(
    id: string,
    studentName: string,
    missionTitle: string,
    status: Status,
    evidenceType: string,
    timestamp: string)

  datatype ShopItem = ShopItem(
    id: string,
    name: string,
    description: string,
    icon: string,
    price: int,
    category: string)

  /** A ranking row; the core only stores and returns these, never inspects them. */
  datatype RankingEntry = RankingEntry(name: string, xp: int)

  /** The identifying keys, as functions for `Seqs.UniqueBy`. */
  function StudentId(s: Student): string
  {
    s.id
  }

  function SubmissionId(s: Submission): string
  {
    s.id
  }

  function MissionId(m: Mission): string
  {
    m.id
  }

  function ItemId(i: ShopItem): string
  {
    i.id
  }
}
