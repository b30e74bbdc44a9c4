/**
 The central state container of the root component: the `AppState` snapshot,
 its seed, and the vocabulary for saying which part of a snapshot an operation
 touches.
 */
module State {
  import opened Domain

  datatype AppState = AppState(
    userStats: UserStats,
    missions: seq<Mission>,
    students: seq<Student>,
    submissions: seq<Submission>,
    shopItems: seq<ShopItem>,
    ranking: seq<RankingEntry>,
    purchasedItems: seq<string>)

  /**
   The fixture collections (MISSIONS, MOCK_STUDENTS, MOCK_SUBMISSIONS,
   SHOP_ITEMS, RANKING) the seed takes from the constants module, whose
   contents are not part of this model.
   */
  datatype Fixtures = Fixtures(
    missions: seq<Mission>,
    students: seq<Student>,
    submissions: seq<Submission>,
    shopItems: seq<ShopItem>,
    ranking: seq<RankingEntry>)

  /** The seed user: Ana Luiza, level 10, 2486 of 5000 XP, 10996 coins. */
  const SeedUser := UserStats("Ana Luiza", 10, 2486, 5000, 10996, "👩")

  /** The XP bar invariant of the data model: experience lies in [0, maxXp]. */
  predicate XpWithinCap(u: UserStats)
  {
    0 <= u.xp <= u.maxXp
  }

  /** `INITIAL_STATE`: the seed user, the fixtures, and nothing purchased. */
  function InitialState(f: Fixtures): (r: AppState)
    ensures XpWithinCap(r.userStats)
    ensures r.userStats.xp < r.userStats.maxXp
    ensures r.purchasedItems == []
    ensures r.missions == f.missions && r.students == f.students
    ensures r.submissions == f.submissions && r.shopItems == f.shopItems && r.ranking == f.ranking
  {
    AppState(SeedUser, f.missions, f.students, f.submissions, f.shopItems, f.ranking, [])
  }

  /** The seven top-level fields of a snapshot. */
  datatype Field =
    | UserStatsField
    | MissionsField
    | StudentsField
    | SubmissionsField
    | ShopItemsField
    | RankingField
    | PurchasedItemsField

  /** `a` and `b` agree on every field except possibly `f`. */
  predicate OnlyChanged(a: AppState, b: AppState, f: Field)
  {
    && (f != UserStatsField ==> a.userStats == b.userStats)
    && (f != MissionsField ==> a.missions == b.missions)
    && (f != StudentsField ==> a.students == b.students)
    && (f != SubmissionsField ==> a.submissions == b.submissions)
    && (f != ShopItemsField ==> a.shopItems == b.shopItems)
    && (f != RankingField ==> a.ranking == b.ranking)
    && (f != PurchasedItemsField ==> a.purchasedItems == b.purchasedItems)
  }
}
