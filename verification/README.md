# ITAGAME classroom state, modelled in Dafny

ITAGAME is a gamified classroom front-end. Students see missions, a shop and a
ranking. Admins manage students and missions and review submitted evidence.
Under the rendering sits a small layer of pure state transforms and list
computations. This project models that layer and proves its properties:

- **The central state container** of the root component (`State`, `Mutations`,
  `Store`). It covers the `AppState` snapshot and its seed. It covers the seven
  mutations: add XP, add/delete student, add/delete mission, approve/reject
  submission. It also covers loading from and persisting to browser storage.
- **Login and screen selection** (`Router`): the logged-in and admin flags, the
  two screen enums, and the choice of which view to render.
- **The shop's purchase machine** (`Shop`): a local coin balance and a list of
  purchased ids, the purchase handler, and the category filter.
- **The admin projections**:
  - the validation portal's pending/history split (`ValidationPortal`);
  - the dashboard's pending count, highlight flag and top-four XP leaderboard
    (`AdminDashboard`);
  - the reports' rounded averages (`Reports`);
  - the student search, the confirm-gated deletes and the "new record"
    constructors of the two managers (`StudentManager`, `MissionManager`).

Generic pieces live in `Seqs` (filter, subsequence, sum, a summing reduce),
`Text` (ASCII lower-casing, substring search, decimal rendering) and
`Wrappers` (`Option`, `Result`).

Modelling choices:

- **Storage** is a map from keys to stored values. A stored value is blank,
  a serialised snapshot, or text that does not parse. Text that parses to something else is left out. The snapshot is
  persisted only when the updater returns a new object, because the persist
  effect depends on `state`. `approveSubmission` returns `prev` itself when no
  id matches, so nothing is written then (`Store.Replaces`).
- **Confirmation prompts** are boolean inputs. Random ids are parameters. The
  fixture collections of the constants module are parameters (`Fixtures`).
- **Screen enums**: `Screen` and `AdminScreen` are closed datatypes. Each has
  one extra constructor (`UnlistedScreen`, `UnlistedAdminScreen`). It stands
  for an enum member, declared in types.ts, that the render switch does not
  name. That is how the switch's `default` branch is modelled. types.ts is not
  part of this model.
- **Behaviour the model keeps as the code has it**:
  - Loading unparsable stored text does not fall back to the seed.
    `JSON.parse` throws and nothing catches it, so `Store.Load` returns a
    `Failure`. Only an absent key or an empty string yields the seed.
  - Logout does not reset the admin screen. It keeps its value, and the next
    login resets it (`Router.StaleAdminScreenInvisible` shows the stale value
    can never be seen).
  - Approve and reject do not check the prior status. Any submission with the
    id is overwritten, decided ones included. The portal only offers the
    buttons on pending submissions (`ValidationPortal.PortalDecisionIsOneWay`).
  - Rendering the admin overview sorts the snapshot's `students` array in
    place, because `students.sort(...)` works on the array the state holds.
    The model keeps this (`AdminDashboard.OverviewInPlace`). One proved
    consequence: a newly added student loses the head of the roster once the
    overview is shown, if anyone has more XP. The sort changes no coin or XP
    total (`AdminDashboard.SortKeepsSums`). The sort does not go through
    `setState`, so nothing is persisted. Storage keeps the roster in its
    earlier order until the next operation that replaces the snapshot
    (`Lifecycle.OverviewLeavesStorageBehind`, `Lifecycle.DispatchResyncs`). A
    reload always yields the live snapshot up to the order of the roster
    (`Lifecycle.ReloadAfterReplay`).

## Model

| member | source | states |
|---|---|---|
| `State.InitialState` | App.tsx:30-45 | The seed has the fixture collections, no purchases, and a user whose XP lies strictly below the cap. |
| `Store.Load` | App.tsx:54-57 | An absent or empty stored value yields the seed, and a stored snapshot yields itself. Unparsable text yields a failure, because the parse error is not caught. |
| `Store.Save` | App.tsx:59-62 | The whole snapshot replaces the value under the fixed key. Every other key is untouched. |
| `Store.LoadAfterSave` | App.tsx:54-62 | Loading right after saving a snapshot returns that snapshot. |
| `Store.Apply` | App.tsx:79-122 | Each operation changes exactly one field of the snapshot. The shop items, ranking and purchased list never change. |
| `Store.Replaces` | App.tsx:104-112 | The updater hands back the old object exactly for an approve whose id matches no submission, and then the snapshot really is unchanged. Every other call replaces it. |
| `Store.Acknowledgment` | App.tsx:104-122 | Exactly the approve and reject calls show one acknowledgment, whether or not anything matched. |
| `Store.Mount` | App.tsx:53-62 | Mounting fails exactly on unparsable stored text. Otherwise storage afterwards holds the loaded snapshot. |
| `Store.Commit` | App.tsx:59-62 | After an operation, storage still mirrors the in-memory snapshot if it did before. |
| `Store.Run` | App.tsx:59-122 | Over any sequence of operations, storage keeps mirroring the snapshot, and no key other than the snapshot's is ever written. |
| `Store.ReloadAfterRun` | App.tsx:54-62 | After any sequence of operations, a reload yields the live snapshot. |
| `Lifecycle.Step` | App.tsx:59-62 | An operation commits as the store does. Rendering the overview writes nothing to storage, and it changes only the roster, into an XP-ordered permutation of itself. |
| `Lifecycle.Replay` | App.tsx:59-62 | Over any mix of operations and overview renders, storage holds the live snapshot up to the order of the roster. |
| `Lifecycle.ReloadAfterReplay` | App.tsx:54-62 | After any events, a reload yields the live snapshot, except that the roster may be in another order. |
| `Lifecycle.OverviewLeavesStorageBehind` | screens/admin/AdminDashboard.tsx:70 | After the overview renders, a reload yields the roster in its old order while the live roster is sorted. |
| `Lifecycle.DispatchResyncs` | App.tsx:59-62 | The next operation that replaces the snapshot puts storage back in step. |
| `Mutations.AddXp` | App.tsx:80-85 | The new XP never exceeds `maxXp`. It equals either the cap or the old XP plus the amount, and is at most the latter. A non-negative amount keeps XP in [0, maxXp]. Nothing else changes. |
| `Mutations.AddStudent` | App.tsx:88-90 | The new student comes first and the old roster follows in order. The length grows by one. |
| `Mutations.AddStudentUniqueness` | App.tsx:88-90 | With distinct ids before, ids stay distinct if and only if the new id is fresh. Nothing enforces this. |
| `Mutations.DeleteStudent` | App.tsx:92-94 | Exactly the students with a different id remain, each as many times as before, in their original order. |
| `Mutations.DeleteStudentAbsent` | App.tsx:92-94 | Deleting an id no student has returns the snapshot unchanged. |
| `Mutations.DeleteStudentTwice` | App.tsx:92-94 | Deleting twice equals deleting once. |
| `Mutations.AddMission` | App.tsx:96-98 | The new mission comes first and the old list follows in order. The length grows by one. |
| `Mutations.AddMissionUniqueness` | App.tsx:96-98 | With distinct ids before, mission ids stay distinct if and only if the new id is fresh. Nothing enforces this. |
| `Mutations.DeleteMission` | App.tsx:100-102 | Exactly the missions with a different id remain, each as many times as before, in their original order. |
| `Mutations.DeleteMissionAbsent` | App.tsx:100-102 | Deleting an id no mission has returns the snapshot unchanged. |
| `Mutations.DeleteMissionTwice` | App.tsx:100-102 | Deleting twice equals deleting once. |
| `Mutations.SetStatus` | App.tsx:110 | Only the status field changes. Submissions with the id get the new status, the others are untouched, and with no match the list is unchanged. |
| `Mutations.ApproveSubmission` | App.tsx:104-114 | With no matching id the snapshot is unchanged. Otherwise every submission with the id becomes approved, whatever its prior status, and every other submission is unchanged. |
| `Mutations.RejectSubmission` | App.tsx:116-122 | Every submission with the id becomes rejected, whatever its prior status, and the rest are unchanged. With no match the content is unchanged. |
| `Mutations.DecisionLastWins` | App.tsx:104-122 | Reject after approve on one id equals reject alone, and approve after reject equals approve alone. |
| `Mutations.DecisionIdempotent` | App.tsx:104-122 | Repeating the same decision on an id changes nothing more. |
| `Router.InitialView` | App.tsx:47-50 | Before anyone logs in, the login screen shows. |
| `Router.Login` | App.tsx:66-71 | Login sets the logged-in flag and sets the admin flag to the chosen mode. It resets the admin screen to the overview and the student screen to the dashboard. |
| `Router.Logout` | App.tsx:73-77 | Logout clears both flags and resets the student screen. It keeps the admin screen as it was. |
| `Router.NavigateStudent` | App.tsx:240-243 | Student navigation sets the student screen and nothing else. |
| `Router.NavigateAdmin` | App.tsx:191 | Admin navigation sets the admin screen and nothing else. |
| `Router.Render` | App.tsx:126-236 | The view is the login screen exactly when logged out. It is an admin page exactly when logged in as admin, and a student page otherwise. Unlisted screens fall back to the overview or the dashboard. |
| `Router.LoginLanding` | App.tsx:66-71 | Right after login, an admin sees the overview and a student sees the dashboard. |
| `Router.StaleAdminScreenInvisible` | App.tsx:66-77 | After logout the login screen shows. The view after the next login does not depend on anything before the logout. |
| `Router.NavigationWhileLoggedOut` | App.tsx:126-128 | While logged out, no navigation changes the login view. |
| `Shop.Open` | screens/Shop.tsx:9-11 | The screen starts with the `coins` prop and nothing purchased. |
| `Shop.Buy` | screens/Shop.tsx:14-28 | Outcomes are checked in order: already owned, then insufficient funds, then declined, then purchased. Only a purchase changes anything: it debits exactly the price and appends the id. A purchase never leaves the balance negative, and no id is added twice. |
| `Shop.BuyConserves` | screens/Shop.tsx:19-22 | With distinct catalog ids, a click on a catalog item keeps balance plus spent equal to the starting balance. |
| `Shop.ShoppingInvariant` | screens/Shop.tsx:10-22 | Over any sequence of clicks on catalog items, balance plus the prices of purchased items stays at the starting balance. No id is bought twice, and a non-negative balance stays non-negative. |
| `Shop.OpenConserves` | screens/Shop.tsx:10-11 | A freshly opened screen satisfies the conservation invariant. |
| `Shop.CategoryKeys` | screens/Shop.tsx:32 | Lower-casing the tab labels, with 'poderes' renamed, gives the categories 'avatar', 'powerup' and 'real'. |
| `Shop.FilterItems` | screens/Shop.tsx:30-32 | 'Todos' yields the whole catalog. Any other tab yields exactly the items of its category, each as many times as in the catalog, in catalog order. |
| `Shop.FilterItemsIdempotent` | screens/Shop.tsx:30-32 | Applying a tab to the list it already shows changes nothing. |
| `Shop.CategoryTabsDisjoint` | screens/Shop.tsx:30-32 | Two different category tabs never show the same item. |
| `ValidationPortal.PendingQueue` | screens/admin/ValidationPortal.tsx:12 | Exactly the pending submissions, each as many times as in the list, in their original order. |
| `ValidationPortal.History` | screens/admin/ValidationPortal.tsx:13 | Exactly the non-pending submissions, each as many times as in the list, in their original order. |
| `ValidationPortal.Partition` | screens/admin/ValidationPortal.tsx:12-13 | Queue and history sizes add up to the number of submissions. No submission is in both. |
| `ValidationPortal.Render` | screens/admin/ValidationPortal.tsx:12-116 | The portal lists the queue and the history. The empty-queue notice shows exactly when nothing is pending, and the empty-history notice exactly when everything is pending. |
| `ValidationPortal.Offers` | screens/admin/ValidationPortal.tsx:43-75 | The portal offers a decision exactly for an approve or reject whose id belongs to a pending submission. Such an id always matches. |
| `ValidationPortal.PortalDecisionIsOneWay` | screens/admin/ValidationPortal.tsx:43-75 | With distinct ids, a decision offered by the portal moves exactly one pending submission to the decided status. Every other submission is left as it was. |
| `AdminDashboard.PendingCount` | screens/admin/AdminDashboard.tsx:12 | The count equals the number of pending submissions, counted one by one. It is zero exactly when nothing is pending, and full exactly when everything is. |
| `AdminDashboard.TotalCoins` | screens/admin/AdminDashboard.tsx:13 | The total is 0 for an empty roster. With no negative balance it is non-negative and at least any one student's coins. |
| `AdminDashboard.Highlight` | screens/admin/AdminDashboard.tsx:21 | The validation card is highlighted exactly when some submission is pending. |
| `Seqs.Reduce` | screens/admin/AdminDashboard.tsx:13 | The left-to-right accumulation from 0 equals the sum of the projected values. |
| `AdminDashboard.SortByXp` | screens/admin/AdminDashboard.tsx:70 | The sorted roster is a permutation of the original, ordered by non-increasing XP. |
| `AdminDashboard.InsertKeepsOrder` | screens/admin/AdminDashboard.tsx:70 | Inserting a student into an XP-ordered roster keeps it ordered. |
| `AdminDashboard.OverviewInPlace` | screens/admin/AdminDashboard.tsx:70 | Rendering the overview replaces the snapshot's roster with an XP-ordered permutation of itself. Nothing else changes. |
| `AdminDashboard.OverviewDisplacesNewStudent` | screens/admin/AdminDashboard.tsx:70 | A student just added first stops being first once the overview renders, if anyone has more XP. |
| `AdminDashboard.SortKeepsSums` | screens/admin/AdminDashboard.tsx:13-70 | Any per-student sum, such as total coins or total XP, is the same before and after the sort. |
| `AdminDashboard.Leaderboard` | screens/admin/AdminDashboard.tsx:70 | The board has min(4, n) students, ordered by non-increasing XP, drawn from the roster. Every student left off has at most the XP of every listed one. |
| `Reports.RoundHalfUp` | screens/admin/Reports.tsx:24-25 | The result is the integer nearest p/q, with halves rounded up. |
| `Reports.RoundHalfUpBetween` | screens/admin/Reports.tsx:24-25 | Rounding a ratio that lies between two integers stays between them. |
| `Reports.TotalXp` | screens/admin/Reports.tsx:23 | The total is 0 for an empty roster. With no negative XP it is non-negative and at least any one student's XP. |
| `Reports.AvgXp` | screens/admin/Reports.tsx:23-24 | With no students the average is 0. Otherwise it is total XP over the student count, rounded half up. |
| `Reports.AvgXpWithinRange` | screens/admin/Reports.tsx:23-24 | For a non-empty roster, the average lies between any lower and upper bound of the students' XP. |
| `Reports.CompletedCount` | screens/admin/Reports.tsx:25 | The count equals the number of completed missions, counted one by one. It is zero exactly when none is completed. |
| `Reports.CompletionRate` | screens/admin/Reports.tsx:25 | The rate lies in [0, 100]. It is 0 with no missions or none completed. Otherwise it is 100 times completed over total, rounded half up. |
| `Reports.CompletionRateAllDone` | screens/admin/Reports.tsx:25 | With every mission completed the rate is exactly 100. |
| `Text.Lower` | screens/admin/StudentManager.tsx:15-16 | Lower-casing keeps the length, maps each character on its own, and leaves no ASCII capital. |
| `Text.Contains` | screens/admin/StudentManager.tsx:15-16 | Containment holds exactly when some position starts an occurrence. The empty string is contained in every string. |
| `StudentManager.Search` | screens/admin/StudentManager.tsx:14-17 | Exactly the students whose lower-cased name or class contains the lower-cased term, each as many times as in the roster, in roster order. |
| `StudentManager.SearchEmptyTerm` | screens/admin/StudentManager.tsx:14-17 | An empty term lists the whole roster in its order. |
| `StudentManager.SearchCaseInsensitive` | screens/admin/StudentManager.tsx:15-16 | A term and its lower-cased form find the same students. |
| `StudentManager.ShowsNoResults` | screens/admin/StudentManager.tsx:129 | The "no student found" row shows exactly when no student matches. |
| `StudentManager.DeleteRequest` | screens/admin/StudentManager.tsx:19-23 | A delete of that row's id is requested exactly when the confirmation is accepted. |
| `StudentManager.DeleteGate` | screens/admin/StudentManager.tsx:19-23 | Declining requests nothing. Accepting leaves no student with the id. |
| `StudentManager.NewStudent` | screens/admin/StudentManager.tsx:25-39 | The created record is named 'Novo Aluno ' followed by the decimal of count + 1, with email 'aluno<id>@ceitec.edu'. It has class '9º Ano A', level 1, 0 XP, 100 coins and 0 missions. |
| `StudentManager.CreatedStudentNumbersRoster` | screens/admin/StudentManager.tsx:25-39 | Once added, the number in the new student's name equals the roster size. |
| `Text.DecimalRoundTrip` | screens/admin/StudentManager.tsx:29 | Reading back the decimal rendering of a number gives the number. |
| `MissionManager.NewMission` | screens/admin/MissionManager.tsx:20-33 | The created mission is titled 'Nova Missão ' followed by the decimal of count + 1. It is a 150-XP quiz with progress 0 of 1 and is not completed. |
| `MissionManager.CreatedMissionNumbersList` | screens/admin/MissionManager.tsx:20-33 | Once added, the number in the new title equals the mission count. |
| `MissionManager.DeleteRequest` | screens/admin/MissionManager.tsx:14-18 | A delete of the mission's id is requested exactly when the confirmation is accepted. |
| `MissionManager.Grid` | screens/admin/MissionManager.tsx:71 | The grid shows as many cards as there are missions, and no tab hides a mission of any kind. |
| `MissionManager.GridIgnoresFilter` | screens/admin/MissionManager.tsx:71 | The grid shows every mission whichever filter tab is selected. |
| `MissionManager.StatusBadge` | screens/admin/MissionManager.tsx:98-99 | The badge reads 'Ativa' exactly when the mission is completed, and 'Em Rascunho' otherwise. |
| `Seqs.Filter` | App.tsx:93 | The filter keeps exactly the elements satisfying the predicate, each as often as it occurs, in their original order. |
| `Seqs.FilterCount` | screens/admin/AdminDashboard.tsx:12 | The length of a filter equals the number of elements satisfying the predicate. |

## Left out

- JSX rendering, CSS classes, animations, and the pure-presentation components: Layout.tsx, AdminLayout.tsx, Dashboard.tsx and Disciplines.tsx.
- The `alert` texts of the shop and managers carry no state. The two store acknowledgments are kept (`Store.Acknowledgment`).
- `localStorage` and JSON serialisation are foreign code. The storage medium is a map, and serialisation is assumed to round-trip faithfully. JSON's loss of `undefined` fields or `NaN` values is not modelled.
- JavaScript numbers are unbounded `int` here: XP, coins, prices and the `addXp` amount. Doubles are exact only for integers up to 2^53. Above that, the exact conservation of `Shop.ShoppingInvariant` and the clamp of `Mutations.AddXp` are not promised by the source.
- Stored text that parses but is not a snapshot (`null`, `{}`, an object in an older shape) is accepted as the state unchecked, because the loader only tests truthiness before `JSON.parse`. `Store.Stored` cannot express such a value, so the model does not cover it.
- A failing `localStorage.setItem` (for example, quota exceeded) is not modelled. `Store.Save` always succeeds. The persist effect does not catch the error either.
- `Math.random` id generation: ids are parameters of the constructors.
- Unicode: lower-casing covers the ASCII capitals only. Accented capitals such as 'Ã' are left unchanged, and the NFD diacritic stripping is not modelled. The four shop tab labels are ASCII, so their category keys are exact.
- Float-only display math: `toFixed`, `toLocaleString`, the progress-bar widths and the SVG ring offset.
- Reports.CompletionRate: rounds the exact rational 100·c/m. The source rounds the floating-point product (c/m)·100, which can differ by one at an exact .5 tie.
- Reports.AvgXp: rounds the exact rational total/n, where the source rounds a floating-point quotient. A single correctly rounded division of integers below 2^52 in magnitude cannot cross a .5 boundary, so the two agree for any realistic total. Beyond that range JavaScript's number precision is not modelled.
- The hard-coded figures of the reports screen: trend strings, bar heights and the clan table.
- services/api.ts, backend/app.py and backend/models.py: networking and ORM code with no logic to verify.
- The contents of the fixtures (constants.ts) and the exact fields of `RankingEntry` (types.ts) are not part of this model. The ranking list is stored and returned but never inspected.
- The ECONOMY and SETTINGS admin pages, and the student ACTIVITY page, only render constants or `shopItems`. The router selects them, but their content is not modelled.
- Shop purchases are never written back to `purchasedItems` or `userStats.coins`. The shop state is local to the screen, so reopening it starts from the `coins` prop again.
- AdminDashboard.SortByXp: the sort is stable by construction (ties keep their earlier order), but stability is not stated as a separate property.
