/**
 The admin mission manager: the "new mission" record, the confirmation gate
 in front of a delete, the grid, and each card's status badge.
 */
module MissionManager {
  import opened Wrappers
  import opened Domain
  import opened Text
  import opened State
  import Store
  import M = Mutations

  const TitlePrefix := "Nova Missão "

  /**
   `handleCreateMock` with the random id given: titled after the next list
   position, a 150-XP quiz with one step, not completed.
   */
  function NewMission(id: string, count: nat): (r: Mission)
    ensures r.id == id
    ensures r.title == TitlePrefix + Decimal(count + 1)
    ensures |r.title| > |TitlePrefix| && r.title[..|TitlePrefix|] == TitlePrefix
    ensures IsDigits(r.title[|TitlePrefix|..]) && DecimalValue(r.title[|TitlePrefix|..]) == count + 1
    ensures r.reward == 150 && r.rewardType == XpReward && r.kind == Quiz
    ensures r.progress == 0 && r.maxProgress == 1 && !r.completed
  {
    var digits := Decimal(count + 1);
    DecimalRoundTrip(count + 1);
    var title := TitlePrefix + digits;
    assert title[|TitlePrefix|..] == digits;
    Mission(id, title, "Descrição automática da nova missão para fins de teste.",
            150, XpReward, 0, 1, false, Quiz)
  }

  /** After adding the created mission, the number in its title is the list length. */
  lemma CreatedMissionNumbersList(st: AppState, id: string)
    ensures var after := M.AddMission(st, NewMission(id, |st.missions|)).missions;
            DecimalValue(after[0].title[|TitlePrefix|..]) == |after|
  {
  }

  /** `handleDelete`: `onDelete(id)` is requested only when the confirmation is accepted. */
  function DeleteRequest(id: string, confirmed: bool): (r: Option<Store.Op>)
    ensures r.Some? <==> confirmed
    ensures r.Some? ==> r.value == Store.DeleteMission(id)
  {
    if confirmed then Some(Store.DeleteMission(id)) else None
  }

  /** The filter tabs 'all', 'content', 'test'. */
  datatype MissionFilter = AllMissions | ContentMissions | TestMissions

  /**
   The grid: the tab is highlighted but the list shown is always every
   mission, so no tab hides a mission of any kind.
   */
  function Grid(missions: seq<Mission>, tab: MissionFilter): (r: seq<Mission>)
    ensures |r| == |missions|
    ensures forall m :: m in missions ==> m in r
  {
    missions
  }

  /** Switching the filter tab never changes the missions on display. */
  lemma GridIgnoresFilter(missions: seq<Mission>, a: MissionFilter, b: MissionFilter)
    ensures Grid(missions, a) == Grid(missions, b) == missions
  {
  }

  /** The status badge on a mission card. */
  function StatusBadge(m: Mission): (r: string)
    ensures r == "Ativa" <==> m.completed
    ensures r == "Ativa" || r == "Em Rascunho"
  {
    if m.completed then "Ativa" else "Em Rascunho"
  }
}
