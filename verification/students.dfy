/**
 The admin student manager: the name-or-class search, the confirmation gate
 in front of a delete, and the "new student" record it creates.
 */
module StudentManager {
  import opened Wrappers
  import opened Domain
  import opened Seqs
  import opened Text
  import opened State
  import Store
  import M = Mutations

  /** The search predicate: the lower-cased name or class contains the lower-cased term. */
  function Matches(term: string): Student -> bool
  {
    (s: Student) => Contains(Lower(s.name), Lower(term)) || Contains(Lower(s.group), Lower(term))
  }

  /** `filteredStudents`: the matching students, in roster order. */
  function Search(students: seq<Student>, term: string): (r: seq<Student>)
    ensures forall s :: s in r <==>
              s in students && (Contains(Lower(s.name), Lower(term)) || Contains(Lower(s.group), Lower(term)))
    ensures forall s :: multiset(r)[s] ==
              if Contains(Lower(s.name), Lower(term)) || Contains(Lower(s.group), Lower(term))
              then multiset(students)[s] else 0
    ensures SubseqOf(r, students)
  {
    Filter(students, Matches(term))
  }

  /** An empty search box lists the whole roster in its order. */
  lemma SearchEmptyTerm(students: seq<Student>)
    ensures Search(students, "") == students
  {
    FilterKeepsAll(students, Matches(""));
  }

  /** A term and its lower-cased form find the same students. */
  lemma SearchCaseInsensitive(students: seq<Student>, term: string)
    ensures Search(students, Lower(term)) == Search(students, term)
  {
    LowerIdempotent(term);
    FilterCongruent(students, Matches(Lower(term)), Matches(term));
  }

  /** The "no student found" row shows exactly when no student matches. */
  function ShowsNoResults(students: seq<Student>, term: string): (r: bool)
    ensures r <==> forall s :: s in students ==> !Matches(term)(s)
  {
    var found := Search(students, term);
    assert |found| > 0 ==> found[0] in found;
    |found| == 0
  }

  /** `handleDelete`: `onDelete(id)` is requested only when the confirmation is accepted. */
  function DeleteRequest(id: string, confirmed: bool): (r: Option<Store.Op>)
    ensures r.Some? <==> confirmed
    ensures r.Some? ==> r.value == Store.DeleteStudent(id)
  {
    if confirmed then Some(Store.DeleteStudent(id)) else None
  }

  /** The snapshot after a delete click: untouched when declined, without the id when accepted. */
  lemma DeleteGate(st: AppState, id: string, confirmed: bool)
    ensures DeleteRequest(id, confirmed).None? <==> !confirmed
    ensures DeleteRequest(id, confirmed).Some? ==>
              forall s :: s in Store.Apply(st, DeleteRequest(id, confirmed).value).students ==> s.id != id
  {
  }

  const NamePrefix := "Novo Aluno "

  /**
   `handleCreateMock` with the random id given: named after the next roster
   position, class '9º Ano A', level 1, no XP, 100 coins, no missions.
   */
  function NewStudent(id: string, count: nat): (r: Student)
    ensures r.id == id && r.email == "aluno" + id + "@ceitec.edu"
    ensures r.name == NamePrefix + Decimal(count + 1)
    ensures |r.name| > |NamePrefix| && r.name[..|NamePrefix|] == NamePrefix
    ensures IsDigits(r.name[|NamePrefix|..]) && DecimalValue(r.name[|NamePrefix|..]) == count + 1
    ensures r.group == "9º Ano A" && r.lastActive == "Agora"
    ensures r.level == 1 && r.xp == 0 && r.coins == 100 && r.missionsCompleted == 0
  {
    var digits := Decimal(count + 1);
    DecimalRoundTrip(count + 1);
    var name := NamePrefix + digits;
    assert name[|NamePrefix|..] == digits;
    Student(id, name, "aluno" + id + "@ceitec.edu", "9º Ano A", 1, 0, 100, 0, "Agora", "👶")
  }

  /** After adding the created student, the number in its name is the roster size. */
  lemma CreatedStudentNumbersRoster(st: AppState, id: string)
    ensures var after := M.AddStudent(st, NewStudent(id, |st.students|)).students;
            DecimalValue(after[0].name[|NamePrefix|..]) == |after|
  {
  }
}
