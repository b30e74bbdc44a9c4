/**
 The admin overview: the pending-validation count and its highlight, the coin
 total, and the top-four XP leaderboard. The leaderboard is produced by
 `students.sort(...)` on the very array the snapshot holds, so rendering the
 overview reorders the roster as a side effect; the model keeps that.
 */
module AdminDashboard {
  import opened Domain
  import opened Seqs
  import opened State
  import VP = ValidationPortal
  import M = Mutations

  /** `pendingCount`: how many submissions await review. */
  function PendingCount(subs: seq<Submission>): (n: nat)
    ensures n == Count(subs, VP.IsPending)
    ensures n <= |subs|
    ensures n == 0 <==> forall s :: s in subs ==> s.status != Pending
    ensures n == |subs| <==> forall s :: s in subs ==> s.status == Pending
  {
    var q := VP.PendingQueue(subs);
    VP.Partition(subs);
    FilterCount(subs, VP.IsPending);
    FilterEmpty(subs, VP.IsPending);
    FilterEmpty(subs, VP.IsDecided);
    |q|
  }

  /** The validation card pulses exactly when something awaits review. */
  function Highlight(subs: seq<Submission>): (h: bool)
    ensures h <==> exists s :: s in subs && s.status == Pending
  {
    PendingCount(subs) > 0
  }

  function CoinsOf(s: Student): int
  {
    s.coins
  }

  /**
   `totalCoins`: the coins of all students together. With no negative balance
   the total is non-negative and at least any one student's coins.
   */
  function TotalCoins(students: seq<Student>): (t: int)
    ensures |students| == 0 ==> t == 0
    ensures (forall s :: s in students ==> s.coins >= 0) ==>
              t >= 0 && forall s :: s in students ==> s.coins <= t
  {
    assert (forall s :: s in students ==> s.coins >= 0) ==>
             SumOf(students, CoinsOf) >= 0 && forall s :: s in students ==> s.coins <= SumOf(students, CoinsOf) by {
      if forall s :: s in students ==> s.coins >= 0 {
        SumOfDominates(students, CoinsOf);
      }
    }
    SumOf(students, CoinsOf)
  }

  /** Ordered by XP from highest to lowest, as the comparator `b.xp - a.xp` sorts. */
  predicate ByXpDesc(s: seq<Student>)
  {
    forall i, j :: 0 <= i < j < |s| ==> s[i].xp >= s[j].xp
  }

  /** Places `x` before the first student with no more XP than it has. */
  function InsertByXp(x: Student, s: seq<Student>): (r: seq<Student>)
    ensures |r| == |s| + 1
    ensures multiset(r) == multiset(s) + multiset{x}
    decreases |s|
  {
    if |s| == 0 || x.xp >= s[0].xp then [x] + s
    else
      assert s == [s[0]] + s[1..];
      [s[0]] + InsertByXp(x, s[1..])
  }

  /** Inserting into a roster ordered by descending XP keeps it ordered. */
  lemma {:induction false} InsertKeepsOrder(x: Student, s: seq<Student>)
    requires ByXpDesc(s)
    ensures ByXpDesc(InsertByXp(x, s))
    decreases |s|
  {
    var r := InsertByXp(x, s);
    if |s| == 0 || x.xp >= s[0].xp {
      forall i, j | 0 <= i < j < |r|
        ensures r[i].xp >= r[j].xp
      {
        if i == 0 {
          assert r[j] == s[j - 1];
          assert s[0].xp >= s[j - 1].xp;
        } else {
          assert r[i] == s[i - 1] && r[j] == s[j - 1];
        }
      }
    } else {
      var t := InsertByXp(x, s[1..]);
      InsertKeepsOrder(x, s[1..]);
      assert r == [s[0]] + t;
      forall j | 0 <= j < |t|
        ensures s[0].xp >= t[j].xp
      {
        assert t[j] in multiset(t);
        assert t[j] == x || t[j] in multiset(s[1..]);
        if t[j] != x {
          var k :| 0 <= k < |s[1..]| && s[1..][k] == t[j];
          assert s[k + 1] == t[j];
        }
      }
      forall i, j | 0 <= i < j < |r|
        ensures r[i].xp >= r[j].xp
      {
        if i == 0 {
          assert r[j] == t[j - 1];
        } else {
          assert r[i] == t[i - 1] && r[j] == t[j - 1];
        }
      }
    }
  }

  /**
   The in-place sort by descending XP, built by insertion; equal XP keeps the
   earlier student first, as JavaScript's stable sort does.
   */
  function SortByXp(xs: seq<Student>): (r: seq<Student>)
    ensures |r| == |xs|
    ensures multiset(r) == multiset(xs)
    ensures ByXpDesc(r)
    decreases |xs|
  {
    if |xs| == 0 then []
    else
      assert xs == [xs[0]] + xs[1..];
      InsertKeepsOrder(xs[0], SortByXp(xs[1..]));
      InsertByXp(xs[0], SortByXp(xs[1..]))
  }

  /** Inserting adds exactly the inserted student's term to any sum. */
  lemma {:induction false} SumOfInsert(x: Student, s: seq<Student>, f: Student -> int)
    ensures SumOf(InsertByXp(x, s), f) == f(x) + SumOf(s, f)
    decreases |s|
  {
    if |s| > 0 && x.xp < s[0].xp {
      SumOfInsert(x, s[1..], f);
    }
  }

  /** Reordering the roster changes no sum over it: coin and XP totals survive the sort. */
  lemma {:induction false} SortKeepsSums(xs: seq<Student>, f: Student -> int)
    ensures SumOf(SortByXp(xs), f) == SumOf(xs, f)
    decreases |xs|
  {
    if |xs| > 0 {
      SortKeepsSums(xs[1..], f);
      SumOfInsert(xs[0], SortByXp(xs[1..]), f);
    }
  }

  /** Rendering the overview: the snapshot's roster comes back sorted in place. */
  function OverviewInPlace(st: AppState): (r: AppState)
    ensures multiset(r.students) == multiset(st.students)
    ensures ByXpDesc(r.students)
    ensures OnlyChanged(st, r, StudentsField)
  {
    st.(students := SortByXp(st.students))
  }

  /**
   A consequence of the in-place sort: a student just added at the head of the
   roster loses that place once the overview is shown, if anyone has more XP.
   */
  lemma OverviewDisplacesNewStudent(st: AppState, s: Student)
    requires exists y :: y in st.students && y.xp > s.xp
    ensures OverviewInPlace(M.AddStudent(st, s)).students[0] != s
  {
    var y :| y in st.students && y.xp > s.xp;
    var before := M.AddStudent(st, s).students;
    var after := OverviewInPlace(M.AddStudent(st, s)).students;
    assert y in before by { assert before[1..] == st.students; }
    assert y in multiset(after);
    var j :| 0 <= j < |after| && after[j] == y;
    assert after[0].xp >= after[j].xp;
  }

  /** In a roster ordered by descending XP, no one after position `n` outranks anyone before it. */
  lemma SplitOrdered(sorted: seq<Student>, n: nat)
    requires ByXpDesc(sorted) && n <= |sorted|
    ensures forall x, y :: x in sorted[..n] && y in sorted[n..] ==> y.xp <= x.xp
  {
    forall x, y | x in sorted[..n] && y in sorted[n..]
      ensures y.xp <= x.xp
    {
      var i :| 0 <= i < n && sorted[..n][i] == x;
      var j :| 0 <= j < |sorted| - n && sorted[n..][j] == y;
      assert sorted[i] == x && sorted[n + j] == y;
    }
  }

  /** Splitting a sequence splits its multiset. */
  lemma SplitMultiset(xs: seq<Student>, n: nat)
    requires n <= |xs|
    ensures multiset(xs) - multiset(xs[..n]) == multiset(xs[n..])
    ensures multiset(xs[..n]) <= multiset(xs)
  {
    assert xs == xs[..n] + xs[n..];
  }

  /** The first `min(4, n)` students of the sorted roster. */
  function Leaderboard(students: seq<Student>): (r: seq<Student>)
    ensures |r| == if |students| < 4 then |students| else 4
    ensures ByXpDesc(r)
    ensures multiset(r) <= multiset(students)
    ensures forall x, y :: x in r && y in multiset(students) - multiset(r) ==> y.xp <= x.xp
  {
    var sorted := SortByXp(students);
    var n := if |students| < 4 then |students| else 4;
    SplitOrdered(sorted, n);
    SplitMultiset(sorted, n);
    sorted[..n]
  }
}
