/** The local-fallback streak: the calendar days of the stored preferences
    are sorted newest first, and the streak is the length of the run of
    consecutive days at the head of that list. Days are not deduplicated:
    two entries on the same day sit next to each other after the sort, are
    zero days apart, and end the walk. */
module StreakCalculator {
  import opened Preferences

  /** Newest first: no day is later than one before it. */
  predicate Descending(days: seq<int>) {
    forall i, j :: 0 <= i < j < |days| ==> days[i] >= days[j]
  }

  /** A day no earlier than the head of a newest-first list can go in front of it. */
  lemma ConsDescending(day: int, days: seq<int>)
    requires Descending(days)
    requires days != [] ==> day >= days[0]
    ensures Descending([day] + days)
  {
  }

  /** Inserts `day` into a newest-first list, keeping it newest first. */
  function InsertDescending(day: int, days: seq<int>): (r: seq<int>)
    requires Descending(days)
    ensures Descending(r)
    ensures multiset(r) == multiset(days) + multiset{day}
    ensures |r| == |days| + 1
    ensures r[0] == day || (days != [] && r[0] == days[0])
  {
    if days == [] || day >= days[0] then
      assert Descending([day] + days) by {
        ConsDescending(day, days);
      }
      [day] + days
    else
      assert Descending(days[1..]) by {
        DescendingTail(days);
      }
      var rest := InsertDescending(day, days[1..]);
      assert multiset(days) == multiset{days[0]} + multiset(days[1..]) by {
        assert days == [days[0]] + days[1..];
      }
      assert Descending([days[0]] + rest) by {
        ConsDescending(days[0], rest);
      }
      [days[0]] + rest
  }

  /** Dropping the newest day keeps a list newest first. */
  lemma DescendingTail(days: seq<int>)
    requires Descending(days) && days != []
    ensures Descending(days[1..])
  {
  }

  /** The days sorted newest first, as the comparator `b - a` orders them. */
  function SortDescending(days: seq<int>): (r: seq<int>)
    ensures Descending(r)
    ensures multiset(r) == multiset(days)
    ensures |r| == |days|
  {
    if days == [] then []
    else
      assert days == [days[0]] + days[1..];
      InsertDescending(days[0], SortDescending(days[1..]))
  }

  /** The first element of a newest-first list is its latest day. */
  lemma HeadIsLatest(days: seq<int>, day: int)
    requires Descending(days) && day in multiset(days)
    ensures |days| > 0 && days[0] >= day
  {
  }

  /** A list is newest first when each adjacent pair is. */
  lemma {:induction false} DescendingFromAdjacent(days: seq<int>)
    requires forall k :: 0 <= k < |days| - 1 ==> days[k] >= days[k + 1]
    ensures Descending(days)
  {
    if |days| > 1 {
      DescendingFromAdjacent(days[1..]);
      forall j | 0 < j < |days| ensures days[0] >= days[j] {
        if j > 1 {
          assert days[1..][0] >= days[1..][j - 1];
        }
      }
    }
  }

  /** Two newest-first lists with the same days start with the same day and
      continue with newest-first lists of the same remaining days. */
  lemma SameHeadSameRest(a: seq<int>, b: seq<int>)
    requires Descending(a) && Descending(b)
    requires multiset(a) == multiset(b) && a != []
    ensures b != [] && a[0] == b[0]
    ensures multiset(a[1..]) == multiset(b[1..])
    ensures Descending(a[1..]) && Descending(b[1..])
  {
    assert a[0] in multiset(a);
    HeadIsLatest(b, a[0]);
    assert b[0] in multiset(b);
    HeadIsLatest(a, b[0]);
    MultisetTail(a);
    MultisetTail(b);
    DescendingTail(a);
    DescendingTail(b);
  }

  /** A multiset of days has exactly one newest-first arrangement, so the
      sort's result depends only on which days occur, how often. */
  lemma {:induction false} DescendingUnique(a: seq<int>, b: seq<int>)
    requires Descending(a) && Descending(b)
    requires multiset(a) == multiset(b)
    ensures a == b
  {
    if a == [] {
      assert |b| == |multiset(b)| == 0;
    } else {
      SameHeadSameRest(a, b);
      DescendingUnique(a[1..], b[1..]);
      calc {
        a;
        [a[0]] + a[1..];
        [b[0]] + b[1..];
        b;
      }
    }
  }

  /** The first `n` entries of `days` are consecutive: each is exactly one day
      after the next. */
  ghost predicate LeadingConsecutive(days: seq<int>, n: nat)
    requires n <= |days|
  {
    forall j :: 0 <= j < n - 1 ==> days[j] - days[j + 1] == 1
  }

  /** The number of days in the run at the head of a newest-first list: the
      head counts, and so does each following day exactly one day earlier
      than the one before it, up to the first pair that is not. */
  function ConsecutiveRun(days: seq<int>): (n: nat)
    requires |days| > 0
    ensures 1 <= n <= |days|
  {
    if |days| == 1 || days[0] - days[1] != 1 then 1
    else 1 + ConsecutiveRun(days[1..])
  }

  /** The streak of a newest-first list of days: 0 when there are none. */
  function StreakOfDays(days: seq<int>): (n: nat)
    ensures n <= |days|
    ensures n == 0 <==> |days| == 0
  {
    if |days| == 0 then 0 else ConsecutiveRun(days)
  }

  /** The streak the local fallback reports for a stored list of preferences. */
  function Streak(preferences: seq<UserPreference>, zoneOffsetMs: int): (n: nat)
    ensures n <= |preferences|
    ensures n == 0 <==> |preferences| == 0
  {
    StreakOfDays(SortDescending(DaysOf(preferences, zoneOffsetMs)))
  }

  /** The run is `k` days long exactly when the first `k` days are consecutive
      and the walk stops there: either the list ends or the next pair is not
      one day apart. Nothing after position `k` is looked at. */
  lemma {:induction false} ConsecutiveRunIs(days: seq<int>, k: nat)
    requires 1 <= k <= |days|
    ensures ConsecutiveRun(days) == k
        <==> LeadingConsecutive(days, k) && (k == |days| || days[k - 1] - days[k] != 1)
  {
    if |days| == 1 || days[0] - days[1] != 1 {
      assert ConsecutiveRun(days) == 1;
      if k > 1 {
        assert !LeadingConsecutive(days, k) by {
          assert days[0] - days[1] != 1;
        }
      }
    } else if k == 1 {
      assert ConsecutiveRun(days) > 1 by {
        assert ConsecutiveRun(days) == 1 + ConsecutiveRun(days[1..]);
      }
    } else {
      var tail := days[1..];
      ConsecutiveRunIs(tail, k - 1);
      assert LeadingConsecutive(days, k) <==> LeadingConsecutive(tail, k - 1) by {
        if LeadingConsecutive(tail, k - 1) {
          forall j | 0 <= j < k - 1 ensures days[j] - days[j + 1] == 1 {
            if j > 0 {
              assert days[j] - days[j + 1] == tail[j - 1] - tail[j];
            }
          }
        }
        if LeadingConsecutive(days, k) {
          forall j | 0 <= j < k - 2 ensures tail[j] - tail[j + 1] == 1 {
            assert tail[j] - tail[j + 1] == days[j + 1] - days[j + 2];
          }
        }
      }
      assert k < |days| ==> days[k - 1] - days[k] == tail[k - 2] - tail[k - 1];
    }
  }

  /** Once the walk has stopped, the days after the stopping point can be
      replaced by anything without changing the run. */
  lemma {:induction false} ConsecutiveRunIgnoresRest(days: seq<int>, rest: seq<int>)
    requires |days| > 0 && ConsecutiveRun(days) < |days|
    ensures ConsecutiveRun(days[..ConsecutiveRun(days) + 1] + rest) == ConsecutiveRun(days)
  {
    var k := ConsecutiveRun(days);
    var other := days[..k + 1] + rest;
    ConsecutiveRunIs(days, k);
    assert forall j :: 0 <= j <= k ==> other[j] == days[j];
    ConsecutiveRunIs(other, k);
  }

  /** The streak reported for preferences equals the streak of any
      newest-first arrangement of their days. */
  lemma StreakOfArrangement(preferences: seq<UserPreference>, zoneOffsetMs: int, days: seq<int>)
    requires Descending(days)
    requires multiset(days) == multiset(DaysOf(preferences, zoneOffsetMs))
    ensures Streak(preferences, zoneOffsetMs) == StreakOfDays(days)
  {
    DescendingUnique(SortDescending(DaysOf(preferences, zoneOffsetMs)), days);
  }

  /** The streak depends only on which calendar days occur and how often, not
      on the order in which the preferences were stored. */
  lemma StreakDependsOnlyOnDays(p: seq<UserPreference>, q: seq<UserPreference>, zoneOffsetMs: int)
    requires multiset(DaysOf(p, zoneOffsetMs)) == multiset(DaysOf(q, zoneOffsetMs))
    ensures Streak(p, zoneOffsetMs) == Streak(q, zoneOffsetMs)
  {
    StreakOfArrangement(q, zoneOffsetMs, SortDescending(DaysOf(p, zoneOffsetMs)));
  }

  /** Storing the same preferences in another order gives the same streak. */
  lemma StreakIgnoresOrder(p: seq<UserPreference>, q: seq<UserPreference>, zoneOffsetMs: int)
    requires multiset(p) == multiset(q)
    ensures Streak(p, zoneOffsetMs) == Streak(q, zoneOffsetMs)
  {
    DaysOfPermutation(p, q, zoneOffsetMs);
    StreakDependsOnlyOnDays(p, q, zoneOffsetMs);
  }

  /** The `n` days from `newest` back, one each, newest first. */
  function Countdown(newest: int, n: nat): seq<int> {
    seq(n, j => newest - j)
  }

  /** One preference on each of `n` consecutive days gives a streak of `n`. */
  lemma ConsecutiveDaysStreak(preferences: seq<UserPreference>, zoneOffsetMs: int, newest: int, n: nat)
    requires multiset(DaysOf(preferences, zoneOffsetMs)) == multiset(Countdown(newest, n))
    ensures Streak(preferences, zoneOffsetMs) == n
  {
    var days := Countdown(newest, n);
    StreakOfArrangement(preferences, zoneOffsetMs, days);
    if n > 0 {
      ConsecutiveRunIs(days, n);
    }
  }

  /** A newest-first list holding its latest day twice starts with that day twice. */
  lemma LatestTwiceAtHead(sorted: seq<int>, latest: int)
    requires Descending(sorted)
    requires multiset(sorted)[latest] >= 2
    requires forall d :: d in multiset(sorted) ==> d <= latest
    ensures |sorted| >= 2 && sorted[0] == latest && sorted[1] == latest
  {
    HeadIsLatest(sorted, latest);
    assert sorted[0] in multiset(sorted);
    assert sorted == [sorted[0]] + sorted[1..];
    assert multiset(sorted) == multiset{sorted[0]} + multiset(sorted[1..]);
    assert latest in sorted[1..];
    HeadIsLatest(sorted[1..], latest);
    assert sorted[1] in multiset(sorted);
  }

  /** Two positions holding the same value put two copies of it in the multiset. */
  lemma TwiceInMultiset(days: seq<int>, i: nat, j: nat)
    requires i < j < |days| && days[i] == days[j]
    ensures multiset(days)[days[i]] >= 2
  {
    assert days == days[..i] + [days[i]] + days[i + 1..];
    assert days[i + 1..][j - i - 1] == days[j];
    assert multiset(days) == multiset(days[..i]) + multiset{days[i]} + multiset(days[i + 1..]);
  }

  /** Two preferences on the latest day make the streak 1, whatever the
      earlier days are: after the sort they are adjacent, zero days apart. */
  lemma SameLatestDayGivesOne(preferences: seq<UserPreference>, zoneOffsetMs: int, i: nat, j: nat)
    requires i < j < |preferences|
    requires DayOf(preferences[i].timestamp, zoneOffsetMs) == DayOf(preferences[j].timestamp, zoneOffsetMs)
    requires forall k :: 0 <= k < |preferences| ==>
      DayOf(preferences[k].timestamp, zoneOffsetMs) <= DayOf(preferences[i].timestamp, zoneOffsetMs)
    ensures Streak(preferences, zoneOffsetMs) == 1
  {
    var days := DaysOf(preferences, zoneOffsetMs);
    var sorted := SortDescending(days);
    TwiceInMultiset(days, i, j);
    forall d | d in multiset(sorted) ensures d <= days[i] {
      assert d in days;
    }
    LatestTwiceAtHead(sorted, days[i]);
  }

  /** Days D, D-1, D-1, D-2 are newest first and their walk stops at the
      repeated D-1, after two days. */
  lemma RepeatedDayRun(newest: int)
    ensures Descending([newest, newest - 1, newest - 1, newest - 2])
    ensures StreakOfDays([newest, newest - 1, newest - 1, newest - 2]) == 2
  {
    var days := [newest, newest - 1, newest - 1, newest - 2];
    DescendingFromAdjacent(days);
    assert LeadingConsecutive(days, 2) by {
      assert days[0] - days[1] == 1;
    }
    ConsecutiveRunIs(days, 2);
  }

  /** A second preference on an earlier day of the run ends the streak there:
      days D, D-1, D-1, D-2 give 2, not 3, because the two entries on D-1 are
      zero days apart. */
  lemma RepeatedDayEndsStreak(preferences: seq<UserPreference>, zoneOffsetMs: int, newest: int)
    requires multiset(DaysOf(preferences, zoneOffsetMs)) == multiset([newest, newest - 1, newest - 1, newest - 2])
    ensures Streak(preferences, zoneOffsetMs) == 2
  {
    RepeatedDayRun(newest);
    StreakOfArrangement(preferences, zoneOffsetMs, [newest, newest - 1, newest - 1, newest - 2]);
  }

  /** Days D, D-1, D-2, D-4 are newest first and their walk stops at the
      missing D-3, after three days. */
  lemma GapRun(newest: int)
    ensures Descending([newest, newest - 1, newest - 2, newest - 4])
    ensures StreakOfDays([newest, newest - 1, newest - 2, newest - 4]) == 3
  {
    var days := [newest, newest - 1, newest - 2, newest - 4];
    DescendingFromAdjacent(days);
    assert LeadingConsecutive(days, 3) by {
      assert days[0] - days[1] == 1 && days[1] - days[2] == 1;
    }
    ConsecutiveRunIs(days, 3);
  }

  /** A missing day stops the walk before the days beyond it: D, D-1, D-2,
      D-4 give 3. */
  lemma GapStopsStreak(preferences: seq<UserPreference>, zoneOffsetMs: int, newest: int)
    requires multiset(DaysOf(preferences, zoneOffsetMs)) == multiset([newest, newest - 1, newest - 2, newest - 4])
    ensures Streak(preferences, zoneOffsetMs) == 3
  {
    GapRun(newest);
    StreakOfArrangement(preferences, zoneOffsetMs, [newest, newest - 1, newest - 2, newest - 4]);
  }

  /** A newest-first list with each repeated day kept once: the deduplicated
      list of days the walk would see if same-day entries were merged. */
  function DistinctDays(days: seq<int>): (r: seq<int>)
    ensures |r| <= |days|
    ensures days != [] ==> r != [] && r[0] == days[0]
    ensures forall d :: d in r <==> d in days
    ensures Descending(days) ==> NoRepeatedDay(r)
  {
    if |days| <= 1 then days
    else
      assert days == [days[0]] + days[1..];
      assert Descending(days) ==> Descending(days[1..]) by {
        if Descending(days) {
          DescendingTail(days);
        }
      }
      if days[0] == days[1] then DistinctDays(days[1..])
      else [days[0]] + DistinctDays(days[1..])
  }

  /** No two adjacent days are the same. */
  predicate NoRepeatedDay(days: seq<int>) {
    forall k :: 0 <= k < |days| - 1 ==> days[k] != days[k + 1]
  }

  /** Same-day entries can only shorten the walk: the run over the days as
      stored is never longer than the run over the deduplicated days. */
  lemma {:induction false} RunAtMostDistinctRun(days: seq<int>)
    requires days != []
    ensures ConsecutiveRun(days) <= ConsecutiveRun(DistinctDays(days))
  {
    if |days| > 1 && days[0] - days[1] == 1 {
      RunAtMostDistinctRun(days[1..]);
      var rest := DistinctDays(days[1..]);
      assert DistinctDays(days) == [days[0]] + rest;
      assert ([days[0]] + rest)[1..] == rest;
    }
  }

  /** Without repeated days deduplication changes nothing, so the run over
      the stored days is the deduplicated run. */
  lemma {:induction false} NoRepeatedDayIsDistinct(days: seq<int>)
    requires NoRepeatedDay(days)
    ensures DistinctDays(days) == days
  {
    if |days| > 1 {
      assert NoRepeatedDay(days[1..]) by {
        forall k | 0 <= k < |days| - 2 ensures days[1..][k] != days[1..][k + 1] {
          assert days[1..][k] == days[k + 1] && days[1..][k + 1] == days[k + 2];
        }
      }
      NoRepeatedDayIsDistinct(days[1..]);
      assert days[0] != days[1];
      assert days == [days[0]] + days[1..];
    }
  }

  /** The reported streak never exceeds the streak over distinct days, and
      equals it when no two preferences fall on the same day. */
  lemma StreakAtMostDistinctStreak(preferences: seq<UserPreference>, zoneOffsetMs: int)
    ensures var sorted := SortDescending(DaysOf(preferences, zoneOffsetMs));
      && Streak(preferences, zoneOffsetMs) <= StreakOfDays(DistinctDays(sorted))
      && (NoRepeatedDay(sorted) ==> Streak(preferences, zoneOffsetMs) == StreakOfDays(DistinctDays(sorted)))
  {
    var sorted := SortDescending(DaysOf(preferences, zoneOffsetMs));
    if sorted != [] {
      RunAtMostDistinctRun(sorted);
    }
    if NoRepeatedDay(sorted) {
      NoRepeatedDayIsDistinct(sorted);
    }
  }

  /** calculateStreak: 0 for no preferences; otherwise sort the days newest
      first and walk adjacent pairs from the newest, adding one per pair
      exactly one day apart and stopping at the first pair that is not. */
  method CalculateStreak(preferences: seq<UserPreference>, zoneOffsetMs: int) returns (streak: nat)
    ensures streak == Streak(preferences, zoneOffsetMs)
    ensures streak == 0 <==> |preferences| == 0
    ensures streak <= |preferences|
  {
    if |preferences| == 0 {
      return 0;
    }
    var dates := SortDescending(DaysOf(preferences, zoneOffsetMs));
    streak := 1;
    var currentDate := dates[0];
    for i := 1 to |dates|
      invariant streak == i
      invariant currentDate == dates[i - 1]
      invariant LeadingConsecutive(dates, i)
    {
      var prevDate := dates[i];
      var diffDays := currentDate - prevDate;
      if diffDays == 1 {
        streak := streak + 1;
        currentDate := prevDate;
      } else {
        ConsecutiveRunIs(dates, i);
        break;
      }
    }
    if streak == |dates| {
      ConsecutiveRunIs(dates, streak);
    }
  }
}
