/**
 * The sobriety-streak and milestone engine of server/utils/streak.ts.
 *
 * A date enters as the calendar triple its local-time getters return
 * (getFullYear, getMonth, getDate); the local time-zone offset that produced
 * that triple is outside the model. "Today" is a parameter instead of a
 * clock read.
 */
module Streak {
  import opened Wrappers
  import opened EcmaTime

  /** A catalogue entry: a threshold in days and its label. */
  datatype Milestone = Milestone(days: int, name: string)

  /** The fixed milestone catalogue, in declared (ascending) order. */
  const Milestones: seq<Milestone> := [
    Milestone(1, "First Day"),
    Milestone(7, "One Week"),
    Milestone(30, "One Month"),
    Milestone(90, "Three Months"),
    Milestone(180, "Six Months"),
    Milestone(365, "One Year")
  ]

  function Abs(x: int): (r: int)
    ensures r >= 0 && (r == x || r == -x)
  {
    if x < 0 then -x else x
  }

  /**
   * calculateSoberDays: whole days from the start date to today, both taken
   * at UTC midnight of their calendar triples; 0 without a start date or
   * when the start is in the future.
   */
  function SoberDays(start: Option<CivilDate>, today: CivilDate): (r: int)
    ensures r >= 0
    ensures start.None? ==> r == 0
  {
    match start
    case None => 0
    case Some(s) =>
      var startUtc := DateUtc(s.year, s.month0, s.day);
      var todayUtc := DateUtc(today.year, today.month0, today.day);
      if startUtc > todayUtc then 0
      else
        var diffTime := Abs(todayUtc - startUtc);
        diffTime / MsPerDay
  }

  /** The UTC day number Date.UTC gives a calendar triple. */
  function UtcDay(c: CivilDate): int
  {
    MakeDay(UtcYear(c.year), c.month0, c.day)
  }

  lemma {:induction false} WholeDays(a: int, b: int)
    requires a <= b
    ensures (b * MsPerDay - a * MsPerDay) / MsPerDay == b - a
  {
    assert b * MsPerDay - a * MsPerDay == (b - a) * MsPerDay;
  }

  /**
   * The streak is the difference of the two UTC day numbers, or 0 when the
   * start day lies after today: Math.abs and Math.floor never change the value.
   */
  lemma {:induction false} SoberDaysIsDayDifference(s: CivilDate, today: CivilDate)
    ensures UtcDay(s) > UtcDay(today) ==> SoberDays(Some(s), today) == 0
    ensures UtcDay(s) <= UtcDay(today) ==> SoberDays(Some(s), today) == UtcDay(today) - UtcDay(s)
  {
    if UtcDay(s) <= UtcDay(today) {
      WholeDays(UtcDay(s), UtcDay(today));
    }
  }

  /** For real calendar dates, the streak counts the calendar days elapsed since the start. */
  lemma {:induction false} SoberDaysCountsCalendarDays(s: CivilDate, today: CivilDate)
    requires ValidDate(s) && ValidDate(today)
    requires !(0 <= s.year <= 99) && !(0 <= today.year <= 99)
    ensures Before(today, s) <==> DayNumber(s) > DayNumber(today)
    ensures Before(today, s) ==> SoberDays(Some(s), today) == 0
    ensures !Before(today, s) ==> SoberDays(Some(s), today) == DayNumber(today) - DayNumber(s)
    ensures SoberDays(Some(s), today) > 0 <==> Before(s, today)
  {
    DayNumberOrder(s, today);
    DayNumberOrder(today, s);
    SoberDaysIsDayDifference(s, today);
  }

  /** A streak that started today is 0 days long. */
  lemma SoberDaysSameDay(today: CivilDate)
    ensures SoberDays(Some(today), today) == 0
  {
    SoberDaysIsDayDifference(today, today);
  }

  /** A streak that started yesterday is 1 day long. */
  lemma SoberDaysYesterday(yesterday: CivilDate)
    requires ValidDate(yesterday)
    requires !(0 <= yesterday.year <= 99) && !(0 <= NextDay(yesterday).year <= 99)
    ensures SoberDays(Some(yesterday), NextDay(yesterday)) == 1
  {
    SoberDaysCountsCalendarDays(yesterday, NextDay(yesterday));
    DayNumberNextDay(yesterday);
  }

  /** Once started, the streak grows by exactly one with each calendar day. */
  lemma SoberDaysGrowsDaily(s: CivilDate, today: CivilDate)
    requires ValidDate(s) && ValidDate(today)
    requires !(0 <= s.year <= 99) && !(0 <= today.year <= 99) && !(0 <= NextDay(today).year <= 99)
    requires !Before(today, s)
    ensures SoberDays(Some(s), NextDay(today)) == SoberDays(Some(s), today) + 1
  {
    SoberDaysCountsCalendarDays(s, today);
    SoberDaysCountsCalendarDays(s, NextDay(today));
    DayNumberNextDay(today);
  }

  /** A start date in years 0..99 is read by Date.UTC as 1900..1999. */
  lemma SoberDaysTwoDigitYear(s: CivilDate, today: CivilDate)
    requires 0 <= s.year <= 99
    ensures SoberDays(Some(s), today) == SoberDays(Some(CivilDate(1900 + s.year, s.month0, s.day)), today)
  {
  }

  /** Array.filter keeping the entries whose threshold soberDays has reached, in order. */
  function Reached(ms: seq<Milestone>, soberDays: int): (r: seq<Milestone>)
    ensures |r| <= |ms|
  {
    if ms == [] then []
    else if soberDays >= ms[0].days then [ms[0]] + Reached(ms[1..], soberDays)
    else Reached(ms[1..], soberDays)
  }

  /** The filter keeps exactly the entries whose threshold soberDays has reached. */
  lemma {:induction false} ReachedMembers(ms: seq<Milestone>, soberDays: int)
    ensures forall m :: m in Reached(ms, soberDays) <==> m in ms && m.days <= soberDays
  {
    if ms != [] {
      ReachedMembers(ms[1..], soberDays);
      assert forall m :: m in ms <==> m == ms[0] || m in ms[1..];
    }
  }

  /**
   * getMilestones: the catalogue entries achieved after soberDays days. As the
   * catalogue ascends, they are the prefix of it holding exactly the
   * thresholds <= soberDays, in catalogue order.
   */
  function GetMilestones(soberDays: int): (r: seq<Milestone>)
    ensures |r| <= |Milestones| && r == Milestones[..|r|]
    ensures forall i :: 0 <= i < |Milestones| ==> (i < |r| <==> Milestones[i].days <= soberDays)
  {
    MilestonesCatalogue();
    ReachedIsPrefix(Milestones, soberDays);
    Reached(Milestones, soberDays)
  }

  predicate StrictlyAscending(ms: seq<Milestone>)
  {
    forall i, j :: 0 <= i < j < |ms| ==> ms[i].days < ms[j].days
  }

  /** The catalogue has six entries with thresholds 1, 7, 30, 90, 180, 365, strictly ascending. */
  lemma MilestonesCatalogue()
    ensures |Milestones| == 6 && StrictlyAscending(Milestones)
    ensures Milestones[0].days == 1 && Milestones[1].days == 7 && Milestones[2].days == 30
    ensures Milestones[3].days == 90 && Milestones[4].days == 180 && Milestones[5].days == 365
  {
  }

  /** Filtering an ascending list keeps exactly a prefix: the entries whose threshold is reached. */
  lemma {:induction false} ReachedIsPrefix(ms: seq<Milestone>, soberDays: int)
    requires StrictlyAscending(ms)
    ensures |Reached(ms, soberDays)| <= |ms|
    ensures forall i :: 0 <= i < |Reached(ms, soberDays)| ==> Reached(ms, soberDays)[i] == ms[i]
    ensures forall i :: 0 <= i < |ms| ==> (i < |Reached(ms, soberDays)| <==> ms[i].days <= soberDays)
  {
    if ms != [] {
      var tail := ms[1..];
      assert StrictlyAscending(tail) by {
        forall i, j | 0 <= i < j < |tail| ensures tail[i].days < tail[j].days {
          assert tail[i] == ms[i + 1] && tail[j] == ms[j + 1];
        }
      }
      ReachedIsPrefix(tail, soberDays);
      var rt := Reached(tail, soberDays);
      if soberDays >= ms[0].days {
        var r := [ms[0]] + rt;
        assert Reached(ms, soberDays) == r;
        forall i | 0 <= i < |r| ensures r[i] == ms[i] {
          if i > 0 { assert r[i] == rt[i - 1] == tail[i - 1]; }
        }
        forall i | 0 <= i < |ms| ensures i < |r| <==> ms[i].days <= soberDays {
          if i > 0 { assert ms[i] == tail[i - 1]; }
        }
      } else {
        assert Reached(ms, soberDays) == rt;
        assert |tail| > 0 ==> tail[0].days > soberDays by {
          if |tail| > 0 { assert tail[0] == ms[1]; }
        }
        assert |rt| == 0;
        forall i | 0 <= i < |ms| ensures ms[i].days > soberDays {
          if i > 0 { assert ms[0].days < ms[i].days; }
        }
      }
    }
  }

  /** More sober days never lose a milestone: the earlier list is a prefix of the later one. */
  lemma GetMilestonesMonotone(n: int, m: int)
    requires n <= m
    ensures |GetMilestones(n)| <= |GetMilestones(m)|
    ensures GetMilestones(n) == GetMilestones(m)[..|GetMilestones(n)|]
  {
    var kn := |GetMilestones(n)|;
    if kn > 0 {
      assert Milestones[kn - 1].days <= m;
    }
  }

  /** Below the first threshold nothing is achieved. */
  lemma GetMilestonesNone(n: int)
    requires n < 1
    ensures GetMilestones(n) == []
  {
    assert Milestones[0].days > n;
  }

  /** From one year on every milestone is achieved, in catalogue order. */
  lemma GetMilestonesAll(n: int)
    requires n >= 365
    ensures GetMilestones(n) == Milestones
  {
    assert Milestones[5].days <= n;
  }

  /** 29 days give "First Day" and "One Week". */
  lemma GetMilestonesTwentyNine()
    ensures GetMilestones(29) == [Milestone(1, "First Day"), Milestone(7, "One Week")]
  {
    var r := GetMilestones(29);
    assert r == Milestones[..2] by {
      assert Milestones[1].days <= 29 && Milestones[2].days > 29;
    }
    assert Milestones[..2] == [Milestone(1, "First Day"), Milestone(7, "One Week")];
  }

  /** 30 days add "One Month". */
  lemma GetMilestonesThirty()
    ensures GetMilestones(30) == [Milestone(1, "First Day"), Milestone(7, "One Week"), Milestone(30, "One Month")]
  {
    var r := GetMilestones(30);
    assert r == Milestones[..3] by {
      assert Milestones[2].days <= 30 && Milestones[3].days > 30;
    }
    assert Milestones[..3] == [Milestone(1, "First Day"), Milestone(7, "One Week"), Milestone(30, "One Month")];
  }
}
