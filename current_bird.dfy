/**
 * `get_current_bird`: which season a timestamp falls in, whether it is quiet
 * hours there, and otherwise which bird's scheduled time most recently passed.
 */
module CurrentBird {
  import opened Wrappers
  import opened TimeText
  import opened Timestamps
  import opened BirdData

  /** What the resolver reports: its sentinels and a real bird, each with the season. */
  datatype ResolvedState =
    | Quiet(season: string)
    | NoBirds(season: string)
    | Active(bird: string, season: string)

  /** The ways the resolver raises instead of returning. */
  datatype ResolveError =
    | UnmappedMonth(month: int)          // no season lists the month: `next` raises StopIteration
    | MissingQuietWindow(season: string) // the season has no quiet-hours entry: KeyError
    | NothingYet(season: string)         // no scheduled time is <= now: `max([])` raises ValueError

  /** The quiet test as written, the same for every window whether or not it crosses midnight. */
  predicate IsQuiet(w: Window, now: string)
  {
    StrLe(w.start, now) || StrLt(now, w.end)
  }

  /** The resolver on a month and an "HH:MM" time of day. */
  function ResolveAt(c: Catalog, month: int, now: string): Result<ResolvedState, ResolveError>
  {
    match FirstSeason(c.seasons, month)
    case None => Failure(UnmappedMonth(month))
    case Some(i) =>
      var season := c.seasons[i].id;
      if season !in c.quietHours then Failure(MissingQuietWindow(season))
      else if IsQuiet(c.quietHours[season], now) then Success(Quiet(season))
      else
        var schedule := Schedule(c, season);
        BuildMerges(Entries(c.birds, season));
        if |schedule.keys| == 0 then Success(NoBirds(season))
        else
          var earlier := Candidates(schedule.keys, now);
          if |earlier| == 0 then Failure(NothingYet(season))
          else Success(Active(schedule.vals[Max(earlier)], season))
  }

  /** `get_current_bird(current_datetime)`: month and `strftime("%H:%M")` of the timestamp. */
  function Resolve(c: Catalog, t: DateTime): Result<ResolvedState, ResolveError>
    requires Valid(t)
  {
    ResolveAt(c, t.month, Format(t.hour, t.minute))
  }

  /** The season of a result: the first season covering the month, and the lookup fails only when none does. */
  lemma SeasonIsFirstCovering(c: Catalog, month: int, now: string)
    ensures ResolveAt(c, month, now) == Failure(UnmappedMonth(month)) <==>
      forall j :: 0 <= j < |c.seasons| ==> month !in c.seasons[j].months
    ensures ResolveAt(c, month, now).Success? ==>
      FirstSeason(c.seasons, month).Some? &&
      ResolveAt(c, month, now).value.season == c.seasons[FirstSeason(c.seasons, month).value].id
  {
  }

  /**
   * Once the season and its window are found, the result is quiet hours exactly
   * when `start <= now or now < end`.
   */
  lemma QuietExactly(c: Catalog, month: int, now: string, i: nat)
    requires FirstSeason(c.seasons, month) == Some(i)
    requires c.seasons[i].id in c.quietHours
    ensures ResolveAt(c, month, now) == Success(Quiet(c.seasons[i].id)) <==>
      IsQuiet(c.quietHours[c.seasons[i].id], now)
  {
  }

  /** The quiet test comes before any schedule lookup: in quiet hours the birds play no part. */
  lemma QuietIgnoresBirds(c: Catalog, month: int, now: string, birds: seq<Bird>)
    requires ResolveAt(c, month, now).Success? && ResolveAt(c, month, now).value.Quiet?
    ensures ResolveAt(c.(birds := birds), month, now) == ResolveAt(c, month, now)
  {
  }

  /** On well-formed times the quiet test is the same comparison on minutes since midnight. */
  lemma QuietInMinutes(w: Window, hour: int, minute: int)
    requires WellFormed(w.start) && WellFormed(w.end)
    requires 0 <= hour < 24 && 0 <= minute < 60
    ensures IsQuiet(w, Format(hour, minute)) <==>
      Minutes(w.start) <= hour * 60 + minute || hour * 60 + minute < Minutes(w.end)
  {
    OrderAgrees(w.start, Format(hour, minute));
    OrderAgrees(Format(hour, minute), w.end);
  }

  /** The boundaries of an overnight window from 22:00 to 06:00. */
  lemma OvernightBoundaries()
    ensures !IsQuiet(Window("22:00", "06:00"), Format(21, 59))
    ensures IsQuiet(Window("22:00", "06:00"), Format(22, 0))
    ensures IsQuiet(Window("22:00", "06:00"), Format(5, 59))
    ensures !IsQuiet(Window("22:00", "06:00"), Format(6, 0))
  {
    var w := Window("22:00", "06:00");
    assert WellFormed(w.start) && Minutes(w.start) == 1320;
    assert WellFormed(w.end) && Minutes(w.end) == 360;
    QuietInMinutes(w, 21, 59);
    QuietInMinutes(w, 22, 0);
    QuietInMinutes(w, 5, 59);
    QuietInMinutes(w, 6, 0);
  }

  /**
   * The same test on a window that does not cross midnight (start <= end) is
   * true at every time of day: a season with such a window is always quiet.
   */
  lemma SameDayWindowAlwaysQuiet(w: Window, now: string)
    requires StrLe(w.start, w.end)
    ensures IsQuiet(w, now)
  {
    StrLtIsStrictLe(now, w.start);
    StrLtIsStrictLe(now, w.end);
    if !StrLe(w.start, now) {
      StrLeTransitive(now, w.start, w.end);
      if now == w.end {
        StrLeAntisymmetric(w.start, w.end);
      }
    }
  }

  /** The merged schedule's times are exactly the times some bird lists for the season. */
  lemma ScheduleKeys(c: Catalog, season: string, time: string)
    ensures time in Schedule(c, season).vals <==>
      exists b :: 0 <= b < |c.birds| && time in TimesIn(c.birds[b], season)
  {
    BuildMerges(Entries(c.birds, season));
    TimeInEntries(c.birds, season, time);
    var e := Entries(c.birds, season);
    assert time in Build(e).vals <==> exists i :: 0 <= i < |e| && e[i].0 == time;
  }

  /** Some iterated pair carries `time` exactly when some bird lists it for the season. */
  lemma TimeInEntries(birds: seq<Bird>, season: string, time: string)
    ensures (exists i :: 0 <= i < |Entries(birds, season)| && Entries(birds, season)[i].0 == time) <==>
      exists b :: 0 <= b < |birds| && time in TimesIn(birds[b], season)
  {
    var e := Entries(birds, season);
    if exists i :: 0 <= i < |e| && e[i].0 == time {
      var i :| 0 <= i < |e| && e[i].0 == time;
      assert e[i] in e;
      EntriesExactly(birds, season, time, e[i].1);
    }
    if exists b :: 0 <= b < |birds| && time in TimesIn(birds[b], season) {
      var b :| 0 <= b < |birds| && time in TimesIn(birds[b], season);
      EntriesExactly(birds, season, time, birds[b].key);
      var i :| 0 <= i < |e| && e[i] == (time, birds[b].key);
    }
  }

  /**
   * The outcomes after the season is found, each in both directions where the
   * source decides it: KeyError exactly when the season has no window; outside
   * quiet hours, no birds exactly when the merged schedule is empty; and a
   * scheduled time at or before now always yields an active bird.
   */
  lemma ResolveOutcomes(c: Catalog, month: int, now: string, i: nat)
    requires FirstSeason(c.seasons, month) == Some(i)
    ensures ResolveAt(c, month, now) == Failure(MissingQuietWindow(c.seasons[i].id)) <==>
      c.seasons[i].id !in c.quietHours
    ensures c.seasons[i].id in c.quietHours && !IsQuiet(c.quietHours[c.seasons[i].id], now) ==>
      (ResolveAt(c, month, now) == Success(NoBirds(c.seasons[i].id)) <==> |Schedule(c, c.seasons[i].id).vals| == 0)
    ensures
      && c.seasons[i].id in c.quietHours
      && !IsQuiet(c.quietHours[c.seasons[i].id], now)
      && (exists k :: k in Schedule(c, c.seasons[i].id).vals && StrLe(k, now))
      ==> ResolveAt(c, month, now).Success? && ResolveAt(c, month, now).value.Active?
  {
    var season := c.seasons[i].id;
    var schedule := Schedule(c, season);
    BuildMerges(Entries(c.birds, season));
    if season in c.quietHours && !IsQuiet(c.quietHours[season], now) {
      if |schedule.keys| != 0 {
        assert schedule.keys[0] in schedule.vals;
      }
      if exists k :: k in schedule.vals && StrLe(k, now) {
        var k :| k in schedule.vals && StrLe(k, now);
        assert k in Candidates(schedule.keys, now);
      }
    }
  }

  /** Outside quiet hours, a season no bird is scheduled in reports no birds at every time of day. */
  lemma EmptyScheduleMeansNoBirds(c: Catalog, month: int, now: string, i: nat)
    requires FirstSeason(c.seasons, month) == Some(i)
    requires c.seasons[i].id in c.quietHours
    requires !IsQuiet(c.quietHours[c.seasons[i].id], now)
    requires forall b :: 0 <= b < |c.birds| ==> TimesIn(c.birds[b], c.seasons[i].id) == []
    ensures ResolveAt(c, month, now) == Success(NoBirds(c.seasons[i].id))
  {
    var schedule := Schedule(c, c.seasons[i].id);
    BuildMerges(Entries(c.birds, c.seasons[i].id));
    if |schedule.keys| != 0 {
      ScheduleKeys(c, c.seasons[i].id, schedule.keys[0]);
    }
  }

  /**
   * An active bird is the one bound to a scheduled time at or before now, and
   * no scheduled time lies after that one and at or before now.
   */
  lemma ActiveIsMostRecent(c: Catalog, month: int, now: string)
    requires ResolveAt(c, month, now).Success? && ResolveAt(c, month, now).value.Active?
    ensures var r := ResolveAt(c, month, now).value;
      var schedule := Schedule(c, r.season);
      exists k :: k in schedule.vals && schedule.vals[k] == r.bird && StrLe(k, now) &&
        forall k' :: k' in schedule.vals && StrLt(k, k') ==> StrLt(now, k')
  {
    var i := FirstSeason(c.seasons, month).value;
    var schedule := Schedule(c, c.seasons[i].id);
    BuildMerges(Entries(c.birds, c.seasons[i].id));
    var earlier := Candidates(schedule.keys, now);
    var k := Max(earlier);
    forall k' | k' in schedule.vals && StrLt(k, k') ensures StrLt(now, k') {
      StrLtIsStrictLe(k, k');
      StrLtIsStrictLe(now, k');
    }
  }

  /**
   * Outside quiet hours, with birds scheduled in the season, the resolver
   * raises exactly when every scheduled time is later than now.
   */
  lemma NothingYetExactly(c: Catalog, month: int, now: string, i: nat)
    requires FirstSeason(c.seasons, month) == Some(i)
    requires c.seasons[i].id in c.quietHours
    requires !IsQuiet(c.quietHours[c.seasons[i].id], now)
    requires |Schedule(c, c.seasons[i].id).vals| > 0
    ensures ResolveAt(c, month, now) == Failure(NothingYet(c.seasons[i].id)) <==>
      forall k :: k in Schedule(c, c.seasons[i].id).vals ==> StrLt(now, k)
  {
    var schedule := Schedule(c, c.seasons[i].id);
    BuildMerges(Entries(c.birds, c.seasons[i].id));
    var k0 :| k0 in schedule.vals;
    assert |schedule.keys| != 0;
    var earlier := Candidates(schedule.keys, now);
    forall k | k in schedule.vals ensures StrLt(now, k) <==> k !in earlier {
      StrLtIsStrictLe(now, k);
    }
    if |earlier| != 0 {
      assert earlier[0] in earlier;
    }
  }

  /** Every time the catalog schedules is a well-formed "HH:MM". */
  ghost predicate WellFormedTimes(c: Catalog)
  {
    forall b, s :: 0 <= b < |c.birds| && s in c.birds[b].seasons ==>
      forall k :: k in c.birds[b].seasons[s] ==> WellFormed(k)
  }

  /**
   * On a catalog of well-formed times, an active bird's slot starts at or
   * before the timestamp's minutes since midnight, and no slot starts between it and then.
   */
  lemma ActiveInMinutes(c: Catalog, t: DateTime)
    requires Valid(t) && WellFormedTimes(c)
    requires Resolve(c, t).Success? && Resolve(c, t).value.Active?
    ensures var r := Resolve(c, t).value;
      var schedule := Schedule(c, r.season);
      exists k :: k in schedule.vals && WellFormed(k) && schedule.vals[k] == r.bird &&
        Minutes(k) <= TimeOfDay(t) &&
        forall k' :: k' in schedule.vals && WellFormed(k') && Minutes(k) < Minutes(k') ==> TimeOfDay(t) < Minutes(k')
  {
    var now := Format(t.hour, t.minute);
    var r := Resolve(c, t).value;
    var schedule := Schedule(c, r.season);
    ActiveIsMostRecent(c, t.month, now);
    var k :| k in schedule.vals && schedule.vals[k] == r.bird && StrLe(k, now) &&
      forall k' :: k' in schedule.vals && StrLt(k, k') ==> StrLt(now, k');
    ScheduleKeys(c, r.season, k);
    OrderAgrees(k, now);
    forall k' | k' in schedule.vals && WellFormed(k') && Minutes(k) < Minutes(k')
      ensures TimeOfDay(t) < Minutes(k')
    {
      OrderAgrees(k, k');
      OrderAgrees(now, k');
    }
  }
}

/** The worked schedule of three birds, at 08:00, 12:00 and 18:00, in one all-year season. */
module CurrentBirdExample {
  import opened Wrappers
  import opened TimeText
  import opened BirdData
  import opened CurrentBird

  function ThreeBirds(): Catalog
  {
    Catalog(
      [Season("year", [1, 2, 3, 4, 5, 6, 7, 8, 9, 10, 11, 12])],
      map["year" := Window("22:00", "06:00")],
      [ Bird("a", "A", "a", map["year" := ["08:00"]]),
        Bird("b", "B", "b", map["year" := ["12:00"]]),
        Bird("c", "C", "c", map["year" := ["18:00"]]) ])
  }

  lemma ThreeBirdsEntries()
    ensures Entries(ThreeBirds().birds, "year") == [("08:00", "a"), ("12:00", "b"), ("18:00", "c")]
  {
    var birds := ThreeBirds().birds;
    assert BirdEntries(birds[2], "year") == [("18:00", "c")];
    assert Entries(birds[2..], "year") == [("18:00", "c")] by {
      assert birds[2..][1..] == [];
    }
    assert BirdEntries(birds[1], "year") == [("12:00", "b")];
    assert Entries(birds[1..], "year") == [("12:00", "b"), ("18:00", "c")] by {
      assert birds[1..][1..] == birds[2..];
    }
    assert BirdEntries(birds[0], "year") == [("08:00", "a")];
  }

  lemma ThreeBirdsBuild()
    ensures Build([("08:00", "a"), ("12:00", "b"), ("18:00", "c")]) ==
      Dict(["08:00", "12:00", "18:00"], map["08:00" := "a", "12:00" := "b", "18:00" := "c"])
  {
    var e := [("08:00", "a"), ("12:00", "b"), ("18:00", "c")];
    assert e[..2][..1] == [("08:00", "a")];
    assert e[..2] == [("08:00", "a"), ("12:00", "b")];
    assert e[..1] == [("08:00", "a")];
    assert Build(e[..1][..0]) == Dict([], map[]);
    assert Build(e[..1]) == Dict(["08:00"], map["08:00" := "a"]);
    assert Build(e[..2]) == Dict(["08:00", "12:00"], map["08:00" := "a", "12:00" := "b"]);
  }

  lemma ThreeBirdsSchedule()
    ensures Schedule(ThreeBirds(), "year") ==
      Dict(["08:00", "12:00", "18:00"], map["08:00" := "a", "12:00" := "b", "18:00" := "c"])
  {
    ThreeBirdsEntries();
    ThreeBirdsBuild();
  }

  /** Where a time of day falls among the three slots and the 22:00 to 06:00 window. */
  lemma Placement(hour: int, minute: int)
    requires 0 <= hour < 24 && 0 <= minute < 60
    ensures var now := Format(hour, minute); var t := hour * 60 + minute;
      && (StrLe("08:00", now) <==> 480 <= t)
      && (StrLe("12:00", now) <==> 720 <= t)
      && (StrLe("18:00", now) <==> 1080 <= t)
      && (IsQuiet(Window("22:00", "06:00"), now) <==> 1320 <= t || t < 360)
  {
    var now := Format(hour, minute);
    assert WellFormed("08:00") && Minutes("08:00") == 480;
    assert WellFormed("12:00") && Minutes("12:00") == 720;
    assert WellFormed("18:00") && Minutes("18:00") == 1080;
    assert WellFormed("22:00") && Minutes("22:00") == 1320;
    assert WellFormed("06:00") && Minutes("06:00") == 360;
    OrderAgrees("08:00", now);
    OrderAgrees("12:00", now);
    OrderAgrees("18:00", now);
    QuietInMinutes(Window("22:00", "06:00"), hour, minute);
  }

  /** Outside the window, the resolver's answer is the most recent slot among the three. */
  lemma ThreeBirdsAt(hour: int, minute: int)
    requires 6 <= hour < 22 && 0 <= minute < 60
    ensures var now := Format(hour, minute);
      ResolveAt(ThreeBirds(), 5, now) ==
        var earlier := Candidates(["08:00", "12:00", "18:00"], now);
        if |earlier| == 0 then Failure(NothingYet("year"))
        else Success(Active(map["08:00" := "a", "12:00" := "b", "18:00" := "c"][Max(earlier)], "year"))
  {
    var c := ThreeBirds();
    assert FirstSeason(c.seasons, 5) == Some(0);
    ThreeBirdsSchedule();
    Placement(hour, minute);
  }

  /** The candidate list for the three slots, from which of them are at or before now. */
  lemma ThreeCandidates(now: string)
    ensures Candidates(["08:00", "12:00", "18:00"], now) ==
      (if StrLe("08:00", now) then ["08:00"] else []) +
      (if StrLe("12:00", now) then ["12:00"] else []) +
      (if StrLe("18:00", now) then ["18:00"] else [])
  {
    var keys := ["08:00", "12:00", "18:00"];
    assert keys[1..][1..] == ["18:00"] && keys[1..] == ["12:00", "18:00"];
    assert ["18:00"][1..] == [];
    assert Candidates(["18:00"], now) == (if StrLe("18:00", now) then ["18:00"] else []) + Candidates([], now);
    assert Candidates(keys[1..], now) ==
      (if StrLe("12:00", now) then ["12:00"] else []) + Candidates(["18:00"], now);
    assert Candidates(keys, now) ==
      (if StrLe("08:00", now) then ["08:00"] else []) + Candidates(keys[1..], now);
  }

  lemma SlotOrder()
    ensures Max(["08:00", "12:00"]) == "12:00"
    ensures Max(["08:00", "12:00", "18:00"]) == "18:00"
  {
    var keys := ["08:00", "12:00", "18:00"];
    assert keys[..2] == ["08:00", "12:00"];
    assert keys[..2][..1] == ["08:00"];
    assert WellFormed("08:00") && Minutes("08:00") == 480;
    assert WellFormed("12:00") && Minutes("12:00") == 720;
    assert WellFormed("18:00") && Minutes("18:00") == 1080;
    OrderAgrees("08:00", "12:00");
    OrderAgrees("12:00", "18:00");
  }

  /** 12:30 gives the noon bird. */
  lemma AfterNoon()
    ensures ResolveAt(ThreeBirds(), 5, Format(12, 30)) == Success(Active("b", "year"))
  {
    NoonCandidates();
    SlotOrder();
    ThreeBirdsAt(12, 30);
  }

  lemma NoonCandidates()
    ensures Candidates(["08:00", "12:00", "18:00"], Format(12, 30)) == ["08:00", "12:00"]
  {
    Placement(12, 30);
    ThreeCandidates(Format(12, 30));
  }

  /** 18:00 exactly gives the evening bird. */
  lemma AtSixInTheEvening()
    ensures ResolveAt(ThreeBirds(), 5, Format(18, 0)) == Success(Active("c", "year"))
  {
    EveningCandidates();
    SlotOrder();
    ThreeBirdsAt(18, 0);
  }

  lemma EveningCandidates()
    ensures Candidates(["08:00", "12:00", "18:00"], Format(18, 0)) == ["08:00", "12:00", "18:00"]
  {
    Placement(18, 0);
    ThreeCandidates(Format(18, 0));
  }

  /** Between 08:00 and noon the morning bird is active. */
  lemma MorningSlot(hour: int, minute: int)
    requires 8 <= hour < 12 && 0 <= minute < 60
    ensures ResolveAt(ThreeBirds(), 5, Format(hour, minute)) == Success(Active("a", "year"))
  {
    ThreeBirdsAt(hour, minute);
    Placement(hour, minute);
    ThreeCandidates(Format(hour, minute));
    assert Candidates(["08:00", "12:00", "18:00"], Format(hour, minute)) == ["08:00"];
  }

  /** 07:59 is outside quiet hours and before every slot: `max` of an empty list raises. */
  lemma BeforeTheFirstSlot()
    ensures ResolveAt(ThreeBirds(), 5, Format(7, 59)) == Failure(NothingYet("year"))
  {
    var now := Format(7, 59);
    ThreeBirdsAt(7, 59);
    Placement(7, 59);
    ThreeCandidates(now);
  }
}
