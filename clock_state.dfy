/**
 * The state `main` keeps between events: the tracked timestamp, the last
 * resolved bird and season, and the display and sound requests it has made.
 * `handle_input` and the polling loop both re-resolve and compare.
 */
module ClockState {
  import opened Wrappers
  import opened Timestamps
  import opened BirdData
  import opened CurrentBird

  const QuietHours: string := "quiet-hours"
  const NoBirdsScheduled: string := "no-birds-scheduled"

  /** The (bird, season) pair the source keeps in `current_bird` and `current_season`. */
  datatype View = View(bird: string, season: string)

  /** The pair `get_current_bird` returns for a resolved state, its sentinels as strings. */
  function Label(r: ResolvedState): (v: View)
    ensures v.season == r.season
  {
    match r
    case Quiet(s) => View(QuietHours, s)
    case NoBirds(s) => View(NoBirdsScheduled, s)
    case Active(b, s) => View(b, s)
  }

  /** `current_bird != "quiet-hours" and current_bird != "no-birds-scheduled"`. */
  predicate IsRealBird(bird: string)
  {
    bird != QuietHours && bird != NoBirdsScheduled
  }

  /** When no bird is keyed by a sentinel string, the string test is exactly "the state is Active". */
  lemma RealBirdIffActive(r: ResolvedState)
    requires r.Active? ==> IsRealBird(r.bird)
    ensures IsRealBird(Label(r).bird) <==> r.Active?
  {
  }

  /** What the clock asks of its display and its speaker. */
  datatype Request = ShowImage(bird: string) | PlaySound(bird: string)

  /**
   * The requests one re-resolution makes: a display, and only when the stored
   * pair changes into a real bird.
   */
  function Displays(current: View, r: ResolvedState): seq<Request>
  {
    if Label(r) != current && IsRealBird(Label(r).bird) then [ShowImage(Label(r).bird)] else []
  }

  /** The requests of the first resolution at start-up, which displays without comparing. */
  function Boot(r: ResolvedState): seq<Request>
  {
    if IsRealBird(Label(r).bird) then [ShowImage(Label(r).bird)] else []
  }

  /** The requests of successive re-resolutions `rs` from the stored pair `current`. */
  function Run(current: View, rs: seq<ResolvedState>): (out: seq<Request>)
    ensures |out| <= |rs|
    ensures forall q :: q in out ==> q.ShowImage? && IsRealBird(q.bird)
    decreases |rs|
  {
    if |rs| == 0 then [] else Displays(current, rs[0]) + Run(Label(rs[0]), rs[1..])
  }

  /** Resolution `i` of a run leaves the stored pair as it was, or turns it into a sentinel. */
  predicate SilentAt(current: View, rs: seq<ResolvedState>, i: int)
    requires 0 <= i < |rs|
  {
    Label(rs[i]) == (if i == 0 then current else Label(rs[i - 1])) || !IsRealBird(Label(rs[i]).bird)
  }

  /**
   * A run requests nothing exactly when no resolution changes the stored pair
   * into a real bird: a display happens at, and only at, such a change.
   */
  lemma {:induction false} SilentRunExactly(current: View, rs: seq<ResolvedState>)
    ensures Run(current, rs) == [] <==> forall i :: 0 <= i < |rs| ==> SilentAt(current, rs, i)
    decreases |rs|
  {
    if |rs| != 0 {
      var tail := rs[1..];
      SilentRunExactly(Label(rs[0]), tail);
      assert Run(current, rs) == Displays(current, rs[0]) + Run(Label(rs[0]), tail);
      forall i | 1 <= i < |rs| ensures SilentAt(current, rs, i) <==> SilentAt(Label(rs[0]), tail, i - 1) {
        assert rs[i] == tail[i - 1];
        if i > 1 {
          assert rs[i - 1] == tail[i - 2];
        }
      }
      if forall i :: 0 <= i < |rs| ==> SilentAt(current, rs, i) {
        forall j | 0 <= j < |tail| ensures SilentAt(Label(rs[0]), tail, j) {
          assert SilentAt(current, rs, j + 1);
        }
        assert SilentAt(current, rs, 0);
      }
      if Run(current, rs) == [] {
        forall i | 0 <= i < |rs| ensures SilentAt(current, rs, i) {
          if i > 0 {
            assert SilentAt(Label(rs[0]), tail, i - 1);
          }
        }
      }
    }
  }

  /** The stored pair after the resolutions `rs`: that of the last one, or `current` when there are none. */
  function After(current: View, rs: seq<ResolvedState>): View
  {
    if |rs| == 0 then current else Label(rs[|rs| - 1])
  }

  /** One more resolution at the end of a run adds exactly the requests of that step. */
  lemma {:induction false} RunAppend(current: View, rs: seq<ResolvedState>, r: ResolvedState)
    ensures Run(current, rs + [r]) == Run(current, rs) + Displays(After(current, rs), r)
    decreases |rs|
  {
    if |rs| != 0 {
      assert (rs + [r])[1..] == rs[1..] + [r];
      RunAppend(Label(rs[0]), rs[1..], r);
      assert After(Label(rs[0]), rs[1..]) == After(current, rs);
    }
  }

  /** What the resolver gives for each of the clock readings `ts`, in order. */
  function Readings(c: Catalog, ts: seq<DateTime>): seq<Result<ResolvedState, ResolveError>>
    requires forall t :: t in ts ==> Timestamps.Valid(t)
  {
    seq(|ts|, i requires 0 <= i < |ts| => Resolve(c, ts[i]))
  }

  /** The requests logged so far, and the stored pair, after one more resolution. */
  lemma RunStep(logged: seq<Request>, current: View, done: seq<ResolvedState>, r: ResolvedState)
    ensures logged + Run(current, done) + Displays(After(current, done), r) == logged + Run(current, done + [r])
    ensures After(current, done + [r]) == Label(r)
  {
    RunAppend(current, done, r);
  }

  /**
   * The resolutions the polling loop acts on, given what the resolver gives
   * for each reading: all of them up to the first that raises.
   */
  function Successes(results: seq<Result<ResolvedState, ResolveError>>): (rs: seq<ResolvedState>)
    ensures |rs| <= |results|
    ensures forall i :: 0 <= i < |rs| ==> results[i] == Success(rs[i])
    ensures |rs| < |results| ==> results[|rs|].Failure?
  {
    if |results| == 0 then []
    else match results[0]
      case Failure(_) => []
      case Success(r) =>
        var rest := Successes(results[1..]);
        assert forall i :: 0 < i < |results| ==> results[1..][i - 1] == results[i];
        [r] + rest
  }

  /** Successful results of a prefix that stops at the end or at a failure are exactly `Successes`. */
  lemma SuccessesAre(results: seq<Result<ResolvedState, ResolveError>>, done: seq<ResolvedState>)
    requires |done| <= |results|
    requires forall j :: 0 <= j < |done| ==> results[j] == Success(done[j])
    requires |done| == |results| || results[|done|].Failure?
    ensures Successes(results) == done
  {
    var rs := Successes(results);
    assert |rs| == |done|;
  }

  /** The requests from start-up through the resolutions that follow it. */
  function Trace(rs: seq<ResolvedState>): seq<Request>
    requires |rs| > 0
  {
    Boot(rs[0]) + Run(Label(rs[0]), rs[1..])
  }

  /** Resolving to the same state twice in a row requests nothing the second time: no double display. */
  lemma {:induction false} RepeatIsSilent(current: View, rs: seq<ResolvedState>, i: nat)
    requires i < |rs|
    ensures Run(current, rs[..i + 1] + rs[i..]) == Run(current, rs)
    decreases i
  {
    var doubled := rs[..i + 1] + rs[i..];
    if i == 0 {
      assert doubled == [rs[0]] + rs;
      assert doubled[1..] == rs;
      assert Displays(Label(rs[0]), rs[0]) == [];
    } else {
      RepeatIsSilent(Label(rs[0]), rs[1..], i - 1);
      assert doubled[0] == rs[0];
      assert doubled[1..] == rs[1..][..i] + rs[1..][i - 1..];
    }
  }

  /** States A, A, B display twice: A at start-up and B on the change, never the repeated A. */
  lemma TwoDisplaysForRepeatThenChange(a: string, b: string, season: string)
    requires IsRealBird(a) && IsRealBird(b) && a != b
    ensures Trace([Active(a, season), Active(a, season), Active(b, season)]) == [ShowImage(a), ShowImage(b)]
  {
    var rs := [Active(a, season), Active(a, season), Active(b, season)];
    var rest := rs[1..];
    assert rest[1..] == [Active(b, season)];
    assert rest[1..][1..] == [];
    assert Run(View(a, season), rest[1..]) == [ShowImage(b)];
    assert Run(View(a, season), rest) == [ShowImage(b)];
  }

  /** The key of an input event once it has been recognised. */
  datatype Command = Advance | Rewind | Sound | Other

  /** `input_key in ["n", "next"]`, `["p", "prev"]`, `["s", "sound"]`. */
  function CommandOf(key: string): Command
  {
    if key == "n" || key == "next" then Advance
    else if key == "p" || key == "prev" then Rewind
    else if key == "s" || key == "sound" then Sound
    else Other
  }

  /** The tracked timestamp after an input: one hour on for next, one hour back for prev. */
  function Shifted(t: DateTime, key: string): (r: DateTime)
    requires Timestamps.Valid(t)
    ensures Timestamps.Valid(r)
    ensures Ordinal(r) == Ordinal(t) + match CommandOf(key) case Advance => 60 case Rewind => -60 case _ => 0
    ensures CommandOf(key) == Sound || CommandOf(key) == Other ==> r == t
  {
    match CommandOf(key)
    case Advance => NextHourAddsAnHour(t); NextHour(t)
    case Rewind => PrevHourSubtractsAnHour(t); PrevHour(t)
    case _ => t
  }

  /** The sound request an input makes after re-resolution: only for `s`/`sound` and a real bird. */
  function Sounds(key: string, bird: string): seq<Request>
  {
    if CommandOf(key) == Sound && IsRealBird(bird) then [PlaySound(bird)] else []
  }

  class Clock {
    const catalog: Catalog
    var now: DateTime
    var bird: string
    var season: string
    var requests: seq<Request>

    predicate Valid()
      reads this
    {
      Timestamps.Valid(now)
    }

    function Current(): View
      reads this
    {
      View(bird, season)
    }

    constructor (catalog: Catalog, now: DateTime, r: ResolvedState)
      requires Timestamps.Valid(now) && Resolve(catalog, now) == Success(r)
      ensures Valid()
      ensures this.catalog == catalog && this.now == now
      ensures Current() == Label(r) && requests == Boot(r)
    {
      this.catalog := catalog;
      this.now := now;
      bird := Label(r).bird;
      season := Label(r).season;
      requests := Boot(r);
    }

    /** `main`'s first resolution; the program stops when the resolver raises. */
    static method Start(catalog: Catalog, now: DateTime) returns (clock: Result<Clock, ResolveError>)
      requires Timestamps.Valid(now)
      ensures Resolve(catalog, now).Failure? ==> clock == Failure(Resolve(catalog, now).error)
      ensures Resolve(catalog, now).Success? ==>
        && clock.Success? && fresh(clock.value) && clock.value.Valid()
        && clock.value.catalog == catalog && clock.value.now == now
        && clock.value.Current() == Label(Resolve(catalog, now).value)
        && clock.value.requests == Boot(Resolve(catalog, now).value)
    {
      match Resolve(catalog, now)
      case Failure(e) =>
        clock := Failure(e);
      case Success(r) =>
        var c := new Clock(catalog, now, r);
        clock := Success(c);
    }

    /**
     * Re-resolve at the tracked timestamp and, if the pair changed, store it
     * and request a display for a real bird. A resolver error leaves the pair
     * and the requests as they were.
     */
    method Refresh() returns (err: Option<ResolveError>)
      requires Valid()
      modifies this`bird, this`season, this`requests
      ensures Valid()
      ensures Resolve(catalog, now).Failure? ==>
        err == Some(Resolve(catalog, now).error) &&
        Current() == old(Current()) && requests == old(requests)
      ensures Resolve(catalog, now).Success? ==>
        err == None &&
        Current() == Label(Resolve(catalog, now).value) &&
        requests == old(requests) + Displays(old(Current()), Resolve(catalog, now).value)
    {
      err := Apply(Resolve(catalog, now));
    }

    /**
     * Act on a resolver outcome: on success store the pair if it changed and
     * request a display for a real bird; on failure keep everything.
     */
    method Apply(res: Result<ResolvedState, ResolveError>) returns (err: Option<ResolveError>)
      modifies this`bird, this`season, this`requests
      ensures res.Failure? ==> err == Some(res.error) && Current() == old(Current()) && requests == old(requests)
      ensures res.Success? ==>
        err == None && Current() == Label(res.value) &&
        requests == old(requests) + Displays(old(Current()), res.value)
    {
      match res
      case Failure(e) =>
        err := Some(e);
      case Success(r) =>
        err := None;
        var resolved := Label(r);
        if resolved.bird != bird || resolved.season != season {
          bird := resolved.bird;
          season := resolved.season;
          if IsRealBird(bird) {
            requests := requests + [ShowImage(bird)];
          }
        }
    }

    /** `handle_input(input_key)`. */
    method HandleInput(key: string) returns (err: Option<ResolveError>)
      requires Valid()
      modifies this`now, this`bird, this`season, this`requests
      ensures Valid()
      ensures now == Shifted(old(now), key)
      ensures Resolve(catalog, now).Failure? ==>
        err == Some(Resolve(catalog, now).error) &&
        Current() == old(Current()) && requests == old(requests)
      ensures Resolve(catalog, now).Success? ==>
        err == None &&
        Current() == Label(Resolve(catalog, now).value) &&
        requests == old(requests) + Displays(old(Current()), Resolve(catalog, now).value) + Sounds(key, bird)
    {
      now := Shifted(now, key);
      err := Refresh();
      if err.None? && CommandOf(key) == Sound && IsRealBird(bird) {
        requests := requests + [PlaySound(bird)];
      }
    }

    /** One pass of the polling loop on the device: follow the real clock, then re-resolve. */
    method SetClock(t: DateTime) returns (err: Option<ResolveError>)
      requires Timestamps.Valid(t)
      modifies this`now, this`bird, this`season, this`requests
      ensures Valid() && now == t
      ensures Resolve(catalog, t).Failure? ==>
        err == Some(Resolve(catalog, t).error) &&
        Current() == old(Current()) && requests == old(requests)
      ensures Resolve(catalog, t).Success? ==>
        err == None &&
        Current() == Label(Resolve(catalog, t).value) &&
        requests == old(requests) + Displays(old(Current()), Resolve(catalog, t).value)
    {
      now := t;
      err := Refresh();
    }

    /**
     * The device's polling loop over the successive clock readings `ts`: each
     * pass follows the reading and re-resolves; the loop ends where the
     * resolver raises.
     */
    method Poll(ts: seq<DateTime>) returns (err: Option<ResolveError>)
      requires Valid()
      requires forall t :: t in ts ==> Timestamps.Valid(t)
      modifies this`now, this`bird, this`season, this`requests
      ensures Valid()
      ensures var rs := Successes(Readings(catalog, ts));
        && requests == old(requests) + Run(old(Current()), rs)
        && Current() == After(old(Current()), rs)
        && (err.None? <==> |rs| == |ts|)
        && (err.Some? ==> err == Some(Readings(catalog, ts)[|rs|].error) && now == ts[|rs|])
        && (err.None? ==> now == if |ts| == 0 then old(now) else ts[|ts| - 1])
    {
      var results := Readings(catalog, ts);
      err := Follow(ts, results);
    }

    /**
     * The loop of `Poll`, given what the resolver gives for each reading: set
     * the time to the reading and act on its outcome, until one fails.
     */
    method Follow(ts: seq<DateTime>, results: seq<Result<ResolvedState, ResolveError>>) returns (err: Option<ResolveError>)
      requires Valid()
      requires forall t :: t in ts ==> Timestamps.Valid(t)
      requires |results| == |ts|
      modifies this`now, this`bird, this`season, this`requests
      ensures Valid()
      ensures var rs := Successes(results);
        && requests == old(requests) + Run(old(Current()), rs)
        && Current() == After(old(Current()), rs)
        && (err.None? <==> |rs| == |ts|)
        && (err.Some? ==> err == Some(results[|rs|].error) && now == ts[|rs|])
        && (err.None? ==> now == if |ts| == 0 then old(now) else ts[|ts| - 1])
    {
      ghost var start := Current();
      ghost var logged := requests;
      ghost var done: seq<ResolvedState> := [];
      err := None;
      var i := 0;
      while i < |ts|
        invariant 0 <= i <= |ts| && Valid()
        invariant |done| == i
        invariant forall j :: 0 <= j < i ==> results[j] == Success(done[j])
        invariant requests == logged + Run(start, done)
        invariant Current() == After(start, done)
        invariant now == if i == 0 then old(now) else ts[i - 1]
      {
        assert ts[i] in ts;
        now := ts[i];
        var e := Apply(results[i]);
        if e.Some? {
          err := e;
          SuccessesAre(results, done);
          return;
        }
        var r := results[i].value;
        RunStep(logged, start, done, r);
        done := done + [r];
        i := i + 1;
      }
      SuccessesAre(results, done);
    }
  }
}
