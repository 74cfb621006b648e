/** A run of the clock, as `main` would drive it, over the three-bird catalog. */
module ClockScenario {
  import opened Wrappers
  import opened Timestamps
  import opened TimeText
  import opened BirdData
  import opened CurrentBird
  import opened CurrentBirdExample
  import opened ClockState

  /** The three-bird catalog resolves 08:30 and 09:30 to the morning bird and 12:30 to the noon bird. */
  lemma ThreeBirdsMorningToNoon()
    ensures Resolve(ThreeBirds(), DateTime(2024, 5, 1, 8, 30)) == Success(Active("a", "year"))
    ensures Resolve(ThreeBirds(), DateTime(2024, 5, 1, 9, 30)) == Success(Active("a", "year"))
    ensures Resolve(ThreeBirds(), DateTime(2024, 5, 1, 12, 30)) == Success(Active("b", "year"))
  {
    MorningSlot(8, 30);
    MorningSlot(9, 30);
    AfterNoon();
  }

  /**
   * Start at 08:30 (morning bird: display), press next (09:30, same bird: no
   * display), follow the real clock to 12:30 (noon bird: display), press sound.
   */
  method MorningToNoon() returns (log: seq<Request>)
    ensures log == [ShowImage("a"), ShowImage("b"), PlaySound("b")]
  {
    ThreeBirdsMorningToNoon();
    var c := ThreeBirds();
    var start := DateTime(2024, 5, 1, 8, 30);
    var started := Clock.Start(c, start);
    var clock := started.value;
    assert IsRealBird("a");
    assert clock.requests == [ShowImage("a")];
    NextAtMorning(clock);
    NoonThenSound(clock);
    log := clock.requests;
  }

  /** At 08:30 with the morning bird shown, press next: 09:30, same bird, nothing requested. */
  method NextAtMorning(clock: Clock)
    requires clock.Valid() && clock.now == DateTime(2024, 5, 1, 8, 30)
    requires clock.Current() == View("a", "year")
    requires Resolve(clock.catalog, DateTime(2024, 5, 1, 9, 30)) == Success(Active("a", "year"))
    modifies clock
    ensures clock.Valid() && clock.now == DateTime(2024, 5, 1, 9, 30)
    ensures clock.Current() == View("a", "year") && clock.requests == old(clock.requests)
  {
    assert CommandOf("next") == Advance;
    assert NextHour(clock.now) == DateTime(2024, 5, 1, 9, 30);
    var err := clock.HandleInput("next");
    assert Displays(View("a", "year"), Active("a", "year")) == [];
  }

  /** With the morning bird shown, follow the real clock to 12:30, then press sound. */
  method NoonThenSound(clock: Clock)
    requires clock.Valid() && clock.Current() == View("a", "year")
    requires Resolve(clock.catalog, DateTime(2024, 5, 1, 12, 30)) == Success(Active("b", "year"))
    modifies clock
    ensures clock.requests == old(clock.requests) + [ShowImage("b"), PlaySound("b")]
  {
    var noon := DateTime(2024, 5, 1, 12, 30);
    var err := clock.SetClock(noon);
    assert IsRealBird("b");
    assert Displays(View("a", "year"), Active("b", "year")) == [ShowImage("b")];
    assert clock.requests == old(clock.requests) + [ShowImage("b")];
    assert CommandOf("sound") == Sound;
    err := clock.HandleInput("sound");
    assert Displays(View("b", "year"), Active("b", "year")) == [];
  }
}
