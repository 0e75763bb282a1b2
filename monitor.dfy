/** The tick: one evaluation of the page, the debounced ad/normal state
    machine, and the actions it triggers. */
module Monitor {
  import opened Dom
  import opened Settings
  import opened Override
  import opened Detection
  import opened Dismissal

  /** Consecutive clean ticks (about one second at 150 ms) before restoring. */
  const RestoreAfterCleanTicks: nat := 7

  /** The script's cross-tick memory: the controller's cells, the clean-tick
      counter and the time of the last simulated click. */
  datatype State = State(cells: Cells, cleanFalseStreak: int, lastClickMs: int)

  /** The values the module-level cells start with. */
  const Initial: State := State(Cells(false, 1.0, false, false, false), 0, 0)

  /** The outcome of one tick with a video present. */
  datatype Step = Step(state: State, media: Media, events: seq<Dispatch>)

  /** tick, for a present video with rate and mute m; page is the snapshot
      every lookup of the tick reads, w says which property writes the
      element accepts, now is the clock. */
  function Tick(cfg: Config, s: State, page: Page, m: Media, w: Writes, now: int): (r: Step)
    // an ad tick resets the counter and turns the override on
    ensures IsAdShowing(page) ==> r.state.cleanFalseStreak == 0 && r.state.cells.isAdActive
    // only ad ticks try to dismiss
    ensures !IsAdShowing(page) ==> r.events == [] && r.state.lastClickMs == s.lastClickMs
    // the override ends only on a clean tick that completes the streak
    ensures s.cells.isAdActive && !r.state.cells.isAdActive ==>
              !IsAdShowing(page) && s.cleanFalseStreak + 1 >= RestoreAfterCleanTicks
    // an ad tick applies the override, then tries to dismiss the ad
    ensures IsAdShowing(page) ==>
              var e := Apply(cfg, s.cells, m, w);
              var c := AutoSkipOrNext(cfg.autoSkip, PlayerFor(page), s.lastClickMs, now);
              r.state.cells == e.cells && r.media == e.media && r.state.lastClickMs == c.lastClickMs && r.events == c.events
    // a tick without an ad touches the cells and the video only by the restore that ends the streak
    ensures !IsAdShowing(page) ==>
              if s.cells.isAdActive && s.cleanFalseStreak + 1 >= RestoreAfterCleanTicks then
                r.state.cells == Restore(s.cells, m, w).cells && r.media == Restore(s.cells, m, w).media
              else
                r.state.cells == s.cells && r.media == m
  {
    if IsAdShowing(page) then
      var e := Apply(cfg, s.cells, m, w);
      var c := AutoSkipOrNext(cfg.autoSkip, PlayerFor(page), s.lastClickMs, now);
      Step(State(e.cells, 0, c.lastClickMs), e.media, c.events)
    else if CleanEnough(page) then
      var streak := s.cleanFalseStreak + 1;
      if s.cells.isAdActive && streak >= RestoreAfterCleanTicks then
        var e := Restore(s.cells, m, w);
        Step(State(e.cells, streak, s.lastClickMs), e.media, [])
      else
        Step(s.(cleanFalseStreak := streak), m, [])
    else
      Step(s.(cleanFalseStreak := 0), m, [])
  }

  /** What every reachable state satisfies: the forced flags are down
      outside an ad, and during an ad the streak has not reached the
      threshold. */
  predicate Inv(s: State) {
    && (!s.cells.isAdActive ==> !s.cells.weChangedRate && !s.cells.weChangedMute)
    && (s.cells.isAdActive ==> s.cleanFalseStreak < RestoreAfterCleanTicks)
  }

  lemma InitialInv()
    ensures Inv(Initial)
  {
  }

  lemma TickKeepsInv(cfg: Config, s: State, page: Page, m: Media, w: Writes, now: int)
    requires Inv(s)
    ensures Inv(Tick(cfg, s, page, m, w, now).state)
  {
  }

  /** The viewer's values change only on the tick that starts an ad, and
      then to the video's values on that tick. */
  lemma CaptureOncePerAd(cfg: Config, s: State, page: Page, m: Media, w: Writes, now: int)
    ensures var c := Tick(cfg, s, page, m, w, now).state.cells;
            (c.lastKnownUserRate, c.lastKnownUserMuted) != (s.cells.lastKnownUserRate, s.cells.lastKnownUserMuted) ==>
              !s.cells.isAdActive && IsAdShowing(page) && c.lastKnownUserRate == m.playbackRate && c.lastKnownUserMuted == m.muted
    ensures s.cells.isAdActive ==>
              var c := Tick(cfg, s, page, m, w, now).state.cells;
              c.lastKnownUserRate == s.cells.lastKnownUserRate && c.lastKnownUserMuted == s.cells.lastKnownUserMuted
  {
  }

  /** Outside an ad, a tick without an ad leaves the cells and the video
      alone; only the counter grows. */
  lemma NormalTickIsQuiet(cfg: Config, s: State, page: Page, m: Media, w: Writes, now: int)
    requires !s.cells.isAdActive && !IsAdShowing(page)
    ensures var r := Tick(cfg, s, page, m, w, now);
            r.state == s.(cleanFalseStreak := s.cleanFalseStreak + 1) && r.media == m && r.events == []
  {
    CleanIsNotShowing(page);
  }

  /** One tick's inputs besides the video. */
  datatype TickInput = TickInput(page: Page, writes: Writes, now: int)

  /** Consecutive ticks on one video whose viewer does not touch the
      controls: each tick sees the rate and mute the previous one left. */
  function Run(cfg: Config, s: State, m: Media, ins: seq<TickInput>): Step
    decreases |ins|
  {
    if ins == [] then Step(s, m, [])
    else
      var r := Tick(cfg, s, ins[0].page, m, ins[0].writes, ins[0].now);
      var rest := Run(cfg, r.state, r.media, ins[1..]);
      Step(rest.state, rest.media, r.events + rest.events)
  }

  predicate NoAd(ins: seq<TickInput>) {
    forall i :: 0 <= i < |ins| ==> !IsAdShowing(ins[i].page)
  }

  predicate AllAd(ins: seq<TickInput>) {
    forall i :: 0 <= i < |ins| ==> IsAdShowing(ins[i].page)
  }

  /** During an ad, clean ticks that do not complete the streak only count:
      the override stays on, the cells and the video are untouched. */
  lemma {:induction false} CleanTicksKeepOverride(cfg: Config, s: State, m: Media, ins: seq<TickInput>)
    requires s.cells.isAdActive && NoAd(ins)
    requires s.cleanFalseStreak + |ins| < RestoreAfterCleanTicks
    ensures var r := Run(cfg, s, m, ins);
            r.state == s.(cleanFalseStreak := s.cleanFalseStreak + |ins|) && r.media == m && r.events == []
    decreases |ins|
  {
    if ins != [] {
      CleanIsNotShowing(ins[0].page);
      var r := Tick(cfg, s, ins[0].page, m, ins[0].writes, ins[0].now);
      assert r.state == s.(cleanFalseStreak := s.cleanFalseStreak + 1) && r.media == m;
      assert NoAd(ins[1..]) by {
        forall i | 0 <= i < |ins[1..]| ensures !IsAdShowing(ins[1..][i].page) {
          assert ins[1..][i] == ins[i + 1];
        }
      }
      CleanTicksKeepOverride(cfg, r.state, m, ins[1..]);
    }
  }

  /** The debounce: after an ad tick, the override survives six clean ticks
      and ends on the seventh, with the restore that tick's writes allow. */
  lemma {:induction false} SeventhCleanTickRestores(cfg: Config, s: State, m: Media, ins: seq<TickInput>, n: nat)
    requires s.cells.isAdActive && s.cleanFalseStreak == 0
    requires |ins| == RestoreAfterCleanTicks && NoAd(ins)
    requires n < RestoreAfterCleanTicks
    ensures Run(cfg, s, m, ins[..n]).state.cells.isAdActive
    ensures var r := Run(cfg, s, m, ins);
            var last := ins[RestoreAfterCleanTicks - 1];
            && !r.state.cells.isAdActive
            && r.state.cells == Restore(s.cells, m, last.writes).cells
            && r.media == Restore(s.cells, m, last.writes).media
  {
    var six := ins[..6];
    assert NoAd(six) by {
      forall i | 0 <= i < 6 ensures !IsAdShowing(six[i].page) {
        assert six[i] == ins[i];
      }
    }
    assert NoAd(ins[..n]) by {
      forall i | 0 <= i < n ensures !IsAdShowing(ins[..n][i].page) {
        assert ins[..n][i] == ins[i];
      }
    }
    CleanTicksKeepOverride(cfg, s, m, ins[..n]);
    CleanTicksKeepOverride(cfg, s, m, six);
    RunAppend(cfg, s, m, six, ins[6..]);
    assert six + ins[6..] == ins;
    var r6 := Run(cfg, s, m, six);
    var last := ins[6];
    CleanIsNotShowing(last.page);
    assert ins[6..] == [last];
    assert ins[6..][1..] == [];
  }

  /** Running two stretches of ticks one after the other. */
  lemma {:induction false} RunAppend(cfg: Config, s: State, m: Media, a: seq<TickInput>, b: seq<TickInput>)
    ensures var ra := Run(cfg, s, m, a);
            var rb := Run(cfg, ra.state, ra.media, b);
            var rab := Run(cfg, s, m, a + b);
            rab.state == rb.state && rab.media == rb.media
    decreases |a|
  {
    if a != [] {
      assert (a + b)[0] == a[0];
      assert (a + b)[1..] == a[1..] + b;
      var r := Tick(cfg, s, a[0].page, m, a[0].writes, a[0].now);
      RunAppend(cfg, r.state, r.media, a[1..], b);
    } else {
      assert a + b == b;
    }
  }

  /** Ad ticks keep the override restorable to the state the ad began from. */
  lemma {:induction false} AdTicksKeepRestorable(cfg: Config, s: State, cur: Media, m0: Media, ins: seq<TickInput>)
    requires Restorable(cfg, s.cells, cur, m0) && AllAd(ins)
    ensures var r := Run(cfg, s, cur, ins);
            Restorable(cfg, r.state.cells, r.media, m0) && (ins != [] ==> r.state.cleanFalseStreak == 0)
    decreases |ins|
  {
    if ins != [] {
      var r := Tick(cfg, s, ins[0].page, cur, ins[0].writes, ins[0].now);
      ApplyKeepsRestorable(cfg, s.cells, cur, m0, ins[0].writes);
      assert AllAd(ins[1..]) by {
        forall i | 0 <= i < |ins[1..]| ensures IsAdShowing(ins[1..][i].page) {
          assert ins[1..][i] == ins[i + 1];
        }
      }
      AdTicksKeepRestorable(cfg, r.state, r.media, m0, ins[1..]);
    }
  }

  /** Round trip through the whole state machine: from normal playback with
      rate and mute m0, one or more ad ticks followed by seven clean ticks,
      the last of whose writes are accepted, leave the video exactly at m0
      and the script back in normal mode. */
  lemma AdCycleRoundTrip(cfg: Config, s: State, m0: Media, ads: seq<TickInput>, cleans: seq<TickInput>)
    requires !s.cells.isAdActive
    requires ads != [] && AllAd(ads)
    requires |cleans| == RestoreAfterCleanTicks && NoAd(cleans)
    requires cleans[RestoreAfterCleanTicks - 1].writes == AllAccepted
    ensures var r := Run(cfg, s, m0, ads + cleans);
            r.media == m0 && !r.state.cells.isAdActive
  {
    var first := Tick(cfg, s, ads[0].page, m0, ads[0].writes, ads[0].now);
    EnterIsRestorable(cfg, s.cells, m0, ads[0].writes);
    assert AllAd(ads[1..]) by {
      forall i | 0 <= i < |ads[1..]| ensures IsAdShowing(ads[1..][i].page) {
        assert ads[1..][i] == ads[i + 1];
      }
    }
    AdTicksKeepRestorable(cfg, first.state, first.media, m0, ads[1..]);
    var ra := Run(cfg, s, m0, ads);
    assert ra.state == Run(cfg, first.state, first.media, ads[1..]).state;
    assert ra.media == Run(cfg, first.state, first.media, ads[1..]).media;
    assert ra.state.cleanFalseStreak == 0 by {
      if |ads| == 1 {
        assert ads[1..] == [];
      }
    }
    SeventhCleanTickRestores(cfg, ra.state, ra.media, cleans, 0);
    RestoreUndoes(cfg, ra.state.cells, ra.media, m0, AllAccepted);
    RunAppend(cfg, s, m0, ads, cleans);
  }
}
