/** The content script's mutable state and its operations, as a class over
    the module-level cells, each method proved against the functions of
    Override, Dismissal and Monitor. */
module ContentScript {
  import opened Dom
  import opened Settings
  import opened Override
  import opened Detection
  import opened Dismissal
  import Monitor

  /** The page's video element: the two properties the script writes. */
  class Video {
    var playbackRate: real
    var muted: bool

    constructor (playbackRate: real, muted: bool)
      ensures this.playbackRate == playbackRate && this.muted == muted
    {
      this.playbackRate := playbackRate;
      this.muted := muted;
    }

    function Media(): Media
      reads this
    {
      Override.Media(playbackRate, muted)
    }
  }

  /** The module-level cells of the script. The configuration is fixed for
      the session; dispatched records the synthetic events sent to the page. */
  class AdMonitor {
    const config: Config
    var isAdActive: bool
    var lastKnownUserRate: real
    var lastKnownUserMuted: bool
    var weChangedMute: bool
    var weChangedRate: bool
    var cleanFalseStreak: int
    var lastClickMs: int
    var dispatched: seq<Dispatch>

    constructor (config: Config)
      ensures this.config == config
      ensures State() == Monitor.Initial && Monitor.Inv(State()) && dispatched == []
    {
      this.config := config;
      isAdActive := false;
      lastKnownUserRate := 1.0;
      lastKnownUserMuted := false;
      weChangedMute := false;
      weChangedRate := false;
      cleanFalseStreak := 0;
      lastClickMs := 0;
      dispatched := [];
    }

    function Cells(): Cells
      reads this
    {
      Override.Cells(isAdActive, lastKnownUserRate, lastKnownUserMuted, weChangedRate, weChangedMute)
    }

    function State(): Monitor.State
      reads this
    {
      Monitor.State(Cells(), cleanFalseStreak, lastClickMs)
    }

    /** rememberUserState. */
    method RememberUserState(video: Video)
      modifies this
      ensures Cells() == Remember(old(Cells()), video.Media())
      ensures lastKnownUserRate == video.playbackRate && lastKnownUserMuted == video.muted
      ensures !weChangedRate && !weChangedMute
      ensures isAdActive == old(isAdActive) && cleanFalseStreak == old(cleanFalseStreak)
      ensures lastClickMs == old(lastClickMs) && dispatched == old(dispatched)
    {
      lastKnownUserRate := video.playbackRate;
      lastKnownUserMuted := video.muted;
      weChangedRate := false;
      weChangedMute := false;
    }

    /** applyAdMode; w says which of the two property writes the element accepts. */
    method ApplyAdMode(video: Video?, w: Writes)
      modifies this, video
      ensures video == null ==> Cells() == old(Cells())
      ensures video != null ==>
                var e := Apply(config, old(Cells()), old(video.Media()), w);
                Cells() == e.cells && video.Media() == e.media
      ensures cleanFalseStreak == old(cleanFalseStreak) && lastClickMs == old(lastClickMs)
      ensures dispatched == old(dispatched)
    {
      if video == null {
        return;
      }
      if !isAdActive {
        RememberUserState(video);
      }
      var desired := ClampRate(TargetAdSpeed(config));
      if Abs(Effective(video.playbackRate) - desired) > RateEpsilon {
        if w.rateAccepted {
          video.playbackRate := desired;
          weChangedRate := true;
        }
      }
      if !video.muted {
        if w.muteAccepted {
          video.muted := true;
          weChangedMute := true;
        }
      }
      isAdActive := true;
    }

    /** restoreUserMode; w says which of the two property writes the element accepts. */
    method RestoreUserMode(video: Video?, w: Writes)
      modifies this, video
      ensures video == null ==> Cells() == old(Cells())
      ensures video != null ==>
                var e := Restore(old(Cells()), old(video.Media()), w);
                Cells() == e.cells && video.Media() == e.media
      ensures cleanFalseStreak == old(cleanFalseStreak) && lastClickMs == old(lastClickMs)
      ensures dispatched == old(dispatched)
    {
      if video == null {
        return;
      }
      if weChangedRate && Abs(Effective(video.playbackRate) - lastKnownUserRate) > RateEpsilon {
        if w.rateAccepted {
          video.playbackRate := lastKnownUserRate;
        }
      }
      if weChangedMute && video.muted && !lastKnownUserMuted {
        if w.muteAccepted {
          video.muted := false;
        }
      }
      isAdActive := false;
      weChangedRate := false;
      weChangedMute := false;
    }

    /** simulateHumanClick at time now: rate-limited to one sequence per 120 ms. */
    method SimulateHumanClick(el: Option<Element>, now: int) returns (clicked: bool)
      modifies this
      ensures var c := HumanClick(el, old(lastClickMs), now);
              clicked == c.clicked && lastClickMs == c.lastClickMs && dispatched == old(dispatched) + c.events
      ensures Cells() == old(Cells()) && cleanFalseStreak == old(cleanFalseStreak)
    {
      if el.None? {
        return false;
      }
      if now - lastClickMs < ClickIntervalMs {
        return false;
      }
      lastClickMs := now;
      var target := el.value;
      dispatched := dispatched + [Dispatch(target, MouseOver)];
      dispatched := dispatched + [Dispatch(target, MouseDown)];
      dispatched := dispatched + [Dispatch(target, MouseUp)];
      dispatched := dispatched + [Dispatch(target, ClickCall)];
      dispatched := dispatched + [Dispatch(target, ClickEvent)];
      return true;
    }

    /** tryAutoSkipOrNext: skip control first, next control only without one. */
    method TryAutoSkipOrNext(page: Page, now: int)
      modifies this
      ensures var c := AutoSkipOrNext(config.autoSkip, PlayerFor(page), old(lastClickMs), now);
              lastClickMs == c.lastClickMs && dispatched == old(dispatched) + c.events
      ensures Cells() == old(Cells()) && cleanFalseStreak == old(cleanFalseStreak)
    {
      if !config.autoSkip {
        return;
      }
      var player := PlayerFor(page);
      if player.None? {
        return;
      }
      var skip := FindSkipButtonScoped(player);
      if skip.Some? {
        var _ := SimulateHumanClick(skip, now);
        return;
      }
      var nextBtn := NextButton(player.value);
      if nextBtn.Some? {
        var _ := SimulateHumanClick(nextBtn, now);
      }
    }

    /** tick: video is what the main-video lookup found (null if none). */
    method Tick(video: Video?, page: Page, w: Writes, now: int)
      modifies this, video
      ensures video == null ==> State() == old(State()) && dispatched == old(dispatched)
      ensures video != null ==>
                var r := Monitor.Tick(config, old(State()), page, old(video.Media()), w, now);
                State() == r.state && video.Media() == r.media && dispatched == old(dispatched) + r.events
    {
      if video == null {
        return;
      }
      var adNow := IsAdShowingScoped(page);
      if adNow {
        cleanFalseStreak := 0;
        ApplyAdMode(video, w);
        TryAutoSkipOrNext(page, now);
      } else {
        var clean := AdCleanEnoughToRestore(page);
        if clean {
          cleanFalseStreak := cleanFalseStreak + 1;
          if isAdActive && cleanFalseStreak >= Monitor.RestoreAfterCleanTicks {
            RestoreUserMode(video, w);
          }
        } else {
          // The source resets the counter here (content.js:243-245). On one
          // snapshot a tick that is not an ad tick is always clean
          // (Detection.CleanIsNotShowing), so the branch is never taken.
          assert false;
        }
      }
    }
  }
}
