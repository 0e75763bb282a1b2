/** The override controller: forcing rate and mute during an ad and undoing
    exactly what was forced once it ends. */
module Override {
  import opened Settings

  const MinRate: real := 0.1
  const MaxRate: real := 16.0
  /** Two rates closer than this are treated as equal. */
  const RateEpsilon: real := 0.001

  function Abs(x: real): real {
    if x < 0.0 then -x else x
  }

  /** clampRate: the rate bounded to [0.1, 16]. */
  function ClampRate(rate: real): (r: real)
    ensures MinRate <= r <= MaxRate
    ensures MinRate <= rate <= MaxRate ==> r == rate
    ensures rate > MaxRate ==> r == MaxRate
    ensures rate < MinRate ==> r == MinRate
  {
    var upper := if rate < 16.0 then rate else 16.0;
    if 0.1 < upper then upper else 0.1
  }

  /** targetAdSpeed: the maximum, or the configured speed. */
  function TargetAdSpeed(cfg: Config): real {
    if cfg.useMaxAdSpeed then 16.0 else cfg.adSpeed
  }

  /** The rate applyAdMode forces: clampRate(targetAdSpeed()). */
  function DesiredRate(cfg: Config): (r: real)
    ensures MinRate <= r <= MaxRate
    ensures cfg.useMaxAdSpeed ==> r == MaxRate
    ensures !cfg.useMaxAdSpeed && MinRate <= cfg.adSpeed <= MaxRate ==> r == cfg.adSpeed
  {
    ClampRate(TargetAdSpeed(cfg))
  }

  /** Out of the box the maximum setting is on, so ads play at 16x whatever
      the configured speed; switching it off gives the default speed, 4x. */
  lemma DefaultsPlayAdsAtMax()
    ensures DesiredRate(DefaultConfig) == MaxRate
    ensures DesiredRate(DefaultConfig.(useMaxAdSpeed := false)) == DefaultAdSpeed
  {
  }

  /** `playbackRate || 1.0`: a rate of 0 is compared as if it were 1. */
  function Effective(rate: real): real {
    if rate == 0.0 then 1.0 else rate
  }

  /** The guard of both rate writes: the current rate, read through
      Effective, is more than RateEpsilon away from the target. */
  predicate RateDiffers(current: real, target: real) {
    Abs(Effective(current) - target) > RateEpsilon
  }

  /** The module-level cells the controller owns. */
  datatype Cells = Cells(
    isAdActive: bool,
    lastKnownUserRate: real,
    lastKnownUserMuted: bool,
    weChangedRate: bool,
    weChangedMute: bool)

  /** The two properties of the video element the controller writes. */
  datatype Media = Media(playbackRate: real, muted: bool)

  /** Whether the element accepts a write of each property this call; a
      refused write throws, is swallowed and leaves the property unchanged. */
  datatype Writes = Writes(rateAccepted: bool, muteAccepted: bool)

  const AllAccepted: Writes := Writes(true, true)

  datatype Effect = Effect(cells: Cells, media: Media)

  /** rememberUserState: saves the viewer's rate and mute and clears both forced flags. */
  function Remember(c: Cells, m: Media): (r: Cells)
    ensures r.lastKnownUserRate == m.playbackRate && r.lastKnownUserMuted == m.muted
    ensures !r.weChangedRate && !r.weChangedMute && r.isAdActive == c.isAdActive
  {
    c.(lastKnownUserRate := m.playbackRate, lastKnownUserMuted := m.muted,
       weChangedRate := false, weChangedMute := false)
  }

  /** applyAdMode on a present video. */
  function Apply(cfg: Config, c: Cells, m: Media, w: Writes): (e: Effect)
    // the override is on afterwards
    ensures e.cells.isAdActive
    // the viewer's values are captured on entry to an ad and only then
    ensures !c.isAdActive ==> e.cells.lastKnownUserRate == m.playbackRate && e.cells.lastKnownUserMuted == m.muted
    ensures c.isAdActive ==> e.cells.lastKnownUserRate == c.lastKnownUserRate && e.cells.lastKnownUserMuted == c.lastKnownUserMuted
    // with accepted writes the video is muted and at the desired rate (as compared by the code)
    ensures w.muteAccepted ==> e.media.muted
    ensures w.rateAccepted ==> !RateDiffers(e.media.playbackRate, DesiredRate(cfg))
    // the rate only ever moves to the desired rate, mute only ever to true
    ensures e.media.playbackRate != m.playbackRate ==> e.media.playbackRate == DesiredRate(cfg)
    ensures e.media.muted != m.muted ==> e.media.muted
    // a property changes only through an accepted write whose guard held
    ensures e.media.playbackRate != m.playbackRate ==> w.rateAccepted && RateDiffers(m.playbackRate, DesiredRate(cfg))
    ensures e.media.muted != m.muted ==> w.muteAccepted && !m.muted
    // a forced flag is raised exactly by a write that changed the property, and stays raised
    ensures e.cells.weChangedRate <==> (c.isAdActive && c.weChangedRate) || e.media.playbackRate != m.playbackRate
    ensures e.cells.weChangedMute <==> (c.isAdActive && c.weChangedMute) || e.media.muted != m.muted
  {
    var base := if c.isAdActive then c else Remember(c, m);
    var desired := DesiredRate(cfg);
    var writeRate := RateDiffers(m.playbackRate, desired) && w.rateAccepted;
    var writeMute := !m.muted && w.muteAccepted;
    Effect(
      base.(isAdActive := true,
            weChangedRate := base.weChangedRate || writeRate,
            weChangedMute := base.weChangedMute || writeMute),
      Media(if writeRate then desired else m.playbackRate, m.muted || writeMute))
  }

  /** restoreUserMode on a present video. */
  function Restore(c: Cells, m: Media, w: Writes): (e: Effect)
    // the override and both forced flags are always cleared; the saved values are kept
    ensures !e.cells.isAdActive && !e.cells.weChangedRate && !e.cells.weChangedMute
    ensures e.cells.lastKnownUserRate == c.lastKnownUserRate && e.cells.lastKnownUserMuted == c.lastKnownUserMuted
    // the rate is written back only if it was forced, and only to the saved rate
    ensures e.media.playbackRate != m.playbackRate ==> c.weChangedRate && e.media.playbackRate == c.lastKnownUserRate
    // unmuting happens only if mute was forced, the video is muted and the viewer was not muted before
    ensures e.media.muted != m.muted ==> c.weChangedMute && m.muted && !c.lastKnownUserMuted && !e.media.muted
    // a property changes only through an accepted write whose guard held
    ensures e.media.playbackRate != m.playbackRate ==> w.rateAccepted && RateDiffers(m.playbackRate, c.lastKnownUserRate)
    ensures e.media.muted != m.muted ==> w.muteAccepted
    // a viewer who was muted before the ad stays muted
    ensures c.lastKnownUserMuted ==> e.media.muted == m.muted
    // with accepted writes, a forced property that still differs goes back to the saved value
    ensures w.rateAccepted && c.weChangedRate && RateDiffers(m.playbackRate, c.lastKnownUserRate) ==> e.media.playbackRate == c.lastKnownUserRate
    ensures w.muteAccepted && c.weChangedMute && !c.lastKnownUserMuted ==> !e.media.muted
  {
    var writeRate := c.weChangedRate && RateDiffers(m.playbackRate, c.lastKnownUserRate) && w.rateAccepted;
    var writeMute := c.weChangedMute && m.muted && !c.lastKnownUserMuted && w.muteAccepted;
    Effect(
      c.(isAdActive := false, weChangedRate := false, weChangedMute := false),
      Media(if writeRate then c.lastKnownUserRate else m.playbackRate, if writeMute then false else m.muted))
  }

  /** A second application with the same video state changes nothing, once
      the first one's writes were accepted: enforcing every tick is harmless. */
  lemma ApplyIdempotent(cfg: Config, c: Cells, m: Media, w: Writes)
    ensures var e := Apply(cfg, c, m, AllAccepted); Apply(cfg, e.cells, e.media, w) == e
  {
    var e := Apply(cfg, c, m, AllAccepted);
    assert Effective(e.media.playbackRate) == e.media.playbackRate || e.media.playbackRate == 0.0;
  }

  /** The apply guard reads a rate of 0 as 1: with 0 saved and a desired rate
      within epsilon of 1, nothing is written and the ad plays at rate 0. */
  lemma ZeroRateIsNotForced(c: Cells)
    requires !c.isAdActive
    ensures var cfg := Config(1.0, true, false);
            var e := Apply(cfg, c, Media(0.0, false), AllAccepted);
            e.media.playbackRate == 0.0 && !e.cells.weChangedRate && DesiredRate(cfg) == 1.0
  {
  }

  /** Applications one after another, as on consecutive ad ticks with a
      viewer who does not touch the controls. */
  function ApplyAll(cfg: Config, c: Cells, m: Media, ws: seq<Writes>): (e: Effect)
    decreases |ws|
  {
    if ws == [] then Effect(c, m)
    else
      var e1 := Apply(cfg, c, m, ws[0]);
      ApplyAll(cfg, e1.cells, e1.media, ws[1..])
  }

  /** The relation between the controller's cells and the video during an ad
      that started from the viewer's state m0: the saved values are m0, and
      each property is either untouched or forced with its flag raised. */
  ghost predicate Restorable(cfg: Config, c: Cells, cur: Media, m0: Media) {
    && c.isAdActive
    && c.lastKnownUserRate == m0.playbackRate
    && c.lastKnownUserMuted == m0.muted
    && (if c.weChangedRate
        then cur.playbackRate == DesiredRate(cfg) && RateDiffers(m0.playbackRate, DesiredRate(cfg))
        else cur.playbackRate == m0.playbackRate)
    && (if c.weChangedMute then cur.muted && !m0.muted else cur.muted == m0.muted)
  }

  lemma EnterIsRestorable(cfg: Config, c: Cells, m0: Media, w: Writes)
    requires !c.isAdActive
    ensures var e := Apply(cfg, c, m0, w); Restorable(cfg, e.cells, e.media, m0)
  {
  }

  lemma ApplyKeepsRestorable(cfg: Config, c: Cells, cur: Media, m0: Media, w: Writes)
    requires Restorable(cfg, c, cur, m0)
    ensures var e := Apply(cfg, c, cur, w); Restorable(cfg, e.cells, e.media, m0)
  {
    if c.weChangedRate {
      assert Effective(cur.playbackRate) == cur.playbackRate;
    }
  }

  lemma {:induction false} ApplyAllKeepsRestorable(cfg: Config, c: Cells, cur: Media, m0: Media, ws: seq<Writes>)
    requires Restorable(cfg, c, cur, m0)
    ensures var e := ApplyAll(cfg, c, cur, ws); Restorable(cfg, e.cells, e.media, m0)
    decreases |ws|
  {
    if ws != [] {
      var e1 := Apply(cfg, c, cur, ws[0]);
      ApplyKeepsRestorable(cfg, c, cur, m0, ws[0]);
      ApplyAllKeepsRestorable(cfg, e1.cells, e1.media, m0, ws[1..]);
    }
  }

  /** Restoring from a restorable state with accepted writes gives back m0
      exactly. */
  lemma RestoreUndoes(cfg: Config, c: Cells, cur: Media, m0: Media, w: Writes)
    requires Restorable(cfg, c, cur, m0)
    requires w == AllAccepted
    ensures Restore(c, cur, w).media == m0
  {
    if c.weChangedRate {
      assert Effective(cur.playbackRate) == cur.playbackRate;
      if m0.playbackRate != 0.0 {
        assert Effective(m0.playbackRate) == m0.playbackRate;
      }
    }
  }

  /** Round trip: from the viewer's state m0 outside an ad, any number (at
      least one) of applications followed by a restore whose writes are
      accepted leaves rate and mute exactly at m0, whatever the applications'
      writes did. */
  lemma {:induction false} ApplyRestoreRoundTrip(cfg: Config, c: Cells, m0: Media, ws: seq<Writes>)
    requires !c.isAdActive && ws != []
    ensures var e := ApplyAll(cfg, c, m0, ws);
            var r := Restore(e.cells, e.media, AllAccepted);
            r.media == m0 && !r.cells.isAdActive
  {
    var e1 := Apply(cfg, c, m0, ws[0]);
    EnterIsRestorable(cfg, c, m0, ws[0]);
    ApplyAllKeepsRestorable(cfg, e1.cells, e1.media, m0, ws[1..]);
    var e := ApplyAll(cfg, c, m0, ws);
    RestoreUndoes(cfg, e.cells, e.media, m0, AllAccepted);
  }

  /** A viewer who was muted before the ad is muted after the restore,
      whichever writes were accepted on the way. */
  lemma {:induction false} MutedViewerStaysMuted(cfg: Config, c: Cells, m0: Media, ws: seq<Writes>, w: Writes)
    requires !c.isAdActive && ws != [] && m0.muted
    ensures var e := ApplyAll(cfg, c, m0, ws);
            !e.cells.weChangedMute && Restore(e.cells, e.media, w).media.muted
  {
    var e1 := Apply(cfg, c, m0, ws[0]);
    EnterIsRestorable(cfg, c, m0, ws[0]);
    ApplyAllKeepsRestorable(cfg, e1.cells, e1.media, m0, ws[1..]);
  }
}
