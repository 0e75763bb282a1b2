/** Ad evidence read from one player container, and the two verdicts built on it. */
module Detection {
  import opened Dom

  /** The ad-only controls whose visibility counts as evidence of an ad. */
  const AdUiSelectors: seq<string> := [
    ".ytp-ad-skip-button",
    ".ytp-ad-skip-button-modern",
    ".ytp-ad-timed-pie-countdown-container"
  ]

  /** The player's class list carries one of the two ad state markers. */
  predicate ClassSaysAd(p: Player) {
    "ad-showing" in p.classes || "ad-interrupting" in p.classes
  }

  predicate VisibleMatch(p: Player, sel: string) {
    sel in p.firstMatch && IsVisible(p.firstMatch[sel])
  }

  /** Some ad-only control is rendered visibly inside this player. */
  predicate AdUiVisible(p: Player) {
    exists i :: 0 <= i < |AdUiSelectors| && VisibleMatch(p, AdUiSelectors[i])
  }

  /** The liberal verdict: an ad is showing in the resolved player. */
  predicate IsAdShowing(page: Page) {
    match PlayerFor(page)
    case None => false
    case Some(p) => ClassSaysAd(p) || AdUiVisible(p)
  }

  /** The strict verdict used to count towards restoring. */
  predicate CleanEnough(page: Page) {
    match PlayerFor(page)
    case None => true
    case Some(p) => !ClassSaysAd(p) && !AdUiVisible(p)
  }

  /** playerHasAdUi: the selectors are tried in order and the first visible
      match ends the search. */
  method PlayerHasAdUi(player: Option<Player>) returns (r: bool)
    ensures r <==> player.Some? && exists i :: 0 <= i < |AdUiSelectors| && VisibleMatch(player.value, AdUiSelectors[i])
  {
    if player.None? {
      return false;
    }
    var p := player.value;
    var i := 0;
    while i < |AdUiSelectors|
      invariant 0 <= i <= |AdUiSelectors|
      invariant forall j :: 0 <= j < i ==> !VisibleMatch(p, AdUiSelectors[j])
    {
      var sel := AdUiSelectors[i];
      if sel in p.firstMatch && IsVisible(p.firstMatch[sel]) {
        return true;
      }
      i := i + 1;
    }
    return false;
  }

  /** isAdShowingScoped: no player means no ad; otherwise class marker or visible ad UI. */
  method IsAdShowingScoped(page: Page) returns (r: bool)
    ensures r <==> IsAdShowing(page)
  {
    var player := PlayerFor(page);
    if player.None? {
      return false;
    }
    if ClassSaysAd(player.value) {
      return true;
    }
    r := PlayerHasAdUi(player);
  }

  /** adCleanEnoughToRestore: no player counts as clean; otherwise neither
      the class marker nor visible ad UI. */
  method AdCleanEnoughToRestore(page: Page) returns (r: bool)
    ensures r <==> CleanEnough(page)
  {
    var player := PlayerFor(page);
    if player.None? {
      return true;
    }
    var classAd := ClassSaysAd(player.value);
    var uiAd := PlayerHasAdUi(player);
    r := !classAd && !uiAd;
  }

  /** On one snapshot the two verdicts are exact complements: there is no
      tick that is neither an ad tick nor a clean tick. */
  lemma CleanIsNotShowing(page: Page)
    ensures CleanEnough(page) <==> !IsAdShowing(page)
  {
  }

  /** When the video has an enclosing player, the verdict depends on that
      player alone, whatever other player the page holds. */
  lemma VerdictScopedToEnclosingPlayer(p: Player, other1: Option<Player>, other2: Option<Player>)
    ensures IsAdShowing(Page(Some(p), other1)) == IsAdShowing(Page(Some(p), other2))
    ensures IsAdShowing(Page(Some(p), other1)) <==> ClassSaysAd(p) || AdUiVisible(p)
  {
  }

  /** Without an enclosing player the page-wide player is consulted. */
  lemma VerdictFallsBackToPagePlayer(page: Page)
    requires page.enclosingPlayer.None?
    ensures IsAdShowing(page) <==> page.anyPlayer.Some? && (ClassSaysAd(page.anyPlayer.value) || AdUiVisible(page.anyPlayer.value))
  {
  }

  /** A visible ad-only control is enough, even without the class marker. */
  lemma VisibleAdUiIsAnAd(page: Page, i: nat)
    requires PlayerFor(page).Some? && i < |AdUiSelectors|
    requires VisibleMatch(PlayerFor(page).value, AdUiSelectors[i])
    ensures IsAdShowing(page) && !CleanEnough(page)
  {
  }
}
