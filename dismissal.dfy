/** Best-effort dismissal: find a skip control, else a next control, inside
    the player, and click it at most once per 120 ms. */
module Dismissal {
  import opened Dom
  import Text

  /** The skip-control selectors, in the order they are tried. */
  const SkipSelectors: seq<string> := [
    "button.ytp-ad-skip-button",
    "button.ytp-ad-skip-button-modern",
    ".ytp-ad-skip-button",
    ".ytp-ad-skip-button-modern",
    ".ytp-ad-skip-button-container button",
    ".ytp-skip-ad-button"
  ]

  const NextSelector: string := ".ytp-next-button"

  /** The least spacing between two simulated clicks, in milliseconds. */
  const ClickIntervalMs: int := 120

  predicate ClickableMatch(p: Player, sel: string) {
    sel in p.firstMatch && IsClickable(p.firstMatch[sel])
  }

  /** The first match of the first selector whose first match is clickable. */
  function FirstClickableMatch(p: Player, sels: seq<string>): Option<Element>
    decreases |sels|
  {
    if sels == [] then None
    else if ClickableMatch(p, sels[0]) then Some(p.firstMatch[sels[0]])
    else FirstClickableMatch(p, sels[1..])
  }

  /** The selector search finds something iff some selector has a clickable
      first match, and then it is the first such selector's match. */
  lemma {:induction false} FirstClickableMatchIsFirst(p: Player, sels: seq<string>) returns (i: nat)
    ensures FirstClickableMatch(p, sels).None? <==> forall j :: 0 <= j < |sels| ==> !ClickableMatch(p, sels[j])
    ensures FirstClickableMatch(p, sels).Some? ==>
              && i < |sels| && ClickableMatch(p, sels[i])
              && FirstClickableMatch(p, sels) == Some(p.firstMatch[sels[i]])
              && forall j :: 0 <= j < i ==> !ClickableMatch(p, sels[j])
    decreases |sels|
  {
    if sels == [] {
      i := 0;
    } else if ClickableMatch(p, sels[0]) {
      i := 0;
    } else {
      var k := FirstClickableMatchIsFirst(p, sels[1..]);
      i := k + 1;
      forall j | 0 <= j < |sels[1..]| ensures sels[1..][j] == sels[j + 1] { }
      if FirstClickableMatch(p, sels[1..]).None? {
        forall j | 0 <= j < |sels| ensures !ClickableMatch(p, sels[j]) {
          if j > 0 { assert sels[j] == sels[1..][j - 1]; }
        }
      } else {
        forall j | 0 <= j < i ensures !ClickableMatch(p, sels[j]) {
          if j > 0 { assert sels[j] == sels[1..][j - 1]; }
        }
      }
    }
  }

  /** The label test of the text fallback, on the trimmed, lowercased label. */
  predicate SaysSkip(name: string) {
    name == "skip" || "skip ad" <= name || "skip ads" <= name || "skip trial" <= name
  }

  /** The "skip ads" alternative adds nothing: every label it accepts starts with "skip ad". */
  lemma SaysSkipSimplified(name: string)
    ensures SaysSkip(name) <==> name == "skip" || "skip ad" <= name || "skip trial" <= name
  {
    if "skip ads" <= name {
      assert "skip ad" == "skip ads"[..7] == name[..7];
    }
  }

  function NormalizedLabel(el: Element): string {
    Text.ToLower(Text.Trim(Label(el)))
  }

  predicate SkipLabelled(el: Element) {
    IsClickable(el) && SaysSkip(NormalizedLabel(el))
  }

  /** The first clickable candidate whose label says skip. */
  function FirstSkipLabelled(cands: seq<Element>): Option<Element>
    decreases |cands|
  {
    if cands == [] then None
    else if SkipLabelled(cands[0]) then Some(cands[0])
    else FirstSkipLabelled(cands[1..])
  }

  /** The fallback returns the first candidate, in document order, that is
      clickable and labelled skip, and nothing if there is none. */
  lemma {:induction false} FirstSkipLabelledIsFirst(cands: seq<Element>) returns (i: nat)
    ensures FirstSkipLabelled(cands).None? <==> forall j :: 0 <= j < |cands| ==> !SkipLabelled(cands[j])
    ensures FirstSkipLabelled(cands).Some? ==>
              && i < |cands| && SkipLabelled(cands[i])
              && FirstSkipLabelled(cands) == Some(cands[i])
              && forall j :: 0 <= j < i ==> !SkipLabelled(cands[j])
    decreases |cands|
  {
    if cands == [] {
      i := 0;
    } else if SkipLabelled(cands[0]) {
      i := 0;
    } else {
      var k := FirstSkipLabelledIsFirst(cands[1..]);
      i := k + 1;
      if FirstSkipLabelled(cands[1..]).None? {
        forall j | 0 <= j < |cands| ensures !SkipLabelled(cands[j]) {
          if j > 0 { assert cands[j] == cands[1..][j - 1]; }
        }
      } else {
        forall j | 0 <= j < i ensures !SkipLabelled(cands[j]) {
          if j > 0 { assert cands[j] == cands[1..][j - 1]; }
        }
      }
    }
  }

  /** findSkipButtonScoped on a resolved player: selectors first, then the
      text fallback. */
  function SkipButton(p: Player): Option<Element> {
    match FirstClickableMatch(p, SkipSelectors)
    case Some(el) => Some(el)
    case None => FirstSkipLabelled(p.buttons)
  }

  /** findNextButtonScoped on a resolved player. */
  function NextButton(p: Player): (r: Option<Element>)
    ensures r.Some? <==> ClickableMatch(p, NextSelector)
    ensures r.Some? ==> r.value == p.firstMatch[NextSelector] && IsClickable(r.value)
  {
    if NextSelector !in p.firstMatch || !IsClickable(p.firstMatch[NextSelector]) then None
    else Some(p.firstMatch[NextSelector])
  }

  /** Whatever the search returns is clickable. */
  lemma SkipButtonIsClickable(p: Player)
    ensures SkipButton(p).Some? ==> IsClickable(SkipButton(p).value)
  {
    var i := FirstClickableMatchIsFirst(p, SkipSelectors);
    var k := FirstSkipLabelledIsFirst(p.buttons);
  }

  /** The text fallback is consulted only when no selector has a clickable match. */
  lemma SelectorsBeforeLabels(p: Player)
    ensures (exists j :: 0 <= j < |SkipSelectors| && ClickableMatch(p, SkipSelectors[j])) ==>
              SkipButton(p) == FirstClickableMatch(p, SkipSelectors) && SkipButton(p).Some?
    ensures (forall j :: 0 <= j < |SkipSelectors| ==> !ClickableMatch(p, SkipSelectors[j])) ==>
              SkipButton(p) == FirstSkipLabelled(p.buttons)
  {
    var i := FirstClickableMatchIsFirst(p, SkipSelectors);
  }

  /** findSkipButtonScoped: two early-return loops, over the selectors and
      then over the fallback candidates. */
  method FindSkipButtonScoped(player: Option<Player>) returns (r: Option<Element>)
    ensures player.None? ==> r.None?
    ensures player.Some? ==> r == SkipButton(player.value)
  {
    if player.None? {
      return None;
    }
    var p := player.value;
    var i := 0;
    while i < |SkipSelectors|
      invariant 0 <= i <= |SkipSelectors|
      invariant FirstClickableMatch(p, SkipSelectors) == FirstClickableMatch(p, SkipSelectors[i..])
    {
      var sel := SkipSelectors[i];
      assert SkipSelectors[i..][1..] == SkipSelectors[i + 1..];
      if sel in p.firstMatch && IsClickable(p.firstMatch[sel]) {
        return Some(p.firstMatch[sel]);
      }
      i := i + 1;
    }
    var cands := p.buttons;
    var k := 0;
    while k < |cands|
      invariant 0 <= k <= |cands|
      invariant FirstSkipLabelled(cands) == FirstSkipLabelled(cands[k..])
    {
      var el := cands[k];
      assert cands[k..][1..] == cands[k + 1..];
      if IsClickable(el) {
        var name := Text.ToLower(Text.Trim(Label(el)));
        if name == "skip" || "skip ad" <= name || "skip ads" <= name || "skip trial" <= name {
          return Some(el);
        }
      }
      k := k + 1;
    }
    return None;
  }

  /** The steps of one simulated click, in dispatch order. */
  datatype EventKind = MouseOver | MouseDown | MouseUp | ClickCall | ClickEvent

  datatype Dispatch = Dispatch(target: Element, kind: EventKind)

  /** mouseover, mousedown, mouseup, the element's click(), then a click event. */
  function ClickSequence(el: Element): (evs: seq<Dispatch>)
    ensures |evs| == 5
    ensures forall i :: 0 <= i < |evs| ==> evs[i].target == el
    ensures evs[0].kind == MouseOver && evs[1].kind == MouseDown && evs[2].kind == MouseUp
    ensures evs[3].kind == ClickCall && evs[4].kind == ClickEvent
  {
    [Dispatch(el, MouseOver), Dispatch(el, MouseDown), Dispatch(el, MouseUp),
     Dispatch(el, ClickCall), Dispatch(el, ClickEvent)]
  }

  /** The result of a click attempt: whether it fired, the new time of the
      last click and what was dispatched. */
  datatype Click = Click(clicked: bool, lastClickMs: int, events: seq<Dispatch>)

  /** simulateHumanClick at time now. */
  function HumanClick(el: Option<Element>, lastClickMs: int, now: int): (c: Click)
    ensures c.clicked <==> el.Some? && now - lastClickMs >= ClickIntervalMs
    ensures c.clicked ==> c.lastClickMs == now && c.events == ClickSequence(el.value)
    ensures !c.clicked ==> c.lastClickMs == lastClickMs && c.events == []
  {
    if el.None? then Click(false, lastClickMs, [])
    else if now - lastClickMs < ClickIntervalMs then Click(false, lastClickMs, [])
    else Click(true, now, ClickSequence(el.value))
  }

  /** Two attempts less than 120 ms apart fire at most one click sequence. */
  lemma ClicksAreSpaced(el1: Option<Element>, el2: Option<Element>, last: int, t1: int, t2: int)
    requires t2 - t1 < ClickIntervalMs
    ensures var c1 := HumanClick(el1, last, t1);
            var c2 := HumanClick(el2, c1.lastClickMs, t2);
            !(c1.clicked && c2.clicked) && |c1.events + c2.events| <= 5
  {
  }

  /** tryAutoSkipOrNext on the tick's resolved player. */
  function AutoSkipOrNext(autoSkip: bool, player: Option<Player>, lastClickMs: int, now: int): Click {
    if !autoSkip || player.None? then Click(false, lastClickMs, [])
    else
      match SkipButton(player.value)
      case Some(skip) => HumanClick(Some(skip), lastClickMs, now)
      case None => HumanClick(NextButton(player.value), lastClickMs, now)
  }

  /** With auto-skip off nothing is clicked and the rate limit is untouched. */
  lemma NoAutoSkipNoClick(player: Option<Player>, lastClickMs: int, now: int)
    ensures AutoSkipOrNext(false, player, lastClickMs, now) == Click(false, lastClickMs, [])
  {
  }

  /** Without a player nothing is clicked and the rate limit is untouched. */
  lemma NoPlayerNoClick(autoSkip: bool, lastClickMs: int, now: int)
    ensures AutoSkipOrNext(autoSkip, None, lastClickMs, now) == Click(false, lastClickMs, [])
  {
  }

  /** Skip has priority: when a skip control is found it is clicked exactly
      when the rate limit allows, and no other control is. */
  lemma SkipBeforeNext(p: Player, lastClickMs: int, now: int)
    requires SkipButton(p).Some?
    ensures var c := AutoSkipOrNext(true, Some(p), lastClickMs, now);
            c.clicked <==> now - lastClickMs >= ClickIntervalMs
    ensures var c := AutoSkipOrNext(true, Some(p), lastClickMs, now);
            c.clicked ==> c.lastClickMs == now && c.events == ClickSequence(SkipButton(p).value)
    ensures var c := AutoSkipOrNext(true, Some(p), lastClickMs, now);
            !c.clicked ==> c.lastClickMs == lastClickMs && c.events == []
  {
  }

  /** The next control is clicked only when no skip control is found, and
      under the same rate limit. */
  lemma NextOnlyWithoutSkip(p: Player, lastClickMs: int, now: int)
    requires SkipButton(p).None?
    ensures var c := AutoSkipOrNext(true, Some(p), lastClickMs, now);
            c.clicked <==> ClickableMatch(p, NextSelector) && now - lastClickMs >= ClickIntervalMs
    ensures var c := AutoSkipOrNext(true, Some(p), lastClickMs, now);
            c.clicked ==> c.lastClickMs == now && c.events == ClickSequence(p.firstMatch[NextSelector])
    ensures var c := AutoSkipOrNext(true, Some(p), lastClickMs, now);
            !c.clicked ==> c.lastClickMs == lastClickMs && c.events == []
  {
  }

  /** Two dismissal attempts less than 120 ms apart, on whatever players,
      dispatch at most one click sequence between them. */
  lemma AttemptsAreSpaced(autoSkip: bool, p1: Option<Player>, p2: Option<Player>, last: int, t1: int, t2: int)
    requires t2 - t1 < ClickIntervalMs
    ensures var c1 := AutoSkipOrNext(autoSkip, p1, last, t1);
            var c2 := AutoSkipOrNext(autoSkip, p2, c1.lastClickMs, t2);
            !(c1.clicked && c2.clicked) && |c1.events + c2.events| <= 5
  {
  }

  /** Whatever is clicked is clickable, and at most one control is clicked per attempt. */
  lemma ClickedTargetIsClickable(autoSkip: bool, player: Option<Player>, lastClickMs: int, now: int)
    ensures var c := AutoSkipOrNext(autoSkip, player, lastClickMs, now);
            c.events == [] || (|c.events| == 5 && IsClickable(c.events[0].target) && c.events == ClickSequence(c.events[0].target))
  {
    if autoSkip && player.Some? {
      SkipButtonIsClickable(player.value);
    }
  }
}
