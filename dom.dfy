/** One tick's snapshot of the part of the page the content script reads. */
module Dom {

  datatype Option<+T> = None | Some(value: T)

  /** What the script reads from one element: its bounding box, its computed
      style and its attributes. An absent attribute is the empty string, which
      every test made on it treats the same way as a missing one. */
  datatype Element = Element(
    width: real,              // getBoundingClientRect().width
    height: real,             // getBoundingClientRect().height
    visibility: string,       // computed style
    display: string,          // computed style
    opacity: string,          // computed style, as a string
    pointerEvents: string,    // computed style
    hasDisabled: bool,        // getAttribute('disabled') !== null
    ariaDisabled: string,     // getAttribute('aria-disabled')
    ariaLabel: string,        // getAttribute('aria-label')
    textContent: string)

  /** The subtree of one player container: its class list, the first match of
      each selector the script asks for (a selector with no match is not a key),
      and the candidates of the fallback query, in document order. */
  datatype Player = Player(
    classes: set<string>,
    firstMatch: map<string, Element>,
    buttons: seq<Element>)

  /** The two places a player container is looked for: the video's nearest
      enclosing player, then the first player anywhere in the document. */
  datatype Page = Page(enclosingPlayer: Option<Player>, anyPlayer: Option<Player>)

  /** Rendered with a non-empty box, not hidden, not collapsed, not transparent. */
  predicate IsVisible(el: Element) {
    && el.width > 0.0 && el.height > 0.0
    && el.visibility != "hidden" && el.display != "none" && el.opacity != "0"
  }

  /** Visible, not disabled either way, and accepting pointer events. */
  predicate IsClickable(el: Element) {
    && IsVisible(el)
    && !(el.hasDisabled || el.ariaDisabled == "true")
    && el.pointerEvents != "none"
  }

  /** The aria-label when it is non-empty, otherwise the text content. */
  function Label(el: Element): string {
    if el.ariaLabel != "" then el.ariaLabel else el.textContent
  }

  /** The player whose subtree every query of the tick is scoped to. */
  function PlayerFor(page: Page): Option<Player> {
    if page.enclosingPlayer.Some? then page.enclosingPlayer else page.anyPlayer
  }
}
