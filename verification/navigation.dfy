/** The mobile navigation menu: the "active" class on the menu panel and on
    the toggle button, and the three click listeners that change them. */
module Navigation {

  /** Whether the menu panel and the toggle button carry the "active" class. */
  datatype Menu = Menu(panelActive: bool, toggleActive: bool) {
    /** Both markers agree. */
    predicate InSync() {
      panelActive == toggleActive
    }
  }

  /** Where a click lands: on the toggle button, on a link inside the panel,
      elsewhere inside the panel, or outside both elements. */
  datatype Target = OnToggle | OnLink | InPanel | Outside

  /** The controller after construction: the listeners exist only when both
      the toggle button and the panel were found. */
  datatype Controller = Controller(hasToggle: bool, hasPanel: bool, menu: Menu)

  const Closed: Menu := Menu(false, false)

  /** `toggleMobileMenu`: flips each marker. */
  function Toggle(m: Menu): (r: Menu)
    ensures r.panelActive != m.panelActive && r.toggleActive != m.toggleActive
    ensures m.InSync() <==> r.InSync()
  {
    Menu(!m.panelActive, !m.toggleActive)
  }

  /** `closeMobileMenu`: removes both markers. */
  function Close(m: Menu): (r: Menu)
    ensures r == Closed && r.InSync()
  {
    Menu(false, false)
  }

  /** The document listener: an open menu closes when the click target is in
      neither the panel nor the toggle button; otherwise nothing changes. */
  function DocumentClick(m: Menu, inPanel: bool, inToggle: bool): (r: Menu)
    ensures m.panelActive && !inPanel && !inToggle ==> r == Closed
    ensures !(m.panelActive && !inPanel && !inToggle) ==> r == m
  {
    if m.panelActive && !inPanel && !inToggle then Close(m) else m
  }

  /** The document listener never opens the menu, keeps the two markers in
      step, and a second delivery of the same click changes nothing more. */
  lemma DocumentClickOnlyCloses(m: Menu, inPanel: bool, inToggle: bool)
    ensures DocumentClick(m, inPanel, inToggle).panelActive ==> m.panelActive
    ensures m.InSync() ==> DocumentClick(m, inPanel, inToggle).InSync()
    ensures DocumentClick(DocumentClick(m, inPanel, inToggle), inPanel, inToggle) == DocumentClick(m, inPanel, inToggle)
  {
  }

  /** One click, with bubbling: the listener on the target element runs
      first, then the document listener sees the updated markers. Without
      both elements no listener was attached and nothing changes. */
  function Click(c: Controller, t: Target): (r: Controller)
    ensures r.hasToggle == c.hasToggle && r.hasPanel == c.hasPanel
    ensures !(c.hasToggle && c.hasPanel) ==> r == c
    ensures c.hasToggle && c.hasPanel && t == OnToggle ==> r.menu == Toggle(c.menu)
    ensures c.hasToggle && c.hasPanel && (t == OnLink || (t == Outside && c.menu.panelActive)) ==> r.menu == Closed
    ensures t == InPanel || (t == Outside && !c.menu.panelActive) ==> r == c
  {
    if !c.hasToggle || !c.hasPanel then c
    else
      var afterTarget := match t
        case OnToggle => Toggle(c.menu)
        case OnLink => Close(c.menu)
        case _ => c.menu;
      var afterDocument := DocumentClick(afterTarget, t == OnLink || t == InPanel, t == OnToggle);
      c.(menu := afterDocument)
  }

  /** Toggling twice restores the markers. */
  lemma ToggleTwice(m: Menu)
    ensures Toggle(Toggle(m)) == m
  {
  }

  /** Closing forgets the previous state: whatever was open or toggled
      before, the result is the same, and the toggle opens it again with
      both markers in step. */
  lemma CloseResets(m: Menu, m': Menu)
    ensures Close(m) == Close(m')
    ensures Close(Toggle(m)) == Close(m)
    ensures Toggle(Close(m)).panelActive && Toggle(Close(m)).InSync()
  {
  }

  /** Closing a closed menu changes nothing. */
  lemma CloseIdempotent(m: Menu)
    ensures Close(Close(m)) == Close(m)
  {
  }

  /** The markers of a menu that starts closed stay in step through any
      sequence of clicks. */
  function ClickAll(c: Controller, ts: seq<Target>): (r: Controller)
    ensures c.menu.InSync() ==> r.menu.InSync()
    ensures r.hasToggle == c.hasToggle && r.hasPanel == c.hasPanel
    decreases |ts|
  {
    if |ts| == 0 then c else ClickAll(Click(c, ts[0]), ts[1..])
  }

  /** Two clicks on the toggle button from the closed state leave it closed. */
  lemma ToggleTwiceFromClosed(c: Controller)
    requires c.menu == Closed
    ensures ClickAll(c, [OnToggle, OnToggle]).menu == Closed
  {
    assert [OnToggle, OnToggle][1..] == [OnToggle];
  }
}

/** Helpers of the main script. */
module Utils {
  import opened Js

  /** An element's bounding box as reported by `getBoundingClientRect`, in
      CSS pixels (fractional values allowed). */
  datatype Rect = Rect(top: real, left: real, bottom: real, right: real)

  /** `utils.isInViewport`: a missing element is not in the viewport; a
      present one is when its box lies inside `[0, innerWidth] x [0, innerHeight]`. */
  function IsInViewport(element: Option<Rect>, innerHeight: int, innerWidth: int): (r: bool)
    ensures element.None? ==> !r
    ensures element.Some? ==> (r <==> element.value.top >= 0.0 && element.value.left >= 0.0
                                      && element.value.bottom <= innerHeight as real && element.value.right <= innerWidth as real)
  {
    match element
    case None => false
    case Some(rect) =>
      rect.top >= 0.0 && rect.left >= 0.0 && rect.bottom <= innerHeight as real && rect.right <= innerWidth as real
  }

  /** The point `(x, y)` lies in the box. */
  predicate InBox(rect: Rect, x: real, y: real) {
    rect.left <= x <= rect.right && rect.top <= y <= rect.bottom
  }

  /** The point `(x, y)` lies in the window `[0, innerWidth] x [0, innerHeight]`. */
  predicate InWindow(x: real, y: real, innerHeight: int, innerWidth: int) {
    0.0 <= x <= innerWidth as real && 0.0 <= y <= innerHeight as real
  }

  /** For a well-formed box, being in the viewport means that every point
      of the box is a point of the window. */
  lemma InViewportContainment(rect: Rect, innerHeight: int, innerWidth: int)
    requires rect.left <= rect.right && rect.top <= rect.bottom
    ensures IsInViewport(Some(rect), innerHeight, innerWidth)
            <==> forall x, y :: InBox(rect, x, y) ==> InWindow(x, y, innerHeight, innerWidth)
  {
    if forall x, y :: InBox(rect, x, y) ==> InWindow(x, y, innerHeight, innerWidth) {
      assert InBox(rect, rect.left, rect.top);
      assert InBox(rect, rect.right, rect.bottom);
    }
  }

  /** A box in the viewport stays in it when the window grows. */
  lemma ViewportMonotone(rect: Rect, h: int, w: int, h': int, w': int)
    requires IsInViewport(Some(rect), h, w) && h <= h' && w <= w'
    ensures IsInViewport(Some(rect), h', w')
  {
  }
}
