/** The overlay's state: whether the panel exists and is shown, whether the
    document's outside-click listener is attached, the current tab, the search
    box, the rendered list, and the panel's size with the resize handle's drag
    state. The page is passed in wherever the code reads it. */
module Panel {
  import opened Extraction
  import opened Filtering

  /** The smallest width and height a drag can give the panel, in pixels. */
  const MinSize: real := 300.0

  /** The share of the viewport a drag can give the panel at most. */
  const ViewportShare: real := 0.8

  /** The size `createPanel` gives a new panel, in pixels. */
  const InitialWidth: real := 400.0
  const InitialHeight: real := 500.0

  function MaxReal(a: real, b: real): real {
    if a >= b then a else b
  }

  function MinReal(a: real, b: real): real {
    if a <= b then a else b
  }

  /** `Math.max(300, Math.min(viewport * 0.8, requested))`: the requested size
      when it lies between 300 and 80% of the viewport, otherwise the nearer
      bound, with 300 winning when the viewport is too small for both. */
  function ClampSize(requested: real, viewport: real): (r: real)
    ensures MinSize <= r <= MaxReal(MinSize, viewport * ViewportShare)
    ensures r == requested || r == MinSize || r == viewport * ViewportShare
    ensures MinSize <= requested <= viewport * ViewportShare ==> r == requested
    ensures requested <= MinSize ==> r == MinSize
    ensures requested >= viewport * ViewportShare ==> r == MaxReal(MinSize, viewport * ViewportShare)
  {
    MaxReal(MinSize, MinReal(viewport * ViewportShare, requested))
  }

  /** Dragging further never makes the panel smaller. */
  lemma ClampMonotone(a: real, b: real, viewport: real)
    requires a <= b
    ensures ClampSize(a, viewport) <= ClampSize(b, viewport)
  {
  }

  /** A size already clamped for a viewport is kept as it is. */
  lemma ClampIdempotent(requested: real, viewport: real)
    ensures ClampSize(ClampSize(requested, viewport), viewport) == ClampSize(requested, viewport)
  {
  }

  /** The panel's `style.display`: `Flex` is 'flex', `Hidden` is 'none'. */
  datatype Display = Flex | Hidden

  /** The tab ids the panel's buttons pass to `switchTab`. */
  predicate KnownTab(tab: string) {
    tab == AllTab || tab == UserTab || tab == AssistantTab
  }

  /** The search box's placeholder for each tab. */
  function PlaceholderFor(tab: string): string
    requires KnownTab(tab)
  {
    if tab == AllTab then "Filter all messages..."
    else if tab == UserTab then "Filter my posts..."
    else "Filter AI answers..."
  }

  /** The content script's module-level state once `initialize` has created
      the jump button. */
  class ThreadJump {
    /** `panel !== null`. */
    var hasPanel: bool
    var display: Display
    /** `handleOutsideClick` is attached to the document's mousedown. */
    var outsideClickListening: bool
    var currentTab: string
    /** The search box's `value` and `placeholder`. */
    var searchValue: string
    var placeholder: string
    /** What the snippet list holds; `Rows([])` before the first render. */
    var listing: Listing
    /** The panel's `style.width` and `style.height`. */
    var width: real
    var height: real
    /** The resize handle's drag state. */
    var isResizing: bool
    /** `handleResize` and `stopResize` are attached to the document. */
    var resizeListening: bool
    var startX: real
    var startY: real
    var startWidth: real
    var startHeight: real

    /** The listener is attached exactly while the panel is shown, the resize
        listeners exactly while a drag is on, a drag needs the panel, the
        panel is never smaller than 300 pixels, and the placeholder follows
        the tab. */
    ghost predicate Valid()
      reads this
    {
      && (outsideClickListening <==> hasPanel && display == Flex)
      && Sound()
    }

    /** `Valid` without the outside-click listener, which `createPanel` leaves
        to `openPanel`. */
    ghost predicate Sound()
      reads this
    {
      && (resizeListening <==> isResizing)
      && (!hasPanel ==> display == Hidden && !isResizing && currentTab == AllTab && listing == Rows([]))
      && (hasPanel ==> MinSize <= width && MinSize <= height)
      && (hasPanel && KnownTab(currentTab) ==> placeholder == PlaceholderFor(currentTab))
    }

    /** `panel && panel.style.display !== 'none'`. */
    predicate Visible()
      reads this
    {
      hasPanel && display != Hidden
    }

    /** `initialize`: the button exists, there is no panel yet and the tab is
        "keywords". */
    constructor()
      ensures Valid()
      ensures !hasPanel && !Visible() && !outsideClickListening && currentTab == AllTab
    {
      hasPanel := false;
      display := Hidden;
      outsideClickListening := false;
      currentTab := AllTab;
      searchValue := "";
      placeholder := "";
      listing := Rows([]);
      width, height := InitialWidth, InitialHeight;
      isResizing, resizeListening := false, false;
      startX, startY, startWidth, startHeight := 0.0, 0.0, 0.0, 0.0;
    }

    /** `togglePanel`, the jump button's click: closes a shown panel and
        opens it otherwise; the tab stays as it is. An existing panel keeps
        its list, search box, size and drag state either way, so reopening
        shows the list as it was last rendered. */
    method TogglePanel(page: seq<Element>)
      requires Valid()
      modifies this
      ensures Valid()
      ensures old(Visible()) ==> hasPanel && !Visible() && !outsideClickListening
      ensures !old(Visible()) ==> Visible() && outsideClickListening
      ensures currentTab == old(currentTab)
      ensures old(hasPanel) ==>
        && listing == old(listing) && searchValue == old(searchValue) && placeholder == old(placeholder)
        && width == old(width) && height == old(height) && isResizing == old(isResizing)
        && startX == old(startX) && startY == old(startY)
        && startWidth == old(startWidth) && startHeight == old(startHeight)
      ensures !old(hasPanel) ==>
        && width == InitialWidth && height == InitialHeight && !isResizing
        && searchValue == "" && placeholder == PlaceholderFor(AllTab)
        && listing == Render(Displayed(Extract(page), currentTab, searchValue))
    {
      if hasPanel && display != Hidden {
        ClosePanel();
      } else {
        OpenPanel(page);
      }
    }

    /** `openPanel`: creates the panel on first use, shows it and attaches the
        outside-click listener. An existing panel is shown as it was left: its
        list is not rebuilt. */
    method OpenPanel(page: seq<Element>)
      requires Valid()
      modifies this
      ensures Valid()
      ensures Visible() && display == Flex && outsideClickListening
      ensures currentTab == old(currentTab)
      ensures old(hasPanel) ==>
        && listing == old(listing) && searchValue == old(searchValue) && placeholder == old(placeholder)
        && width == old(width) && height == old(height) && isResizing == old(isResizing)
        && startX == old(startX) && startY == old(startY)
        && startWidth == old(startWidth) && startHeight == old(startHeight)
      ensures !old(hasPanel) ==>
        && width == InitialWidth && height == InitialHeight && !isResizing
        && searchValue == "" && placeholder == PlaceholderFor(AllTab)
        && listing == Render(Displayed(Extract(page), currentTab, searchValue))
    {
      if !hasPanel {
        CreatePanel(page);
      }
      display := Flex;
      outsideClickListening := true;
    }

    /** `createPanel`: a new panel, shown, 400 by 500, with an empty search box,
        the "All" placeholder, no drag, and its list rendered. */
    method CreatePanel(page: seq<Element>)
      requires Valid() && !hasPanel
      modifies this
      ensures hasPanel && display == Flex && !outsideClickListening
      ensures currentTab == old(currentTab) == AllTab
      ensures width == InitialWidth && height == InitialHeight
      ensures !isResizing && !resizeListening
      ensures searchValue == "" && placeholder == PlaceholderFor(AllTab)
      ensures listing == Render(Displayed(Extract(page), currentTab, searchValue))
    {
      hasPanel := true;
      width, height := InitialWidth, InitialHeight;
      display := Flex;
      searchValue := "";
      placeholder := PlaceholderFor(AllTab);
      isResizing, resizeListening := false, false;
      UpdatePanelContent(page);
    }

    /** `closePanel`: hides the panel and detaches the outside-click listener;
        with no panel it does nothing. */
    method ClosePanel()
      requires Valid()
      modifies this`display, this`outsideClickListening
      ensures Valid()
      ensures !Visible() && !outsideClickListening
      ensures !old(hasPanel) ==> display == old(display)
    {
      if hasPanel {
        display := Hidden;
        outsideClickListening := false;
      }
    }

    /** `handleOutsideClick`: a mousedown closes the panel only when its target
        is in neither the panel nor the jump button. */
    method HandleOutsideClick(inPanel: bool, inButton: bool)
      requires Valid()
      modifies this`display, this`outsideClickListening
      ensures Valid()
      ensures !inPanel && !inButton ==> !Visible() && !outsideClickListening
      ensures inPanel || inButton ==> display == old(display) && outsideClickListening == old(outsideClickListening)
    {
      if !hasPanel {
        return;
      }
      if !inPanel && !inButton {
        ClosePanel();
      }
    }

    /** `switchTab`: sets the tab, the placeholder of a known tab, and rebuilds
        the list; the panel stays shown or hidden as it was. */
    method SwitchTab(tab: string, page: seq<Element>)
      requires Valid() && hasPanel
      modifies this`currentTab, this`placeholder, this`listing
      ensures Valid()
      ensures currentTab == tab
      ensures KnownTab(tab) ==> placeholder == PlaceholderFor(tab)
      ensures !KnownTab(tab) ==> placeholder == old(placeholder)
      ensures listing == Render(Displayed(Extract(page), tab, searchValue))
      ensures Visible() == old(Visible()) && outsideClickListening == old(outsideClickListening)
    {
      currentTab := tab;
      if KnownTab(tab) {
        placeholder := PlaceholderFor(tab);
      }
      UpdatePanelContent(page);
    }

    /** The search box's input event: the list is rebuilt for the new value. */
    method SetSearch(value: string, page: seq<Element>)
      requires Valid() && hasPanel
      modifies this`searchValue, this`listing
      ensures Valid()
      ensures searchValue == value
      ensures listing == Render(Displayed(Extract(page), currentTab, value))
    {
      searchValue := value;
      UpdatePanelContent(page);
    }

    /** `updatePanelContent`: reads the messages off the page, filters them by
        the current tab and search value, and renders what is left. */
    method UpdatePanelContent(page: seq<Element>)
      requires hasPanel && Sound()
      modifies this`listing
      ensures Sound() && (old(Valid()) ==> Valid())
      ensures listing == Render(Displayed(Extract(page), currentTab, searchValue))
    {
      var messages := GetMessageElements(page);
      listing := Render(Displayed(messages, currentTab, searchValue));
    }

    /** A click on row `k`: returns the position of the element to scroll to,
        and the panel is hidden afterwards whatever it was before. */
    method ClickRow(k: nat) returns (target: nat)
      requires Valid() && listing.Rows? && k < |listing.items|
      modifies this`display, this`outsideClickListening
      ensures Valid()
      ensures target == listing.items[k].target
      ensures !Visible() && !outsideClickListening
    {
      target := listing.items[k].target;
      ClosePanel();
    }

    /** A mousedown on the resize handle: records the pointer and the panel's
        rendered size, and attaches the drag listeners. */
    method StartResize(clientX: real, clientY: real, rectWidth: real, rectHeight: real)
      requires Valid() && hasPanel
      modifies this`isResizing, this`resizeListening, this`startX, this`startY, this`startWidth, this`startHeight
      ensures Valid()
      ensures isResizing && resizeListening
      ensures startX == clientX && startY == clientY && startWidth == rectWidth && startHeight == rectHeight
    {
      isResizing := true;
      startX, startY := clientX, clientY;
      startWidth, startHeight := rectWidth, rectHeight;
      resizeListening := true;
    }

    /** `handleResize`: while a drag is on, the size follows the pointer,
        clamped between 300 and 80% of the viewport (300 winning in a small
        viewport); once the drag is over it does nothing. */
    method HandleResize(clientX: real, clientY: real, innerWidth: real, innerHeight: real)
      requires Valid()
      modifies this`width, this`height
      ensures Valid()
      ensures isResizing ==>
        && width == ClampSize(startWidth + clientX - startX, innerWidth)
        && height == ClampSize(startHeight + clientY - startY, innerHeight)
        && MinSize <= width <= MaxReal(MinSize, innerWidth * ViewportShare)
        && MinSize <= height <= MaxReal(MinSize, innerHeight * ViewportShare)
      ensures !isResizing ==> width == old(width) && height == old(height)
    {
      if !isResizing {
        return;
      }
      var newWidth := ClampSize(startWidth + clientX - startX, innerWidth);
      var newHeight := ClampSize(startHeight + clientY - startY, innerHeight);
      width := newWidth;
      height := newHeight;
    }

    /** `stopResize`: ends the drag and detaches the drag listeners. */
    method StopResize()
      requires Valid()
      modifies this`isResizing, this`resizeListening
      ensures Valid()
      ensures !isResizing && !resizeListening
    {
      isResizing := false;
      resizeListening := false;
    }
  }

  /** A pointer move after the mouse button is released leaves the size as it
      was, wherever the pointer goes and whatever the viewport. */
  method MoveAfterRelease(p: ThreadJump, clientX: real, clientY: real, innerWidth: real, innerHeight: real)
    requires p.Valid()
    modifies p
    ensures p.Valid()
    ensures !p.isResizing && p.width == old(p.width) && p.height == old(p.height)
  {
    p.StopResize();
    p.HandleResize(clientX, clientY, innerWidth, innerHeight);
  }
}
