# ChatGPT Thread Jump, modelled in Dafny

The content script `gpt-post-history/content.js` adds a jump button to a
ChatGPT conversation page. The button opens a panel that lists the
conversation's messages as short snippets. The panel has three tabs (All,
My Posts, AI) and a search box. Clicking a row scrolls to that message and
closes the panel. A handle at the panel's corner resizes it.

This project models the logic behind that panel:

- `text.dfy`, module `Text`: the three string operations the script relies
  on. These are `trim` (ECMAScript whitespace and line terminators),
  `toLowerCase` (ASCII letters) and `indexOf`.
- `sequences.dfy`, module `Sequences`: `Array.prototype.filter` as `Select`,
  and what it keeps: an order-preserving subsequence with exactly the
  elements that pass.
- `extraction.dfy`, module `Extraction`: `getMessageElements`.
  - The page is the sequence of its `[data-message-id]` elements in document
    order.
  - Each element carries its id attribute, its role attribute and its
    `textContent`. An absent attribute reads as the empty string, because the
    code treats `null` and `""` alike.
  - The method `GetMessageElements` follows the code's loop. It is proved
    equal to the function `Extract`.
  - Lemmas state what `Extract` yields: which elements are skipped, the role
    rule, the lowercased text, the snippet and the document order.
- `filtering.dfy`, module `Filtering`: the part of `updatePanelContent` that
  chooses what to list.
  - The tab filter, the search term, the search filter, and the choice
    between "No messages found" and one row per message.
  - Each row keeps its `[You]`/`[AI]` label, its snippet and the element it
    scrolls to.
- `panel.dfy`, module `Panel`: the script's mutable state as the class
  `ThreadJump`.
  - The fields are: whether the panel exists, its display, whether the
    outside-click listener is attached, `currentTab`, the search box's value
    and placeholder, the rendered list, the panel's size, and the resize
    handle's drag state (`isResizing`, the start point and start size).
  - The methods are `togglePanel`, `openPanel`, `createPanel`, `closePanel`,
    `handleOutsideClick`, `switchTab`, the search box's input handler,
    `updatePanelContent`, the row click, and the resize handle's mousedown,
    `handleResize` and `stopResize`.
  - Every method except `createPanel` keeps the invariant `Valid`. It says
    that:
    - the outside-click listener is attached exactly while the panel is shown;
    - the drag listeners are attached exactly while a drag is on;
    - the panel is never smaller than 300 pixels;
    - the placeholder matches a known tab.
  - `createPanel` shows the panel without attaching the outside-click
    listener, which `openPanel` attaches right after it, so it keeps only the
    part of `Valid` that does not mention that listener.

Some choices the model makes:

- A `Message`'s `element` is represented by the element's position on the
  page.
- What the browser supplies is passed in as parameters. These are the
  page's elements, whether a mousedown target lies in the panel or the
  button, the pointer position, the viewport size, and the panel's
  rendered size at the start of a drag.
- Sizes are `real` numbers.

## Model

| member | source | states |
|---|---|---|
| Text.TrimStartCuts | gpt-post-history/content.js:319-321 | the start of `trim` removes a prefix made only of whitespace and stops at the first non-whitespace character |
| Text.TrimEndCuts | gpt-post-history/content.js:319-321 | the end of `trim` removes a suffix made only of whitespace and stops at the last non-whitespace character |
| Text.TrimCuts | gpt-post-history/content.js:319 | `s.trim()` is empty exactly when `s` is all whitespace; a non-empty result neither starts nor ends with whitespace |
| Text.TrimIsInfix | gpt-post-history/content.js:321 | `s.trim()` occurs in `s` at the length of its leading whitespace, with only whitespace before and after it |
| Text.LowerShape | gpt-post-history/content.js:328 | the lowercased text has no upper-case ASCII letter, and has whitespace exactly where the original does |
| Text.LowerKeepsBlank | gpt-post-history/content.js:318-328 | lowercasing leaves a text blank exactly when it was blank |
| Text.LowerIdempotent | gpt-post-history/content.js:328 | lowercasing twice gives the same as lowercasing once |
| Text.IndexFromFinds | gpt-post-history/content.js:364 | `indexOf` from a start position finds the first occurrence at or after it, and answers -1 exactly when there is none |
| Text.IndexOfFinds | gpt-post-history/content.js:364 | `indexOf` answers -1 exactly when the term occurs nowhere, and otherwise a position where it occurs |
| Text.ContainsAnyOccurrence | gpt-post-history/content.js:364 | a term that occurs anywhere in the text, however far in, is found, at or before that position |
| Sequences.SelectMembers | gpt-post-history/content.js:352-354 | `filter` keeps exactly the elements that pass the predicate |
| Sequences.SelectCounts | gpt-post-history/content.js:352-354 | `filter` keeps each element that passes as many times as the list holds it, and no element that fails |
| Sequences.SelectIsSubsequence | gpt-post-history/content.js:352-354 | `filter` keeps its survivors in their original order |
| Sequences.SelectAll | gpt-post-history/content.js:363-365 | a filter that every element passes returns the list unchanged |
| Sequences.SelectCommutes | gpt-post-history/content.js:350-366 | two filters applied one after the other give the same list in either order |
| Sequences.SubsequenceReflexive | gpt-post-history/content.js:348 | the unfiltered list is a subsequence of itself |
| Sequences.SubsequenceTransitive | gpt-post-history/content.js:348-366 | a subsequence of a subsequence is a subsequence, so the two chained filters keep document order |
| Sequences.SubsequenceKeepsOrder | gpt-post-history/content.js:348-366 | a subsequence of a list ordered by a key is ordered by that key, and its elements come from the list |
| Extraction.SnippetBounds | gpt-post-history/content.js:321-322 | a snippet has at most 143 characters; it ends in "..." when the text is longer than 140; a text of at most 140 characters is shown whole, trimmed |
| Extraction.SnippetShowsWindow | gpt-post-history/content.js:321 | the snippet before its ellipsis is the first 140 characters with only the whitespace at both ends cut |
| Extraction.ExtractSound | gpt-post-history/content.js:303-331 | every message comes from an element with an id and non-blank text, is built from that element and its position, and messages follow document order |
| Extraction.ExtractComplete | gpt-post-history/content.js:303-331 | every element with an id and non-blank text yields a message |
| Extraction.GetMessageElements | gpt-post-history/content.js:299-334 | the loop returns exactly the messages `Extract` specifies for the page |
| Extraction.ExtractedNeverBlank | gpt-post-history/content.js:305-319 | no extracted message has an empty id or whitespace-only text |
| Extraction.ExtractedRole | gpt-post-history/content.js:303-316 | a set role attribute is used verbatim; otherwise the role is "user" at an even position and "assistant" at an odd one, counting skipped elements |
| Extraction.ExtractedTextAndSnippet | gpt-post-history/content.js:318-329 | a message's text is the whole text of its element, lowercased, and its snippet has at most 143 characters and ends in "..." when the text is longer than 140 |
| Extraction.AlternatingRoles | gpt-post-history/content.js:307-316 | with no role attributes and nothing skipped, the roles alternate user, assistant, ... starting with the user |
| Filtering.BlankSearchIsEmpty | gpt-post-history/content.js:346-362 | the search term is empty exactly when the search box holds only whitespace |
| Filtering.SearchTermIsLowercase | gpt-post-history/content.js:346 | the search term has no upper-case ASCII letter |
| Filtering.ByTabKeeps | gpt-post-history/content.js:350-359 | tab "user" keeps exactly role "user", tab "assistant" exactly role "assistant", in order; any other tab keeps the whole list, unusual roles included |
| Filtering.BySearchKeeps | gpt-post-history/content.js:362-366 | a non-empty term keeps exactly the messages whose whole lowercased text contains it, in order; the empty term keeps everything |
| Filtering.FiltersCommute | gpt-post-history/content.js:350-366 | tab filter then search filter gives the same list as search filter then tab filter |
| Filtering.BlankSearchKeepsTabList | gpt-post-history/content.js:346-366 | a blank search box leaves the tab-filtered list unchanged |
| Filtering.DisplayedKeeps | gpt-post-history/content.js:346-366 | the listed messages are an order-preserving subsequence of the extracted ones, and are exactly those that pass both the tab and the search filter |
| Filtering.DisplayedInDocumentOrder | gpt-post-history/content.js:303-366 | the listed messages keep the page's document order |
| Filtering.MatchBeyondSnippetIsListed | gpt-post-history/content.js:328-364 | a message whose whole text contains the term is listed under any tab that admits it, even when the match lies past the 140 characters of its snippet |
| Filtering.RenderShows | gpt-post-history/content.js:369-422 | "No messages found" appears exactly when nothing is left; otherwise one row per message, in order, with its snippet, its element, and `[You]` exactly for role "user" |
| Filtering.RowsPointAtKeptElements | gpt-post-history/content.js:380-437 | every listed row points at a kept element of the page, in document order, and shows that element's snippet |
| Panel.ClampSize | gpt-post-history/content.js:229-230 | the new size is at least 300 and at most max(300, 80% of the viewport); it is the requested size when that lies in range, 300 below it, and the upper bound above it |
| Panel.ClampMonotone | gpt-post-history/content.js:229-230 | dragging further never makes the panel smaller |
| Panel.ClampIdempotent | gpt-post-history/content.js:229-230 | a size already clamped for a viewport stays as it is |
| Panel.ThreadJump.constructor | gpt-post-history/content.js:5-7 | at start there is no panel, nothing is shown, no listener is attached and the tab is "keywords" |
| Panel.ThreadJump.TogglePanel | gpt-post-history/content.js:45-51 | a shown panel is closed and its listener detached; otherwise the panel is shown and the listener attached; the tab is unchanged; an existing panel keeps its list, search box, size and drag state, so reopening shows the list as last rendered; the first toggle creates the 400 by 500 panel with its list rendered |
| Panel.ThreadJump.OpenPanel | gpt-post-history/content.js:54-68 | the panel is created on first use, then shown with the listener attached; an existing panel keeps its list, search, size and drag state |
| Panel.ThreadJump.CreatePanel | gpt-post-history/content.js:88-265 | a new panel is 400 by 500, shown, has an empty search box, the "All" placeholder, no drag, and the list rendered for the page |
| Panel.ThreadJump.ClosePanel | gpt-post-history/content.js:71-76 | the panel ends up hidden with the listener detached; with no panel nothing changes |
| Panel.ThreadJump.HandleOutsideClick | gpt-post-history/content.js:79-85 | a mousedown closes the panel exactly when its target lies in neither the panel nor the button, and otherwise changes nothing |
| Panel.ThreadJump.SwitchTab | gpt-post-history/content.js:268-296 | the tab is set, a known tab sets its placeholder and an unknown one keeps it, the list is rebuilt for the new tab, and visibility is unchanged |
| Panel.ThreadJump.SetSearch | gpt-post-history/content.js:173-175 | typing in the search box rebuilds the list for the new value |
| Panel.ThreadJump.UpdatePanelContent | gpt-post-history/content.js:337-366 | the list becomes the rendering of the page's messages under the current tab and search value |
| Panel.ThreadJump.ClickRow | gpt-post-history/content.js:429-441 | a row click returns the element to scroll to and always leaves the panel hidden with the listener detached |
| Panel.ThreadJump.StartResize | gpt-post-history/content.js:210-224 | a mousedown on the handle starts a drag, records the pointer and the panel's rendered size, and attaches the drag listeners |
| Panel.ThreadJump.HandleResize | gpt-post-history/content.js:226-233 | during a drag, width and height are the clamped drag sizes, each between 300 and max(300, 80% of the viewport); after the drag it changes nothing |
| Panel.ThreadJump.StopResize | gpt-post-history/content.js:247-251 | the drag is over and its listeners are detached |
| Panel.MoveAfterRelease | gpt-post-history/content.js:226-251 | a pointer move after `stopResize` leaves the size unchanged |

## Left out

- DOM construction and inline styling of the button, panel, tabs, rows and labels (content.js:10-42, 88-205, 370-426) are not modelled. They are presentation, and their only state is the display, the size and the placeholder, which are modelled.
- `switchTab`'s restyling of the tab buttons (content.js:271-283) is not modelled, because it is presentation only.
- Event-listener plumbing is not modelled: `stopPropagation`, `preventDefault`, the panel's own mousedown guard and the listener registration calls. Which listeners are attached is modelled as boolean fields.
- Focusing the search box (content.js:60-64) is not modelled.
- Console logging, `initialize`, the `readyState` check and button creation (content.js:1-42, 447-461) are reduced to the constructor.
- `scrollIntoView` (content.js:434-437) is not modelled: `ClickRow` returns the position of the element to scroll to.
- `getBoundingClientRect` is left out: its width and height at the start of a drag are parameters of `StartResize`. The keep-on-screen anchor flip after a resize (content.js:235-244) only moves the panel's anchoring and is not modelled.
- The CSS `resize: both` and the min and max size styles (content.js:106-110) are left to the browser. Only the script's own clamp is modelled.
- Panel.ClampSize: does not model floating-point rounding of `innerWidth * 0.8` or the `'px'` string conversion, because sizes are exact reals.
- Text.IsWhitespace: the whitespace set of `trim` lists the Space_Separator characters of current Unicode explicitly, rather than following whichever Unicode version the browser uses.
- Text.LowerChar: lowercases ASCII letters only. `toLowerCase`'s full Unicode mapping, including mappings that change the length, is not modelled.
- Text and string lengths: a Dafny `char` is one Unicode scalar value, while JavaScript counts UTF-16 code units. A character outside the Basic Multilingual Plane counts as one character here and as two in the code. So `length`, the 140-character cut of `slice` and the `> 140` test are modelled for text in the Basic Multilingual Plane only. A cut that splits a surrogate pair, leaving half of it in the snippet, cannot be expressed.
- Row targets: the code's row holds a reference to the element itself, while a model row holds the element's position in the page. The list is not rebuilt when the panel is reopened, and each method takes the page as it is then. So a row's `target` denotes the right element only while the page has not changed since the list was last rendered.
- `updatePanelContent` returns early when the list or search box is missing (content.js:341). The model does not include this, because `createPanel` always creates both before the first call.
- The code does not persist the panel size or fall back to 400×500, so neither is in the model. It also has no Escape-key dismissal, no snippet highlighting, no stripping of page chrome before reading text, and no probing for a scrollable ancestor. The viewport cap is 0.8, as the code has it.
- The model does not state what the code does when `switchTab` or a drag runs with no panel, because the code only reaches them through the panel's own controls. `SwitchTab`, `SetSearch` and `StartResize` therefore require the panel to exist.
