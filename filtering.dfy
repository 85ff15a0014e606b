/** The filtering half of `updatePanelContent`: the tab filter, then the
    search filter, then the choice between the rows and the "No messages
    found" placeholder. */
module Filtering {
  import opened Text
  import opened Sequences
  import opened Extraction

  /** The tab ids of the panel; any other value of `currentTab` filters nothing. */
  const AllTab: string := "keywords"
  const UserTab: string := "user"
  const AssistantTab: string := "assistant"

  /** `searchInput.value.toLowerCase().trim()`. */
  function SearchTerm(value: string): string {
    Trim(ToLower(value))
  }

  /** `msg.role === role`, as a filter. */
  function HasRole(role: string): Message -> bool {
    (m: Message) => m.role == role
  }

  /** `msg.text.indexOf(term) !== -1`, as a filter. */
  function Mentions(term: string): Message -> bool {
    (m: Message) => Contains(m.text, term)
  }

  /** The tab filter: the user tab keeps the messages whose role is exactly
      "user", the assistant tab those whose role is exactly "assistant", and any
      other tab keeps the list as it is. */
  function ByTab(ms: seq<Message>, tab: string): seq<Message> {
    if tab == UserTab then Select(ms, HasRole("user"))
    else if tab == AssistantTab then Select(ms, HasRole("assistant"))
    else ms
  }

  /** The search filter, for a term already lowercased and trimmed: an empty
      term keeps the list as it is. */
  function BySearch(ms: seq<Message>, term: string): seq<Message> {
    if term != "" then Select(ms, Mentions(term)) else ms
  }

  /** The messages listed for the extracted `ms`, the current tab and the
      search box's value. */
  function Displayed(ms: seq<Message>, tab: string, value: string): seq<Message> {
    BySearch(ByTab(ms, tab), SearchTerm(value))
  }

  /** Whether the tab keeps a message. */
  predicate PassesTab(m: Message, tab: string) {
    && (tab == UserTab ==> m.role == "user")
    && (tab == AssistantTab ==> m.role == "assistant")
  }

  /** Whether the search term keeps a message: an empty term keeps everything,
      any other must occur somewhere in the message's whole lowercased text. */
  ghost predicate PassesSearch(m: Message, term: string) {
    term == "" || exists p :: OccursAt(m.text, term, p)
  }

  /** A search box holding only whitespace (or nothing) searches for nothing. */
  lemma BlankSearchIsEmpty(value: string)
    ensures SearchTerm(value) == "" <==> Blank(value)
  {
    LowerKeepsBlank(value);
    TrimCuts(ToLower(value));
  }

  /** The search term has no upper-case ASCII letter, so typing in any case
      finds the same messages. */
  lemma SearchTermIsLowercase(value: string)
    ensures forall i :: 0 <= i < |SearchTerm(value)| ==> !('A' <= SearchTerm(value)[i] <= 'Z')
  {
    var lower := ToLower(value);
    LowerShape(value);
    TrimIsInfix(lower);
    var t, a := Trim(lower), TrimOffset(lower);
    forall i | 0 <= i < |t| ensures !('A' <= t[i] <= 'Z') {
      assert t[i] == lower[a + i];
    }
  }

  /** The tab filter keeps exactly the messages its tab admits, in their order;
      a tab other than the user and assistant tabs keeps the whole list, unusual
      explicit roles included. */
  lemma ByTabKeeps(ms: seq<Message>, tab: string)
    ensures SubsequenceOf(ByTab(ms, tab), ms)
    ensures forall m :: m in ByTab(ms, tab) <==> m in ms && PassesTab(m, tab)
    ensures tab != UserTab && tab != AssistantTab ==> ByTab(ms, tab) == ms
  {
    if tab == UserTab {
      SelectIsSubsequence(ms, HasRole("user"));
      SelectMembers(ms, HasRole("user"));
    } else if tab == AssistantTab {
      SelectIsSubsequence(ms, HasRole("assistant"));
      SelectMembers(ms, HasRole("assistant"));
    } else {
      SubsequenceReflexive(ms);
    }
  }

  /** The search filter keeps exactly the messages whose whole text contains
      the term, in their order; the empty term keeps the whole list. */
  lemma BySearchKeeps(ms: seq<Message>, term: string)
    ensures SubsequenceOf(BySearch(ms, term), ms)
    ensures forall m :: m in BySearch(ms, term) <==> m in ms && PassesSearch(m, term)
    ensures term == "" ==> BySearch(ms, term) == ms
  {
    if term != "" {
      SelectIsSubsequence(ms, Mentions(term));
      SelectMembers(ms, Mentions(term));
      forall m ensures Mentions(term)(m) <==> PassesSearch(m, term) {
        IndexOfFinds(m.text, term);
        if PassesSearch(m, term) {
          var p :| OccursAt(m.text, term, p);
          ContainsAnyOccurrence(m.text, term, p);
        }
      }
    } else {
      SubsequenceReflexive(ms);
    }
  }

  /** Tab filter then search filter, or search filter then tab filter: the
      same list. */
  lemma FiltersCommute(ms: seq<Message>, tab: string, term: string)
    ensures BySearch(ByTab(ms, tab), term) == ByTab(BySearch(ms, term), tab)
  {
    if term != "" {
      if tab == UserTab {
        SelectCommutes(ms, HasRole("user"), Mentions(term));
      } else if tab == AssistantTab {
        SelectCommutes(ms, HasRole("assistant"), Mentions(term));
      }
    }
  }

  /** A blank search box leaves the tab-filtered list unchanged. */
  lemma BlankSearchKeepsTabList(ms: seq<Message>, tab: string, value: string)
    requires Blank(value)
    ensures Displayed(ms, tab, value) == ByTab(ms, tab)
  {
    BlankSearchIsEmpty(value);
  }

  /** The listed messages are exactly the extracted ones that pass both the tab
      and the search filter, as an order-preserving subsequence. */
  lemma DisplayedKeeps(ms: seq<Message>, tab: string, value: string)
    ensures SubsequenceOf(Displayed(ms, tab, value), ms)
    ensures forall m :: m in Displayed(ms, tab, value) <==>
      m in ms && PassesTab(m, tab) && PassesSearch(m, SearchTerm(value))
  {
    var byTab := ByTab(ms, tab);
    ByTabKeeps(ms, tab);
    BySearchKeeps(byTab, SearchTerm(value));
    SubsequenceTransitive(Displayed(ms, tab, value), byTab, ms);
  }

  /** The listed messages of a page keep the page's document order. */
  lemma DisplayedInDocumentOrder(page: seq<Element>, tab: string, value: string)
    ensures var d := Displayed(Extract(page), tab, value);
      forall i, j :: 0 <= i < j < |d| ==> d[i].index < d[j].index
  {
    var ms := Extract(page);
    ExtractSound(page);
    DisplayedKeeps(ms, tab, value);
    SubsequenceKeepsOrder(Displayed(ms, tab, value), ms, MessageIndex);
  }

  function MessageIndex(m: Message): int {
    m.index
  }

  /** A message whose whole text contains the search term is listed under any
      tab that admits it, wherever the term occurs: past the 140 characters
      its snippet shows too. */
  lemma MatchBeyondSnippetIsListed(ms: seq<Message>, tab: string, value: string, k: nat, p: nat)
    requires k < |ms| && PassesTab(ms[k], tab)
    requires OccursAt(ms[k].text, SearchTerm(value), p)
    ensures ms[k] in Displayed(ms, tab, value)
  {
    DisplayedKeeps(ms, tab, value);
  }

  /** What the list shows: a single "No messages found" row when nothing is
      left, else one row per message. */
  datatype Listing = NoMessagesFound | Rows(items: seq<Row>)

  /** One row: the `[You]` or `[AI]` label, the snippet, and the position of the
      element a click scrolls to. */
  datatype Row = Row(speaker: string, snippet: string, target: nat)

  /** The label of a row: `[You]` for role "user", `[AI]` for every other role. */
  function Label(m: Message): string {
    if m.role == "user" then "[You]" else "[AI]"
  }

  /** The list rendered for the filtered messages. */
  function Render(filtered: seq<Message>): Listing {
    if |filtered| == 0 then NoMessagesFound
    else Rows(seq(|filtered|, k requires 0 <= k < |filtered| => Row(Label(filtered[k]), filtered[k].snippet, filtered[k].index)))
  }

  /** The placeholder row appears exactly when nothing is left; otherwise there
      is one row per message, in order, showing its snippet, labelled `[You]`
      exactly for role "user", and pointing at its element. */
  lemma RenderShows(filtered: seq<Message>)
    ensures var l := Render(filtered);
      && (l.NoMessagesFound? <==> filtered == [])
      && (l.Rows? ==> |l.items| == |filtered|)
      && (l.Rows? ==> forall k :: 0 <= k < |filtered| ==>
           && l.items[k].target == filtered[k].index
           && l.items[k].snippet == filtered[k].snippet
           && (l.items[k].speaker == "[You]" <==> filtered[k].role == "user"))
  {
  }

  /** Every row listed for a page points at a kept element of that page, in
      document order, and carries that element's snippet. */
  lemma RowsPointAtKeptElements(page: seq<Element>, tab: string, value: string)
    ensures var l := Render(Displayed(Extract(page), tab, value));
      l.Rows? ==>
        && (forall k :: 0 <= k < |l.items| ==>
             && l.items[k].target < |page| && Kept(page[l.items[k].target])
             && l.items[k].snippet == Snippet(page[l.items[k].target].textContent))
        && (forall k, j :: 0 <= k < j < |l.items| ==> l.items[k].target < l.items[j].target)
  {
    var ms := Extract(page);
    var d := Displayed(ms, tab, value);
    ExtractSound(page);
    DisplayedKeeps(ms, tab, value);
    DisplayedInDocumentOrder(page, tab, value);
    RenderShows(d);
    forall k | 0 <= k < |d| ensures d[k].index < |page| && Kept(page[d[k].index]) && d[k].snippet == Snippet(page[d[k].index].textContent) {
      assert d[k] in ms;
      var j :| 0 <= j < |ms| && ms[j] == d[k];
    }
  }
}
