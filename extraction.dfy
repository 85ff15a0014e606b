/** `getMessageElements`: reading the conversation's messages off the page. The
    page is the list of its `[data-message-id]` elements in document order; an
    attribute that is absent reads as "" (the code treats null and "" alike). */
module Extraction {
  import opened Text

  /** One `[data-message-id]` element: its `data-message-id` and
      `data-message-author-role` attributes and its `textContent`. */
  datatype Element = Element(messageId: string, roleAttr: string, textContent: string)

  /** One entry of the `messages` array. `index` is the element's position among
      all matches and stands for the `element` reference the row scrolls to. */
  datatype Message = Message(index: nat, messageId: string, role: string, text: string, snippet: string)

  /** Characters of the text shown in a snippet. */
  const SnippetLength: nat := 140

  /** Appended to the snippet of a text longer than `SnippetLength`. */
  const Ellipsis: string := "..."

  function Min(a: int, b: int): int {
    if a <= b then a else b
  }

  /** An element that yields a message: it has an id and some non-whitespace text. */
  predicate Kept(e: Element) {
    e.messageId != "" && !Blank(e.textContent)
  }

  /** The role attribute when it is set, otherwise a guess from the element's
      position: even positions are the user's, odd ones the assistant's. */
  function RoleOf(roleAttr: string, index: nat): string {
    if roleAttr != "" then roleAttr
    else if index % 2 == 0 then "user"
    else "assistant"
  }

  /** `textContent.slice(0, 140).trim()` followed by "..." when the text is
      longer than 140 characters. */
  function Snippet(text: string): string {
    Trim(text[..Min(SnippetLength, |text|)]) + (if |text| > SnippetLength then Ellipsis else "")
  }

  /** A snippet has at most 143 characters; it ends in the appended "..." when
      the text is longer than 140, and a text of at most 140 characters is
      shown whole, trimmed. */
  lemma SnippetBounds(text: string)
    ensures var s := Snippet(text);
      && |s| <= SnippetLength + |Ellipsis|
      && (|text| > SnippetLength ==> |s| >= |Ellipsis| && s[|s| - |Ellipsis|..] == Ellipsis)
      && (|text| <= SnippetLength ==> s == Trim(text))
  {
    var window := text[..Min(SnippetLength, |text|)];
    assert |text| <= SnippetLength ==> window == text;
    assert |Trim(window)| <= |window| by {
      TrimStartCuts(window);
      TrimEndCuts(TrimStart(window));
    }
  }

  /** What a snippet shows before its ellipsis is the first 140 characters with
      only the whitespace at their two ends cut: an infix of that window that
      neither starts nor ends with whitespace. */
  lemma SnippetShowsWindow(text: string)
    ensures var s := Snippet(text);
      var body := if |text| > SnippetLength then s[..|s| - |Ellipsis|] else s;
      var window := text[..Min(SnippetLength, |text|)];
      && (body == [] || (!IsWhitespace(body[0]) && !IsWhitespace(body[|body| - 1])))
      && (exists a :: OccursAt(window, body, a)
           && (forall i :: 0 <= i < a ==> IsWhitespace(window[i]))
           && (forall i :: a + |body| <= i < |window| ==> IsWhitespace(window[i])))
  {
    SnippetBounds(text);
    var window := text[..Min(SnippetLength, |text|)];
    var s := Snippet(text);
    assert Trim(window) == if |text| > SnippetLength then s[..|s| - |Ellipsis|] else s;
    TrimCuts(window);
    TrimIsInfix(window);
  }

  /** The message pushed for a kept element at position `index`. */
  function MessageOf(e: Element, index: nat): Message {
    Message(index, e.messageId, RoleOf(e.roleAttr, index), ToLower(e.textContent), Snippet(e.textContent))
  }

  /** The messages of a page: those of all but its last element, then the
      last element's message if it is kept. */
  function Extract(page: seq<Element>): (ms: seq<Message>)
    ensures |ms| <= |page|
  {
    if page == [] then []
    else
      var last := |page| - 1;
      Extract(page[..last]) + (if Kept(page[last]) then [MessageOf(page[last], last)] else [])
  }

  /** Each message comes from a kept element and is built from that element
      and its position, and the messages follow document order. */
  lemma {:induction false} ExtractSound(page: seq<Element>)
    ensures forall k :: 0 <= k < |Extract(page)| ==>
      && Extract(page)[k].index < |page|
      && Kept(page[Extract(page)[k].index])
      && Extract(page)[k] == MessageOf(page[Extract(page)[k].index], Extract(page)[k].index)
    ensures forall k, j :: 0 <= k < j < |Extract(page)| ==> Extract(page)[k].index < Extract(page)[j].index
  {
    if page != [] {
      var last := |page| - 1;
      var shorter := page[..last];
      ExtractSound(shorter);
      var prev := Extract(shorter);
      var ms := Extract(page);
      assert ms == prev + (if Kept(page[last]) then [MessageOf(page[last], last)] else []);
      forall k | 0 <= k < |prev|
        ensures ms[k] == prev[k] && prev[k].index < last && shorter[prev[k].index] == page[prev[k].index]
      {
      }
    }
  }

  /** No kept element is missed: each one yields a message. */
  lemma {:induction false} ExtractComplete(page: seq<Element>, i: nat)
    requires i < |page| && Kept(page[i])
    ensures exists k :: 0 <= k < |Extract(page)| && Extract(page)[k].index == i
  {
    var last := |page| - 1;
    var shorter := page[..last];
    var prev := Extract(shorter);
    if i == last {
      assert Extract(page)[|prev|].index == i;
    } else {
      assert shorter[i] == page[i];
      ExtractComplete(shorter, i);
      var k :| 0 <= k < |prev| && prev[k].index == i;
      assert Extract(page)[k] == prev[k];
    }
  }

  /** One element more: the messages of a longer prefix of the page are those
      of the shorter one, then the new element's message if it is kept. */
  lemma ExtractAppend(page: seq<Element>, n: nat)
    requires n < |page|
    ensures Extract(page[..n + 1])
         == Extract(page[..n]) + (if Kept(page[n]) then [MessageOf(page[n], n)] else [])
  {
    assert page[..n + 1][..n] == page[..n];
  }

  /** `getMessageElements()`: walks the matches in order, skipping an element
      with no id or with blank text, and pushes one message for each other. */
  method GetMessageElements(page: seq<Element>) returns (messages: seq<Message>)
    ensures messages == Extract(page)
  {
    messages := [];
    var index := 0;
    while index < |page|
      invariant 0 <= index <= |page|
      invariant messages == Extract(page[..index])
    {
      ExtractAppend(page, index);
      var el := page[index];
      var messageId := el.messageId;
      if messageId != "" {
        var role := el.roleAttr;
        if role == "" {
          if index % 2 == 0 {
            role := "user";
          } else {
            role := "assistant";
          }
        }
        var textContent := el.textContent;
        if !Blank(textContent) {
          var snippet := Trim(textContent[..Min(SnippetLength, |textContent|)]);
          var finalSnippet := snippet + (if |textContent| > SnippetLength then Ellipsis else "");
          messages := messages + [Message(index, messageId, role, ToLower(textContent), finalSnippet)];
        }
      }
      index := index + 1;
    }
    assert page[..index] == page;
  }

  /** No extracted message has an empty id or blank text. */
  lemma ExtractedNeverBlank(page: seq<Element>)
    ensures forall m :: m in Extract(page) ==> m.messageId != "" && !Blank(m.text)
  {
    var ms := Extract(page);
    ExtractSound(page);
    forall m | m in ms ensures m.messageId != "" && !Blank(m.text) {
      var k :| 0 <= k < |ms| && ms[k] == m;
      LowerKeepsBlank(page[m.index].textContent);
    }
  }

  /** An extracted message's role is the element's role attribute when that is
      set, and otherwise alternates with the element's position among all
      matches, skipped ones included. */
  lemma ExtractedRole(page: seq<Element>, k: nat)
    requires k < |Extract(page)|
    ensures var m := Extract(page)[k];
            && m.index < |page|
            && (page[m.index].roleAttr != "" ==> m.role == page[m.index].roleAttr)
            && (page[m.index].roleAttr == "" && m.index % 2 == 0 ==> m.role == "user")
            && (page[m.index].roleAttr == "" && m.index % 2 == 1 ==> m.role == "assistant")
  {
    ExtractSound(page);
  }

  /** An extracted message carries the lowercased whole text of its element,
      and a snippet of at most 143 characters that ends in "..." when that text
      is longer than 140. */
  lemma ExtractedTextAndSnippet(page: seq<Element>, k: nat)
    requires k < |Extract(page)|
    ensures var m := Extract(page)[k];
            && m.index < |page|
            && m.text == ToLower(page[m.index].textContent)
            && |m.text| == |page[m.index].textContent|
            && |m.snippet| <= SnippetLength + |Ellipsis|
            && (|m.text| > SnippetLength ==> |m.snippet| >= |Ellipsis| && m.snippet[|m.snippet| - |Ellipsis|..] == Ellipsis)
  {
    ExtractSound(page);
    SnippetBounds(page[Extract(page)[k].index].textContent);
  }

  /** With no role attribute anywhere and no element skipped, the roles
      alternate user, assistant, user, ... starting with the user at position 0. */
  lemma {:induction false} AlternatingRoles(page: seq<Element>)
    requires forall i :: 0 <= i < |page| ==> Kept(page[i]) && page[i].roleAttr == ""
    ensures |Extract(page)| == |page|
    ensures forall k :: 0 <= k < |page| ==>
      Extract(page)[k].role == if k % 2 == 0 then "user" else "assistant"
  {
    if page != [] {
      var last := |page| - 1;
      var shorter := page[..last];
      assert forall i :: 0 <= i < |shorter| ==> shorter[i] == page[i];
      AlternatingRoles(shorter);
      var prev := Extract(shorter);
      var ms := Extract(page);
      assert ms == prev + [MessageOf(page[last], last)];
      forall k | 0 <= k < |page| ensures ms[k].role == if k % 2 == 0 then "user" else "assistant" {
        if k < last {
          assert ms[k] == prev[k];
        }
      }
    }
  }
}
