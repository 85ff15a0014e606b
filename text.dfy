/** The three string operations the overlay relies on: `String.prototype.trim`,
    `String.prototype.toLowerCase` and `String.prototype.indexOf`. */
module Text {

  /** The code points `trim` removes: ECMAScript's WhiteSpace (TAB, VT, FF, SP,
      NBSP, ZWNBSP and the Space_Separator category) and LineTerminator (LF, CR,
      LS, PS). */
  predicate IsWhitespace(c: char) {
    || c == '\t' || c == '\n' || c == '\U{B}' || c == '\U{C}' || c == '\r' || c == ' '
    || c == '\U{A0}' || c == '\U{1680}' || '\U{2000}' <= c <= '\U{200A}'
    || c == '\U{2028}' || c == '\U{2029}' || c == '\U{202F}' || c == '\U{205F}'
    || c == '\U{3000}' || c == '\U{FEFF}'
  }

  /** `s.trim().length === 0`: nothing but whitespace. */
  predicate Blank(s: string) {
    forall i :: 0 <= i < |s| ==> IsWhitespace(s[i])
  }

  /** `s` with its leading whitespace removed. */
  function TrimStart(s: string): (r: string)
    ensures |r| <= |s|
  {
    if s == [] || !IsWhitespace(s[0]) then s else TrimStart(s[1..])
  }

  /** `TrimStart` removes a prefix of whitespace and stops at the first other
      character. */
  lemma {:induction false} TrimStartCuts(s: string)
    ensures var r := TrimStart(s);
      && |r| <= |s| && r == s[|s| - |r|..]
      && (forall i :: 0 <= i < |s| - |r| ==> IsWhitespace(s[i]))
      && (r == [] || !IsWhitespace(r[0]))
  {
    if s != [] && IsWhitespace(s[0]) {
      var t := s[1..];
      TrimStartCuts(t);
      var r := TrimStart(s);
      assert r == TrimStart(t);
      assert r == s[|s| - |r|..] by {
        assert t[|t| - |r|..] == s[|s| - |r|..];
      }
      forall i | 1 <= i < |s| - |r| ensures IsWhitespace(s[i]) {
        assert s[i] == t[i - 1];
      }
    }
  }

  /** `s` with its trailing whitespace removed. */
  function TrimEnd(s: string): (r: string)
    ensures |r| <= |s|
  {
    if s == [] || !IsWhitespace(s[|s| - 1]) then s else TrimEnd(s[..|s| - 1])
  }

  /** `TrimEnd` removes a suffix of whitespace and stops at the last other
      character. */
  lemma {:induction false} TrimEndCuts(s: string)
    ensures var r := TrimEnd(s);
      && |r| <= |s| && r == s[..|r|]
      && (forall i :: |r| <= i < |s| ==> IsWhitespace(s[i]))
      && (r == [] || !IsWhitespace(r[|r| - 1]))
  {
    if s != [] && IsWhitespace(s[|s| - 1]) {
      var t := s[..|s| - 1];
      TrimEndCuts(t);
      var r := TrimEnd(s);
      assert r == TrimEnd(t);
      assert r == s[..|r|] by {
        assert r == t[..|r|];
      }
      forall i | |r| <= i < |s| - 1 ensures IsWhitespace(s[i]) {
        assert s[i] == t[i];
      }
    }
  }

  /** `s.trim()`. */
  function Trim(s: string): string {
    TrimEnd(TrimStart(s))
  }

  /** Where `s.trim()` starts in `s`: the length of the leading whitespace. */
  function TrimOffset(s: string): nat {
    |s| - |TrimStart(s)|
  }

  /** `s.trim()` is empty exactly when `s` is blank, and otherwise neither
      starts nor ends in whitespace. */
  lemma TrimCuts(s: string)
    ensures var r := Trim(s);
      && (r == [] <==> Blank(s))
      && (r != [] ==> !IsWhitespace(r[0]) && !IsWhitespace(r[|r| - 1]))
  {
    var t := TrimStart(s);
    var r := TrimEnd(t);
    assert Trim(s) == r;
    TrimStartCuts(s);
    TrimEndCuts(t);
    TrimEmptyIffBlank(s, t, r);
    if r != [] {
      assert r[0] == t[0];
    }
  }

  /** What `trim` cuts is whitespace at the two ends: the result stands in `s`
      at `TrimOffset(s)`, with only whitespace before and after it. */
  lemma TrimIsInfix(s: string)
    ensures var r, a := Trim(s), TrimOffset(s);
      && OccursAt(s, r, a)
      && (forall i :: 0 <= i < a ==> IsWhitespace(s[i]))
      && (forall i :: a + |r| <= i < |s| ==> IsWhitespace(s[i]))
  {
    var t := TrimStart(s);
    var r := TrimEnd(t);
    assert Trim(s) == r && TrimOffset(s) == |s| - |t|;
    TrimStartCuts(s);
    TrimEndCuts(t);
    TrimInfixFacts(s, t, r);
  }

  /** The result is empty exactly when `s` is blank, from the facts
      `TrimStartCuts` and `TrimEndCuts` state. */
  lemma TrimEmptyIffBlank(s: string, t: string, r: string)
    requires |t| <= |s| && t == s[|s| - |t|..] && forall i :: 0 <= i < |s| - |t| ==> IsWhitespace(s[i])
    requires |r| <= |t| && r == t[..|r|] && forall i :: |r| <= i < |t| ==> IsWhitespace(t[i])
    requires r == [] || !IsWhitespace(r[0])
    ensures r == [] <==> Blank(s)
  {
    var a := |s| - |t|;
    if r == [] {
      forall i | 0 <= i < |s| ensures IsWhitespace(s[i]) {
        if i >= a { assert s[i] == t[i - a]; }
      }
    } else {
      assert r[0] == s[a];
    }
  }

  /** The result stands in `s` after the leading whitespace, with only
      whitespace after it. */
  lemma TrimInfixFacts(s: string, t: string, r: string)
    requires |t| <= |s| && t == s[|s| - |t|..]
    requires |r| <= |t| && r == t[..|r|] && forall i :: |r| <= i < |t| ==> IsWhitespace(t[i])
    ensures OccursAt(s, r, |s| - |t|)
    ensures forall i :: |s| - |t| + |r| <= i < |s| ==> IsWhitespace(s[i])
  {
    var a := |s| - |t|;
    assert r == s[a..a + |r|];
    forall i | a + |r| <= i < |s| ensures IsWhitespace(s[i]) {
      assert s[i] == t[i - a];
    }
  }

  /** ASCII lowercasing of one character; every other character is kept. */
  function LowerChar(c: char): char {
    if 'A' <= c <= 'Z' then (c as int + 32) as char else c
  }

  /** `s.toLowerCase()`, character by character. */
  function ToLower(s: string): (r: string)
    ensures |r| == |s|
  {
    seq(|s|, i requires 0 <= i < |s| => LowerChar(s[i]))
  }

  /** A lowercased string has no upper-case ASCII letter left, and whitespace
      exactly where the original has it. */
  lemma LowerShape(s: string)
    ensures var r := ToLower(s);
      && (forall i :: 0 <= i < |r| ==> !('A' <= r[i] <= 'Z'))
      && (forall i :: 0 <= i < |r| ==> (IsWhitespace(r[i]) <==> IsWhitespace(s[i])))
  {
  }

  /** Lowercasing a string leaves it blank exactly when it was blank. */
  lemma LowerKeepsBlank(s: string)
    ensures Blank(ToLower(s)) <==> Blank(s)
  {
    var r := ToLower(s);
    LowerShape(s);
    if Blank(s) {
      forall i | 0 <= i < |r| ensures IsWhitespace(r[i]) { assert IsWhitespace(s[i]); }
    }
    if Blank(r) {
      forall i | 0 <= i < |s| ensures IsWhitespace(s[i]) { assert IsWhitespace(r[i]); }
    }
  }

  /** Lowercasing twice is lowercasing once. */
  lemma LowerIdempotent(s: string)
    ensures ToLower(ToLower(s)) == ToLower(s)
  {
  }

  /** `term` stands in `text` at position `i`. */
  predicate OccursAt(text: string, term: string, i: int) {
    0 <= i && i + |term| <= |text| && text[i..i + |term|] == term
  }

  /** The first position at or after `from` where `term` occurs, or -1: the
      search `indexOf` performs, started at `from`. */
  function IndexFrom(text: string, term: string, from: nat): int
    decreases |text| - from
  {
    if from + |term| > |text| then -1
    else if text[from..from + |term|] == term then from
    else IndexFrom(text, term, from + 1)
  }

  /** `IndexFrom` finds the first occurrence at or after `from`, and answers -1
      exactly when there is none. */
  lemma {:induction false} IndexFromFinds(text: string, term: string, from: nat)
    ensures var r := IndexFrom(text, term, from);
      && (r == -1 || (from <= r && OccursAt(text, term, r)))
      && (r == -1 ==> forall i :: from <= i ==> !OccursAt(text, term, i))
      && (r != -1 ==> forall i :: from <= i < r ==> !OccursAt(text, term, i))
    decreases |text| - from
  {
    if from + |term| <= |text| && text[from..from + |term|] != term {
      IndexFromFinds(text, term, from + 1);
    }
  }

  /** `text.indexOf(term)`. */
  function IndexOf(text: string, term: string): int {
    IndexFrom(text, term, 0)
  }

  /** `text.indexOf(term) !== -1`. */
  predicate Contains(text: string, term: string) {
    IndexOf(text, term) != -1
  }

  /** `indexOf` answers -1 exactly when `term` occurs nowhere in `text`, and
      otherwise a position where it occurs. */
  lemma IndexOfFinds(text: string, term: string)
    ensures var r := IndexOf(text, term);
      && (r == -1 || OccursAt(text, term, r))
      && (r == -1 <==> forall i :: 0 <= i ==> !OccursAt(text, term, i))
  {
    IndexFromFinds(text, term, 0);
  }

  /** `term` is found wherever in `text` it occurs, however far from the start. */
  lemma ContainsAnyOccurrence(text: string, term: string, p: int)
    requires OccursAt(text, term, p)
    ensures Contains(text, term) && 0 <= IndexOf(text, term) <= p
  {
    IndexFromFinds(text, term, 0);
  }
}
