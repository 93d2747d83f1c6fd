/**
  The display transformation applied to every piece of text that the chat
  front-end renders as HTML: Python's `html.escape(s)` (with its default
  `quote=True`) followed by `.replace("\n", "<br>")`.  The image label in the
  caption history gets `html.escape` alone.

  `Unescape` is the decoder that pairs with both transformations: it is not
  part of the front-end, it is the witness that escaping loses nothing.
 */
module HtmlEscape {

  /** The characters the display transformation rewrites. */
  predicate IsSpecial(c: char) {
    c == '&' || c == '<' || c == '>' || c == '"' || c == '\'' || c == '\n'
  }

  /** `html.escape` on one character. */
  function EscapeChar(c: char): string {
    match c
    case '&' => "&amp;"
    case '<' => "&lt;"
    case '>' => "&gt;"
    case '"' => "&quot;"
    case '\'' => "&#x27;"
    case _ => [c]
  }

  /** `html.escape(s)`: no angle bracket or quote survives it. */
  function Escape(s: string): (r: string)
    ensures forall i :: 0 <= i < |r| ==> r[i] != '<' && r[i] != '>' && r[i] != '"' && r[i] != '\''
  {
    if s == [] then [] else EscapeChar(s[0]) + Escape(s[1..])
  }

  /**
    `s.replace("\n", "<br>")`.  The pattern is a single character, so its
    occurrences cannot overlap and each one is rewritten on its own.
   */
  function BreakLines(s: string): (r: string)
    ensures forall i :: 0 <= i < |r| ==> r[i] != '\n'
  {
    if s == [] then [] else (if s[0] == '\n' then "<br>" else [s[0]]) + BreakLines(s[1..])
  }

  /**
    `html.escape(s).replace("\n", "<br>")`, the form every displayed message
    takes: no raw quote, apostrophe or newline is left in it.
   */
  function Display(s: string): (r: string)
    ensures forall i :: 0 <= i < |r| ==> r[i] != '"' && r[i] != '\'' && r[i] != '\n'
  {
    var e := Escape(s);
    BreakLinesKeepsQuotesOut(e);
    BreakLines(e)
  }

  /** `.replace("\n", "<br>")` brings in no quote or apostrophe. */
  lemma {:induction false} BreakLinesKeepsQuotesOut(s: string)
    requires forall i :: 0 <= i < |s| ==> s[i] != '"' && s[i] != '\''
    ensures forall i :: 0 <= i < |BreakLines(s)| ==> BreakLines(s)[i] != '"' && BreakLines(s)[i] != '\''
  {
    if s != [] {
      BreakLinesKeepsQuotesOut(s[1..]);
      var head := if s[0] == '\n' then "<br>" else [s[0]];
      assert BreakLines(s) == head + BreakLines(s[1..]);
      forall i | 0 <= i < |BreakLines(s)|
        ensures BreakLines(s)[i] != '"' && BreakLines(s)[i] != '\''
      {
        if i >= |head| {
          assert BreakLines(s)[i] == BreakLines(s[1..])[i - |head|];
        }
      }
    }
  }

  /** What `Display` turns one character into. */
  function DisplayChar(c: char): string {
    if c == '\n' then "<br>" else EscapeChar(c)
  }

  /** The five character references `html.escape` produces. */
  predicate EntityAt(t: string, i: nat) {
    (i + 5 <= |t| && t[i..i + 5] == "&amp;") ||
    (i + 4 <= |t| && (t[i..i + 4] == "&lt;" || t[i..i + 4] == "&gt;")) ||
    (i + 6 <= |t| && (t[i..i + 6] == "&quot;" || t[i..i + 6] == "&#x27;"))
  }

  /**
    Safe to splice into HTML: no raw quote or newline, every `<` opens and
    every `>` closes a `<br>`, and every `&` starts a character reference.
   */
  ghost predicate MarkupFree(t: string) {
    NoQuotesOrNewlines(t) && OpensBreaks(t) && ClosesBreaks(t) && AmpersandsStartReferences(t)
  }

  ghost predicate NoQuotesOrNewlines(t: string) {
    forall i :: 0 <= i < |t| ==> t[i] != '"' && t[i] != '\'' && t[i] != '\n'
  }

  ghost predicate OpensBreaks(t: string) {
    forall i :: 0 <= i < |t| && t[i] == '<' ==> i + 4 <= |t| && t[i..i + 4] == "<br>"
  }

  ghost predicate ClosesBreaks(t: string) {
    forall i :: 0 <= i < |t| && t[i] == '>' ==> 3 <= i && t[i - 3..i + 1] == "<br>"
  }

  ghost predicate AmpersandsStartReferences(t: string) {
    forall i :: 0 <= i < |t| && t[i] == '&' ==> EntityAt(t, i)
  }

  /** Number of occurrences of `c` in `t`. */
  function Count(t: string, c: char): nat {
    if t == [] then 0 else (if t[0] == c then 1 else 0) + Count(t[1..], c)
  }

  /** Inverse of both `Display` and `Escape`: `<br>` and the five references are decoded, anything else is kept. */
  function Unescape(t: string): string
    decreases |t|
  {
    if t == [] then []
    else if t[0] == '<' && |t| >= 4 && t[..4] == "<br>" then "\n" + Unescape(t[4..])
    else if t[0] == '&' && |t| >= 5 && t[..5] == "&amp;" then "&" + Unescape(t[5..])
    else if t[0] == '&' && |t| >= 4 && t[..4] == "&lt;" then "<" + Unescape(t[4..])
    else if t[0] == '&' && |t| >= 4 && t[..4] == "&gt;" then ">" + Unescape(t[4..])
    else if t[0] == '&' && |t| >= 6 && t[..6] == "&quot;" then "\"" + Unescape(t[6..])
    else if t[0] == '&' && |t| >= 6 && t[..6] == "&#x27;" then "'" + Unescape(t[6..])
    else [t[0]] + Unescape(t[1..])
  }

  // ---------------------------------------------------------------------
  // Structure: both transformations work character by character.

  lemma {:induction false} EscapeAppend(a: string, b: string)
    ensures Escape(a + b) == Escape(a) + Escape(b)
  {
    if a == [] {
      assert a + b == b;
    } else {
      assert (a + b)[0] == a[0] && (a + b)[1..] == a[1..] + b;
      EscapeAppend(a[1..], b);
      assert Escape(a + b) == EscapeChar(a[0]) + Escape(a[1..] + b);
    }
  }

  lemma {:induction false} BreakLinesAppend(a: string, b: string)
    ensures BreakLines(a + b) == BreakLines(a) + BreakLines(b)
  {
    if a == [] {
      assert a + b == b;
    } else {
      assert (a + b)[1..] == a[1..] + b;
      BreakLinesAppend(a[1..], b);
    }
  }

  /** The displayed form of a concatenation is the concatenation of the displayed forms. */
  lemma DisplayAppend(a: string, b: string)
    ensures Display(a + b) == Display(a) + Display(b)
  {
    EscapeAppend(a, b);
    BreakLinesAppend(Escape(a), Escape(b));
  }

  /** On one character, `.replace("\n", "<br>")` after `html.escape` gives `DisplayChar`. */
  lemma BreakLinesEscapeChar(c: char)
    ensures BreakLines(EscapeChar(c)) == DisplayChar(c)
  {
    var e := EscapeChar(c);
    if c == '\n' {
      assert e == [c] && e[1..] == [];
    } else if IsSpecial(c) {
      // each reference is free of newlines, so BreakLines keeps it
      assert e[0] == '&' && forall i :: 1 <= i < |e| ==> !IsSpecial(e[i]);
      BreakLinesKeeps(e);
    } else {
      assert e == [c] && e[1..] == [];
    }
  }

  lemma DisplayCons(c: char, s: string)
    ensures Display([c] + s) == DisplayChar(c) + Display(s)
  {
    EscapeAppend([c], s);
    assert Escape([c]) == EscapeChar(c) by {
      assert [c][1..] == [];
    }
    BreakLinesAppend(EscapeChar(c), Escape(s));
    BreakLinesEscapeChar(c);
  }

  lemma {:induction false} BreakLinesKeeps(s: string)
    requires forall i :: 0 <= i < |s| ==> s[i] != '\n'
    ensures BreakLines(s) == s
  {
    if s != [] {
      assert s[0] != '\n';
      BreakLinesKeeps(s[1..]);
    }
  }

  /** Characters outside `& < > " ' \n` are copied unchanged and in order. */
  lemma {:induction false} DisplayPlain(s: string)
    requires forall i :: 0 <= i < |s| ==> !IsSpecial(s[i])
    ensures Display(s) == s
  {
    if s != [] {
      assert s == [s[0]] + s[1..];
      DisplayCons(s[0], s[1..]);
      DisplayPlain(s[1..]);
    }
  }

  // ---------------------------------------------------------------------
  // Injection safety.

  /** A string that starts with a character reference and holds no other special character is markup-free. */
  lemma MarkupFreeLeadingReference(t: string)
    requires EntityAt(t, 0)
    requires forall i :: 1 <= i < |t| ==> !IsSpecial(t[i])
    ensures MarkupFree(t)
  {
    assert t[0] == '&' by { assert t[0] == t[0..4][0]; }
  }

  /** A character reference is markup-free on its own. */
  lemma MarkupFreeReference(c: char)
    requires IsSpecial(c) && c != '\n'
    ensures MarkupFree(EscapeChar(c))
  {
    var t := EscapeChar(c);
    assert EntityAt(t, 0);
    MarkupFreeLeadingReference(t);
  }

  lemma MarkupFreeBreak()
    ensures MarkupFree("<br>")
  {
    var t := "<br>";
    assert t[0..4] == "<br>";
    assert t[3 - 3..3 + 1] == "<br>";
  }

  lemma MarkupFreeDisplayChar(c: char)
    ensures MarkupFree(DisplayChar(c))
  {
    if c == '\n' {
      MarkupFreeBreak();
    } else if IsSpecial(c) {
      MarkupFreeReference(c);
    } else {
      assert DisplayChar(c) == [c];
    }
  }

  lemma SliceAppendLeft(a: string, b: string, lo: nat, hi: nat)
    requires lo <= hi <= |a|
    ensures (a + b)[lo..hi] == a[lo..hi]
  {
  }

  lemma SliceAppendRight(a: string, b: string, lo: nat, hi: nat)
    requires |a| <= lo <= hi <= |a| + |b|
    ensures (a + b)[lo..hi] == b[lo - |a|..hi - |a|]
  {
  }

  lemma EntityAtAppendLeft(a: string, b: string, i: nat)
    requires i < |a| && EntityAt(a, i)
    ensures EntityAt(a + b, i)
  {
    if i + 5 <= |a| && a[i..i + 5] == "&amp;" {
      SliceAppendLeft(a, b, i, i + 5);
    } else if i + 4 <= |a| && (a[i..i + 4] == "&lt;" || a[i..i + 4] == "&gt;") {
      SliceAppendLeft(a, b, i, i + 4);
    } else {
      SliceAppendLeft(a, b, i, i + 6);
    }
  }

  lemma EntityAtAppendRight(a: string, b: string, j: nat)
    requires j < |b| && EntityAt(b, j)
    ensures EntityAt(a + b, |a| + j)
  {
    var i := |a| + j;
    if j + 5 <= |b| && b[j..j + 5] == "&amp;" {
      SliceAppendRight(a, b, i, i + 5);
    } else if j + 4 <= |b| && (b[j..j + 4] == "&lt;" || b[j..j + 4] == "&gt;") {
      SliceAppendRight(a, b, i, i + 4);
    } else {
      SliceAppendRight(a, b, i, i + 6);
    }
  }

  lemma OpenBracketsAppend(a: string, b: string)
    requires OpensBreaks(a) && OpensBreaks(b)
    ensures OpensBreaks(a + b)
  {
    var t := a + b;
    forall i | 0 <= i < |t| && t[i] == '<'
      ensures i + 4 <= |t| && t[i..i + 4] == "<br>"
    {
      if i < |a| {
        assert a[i] == '<';
        SliceAppendLeft(a, b, i, i + 4);
      } else {
        var j := i - |a|;
        assert b[j] == '<';
        SliceAppendRight(a, b, i, i + 4);
      }
    }
  }

  lemma CloseBracketsAppend(a: string, b: string)
    requires ClosesBreaks(a) && ClosesBreaks(b)
    ensures ClosesBreaks(a + b)
  {
    var t := a + b;
    forall i | 0 <= i < |t| && t[i] == '>'
      ensures 3 <= i && t[i - 3..i + 1] == "<br>"
    {
      if i < |a| {
        assert a[i] == '>';
        SliceAppendLeft(a, b, i - 3, i + 1);
      } else {
        var j := i - |a|;
        assert b[j] == '>';
        SliceAppendRight(a, b, i - 3, i + 1);
      }
    }
  }

  lemma AmpersandsAppend(a: string, b: string)
    requires AmpersandsStartReferences(a) && AmpersandsStartReferences(b)
    ensures AmpersandsStartReferences(a + b)
  {
    var t := a + b;
    forall i | 0 <= i < |t| && t[i] == '&'
      ensures EntityAt(t, i)
    {
      if i < |a| {
        assert a[i] == '&';
        EntityAtAppendLeft(a, b, i);
      } else {
        assert b[i - |a|] == '&';
        EntityAtAppendRight(a, b, i - |a|);
      }
    }
  }

  lemma QuotesAppend(a: string, b: string)
    requires NoQuotesOrNewlines(a) && NoQuotesOrNewlines(b)
    ensures NoQuotesOrNewlines(a + b)
  {
    var t := a + b;
    forall i | 0 <= i < |t|
      ensures t[i] != '"' && t[i] != '\'' && t[i] != '\n'
    {
      if i < |a| {
        assert t[i] == a[i];
      } else {
        assert t[i] == b[i - |a|];
      }
    }
  }

  lemma MarkupFreeAppend(a: string, b: string)
    requires MarkupFree(a) && MarkupFree(b)
    ensures MarkupFree(a + b)
  {
    QuotesAppend(a, b);
    OpenBracketsAppend(a, b);
    CloseBracketsAppend(a, b);
    AmpersandsAppend(a, b);
  }

  /**
    Displayed text cannot inject markup: it holds no raw quote or newline,
    every angle bracket belongs to a `<br>` that came from a newline, and
    every `&` starts a character reference.
   */
  lemma {:induction false} DisplayMarkupFree(s: string)
    ensures MarkupFree(Display(s))
  {
    if s == [] {
    } else {
      assert s == [s[0]] + s[1..];
      DisplayCons(s[0], s[1..]);
      MarkupFreeDisplayChar(s[0]);
      DisplayMarkupFree(s[1..]);
      MarkupFreeAppend(DisplayChar(s[0]), Display(s[1..]));
    }
  }

  /** In particular no `<script` tag can appear in displayed text. */
  lemma NoScriptTag(s: string, i: nat)
    requires i + 7 <= |Display(s)|
    ensures Display(s)[i..i + 7] != "<script"
  {
    DisplayMarkupFree(s);
    var t := Display(s);
    var w := t[i..i + 7];
    if t[i] == '<' {
      assert t[i..i + 4] == "<br>";
      assert t[i + 1] == t[i..i + 4][1] == 'b';
      assert w[1] == t[i + 1];
      assert "<script"[1] == 's';
    } else {
      assert w[0] == t[i];
      assert "<script"[0] == '<';
    }
  }

  // ---------------------------------------------------------------------
  // Line breaks.

  lemma {:induction false} CountAppend(a: string, b: string, c: char)
    ensures Count(a + b, c) == Count(a, c) + Count(b, c)
  {
    if a == [] {
      assert a + b == b;
    } else {
      assert (a + b)[1..] == a[1..] + b;
      CountAppend(a[1..], b, c);
    }
  }

  lemma {:induction false} CountAbsent(t: string, c: char)
    requires forall i :: 0 <= i < |t| ==> t[i] != c
    ensures Count(t, c) == 0
  {
    if t != [] {
      assert t[0] != c;
      CountAbsent(t[1..], c);
    }
  }

  /** The brackets and newlines one character contributes to the output. */
  lemma DisplayCharCounts(c: char)
    ensures Count(DisplayChar(c), '<') == (if c == '\n' then 1 else 0)
    ensures Count(DisplayChar(c), '>') == (if c == '\n' then 1 else 0)
    ensures Count(EscapeChar(c), '\n') == (if c == '\n' then 1 else 0)
  {
    var t := DisplayChar(c);
    if c == '\n' {
      assert t == ['<'] + "br>";
      CountAppend(['<'], "br>", '<');
      CountAbsent("br>", '<');
      assert ['<'][1..] == [];
      assert t == "<br" + ['>'];
      CountAppend("<br", ['>'], '>');
      CountAbsent("<br", '>');
      assert ['>'][1..] == [];
      assert EscapeChar(c) == ['\n'];
      assert ['\n'][1..] == [];
    } else {
      assert EscapeChar(c) == t;
      assert forall i :: 0 <= i < |t| ==> t[i] != '<' && t[i] != '>' && t[i] != '\n' by {
        if IsSpecial(c) {
          assert t[0] == '&';
        }
      }
      CountAbsent(t, '<');
      CountAbsent(t, '>');
      CountAbsent(t, '\n');
    }
  }

  /**
    Each newline of the input becomes exactly one `<br>`: the output holds as
    many `<` (and as many `>`) as the input holds newlines, and by
    `DisplayMarkupFree` each of them is part of a `<br>`.
   */
  lemma {:induction false} DisplayBreakCount(s: string)
    ensures Count(Display(s), '<') == Count(s, '\n')
    ensures Count(Display(s), '>') == Count(s, '\n')
  {
    if s != [] {
      var c := s[0];
      assert s == [c] + s[1..];
      DisplayCons(c, s[1..]);
      CountAppend(DisplayChar(c), Display(s[1..]), '<');
      CountAppend(DisplayChar(c), Display(s[1..]), '>');
      DisplayBreakCount(s[1..]);
      DisplayCharCounts(c);
    }
  }

  /** `Escape` alone (the image label) leaves newlines in place, one for one. */
  lemma {:induction false} EscapeKeepsNewlines(s: string)
    ensures Count(Escape(s), '\n') == Count(s, '\n')
  {
    if s != [] {
      var c := s[0];
      CountAppend(EscapeChar(c), Escape(s[1..]), '\n');
      EscapeKeepsNewlines(s[1..]);
      DisplayCharCounts(c);
    }
  }

  // ---------------------------------------------------------------------
  // Round trips and injectivity.

  /** `Unescape` reads back a character reference made by `html.escape`. */
  lemma UnescapeReference(c: char, rest: string)
    requires IsSpecial(c) && c != '\n'
    ensures Unescape(EscapeChar(c) + rest) == [c] + Unescape(rest)
  {
    var e := EscapeChar(c);
    var t := e + rest;
    SliceAppendLeft(e, rest, 0, |e|);
    SliceAppendRight(e, rest, |e|, |t|);
    assert t[..|e|] == e && t[|e|..] == rest;
    assert t[0] == '&' && t[1] == e[1];
    if c == '&' {
      assert e == "&amp;" && e[1] == 'a';
    } else if c == '<' {
      assert e == "&lt;" && e[1] == 'l';
    } else if c == '>' {
      assert e == "&gt;" && e[1] == 'g';
    } else if c == '"' {
      assert e == "&quot;" && e[1] == 'q';
    } else {
      assert e == "&#x27;" && e[1] == '#';
    }
  }

  /** `Unescape` reads back one escaped character. */
  lemma UnescapeEscapeChar(c: char, rest: string)
    ensures Unescape(EscapeChar(c) + rest) == [c] + Unescape(rest)
  {
    if IsSpecial(c) && c != '\n' {
      UnescapeReference(c, rest);
    } else {
      var t := EscapeChar(c) + rest;
      assert t[0] == c && t[1..] == rest;
    }
  }

  lemma UnescapeDisplayChar(c: char, rest: string)
    ensures Unescape(DisplayChar(c) + rest) == [c] + Unescape(rest)
  {
    if c == '\n' {
      var t := DisplayChar(c) + rest;
      assert t[..4] == "<br>";
      assert t[4..] == rest;
    } else {
      UnescapeEscapeChar(c, rest);
    }
  }

  /** Decoding the displayed form gives back the original text. */
  lemma {:induction false} UnescapeDisplay(s: string)
    ensures Unescape(Display(s)) == s
  {
    if s != [] {
      var c, rest := s[0], s[1..];
      assert s == [c] + rest;
      calc {
        Unescape(Display(s));
        { DisplayCons(c, rest); }
        Unescape(DisplayChar(c) + Display(rest));
        { UnescapeDisplayChar(c, Display(rest)); }
        [c] + Unescape(Display(rest));
        { UnescapeDisplay(rest); }
        [c] + rest;
      }
    }
  }

  /** Decoding the escaped label gives back the original label. */
  lemma {:induction false} UnescapeEscape(s: string)
    ensures Unescape(Escape(s)) == s
  {
    if s != [] {
      var c, rest := s[0], s[1..];
      calc {
        Unescape(Escape(s));
        Unescape(EscapeChar(c) + Escape(rest));
        { UnescapeEscapeChar(c, Escape(rest)); }
        [c] + Unescape(Escape(rest));
        { UnescapeEscape(rest); }
        [c] + rest;
      }
      assert s == [c] + rest;
    }
  }

  /** Two different messages never display the same. */
  lemma DisplayInjective(a: string, b: string)
    requires Display(a) == Display(b)
    ensures a == b
  {
    UnescapeDisplay(a);
    UnescapeDisplay(b);
  }

  /** Two different labels never escape to the same text. */
  lemma EscapeInjective(a: string, b: string)
    requires Escape(a) == Escape(b)
    ensures a == b
  {
    UnescapeEscape(a);
    UnescapeEscape(b);
  }
}
