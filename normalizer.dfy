/**
 * Company-name normalisation: a fixed chain of String rewrites that turns a raw
 * name into the lower-case form that is searched for and scored.
 */
module Normalizer {
  import opened JavaLang

  /** What `.` in a Java regular expression refuses to match (no DOTALL flag). */
  predicate IsLineTerminator(c: char) {
    c == '\n' || c == '\r' || c == '\U{85}' || c == '\U{2028}' || c == '\U{2029}'
  }

  predicate SingleLine(s: string) {
    forall k :: 0 <= k < |s| ==> !IsLineTerminator(s[k])
  }

  /** Length of the longest prefix of `s` without a line terminator. */
  function LineLength(s: string): (n: nat)
    ensures n <= |s| && SingleLine(s[..n])
    ensures n < |s| ==> IsLineTerminator(s[n])
  {
    if s == [] || IsLineTerminator(s[0]) then 0 else 1 + LineLength(s[1..])
  }

  /**
   * `s.replaceAll("\\(.*\\)", "")`. Scanning left to right, a `(` starts a match
   * when a `)` follows it on the same line; the greedy `.*` takes the last such
   * `)`, the whole span is deleted and the scan resumes after it. A `(` with no
   * `)` after it on its line is kept.
   */
  function StripParenGroups(s: string): (r: string)
    ensures |r| <= |s|
    decreases |s|
  {
    if s == [] then []
    else if s[0] == '(' then
      var rest := s[1..];
      var close := LastIndexOf(rest[..LineLength(rest)], ')');
      if close < 0 then ['('] + StripParenGroups(rest)
      else StripParenGroups(rest[close + 1..])
    else [s[0]] + StripParenGroups(s[1..])
  }

  /** The bracket rewrite only ever deletes characters. */
  lemma {:induction false} StripParenGroupsKeeps(s: string)
    ensures forall x :: x in StripParenGroups(s) ==> x in s
    decreases |s|
  {
    if s != [] {
      var rest := s[1..];
      if s[0] == '(' {
        var close := LastIndexOf(rest[..LineLength(rest)], ')');
        if close < 0 {
          StripParenGroupsKeeps(rest);
          KeepsSuffix(StripParenGroups(rest), s, 1);
          KeepsCons('(', StripParenGroups(rest), s);
        } else {
          var after := rest[close + 1..];
          StripParenGroupsKeeps(after);
          assert after == s[close + 2..];
          KeepsSuffix(StripParenGroups(after), s, close + 2);
        }
      } else {
        StripParenGroupsKeeps(rest);
        KeepsSuffix(StripParenGroups(rest), s, 1);
        KeepsCons(s[0], StripParenGroups(rest), s);
      }
    }
  }

  /** The bracket rewrite only deletes characters: what it leaves appears in
      its input, in the same order. */
  lemma {:induction false} StripParenGroupsDeletes(s: string)
    ensures DeletedFrom(StripParenGroups(s), s)
    decreases |s|
  {
    if s != [] {
      var rest := s[1..];
      if s[0] == '(' {
        var close := LastIndexOf(rest[..LineLength(rest)], ')');
        if close < 0 {
          StripParenGroupsDeletes(rest);
          assert StripParenGroups(s) == [s[0]] + StripParenGroups(rest);
          DeletedFromCons(StripParenGroups(rest), s);
        } else {
          var after := rest[close + 1..];
          StripParenGroupsDeletes(after);
          assert after == s[close + 2..];
          assert StripParenGroups(s) == StripParenGroups(after);
          DeletedFromSkip(StripParenGroups(after), s, close + 2);
        }
      } else {
        StripParenGroupsDeletes(rest);
        assert StripParenGroups(s) == [s[0]] + StripParenGroups(rest);
        DeletedFromCons(StripParenGroups(rest), s);
      }
    }
  }

  lemma KeepsSuffix(t: string, s: string, k: nat)
    requires k <= |s| && forall x :: x in t ==> x in s[k..]
    ensures forall x :: x in t ==> x in s
  {
    forall x | x in t
      ensures x in s
    {
      var i :| 0 <= i < |s[k..]| && s[k..][i] == x;
      assert s[k + i] == x;
    }
  }

  lemma KeepsCons(c: char, t: string, s: string)
    requires c in s && forall x :: x in t ==> x in s
    ensures forall x :: x in [c] + t ==> x in s
  {
  }

  /** Without a `(` there is nothing for the bracket rewrite to match. */
  lemma {:induction false} NoOpenUnchanged(s: string)
    requires '(' !in s
    ensures StripParenGroups(s) == s
    decreases |s|
  {
    if s != [] {
      assert s[0] in s;
      NoOpenUnchanged(s[1..]);
      assert [s[0]] + s[1..] == s;
    }
  }

  /** Without a `)` no `(` finds the end of a match. */
  lemma {:induction false} NoCloseUnchanged(s: string)
    requires forall k :: 0 <= k < |s| ==> s[k] != ')'
    ensures StripParenGroups(s) == s
    decreases |s|
  {
    if s != [] {
      var rest := s[1..];
      assert forall k :: 0 <= k < |rest| ==> rest[k] != ')' by {
        forall k | 0 <= k < |rest|
          ensures rest[k] != ')'
        {
          assert rest[k] == s[k + 1];
        }
      }
      NoCloseUnchanged(rest);
      if s[0] == '(' {
        var line := rest[..LineLength(rest)];
        assert forall k :: 0 <= k < |line| ==> line[k] != ')';
      }
      assert [s[0]] + rest == s;
    }
  }

  /** The characters the first five rewrites turn into spaces. */
  predicate IsBlanked(c: char) { c == ',' || c == '/' || c == '.' || c == '\'' || c == '-' }

  /** Every character that cannot appear in a normalised name. */
  predicate IsRemoved(c: char) { IsBlanked(c) || c == '(' || c == ')' }

  /** What every normalised name looks like: none of the removed characters, no
      upper-case ASCII letter, and nothing for `trim` to remove at either end. */
  predicate IsNormalized(r: string) {
    && (forall k :: 0 <= k < |r| ==> !IsRemoved(r[k]) && !IsAsciiUpper(r[k]))
    && IsTrimmed(r)
  }

  /** The first five rewrites: `, / . ' -` each become a space. */
  function BlankPunctuation(name: string): (r: string)
    ensures |r| == |name|
    ensures forall k :: 0 <= k < |name| && !IsBlanked(name[k]) ==> r[k] == name[k]
  {
    var s1 := ReplaceChar(name, ',', ' ');
    var s2 := ReplaceChar(s1, '/', ' ');
    var s3 := ReplaceChar(s2, '.', ' ');
    var s4 := ReplaceChar(s3, '\'', ' ');
    ReplaceChar(s4, '-', ' ')
  }

  /** The five rewrites act on each character alone. */
  lemma BlankPunctuationAt(s: string)
    ensures |BlankPunctuation(s)| == |s|
    ensures forall k :: 0 <= k < |s| ==> BlankPunctuation(s)[k] == if IsBlanked(s[k]) then ' ' else s[k]
  {
  }

  /** A name without any of the five characters is left as it is. */
  lemma BlankFixed(s: string)
    requires forall k :: 0 <= k < |s| ==> !IsBlanked(s[k])
    ensures BlankPunctuation(s) == s
  {
    BlankPunctuationAt(s);
  }

  lemma BlankPunctuationConcat(a: string, b: string)
    ensures BlankPunctuation(a + b) == BlankPunctuation(a) + BlankPunctuation(b)
  {
    BlankPunctuationAt(a);
    BlankPunctuationAt(b);
    BlankPunctuationAt(a + b);
  }

  /** The rewrites of two pieces, joined, are the rewrite of the joined name. */
  lemma BlankPieces(name: string, a: string, b: string, ra: string, rb: string)
    requires name == a + b && BlankPunctuation(a) == ra && BlankPunctuation(b) == rb
    ensures BlankPunctuation(name) == ra + rb
  {
    BlankPunctuationConcat(a, b);
  }

  /** The three bracket rewrites: the greedy `(...)` spans, then every lone `(` and `)`. */
  function StripBrackets(s: string): (r: string)
    ensures '(' !in r && ')' !in r
    ensures multiset(r) == multiset(StripParenGroups(s))['(' := 0][')' := 0]
    ensures DeletedFrom(r, StripParenGroups(s))
  {
    var groups := StripParenGroups(s);
    var noOpen := DeleteChar(groups, '(');
    DeleteCharKeeps(noOpen, ')');
    DeletedFromTrans(DeleteChar(noOpen, ')'), noOpen, groups);
    DeleteChar(noOpen, ')')
  }

  /** The bracket rewrites only ever delete characters. */
  lemma StripBracketsKeeps(s: string)
    ensures forall x :: x in StripBrackets(s) ==> x in s
    ensures DeletedFrom(StripBrackets(s), s)
  {
    var groups := StripParenGroups(s);
    var noOpen := DeleteChar(groups, '(');
    StripParenGroupsKeeps(s);
    DeleteCharKeeps(groups, '(');
    DeleteCharKeeps(noOpen, ')');
    StripParenGroupsDeletes(s);
    DeletedFromTrans(noOpen, groups, s);
    DeletedFromTrans(DeleteChar(noOpen, ')'), noOpen, s);
  }

  /** The two case-sensitive word deletions. */
  function DropCompanySuffixes(s: string): (r: string)
    ensures |r| <= |s|
    ensures 'L' !in s ==> r == s
  {
    RemoveLiteral(RemoveLiteral(s, "LIMITED"), "LTD")
  }

  /** The word deletions only ever delete characters. */
  lemma DropCompanySuffixesKeeps(s: string)
    ensures forall x :: x in DropCompanySuffixes(s) ==> x in s
    ensures DeletedFrom(DropCompanySuffixes(s), s)
  {
    var first := RemoveLiteral(s, "LIMITED");
    RemoveLiteralKeeps(s, "LIMITED");
    RemoveLiteralKeeps(first, "LTD");
    RemoveLiteralDeletes(s, "LIMITED");
    RemoveLiteralDeletes(first, "LTD");
    DeletedFromTrans(RemoveLiteral(first, "LTD"), first, s);
  }

  /** A `LIMITED` is deleted together with everything the `LIMITED` pass
      deletes after it, provided neither pass finds an occurrence starting in
      the prefix before it; the prefix is kept. */
  lemma DropLimitedAfter(p: string, q: string)
    requires NoStartBefore(p + "LIMITED" + q, |p|, "LIMITED")
    requires NoStartBefore(p + RemoveLiteral(q, "LIMITED"), |p|, "LTD")
    ensures DropCompanySuffixes(p + "LIMITED" + q) == p + DropCompanySuffixes(q)
  {
    var w := "LIMITED";
    RemoveLiteralWord(p, q, w);
    RemoveLiteralPrefixNoStart(p, RemoveLiteral(q, w), "LTD");
  }

  /** An `LTD` passes the `LIMITED` pass untouched and is then deleted,
      provided neither pass finds an occurrence starting in the prefix before
      it; the prefix is kept. */
  lemma DropLtdAfter(p: string, q: string)
    requires NoStartBefore(p + "LTD" + q, |p|, "LIMITED")
    requires NoStartBefore(p + "LTD" + RemoveLiteral(q, "LIMITED"), |p|, "LTD")
    ensures DropCompanySuffixes(p + "LTD" + q) == p + DropCompanySuffixes(q)
  {
    var long, short := "LIMITED", "LTD";
    assert short[1..] == "TD";
    RemoveLiteralPassWord(p, short, q, long);
    RemoveLiteralWord(p, RemoveLiteral(q, long), short);
  }

  /** Between parts without `L`, either suffix word is deleted and nothing
      else changes. */
  lemma DropSuffixWord(p: string, q: string)
    requires 'L' !in p && 'L' !in q
    ensures DropCompanySuffixes(p + "LIMITED" + q) == p + q
    ensures DropCompanySuffixes(p + "LTD" + q) == p + q
  {
    var long, short := "LIMITED", "LTD";
    assert p + long + q == p + (long + q) && p + short + q == p + (short + q);
    NoStartWithout(p, long + q, long);
    NoStartWithout(p, short + q, long);
    assert RemoveLiteral(q, long) == q;
    NoStartWithout(p, q, short);
    assert p + short + q == p + (short + q);
    NoStartWithout(p, short + q, short);
    DropLimitedAfter(p, q);
    DropLtdAfter(p, q);
  }

  /** The rewrites before lower-casing, up to and including `trim`. */
  function Rewrite(name: string): (r: string)
    ensures IsTrimmed(r)
  {
    Trim(DropCompanySuffixes(StripBrackets(BlankPunctuation(name))))
  }

  /** No character of `s` is one that normalisation removes. */
  predicate NoneRemoved(s: string) {
    forall x :: x in s ==> !IsRemoved(x)
  }

  /** The five rewrites leave none of `, / . ' -`. */
  lemma BlankPunctuationClears(name: string)
    ensures forall x :: x in BlankPunctuation(name) ==> !IsBlanked(x)
  {
    var blanked := BlankPunctuation(name);
    BlankPunctuationAt(name);
    forall x | x in blanked
      ensures !IsBlanked(x)
    {
      var k :| 0 <= k < |blanked| && blanked[k] == x;
    }
  }

  /** Neither punctuation nor brackets survive the first two rewrites. */
  lemma UnbracketedClears(name: string)
    ensures NoneRemoved(StripBrackets(BlankPunctuation(name)))
  {
    BlankPunctuationClears(name);
    StripBracketsKeeps(BlankPunctuation(name));
  }

  /** Deleting words and trimming only ever delete characters. */
  lemma TrimmedKeeps(s: string)
    requires NoneRemoved(s)
    ensures NoneRemoved(Trim(DropCompanySuffixes(s)))
  {
    DropCompanySuffixesKeeps(s);
    TrimKeeps(DropCompanySuffixes(s));
  }

  /** No punctuation mark or bracket survives the rewrites. */
  lemma RewriteClears(name: string)
    ensures forall k :: 0 <= k < |Rewrite(name)| ==> !IsRemoved(Rewrite(name)[k])
  {
    UnbracketedClears(name);
    TrimmedKeeps(StripBrackets(BlankPunctuation(name)));
    var r := Rewrite(name);
    forall k | 0 <= k < |r|
      ensures !IsRemoved(r[k])
    {
      assert r[k] in r;
    }
  }

  /** Lower-casing keeps a string free of removed characters and trimmed. */
  lemma LowerCaseKeepsShape(t: string)
    requires forall k :: 0 <= k < |t| ==> !IsRemoved(t[k])
    requires IsTrimmed(t)
    ensures IsNormalized(ToLowerCase(t))
  {
  }

  /** `normalizeName(name)`. */
  function NormalizeName(name: string): (r: string)
    ensures IsNormalized(r)
  {
    var trimmed := Rewrite(name);
    RewriteClears(name);
    LowerCaseKeepsShape(trimmed);
    ToLowerCase(trimmed)
  }

  /** A normalised name is left unchanged by every rewrite. */
  lemma NormalizedIsFixed(r: string)
    requires IsNormalized(r)
    ensures NormalizeName(r) == r
  {
    RewriteFixed(r);
    assert ToLowerCase(r) == r;
  }

  /** The rewrites before lower-casing leave a normalised name alone. */
  lemma RewriteFixed(r: string)
    requires IsNormalized(r)
    ensures Rewrite(r) == r
  {
    BlankFixed(r);
    assert '(' !in r && ')' !in r && 'L' !in r by {
      forall k | 0 <= k < |r|
        ensures r[k] != '(' && r[k] != ')' && r[k] != 'L'
      {
        assert !IsRemoved(r[k]) && !IsAsciiUpper(r[k]);
      }
    }
    NoBracketsUnchanged(r);
  }

  /** Normalising a normalised name changes nothing. */
  lemma NormalizeIdempotent(name: string)
    ensures NormalizeName(NormalizeName(name)) == NormalizeName(name)
  {
    NormalizedIsFixed(NormalizeName(name));
  }

  /** Reference reading of the bracket rewrite on one line: cut from the first
      `(` to the last `)`, when that `)` comes after the `(`. */
  function CutOuterSpan(s: string): string
  {
    var open, close := IndexOf(s, '('), LastIndexOf(s, ')');
    if 0 <= open < close then s[..open] + s[close + 1..] else s
  }

  /** A string without line terminators is one whole line. */
  lemma {:induction false} SingleLineLength(s: string)
    requires SingleLine(s)
    ensures LineLength(s) == |s|
    decreases |s|
  {
    if s != [] {
      assert SingleLine(s[1..]) by {
        forall k | 0 <= k < |s| - 1
          ensures !IsLineTerminator(s[1..][k])
        {
          assert s[1..][k] == s[k + 1];
        }
      }
      SingleLineLength(s[1..]);
    }
  }

  /** On one line, a leading `(` pairs with the last `)` of the rest, if any. */
  lemma StripParenGroupsOpen(s: string)
    requires SingleLine(s) && s != [] && s[0] == '('
    ensures var rest, c := s[1..], LastIndexOf(s[1..], ')');
            StripParenGroups(s) == if c < 0 then ['('] + rest else rest[c + 1..]
  {
    var rest := s[1..];
    assert rest[..LineLength(rest)] == rest by {
      assert SingleLine(rest) by {
        forall k | 0 <= k < |rest|
          ensures !IsLineTerminator(rest[k])
        {
          assert rest[k] == s[k + 1];
        }
      }
      SingleLineLength(rest);
    }
    var c := LastIndexOf(rest, ')');
    if c < 0 {
      assert StripParenGroups(s) == ['('] + StripParenGroups(rest);
      assert StripParenGroups(rest) == rest by {
        LastIndexOfLast(rest, ')');
        NoCloseUnchanged(rest);
      }
    } else {
      var after := rest[c + 1..];
      assert StripParenGroups(s) == StripParenGroups(after);
      assert StripParenGroups(after) == after by {
        LastIndexOfLast(rest, ')');
        forall k | 0 <= k < |after|
          ensures after[k] != ')'
        {
          assert after[k] == rest[c + 1 + k];
        }
        NoCloseUnchanged(after);
      }
    }
  }

  /** The cut for a string that starts with `(`. */
  lemma CutOuterSpanOpen(s: string)
    requires s != [] && s[0] == '('
    ensures var rest, c := s[1..], LastIndexOf(s[1..], ')');
            CutOuterSpan(s) == if c < 0 then ['('] + rest else rest[c + 1..]
  {
    LastIndexOfTail(s, ')');
    var c, close := LastIndexOf(s[1..], ')'), LastIndexOf(s, ')');
    assert IndexOf(s, '(') == 0;
    CutWith(s, 0, close);
    if c >= 0 {
      assert close == c + 1;
      assert s[..0] + s[c + 2..] == s[1..][c + 1..];
    } else {
      assert ['('] + s[1..] == s;
    }
  }

  /** The cut, given where the first `(` and the last `)` are. */
  lemma CutWith(s: string, open: int, close: int)
    requires IndexOf(s, '(') == open && LastIndexOf(s, ')') == close
    ensures CutOuterSpan(s) == if 0 <= open < close then s[..open] + s[close + 1..] else s
  {
  }

  lemma OpenFirst(s: string)
    requires SingleLine(s) && s != [] && s[0] == '('
    ensures StripParenGroups(s) == CutOuterSpan(s)
  {
    StripParenGroupsOpen(s);
    CutOuterSpanOpen(s);
  }

  /** Where the first `(` and the last `)` of `s` sit in `s[1..]` when `s`
      does not start with `(`. */
  lemma ShiftedPositions(s: string)
    requires s != [] && s[0] != '('
    ensures var o := IndexOf(s[1..], '(');
            IndexOf(s, '(') == if o < 0 then -1 else o + 1
    ensures LastIndexOf(s[1..], ')') == (if LastIndexOf(s, ')') >= 1 then LastIndexOf(s, ')') - 1 else -1)
  {
    LastIndexOfTail(s, ')');
  }

  /** A first character other than `(` is kept in front of the cut. */
  lemma CutOuterSpanCons(s: string)
    requires s != [] && s[0] != '('
    ensures CutOuterSpan(s) == [s[0]] + CutOuterSpan(s[1..])
  {
    if 0 <= IndexOf(s, '(') < LastIndexOf(s, ')') {
      ConsWhenCut(s);
    } else {
      ConsWhenUncut(s);
    }
  }

  lemma ConsWhenCut(s: string)
    requires s != [] && s[0] != '('
    requires 0 <= IndexOf(s, '(') < LastIndexOf(s, ')')
    ensures CutOuterSpan(s) == [s[0]] + CutOuterSpan(s[1..])
  {
    var open, close := IndexOf(s, '('), LastIndexOf(s, ')');
    var rest := s[1..];
    assert 1 <= open by {
      assert s[open] == '(';
    }
    assert IndexOf(rest, '(') == open - 1 && LastIndexOf(rest, ')') == close - 1 by {
      ShiftedPositions(s);
    }
    assert CutOuterSpan(rest) == rest[..open - 1] + rest[close..] by {
      CutBetween(rest, open - 1, close - 1);
    }
    assert CutOuterSpan(s) == s[..open] + s[close + 1..] by {
      CutBetween(s, open, close);
    }
    KeepFirstOfCut(s, open, close);
  }

  /** The cut of `s` once its first `(` and last `)` are known. */
  lemma CutBetween(s: string, open: int, close: int)
    requires open == IndexOf(s, '(') && close == LastIndexOf(s, ')') && 0 <= open < close
    ensures CutOuterSpan(s) == s[..open] + s[close + 1..]
  {
  }

  lemma ConsWhenUncut(s: string)
    requires s != [] && s[0] != '('
    requires !(0 <= IndexOf(s, '(') < LastIndexOf(s, ')'))
    ensures CutOuterSpan(s) == [s[0]] + CutOuterSpan(s[1..])
  {
    var rest := s[1..];
    ShiftedPositions(s);
    assert !(0 <= IndexOf(rest, '(') < LastIndexOf(rest, ')'));
    assert [s[0]] + rest == s;
  }

  lemma OtherFirst(s: string)
    requires s != [] && s[0] != '('
    requires StripParenGroups(s[1..]) == CutOuterSpan(s[1..])
    ensures StripParenGroups(s) == CutOuterSpan(s)
  {
    assert StripParenGroups(s) == [s[0]] + StripParenGroups(s[1..]);
    CutOuterSpanCons(s);
  }

  lemma KeepFirstOfCut(s: string, open: int, close: int)
    requires 1 <= open < close < |s|
    ensures [s[0]] + (s[1..][..open - 1] + s[1..][close..]) == s[..open] + s[close + 1..]
  {
    assert [s[0]] + s[1..][..open - 1] == s[..open];
    assert s[1..][close..] == s[close + 1..];
  }

  /** On one line, `\(.*\)` removes everything from the first `(` to the last
      `)`, when that `)` follows the `(`, and nothing otherwise. */
  lemma {:induction false} StripParenGroupsOnOneLine(s: string)
    requires SingleLine(s)
    ensures StripParenGroups(s) == CutOuterSpan(s)
    decreases |s|
  {
    if s != [] {
      if s[0] == '(' {
        OpenFirst(s);
      } else {
        StripParenGroupsOnOneLine(s[1..]);
        OtherFirst(s);
      }
    }
  }

  /** A parenthesised note on a single line is removed with its brackets,
      whatever it holds, when nothing before it opens a bracket and nothing
      after it closes one. */
  lemma NoteRemoved(p: string, note: string, q: string)
    requires SingleLine(p + "(" + note + ")" + q)
    requires '(' !in p && ')' !in q
    ensures StripParenGroups(p + "(" + note + ")" + q) == p + q
  {
    var s := p + "(" + note + ")" + q;
    var open, close := |p|, |p| + |note| + 1;
    assert s[open] == '(' && s[..open] == p;
    assert s[close] == ')' && s[close + 1..] == q;
    forall k | 0 <= k < open
      ensures s[k] != '('
    {
      assert s[k] == p[k];
    }
    IndexOfIs(s, '(', open);
    forall k | close < k < |s|
      ensures s[k] != ')'
    {
      assert s[k] == q[k - close - 1];
    }
    LastIndexOfIs(s, ')', close);
    StripParenGroupsOnOneLine(s);
  }

  /** A string with no bracket passes the bracket rewrites unchanged. */
  lemma NoBracketsUnchanged(s: string)
    requires '(' !in s && ')' !in s
    ensures StripBrackets(s) == s
  {
    NoOpenUnchanged(s);
  }

  lemma BlankExampleNote(name: string)
    requires name == "ACME, LTD. (NO LONGER VALID)"
    ensures BlankPunctuation(name) == "ACME  LTD  (NO LONGER VALID)"
  {
    var a, b := "ACME, LTD.", " (NO LONGER VALID)";
    assert name == a + b;
    assert "ACME  LTD " + b == "ACME  LTD  (NO LONGER VALID)";
    BlankExampleNoteHead(a);
    BlankExampleNoteTail(b);
    BlankPieces(name, a, b, "ACME  LTD ", b);
  }

  lemma BlankExampleNoteTail(b: string)
    requires b == " (NO LONGER VALID)"
    ensures BlankPunctuation(b) == b
  {
    assert forall k :: 0 <= k < |b| ==> !IsBlanked(b[k]);
    BlankFixed(b);
  }

  lemma BlankExampleNoteHead(a: string)
    requires a == "ACME, LTD."
    ensures BlankPunctuation(a) == "ACME  LTD "
  {
  }

  lemma BracketsExampleNote(s: string)
    requires s == "ACME  LTD  (NO LONGER VALID)"
    ensures StripBrackets(s) == "ACME  LTD  "
  {
    var p := "ACME  LTD  ";
    assert '(' !in p && ')' !in p;
    StripNoteExample(s);
    BracketsAfterGroups(s, p);
  }

  /** When the group rewrite leaves no bracket, the bracket rewrites add nothing. */
  lemma BracketsAfterGroups(s: string, p: string)
    requires StripParenGroups(s) == p && '(' !in p && ')' !in p
    ensures StripBrackets(s) == p
  {
  }

  lemma NoteExampleOneLine(s: string)
    requires s == "ACME  LTD  (NO LONGER VALID)"
    ensures SingleLine(s)
  {
  }

  lemma StripNoteExample(s: string)
    requires s == "ACME  LTD  (NO LONGER VALID)"
    ensures StripParenGroups(s) == "ACME  LTD  "
  {
    var p, note := "ACME  LTD  ", "NO LONGER VALID";
    NoteExampleOneLine(s);
    assert s == p + "(" + note + ")" + "";
    NoteRemoved(p, note, "");
    assert p + "" == p;
  }

  lemma SuffixesExampleNote(s: string)
    requires s == "ACME  LTD  "
    ensures DropCompanySuffixes(s) == "ACME    "
  {
    var head, tail := "ACME  ", "LTD  ";
    assert s == head + tail;
    SuffixesExampleNoteLimited(head, tail);
    SuffixesExampleNoteLtd(head, tail);
    assert head + "  " == "ACME    ";
  }

  lemma SuffixesExampleNoteLtd(head: string, tail: string)
    requires head == "ACME  " && tail == "LTD  "
    ensures RemoveLiteral(head + tail, "LTD") == head + "  "
  {
    RemoveLiteralAfter(head, tail, "LTD");
    assert tail[..3] == "LTD";
    assert RemoveLiteral(tail, "LTD") == "  ";
  }

  lemma SuffixesExampleNoteLimited(head: string, tail: string)
    requires head == "ACME  " && tail == "LTD  "
    ensures RemoveLiteral(head + tail, "LIMITED") == head + tail
  {
    RemoveLiteralAfter(head, tail, "LIMITED");
    assert RemoveLiteral(tail, "LIMITED") == tail;
  }

  /** An `L` earlier in the name does not stop the `LTD` deletion. */
  lemma SuffixesExampleLogistics(s: string)
    requires s == "GLOBAL LOGISTICS LTD"
    ensures DropCompanySuffixes(s) == "GLOBAL LOGISTICS "
  {
    var p, q := "GLOBAL LOGISTICS ", "";
    assert s == p + "LTD" + q;
    assert RemoveLiteral(q, "LIMITED") == q;
    NoStartByPair(s, |p|, "LIMITED");
    NoStartByPair(s, |p|, "LTD");
    DropLtdAfter(p, q);
    assert p + q == p;
  }

  /** The two passes meet: deleting `LIMITED` can bring an `LTD` together,
      which the second pass then deletes. */
  lemma SuffixesExampleMeet(s: string)
    requires s == "ABLLIMITEDTD"
    ensures RemoveLiteral(s, "LIMITED") == "ABLTD"
    ensures DropCompanySuffixes(s) == "AB"
  {
    MeetLimitedPass(s);
    MeetLtdPass("ABLTD");
  }

  lemma MeetLimitedPass(s: string)
    requires s == "ABLLIMITEDTD"
    ensures RemoveLiteral(s, "LIMITED") == "ABLTD"
  {
    var p, q, w := "ABL", "TD", "LIMITED";
    assert s == p + w + q;
    NoStartByPair(s, |p|, w);
    RemoveLiteralWord(p, q, w);
    assert RemoveLiteral(q, w) == q;
    assert p + q == "ABLTD";
  }

  lemma MeetLtdPass(s: string)
    requires s == "ABLTD"
    ensures RemoveLiteral(s, "LTD") == "AB"
  {
    var p, q, w := "AB", "", "LTD";
    assert s == p + w + q;
    NoStartByPair(s, |p|, w);
    RemoveLiteralWord(p, q, w);
    assert RemoveLiteral(q, w) == q;
    assert p + q == "AB";
  }

  lemma TrimExampleNote(s: string)
    requires s == "ACME    "
    ensures Trim(s) == "ACME"
  {
    assert s == "ACME" + "    ";
    TrimTrailingBlanks("ACME", "    ");
  }

  lemma RewriteExampleNote(name: string)
    requires name == "ACME, LTD. (NO LONGER VALID)"
    ensures Rewrite(name) == "ACME"
  {
    var blanked := BlankPunctuation(name);
    BlankExampleNote(name);
    var unbracketed := StripBrackets(blanked);
    BracketsExampleNote(blanked);
    var stripped := DropCompanySuffixes(unbracketed);
    SuffixesExampleNote(unbracketed);
    TrimExampleNote(stripped);
  }

  /** Punctuation, a parenthesised note and an upper-case suffix disappear. */
  lemma NormalizeExampleNote(name: string)
    requires name == "ACME, LTD. (NO LONGER VALID)"
    ensures NormalizeName(name) == "acme"
  {
    RewriteExampleNote(name);
    LowerExampleNote("ACME");
  }

  lemma LowerExampleNote(s: string)
    requires s == "ACME"
    ensures ToLowerCase(s) == "acme"
  {
    var lower := ToLowerCase(s);
    assert lower[0] == 'a' && lower[1] == 'c' && lower[2] == 'm' && lower[3] == 'e';
  }

  lemma BlankExampleSuffix(name: string)
    requires name == "Smith-Jones LIMITED"
    ensures BlankPunctuation(name) == "Smith Jones LIMITED"
  {
    var a, b := "Smith-Jones", " LIMITED";
    assert name == a + b;
    assert "Smith Jones" + b == "Smith Jones LIMITED";
    BlankExampleSuffixHead(a);
    BlankExampleSuffixTail(b);
    BlankPieces(name, a, b, "Smith Jones", b);
  }

  lemma BlankExampleSuffixHead(a: string)
    requires a == "Smith-Jones"
    ensures BlankPunctuation(a) == "Smith Jones"
  {
  }

  lemma BlankExampleSuffixTail(b: string)
    requires b == " LIMITED"
    ensures BlankPunctuation(b) == b
  {
    assert forall k :: 0 <= k < |b| ==> !IsBlanked(b[k]);
    BlankFixed(b);
  }

  lemma SuffixesExampleSuffix(s: string)
    requires s == "Smith Jones LIMITED"
    ensures DropCompanySuffixes(s) == "Smith Jones "
  {
    var head, tail := "Smith Jones ", "LIMITED";
    assert s == head + tail;
    RemoveLiteralAfter(head, tail, "LIMITED");
    assert RemoveLiteral(tail, "LIMITED") == "";
    assert head + "" == head;
  }

  lemma TrimExampleSuffix(s: string)
    requires s == "Smith Jones "
    ensures Trim(s) == "Smith Jones"
  {
    assert s == "Smith Jones" + " ";
    TrimTrailingBlanks("Smith Jones", " ");
  }

  lemma RewriteExampleSuffix(name: string)
    requires name == "Smith-Jones LIMITED"
    ensures Rewrite(name) == "Smith Jones"
  {
    var blanked := BlankPunctuation(name);
    BlankExampleSuffix(name);
    NoBracketsUnchanged(blanked);
    var stripped := DropCompanySuffixes(blanked);
    SuffixesExampleSuffix(blanked);
    TrimExampleSuffix(stripped);
  }

  /** A hyphen becomes a space and the upper-case suffix disappears. */
  lemma NormalizeExampleSuffix(name: string)
    requires name == "Smith-Jones LIMITED"
    ensures NormalizeName(name) == "smith jones"
  {
    RewriteExampleSuffix(name);
    LowerExampleSuffix("Smith Jones");
  }

  lemma LowerExampleSuffix(s: string)
    requires s == "Smith Jones"
    ensures ToLowerCase(s) == "smith jones"
  {
    var lower := ToLowerCase(s);
    assert lower[0] == 's' && lower[6] == 'j';
    assert lower[1..6] == s[1..6] && lower[7..] == s[7..];
  }

  lemma SuffixesExampleMixedCase(s: string)
    requires s == "Acme Ltd"
    ensures DropCompanySuffixes(s) == s
  {
    var head, tail := "Acme ", "Ltd";
    assert s == head + tail;
    RemoveLiteralAfter(head, tail, "LIMITED");
    assert RemoveLiteral(tail, "LIMITED") == tail;
    RemoveLiteralAfter(head, tail, "LTD");
    assert tail[..3][1] == 't' != "LTD"[1];
    assert RemoveLiteral(tail, "LTD") == tail;
  }

  lemma RewriteExampleMixedCase(name: string)
    requires name == "Acme Ltd"
    ensures Rewrite(name) == name
  {
    MixedCaseShape(name);
    BlankFixed(name);
    NoBracketsUnchanged(name);
    SuffixesExampleMixedCase(name);
  }

  lemma MixedCaseShape(name: string)
    requires name == "Acme Ltd"
    ensures forall k :: 0 <= k < |name| ==> !IsBlanked(name[k])
    ensures '(' !in name && ')' !in name && IsTrimmed(name)
  {
  }

  /** The suffix match is case-sensitive: a mixed-case `Ltd` stays. */
  lemma NormalizeExampleMixedCase(name: string)
    requires name == "Acme Ltd"
    ensures NormalizeName(name) == "acme ltd"
  {
    RewriteExampleMixedCase(name);
    LowerExampleMixedCase(name);
  }

  lemma LowerExampleMixedCase(s: string)
    requires s == "Acme Ltd"
    ensures ToLowerCase(s) == "acme ltd"
  {
    var lower := ToLowerCase(s);
    assert lower[0] == 'a' && lower[1] == 'c' && lower[2] == 'm' && lower[3] == 'e';
    assert lower[4] == ' ' && lower[5] == 'l' && lower[6] == 't' && lower[7] == 'd';
  }

  lemma NoSuffixShape(name: string)
    requires name == "Acme Corporation"
    ensures forall k :: 0 <= k < |name| ==> !IsBlanked(name[k])
    ensures '(' !in name && ')' !in name && 'L' !in name && IsTrimmed(name)
  {
  }

  lemma RewriteExampleNoSuffix(name: string)
    requires name == "Acme Corporation"
    ensures Rewrite(name) == name
  {
    NoSuffixShape(name);
    BlankFixed(name);
    NoBracketsUnchanged(name);
  }

  /** A name without punctuation, brackets or suffix is only lower-cased. */
  lemma NormalizeExampleNoSuffix(name: string)
    requires name == "Acme Corporation"
    ensures NormalizeName(name) == "acme corporation"
  {
    RewriteExampleNoSuffix(name);
    LowerExampleNoSuffix(name);
  }

  lemma LowerExampleNoSuffix(s: string)
    requires s == "Acme Corporation"
    ensures ToLowerCase(s) == "acme corporation"
  {
    var lower := ToLowerCase(s);
    assert lower[0] == 'a' && lower[1] == 'c' && lower[2] == 'm' && lower[3] == 'e' && lower[4] == ' ';
    assert lower[5] == 'c' && lower[6] == 'o' && lower[7] == 'r' && lower[8] == 'p' && lower[9] == 'o';
    assert lower[10] == 'r' && lower[11] == 'a' && lower[12] == 't' && lower[13] == 'i' && lower[14] == 'o' && lower[15] == 'n';
  }
}
