/**
 * The search request built from a normalised name: every run of whitespace
 * becomes one `+`, and the fixed parameter suffix is appended.
 */
module Query {
  import opened JavaLang
  import opened Constants
  import opened Normalizer

  /** The characters of the `\s` class of Java regular expressions. */
  predicate IsRegexSpace(c: char) {
    c == ' ' || c == '\t' || c == '\n' || c == '\U{0B}' || c == '\U{0C}' || c == '\r'
  }

  predicate NoRegexSpace(s: string) {
    forall k :: 0 <= k < |s| ==> !IsRegexSpace(s[k])
  }

  /** Neither end of `s` is whitespace. */
  predicate SpaceTrimmed(s: string) {
    s == [] || (!IsRegexSpace(s[0]) && !IsRegexSpace(s[|s| - 1]))
  }

  lemma NoSpaceConcat(a: string, b: string)
    requires NoRegexSpace(a) && NoRegexSpace(b)
    ensures NoRegexSpace(a + b)
  {
    forall k | 0 <= k < |a + b|
      ensures !IsRegexSpace((a + b)[k])
    {
      if k >= |a| {
        assert (a + b)[k] == b[k - |a|];
      }
    }
  }

  /** `s` without its leading whitespace run. */
  function SkipSpaces(s: string): (r: string)
    ensures |r| <= |s| && r == s[|s| - |r|..]
    ensures r == [] || !IsRegexSpace(r[0])
  {
    if s != [] && IsRegexSpace(s[0]) then SkipSpaces(s[1..]) else s
  }

  /** `s.replaceAll("\\s+", "+")`: each maximal whitespace run becomes one `+`. */
  function CollapseSpaces(s: string): (r: string)
    ensures |r| <= |s|
    ensures s != [] ==> r != []
    decreases |s|
  {
    if s == [] then []
    else if IsRegexSpace(s[0]) then "+" + CollapseSpaces(SkipSpaces(s))
    else [s[0]] + CollapseSpaces(s[1..])
  }

  /** No whitespace survives the collapse. */
  lemma {:induction false} CollapseHasNoSpace(s: string)
    ensures NoRegexSpace(CollapseSpaces(s))
    decreases |s|
  {
    if s != [] {
      var r := CollapseSpaces(s);
      var head, tail := if IsRegexSpace(s[0]) then "+" else [s[0]],
                        if IsRegexSpace(s[0]) then SkipSpaces(s) else s[1..];
      CollapseHasNoSpace(tail);
      assert r == head + CollapseSpaces(tail);
      NoSpaceConcat(head, CollapseSpaces(tail));
    }
  }

  /** The collapse adds no character other than `+`. */
  lemma {:induction false} CollapseKeeps(s: string)
    ensures forall x :: x in CollapseSpaces(s) ==> x in s || x == '+'
    decreases |s|
  {
    if s != [] {
      if IsRegexSpace(s[0]) {
        var rest := SkipSpaces(s);
        CollapseKeeps(rest);
        assert forall x :: x in rest ==> x in s;
      } else {
        CollapseKeeps(s[1..]);
      }
    }
  }

  /** A string without whitespace is left unchanged. */
  lemma {:induction false} CollapseNoSpace(s: string)
    requires NoRegexSpace(s)
    ensures CollapseSpaces(s) == s
    decreases |s|
  {
    if s != [] {
      assert !IsRegexSpace(s[0]);
      CollapseNoSpace(s[1..]);
      assert [s[0]] + s[1..] == s;
    }
  }

  /** The longest prefix of `s` without whitespace. */
  function TakeWord(s: string): (w: string)
    ensures |w| <= |s| && w == s[..|w|]
    ensures |w| < |s| ==> IsRegexSpace(s[|w|])
  {
    if s == [] || IsRegexSpace(s[0]) then [] else [s[0]] + TakeWord(s[1..])
  }

  /** A word holds no whitespace. */
  lemma {:induction false} TakeWordHasNoSpace(s: string)
    ensures NoRegexSpace(TakeWord(s))
    decreases |s|
  {
    if s != [] && !IsRegexSpace(s[0]) {
      TakeWordHasNoSpace(s[1..]);
      NoSpaceConcat([s[0]], TakeWord(s[1..]));
    }
  }

  /** The whitespace-separated words of `s`, in order. */
  function Words(s: string): seq<string>
    decreases |s|
  {
    if s == [] then []
    else if IsRegexSpace(s[0]) then Words(SkipSpaces(s))
    else
      var w := TakeWord(s);
      [w] + Words(s[|w|..])
  }

  /** The words joined with a single `+` between neighbours. */
  function JoinWithPlus(ws: seq<string>): string
  {
    if ws == [] then []
    else if |ws| == 1 then ws[0]
    else ws[0] + "+" + JoinWithPlus(ws[1..])
  }

  /** Every word is non-empty and holds no whitespace. */
  lemma {:induction false} WordsAreWords(s: string)
    ensures forall k :: 0 <= k < |Words(s)| ==> Words(s)[k] != [] && NoRegexSpace(Words(s)[k])
    decreases |s|
  {
    if s != [] {
      if IsRegexSpace(s[0]) {
        WordsAreWords(SkipSpaces(s));
      } else {
        var w := TakeWord(s);
        TakeWordHasNoSpace(s);
        WordsAreWords(s[|w|..]);
      }
    }
  }

  /** A leading word without whitespace passes through the collapse unchanged. */
  lemma {:induction false} CollapseAfterWord(w: string, rest: string)
    requires NoRegexSpace(w)
    ensures CollapseSpaces(w + rest) == w + CollapseSpaces(rest)
    decreases |w|
  {
    if w != [] {
      assert !IsRegexSpace(w[0]);
      assert (w + rest)[1..] == w[1..] + rest;
      CollapseAfterWord(w[1..], rest);
      calc {
        CollapseSpaces(w + rest);
        [w[0]] + CollapseSpaces(w[1..] + rest);
        [w[0]] + (w[1..] + CollapseSpaces(rest));
        ([w[0]] + w[1..]) + CollapseSpaces(rest);
        { assert [w[0]] + w[1..] == w; }
        w + CollapseSpaces(rest);
      }
    } else {
      assert w + rest == rest;
    }
  }

  /** A non-empty string that ends in a non-space keeps that end once leading
      whitespace is skipped. */
  lemma {:induction false} SkipKeepsEnd(s: string)
    requires s != [] && !IsRegexSpace(s[|s| - 1])
    ensures SkipSpaces(s) != [] && SpaceTrimmed(SkipSpaces(s))
    decreases |s|
  {
    if IsRegexSpace(s[0]) {
      var rest := s[1..];
      assert rest != [] && rest[|rest| - 1] == s[|s| - 1];
      SkipKeepsEnd(rest);
      assert SkipSpaces(s) == SkipSpaces(rest);
    }
  }

  /** A whitespace run collapses to one `+` and separates no words. */
  lemma SpaceRun(rest: string)
    requires rest != [] && IsRegexSpace(rest[0])
    ensures CollapseSpaces(rest) == "+" + CollapseSpaces(SkipSpaces(rest))
    ensures Words(rest) == Words(SkipSpaces(rest))
  {
  }

  /** A string starting with a non-space has its first word first. */
  lemma FirstWord(s: string)
    requires s != [] && !IsRegexSpace(s[0])
    ensures TakeWord(s) != []
    ensures Words(s) == [TakeWord(s)] + Words(s[|TakeWord(s)|..])
  {
  }

  lemma JoinCons(w: string, ws: seq<string>)
    requires ws != []
    ensures JoinWithPlus([w] + ws) == w + "+" + JoinWithPlus(ws)
  {
    assert ([w] + ws)[1..] == ws;
  }

  /** A word followed by a whitespace run and more words: the run becomes the
      `+` between the word and the rest. */
  lemma JoinAfterSpace(w: string, rest: string)
    requires NoRegexSpace(w) && rest != [] && IsRegexSpace(rest[0])
    requires SpaceTrimmed(SkipSpaces(rest)) && SkipSpaces(rest) != []
    requires CollapseSpaces(SkipSpaces(rest)) == JoinWithPlus(Words(SkipSpaces(rest)))
    ensures CollapseSpaces(w + rest) == JoinWithPlus([w] + Words(rest))
  {
    var next := SkipSpaces(rest);
    var ws := Words(next);
    assert CollapseSpaces(w + rest) == w + CollapseSpaces(rest) by { CollapseAfterWord(w, rest); }
    assert CollapseSpaces(rest) == "+" + CollapseSpaces(next) && Words(rest) == ws by { SpaceRun(rest); }
    assert JoinWithPlus([w] + ws) == w + "+" + JoinWithPlus(ws) by { FirstWord(next); JoinCons(w, ws); }
    assert CollapseSpaces(next) == JoinWithPlus(ws);
    Assoc(w, "+", JoinWithPlus(ws));
  }

  lemma Assoc<T>(a: seq<T>, b: seq<T>, c: seq<T>)
    ensures a + (b + c) == a + b + c
  {
  }

  /**
   * Collapsing the whitespace of a string with no whitespace at either end is
   * joining its words with `+`.
   */
  lemma {:induction false} CollapseIsJoin(s: string)
    requires SpaceTrimmed(s)
    ensures CollapseSpaces(s) == JoinWithPlus(Words(s))
    decreases |s|
  {
    if s != [] {
      FirstWord(s);
      var w := TakeWord(s);
      TakeWordHasNoSpace(s);
      var rest := s[|w|..];
      assert s == w + rest;
      if rest == [] {
        CollapseNoSpace(w);
        assert s == w && Words(s) == [w];
      } else {
        SkipKeepsEnd(rest);
        CollapseIsJoin(SkipSpaces(rest));
        JoinAfterSpace(w, rest);
      }
    }
  }

  /** Every character `trim` removes is at or below U+0020, and so is all of `\s`. */
  lemma TrimmedIsSpaceTrimmed(s: string)
    requires IsTrimmed(s)
    ensures SpaceTrimmed(s)
  {
  }

  /** The query string `data` built from a normalised name. */
  function QueryString(normalized: string): (data: string)
    ensures |data| >= |URL_PREFIX| && data[|data| - |URL_PREFIX|..] == URL_PREFIX
    ensures data != []
    ensures NoRegexSpace(data)
  {
    var words := CollapseSpaces(normalized);
    CollapseHasNoSpace(normalized);
    SuffixHasNoSpace(URL_PREFIX);
    NoSpaceConcat(words, URL_PREFIX);
    words + URL_PREFIX
  }

  lemma SuffixHasNoSpace(p: string)
    requires p == URL_PREFIX
    ensures NoRegexSpace(p)
  {
  }

  /** The request path sent to the search provider. */
  function SearchPath(normalized: string): (path: string)
    ensures |path| > |URL_BLOCK_SEARCH_ACTIVE_COMPANIES|
    ensures path[..|URL_BLOCK_SEARCH_ACTIVE_COMPANIES|] == URL_BLOCK_SEARCH_ACTIVE_COMPANIES
  {
    URL_BLOCK_SEARCH_ACTIVE_COMPANIES + QueryString(normalized)
  }

  /**
   * The query for any input name is its normalised words joined with `+`,
   * followed by the parameter suffix.
   */
  lemma QueryOfName(name: string)
    ensures var normalized := NormalizeName(name);
            QueryString(normalized) == JoinWithPlus(Words(normalized)) + URL_PREFIX
  {
    var normalized := NormalizeName(name);
    TrimmedIsSpaceTrimmed(normalized);
    CollapseIsJoin(normalized);
  }
}
