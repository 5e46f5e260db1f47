/**
 * The parts of java.lang that the name-matching code relies on: possibly-null
 * references, the String operations it chains together, and Integer.toString.
 * Characters are modelled one per Unicode scalar value; letter case is ASCII only.
 */
module JavaLang {

  /** A Java reference that may be null. */
  datatype Nullable<T> = Null | NonNull(value: T)

  function Min(x: int, y: int): int { if x <= y then x else y }

  function Max(x: int, y: int): int { if x <= y then y else x }

  predicate IsAsciiUpper(c: char) { 'A' <= c <= 'Z' }

  predicate IsAsciiLower(c: char) { 'a' <= c <= 'z' }

  /** The characters String.trim() removes from both ends. */
  predicate IsTrimmable(c: char) { c <= ' ' }

  /** No character that String.trim() would remove at either end. */
  predicate IsTrimmed(s: string) {
    s == [] || (!IsTrimmable(s[0]) && !IsTrimmable(s[|s| - 1]))
  }

  predicate NoAsciiUpper(s: string) {
    forall k :: 0 <= k < |s| ==> !IsAsciiUpper(s[k])
  }

  /** `s.replaceAll(p, r)` for a pattern `p` that matches the one character `from`
      and a replacement that is the one character `to`. */
  function ReplaceChar(s: string, from: char, to: char): (r: string)
    ensures |r| == |s|
    ensures from != to ==> from !in r
    ensures from !in s ==> r == s
  {
    seq(|s|, i requires 0 <= i < |s| => if s[i] == from then to else s[i])
  }

  /** `r` is what is left of `s` once some of its characters are deleted: the
      characters of `r` appear in `s`, in the same order. */
  predicate DeletedFrom(r: string, s: string)
    decreases |s|
  {
    if s == [] then r == []
    else (r != [] && r[0] == s[0] && DeletedFrom(r[1..], s[1..])) || DeletedFrom(r, s[1..])
  }

  /** Keeping the first character on top of a deletion from the rest is a deletion. */
  lemma DeletedFromCons(r: string, s: string)
    requires s != [] && DeletedFrom(r, s[1..])
    ensures DeletedFrom([s[0]] + r, s)
  {
    assert ([s[0]] + r)[1..] == r;
  }

  /** Deleting nothing is a deletion. */
  lemma {:induction false} DeletedFromSelf(s: string)
    ensures DeletedFrom(s, s)
    decreases |s|
  {
    if s != [] {
      DeletedFromSelf(s[1..]);
    }
  }

  /** Deleting a prefix as well is still a deletion. */
  lemma {:induction false} DeletedFromSkip(r: string, s: string, k: nat)
    requires k <= |s| && DeletedFrom(r, s[k..])
    ensures DeletedFrom(r, s)
    decreases k
  {
    if k == 0 {
      assert s[k..] == s;
    } else {
      assert s[k - 1..][1..] == s[k..];
      DeletedFromSkip(r, s, k - 1);
    }
  }

  /** Two deletions in a row are one deletion. */
  lemma {:induction false} DeletedFromTrans(a: string, b: string, c: string)
    requires DeletedFrom(a, b) && DeletedFrom(b, c)
    ensures DeletedFrom(a, c)
    decreases |c|
  {
    if c != [] {
      if b != [] && b[0] == c[0] && DeletedFrom(b[1..], c[1..]) {
        if a != [] && a[0] == b[0] && DeletedFrom(a[1..], b[1..]) {
          DeletedFromTrans(a[1..], b[1..], c[1..]);
        } else {
          DeletedFromTrans(a, b[1..], c[1..]);
        }
      } else {
        DeletedFromTrans(a, b, c[1..]);
      }
    }
  }

  /** `s.replaceAll(p, "")` for a pattern `p` that matches the one character `c`. */
  function DeleteChar(s: string, c: char): (r: string)
    ensures c !in r
    ensures c !in s ==> r == s
    ensures DeletedFrom(r, s)
    ensures multiset(r) == multiset(s)[c := 0]
  {
    if s == [] then []
    else
      var rest := DeleteChar(s[1..], c);
      DeleteCharStep(s, c, rest);
      (if s[0] == c then [] else [s[0]]) + rest
  }

  /** One step of `DeleteChar`: the first character is kept unless it is `c`. */
  lemma DeleteCharStep(s: string, c: char, rest: string)
    requires s != [] && DeletedFrom(rest, s[1..]) && multiset(rest) == multiset(s[1..])[c := 0]
    ensures var r := (if s[0] == c then [] else [s[0]]) + rest;
            DeletedFrom(r, s) && multiset(r) == multiset(s)[c := 0]
  {
    var head := if s[0] == c then [] else [s[0]];
    DeleteCharOrder(s, head, rest);
    DeleteCharCount(s, c, head, rest);
  }

  lemma DeleteCharOrder(s: string, head: string, rest: string)
    requires s != [] && DeletedFrom(rest, s[1..]) && (head == [] || head == [s[0]])
    ensures DeletedFrom(head + rest, s)
  {
    if head == [] {
      assert head + rest == rest;
    } else {
      var r := head + rest;
      assert r[0] == s[0] && r[1..] == rest;
    }
  }

  lemma DeleteCharCount(s: string, c: char, head: string, rest: string)
    requires s != [] && head == (if s[0] == c then [] else [s[0]])
    requires multiset(rest) == multiset(s[1..])[c := 0]
    ensures multiset(head + rest) == multiset(s)[c := 0]
  {
    assert s == [s[0]] + s[1..];
    var lhs, rhs := multiset(head + rest), multiset(s)[c := 0];
    forall y
      ensures lhs[y] == rhs[y]
    {
    }
  }


  /** Deleting a character acts on each piece of a string separately. */
  lemma {:induction false} DeleteCharConcat(a: string, b: string, c: char)
    ensures DeleteChar(a + b, c) == DeleteChar(a, c) + DeleteChar(b, c)
    decreases |a|
  {
    if a == [] {
      assert a + b == b;
    } else {
      assert (a + b)[1..] == a[1..] + b;
      DeleteCharConcat(a[1..], b, c);
    }
  }

  /** Deleting a character adds none. */
  lemma {:induction false} DeleteCharKeeps(s: string, c: char)
    ensures forall x :: x in DeleteChar(s, c) ==> x in s
    decreases |s|
  {
    if s != [] {
      DeleteCharKeeps(s[1..], c);
    }
  }

  /** `s.replaceAll(w, "")` for a pattern `w` with no regular-expression
      metacharacters: every occurrence found scanning left to right, without
      overlap, is deleted. */
  function RemoveLiteral(s: string, w: string): (r: string)
    requires |w| > 0
    ensures |r| <= |s|
    ensures w[0] !in s ==> r == s
    decreases |s|
  {
    if |s| < |w| then s
    else if s[..|w|] == w then RemoveLiteral(s[|w|..], w)
    else [s[0]] + RemoveLiteral(s[1..], w)
  }

  /** Deleting a word adds no character. */
  lemma {:induction false} RemoveLiteralKeeps(s: string, w: string)
    requires |w| > 0
    ensures forall x :: x in RemoveLiteral(s, w) ==> x in s
    decreases |s|
  {
    if |s| >= |w| {
      if s[..|w|] == w {
        RemoveLiteralKeeps(s[|w|..], w);
      } else {
        RemoveLiteralKeeps(s[1..], w);
      }
    }
  }

  /** Deleting a word only deletes characters. */
  lemma {:induction false} RemoveLiteralDeletes(s: string, w: string)
    requires |w| > 0
    ensures DeletedFrom(RemoveLiteral(s, w), s)
    decreases |s|
  {
    if |s| < |w| {
      DeletedFromSelf(s);
    } else if s[..|w|] == w {
      RemoveLiteralDeletes(s[|w|..], w);
      DeletedFromSkip(RemoveLiteral(s, w), s, |w|);
    } else {
      RemoveLiteralDeletes(s[1..], w);
    }
  }

  /** A first character that does not start an occurrence is copied through. */
  lemma RemoveLiteralMiss(s: string, w: string)
    requires |w| > 0 && s != [] && (|s| >= |w| ==> s[..|w|] != w)
    ensures RemoveLiteral(s, w) == [s[0]] + RemoveLiteral(s[1..], w)
  {
    if |s| < |w| {
      assert [s[0]] + s[1..] == s;
    }
  }

  /** Deleting `u` keeps a word `w` that cannot overlap an occurrence of `u`:
      after a prefix where no occurrence of `u` starts, `w` passes through. */
  lemma RemoveLiteralPassWord(p: string, w: string, q: string, u: string)
    requires |u| >= 2 && |w| >= 2 && u[0] !in w[1..] && w[1] != u[1]
    requires NoStartBefore(p + w + q, |p|, u)
    ensures RemoveLiteral(p + w + q, u) == p + w + RemoveLiteral(q, u)
  {
    var s := p + w + q;
    forall k | |p| <= k < |p| + |w| ensures !StartsAt(s, k, u) {
      if k == |p| {
        assert s[k + 1] == w[1];
        if k + |u| <= |s| {
          assert s[k..k + |u|][1] == s[k + 1];
        }
      } else {
        assert s[k] == w[1..][k - |p| - 1];
        if k + |u| <= |s| {
          assert s[k..k + |u|][0] == s[k];
        }
      }
    }
    assert NoStartBefore(s, |p + w|, u);
    assert s == (p + w) + q;
    RemoveLiteralPrefixNoStart(p + w, q, u);
  }

  /** An occurrence at the front is deleted. */
  lemma RemoveLiteralHit(w: string, q: string)
    requires |w| > 0
    ensures RemoveLiteral(w + q, w) == RemoveLiteral(q, w)
  {
    assert (w + q)[..|w|] == w && (w + q)[|w|..] == q;
  }

  /** An occurrence of `w` starts at index `k` of `s`. */
  predicate StartsAt(s: string, k: int, w: string)
  {
    0 <= k && k + |w| <= |s| && s[k..k + |w|] == w
  }

  /** No occurrence of `w` starts in `s` before index `n`. */
  predicate NoStartBefore(s: string, n: int, w: string)
  {
    forall k :: 0 <= k < n ==> !StartsAt(s, k, w)
  }

  /** A prefix without the word's first character starts no occurrence. */
  lemma NoStartWithout(p: string, q: string, w: string)
    requires |w| > 0 && w[0] !in p
    ensures NoStartBefore(p + q, |p|, w)
  {
    forall k | 0 <= k < |p| ensures !StartsAt(p + q, k, w) {
      assert (p + q)[k] == p[k] && p[k] in p;
      if k + |w| <= |p + q| {
        assert (p + q)[k..k + |w|][0] == (p + q)[k];
      }
    }
  }

  /** No occurrence starts where no character pair matches the word's first two. */
  lemma NoStartByPair(s: string, n: int, w: string)
    requires |w| >= 2 && n < |s|
    requires forall k :: 0 <= k < n ==> s[k] != w[0] || s[k + 1] != w[1]
    ensures NoStartBefore(s, n, w)
  {
    forall k | 0 <= k < n ensures !StartsAt(s, k, w) {
      if k + |w| <= |s| {
        assert s[k..k + |w|][0] == s[k] && s[k..k + |w|][1] == s[k + 1];
      }
    }
  }

  lemma ConsAppend(p: string, x: string)
    requires p != []
    ensures [p[0]] + (p[1..] + x) == p + x
  {
    assert [p[0]] + p[1..] == p;
  }

  /** The scan copies through any prefix in which no occurrence of the word
      starts, and goes on with the rest on its own. */
  lemma {:induction false} RemoveLiteralPrefixNoStart(p: string, q: string, w: string)
    requires |w| > 0 && NoStartBefore(p + q, |p|, w)
    ensures RemoveLiteral(p + q, w) == p + RemoveLiteral(q, w)
    decreases |p|
  {
    if p == [] {
      assert p + q == q;
    } else {
      var s, tail := p + q, p[1..];
      assert !StartsAt(s, 0, w);
      RemoveLiteralMiss(s, w);
      assert s[0] == p[0] && s[1..] == tail + q;
      forall k | 0 <= k < |tail| ensures !StartsAt(tail + q, k, w) {
        assert !StartsAt(s, k + 1, w);
        if k + |w| <= |tail + q| {
          assert (tail + q)[k..k + |w|] == s[k + 1..k + 1 + |w|];
        }
      }
      RemoveLiteralPrefixNoStart(tail, q, w);
      ConsAppend(p, RemoveLiteral(q, w));
    }
  }

  /** A prefix without the word's first character is copied through unchanged. */
  lemma RemoveLiteralAfter(p: string, q: string, w: string)
    requires |w| > 0 && w[0] !in p
    ensures RemoveLiteral(p + q, w) == p + RemoveLiteral(q, w)
  {
    NoStartWithout(p, q, w);
    RemoveLiteralPrefixNoStart(p, q, w);
  }

  /** The first occurrence of the word, after a prefix in which no occurrence
      starts, is deleted and the scan goes on after it. */
  lemma RemoveLiteralWord(p: string, q: string, w: string)
    requires |w| > 0 && NoStartBefore(p + w + q, |p|, w)
    ensures RemoveLiteral(p + w + q, w) == p + RemoveLiteral(q, w)
  {
    assert p + w + q == p + (w + q);
    RemoveLiteralPrefixNoStart(p, w + q, w);
    RemoveLiteralHit(w, q);
  }


  function TrimLeading(s: string): (r: string)
    ensures |r| <= |s| && r == s[|s| - |r|..]
    ensures r == [] || !IsTrimmable(r[0])
    ensures (s == [] || !IsTrimmable(s[0])) ==> r == s
  {
    if s != [] && IsTrimmable(s[0]) then TrimLeading(s[1..]) else s
  }

  function TrimTrailing(s: string): (r: string)
    ensures |r| <= |s| && r == s[..|r|]
    ensures r == [] || !IsTrimmable(r[|r| - 1])
    ensures (s == [] || !IsTrimmable(s[|s| - 1])) ==> r == s
  {
    if s != [] && IsTrimmable(s[|s| - 1]) then TrimTrailing(s[..|s| - 1]) else s
  }

  /** Everything `TrimLeading` drops is at or below U+0020. */
  lemma {:induction false} TrimLeadingDrops(s: string)
    ensures forall k :: 0 <= k < |s| - |TrimLeading(s)| ==> IsTrimmable(s[k])
    decreases |s|
  {
    if s != [] && IsTrimmable(s[0]) {
      var rest := s[1..];
      TrimLeadingDrops(rest);
      forall k | 1 <= k < |s| - |TrimLeading(s)|
        ensures IsTrimmable(s[k])
      {
        assert s[k] == rest[k - 1];
      }
    }
  }

  /** Everything `TrimTrailing` drops is at or below U+0020. */
  lemma {:induction false} TrimTrailingDrops(s: string)
    ensures forall k :: |TrimTrailing(s)| <= k < |s| ==> IsTrimmable(s[k])
    decreases |s|
  {
    if s != [] && IsTrimmable(s[|s| - 1]) {
      var front := s[..|s| - 1];
      TrimTrailingDrops(front);
      forall k | |TrimTrailing(s)| <= k < |s| - 1
        ensures IsTrimmable(s[k])
      {
        assert s[k] == front[k];
      }
    }
  }

  /** Trailing characters at or below U+0020 after a word are dropped. */
  lemma {:induction false} TrimTrailingAfter(p: string, q: string)
    requires p != [] && !IsTrimmable(p[|p| - 1])
    requires forall k :: 0 <= k < |q| ==> IsTrimmable(q[k])
    ensures TrimTrailing(p + q) == p
    decreases |q|
  {
    if q == [] {
      assert p + q == p;
    } else {
      var q' := q[..|q| - 1];
      TrimTrailingAfter(p, q');
      assert (p + q)[..|p + q| - 1] == p + q';
    }
  }

  /** Trailing characters at or below U+0020 after a trimmed word are dropped. */
  lemma TrimTrailingBlanks(p: string, q: string)
    requires p != [] && IsTrimmed(p)
    requires forall k :: 0 <= k < |q| ==> IsTrimmable(q[k])
    ensures Trim(p + q) == p
  {
    assert (p + q)[0] == p[0];
    TrimTrailingAfter(p, q);
  }

  /** Every character of `s` before `i` and from `j` on is one `trim` removes. */
  predicate TrimmableOutside(s: string, i: int, j: int)
    requires 0 <= i <= j <= |s|
  {
    (forall k :: 0 <= k < i ==> IsTrimmable(s[k])) && (forall k :: j <= k < |s| ==> IsTrimmable(s[k]))
  }

  /** `r` is a slice of `s` with only characters `trim` removes around it. */
  predicate SliceWithTrimmableEnds(s: string, r: string)
  {
    exists i, j :: 0 <= i <= j <= |s| && r == s[i..j] && TrimmableOutside(s, i, j)
  }

  /** `s.trim()`: the slice of `s` left when every character at or below
      U+0020 is removed from both ends. */
  function Trim(s: string): (r: string)
    ensures IsTrimmed(r)
    ensures SliceWithTrimmableEnds(s, r)
    ensures IsTrimmed(s) ==> r == s
  {
    var t := TrimLeading(s);
    var r := TrimTrailing(t);
    TrimLeadingDrops(s);
    TrimTrailingDrops(t);
    TrimSlice(s, t, r, |s| - |t|);
    r
  }

  /** A trimmable prefix of `s` dropped, then a trimmable suffix of the rest:
      what is left is a slice of `s` with only trimmable characters outside it. */
  lemma TrimSlice(s: string, t: string, r: string, i: nat)
    requires i <= |s| && t == s[i..] && |r| <= |t| && r == t[..|r|]
    requires forall k :: 0 <= k < i ==> IsTrimmable(s[k])
    requires forall k :: |r| <= k < |t| ==> IsTrimmable(t[k])
    ensures SliceWithTrimmableEnds(s, r)
  {
    var j := i + |r|;
    forall k | j <= k < |s|
      ensures IsTrimmable(s[k])
    {
      assert s[k] == t[k - i];
    }
    assert r == s[i..j] && TrimmableOutside(s, i, j);
  }

  /** Trimming adds no character. */
  lemma TrimKeeps(s: string)
    ensures forall x :: x in Trim(s) ==> x in s
  {
    var i, j :| 0 <= i <= j <= |s| && Trim(s) == s[i..j] && TrimmableOutside(s, i, j);
  }

  function LowerChar(c: char): (d: char)
  {
    if IsAsciiUpper(c) then (c as int + 32) as char else c
  }

  function UpperChar(c: char): (d: char)
  {
    if IsAsciiLower(c) then (c as int - 32) as char else c
  }

  /** `s.toLowerCase()`, restricted to the ASCII letters. */
  function ToLowerCase(s: string): (r: string)
    ensures |r| == |s| && NoAsciiUpper(r)
    ensures forall k :: 0 <= k < |s| ==> (IsTrimmable(r[k]) <==> IsTrimmable(s[k]))
    ensures forall k :: 0 <= k < |s| && IsAsciiUpper(s[k]) ==> r[k] as int == s[k] as int + 32
    ensures forall k :: 0 <= k < |s| && !IsAsciiUpper(s[k]) ==> r[k] == s[k]
    ensures forall k :: 0 <= k < |s| ==> r[k] == s[k] || IsAsciiLower(r[k])
    ensures NoAsciiUpper(s) ==> r == s
  {
    seq(|s|, i requires 0 <= i < |s| => LowerChar(s[i]))
  }

  /** `s.toUpperCase()`, restricted to the ASCII letters. */
  function ToUpperCase(s: string): (r: string)
    ensures |r| == |s|
    ensures forall k :: 0 <= k < |s| ==> !IsAsciiLower(r[k])
  {
    seq(|s|, i requires 0 <= i < |s| => UpperChar(s[i]))
  }

  /** Upper-casing after lower-casing is upper-casing alone: lower-casing loses
      nothing but the case of a letter. */
  lemma CaseRoundTrip(s: string)
    ensures ToUpperCase(ToLowerCase(s)) == ToUpperCase(s)
  {
    var l := ToLowerCase(s);
    forall k | 0 <= k < |s|
      ensures UpperChar(l[k]) == UpperChar(s[k])
    {
      if IsAsciiUpper(s[k]) {
        assert IsAsciiLower(l[k]);
      }
    }
  }

  /** Lower-casing twice is lower-casing once. */
  lemma ToLowerCaseIdempotent(s: string)
    ensures ToLowerCase(ToLowerCase(s)) == ToLowerCase(s)
  {
  }

  /** `s.indexOf(c)`: the first position of `c`, or -1. */
  function IndexOf(s: string, c: char): (r: int)
    ensures -1 <= r < |s|
    ensures 0 <= r ==> s[r] == c
  {
    if s == [] then -1
    else if s[0] == c then 0
    else
      var k := IndexOf(s[1..], c);
      if k < 0 then -1 else k + 1
  }

  /** `s.lastIndexOf(c)`: the last position of `c`, or -1. */
  function LastIndexOf(s: string, c: char): (r: int)
    ensures -1 <= r < |s|
    ensures 0 <= r ==> s[r] == c
  {
    if s == [] then -1
    else if s[|s| - 1] == c then |s| - 1
    else LastIndexOf(s[..|s| - 1], c)
  }

  /** No occurrence comes before the one `IndexOf` reports; none at all when it
      reports -1. */
  lemma {:induction false} IndexOfFirst(s: string, c: char)
    ensures var r := IndexOf(s, c);
            forall k :: 0 <= k < |s| && (r < 0 || k < r) ==> s[k] != c
  {
    if s != [] && s[0] != c {
      IndexOfFirst(s[1..], c);
      var r := IndexOf(s, c);
      forall k | 0 <= k < |s| && (r < 0 || k < r)
        ensures s[k] != c
      {
        if k > 0 {
          assert s[k] == s[1..][k - 1];
        }
      }
    }
  }

  /** A position holding `c` with no `c` before it is what `IndexOf` reports. */
  lemma IndexOfIs(s: string, c: char, i: int)
    requires 0 <= i < |s| && s[i] == c
    requires forall k :: 0 <= k < i ==> s[k] != c
    ensures IndexOf(s, c) == i
  {
    IndexOfFirst(s, c);
  }

  /** No occurrence comes after the one `LastIndexOf` reports; none at all when
      it reports -1. */
  lemma {:induction false} LastIndexOfLast(s: string, c: char)
    ensures var r := LastIndexOf(s, c);
            forall k :: r < k < |s| ==> s[k] != c
  {
    if s != [] && s[|s| - 1] != c {
      var front := s[..|s| - 1];
      LastIndexOfLast(front, c);
      var r := LastIndexOf(s, c);
      forall k | r < k < |s|
        ensures s[k] != c
      {
        if k < |s| - 1 {
          assert s[k] == front[k];
        }
      }
    }
  }

  /** A position holding `c` with no `c` after it is what `LastIndexOf` reports. */
  lemma LastIndexOfIs(s: string, c: char, j: int)
    requires 0 <= j < |s| && s[j] == c
    requires forall k :: j < k < |s| ==> s[k] != c
    ensures LastIndexOf(s, c) == j
  {
    LastIndexOfLast(s, c);
  }

  /** The last occurrence in a suffix is the last occurrence in the whole
      string, shifted, unless it sat in the dropped first position. */
  lemma {:induction false} LastIndexOfTail(s: string, c: char)
    requires s != []
    ensures LastIndexOf(s[1..], c) == (if LastIndexOf(s, c) >= 1 then LastIndexOf(s, c) - 1 else -1)
    decreases |s|
  {
    if |s| > 1 && s[|s| - 1] != c {
      var front := s[..|s| - 1];
      LastIndexOfTail(front, c);
      assert s[1..][..|s| - 2] == front[1..];
    }
  }

  function DigitChar(d: nat): (c: char)
    requires d < 10
  {
    ('0' as int + d) as char
  }

  predicate IsDigit(c: char) { '0' <= c <= '9' }

  /** `Integer.toString(n)` for a non-negative `n`: decimal digits, no leading zero. */
  function DecimalString(n: nat): (r: string)
    ensures r != [] && forall k :: 0 <= k < |r| ==> IsDigit(r[k])
    ensures |r| > 1 ==> r[0] != '0'
  {
    if n < 10 then [DigitChar(n)] else DecimalString(n / 10) + [DigitChar(n % 10)]
  }

  /** The value of a string of decimal digits, as `Integer.parseInt` reads it. */
  function DecimalValue(s: string): nat
    requires forall k :: 0 <= k < |s| ==> IsDigit(s[k])
  {
    if s == [] then 0
    else
      var d := s[|s| - 1] as int - '0' as int;
      assert 0 <= d by { assert IsDigit(s[|s| - 1]); }
      DecimalValue(s[..|s| - 1]) * 10 + d
  }

  /** Reading back the decimal form gives the number. */
  lemma {:induction false} DecimalRoundTrip(n: nat)
    ensures DecimalValue(DecimalString(n)) == n
  {
    if n >= 10 {
      DecimalRoundTrip(n / 10);
      var s := DecimalString(n);
      assert s[..|s| - 1] == DecimalString(n / 10);
    }
  }
}
