/**
 * The string primitives the classifier relies on: `str.lower()` restricted to
 * ASCII, `str.strip()`, `re.split(' |:|\*', ...)` and the substring test
 * `item in description`.
 */
module Text {

  // ---------------------------------------------------------------------------
  // Lower case
  // ---------------------------------------------------------------------------

  predicate IsUpper(c: char) {
    'A' <= c <= 'Z'
  }

  function LowerChar(c: char): char {
    if IsUpper(c) then (c as int + 32) as char else c
  }

  /** `s.lower()` for ASCII text: every upper-case letter is replaced by its lower-case form. */
  function Lower(s: string): (r: string)
    ensures |r| == |s|
    ensures forall i :: 0 <= i < |s| ==> r[i] == LowerChar(s[i])
  {
    if s == [] then [] else [LowerChar(s[0])] + Lower(s[1..])
  }

  /** Lower-casing leaves no upper-case letter behind. */
  lemma LowerHasNoUpper(s: string)
    ensures forall i :: 0 <= i < |s| ==> !IsUpper(Lower(s)[i])
  {
  }

  /** Text without upper-case letters is its own lower-case form. */
  lemma LowerOfLowerCase(s: string)
    requires forall i :: 0 <= i < |s| ==> !IsUpper(s[i])
    ensures Lower(s) == s
  {
  }

  /** Lower-casing twice is lower-casing once. */
  lemma LowerIdempotent(s: string)
    ensures Lower(Lower(s)) == Lower(s)
  {
  }

  // ---------------------------------------------------------------------------
  // Whitespace stripping
  // ---------------------------------------------------------------------------

  /** The characters Python's `str.isspace()` accepts, which `str.strip()` removes. */
  predicate IsSpace(c: char) {
    (9 <= c as int <= 13) || (28 <= c as int <= 32) || c as int == 0x85 || c as int == 0xA0 ||
    c as int == 0x1680 || (0x2000 <= c as int <= 0x200A) || c as int == 0x2028 ||
    c as int == 0x2029 || c as int == 0x202F || c as int == 0x205F || c as int == 0x3000
  }

  /** The number of whitespace characters at the front of `s`. */
  function LeadingSpaces(s: string): (n: nat)
    ensures n <= |s|
    ensures forall k :: 0 <= k < n ==> IsSpace(s[k])
    ensures n < |s| ==> !IsSpace(s[n])
  {
    if s == [] || !IsSpace(s[0]) then 0 else 1 + LeadingSpaces(s[1..])
  }

  /** The number of whitespace characters at the back of `s`. */
  function TrailingSpaces(s: string): (n: nat)
    ensures n <= |s|
    ensures forall k :: |s| - n <= k < |s| ==> IsSpace(s[k])
    ensures n < |s| ==> !IsSpace(s[|s| - n - 1])
  {
    if s == [] || !IsSpace(s[|s| - 1]) then 0 else 1 + TrailingSpaces(s[..|s| - 1])
  }

  /**
   * `s.strip()`: the longest middle part of `s` that neither starts nor ends
   * with whitespace; only whitespace is removed, from both ends.
   */
  function Strip(s: string): (r: string)
    ensures r == [] || (!IsSpace(r[0]) && !IsSpace(r[|r| - 1]))
    ensures exists i, j :: (0 <= i <= j <= |s| && r == s[i..j] &&
      (forall k :: 0 <= k < i ==> IsSpace(s[k])) &&
      (forall k :: j <= k < |s| ==> IsSpace(s[k])))
  {
    var a := LeadingSpaces(s);
    var b := TrailingSpaces(s[a..]);
    assert s[a..][..|s[a..]| - b] == s[a..|s| - b];
    s[a..|s| - b]
  }

  // ---------------------------------------------------------------------------
  // Splitting into words
  // ---------------------------------------------------------------------------

  /** The three characters of the pattern ' |:|\*': space, colon and asterisk. */
  predicate IsSeparator(c: char) {
    c == ' ' || c == ':' || c == '*'
  }

  predicate NoSeparator(w: string) {
    forall i :: 0 <= i < |w| ==> !IsSeparator(w[i])
  }

  /** The position of the first separator in `s`, or `|s|` when there is none. */
  function SeparatorIndex(s: string): (k: nat)
    ensures k <= |s|
    ensures NoSeparator(s[..k])
    ensures k < |s| ==> IsSeparator(s[k])
  {
    if s == [] || IsSeparator(s[0]) then 0
    else
      var k := 1 + SeparatorIndex(s[1..]);
      assert s[..k] == [s[0]] + s[1..][..k - 1];
      k
  }

  /**
   * `re.split(' |:|\*', s)`: the pieces of `s` between separators. Every
   * separator ends one piece, so consecutive separators (and a separator at
   * either end) produce empty pieces, and there is always at least one piece.
   */
  function Split(s: string): (r: seq<string>)
    ensures |r| >= 1
    ensures forall w :: w in r ==> NoSeparator(w)
    decreases |s|
  {
    var k := SeparatorIndex(s);
    if k == |s| then [s] else [s[..k]] + Split(s[k + 1..])
  }

  /** The separators of `s`, in order. */
  function Separators(s: string): (r: string)
    ensures forall i :: 0 <= i < |r| ==> IsSeparator(r[i])
  {
    if s == [] then []
    else if IsSeparator(s[0]) then [s[0]] + Separators(s[1..])
    else Separators(s[1..])
  }

  /** Puts the pieces back together with the given separators between them. */
  function Join(words: seq<string>, seps: string): string
    requires |words| == |seps| + 1
  {
    if |seps| == 0 then words[0] else words[0] + [seps[0]] + Join(words[1..], seps[1..])
  }

  lemma {:induction false} SeparatorsOfWord(w: string)
    requires NoSeparator(w)
    ensures Separators(w) == []
  {
    if w != [] {
      SeparatorsOfWord(w[1..]);
    }
  }

  lemma {:induction false} SeparatorsAppend(a: string, b: string)
    ensures Separators(a + b) == Separators(a) + Separators(b)
  {
    if a == [] {
      assert a + b == b;
    } else {
      assert (a + b)[0] == a[0];
      assert (a + b)[1..] == a[1..] + b;
      SeparatorsAppend(a[1..], b);
    }
  }

  /** Splitting loses nothing but the separators: the pieces, joined by them, give back `s`. */
  lemma {:induction false} SplitJoin(s: string)
    ensures |Split(s)| == |Separators(s)| + 1
    ensures Join(Split(s), Separators(s)) == s
    decreases |s|
  {
    var k := SeparatorIndex(s);
    if k == |s| {
      assert s[..k] == s;
      SeparatorsOfWord(s);
    } else {
      var w, c, rest := s[..k], s[k], s[k + 1..];
      assert s == w + [c] + rest;
      SplitAtSeparator(w, c, rest);
      SeparatorsAt(w, c, rest);
      SplitJoin(rest);
      var words, seps := [w] + Split(rest), [c] + Separators(rest);
      assert words[1..] == Split(rest) && seps[1..] == Separators(rest);
    }
  }

  lemma SeparatorsAt(w: string, c: char, rest: string)
    requires NoSeparator(w) && IsSeparator(c)
    ensures Separators(w + [c] + rest) == [c] + Separators(rest)
  {
    SeparatorsAppend(w + [c], rest);
    SeparatorsAppend(w, [c]);
    SeparatorsOfWord(w);
    assert Separators([c]) == [c] + Separators([]);
  }

  /** A piece of `s` on its own: `s` holds `w` at `i`, bounded by separators or the ends of `s`. */
  ghost predicate WordAt(s: string, w: string, i: int) {
    0 <= i && i + |w| <= |s| && s[i..i + |w|] == w && NoSeparator(w) &&
    (i == 0 || IsSeparator(s[i - 1])) &&
    (i + |w| == |s| || IsSeparator(s[i + |w|]))
  }

  /** In a text whose first separator is at `|w0|`, the only word starting at 0 is `w0`. */
  lemma WordAtStart(s: string, w0: string, w: string)
    requires NoSeparator(w0) && w0 <= s && (|w0| == |s| || IsSeparator(s[|w0|]))
    ensures WordAt(s, w, 0) <==> w == w0
  {
    if WordAt(s, w, 0) {
      assert w == s[..|w|] == w0;
    }
    if w == w0 {
      assert s[0..|w|] == w0;
    }
  }

  /** No word starts strictly inside the first separator-free run of a text. */
  lemma NoWordInsideRun(s: string, k: nat, w: string, i: int)
    requires k <= |s| && NoSeparator(s[..k]) && 0 < i <= k
    ensures !WordAt(s, w, i)
  {
    assert s[i - 1] == s[..k][i - 1];
  }

  /** Words after the first separator are the words of the remainder, shifted. */
  lemma WordAtShift(s: string, k: nat, w: string, i: int)
    requires k < |s| && IsSeparator(s[k]) && 0 <= i
    ensures WordAt(s[k + 1..], w, i) <==> WordAt(s, w, k + 1 + i)
  {
    var rest := s[k + 1..];
    if i + |w| <= |rest| {
      assert rest[i..i + |w|] == s[k + 1 + i..k + 1 + i + |w|];
      if i > 0 {
        assert rest[i - 1] == s[k + i];
      }
      if i + |w| < |rest| {
        assert rest[i + |w|] == s[k + 1 + i + |w|];
      }
    }
  }

  /** The pieces of `s` are exactly the separator-free runs of `s` delimited by separators or its ends. */
  lemma {:induction false} SplitWords(s: string, w: string)
    ensures w in Split(s) <==> exists i :: WordAt(s, w, i)
    decreases |s|
  {
    var k := SeparatorIndex(s);
    var w0 := s[..k];
    WordAtStart(s, w0, w);
    if k == |s| {
      assert w0 == s;
      if i :| WordAt(s, w, i) {
        if i > 0 {
          NoWordInsideRun(s, k, w, i);
        }
      }
    } else {
      var rest := s[k + 1..];
      assert Split(s) == [w0] + Split(rest);
      SplitWords(rest, w);
      if w in Split(rest) {
        var i :| WordAt(rest, w, i);
        WordAtShift(s, k, w, i);
      }
      if i :| WordAt(s, w, i) {
        if 0 < i <= k {
          NoWordInsideRun(s, k, w, i);
        } else if i > k {
          WordAtShift(s, k, w, i - k - 1);
        }
      }
    }
  }

  /** Splitting a separator-free text gives the text itself. */
  lemma SplitWord(w: string)
    requires NoSeparator(w)
    ensures Split(w) == [w]
  {
    assert w[..SeparatorIndex(w)] == w[..|w|];
  }

  lemma {:induction false} SeparatorIndexAt(w: string, c: char, rest: string)
    requires NoSeparator(w) && IsSeparator(c)
    ensures SeparatorIndex(w + [c] + rest) == |w|
  {
    if w != [] {
      assert (w + [c] + rest)[1..] == w[1..] + [c] + rest;
      SeparatorIndexAt(w[1..], c, rest);
    }
  }

  /** A separator ends the first piece. */
  lemma SplitAtSeparator(w: string, c: char, rest: string)
    requires NoSeparator(w) && IsSeparator(c)
    ensures Split(w + [c] + rest) == [w] + Split(rest)
  {
    var s := w + [c] + rest;
    SeparatorIndexAt(w, c, rest);
    assert s[..|w|] == w;
    assert s[|w| + 1..] == rest;
  }

  // ---------------------------------------------------------------------------
  // Substrings
  // ---------------------------------------------------------------------------

  predicate OccursAt(s: string, p: string, i: int) {
    0 <= i && i + |p| <= |s| && s[i..i + |p|] == p
  }

  /** Python's `p in s` on strings: `p` occurs somewhere in `s`. */
  predicate Contains(s: string, p: string) {
    exists i | 0 <= i <= |s| - |p| :: OccursAt(s, p, i)
  }

  /** A text in which some character of `p` never appears cannot contain `p`. */
  lemma AbsentChar(s: string, p: string, j: nat)
    requires j < |p| && p[j] !in s
    ensures !Contains(s, p)
  {
  }

  /** `Contains` read another way: `p` is a prefix of some suffix of `s`. */
  lemma ContainsIffPrefixOfSuffix(s: string, p: string)
    ensures Contains(s, p) <==> exists i :: 0 <= i <= |s| && p <= s[i..]
  {
    if i :| 0 <= i <= |s| - |p| && OccursAt(s, p, i) {
      assert s[i..][..|p|] == s[i..i + |p|];
      assert p <= s[i..];
    }
    if i :| 0 <= i <= |s| && p <= s[i..] {
      assert s[i..i + |p|] == s[i..][..|p|];
      assert OccursAt(s, p, i);
    }
  }
}
