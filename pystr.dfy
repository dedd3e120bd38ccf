/**
 * Python's `str.strip()`, `str.lower()` and `str.title()` restricted to the
 * ASCII range: characters outside it are neither whitespace nor cased, and
 * every transform leaves them unchanged.
 */
module PyStr {

  /** `str.isspace()` on ASCII: tab, line feed, vertical tab, form feed,
      carriage return, the four separators 0x1C-0x1F, and space. */
  predicate IsSpace(c: char)
  {
    c == ' ' || '\t' <= c <= '\r' || '\U{1C}' <= c <= '\U{1F}'
  }

  predicate IsUpper(c: char) { 'A' <= c <= 'Z' }

  predicate IsLower(c: char) { 'a' <= c <= 'z' }

  /** The cased characters of ASCII. */
  predicate IsLetter(c: char) { IsUpper(c) || IsLower(c) }

  ghost predicate AllSpace(s: string)
  {
    forall i :: 0 <= i < |s| ==> IsSpace(s[i])
  }

  /** Every character of `s` from index `lo` up to `hi` is whitespace. */
  ghost predicate SpaceBetween(s: string, lo: int, hi: int)
  {
    forall k :: lo <= k < hi && 0 <= k < |s| ==> IsSpace(s[k])
  }

  ghost predicate NoUpper(s: string)
  {
    forall i :: 0 <= i < |s| ==> !IsUpper(s[i])
  }

  /** Neither end of `s` is whitespace. */
  ghost predicate Trimmed(s: string)
  {
    s == [] || (!IsSpace(s[0]) && !IsSpace(s[|s| - 1]))
  }

  function LowerChar(c: char): (d: char)
    ensures !IsUpper(d)
    ensures IsLetter(d) == IsLetter(c) && IsSpace(d) == IsSpace(c)
    ensures !IsUpper(c) ==> d == c
  {
    if IsUpper(c) then (c as int - 'A' as int + 'a' as int) as char else c
  }

  function UpperChar(c: char): (d: char)
    ensures !IsLower(d)
    ensures IsLetter(d) == IsLetter(c) && IsSpace(d) == IsSpace(c)
    ensures !IsLower(c) ==> d == c
  {
    if IsLower(c) then (c as int - 'a' as int + 'A' as int) as char else c
  }

  lemma LowerUpperChar(c: char)
    ensures LowerChar(UpperChar(c)) == LowerChar(c)
  {
  }

  lemma UpperLowerChar(c: char)
    ensures UpperChar(LowerChar(c)) == UpperChar(c)
  {
  }

  /** `str.lower()`: every upper-case letter becomes its lower-case
      counterpart and every other character is kept, position by position. */
  function ToLower(s: string): string
  {
    seq(|s|, i requires 0 <= i < |s| => LowerChar(s[i]))
  }

  /** The number of whitespace characters `str.strip()` skips at the start. */
  function LeadingSpaces(s: string): (n: nat)
    ensures n <= |s| && SpaceBetween(s, 0, n)
    ensures n < |s| ==> !IsSpace(s[n])
  {
    if s != [] && IsSpace(s[0]) then 1 + LeadingSpaces(s[1..]) else 0
  }

  /** The number of whitespace characters `str.strip()` drops at the end. */
  function TrailingSpaces(s: string): (n: nat)
    ensures n <= |s| && SpaceBetween(s, |s| - n, |s|)
    ensures n < |s| ==> !IsSpace(s[|s| - 1 - n])
  {
    if s != [] && IsSpace(s[|s| - 1]) then 1 + TrailingSpaces(s[..|s| - 1]) else 0
  }

  /** Leading whitespace removed (the first half of `str.strip()`). */
  function TrimLeft(s: string): string
  {
    s[LeadingSpaces(s)..]
  }

  /** Trailing whitespace removed (the second half of `str.strip()`). */
  function TrimRight(s: string): string
  {
    s[..|s| - TrailingSpaces(s)]
  }

  /** `str.strip()` with no argument. */
  function Strip(s: string): (r: string)
    ensures Trimmed(r)
  {
    var t := TrimLeft(s);
    var n := TrailingSpaces(t);
    assert n < |t| ==> t[0] == s[LeadingSpaces(s)] && t[..|t| - n][|t| - n - 1] == t[|t| - 1 - n];
    TrimRight(t)
  }

  /** `s[i..j]` has only whitespace outside it and does not itself start or
      end with whitespace. */
  ghost predicate StripBounds(s: string, i: int, j: int)
  {
    && 0 <= i <= j <= |s|
    && SpaceBetween(s, 0, i) && SpaceBetween(s, j, |s|)
    && (i < j ==> !IsSpace(s[i]) && !IsSpace(s[j - 1]))
  }

  /** Reference definition of stripping: `r` is a slice of `s` with only
      whitespace outside it, and `r` itself does not start or end with
      whitespace. */
  ghost predicate StrippedFrom(s: string, r: string)
  {
    exists i, j :: StripBounds(s, i, j) && r == s[i..j]
  }

  /** `Strip` meets the reference definition ... */
  lemma StripIsStrippedFrom(s: string)
    ensures StrippedFrom(s, Strip(s))
  {
    var i, j := StripSlice(s);
  }

  /** The bounds of `Strip(s)` inside `s`. */
  lemma StripSlice(s: string) returns (i: int, j: int)
    ensures StripBounds(s, i, j) && Strip(s) == s[i..j]
  {
    i := LeadingSpaces(s);
    var t := s[i..];
    var n := TrailingSpaces(t);
    j := |s| - n;
    assert Strip(s) == t[..|t| - n] == s[i..j];
    forall k | j <= k < |s| ensures IsSpace(s[k]) {
      assert s[k] == t[k - i];
    }
    if i < j {
      assert s[j - 1] == t[|t| - 1 - n];
    }
  }

  /** ... and nothing else does: the reference definition has one solution. */
  lemma {:induction false} StrippedFromIsUnique(s: string, r: string, r': string)
    requires StrippedFrom(s, r) && StrippedFrom(s, r')
    ensures r == r'
  {
    var i, j :| StripBounds(s, i, j) && r == s[i..j];
    var i', j' :| StripBounds(s, i', j') && r' == s[i'..j'];
    StripBoundsUnique(s, i, j, i', j');
  }

  /** Two slices that both meet `StripBounds` are both empty or are the same. */
  lemma StripBoundsUnique(s: string, i: int, j: int, i': int, j': int)
    requires StripBounds(s, i, j) && StripBounds(s, i', j')
    ensures (i == j && i' == j') || (i == i' && j == j')
  {
    if i < j && i' < j' {
      assert !(i < i') by { assert !IsSpace(s[i]); }
      assert !(i' < i) by { assert !IsSpace(s[i']); }
      assert !(j < j') by { assert !IsSpace(s[j' - 1]); }
      assert !(j' < j) by { assert !IsSpace(s[j - 1]); }
    }
  }

  /** `Strip(s)` is exactly the string the reference definition describes. */
  lemma StripCharacterization(s: string, r: string)
    ensures StrippedFrom(s, r) <==> r == Strip(s)
  {
    StripIsStrippedFrom(s);
    if StrippedFrom(s, r) {
      StrippedFromIsUnique(s, r, Strip(s));
    }
  }

  /** A string that is only whitespace strips to the empty string. */
  lemma StripAllSpace(s: string)
    requires AllSpace(s)
    ensures Strip(s) == []
  {
  }

  /** Stripping leaves an already trimmed string alone. */
  lemma StripTrimmed(s: string)
    requires Trimmed(s)
    ensures Strip(s) == s
  {
  }

  /** Lower-casing keeps every whitespace character where it is, so it
      skips as much at either end. */
  lemma {:induction false} LeadingSpacesToLower(s: string)
    ensures LeadingSpaces(ToLower(s)) == LeadingSpaces(s)
  {
    if s != [] {
      assert ToLower(s)[1..] == ToLower(s[1..]);
      LeadingSpacesToLower(s[1..]);
    }
  }

  lemma {:induction false} TrailingSpacesToLower(s: string)
    ensures TrailingSpaces(ToLower(s)) == TrailingSpaces(s)
  {
    if s != [] {
      assert ToLower(s)[..|s| - 1] == ToLower(s[..|s| - 1]);
      TrailingSpacesToLower(s[..|s| - 1]);
    }
  }

  /** Stripping and lower-casing commute. */
  lemma StripToLower(s: string)
    ensures Strip(ToLower(s)) == ToLower(Strip(s))
  {
    TrimLeftToLower(s);
    TrimRightToLower(TrimLeft(s));
  }

  lemma TrimLeftToLower(s: string)
    ensures TrimLeft(ToLower(s)) == ToLower(TrimLeft(s))
  {
    LeadingSpacesToLower(s);
  }

  lemma TrimRightToLower(s: string)
    ensures TrimRight(ToLower(s)) == ToLower(TrimRight(s))
  {
    TrailingSpacesToLower(s);
  }

  /** Lower-casing twice is lower-casing once. */
  lemma ToLowerIdempotent(s: string)
    ensures ToLower(ToLower(s)) == ToLower(s)
  {
  }

  /** A string without upper-case letters is its own lower-case form. */
  lemma ToLowerNoUpper(s: string)
    ensures NoUpper(s) <==> ToLower(s) == s
  {
    if ToLower(s) == s {
      forall i | 0 <= i < |s| ensures !IsUpper(s[i]) {
        assert ToLower(s)[i] == LowerChar(s[i]);
      }
    }
  }

  /** `str.title()`: a letter at the start or after a non-letter is
      upper-cased, every other letter is lower-cased, the rest is kept. */
  function Title(s: string): string
  {
    seq(|s|, i requires 0 <= i < |s| =>
      if i > 0 && IsLetter(s[i - 1]) then LowerChar(s[i]) else UpperChar(s[i]))
  }

  /** CPython's title-casing loop, one character at a time, from a given
      state of its "previous character was cased" flag. */
  function TitleFrom(s: string, prevCased: bool): (r: string)
    ensures |r| == |s|
    ensures forall i :: 0 <= i < |s| ==>
              r[i] == if (if i == 0 then prevCased else IsLetter(s[i - 1])) then LowerChar(s[i]) else UpperChar(s[i])
  {
    if s == [] then []
    else [if prevCased then LowerChar(s[0]) else UpperChar(s[0])] + TitleFrom(s[1..], IsLetter(s[0]))
  }

  /** The loop started with the flag clear computes `Title`. */
  lemma TitleLoop(s: string)
    ensures TitleFrom(s, false) == Title(s)
  {
  }

  /** Title-casing changes at most the case of each character. */
  lemma TitleAt(s: string, i: int)
    requires 0 <= i < |s|
    ensures IsSpace(Title(s)[i]) == IsSpace(s[i])
    ensures LowerChar(Title(s)[i]) == LowerChar(s[i])
  {
    if i > 0 && IsLetter(s[i - 1]) {
      assert Title(s)[i] == LowerChar(s[i]);
    } else {
      assert Title(s)[i] == UpperChar(s[i]);
      LowerUpperChar(s[i]);
    }
  }

  /** Title-casing only changes case: lower-casing the result gives back the
      lower-cased input. */
  lemma TitleToLower(s: string)
    ensures ToLower(Title(s)) == ToLower(s)
  {
    var t := Title(s);
    forall i | 0 <= i < |s| ensures ToLower(t)[i] == ToLower(s)[i] {
      TitleAt(s, i);
    }
  }

  /** Title-casing ignores the case of its input. */
  lemma TitleIgnoresCase(s: string)
    ensures Title(ToLower(s)) == Title(s)
  {
    var l := ToLower(s);
    forall i | 0 <= i < |s| ensures Title(l)[i] == Title(s)[i] {
      UpperLowerChar(s[i]);
      assert LowerChar(LowerChar(s[i])) == LowerChar(s[i]);
      if i > 0 {
        assert l[i - 1] == LowerChar(s[i - 1]);
      }
    }
  }

  /** Title-casing keeps whitespace where it is, so a trimmed string stays
      trimmed. */
  lemma TitleTrimmed(s: string)
    requires Trimmed(s)
    ensures Trimmed(Title(s))
  {
    if s != [] {
      TitleAt(s, 0);
      TitleAt(s, |s| - 1);
    }
  }

  /** Lower-casing keeps a trimmed string trimmed. */
  lemma ToLowerTrimmed(s: string)
    requires Trimmed(s)
    ensures Trimmed(ToLower(s))
  {
    if s != [] {
      assert ToLower(s)[0] == LowerChar(s[0]);
      assert ToLower(s)[|s| - 1] == LowerChar(s[|s| - 1]);
    }
  }

  /** Whitespace added around `s` keeps the stripped form. */
  lemma StrippedFromPadded(pre: string, s: string, post: string, r: string)
    requires AllSpace(pre) && AllSpace(post) && StrippedFrom(s, r)
    ensures StrippedFrom(pre + s + post, r)
  {
    var t := pre + s + post;
    var i, j :| StripBounds(s, i, j) && r == s[i..j];
    var i', j' := |pre| + i, |pre| + j;
    assert r == t[i'..j'];
    assert StripBounds(t, i', j') by {
      forall k | 0 <= k < i' ensures IsSpace(t[k]) {
        if k < |pre| { assert t[k] == pre[k]; } else { assert t[k] == s[k - |pre|]; }
      }
      forall k | j' <= k < |t| ensures IsSpace(t[k]) {
        if k < |pre| + |s| { assert t[k] == s[k - |pre|]; } else { assert t[k] == post[k - |pre| - |s|]; }
      }
    }
  }
}
