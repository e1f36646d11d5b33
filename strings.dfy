/** Python string primitives that the query engine relies on, over ASCII text:
    `str.strip`, `str.lower`, `str.split(sep)`, `str.find`, `str.startswith`,
    the `in` substring test and `str.replace(c, '')`. */
module Strings {

  datatype Option<T> = None | Some(value: T)

  /** The characters `str.isspace()` accepts in the ASCII range: space, tab,
      line feed, vertical tab, form feed, carriage return and the separators 28-31. */
  predicate IsSpace(c: char) {
    c == ' ' || 9 <= c as int <= 13 || 28 <= c as int <= 31
  }

  function TrimStart(s: string): (r: string)
    ensures |r| <= |s| && r == s[|s| - |r|..]
    ensures r == [] || !IsSpace(r[0])
    ensures forall k :: 0 <= k < |s| - |r| ==> IsSpace(s[k])
  {
    if s != [] && IsSpace(s[0]) then TrimStart(s[1..]) else s
  }

  function TrimEnd(s: string): (r: string)
    ensures |r| <= |s| && r == s[..|r|]
    ensures r == [] || !IsSpace(r[|r| - 1])
    ensures forall k :: |r| <= k < |s| ==> IsSpace(s[k])
  {
    if s != [] && IsSpace(s[|s| - 1]) then TrimEnd(s[..|s| - 1]) else s
  }

  /** `r` is `s[a..b]` and only whitespace lies outside that slice. */
  predicate SliceBetweenSpaces(s: string, r: string, a: int, b: int) {
    0 <= a <= b <= |s| && r == s[a..b]
    && (forall k :: 0 <= k < a ==> IsSpace(s[k])) && (forall k :: b <= k < |s| ==> IsSpace(s[k]))
  }

  /** `s.strip()`: the slice of `s` left once the whitespace at both ends is cut, with
      no whitespace at either end. */
  function Strip(s: string): (r: string)
    ensures |r| <= |s|
    ensures r == [] || (!IsSpace(r[0]) && !IsSpace(r[|r| - 1]))
    ensures forall c :: c in r ==> c in s
    ensures exists a, b :: SliceBetweenSpaces(s, r, a, b)
  {
    var t := TrimStart(s);
    TrimmedSlice(s, t, TrimEnd(t));
    TrimEnd(t)
  }

  /** Where the two trims leave `Strip`'s result inside `s`. */
  lemma TrimmedSlice(s: string, t: string, r: string)
    requires t == TrimStart(s) && r == TrimEnd(t)
    ensures SliceBetweenSpaces(s, r, |s| - |t|, |s| - |t| + |r|)
  {
    PrefixOfSuffix(s, t, r);
  }

  /** A prefix `r` of the suffix `t` of `s`, between runs of whitespace. */
  lemma PrefixOfSuffix(s: string, t: string, r: string)
    requires |t| <= |s| && t == s[|s| - |t|..] && |r| <= |t| && r == t[..|r|]
    requires forall k :: 0 <= k < |s| - |t| ==> IsSpace(s[k])
    requires forall k :: |r| <= k < |t| ==> IsSpace(t[k])
    ensures SliceBetweenSpaces(s, r, |s| - |t|, |s| - |t| + |r|)
  {
    var a := |s| - |t|;
    assert r == s[a..a + |r|];
    forall k | a + |r| <= k < |s|
      ensures IsSpace(s[k])
    {
      assert s[k] == t[k - a];
    }
  }

  function LowerChar(c: char): char {
    if 'A' <= c <= 'Z' then (c as int + 32) as char else c
  }

  /** `s.lower()` restricted to ASCII. */
  function Lower(s: string): (r: string)
    ensures |r| == |s|
    ensures forall i :: 0 <= i < |s| ==> r[i] == LowerChar(s[i])
  {
    seq(|s|, i requires 0 <= i < |s| => LowerChar(s[i]))
  }

  /** `"".join(filter(lambda c: c in keep, s))`. */
  function Filter(s: string, keep: set<char>): (r: string)
    ensures |r| <= |s|
    ensures forall c :: c in r ==> c in keep && c in s
  {
    if s == [] then [] else (if s[0] in keep then [s[0]] else []) + Filter(s[1..], keep)
  }

  /** `s.replace(c, "")`. */
  function RemoveChar(s: string, c: char): (r: string)
    ensures c !in r
    ensures forall d :: d in r ==> d in s
  {
    if s == [] then [] else (if s[0] == c then [] else [s[0]]) + RemoveChar(s[1..], c)
  }

  /** The first position of `c` in `s`, which must occur. */
  function IndexOf(s: string, c: char): (i: nat)
    requires c in s
    ensures i < |s| && s[i] == c && c !in s[..i]
  {
    if s[0] == c then 0 else IndexOf(s[1..], c) + 1
  }

  /** `s.find(c)`: the first position of `c`, or -1. */
  function Find(s: string, c: char): (i: int)
    ensures i == -1 <==> c !in s
    ensures i != -1 ==> 0 <= i < |s| && s[i] == c && c !in s[..i]
  {
    if c in s then IndexOf(s, c) else -1
  }

  /** `find` answers the position of the first occurrence, wherever that is. */
  lemma FindAt(s: string, c: char, i: nat)
    requires i < |s| && s[i] == c && c !in s[..i]
    ensures Find(s, c) == i
  {
    assert s[i] in s;
  }

  /** `s[s.find(' ') + 1:]`: the text after the first space, or all of `s`
      when it has none (Python slices from index 0 when find returns -1). */
  function AfterFirstSpace(s: string): (r: string)
    ensures ' ' in s ==> |r| < |s|
    ensures ' ' !in s ==> r == s
  {
    s[Find(s, ' ') + 1..]
  }

  /** `s.startswith(p)`. */
  predicate IsPrefix<T(==)>(p: seq<T>, s: seq<T>) {
    |p| <= |s| && s[..|p|] == p
  }

  /** `t in s` for two strings. */
  predicate IsSubstring(t: string, s: string)
    decreases |s|
  {
    IsPrefix(t, s) || (s != [] && IsSubstring(t, s[1..]))
  }

  /** `s.split(sep)`: the pieces between occurrences of `sep`, empty pieces kept. */
  function Split(s: string, sep: char): (parts: seq<string>)
    ensures |parts| >= 1
    ensures forall k :: 0 <= k < |parts| ==> sep !in parts[k]
    decreases |s|
  {
    if sep !in s then [s]
    else
      var i := IndexOf(s, sep);
      [s[..i]] + Split(s[i + 1..], sep)
  }

  /** `sep.join(parts)`. */
  function Join(parts: seq<string>, sep: char): string {
    if |parts| <= 1 then (if parts == [] then [] else parts[0])
    else parts[0] + [sep] + Join(parts[1..], sep)
  }

  /** Splitting and joining on the same separator gives the text back. */
  lemma {:induction false} JoinSplit(s: string, sep: char)
    ensures Join(Split(s, sep), sep) == s
    decreases |s|
  {
    if sep in s {
      var i := IndexOf(s, sep);
      var rest := Split(s[i + 1..], sep);
      JoinSplit(s[i + 1..], sep);
      assert Split(s, sep) == [s[..i]] + rest;
      assert ([s[..i]] + rest)[1..] == rest;
      assert s == s[..i] + [sep] + s[i + 1..];
    }
  }

  /** `filter(len, parts)`: the non-empty pieces, in order. */
  function NonEmpty(parts: seq<string>): (r: seq<string>)
    ensures forall k :: 0 <= k < |r| ==> r[k] != [] && r[k] in parts
  {
    if parts == [] then []
    else (if parts[0] != [] then [parts[0]] else []) + NonEmpty(parts[1..])
  }

  /** `filter(len, parts)` drops no non-empty piece. */
  lemma {:induction false} NonEmptyKeepsPieces(parts: seq<string>, p: string)
    requires p in parts && p != []
    ensures p in NonEmpty(parts)
  {
    if parts[0] != p {
      assert p in parts[1..];
      NonEmptyKeepsPieces(parts[1..], p);
    }
  }

  /** Splitting leaves no non-empty piece exactly when the text is made of separators only. */
  lemma {:induction false} NoPiecesIffOnlySeparators(s: string, sep: char)
    ensures NonEmpty(Split(s, sep)) == [] <==> forall k :: 0 <= k < |s| ==> s[k] == sep
  {
    if forall k :: 0 <= k < |s| ==> s[k] == sep {
      OnlySeparatorsNoPieces(s, sep);
    } else {
      var k :| 0 <= k < |s| && s[k] != sep;
      OtherCharSomePiece(s, sep, k);
    }
  }

  /** A text of separators only splits into empty pieces only. */
  lemma {:induction false} OnlySeparatorsNoPieces(s: string, sep: char)
    requires forall k :: 0 <= k < |s| ==> s[k] == sep
    ensures NonEmpty(Split(s, sep)) == []
    decreases |s|
  {
    if s != [] {
      assert s[0] in s;
      var i := IndexOf(s, sep);
      assert i == 0 by { assert s[0] == sep; }
      var t := s[1..];
      assert forall k :: 0 <= k < |t| ==> t[k] == s[k + 1];
      OnlySeparatorsNoPieces(t, sep);
      NonEmptySplitStep(s, sep);
    }
  }

  /** A text holding a character other than the separator keeps a non-empty piece. */
  lemma {:induction false} OtherCharSomePiece(s: string, sep: char, k: nat)
    requires k < |s| && s[k] != sep
    ensures NonEmpty(Split(s, sep)) != []
    decreases |s|
  {
    if sep in s {
      var i := IndexOf(s, sep);
      NonEmptySplitStep(s, sep);
      if i == 0 {
        var t := s[1..];
        assert t[k - 1] == s[k];
        OtherCharSomePiece(t, sep, k - 1);
      }
    } else {
      assert Split(s, sep) == [s];
      assert NonEmpty([s]) == [s] + NonEmpty([s][1..]);
    }
  }

  /** The non-empty pieces of a text holding `sep`: the piece before the first `sep`,
      when not empty, then those of the rest. */
  lemma NonEmptySplitStep(s: string, sep: char)
    requires sep in s
    ensures var i := IndexOf(s, sep);
      NonEmpty(Split(s, sep)) == (if i > 0 then [s[..i]] else []) + NonEmpty(Split(s[i + 1..], sep))
  {
    var i := IndexOf(s, sep);
    var p := Split(s, sep);
    assert p == [s[..i]] + Split(s[i + 1..], sep);
    assert p[0] == s[..i] && p[1..] == Split(s[i + 1..], sep);
    assert |s[..i]| == i;
  }

  /** `filter(len, (p.strip() for p in s.split(sep)))`: the stripped, non-empty
      segments of `s` between separators, in order. */
  function Segments(s: string, sep: char): (r: seq<string>)
    ensures forall k :: 0 <= k < |r| ==> r[k] != [] && sep !in r[k]
  {
    StrippedAvoids(Split(s, sep), sep);
    StrippedNonEmpty(Split(s, sep))
  }

  function StrippedNonEmpty(parts: seq<string>): (r: seq<string>)
    ensures forall k :: 0 <= k < |r| ==> r[k] != []
  {
    if parts == [] then []
    else (if Strip(parts[0]) != [] then [Strip(parts[0])] else []) + StrippedNonEmpty(parts[1..])
  }

  /** Stripping adds no character: a separator absent from every piece is absent
      from every segment. */
  lemma {:induction false} StrippedAvoids(parts: seq<string>, sep: char)
    requires forall k :: 0 <= k < |parts| ==> sep !in parts[k]
    ensures forall k :: 0 <= k < |StrippedNonEmpty(parts)| ==> sep !in StrippedNonEmpty(parts)[k]
  {
    if parts != [] {
      StrippedAvoids(parts[1..], sep);
      assert sep !in parts[0];
    }
  }

  /** The stripped segments drop no piece that is not blank. */
  lemma {:induction false} StrippedNonEmptyKeepsPieces(parts: seq<string>, j: nat)
    requires j < |parts| && Strip(parts[j]) != []
    ensures Strip(parts[j]) in StrippedNonEmpty(parts)
  {
    if j > 0 {
      StrippedNonEmptyKeepsPieces(parts[1..], j - 1);
      assert parts[1..][j - 1] == parts[j];
    }
  }

  /** Every character of `s` lies in `chars`. */
  predicate AllIn(s: string, chars: set<char>) {
    forall k :: 0 <= k < |s| ==> s[k] in chars
  }

  /** `sub` is a (not necessarily contiguous) subsequence of `s`. */
  predicate IsSubsequence(sub: string, s: string)
    decreases |s|
  {
    sub == [] || (s != [] && (if sub[0] == s[0] then IsSubsequence(sub[1..], s[1..]) else IsSubsequence(sub, s[1..])))
  }
}
