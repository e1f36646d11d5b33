/** `makeSearchable` (src/StringSearch.py:1-3 and StringSearch.py:1-3): the
    normal form of every song, folder and macro name and of every query term. */
module Normalize {
  import opened Strings

  const Letters: set<char> := set c: char | 'a' <= c <= 'z'
  const Digits: set<char> := set c: char | '0' <= c <= '9'

  /** `searchableChars` of StringSearch.py: letters, digits and space. */
  const LegacyChars: set<char> := Letters + Digits + {' '}

  /** `searchableChars` of src/StringSearch.py: the legacy set plus `_`, `-` and `&`. */
  const CurrentChars: set<char> := LegacyChars + {'_', '-', '&'}

  /** Neither alphabet holds an upper-case letter or whitespace other than space. */
  predicate IsAlphabet(chars: set<char>) {
    forall c :: c in chars ==> !('A' <= c <= 'Z') && (IsSpace(c) ==> c == ' ')
  }

  lemma AlphabetsAreAlphabets()
    ensures IsAlphabet(LegacyChars) && IsAlphabet(CurrentChars)
    ensures LegacyChars <= CurrentChars
  {
  }

  /** `makeSearchable(name)`: strip, lower-case, then keep only `chars`. */
  function MakeSearchable(name: string, chars: set<char>): (r: string)
    ensures AllIn(r, chars)
  {
    Filter(Lower(Strip(name)), chars)
  }

  lemma {:induction false} FilterIsSubsequence(s: string, keep: set<char>)
    ensures IsSubsequence(Filter(s, keep), s)
  {
    if s != [] {
      FilterIsSubsequence(s[1..], keep);
      var rest := Filter(s[1..], keep);
      if s[0] in keep {
        assert Filter(s, keep) == [s[0]] + rest;
        assert ([s[0]] + rest)[1..] == rest;
      } else {
        assert Filter(s, keep) == rest;
        SubsequenceOfTail(rest, s);
      }
    }
  }

  lemma {:induction false} SubsequenceOfTail(sub: string, s: string)
    requires s != [] && IsSubsequence(sub, s[1..])
    ensures IsSubsequence(sub, s)
    decreases |s|, 0
  {
    if sub != [] && sub[0] == s[0] {
      // the greedy match takes s[0]; what is left of sub is a subsequence of s[1..]
      SubsequenceDropHead(sub, s[1..]);
    }
  }

  lemma {:induction false} SubsequenceDropHead(sub: string, s: string)
    requires sub != [] && IsSubsequence(sub, s)
    ensures IsSubsequence(sub[1..], s)
    decreases |s|, 1
  {
    if sub[0] == s[0] {
      if sub[1..] != [] {
        SubsequenceOfTail(sub[1..], s);
      }
    } else {
      SubsequenceDropHead(sub, s[1..]);
      SubsequenceOfTail(sub[1..], s);
    }
  }

  /** The normal form keeps characters of the stripped, lower-cased name, in order. */
  lemma SearchableIsSubsequence(name: string, chars: set<char>)
    ensures IsSubsequence(MakeSearchable(name, chars), Lower(Strip(name)))
  {
    FilterIsSubsequence(Lower(Strip(name)), chars);
  }

  lemma {:induction false} FilterKeepsAllowed(s: string, keep: set<char>)
    requires AllIn(s, keep)
    ensures Filter(s, keep) == s
  {
    if s != [] {
      FilterKeepsAllowed(s[1..], keep);
    }
  }

  lemma {:induction false} FilterTwice(s: string, a: set<char>, b: set<char>)
    requires b <= a
    ensures Filter(Filter(s, a), b) == Filter(s, b)
  {
    if s != [] {
      FilterTwice(s[1..], a, b);
      var rest := Filter(s[1..], a);
      if s[0] in a {
        assert Filter(s, a) == [s[0]] + rest;
        assert ([s[0]] + rest)[1..] == rest;
        assert Filter([s[0]] + rest, b) == (if s[0] in b then [s[0]] else []) + Filter(rest, b);
      } else {
        assert Filter(s, a) == rest;
        assert Filter(s, b) == Filter(s[1..], b);
      }
    }
  }

  /** A clean name: allowed characters only and no space at either end. */
  predicate IsClean(s: string, chars: set<char>) {
    AllIn(s, chars) && (s == [] || (s[0] != ' ' && s[|s| - 1] != ' '))
  }

  /** Normalising a clean name leaves it unchanged. */
  lemma CleanIsFixed(s: string, chars: set<char>)
    requires IsAlphabet(chars) && IsClean(s, chars)
    ensures MakeSearchable(s, chars) == s
  {
    assert TrimStart(s) == s;
    assert TrimEnd(s) == s;
    assert Lower(s) == s;
    FilterKeepsAllowed(s, chars);
  }

  /** Normalisation is idempotent on a result that does not start or end with a space;
      stripping runs before filtering, so removed characters can expose a space. */
  lemma IdempotentWhenEndsAreClean(name: string, chars: set<char>)
    requires IsAlphabet(chars)
    requires var r := MakeSearchable(name, chars); r == [] || (r[0] != ' ' && r[|r| - 1] != ' ')
    ensures MakeSearchable(MakeSearchable(name, chars), chars) == MakeSearchable(name, chars)
  {
    CleanIsFixed(MakeSearchable(name, chars), chars);
  }

  /** "! a" normalises to " a", which normalises again to "a". */
  lemma NotIdempotent()
    ensures MakeSearchable("! a", CurrentChars) == " a"
    ensures MakeSearchable(" a", CurrentChars) == "a"
  {
    BangSpaceA();
    SpaceA();
  }

  lemma BangSpaceA()
    ensures MakeSearchable("! a", CurrentChars) == " a"
  {
    BangSpaceAIsClean();
    BangSpaceAFiltered();
  }

  /** Stripping and lower-casing leave "! a" as it is. */
  lemma BangSpaceAIsClean()
    ensures Lower(Strip("! a")) == "! a"
  {
    var s := "! a";
    assert !IsSpace(s[0]) && !IsSpace(s[|s| - 1]);
    assert TrimStart(s) == s && TrimEnd(s) == s;
    assert LowerChar('!') == '!' && LowerChar(' ') == ' ' && LowerChar('a') == 'a';
  }

  /** Filtering "! a" drops only the `!`. */
  lemma BangSpaceAFiltered()
    ensures Filter("! a", CurrentChars) == " a"
  {
    assert '!' !in CurrentChars && ' ' in CurrentChars && 'a' in CurrentChars;
    FilterCons('a', [], CurrentChars);
    FilterCons(' ', "a", CurrentChars);
    FilterCons('!', " a", CurrentChars);
    assert "! a" == ['!'] + ([' '] + (['a'] + []));
  }

  lemma SpaceA()
    ensures MakeSearchable(" a", CurrentChars) == "a"
  {
    SpaceAStripped();
    assert Lower("a") == "a" by { assert LowerChar('a') == 'a'; }
    assert 'a' in CurrentChars;
    FilterCons('a', [], CurrentChars);
    assert "a" == ['a'] + [];
  }

  /** Stripping " a" removes the leading space. */
  lemma SpaceAStripped()
    ensures Strip(" a") == "a"
  {
    var s := " a";
    var a := s[1..];
    assert a == "a" && IsSpace(s[0]) && !IsSpace(a[0]);
    assert TrimStart(a) == a;
    assert TrimStart(s) == a;
    assert TrimEnd(a) == a;
  }

  /** Filtering a text that starts with `c`. */
  lemma FilterCons(c: char, s: string, keep: set<char>)
    ensures Filter([c] + s, keep) == (if c in keep then [c] else []) + Filter(s, keep)
  {
    assert ([c] + s)[1..] == s;
  }

  /** The legacy normal form is the current one with `_`, `-` and `&` removed. */
  lemma LegacyFromCurrent(name: string)
    ensures MakeSearchable(name, LegacyChars) == Filter(MakeSearchable(name, CurrentChars), LegacyChars)
  {
    FilterTwice(Lower(Strip(name)), CurrentChars, LegacyChars);
  }
}
