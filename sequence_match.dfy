/** The two recursive acronym matchers of src/StringSearch.py:79-120, which
    StringSearch.py:86-127 repeats character for character. Both walk `s` (an item's
    searchable name) and `term` together: a term character either matches the next
    character of `s`, or the match jumps to the start of the next word of `s`. */
module SequenceMatch {
  import opened Strings

  /** `containsContinuousPrefixedSequence(string, term, spaces)`. A jump to the next
      word raises `spaces`; two jumps in a row fail. Both the matched-character step
      and the space-in-term step call back with the default `spaces=0`. Whatever it
      accepts, the unrestricted matcher below accepts too. */
  predicate ContainsContinuousPrefixedSequence(s: string, term: string, spaces: nat)
    ensures ContainsContinuousPrefixedSequence(s, term, spaces) ==> ContainsPrefixedSequence(s, term)
    decreases |s| + |term|
  {
    if spaces > 1 then false
    else if |term| > |s| then false
    else if |term| == 0 then true
    else if term[0] == ' ' then ContainsContinuousPrefixedSequence(AfterFirstSpace(s), term[1..], 0)
    else if term[0] == s[0] && ContainsContinuousPrefixedSequence(s[1..], term[1..], 0) then true
    else if Find(s, ' ') >= 0 then ContainsContinuousPrefixedSequence(AfterFirstSpace(s), term, spaces + 1)
    else false
  }

  /** `containsPrefixedSequence(string, term)`: the same walk with any number of jumps.
      It accepts every prefix of `s`. */
  predicate ContainsPrefixedSequence(s: string, term: string)
    ensures IsPrefix(term, s) ==> ContainsPrefixedSequence(s, term)
    decreases |s| + |term|
  {
    if |term| > |s| then false
    else if |term| == 0 then true
    else if term[0] == ' ' then
      assert IsPrefix(term, s) ==> s[0] == ' ' && s[..1] == [' '] && AfterFirstSpace(s) == s[1..];
      assert IsPrefix(term, s) ==> IsPrefix(term[1..], s[1..]);
      ContainsPrefixedSequence(AfterFirstSpace(s), term[1..])
    else if term[0] == s[0] && ContainsPrefixedSequence(s[1..], term[1..]) then true
    else if Find(s, ' ') >= 0 then ContainsPrefixedSequence(AfterFirstSpace(s), term)
    else false
  }

  /** Both matchers accept the empty term (the continuous one while fewer than two jumps
      were made), reject a term longer than the text, and accept every prefix of it. */
  lemma {:induction false} PrefixAccepted(s: string, term: string, spaces: nat)
    requires spaces <= 1
    ensures ContainsContinuousPrefixedSequence(s, [], spaces) && ContainsPrefixedSequence(s, [])
    ensures |term| > |s| ==> !ContainsContinuousPrefixedSequence(s, term, spaces) && !ContainsPrefixedSequence(s, term)
    ensures IsPrefix(term, s) ==> ContainsContinuousPrefixedSequence(s, term, spaces) && ContainsPrefixedSequence(s, term)
    decreases |term|
  {
    if IsPrefix(term, s) && term != [] {
      assert s[0] == term[0];
      assert IsPrefix(term[1..], s[1..]) by {
        assert s[1..][..|term| - 1] == term[1..];
      }
      if term[0] == ' ' {
        FindAt(s, ' ', 0);
        assert AfterFirstSpace(s) == s[1..];
      }
      PrefixAccepted(s[1..], term[1..], 0);
    }
  }

  /** As stringSearch calls it (`spaces=1`), the continuous matcher cannot jump before
      the first character: a term that starts with a letter must match `s[0]`. */
  lemma FirstCharacterAnchored(s: string, term: string)
    requires ContainsContinuousPrefixedSequence(s, term, 1)
    requires term != [] && term[0] != ' '
    ensures s != [] && term[0] == s[0]
    ensures ContainsContinuousPrefixedSequence(s[1..], term[1..], 0)
  {
  }

  /** Between two matched characters the continuous matcher skips at most one word:
      the next character matches either right here or at the start of the next word. */
  lemma AtMostOneSkip(s: string, term: string)
    requires ContainsContinuousPrefixedSequence(s, term, 0)
    requires term != [] && term[0] != ' '
    ensures (s != [] && term[0] == s[0] && ContainsContinuousPrefixedSequence(s[1..], term[1..], 0))
         || (var rest := AfterFirstSpace(s);
             ' ' in s && rest != [] && term[0] == rest[0] && ContainsContinuousPrefixedSequence(rest[1..], term[1..], 0))
  {
    if !(term[0] == s[0] && ContainsContinuousPrefixedSequence(s[1..], term[1..], 0)) {
      FirstCharacterAnchored(AfterFirstSpace(s), term);
    }
  }

  /** "tw" is found in "the wind" by both matchers. */
  lemma TheWind()
    ensures ContainsContinuousPrefixedSequence("the wind", "tw", 1)
    ensures ContainsPrefixedSequence("the wind", "tw")
  {
    HeWindFindsW();
    assert "the wind"[1..] == "he wind" && "tw"[1..] == "w";
  }

  lemma HeWindFindsW()
    ensures ContainsContinuousPrefixedSequence("he wind", "w", 0)
  {
    assert AfterFirstSpace("he wind") == "wind" by {
      assert "he wind"[..2] == "he";
      FindAt("he wind", ' ', 2);
    }
    assert "w"[1..] == [];
    PrefixAccepted("wind"[1..], [], 0);
    assert ContainsContinuousPrefixedSequence("wind", "w", 1);
  }

  /** "tc" against "the big cat" needs two jumps: the continuous matcher refuses,
      the unrestricted one accepts. */
  lemma TheBigCat()
    ensures !ContainsContinuousPrefixedSequence("the big cat", "tc", 1)
    ensures ContainsPrefixedSequence("the big cat", "tc")
  {
    BigCatJumps();
    TheBigCatRefused();
    TheBigCatAccepted();
  }

  /** Where the jumps to the next word land in "the big cat". */
  lemma BigCatJumps()
    ensures "the big cat"[1..] == "he big cat" && "big cat"[1..] == "ig cat" && "cat"[1..] == "at"
    ensures AfterFirstSpace("he big cat") == "big cat" && Find("he big cat", ' ') == 2
    ensures AfterFirstSpace("big cat") == "cat" && Find("big cat", ' ') == 3
    ensures AfterFirstSpace("the big cat") == "big cat" && Find("the big cat", ' ') == 3
  {
    BigCatTails();
    HeBigCatJump();
    BigCatJump();
    TheBigCatJump();
  }

  lemma BigCatTails()
    ensures "the big cat"[1..] == "he big cat" && "big cat"[1..] == "ig cat" && "cat"[1..] == "at"
  {
  }

  lemma HeBigCatJump()
    ensures AfterFirstSpace("he big cat") == "big cat" && Find("he big cat", ' ') == 2
  {
    assert "he big cat"[..2] == "he";
    FindAt("he big cat", ' ', 2);
  }

  lemma BigCatJump()
    ensures AfterFirstSpace("big cat") == "cat" && Find("big cat", ' ') == 3
  {
    assert "big cat"[..3] == "big";
    FindAt("big cat", ' ', 3);
  }

  lemma TheBigCatJump()
    ensures AfterFirstSpace("the big cat") == "big cat" && Find("the big cat", ' ') == 3
  {
    assert "the big cat"[..3] == "the";
    FindAt("the big cat", ' ', 3);
  }

  lemma TheBigCatRefused()
    requires AfterFirstSpace("he big cat") == "big cat" && Find("he big cat", ' ') == 2
    requires AfterFirstSpace("big cat") == "cat" && Find("big cat", ' ') == 3
    requires AfterFirstSpace("the big cat") == "big cat" && Find("the big cat", ' ') == 3
    requires "the big cat"[1..] == "he big cat"
    ensures !ContainsContinuousPrefixedSequence("the big cat", "tc", 1)
  {
    assert "tc"[1..] == "c";
    HeBigCatRefusesC();
    assert !ContainsContinuousPrefixedSequence("big cat", "tc", 2);
  }

  lemma BigCatRefusesC()
    requires AfterFirstSpace("big cat") == "cat" && Find("big cat", ' ') == 3
    ensures !ContainsContinuousPrefixedSequence("big cat", "c", 1)
  {
    assert !ContainsContinuousPrefixedSequence("cat", "c", 2);
  }

  lemma HeBigCatRefusesC()
    requires AfterFirstSpace("he big cat") == "big cat" && Find("he big cat", ' ') == 2
    requires AfterFirstSpace("big cat") == "cat" && Find("big cat", ' ') == 3
    ensures !ContainsContinuousPrefixedSequence("he big cat", "c", 0)
  {
    BigCatRefusesC();
  }

  lemma TheBigCatAccepted()
    requires AfterFirstSpace("he big cat") == "big cat" && Find("he big cat", ' ') == 2
    requires AfterFirstSpace("big cat") == "cat" && Find("big cat", ' ') == 3
    requires "the big cat"[1..] == "he big cat" && "big cat"[1..] == "ig cat" && "cat"[1..] == "at"
    ensures ContainsPrefixedSequence("the big cat", "tc")
  {
    assert "tc"[1..] == "c" && "c"[1..] == [];
    assert ContainsPrefixedSequence("at", []);
    assert ContainsPrefixedSequence("cat", "c");
    assert ContainsPrefixedSequence("big cat", "c");
    assert ContainsPrefixedSequence("he big cat", "c");
  }
}
