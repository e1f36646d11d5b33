/** `stringSearch` (src/StringSearch.py:5-77, and its five-tier predecessor
    StringSearch.py:5-63): rank the positions of a pool of searchable names against a
    term. Each name lands in at most one tier, the first whose test it passes; every
    tier but the exact one stops accepting once it holds more than `limit` entries; the
    result is the tiers concatenated in order and cut to `limit`. */
module Matcher {
  import opened Strings
  import opened SequenceMatch

  /** The two generations of the program: `Legacy` is StringSearch.py with Radium.py
      (version 2.0), `Current` is src/StringSearch.py with src/Radium2.py (version 3.0).
      The legacy matcher is the current one without the two word tiers. */
  datatype Generation = Legacy | Current

  const ExactTier: nat := 0
  const FirstWordTier: nat := 1
  const WordTier: nat := 2
  const PrefixedTier: nat := 3
  const ContinuousTier: nat := 4
  const SequenceTier: nat := 5
  const ContainedTier: nat := 6
  const TierCount: nat := 7

  /** The seven lists `foundExact` ... `foundContained`, by tier number. */
  type Tiers = seq<seq<nat>>

  /** `spaceAccounting`: the item without its spaces when the term has none. */
  function SpaceAccounting(term: string, item: string): string {
    if ' ' !in term then RemoveChar(item, ' ') else item
  }

  /** The first-word and word tiers exist only in the current generation, and only for
      a space-free term against an item of more than one word. */
  predicate WordTiersApply(term: string, item: string, gen: Generation) {
    gen == Current && ' ' !in term && |Split(item, ' ')| > 1
  }

  /** What the loop body's tests say about one item, in the order it asks them:
      exact, first word, later word, prefixed, continuous sequence, sequence,
      contained. `wordTiers` tells whether the two word tests are asked at all. */
  datatype Verdict = Verdict(exact: bool, wordTiers: bool, firstWord: bool, word: bool,
                             prefixed: bool, continuous: bool, sequence: bool, contained: bool)

  /** The tests of the loop body applied to `item`. */
  function Examine(term: string, item: string, gen: Generation): Verdict {
    var sa := SpaceAccounting(term, item);
    var words := Split(item, ' ');
    var wordTiers := WordTiersApply(term, item, gen);
    Verdict(sa == term, wordTiers,
            wordTiers && words[0] == term, wordTiers && term in words[1..],
            IsPrefix(term, sa), ContainsContinuousPrefixedSequence(item, term, 1),
            ContainsPrefixedSequence(item, term), IsSubstring(term, sa))
  }

  /** `vs` holds the verdict on each item of `pool`, by position. The quantifier is
      instantiated only where a proof names the tests on an item. */
  predicate VerdictsOf(vs: seq<Verdict>, term: string, pool: seq<string>, gen: Generation) {
    |vs| == |pool| && forall i {:trigger Examine(term, pool[i], gen)} :: 0 <= i < |pool| ==> vs[i] == Examine(term, pool[i], gen)
  }

  lemma VerdictsExist(term: string, pool: seq<string>, gen: Generation)
    ensures exists vs :: VerdictsOf(vs, term, pool, gen)
  {
    var vs := seq(|pool|, i requires 0 <= i < |pool| => Examine(term, pool[i], gen));
    assert VerdictsOf(vs, term, pool, gen);
  }

  /** The verdicts on every item of the pool, by position: the one sequence of which
      `VerdictsOf` holds. */
  ghost function Judge(term: string, pool: seq<string>, gen: Generation): (vs: seq<Verdict>)
    ensures VerdictsOf(vs, term, pool, gen)
  {
    VerdictsExist(term, pool, gen);
    var vs :| VerdictsOf(vs, term, pool, gen);
    vs
  }

  /** The verdict `Judge` holds on one item. */
  lemma JudgeAt(term: string, pool: seq<string>, gen: Generation, i: nat)
    requires i < |pool|
    ensures Judge(term, pool, gen)[i] == Examine(term, pool[i], gen)
  {
  }

  /** Whether the loop checks tier `k`'s cap for an item at all. */
  predicate CapChecked(k: nat, v: Verdict) {
    k >= PrefixedTier || v.wordTiers
  }

  /** The tier an item deserves when no tier is full: the first test it passes. */
  function Rank(v: Verdict): (r: Option<nat>)
    ensures r.Some? ==> r.value < TierCount
    ensures r.Some? && (r.value == FirstWordTier || r.value == WordTier) ==> v.wordTiers
  {
    if v.exact then Some(ExactTier)
    else if v.wordTiers && v.firstWord then Some(FirstWordTier)
    else if v.wordTiers && v.word then Some(WordTier)
    else if v.prefixed then Some(PrefixedTier)
    else if v.continuous then Some(ContinuousTier)
    else if v.sequence then Some(SequenceTier)
    else if v.contained then Some(ContainedTier)
    else None
  }

  /** One pass of the loop body: the tier the item is appended to, or None when it
      matches nothing or meets a full tier on the way (the `continue` after a cap). */
  function Place(v: Verdict, tiers: Tiers, limit: nat): (r: Option<nat>)
    requires |tiers| == TierCount
    ensures r.Some? ==> r.value < TierCount
    ensures r == Some(ExactTier) <==> v.exact
    ensures r.Some? && r.value != ExactTier ==> |tiers[r.value]| <= limit
    ensures r.Some? && (r.value == FirstWordTier || r.value == WordTier) ==> v.wordTiers
  {
    if v.exact then Some(ExactTier)
    else if v.wordTiers && |tiers[FirstWordTier]| > limit then None
    else if v.wordTiers && v.firstWord then Some(FirstWordTier)
    else if v.wordTiers && |tiers[WordTier]| > limit then None
    else if v.wordTiers && v.word then Some(WordTier)
    else if |tiers[PrefixedTier]| > limit then None
    else if v.prefixed then Some(PrefixedTier)
    else if |tiers[ContinuousTier]| > limit then None
    else if v.continuous then Some(ContinuousTier)
    else if |tiers[SequenceTier]| > limit then None
    else if v.sequence then Some(SequenceTier)
    else if |tiers[ContainedTier]| > limit then None
    else if v.contained then Some(ContainedTier)
    else None
  }

  /** The tier lists after the loop has seen the first `n` items, given their verdicts. */
  function Classify(vs: seq<Verdict>, limit: nat, n: nat): (t: Tiers)
    requires n <= |vs|
    ensures |t| == TierCount
  {
    if n == 0 then seq(TierCount, _ => [])
    else
      var t := Classify(vs, limit, n - 1);
      match Place(vs[n - 1], t, limit)
      case None => t
      case Some(k) => t[k := t[k] + [n - 1]]
  }

  function Flatten(ts: seq<seq<nat>>): seq<nat> {
    if ts == [] then [] else ts[0] + Flatten(ts[1..])
  }

  /** `list[:limit]`. */
  function Truncate(s: seq<nat>, limit: nat): (r: seq<nat>)
    ensures |r| == (if |s| <= limit then |s| else limit) && IsPrefix(r, s)
  {
    if |s| <= limit then s else s[..limit]
  }

  /** The tier lists once the loop has seen the whole pool. */
  ghost function Tiered(term: string, pool: seq<string>, limit: nat, gen: Generation): (t: Tiers)
    ensures |t| == TierCount
  {
    Classify(Judge(term, pool, gen), limit, |pool|)
  }

  /** The value `stringSearch(term, pool, limit)` returns: at most `limit` distinct
      positions of the pool. */
  ghost function Search(term: string, pool: seq<string>, limit: nat, gen: Generation): (r: seq<nat>)
    ensures |r| <= limit && Distinct(r) && forall i :: 0 <= i < |r| ==> r[i] < |pool|
  {
    ClassifiedDistinct(Judge(term, pool, gen), limit);
    Truncate(Flatten(Tiered(term, pool, limit, gen)), limit)
  }

  predicate Increasing(s: seq<nat>) {
    forall i, j :: 0 <= i < j < |s| ==> s[i] < s[j]
  }

  predicate Distinct(s: seq<nat>) {
    forall i, j :: 0 <= i < j < |s| ==> s[i] != s[j]
  }

  // ---------------------------------------------------------------------------
  // The loop itself
  // ---------------------------------------------------------------------------

  /** `stringSearch(term, folder, limit)`: at most `limit` distinct positions of
      `folder`, exact matches first. */
  method StringSearch(term: string, folder: seq<string>, limit: nat, gen: Generation) returns (r: seq<nat>)
    ensures r == Search(term, folder, limit, gen)
  {
    var foundExact: seq<nat> := [];
    var foundFirstWord: seq<nat> := [];
    var foundWord: seq<nat> := [];
    var foundPrefixed: seq<nat> := [];
    var foundContinuousPrefixedSequence: seq<nat> := [];
    var foundPrefixedSequence: seq<nat> := [];
    var foundContained: seq<nat> := [];

    ghost var vs := Judge(term, folder, gen);

    for i := 0 to |folder|
      invariant foundExact == Classify(vs, limit, i)[ExactTier]
      invariant foundFirstWord == Classify(vs, limit, i)[FirstWordTier]
      invariant foundWord == Classify(vs, limit, i)[WordTier]
      invariant foundPrefixed == Classify(vs, limit, i)[PrefixedTier]
      invariant foundContinuousPrefixedSequence == Classify(vs, limit, i)[ContinuousTier]
      invariant foundPrefixedSequence == Classify(vs, limit, i)[SequenceTier]
      invariant foundContained == Classify(vs, limit, i)[ContainedTier]
    {
      var v := ExamineItem(term, folder, gen, i, vs);

      if v.exact {
        Appended(vs, limit, i, ExactTier);
        foundExact := foundExact + [i];
        continue;
      }

      // the word tiers exist only in the current generation, for a space-free
      // term against an item of several words
      if v.wordTiers {
        if |foundFirstWord| > limit {
          Skipped(vs, limit, i);
          continue;
        }
        if v.firstWord {
          Appended(vs, limit, i, FirstWordTier);
          foundFirstWord := foundFirstWord + [i];
          continue;
        }
        if |foundWord| > limit {
          Skipped(vs, limit, i);
          continue;
        }
        if v.word {
          Appended(vs, limit, i, WordTier);
          foundWord := foundWord + [i];
          continue;
        }
      }

      if |foundPrefixed| > limit {
        Skipped(vs, limit, i);
        continue;
      }
      if v.prefixed {
        Appended(vs, limit, i, PrefixedTier);
        foundPrefixed := foundPrefixed + [i];
        continue;
      }

      if |foundContinuousPrefixedSequence| > limit {
        Skipped(vs, limit, i);
        continue;
      }
      if v.continuous {
        Appended(vs, limit, i, ContinuousTier);
        foundContinuousPrefixedSequence := foundContinuousPrefixedSequence + [i];
        continue;
      }

      if |foundPrefixedSequence| > limit {
        Skipped(vs, limit, i);
        continue;
      }
      if v.sequence {
        Appended(vs, limit, i, SequenceTier);
        foundPrefixedSequence := foundPrefixedSequence + [i];
        continue;
      }

      if |foundContained| > limit {
        Skipped(vs, limit, i);
        continue;
      }
      if v.contained {
        Appended(vs, limit, i, ContainedTier);
        foundContained := foundContained + [i];
        continue;
      }
      Skipped(vs, limit, i);
    }

    r := Truncate(foundExact + foundFirstWord + foundWord + foundPrefixed
                  + foundContinuousPrefixedSequence + foundPrefixedSequence + foundContained, limit);
    SearchConcatenates(term, folder, limit, gen);
  }

  /** The result is the seven tier lists concatenated in order and cut to `limit`. */
  lemma SearchConcatenates(term: string, pool: seq<string>, limit: nat, gen: Generation)
    ensures var t := Classify(Judge(term, pool, gen), limit, |pool|);
      Search(term, pool, limit, gen) == Truncate(t[0] + t[1] + t[2] + t[3] + t[4] + t[5] + t[6], limit)
  {
    FlattenSeven(Classify(Judge(term, pool, gen), limit, |pool|));
  }

  /** The tests of the loop body asked of `folder[i]`. Every test is pure, so asking
      them all up front, rather than one at a time until one passes, changes nothing. */
  method ExamineItem(term: string, folder: seq<string>, gen: Generation, i: nat, ghost vs: seq<Verdict>) returns (v: Verdict)
    requires i < |folder| && VerdictsOf(vs, term, folder, gen)
    ensures v == vs[i]
  {
    v := Examine(term, folder[i], gen);
  }

  /** An item the loop body places in tier `k` is appended to that tier. */
  lemma Appended(vs: seq<Verdict>, limit: nat, n: nat, k: nat)
    requires n < |vs| && k < TierCount && Placed(vs, limit, n) == Some(k)
    ensures var t := Classify(vs, limit, n); Classify(vs, limit, n + 1) == t[k := t[k] + [n]]
  {
  }

  /** An item the loop body places nowhere leaves the tiers as they were. */
  lemma Skipped(vs: seq<Verdict>, limit: nat, n: nat)
    requires n < |vs| && Placed(vs, limit, n) == None
    ensures Classify(vs, limit, n + 1) == Classify(vs, limit, n)
  {
  }

  lemma FlattenSeven(t: Tiers)
    requires |t| == 7
    ensures Flatten(t) == t[0] + t[1] + t[2] + t[3] + t[4] + t[5] + t[6]
  {
    assert Flatten(t[7..]) == [];
    assert Flatten(t[6..]) == t[6] + Flatten(t[7..]);
    assert Flatten(t[5..]) == t[5] + Flatten(t[6..]);
    assert Flatten(t[4..]) == t[4] + Flatten(t[5..]);
    assert Flatten(t[3..]) == t[3] + Flatten(t[4..]);
    assert Flatten(t[2..]) == t[2] + Flatten(t[3..]);
    assert Flatten(t[1..]) == t[1] + Flatten(t[2..]);
    assert Flatten(t) == t[0] + Flatten(t[1..]);
  }

  // ---------------------------------------------------------------------------
  // Facts about the tier lists
  // ---------------------------------------------------------------------------

  /** Where the loop body puts the item at position `x`, given the tiers before it. */
  function Placed(vs: seq<Verdict>, limit: nat, x: nat): Option<nat>
    requires x < |vs|
  {
    Place(vs[x], Classify(vs, limit, x), limit)
  }

  /** Each tier lists at most `n` positions, all below `n`, in ascending pool order; the non-exact
      tiers hold at most `limit + 1` entries. */
  predicate TiersShape(t: Tiers, n: nat, limit: nat) {
    |t| == TierCount
    && (forall k :: 0 <= k < TierCount ==> Increasing(t[k]) && |t[k]| <= n && forall x :: x in t[k] ==> x < n)
    && (forall k :: 0 < k < TierCount ==> |t[k]| <= limit + 1)
  }

  /** Appending position `n` to a tier that is exact or not yet full keeps the shape. */
  lemma ShapeStep(t: Tiers, k: nat, n: nat, limit: nat)
    requires TiersShape(t, n, limit) && k < TierCount && (k == ExactTier || |t[k]| <= limit)
    ensures TiersShape(t[k := t[k] + [n]], n + 1, limit)
  {
    var t' := t[k := t[k] + [n]];
    forall j | 0 <= j < TierCount
      ensures Increasing(t'[j]) && forall x :: x in t'[j] ==> x < n + 1
    {
      if j == k {
        assert forall i :: 0 <= i < |t[k]| ==> t[k][i] in t[k];
        assert forall x :: x in t'[j] ==> x in t[k] || x == n;
      }
    }
  }

  lemma {:induction false} ClassifyShape(vs: seq<Verdict>, limit: nat, n: nat)
    requires n <= |vs|
    ensures TiersShape(Classify(vs, limit, n), n, limit)
  {
    if n > 0 {
      ClassifyShape(vs, limit, n - 1);
      var t := Classify(vs, limit, n - 1);
      match Place(vs[n - 1], t, limit)
      case None =>
        assert Classify(vs, limit, n) == t;
      case Some(k) =>
        ShapeStep(t, k, n - 1, limit);
    }
  }

  /** No more positions are listed than were seen. */
  lemma {:induction false} ClassifyCount(vs: seq<Verdict>, limit: nat, n: nat)
    requires n <= |vs|
    ensures |Flatten(Classify(vs, limit, n))| <= n
  {
    if n > 0 {
      ClassifyCount(vs, limit, n - 1);
      var t := Classify(vs, limit, n - 1);
      match Place(vs[n - 1], t, limit)
      case None =>
      case Some(k) =>
        FlattenUpdate(t, k, n - 1);
    } else {
      FlattenSeven(Classify(vs, limit, 0));
    }
  }

  /** A position is in tier `k` exactly when the loop body placed it there. */
  lemma {:induction false} ClassifyMembers(vs: seq<Verdict>, limit: nat, n: nat, k: nat, x: nat)
    requires n <= |vs| && k < TierCount
    ensures x in Classify(vs, limit, n)[k] <==> x < n && Placed(vs, limit, x) == Some(k)
  {
    if n > 0 {
      ClassifyMembers(vs, limit, n - 1, k, x);
    }
  }

  lemma {:induction false} FlattenUpdate(ts: seq<seq<nat>>, k: nat, x: nat)
    requires k < |ts|
    ensures |Flatten(ts[k := ts[k] + [x]])| == |Flatten(ts)| + 1
  {
    if k > 0 {
      FlattenUpdate(ts[1..], k - 1, x);
      assert ts[k := ts[k] + [x]][1..] == ts[1..][k - 1 := ts[k] + [x]];
    }
  }

  lemma {:induction false} FlattenMembers(ts: seq<seq<nat>>, x: nat)
    ensures x in Flatten(ts) <==> exists k :: 0 <= k < |ts| && x in ts[k]
  {
    if ts != [] {
      FlattenMembers(ts[1..], x);
      assert forall k :: 0 <= k < |ts| - 1 ==> ts[1..][k] == ts[k + 1];
      if exists k :: 0 <= k < |ts| && x in ts[k] {
        var k :| 0 <= k < |ts| && x in ts[k];
        if k > 0 {
          assert x in ts[1..][k - 1];
        }
      }
    }
  }

  lemma {:induction false} FlattenDistinct(ts: seq<seq<nat>>)
    requires forall k :: 0 <= k < |ts| ==> Distinct(ts[k])
    requires forall j, k, x :: 0 <= j < k < |ts| && x in ts[j] ==> x !in ts[k]
    ensures Distinct(Flatten(ts))
  {
    if ts != [] {
      FlattenDistinct(ts[1..]);
      var a, b := ts[0], Flatten(ts[1..]);
      forall x | x in a
        ensures x !in b
      {
        FlattenMembers(ts[1..], x);
        forall k | 0 <= k < |ts| - 1
          ensures x !in ts[1..][k]
        {
          assert ts[1..][k] == ts[k + 1];
        }
      }
      forall i, j | 0 <= i < j < |a + b|
        ensures (a + b)[i] != (a + b)[j]
      {
        if i < |a| && j >= |a| {
          assert (a + b)[i] in a && (a + b)[j] in b;
        }
      }
    }
  }

  /** The tier lists, joined, hold distinct positions of the pool. */
  lemma ClassifiedDistinct(vs: seq<Verdict>, limit: nat)
    ensures var f := Flatten(Classify(vs, limit, |vs|));
      Distinct(f) && forall i :: 0 <= i < |f| ==> f[i] < |vs|
  {
    var n := |vs|;
    var t := Classify(vs, limit, n);
    ClassifyShape(vs, limit, n);
    forall j, k, x | 0 <= j < k < |t| && x in t[j]
      ensures x !in t[k]
    {
      ClassifyMembers(vs, limit, n, j, x);
      ClassifyMembers(vs, limit, n, k, x);
    }
    forall k | 0 <= k < |t|
      ensures Distinct(t[k])
    {
      assert Increasing(t[k]);
    }
    FlattenDistinct(t);
    var f := Flatten(t);
    forall i | 0 <= i < |f|
      ensures f[i] < n
    {
      FlattenMembers(t, f[i]);
      var k :| 0 <= k < |t| && f[i] in t[k];
      ClassifyMembers(vs, limit, n, k, f[i]);
    }
  }

  /** The tier lists are in ascending pool order and the result is their
      concatenation, cut to `limit`; the non-exact tiers hold at most `limit + 1`. */
  lemma TiersInPoolOrder(term: string, pool: seq<string>, limit: nat, gen: Generation)
    ensures var t := Tiered(term, pool, limit, gen);
      Search(term, pool, limit, gen) == Truncate(t[0] + t[1] + t[2] + t[3] + t[4] + t[5] + t[6], limit)
      && (forall k :: 0 <= k < TierCount ==> Increasing(t[k]))
      && (forall k :: 0 < k < TierCount ==> |t[k]| <= limit + 1)
  {
    ClassifyShape(Judge(term, pool, gen), limit, |pool|);
    FlattenSeven(Tiered(term, pool, limit, gen));
  }

  /** Caps in terms of ranks: an item reaches the tier it deserves unless one of the
      tiers checked on the way (its own included) already holds more than `limit`, in
      which case it is dropped without trying later tiers. Exact matches are never capped. */
  lemma PlaceByRank(v: Verdict, tiers: Tiers, limit: nat)
    requires |tiers| == TierCount
    ensures Place(v, tiers, limit) ==
      match Rank(v)
      case None => None
      case Some(k) =>
        if k == ExactTier || forall j :: 0 < j <= k && CapChecked(j, v) ==> |tiers[j]| <= limit
        then Some(k) else None
  {
  }

  /** An exact match leads: when `limit >= 1`, the first position whose (space-
      insensitive, for a space-free term) name equals the term is the first result. */
  lemma ExactMatchFirst(term: string, pool: seq<string>, limit: nat, gen: Generation, j: nat)
    requires j < |pool| && SpaceAccounting(term, pool[j]) == term && limit >= 1
    requires forall i :: 0 <= i < j ==> SpaceAccounting(term, pool[i]) != term
    ensures var r := Search(term, pool, limit, gen); r != [] && r[0] == j
  {
    var vs := Judge(term, pool, gen);
    var n := |pool|;
    var t := Classify(vs, limit, n);
    ClassifyShape(vs, limit, n);
    JudgeAt(term, pool, gen, j);
    assert vs[j].exact;
    ClassifyMembers(vs, limit, n, ExactTier, j);
    assert j in t[ExactTier];
    var e := t[ExactTier][0];
    ClassifyMembers(vs, limit, n, ExactTier, e);
    JudgeAt(term, pool, gen, e);
    assert vs[e].exact;
    assert e >= j;
    IncreasingHeadIsLeast(t[ExactTier], j);
    assert Flatten(t) == t[0] + Flatten(t[1..]);
  }

  lemma IncreasingHeadIsLeast(s: seq<nat>, x: nat)
    requires Increasing(s) && x in s
    ensures s[0] <= x
  {
  }

  // ---------------------------------------------------------------------------
  // Independent descriptions of the result
  // ---------------------------------------------------------------------------

  /** The tiers without caps: every matching position below `n` sits in the tier its
      item deserves, in pool order. */
  function RankAll(vs: seq<Verdict>, n: nat): (t: Tiers)
    requires n <= |vs|
    ensures |t| == TierCount
  {
    if n == 0 then seq(TierCount, _ => [])
    else
      var t := RankAll(vs, n - 1);
      match Rank(vs[n - 1])
      case None => t
      case Some(k) => t[k := t[k] + [n - 1]]
  }

  /** A position is in uncapped tier `k` exactly when its item deserves tier `k`. */
  lemma {:induction false} RankAllMembers(vs: seq<Verdict>, n: nat, k: nat, x: nat)
    requires n <= |vs| && k < TierCount
    ensures x in RankAll(vs, n)[k] <==> x < n && Rank(vs[x]) == Some(k)
  {
    if n > 0 {
      RankAllMembers(vs, n - 1, k, x);
    }
  }

  /** With no more items than `limit`, no cap is ever reached: the result lists every
      matching position, grouped by the tier it deserves, each group in pool order. */
  lemma SmallPoolRanksEverything(term: string, pool: seq<string>, limit: nat, gen: Generation)
    requires |pool| <= limit
    ensures Search(term, pool, limit, gen) == Flatten(RankAll(Judge(term, pool, gen), |pool|))
  {
    var vs := Judge(term, pool, gen);
    UncappedClassify(vs, limit, |pool|);
    ClassifyCount(vs, limit, |pool|);
  }

  lemma {:induction false} UncappedClassify(vs: seq<Verdict>, limit: nat, n: nat)
    requires n <= |vs| <= limit
    ensures Classify(vs, limit, n) == RankAll(vs, n)
  {
    if n > 0 {
      UncappedClassify(vs, limit, n - 1);
      ClassifyShape(vs, limit, n - 1);
      var t := Classify(vs, limit, n - 1);
      PlaceUncapped(vs[n - 1], t, limit);
    }
  }

  /** When no tier is over its cap, an item lands in the tier it deserves. */
  lemma PlaceUncapped(v: Verdict, tiers: Tiers, limit: nat)
    requires |tiers| == TierCount && forall k :: 0 <= k < TierCount ==> |tiers[k]| <= limit
    ensures Place(v, tiers, limit) == Rank(v)
  {
  }

  /** `stringSearch("abc", ["xabc", "abc", "abcx"], 3)` is `[1, 2, 0]`: exact, then
      prefixed, then contained. */
  lemma AbcExample()
    ensures Search("abc", ["xabc", "abc", "abcx"], 3, Current) == [1, 2, 0]
  {
    var pool := ["xabc", "abc", "abcx"];
    SmallPoolRanksEverything("abc", pool, 3, Current);
    var vs := Judge("abc", pool, Current);
    JudgeAt("abc", pool, Current, 0);
    JudgeAt("abc", pool, Current, 1);
    JudgeAt("abc", pool, Current, 2);
    assert pool[0] == "xabc" && pool[1] == "abc" && pool[2] == "abcx";
    XabcIsContained();
    AbcIsExact();
    AbcxIsPrefixed();
    ContainedExactPrefixed(vs);
  }

  lemma XabcIsContained()
    ensures Rank(Examine("abc", "xabc", Current)) == Some(ContainedTier)
  {
    XabcFacts();
    XabcHasNoSequence();
    ContainedRank("abc", "xabc", Current);
  }

  lemma XabcFacts()
    ensures ' ' !in "abc" && ' ' !in "xabc" && "xabc" != "abc"
    ensures !IsPrefix("abc", "xabc") && IsSubstring("abc", "xabc")
  {
    assert "xabc"[0] != "abc"[0];
    assert IsPrefix("abc", "xabc"[1..]);
  }

  /** Neither acronym matcher finds "abc" in the single word "xabc". */
  lemma XabcHasNoSequence()
    ensures !ContainsContinuousPrefixedSequence("xabc", "abc", 1)
    ensures !ContainsPrefixedSequence("xabc", "abc")
  {
    assert ' ' !in "xabc" && Find("xabc", ' ') == -1;
    assert "abc"[0] != "xabc"[0];
  }

  lemma AbcIsExact()
    ensures Rank(Examine("abc", "abc", Current)) == Some(ExactTier)
  {
    assert ' ' !in "abc";
    SpaceFreeSelfIsExact("abc", Current);
  }

  lemma AbcxIsPrefixed()
    ensures Rank(Examine("abc", "abcx", Current)) == Some(PrefixedTier)
  {
    AbcxFacts();
    PrefixedRank("abc", "abcx", Current);
  }

  lemma AbcxFacts()
    ensures ' ' !in "abc" && ' ' !in "abcx" && "abcx" != "abc" && IsPrefix("abc", "abcx")
  {
    assert "abcx"[..3] == "abc";
  }

  /** Between two space-free names, an item the term is a proper prefix of ranks
      prefixed. */
  lemma PrefixedRank(term: string, item: string, gen: Generation)
    requires ' ' !in term && ' ' !in item && item != term && IsPrefix(term, item)
    ensures Rank(Examine(term, item, gen)) == Some(PrefixedTier)
  {
    NoSpaceUnchanged(item);
  }

  /** Between two space-free names, an item that holds the term, but neither as a
      prefix nor as an acronym, ranks contained. */
  lemma ContainedRank(term: string, item: string, gen: Generation)
    requires ' ' !in term && ' ' !in item && item != term
    requires !IsPrefix(term, item) && IsSubstring(term, item)
    requires !ContainsContinuousPrefixedSequence(item, term, 1) && !ContainsPrefixedSequence(item, term)
    ensures Rank(Examine(term, item, gen)) == Some(ContainedTier)
  {
    NoSpaceUnchanged(item);
  }

  /** Three items ranked contained, exact and prefixed come out as exact, prefixed,
      contained. */
  lemma ContainedExactPrefixed(vs: seq<Verdict>)
    requires |vs| == 3
    requires Rank(vs[0]) == Some(ContainedTier) && Rank(vs[1]) == Some(ExactTier) && Rank(vs[2]) == Some(PrefixedTier)
    ensures Flatten(RankAll(vs, 3)) == [1, 2, 0]
  {
    var t := RankedThree(vs);
    FlattenSeven(t);
    assert t[0] + t[1] + t[2] + t[3] + t[4] + t[5] + t[6] == [1, 2, 0];
  }

  lemma RankedThree(vs: seq<Verdict>) returns (t: Tiers)
    requires |vs| == 3
    requires Rank(vs[0]) == Some(ContainedTier) && Rank(vs[1]) == Some(ExactTier) && Rank(vs[2]) == Some(PrefixedTier)
    ensures t == RankAll(vs, 3) && |t| == 7
    ensures t[0] == [1] && t[3] == [2] && t[6] == [0] && t[1] == [] && t[2] == [] && t[4] == [] && t[5] == []
  {
    var e: seq<nat> := [];
    assert RankAll(vs, 0) == [e, e, e, e, e, e, e];
    assert e + [0] == [0] && e + [1] == [1] && e + [2] == [2];
    assert RankAll(vs, 1) == [e, e, e, e, e, e, [0]];
    assert RankAll(vs, 2) == [[1], e, e, e, e, e, [0]];
    t := RankAll(vs, 3);
    assert t == [[1], e, e, [2], e, e, [0]];
  }

  /** With the empty term and a pool of non-empty, space-free names, every item is
      "prefixed", so the result is the first `limit` positions in pool order. */
  lemma EmptyTermTakesFirst(pool: seq<string>, limit: nat, gen: Generation)
    requires forall i :: 0 <= i < |pool| ==> pool[i] != [] && ' ' !in pool[i]
    ensures Search([], pool, limit, gen) == seq(if |pool| < limit then |pool| else limit, i => i)
  {
    var vs := Judge([], pool, gen);
    forall i | 0 <= i < |vs|
      ensures !vs[i].exact && !vs[i].wordTiers && vs[i].prefixed
    {
      JudgeAt([], pool, gen, i);
      NoSpaceUnchanged(pool[i]);
      assert Split(pool[i], ' ') == [pool[i]];
    }
    AllPrefixedClassify(vs, limit, |pool|);
    FlattenSeven(Classify(vs, limit, |pool|));
  }

  /** When every item fails the exact test, skips the word tests and passes the
      prefix test, the prefixed tier takes positions in order until it is over its cap. */
  lemma {:induction false} AllPrefixedClassify(vs: seq<Verdict>, limit: nat, n: nat)
    requires n <= |vs|
    requires forall i :: 0 <= i < |vs| ==> !vs[i].exact && !vs[i].wordTiers && vs[i].prefixed
    ensures var m := if n < limit + 1 then n else limit + 1;
      Classify(vs, limit, n) == [[], [], [], seq(m, i => i), [], [], []]
  {
    var e: seq<nat> := [];
    if n > 0 {
      AllPrefixedClassify(vs, limit, n - 1);
      var m := if n - 1 < limit + 1 then n - 1 else limit + 1;
      var t := Classify(vs, limit, n - 1);
      assert t == [e, e, e, seq(m, i => i), e, e, e];
      if n - 1 < limit + 1 {
        assert Place(vs[n - 1], t, limit) == Some(PrefixedTier);
        assert seq(m, i => i) + [n - 1] == seq(n, i => i);
        assert Classify(vs, limit, n) == t[PrefixedTier := seq(n, i => i)];
      } else {
        assert Place(vs[n - 1], t, limit) == None;
      }
    } else {
      assert seq(0, i => i) == e;
      assert Classify(vs, limit, 0) == [e, e, e, e, e, e, e];
    }
  }

  /** A space-free term is an exact match for an item equal to it. */
  lemma SpaceFreeSelfIsExact(s: string, gen: Generation)
    requires ' ' !in s
    ensures Rank(Examine(s, s, gen)) == Some(ExactTier)
  {
    NoSpaceUnchanged(s);
  }

  lemma {:induction false} NoSpaceUnchanged(s: string)
    requires ' ' !in s
    ensures RemoveChar(s, ' ') == s
  {
    if s != [] {
      NoSpaceUnchanged(s[1..]);
    }
  }

  /** For a term with a space the word tiers never apply, so both generations agree. */
  lemma GenerationsAgreeOnSpacedTerms(term: string, pool: seq<string>, limit: nat)
    requires ' ' in term
    ensures Search(term, pool, limit, Legacy) == Search(term, pool, limit, Current)
  {
    forall i | 0 <= i < |pool|
      ensures Judge(term, pool, Legacy)[i] == Judge(term, pool, Current)[i]
    {
      JudgeAt(term, pool, Legacy, i);
      JudgeAt(term, pool, Current, i);
    }
    assert Judge(term, pool, Legacy) == Judge(term, pool, Current);
  }

  /** The legacy matcher never fills the word tiers: its result is exact, prefixed,
      continuous-sequence, sequence and contained, in that order. */
  lemma LegacyHasFiveTiers(term: string, pool: seq<string>, limit: nat)
    ensures var t := Tiered(term, pool, limit, Legacy);
      t[FirstWordTier] == [] && t[WordTier] == []
      && Search(term, pool, limit, Legacy) == Truncate(t[0] + t[3] + t[4] + t[5] + t[6], limit)
  {
    var vs := Judge(term, pool, Legacy);
    LegacySkipsWordTests(term, pool);
    NoWordTiers(vs, limit, |pool|);
    var t := Classify(vs, limit, |pool|);
    assert Search(term, pool, limit, Legacy) == Truncate(Flatten(t), limit);
    FlattenFive(t);
  }

  lemma FlattenFive(t: Tiers)
    requires |t| == 7 && t[1] == [] && t[2] == []
    ensures Flatten(t) == t[0] + t[3] + t[4] + t[5] + t[6]
  {
    FlattenSeven(t);
    assert t[0] + t[1] + t[2] == t[0];
  }

  lemma LegacySkipsWordTests(term: string, pool: seq<string>)
    ensures forall i :: 0 <= i < |pool| ==> !Judge(term, pool, Legacy)[i].wordTiers
  {
    forall i | 0 <= i < |pool|
      ensures !Judge(term, pool, Legacy)[i].wordTiers
    {
      JudgeAt(term, pool, Legacy, i);
    }
  }

  /** Items that skip the word tests never land in the word tiers. */
  lemma {:induction false} NoWordTiers(vs: seq<Verdict>, limit: nat, n: nat)
    requires n <= |vs|
    requires forall i :: 0 <= i < |vs| ==> !vs[i].wordTiers
    ensures Classify(vs, limit, n)[FirstWordTier] == [] && Classify(vs, limit, n)[WordTier] == []
  {
    if n > 0 {
      NoWordTiers(vs, limit, n - 1);
    }
  }
}
