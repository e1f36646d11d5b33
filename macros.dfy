/** `resolveMacros` (src/Radium2.py:190-226): the bounded rewrite that replaces the
    leftmost `>name` reference of a query by the text of the macro it names, until
    none is left. Macro files are given as a map from their library path to their
    text (`readMacroFile` reads the file and joins its stripped lines with spaces). */
module Macros {
  import opened Strings
  import opened Matcher
  import opened Library

  /** `[a-z \/]`, the characters a reference is made of. */
  predicate IsRefChar(c: char) {
    'a' <= c <= 'z' || c == ' ' || c == '/'
  }

  /** A match of `>([a-z \/]+)` starts at `p`. */
  predicate StartsRef(s: string, p: nat) {
    p + 1 < |s| && s[p] == '>' && IsRefChar(s[p + 1])
  }

  /** The matched span `[start, end)`; the group is `s[start + 1..end]`. */
  datatype Span = Span(start: nat, end: nat)

  /** The greedy end of the run of reference characters from `p`. */
  function RunEnd(s: string, p: nat): (e: nat)
    requires p <= |s|
    ensures p <= e <= |s|
    ensures forall k :: p <= k < e ==> IsRefChar(s[k])
    ensures e == |s| || !IsRefChar(s[e])
    decreases |s| - p
  {
    if p < |s| && IsRefChar(s[p]) then RunEnd(s, p + 1) else p
  }

  /** `re.search(r">([a-z \/]+)", s)` scanning from `p`: the leftmost start, then the
      longest run. */
  function FindRefFrom(s: string, p: nat): (r: Option<Span>)
    requires p <= |s|
    ensures r.None? <==> forall q {:trigger StartsRef(s, q)} :: p <= q < |s| ==> !StartsRef(s, q)
    ensures r.Some? ==> (p <= r.value.start && StartsRef(s, r.value.start)
      && r.value.end == RunEnd(s, r.value.start + 1)
      && forall q {:trigger StartsRef(s, q)} :: p <= q < r.value.start ==> !StartsRef(s, q))
    decreases |s| - p
  {
    if p == |s| then None
    else if StartsRef(s, p) then Some(Span(p, RunEnd(s, p + 1)))
    else FindRefFrom(s, p + 1)
  }

  function FindMacroRef(s: string): (r: Option<Span>)
    ensures r.Some? ==> r.value.start + 1 < r.value.end <= |s|
  {
    FindRefFrom(s, 0)
  }

  /** The path parts of a reference: `filter(len, group.strip().lower().split("/"))`. */
  function RefParts(s: string, span: Span): seq<string>
    requires span.start + 1 <= span.end <= |s|
  {
    NonEmpty(Split(Lower(Strip(s[span.start + 1..span.end])), '/'))
  }

  /** What `resolveMacros` comes to: the final entry, None (`Abandoned`), or an exception
      that escapes it. */
  datatype Resolution = Expanded(text: string) | Abandoned | Crashed(err: PyError)

  /** The macros a reference chooses from: those under the folder its leading parts
      name, or all macros; sorted by name length as `macroPool.sort` does. */
  ghost function MacroPool(lib: Library, parts: seq<string>, branch: nat): (r: Option<seq<Macro>>)
    requires Valid(lib) && |parts| >= 1
    ensures r.Some? ==> SortedByLen(r.value)
  {
    if |parts| > 1 then
      match SearchFolders(lib, parts[..|parts| - 1], Omnifolder(lib), Current, branch)
      case None => None
      case Some(f) => Some(SortByLen(Gather(lib, f, Macros)))
    else Some(SortByLen(lib.macros))
  }

  /** One pass of the loop body for the reference at `span`. As in the source, an
      empty path raises IndexError at `pathParts[-1]`. */
  ghost function ExpandOnce(lib: Library, texts: map<string, string>, branch: nat, s: string, span: Span): (r: Resolution)
    requires Valid(lib) && span.start + 1 <= span.end <= |s|
    ensures r.Crashed? ==> r.err == IndexError || r.err == FileError
  {
    var parts := RefParts(s, span);
    if parts == [] then Crashed(IndexError)
    else
      match MacroPool(lib, parts, branch)
      case None => Abandoned
      case Some(pool) => FromPool(lib, texts, s, span, parts[|parts| - 1], pool)
  }

  /** The rest of the pass once the pool is chosen: the macro named `name` is searched
      in `pool`, and, as in the source, the position found indexes the global macro
      list; a macro file that is not there makes `open` raise. */
  ghost function FromPool(lib: Library, texts: map<string, string>, s: string, span: Span, name: string, pool: seq<Macro>): (r: Resolution)
    requires span.start <= span.end <= |s|
    ensures r.Crashed? ==> r.err == IndexError || r.err == FileError
  {
    var found := Search(name, Names(pool), 1, Current);
    if found == [] then Abandoned
    else if found[0] >= |lib.macros| then Crashed(IndexError)
    else
      var path := lib.macros[found[0]].localPath;
      if path !in texts then Crashed(FileError)
      else Expanded(s[..span.start] + texts[path] + s[span.end..])
  }

  /** `lower()` leaves the characters of a reference as they are. */
  lemma LowerKeepsRefChars(g: string)
    requires forall k :: 0 <= k < |g| ==> IsRefChar(g[k])
    ensures Lower(g) == g
  {
  }

  /** A reference found in `s` spans a run of reference characters. */
  lemma SpanIsRun(s: string, span: Span)
    requires FindMacroRef(s) == Some(span)
    ensures span.start + 1 <= span.end <= |s|
    ensures forall k :: span.start + 1 <= k < span.end ==> IsRefChar(s[k])
  {
  }

  /** The path of a reference is empty exactly when its stripped text is made of
      slashes only (`>/`, `> / `, `>//`): `pathParts[-1]` then raises IndexError. */
  lemma {:induction false} EmptyPathIffSlashes(s: string, span: Span)
    requires FindMacroRef(s) == Some(span)
    ensures var g := Strip(s[span.start + 1..span.end]);
      RefParts(s, span) == [] <==> forall k :: 0 <= k < |g| ==> g[k] == '/'
  {
    var h := Strip(s[span.start + 1..span.end]);
    StrippedReferenceIsRun(s, span);
    LowerKeepsRefChars(h);
    assert RefParts(s, span) == NonEmpty(Split(h, '/'));
    NoPiecesIffOnlySeparators(h, '/');
  }

  /** The stripped text of a reference is still made of reference characters. */
  lemma StrippedReferenceIsRun(s: string, span: Span)
    requires FindMacroRef(s) == Some(span)
    ensures var h := Strip(s[span.start + 1..span.end]);
      forall k :: 0 <= k < |h| ==> IsRefChar(h[k])
  {
    SpanIsRun(s, span);
    var g := s[span.start + 1..span.end];
    var h := Strip(g);
    forall k | 0 <= k < |h|
      ensures IsRefChar(h[k])
    {
      assert h[k] in g;
      var j :| 0 <= j < |g| && g[j] == h[k];
      assert g[j] == s[span.start + 1 + j];
    }
  }

  /** A reference whose stripped text is slashes only makes `resolveMacros` raise
      IndexError, whatever the library holds. */
  lemma SlashOnlyReferenceCrashes(lib: Library, texts: map<string, string>, branch: nat, limit: int, s: string, count: nat)
    requires Valid(lib) && count <= limit && FindMacroRef(s).Some?
    requires var g := Strip(s[FindMacroRef(s).value.start + 1..FindMacroRef(s).value.end]);
      forall k :: 0 <= k < |g| ==> g[k] == '/'
    ensures Expand(lib, texts, branch, limit, s, count) == Crashed(IndexError)
  {
    EmptyPathIffSlashes(s, FindMacroRef(s).value);
  }

  /** A successful pass replaces exactly the matched span by the text of a catalogued
      macro file, keeping what comes before and after it. */
  lemma ExpansionSplices(lib: Library, texts: map<string, string>, branch: nat, s: string, span: Span)
      returns (i: nat)
    requires Valid(lib) && span.start + 1 <= span.end <= |s|
    requires ExpandOnce(lib, texts, branch, s, span).Expanded?
    ensures i < |lib.macros| && lib.macros[i].localPath in texts
    ensures ExpandOnce(lib, texts, branch, s, span).text
      == s[..span.start] + texts[lib.macros[i].localPath] + s[span.end..]
  {
    var parts := RefParts(s, span);
    var pool := MacroPool(lib, parts, branch).value;
    i := Search(parts[|parts| - 1], Names(pool), 1, Current)[0];
  }

  /** What one pass of the loop does to an entry: None when it holds no reference,
      otherwise the outcome of replacing the leftmost one. */
  ghost function Next(lib: Library, texts: map<string, string>, branch: nat, s: string): (r: Option<Resolution>)
    requires Valid(lib)
    ensures r.None? <==> FindMacroRef(s).None?
  {
    match FindMacroRef(s)
    case None => None
    case Some(span) => Some(ExpandOnce(lib, texts, branch, s, span))
  }

  /** The rewrite loop of `resolveMacros` over any single-step rewrite `next`: the
      counter is checked against `limit` before each search, a step that finds no
      reference ends it, and a step that does not expand ends it with its outcome. */
  function Rewrite(next: string --> Option<Resolution>, limit: int, s: string, count: nat): (r: Resolution)
    requires forall t :: next.requires(t)
    ensures r.Expanded? ==> next(r.text) == None
    decreases if count <= limit then limit - count + 1 else 0
  {
    if count > limit then Abandoned
    else
      match next(s)
      case None => Expanded(s)
      case Some(Expanded(t)) => Rewrite(next, limit, t, count + 1)
      case Some(r) => r
  }

  /** `resolveMacros(s)` with `macroCount == count` on entry to the loop and
      `self.macroCallLimit == limit`. */
  ghost function Expand(lib: Library, texts: map<string, string>, branch: nat, limit: int, s: string, count: nat): (r: Resolution)
    requires Valid(lib)
    ensures r.Expanded? ==> FindMacroRef(r.text).None?
  {
    Rewrite(t requires Valid(lib) => Next(lib, texts, branch, t), limit, s, count)
  }

  /** One turn of the loop of `resolveMacros`, seen from `Expand`. */
  lemma ExpandUnfolds(lib: Library, texts: map<string, string>, branch: nat, limit: int, s: string, count: nat)
    requires Valid(lib)
    ensures count > limit ==> Expand(lib, texts, branch, limit, s, count) == Abandoned
    ensures count <= limit && FindMacroRef(s).None? ==> Expand(lib, texts, branch, limit, s, count) == Expanded(s)
    ensures count <= limit && FindMacroRef(s).Some? ==>
      Expand(lib, texts, branch, limit, s, count) ==
        match ExpandOnce(lib, texts, branch, s, FindMacroRef(s).value)
        case Expanded(t) => Expand(lib, texts, branch, limit, t, count + 1)
        case r => r
  {
  }

  /** The text after `k` successful steps of `next` in a row, or None when one of them
      does not expand. */
  function Chain(next: string --> Option<Resolution>, s: string, k: nat): Option<string>
    requires forall t :: next.requires(t)
    decreases k
  {
    if k == 0 then Some(s)
    else
      match next(s)
      case Some(Expanded(t)) => Chain(next, t, k - 1)
      case _ => None
  }

  /** A resolved entry has no reference left, and it was reached by at most
      `limit - count` steps: the counter is checked before every search, including
      the last one that finds nothing. */
  lemma {:induction false} RewriteWithinLimit(next: string --> Option<Resolution>, limit: int, s: string, count: nat)
      returns (k: nat)
    requires forall t :: next.requires(t)
    requires Rewrite(next, limit, s, count).Expanded?
    ensures count + k <= limit
    ensures Chain(next, s, k) == Some(Rewrite(next, limit, s, count).text)
    ensures next(Rewrite(next, limit, s, count).text).None?
    decreases if count <= limit then limit - count + 1 else 0
  {
    if next(s).None? {
      k := 0;
    } else {
      var t := next(s).value.text;
      var k1 := RewriteWithinLimit(next, limit, t, count + 1);
      k := k1 + 1;
    }
  }

  /** Conversely, a chain of at most `limit - count` steps that ends without a
      reference is what the loop returns. */
  lemma {:induction false} ChainRewrites(next: string --> Option<Resolution>, limit: int, s: string, count: nat, k: nat, t: string)
    requires forall u :: next.requires(u)
    requires count + k <= limit
    requires Chain(next, s, k) == Some(t) && next(t).None?
    ensures Rewrite(next, limit, s, count) == Expanded(t)
    decreases k
  {
    if k > 0 {
      ChainRewrites(next, limit, next(s).value.text, count + 1, k - 1, t);
    }
  }

  /** After `limit - count + 1` successful steps the loop gives up, even when the text
      reached has no reference left. */
  lemma {:induction false} TooManyCalls(next: string --> Option<Resolution>, limit: int, s: string, count: nat, k: nat, t: string)
    requires forall u :: next.requires(u)
    requires count + k == limit + 1
    requires Chain(next, s, k) == Some(t)
    ensures Rewrite(next, limit, s, count) == Abandoned
    decreases k
  {
    if k > 0 {
      TooManyCalls(next, limit, next(s).value.text, count + 1, k - 1, t);
    }
  }

  /** A text that rewrites to itself is abandoned at the call limit instead of looping
      forever. */
  lemma {:induction false} FixedPointIsAbandoned(next: string --> Option<Resolution>, limit: int, s: string, count: nat)
    requires forall u :: next.requires(u)
    requires next(s) == Some(Expanded(s))
    ensures Rewrite(next, limit, s, count) == Abandoned
    decreases if count <= limit then limit - count + 1 else 0
  {
    if count <= limit {
      FixedPointIsAbandoned(next, limit, s, count + 1);
    }
  }

  /** `resolveMacros` returns an entry without references, reached by at most
      `macroCallLimit` substitutions of the leftmost reference. */
  lemma ExpandedHasNoReference(lib: Library, texts: map<string, string>, branch: nat, limit: int, s: string)
      returns (k: nat)
    requires Valid(lib) && Expand(lib, texts, branch, limit, s, 0).Expanded?
    ensures k <= limit
    ensures Chain(t requires Valid(lib) => Next(lib, texts, branch, t), s, k) == Some(Expand(lib, texts, branch, limit, s, 0).text)
    ensures FindMacroRef(Expand(lib, texts, branch, limit, s, 0).text).None?
  {
    k := RewriteWithinLimit(t requires Valid(lib) => Next(lib, texts, branch, t), limit, s, 0);
  }

  /** A macro whose text brings back the reference that named it, in the same place,
      makes `resolveMacros` give up. */
  lemma SelfReferenceIsAbandoned(lib: Library, texts: map<string, string>, branch: nat, limit: int, s: string)
    requires Valid(lib) && FindMacroRef(s).Some?
    requires ExpandOnce(lib, texts, branch, s, FindMacroRef(s).value) == Expanded(s)
    ensures Expand(lib, texts, branch, limit, s, 0) == Abandoned
  {
    FixedPointIsAbandoned(t requires Valid(lib) => Next(lib, texts, branch, t), limit, s, 0);
  }

  /** An entry with no `>` followed by a reference character is returned as it is
      (when the limit is not negative). */
  lemma NoReferenceUnchanged(lib: Library, texts: map<string, string>, branch: nat, limit: int, s: string)
    requires Valid(lib) && limit >= 0
    requires forall q :: 0 <= q < |s| ==> !StartsRef(s, q)
    ensures Expand(lib, texts, branch, limit, s, 0) == Expanded(s)
  {
  }
}
