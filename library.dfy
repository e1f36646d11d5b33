/** The music library as the interpreter sees it once loading is done, and the two
    pure queries over it: folder-path resolution (`searchFolders`,
    src/Radium2.py:159-174 and Radium.py:121-136) and subtree flattening
    (`getAllSongsInFolder` / `getAllMacrosInFolder`, src/Radium2.py:176-188 and
    Radium.py:138-143). Also the stable sort by name length that both the loader
    and the current interpreter apply to song and macro lists. */
module Library {
  import opened Strings
  import opened SequenceMatch
  import opened Matcher

  /** `Song(name, searchableName, localPath)`; the current `Macro` namedtuple has the
      same three fields, so both are one datatype here. */
  datatype Entry = Entry(name: string, searchableName: string, localPath: string)
  type Song = Entry
  type Macro = Entry

  /** `Folder(name, searchableName, subFolders, songs, macros)`. The source holds the
      sub-folders as references; here they are positions in `Library.folders`. */
  datatype Folder = Folder(name: string, searchableName: string, subFolders: seq<nat>,
                           songs: seq<Song>, macros: seq<Macro>)

  /** `self.folders`, `self.songs` and `self.macros`. `height` ranks the folders so that
      every sub-folder sits strictly below its parent: a folder tree built by a
      directory walk has one, and it is what makes flattening a subtree terminate. */
  datatype Library = Library(folders: seq<Folder>, songs: seq<Song>, macros: seq<Macro>, height: seq<nat>)

  /** The Python exceptions the interpreter can raise on user input: `TypeError` from
      `set += list` and its kin, `IndexError` from indexing an empty or short list, and
      the error `open` raises for a macro file that is missing. */
  datatype PyError = TypeError | IndexError | FileError

  /** `[x.searchableName for x in pool]`. */
  function Names(pool: seq<Entry>): (names: seq<string>)
    ensures |names| == |pool| && forall k :: 0 <= k < |pool| ==> names[k] == pool[k].searchableName
  {
    seq(|pool|, k requires 0 <= k < |pool| => pool[k].searchableName)
  }

  /** Which list of a folder is gathered. */
  datatype Kind = Songs | Macros

  function Own(f: Folder, kind: Kind): seq<Entry> {
    match kind
    case Songs => f.songs
    case Macros => f.macros
  }

  /** Every folder fits the arena: what searching a folder path needs. */
  predicate Arena(lib: Library) {
    forall i :: 0 <= i < |lib.folders| ==> Fits(lib, lib.folders[i])
  }

  /** Every sub-folder of folder `i` ranks below it. */
  predicate RanksBelow(lib: Library, i: nat)
    requires i < |lib.folders| == |lib.height| && Fits(lib, lib.folders[i])
  {
    var f := lib.folders[i];
    forall k :: 0 <= k < |f.subFolders| ==> lib.height[f.subFolders[k]] < lib.height[i]
  }

  /** Sub-folder positions point into the arena, a folder has no more sub-folders than
      the arena has folders, and every sub-folder ranks below its parent: what
      flattening a subtree needs. */
  predicate Valid(lib: Library) {
    |lib.height| == |lib.folders| && Arena(lib)
    && forall i :: 0 <= i < |lib.folders| ==> RanksBelow(lib, i)
  }

  predicate FolderFits(lib: Library, i: nat)
    requires i < |lib.folders| == |lib.height|
  {
    Fits(lib, lib.folders[i]) && RanksBelow(lib, i)
  }

  /** A folder whose sub-folder list can be searched against the arena. */
  predicate Fits(lib: Library, root: Folder) {
    |root.subFolders| <= |lib.folders| && forall k :: 0 <= k < |root.subFolders| ==> root.subFolders[k] < |lib.folders|
  }

  /** The loader files every song and macro of every folder in the global lists too. */
  predicate Catalogued(lib: Library) {
    forall i, e :: 0 <= i < |lib.folders| && e in Own(lib.folders[i], Songs) ==> e in lib.songs
  }

  /** `self.omnifolder`: a virtual root whose sub-folders are all folders, in arena
      order, holding every song and macro. */
  function Omnifolder(lib: Library): (root: Folder)
    ensures Fits(lib, root)
    ensures |root.subFolders| == |lib.folders| && forall k :: 0 <= k < |lib.folders| ==> root.subFolders[k] == k
    ensures root.songs == lib.songs && root.macros == lib.macros
  {
    Folder("everything", ".", seq(|lib.folders|, i => i), lib.songs, lib.macros)
  }

  /** `[sub.searchableName for sub in root.subFolders]`. */
  function SubFolderNames(lib: Library, root: Folder): (names: seq<string>)
    requires Fits(lib, root)
    ensures |names| == |root.subFolders|
    ensures forall k :: 0 <= k < |root.subFolders| ==> names[k] == lib.folders[root.subFolders[k]].searchableName
  {
    seq(|root.subFolders|, k requires 0 <= k < |root.subFolders| => lib.folders[root.subFolders[k]].searchableName)
  }

  // ---------------------------------------------------------------------------
  // searchFolders
  // ---------------------------------------------------------------------------

  /** `searchFolders(parts, root)` with `self.folderSearchLimit` as `branch`: the
      position in `self.folders` of the folder found, or None. As in the source, the
      position `stringSearch` reports is a position in `root.subFolders`, and it is
      used to index `self.folders` directly. */
  ghost function SearchFolders(lib: Library, parts: seq<string>, root: Folder, gen: Generation, branch: nat): (r: Option<nat>)
    requires Arena(lib) && Fits(lib, root) && |parts| >= 1
    ensures r.Some? ==> r.value < |lib.folders|
    decreases |parts|, 0
  {
    var founds := Candidates(lib, parts, root, gen, branch);
    if |parts| == 1 then
      if founds != [] then Some(founds[0]) else None
    else
      TryCandidates(lib, parts[1..], founds, gen, branch)
  }

  /** `searchFolders(parts, root)` as the interpreter runs it: one `stringSearch` at
      this level, then the loop over the candidates, descending into each in turn. */
  method FindFolder(lib: Library, parts: seq<string>, root: Folder, gen: Generation, branch: nat) returns (r: Option<nat>)
    requires Arena(lib) && Fits(lib, root) && |parts| >= 1
    ensures r == SearchFolders(lib, parts, root, gen, branch)
    decreases |parts|
  {
    var subFolderNames := SubFolderNames(lib, root);
    if |parts| == 1 {
      var founds := StringSearch(parts[0], subFolderNames, 1, gen);
      if founds != [] {
        return Some(founds[0]);
      }
      return None;
    }
    var founds := StringSearch(parts[0], subFolderNames, branch, gen);
    for k := 0 to |founds|
      invariant TryCandidates(lib, parts[1..], founds[k..], gen, branch) == SearchFolders(lib, parts, root, gen, branch)
    {
      assert Fits(lib, lib.folders[founds[k]]);
      assert founds[k..][0] == founds[k] && founds[k..][1..] == founds[k + 1..];
      var result := FindFolder(lib, parts[1..], lib.folders[founds[k]], gen, branch);
      if result.Some? {
        return result;
      }
    }
    return None;
  }

  /** The `for candidateFolderIndex in founds` loop: the first candidate from which
      the rest of the path resolves. */
  ghost function TryCandidates(lib: Library, parts: seq<string>, cands: seq<nat>, gen: Generation, branch: nat): (r: Option<nat>)
    requires Arena(lib) && |parts| >= 1
    requires forall k :: 0 <= k < |cands| ==> cands[k] < |lib.folders|
    ensures r.Some? ==> r.value < |lib.folders|
    decreases |parts|, 1, |cands|
  {
    if cands == [] then None
    else
      assert Fits(lib, lib.folders[cands[0]]);
      match SearchFolders(lib, parts, lib.folders[cands[0]], gen, branch)
      case Some(j) => Some(j)
      case None => TryCandidates(lib, parts, cands[1..], gen, branch)
  }

  /** How many candidates `stringSearch` may return at the level of `parts[0]`: one
      for the last part of the path, `branch` for the others. */
  function Breadth(parts: seq<string>, branch: nat): nat {
    if |parts| == 1 then 1 else branch
  }

  /** `stringSearch(parts[0], subFolderSNs, ...)`: the positions searched at the level
      of `parts[0]`, at most `Breadth` of them, all of them positions in the arena. */
  ghost function Candidates(lib: Library, parts: seq<string>, root: Folder, gen: Generation, branch: nat): (cands: seq<nat>)
    requires Fits(lib, root) && |parts| >= 1
    ensures |cands| <= Breadth(parts, branch) && forall k :: 0 <= k < |cands| ==> cands[k] < |lib.folders|
  {
    var names := SubFolderNames(lib, root);
    Search(parts[0], names, Breadth(parts, branch), gen)
  }

  /** The loop returns the result of the first candidate that resolves, every earlier
      candidate having failed, and None when none resolves: `k` is the position of
      that candidate, or `|cands|`. */
  lemma {:induction false} FirstSuccess(lib: Library, parts: seq<string>, cands: seq<nat>, gen: Generation, branch: nat)
      returns (k: nat)
    requires Arena(lib) && |parts| >= 1
    requires forall k :: 0 <= k < |cands| ==> cands[k] < |lib.folders|
    ensures k <= |cands|
    ensures forall k' :: 0 <= k' < k ==> ResolveFrom(lib, parts, cands[k'], gen, branch) == None
    ensures k < |cands| ==> ResolveFrom(lib, parts, cands[k], gen, branch).Some?
    ensures TryCandidates(lib, parts, cands, gen, branch) ==
      if k < |cands| then ResolveFrom(lib, parts, cands[k], gen, branch) else None
    decreases |cands|
  {
    if cands == [] {
      k := 0;
    } else if ResolveFrom(lib, parts, cands[0], gen, branch).Some? {
      k := 0;
    } else {
      var k1 := FirstSuccess(lib, parts, cands[1..], gen, branch);
      k := k1 + 1;
      forall k' | 0 <= k' < k
        ensures ResolveFrom(lib, parts, cands[k'], gen, branch) == None
      {
        if k' > 0 {
          assert cands[k'] == cands[1..][k' - 1];
        }
      }
      if k < |cands| {
        assert cands[k] == cands[1..][k1];
      }
    }
  }

  /** The rest of the path, searched from the arena folder at position `c`. */
  ghost function ResolveFrom(lib: Library, parts: seq<string>, c: nat, gen: Generation, branch: nat): Option<nat>
    requires Arena(lib) && |parts| >= 1 && c < |lib.folders|
  {
    assert Fits(lib, lib.folders[c]);
    SearchFolders(lib, parts, lib.folders[c], gen, branch)
  }

  /** A way down the path: one reported position per part, each among the candidates
      searched at its level (one for the last part, `branch` for the others), the
      next level searching the folder the position names in the arena. */
  ghost predicate IsWalk(lib: Library, parts: seq<string>, root: Folder, gen: Generation, branch: nat, c: seq<nat>)
    requires Arena(lib) && Fits(lib, root)
    decreases |parts|
  {
    |c| == |parts| >= 1
    && c[0] in Candidates(lib, parts, root, gen, branch)
    && (|parts| > 1 ==>
          c[0] < |lib.folders| && Fits(lib, lib.folders[c[0]])
          && IsWalk(lib, parts[1..], lib.folders[c[0]], gen, branch, c[1..]))
  }

  /** A resolved path has a walk, one level per part, ending at the folder returned. */
  lemma {:induction false} WalkOf(lib: Library, parts: seq<string>, root: Folder, gen: Generation, branch: nat)
      returns (c: seq<nat>)
    requires Arena(lib) && Fits(lib, root) && |parts| >= 1
    requires SearchFolders(lib, parts, root, gen, branch).Some?
    ensures IsWalk(lib, parts, root, gen, branch, c)
    ensures c[|c| - 1] == SearchFolders(lib, parts, root, gen, branch).value
    decreases |parts|
  {
    var r := SearchFolders(lib, parts, root, gen, branch);
    if |parts| == 1 {
      c := [r.value];
    } else {
      var f := FirstStep(lib, parts, root, gen, branch);
      var c' := WalkOf(lib, parts[1..], lib.folders[f], gen, branch);
      c := WalkCons(lib, parts, root, gen, branch, f, c');
    }
  }

  /** A first step followed by a walk of the rest of the path is a walk of the path. */
  lemma WalkCons(lib: Library, parts: seq<string>, root: Folder, gen: Generation, branch: nat, f: nat, c': seq<nat>)
      returns (c: seq<nat>)
    requires Arena(lib) && Fits(lib, root) && |parts| >= 2
    requires f in Candidates(lib, parts, root, gen, branch) && f < |lib.folders| && Fits(lib, lib.folders[f])
    requires IsWalk(lib, parts[1..], lib.folders[f], gen, branch, c')
    ensures c == [f] + c' && IsWalk(lib, parts, root, gen, branch, c)
    ensures c[|c| - 1] == c'[|c'| - 1]
  {
    c := [f] + c';
    assert c[0] == f && c[1..] == c';
  }

  /** The first level of a resolved path of several parts: a candidate from which the
      rest of the path resolves, to the same folder. */
  lemma FirstStep(lib: Library, parts: seq<string>, root: Folder, gen: Generation, branch: nat)
      returns (f: nat)
    requires Arena(lib) && Fits(lib, root) && |parts| >= 2
    requires SearchFolders(lib, parts, root, gen, branch).Some?
    ensures f in Candidates(lib, parts, root, gen, branch)
    ensures f < |lib.folders| && Fits(lib, lib.folders[f])
    ensures SearchFolders(lib, parts[1..], lib.folders[f], gen, branch) == SearchFolders(lib, parts, root, gen, branch)
  {
    var cands := Candidates(lib, parts, root, gen, branch);
    var k := FirstSuccess(lib, parts[1..], cands, gen, branch);
    f := cands[k];
    
  }

  /** A path with a walk resolves: a failing candidate never hides a later one that
      leads somewhere. */
  lemma {:induction false} WalkResolves(lib: Library, parts: seq<string>, root: Folder, gen: Generation, branch: nat, c: seq<nat>)
    requires Arena(lib) && Fits(lib, root) && |parts| >= 1
    requires IsWalk(lib, parts, root, gen, branch, c)
    ensures SearchFolders(lib, parts, root, gen, branch).Some?
    decreases |parts|
  {
    if |parts| > 1 {
      var cands := Candidates(lib, parts, root, gen, branch);
      var f := c[0];
      WalkResolves(lib, parts[1..], lib.folders[f], gen, branch, c[1..]);
      var k := FirstSuccess(lib, parts[1..], cands, gen, branch);
      var p :| 0 <= p < |cands| && cands[p] == f;
      assert ResolveFrom(lib, parts[1..], cands[p], gen, branch).Some?;
    }
  }

  /** The position quirk: in a library where folder "a" (position 0) holds folder "b"
      (position 1), the path "a/b" resolves to position 0, folder "a" itself, because
      "b" is found at position 0 of "a"'s sub-folder list. */
  lemma PositionQuirk()
    ensures var lib := QuirkLibrary();
      Valid(lib) && SearchFolders(lib, ["a", "b"], Omnifolder(lib), Current, 2) == Some(0)
  {
    var lib := QuirkLibrary();
    QuirkLibraryShape();
    var root := Omnifolder(lib);
    NamedAExample();
    NamedBExample();
    assert Candidates(lib, ["a", "b"], root, Current, 2) == [0];
    assert ["a", "b"][1..] == ["b"];
    assert Candidates(lib, ["b"], lib.folders[0], Current, 2) == [0];
    assert SearchFolders(lib, ["b"], lib.folders[0], Current, 2) == Some(0);
  }

  /** The quirk library is valid, its folders are named "a" and "b" and "a" holds "b". */
  lemma QuirkLibraryShape()
    ensures var lib := QuirkLibrary();
      Valid(lib) && SubFolderNames(lib, Omnifolder(lib)) == ["a", "b"]
      && SubFolderNames(lib, lib.folders[0]) == ["b"]
  {
    var lib := QuirkLibrary();
    assert FolderFits(lib, 0) && FolderFits(lib, 1);
    assert SubFolderNames(lib, Omnifolder(lib)) == ["a", "b"];
  }

  function QuirkLibrary(): Library {
    Library([Folder("a", "a", [1], [], []), Folder("b", "b", [], [], [])], [], [], [1, 0])
  }

  lemma NamedAExample()
    ensures Search("a", ["a", "b"], 2, Current) == [0]
  {
    var pool := ["a", "b"];
    SmallPoolRanksEverything("a", pool, 2, Current);
    var vs := Judge("a", pool, Current);
    JudgeAt("a", pool, Current, 0);
    JudgeAt("a", pool, Current, 1);
    assert pool[0] == "a" && pool[1] == "b";
    SpaceFreeSelfIsExact("a", Current);
    AMissesB();
    FirstOfTwoRanked(vs);
  }

  /** No test of the loop body accepts "b" for the term "a". */
  lemma AMissesB()
    ensures Rank(Examine("a", "b", Current)) == None
  {
    assert RemoveChar("b", ' ') == "b";
    assert Split("b", ' ') == ["b"];
    assert !ContainsContinuousPrefixedSequence("b", "a", 1);
    assert !ContainsPrefixedSequence("b", "a");
    assert !IsSubstring("a", "b") by { assert !IsSubstring("a", "b"[1..]); }
  }

  /** Two items of which only the first matches, exactly: the result is `[0]`. */
  lemma FirstOfTwoRanked(vs: seq<Verdict>)
    requires |vs| == 2 && Rank(vs[0]) == Some(ExactTier) && Rank(vs[1]) == None
    ensures Flatten(RankAll(vs, 2)) == [0]
  {
    var e: seq<nat> := [];
    assert e + [0] == [0];
    assert RankAll(vs, 0) == [e, e, e, e, e, e, e];
    assert RankAll(vs, 1) == RankAll(vs, 0)[ExactTier := e + [0]];
    assert RankAll(vs, 2) == [[0], e, e, e, e, e, e];
    FlattenSeven(RankAll(vs, 2));
  }

  lemma NamedBExample()
    ensures Search("b", ["b"], 1, Current) == [0]
  {
    var pool := ["b"];
    SmallPoolRanksEverything("b", pool, 1, Current);
    var vs := Judge("b", pool, Current);
    JudgeAt("b", pool, Current, 0);
    assert pool[0] == "b";
    SpaceFreeSelfIsExact("b", Current);
    OnlyOneRanked(vs);
  }

  /** One item, matching exactly: the result is `[0]`. */
  lemma OnlyOneRanked(vs: seq<Verdict>)
    requires |vs| == 1 && Rank(vs[0]) == Some(ExactTier)
    ensures Flatten(RankAll(vs, 1)) == [0]
  {
    var e: seq<nat> := [];
    assert e + [0] == [0];
    assert RankAll(vs, 0) == [e, e, e, e, e, e, e];
    assert RankAll(vs, 1) == [[0], e, e, e, e, e, e];
    FlattenSeven(RankAll(vs, 1));
  }

  // ---------------------------------------------------------------------------
  // getAllSongsInFolder / getAllMacrosInFolder
  // ---------------------------------------------------------------------------

  /** `getAllSongsInFolder(folder)` (kind Songs) and `getAllMacrosInFolder(folder)`
      (kind Macros) for the arena folder at position `i`: its own list, then each
      sub-folder's gathered list in `subFolders` order. */
  function Gather(lib: Library, i: nat, kind: Kind): (r: seq<Entry>)
    requires Valid(lib) && i < |lib.folders|
    ensures IsPrefix(Own(lib.folders[i], kind), r)
    decreases lib.height[i], 1, 0
  {
    assert FolderFits(lib, i);
    Own(lib.folders[i], kind) + GatherAll(lib, lib.folders[i].subFolders, kind, lib.height[i])
  }

  /** The `for sub in folder.subFolders` loop: the gathered lists of `kids`, joined. */
  function GatherAll(lib: Library, kids: seq<nat>, kind: Kind, bound: nat): seq<Entry>
    requires Valid(lib)
    requires forall k :: 0 <= k < |kids| ==> kids[k] < |lib.folders| && lib.height[kids[k]] < bound
    decreases bound, 0, |kids|
  {
    if kids == [] then [] else Gather(lib, kids[0], kind) + GatherAll(lib, kids[1..], kind, bound)
  }

  /** Folder `d` lies in the subtree of folder `i` (`i` included). */
  predicate Reaches(lib: Library, i: nat, d: nat)
    requires Valid(lib) && i < |lib.folders|
    decreases lib.height[i]
  {
    assert FolderFits(lib, i);
    var subs := lib.folders[i].subFolders;
    i == d || exists k :: 0 <= k < |subs| && Reaches(lib, subs[k], d)
  }

  /** Some folder of the subtree of `i` holds `e`. */
  predicate HeldBelow(lib: Library, i: nat, kind: Kind, e: Entry)
    requires Valid(lib) && i < |lib.folders|
  {
    exists d: nat :: d < |lib.folders| && Reaches(lib, i, d) && e in Own(lib.folders[d], kind)
  }

  /** An entry is gathered from folder `i` exactly when some folder of its subtree
      holds it. */
  lemma {:induction false} GatherMembers(lib: Library, i: nat, kind: Kind, e: Entry)
    requires Valid(lib) && i < |lib.folders|
    ensures e in Gather(lib, i, kind) <==> HeldBelow(lib, i, kind, e)
    decreases lib.height[i], 1, 0
  {
    assert FolderFits(lib, i);
    var subs := lib.folders[i].subFolders;
    GatherAllMembers(lib, subs, kind, lib.height[i], e);
    if e in Gather(lib, i, kind) {
      if e in Own(lib.folders[i], kind) {
        assert Reaches(lib, i, i);
      } else {
        var k :| 0 <= k < |subs| && HeldBelow(lib, subs[k], kind, e);
        var d: nat :| d < |lib.folders| && Reaches(lib, subs[k], d) && e in Own(lib.folders[d], kind);
        assert Reaches(lib, i, d);
      }
    }
    if HeldBelow(lib, i, kind, e) {
      var d: nat :| d < |lib.folders| && Reaches(lib, i, d) && e in Own(lib.folders[d], kind);
      if d != i {
        var k :| 0 <= k < |subs| && Reaches(lib, subs[k], d);
        assert HeldBelow(lib, subs[k], kind, e);
      }
    }
  }

  lemma {:induction false} GatherAllMembers(lib: Library, kids: seq<nat>, kind: Kind, bound: nat, e: Entry)
    requires Valid(lib)
    requires forall k :: 0 <= k < |kids| ==> kids[k] < |lib.folders| && lib.height[kids[k]] < bound
    ensures e in GatherAll(lib, kids, kind, bound) <==> exists k :: 0 <= k < |kids| && HeldBelow(lib, kids[k], kind, e)
    decreases bound, 0, |kids|
  {
    if kids != [] {
      GatherMembers(lib, kids[0], kind, e);
      GatherAllMembers(lib, kids[1..], kind, bound, e);
      if exists k :: 0 <= k < |kids| && HeldBelow(lib, kids[k], kind, e) {
        var k :| 0 <= k < |kids| && HeldBelow(lib, kids[k], kind, e);
        if k > 0 {
          assert kids[1..][k - 1] == kids[k];
        }
      }
      if e in GatherAll(lib, kids[1..], kind, bound) {
        var k :| 0 <= k < |kids| - 1 && HeldBelow(lib, kids[1..][k], kind, e);
        assert kids[1..][k] == kids[k + 1];
      }
    }
  }

  /** Every song gathered from a folder is one of the library's songs. */
  lemma GatheredSongsAreCatalogued(lib: Library, i: nat, e: Entry)
    requires Valid(lib) && Catalogued(lib) && i < |lib.folders|
    requires e in Gather(lib, i, Songs)
    ensures e in lib.songs
  {
    GatherMembers(lib, i, Songs, e);
    var d: nat :| d < |lib.folders| && Reaches(lib, i, d) && e in Own(lib.folders[d], Songs);
  }

  // ---------------------------------------------------------------------------
  // list.sort(key=lambda x: len(x.searchableName))
  // ---------------------------------------------------------------------------

  function Len(e: Entry): nat {
    |e.searchableName|
  }

  predicate SortedByLen(s: seq<Entry>) {
    forall i, j :: 0 <= i < j < |s| ==> Len(s[i]) <= Len(s[j])
  }

  /** Put `x` before the first entry whose name is at least as long. */
  function Insert(x: Entry, s: seq<Entry>): (r: seq<Entry>)
    ensures |r| == |s| + 1
  {
    if s == [] || Len(x) <= Len(s[0]) then [x] + s else [s[0]] + Insert(x, s[1..])
  }

  /** Python's stable sort by the length of the searchable name: as many entries,
      shortest names first. */
  function SortByLen(s: seq<Entry>): (r: seq<Entry>)
    ensures |r| == |s| && SortedByLen(r)
  {
    if s == [] then []
    else
      var t := SortByLen(s[1..]);
      InsertSorted(s[0], t);
      Insert(s[0], t)
  }

  /** The entries of `s` whose name has length `n`, in order. */
  function WithLen(s: seq<Entry>, n: nat): seq<Entry> {
    if s == [] then [] else (if Len(s[0]) == n then [s[0]] else []) + WithLen(s[1..], n)
  }

  lemma {:induction false} InsertCounts(x: Entry, s: seq<Entry>)
    ensures multiset(Insert(x, s)) == multiset(s) + multiset{x}
  {
    if s != [] && Len(x) > Len(s[0]) {
      InsertCounts(x, s[1..]);
      assert s == [s[0]] + s[1..];
    }
  }

  predicate AtLeast(s: seq<Entry>, b: nat) {
    forall i :: 0 <= i < |s| ==> b <= Len(s[i])
  }

  lemma ConsSorted(h: Entry, s: seq<Entry>)
    requires SortedByLen(s) && AtLeast(s, Len(h))
    ensures SortedByLen([h] + s)
  {
    forall i, j | 0 <= i < j < |[h] + s|
      ensures Len(([h] + s)[i]) <= Len(([h] + s)[j])
    {
      assert ([h] + s)[j] == s[j - 1];
      if i > 0 {
        assert ([h] + s)[i] == s[i - 1];
      }
    }
  }

  lemma {:induction false} InsertAtLeast(x: Entry, s: seq<Entry>, b: nat)
    requires AtLeast(s, b) && b <= Len(x)
    ensures AtLeast(Insert(x, s), b)
  {
    if s != [] && Len(x) > Len(s[0]) {
      InsertAtLeast(x, s[1..], b);
      var r := Insert(x, s[1..]);
      assert forall i :: 0 < i < |[s[0]] + r| ==> ([s[0]] + r)[i] == r[i - 1];
    } else {
      assert forall i :: 0 < i < |[x] + s| ==> ([x] + s)[i] == s[i - 1];
    }
  }

  lemma {:induction false} InsertSorted(x: Entry, s: seq<Entry>)
    requires SortedByLen(s)
    ensures SortedByLen(Insert(x, s))
  {
    if s == [] {
    } else if Len(x) > Len(s[0]) {
      InsertSorted(x, s[1..]);
      InsertAtLeast(x, s[1..], Len(s[0]));
      ConsSorted(s[0], Insert(x, s[1..]));
    } else {
      ConsSorted(x, s);
    }
  }

  lemma {:induction false} InsertWithLen(x: Entry, s: seq<Entry>, n: nat)
    ensures WithLen(Insert(x, s), n) == (if Len(x) == n then [x] else []) + WithLen(s, n)
  {
    if s != [] && Len(x) > Len(s[0]) {
      InsertWithLen(x, s[1..], n);
      var r := Insert(x, s[1..]);
      assert ([s[0]] + r)[1..] == r;
      assert WithLen([s[0]] + r, n) == (if Len(s[0]) == n then [s[0]] else []) + WithLen(r, n);
    } else {
      assert ([x] + s)[1..] == s;
    }
  }

  /** The sort orders by length, keeps every entry, and keeps entries of equal length
      in their original order (it is stable). */
  lemma SortByLenIsStableSort(s: seq<Entry>)
    ensures SortedByLen(SortByLen(s))
    ensures multiset(SortByLen(s)) == multiset(s)
    ensures forall n :: WithLen(SortByLen(s), n) == WithLen(s, n)
  {
    SortByLenCounts(s);
    forall n
      ensures WithLen(SortByLen(s), n) == WithLen(s, n)
    {
      SortByLenStable(s, n);
    }
  }

  lemma {:induction false} SortByLenCounts(s: seq<Entry>)
    ensures multiset(SortByLen(s)) == multiset(s)
  {
    if s != [] {
      SortByLenCounts(s[1..]);
      InsertCounts(s[0], SortByLen(s[1..]));
      assert s == [s[0]] + s[1..];
    }
  }

  lemma {:induction false} SortByLenStable(s: seq<Entry>, n: nat)
    ensures WithLen(SortByLen(s), n) == WithLen(s, n)
  {
    if s != [] {
      SortByLenStable(s[1..], n);
      InsertWithLen(s[0], SortByLen(s[1..]), n);
    }
  }

  /** Sorting a list that is already in order changes nothing; the loader leaves
      `self.songs` and `self.macros` in order, so sorting them again in place is idle. */
  lemma {:induction false} SortingSortedIsIdle(s: seq<Entry>)
    requires SortedByLen(s)
    ensures SortByLen(s) == s
  {
    if s != [] {
      SortingSortedIsIdle(s[1..]);
      assert s == [s[0]] + s[1..];
    }
  }
}
