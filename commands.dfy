/** The command language shared by both interpreters: a command is split into
    modifiers and a search text (`processSearchCommand`, src/Radium2.py:238-284 and
    Radium.py:145-191), each `,`-separated term of the search text selects songs
    (`processSearchTerm`, src/Radium2.py:286-310 and Radium.py:193-216), and the
    modifiers say what the selection does to the play queue or to the active set.
    The functions here are the specification the two `Radium` classes are proved
    against. */
module Commands {
  import opened Strings
  import opened Normalize
  import opened Matcher
  import opened Library

  // ---------------------------------------------------------------------------
  // Splitting a command
  // ---------------------------------------------------------------------------

  /** `searchableChars` of the generation's matcher module. */
  function Alphabet(gen: Generation): set<char> {
    if gen == Current then CurrentChars else LegacyChars
  }

  /** The search text starts at a searchable character or a slash. */
  predicate StartsSearch(c: char, gen: Generation) {
    c in Alphabet(gen) || c == '/'
  }

  /** The first position from `p` on where the search text can start, or `|cmd|`. */
  function FirstSearch(cmd: string, p: nat, gen: Generation): (i: nat)
    requires p <= |cmd|
    ensures p <= i <= |cmd|
    ensures forall k :: p <= k < i ==> !StartsSearch(cmd[k], gen)
    ensures i < |cmd| ==> StartsSearch(cmd[i], gen)
    decreases |cmd| - p
  {
    if p == |cmd| || StartsSearch(cmd[p], gen) then p else FirstSearch(cmd, p + 1, gen)
  }

  /** The `split` index: the first search character, or 0 when the command has none
      (the loop leaves `split` at its initial value). */
  function SplitPoint(cmd: string, gen: Generation): (split: nat)
    ensures split == 0 || split < |cmd|
  {
    var i := FirstSearch(cmd, 0, gen);
    if i == |cmd| then 0 else i
  }

  /** The `for i in range(len(cmd))` loop that finds `split`. */
  method SplitIndex(cmd: string, gen: Generation) returns (split: nat)
    ensures split == SplitPoint(cmd, gen)
  {
    split := 0;
    var i := 0;
    while i < |cmd|
      invariant 0 <= i <= |cmd|
      invariant forall k :: 0 <= k < i ==> !StartsSearch(cmd[k], gen)
    {
      if cmd[i] in Alphabet(gen) || cmd[i] == '/' {
        split := i;
        assert FirstSearch(cmd, 0, gen) == i;
        return;
      }
      i := i + 1;
    }
    assert FirstSearch(cmd, 0, gen) == |cmd|;
  }

  /** `cmd[:split]`. */
  function Modifiers(cmd: string, gen: Generation): string {
    cmd[..SplitPoint(cmd, gen)]
  }

  /** `cmd[split:]`. */
  function SearchText(cmd: string, gen: Generation): string {
    cmd[SplitPoint(cmd, gen)..]
  }

  /** The terms of a command: its search text's stripped, non-empty `,`-segments. */
  function Terms(cmd: string, gen: Generation): seq<string> {
    Segments(SearchText(cmd, gen), ',')
  }

  /** Modifiers and search text make up the command, and no modifier is a searchable
      character or a slash. */
  lemma ModifiersPrecedeSearch(cmd: string, gen: Generation)
    ensures Modifiers(cmd, gen) + SearchText(cmd, gen) == cmd
    ensures forall k :: 0 <= k < |Modifiers(cmd, gen)| ==> !StartsSearch(Modifiers(cmd, gen)[k], gen)
  {
    var i := FirstSearch(cmd, 0, gen);
    assert cmd[..SplitPoint(cmd, gen)] + cmd[SplitPoint(cmd, gen)..] == cmd;
  }

  /** In the current generation `-` is searchable, so it never reaches the modifiers;
      neither does a space, `_` or `&`. */
  lemma CurrentModifiersLackDash(cmd: string)
    ensures '-' !in Modifiers(cmd, Current) && ' ' !in Modifiers(cmd, Current)
  {
    ModifiersPrecedeSearch(cmd, Current);
    var m := Modifiers(cmd, Current);
    forall k | 0 <= k < |m|
      ensures m[k] != '-' && m[k] != ' '
    {
      assert !StartsSearch(m[k], Current);
    }
  }

  /** `@-abc`: the legacy alphabet leaves `-` among the modifiers, the current one
      starts the search text at it. */
  lemma DashExamples()
    ensures Modifiers("@-abc", Legacy) == "@-"
    ensures Modifiers("@-abc", Current) == "@"
  {
    assert !StartsSearch('@', Legacy) && !StartsSearch('-', Legacy) && StartsSearch('a', Legacy);
    assert FirstSearch("@-abc", 2, Legacy) == 2;
    assert FirstSearch("@-abc", 0, Legacy) == 2;
    assert !StartsSearch('@', Current) && StartsSearch('-', Current);
    assert FirstSearch("@-abc", 1, Current) == 1;
    assert FirstSearch("@-abc", 0, Current) == 1;
  }

  // ---------------------------------------------------------------------------
  // Selecting songs for one term
  // ---------------------------------------------------------------------------

  /** A term made of slashes only: its path has no part, and `searchFolders([])`
      raises IndexError at `parts[0]`. */
  predicate AllSlashes(term: string) {
    forall k :: 0 <= k < |term| ==> term[k] == '/'
  }

  /** `list(filter(len, term.split("/")))`: empty exactly for a term of slashes only. */
  function PathParts(term: string): (parts: seq<string>)
    ensures parts == [] <==> AllSlashes(term)
  {
    NoPiecesIffOnlySeparators(term, '/');
    NonEmpty(Split(term, '/'))
  }

  /** A term that starts or ends with `/` selects a whole folder. */
  predicate WholeFolder(term: string)
    requires term != []
  {
    term[0] == '/' || term[|term| - 1] == '/'
  }

  /** The pool a single song is picked from: the current interpreter sorts it in place
      by name length first, the legacy one searches it as it is. */
  function Arranged(pool: seq<Song>, gen: Generation): seq<Song> {
    if gen == Current then SortByLen(pool) else pool
  }

  lemma ArrangedKeepsSongs(pool: seq<Song>, gen: Generation)
    ensures multiset(Arranged(pool, gen)) == multiset(pool)
  {
    SortByLenIsStableSort(pool);
  }

  /** `[songPool[i] for i in stringSearch(name, folderSongSNs, 1)]`. */
  ghost function PickSong(pool: seq<Song>, name: string, gen: Generation): (r: seq<Song>)
    ensures |r| <= 1
    ensures forall s :: s in r ==> s in pool
  {
    var sorted := Arranged(pool, gen);
    var found := Search(name, Names(sorted), 1, gen);
    ArrangedKeepsSongs(pool, gen);
    assert forall k :: 0 <= k < |found| ==> sorted[found[k]] in multiset(pool);
    seq(|found|, k requires 0 <= k < |found| => sorted[found[k]])
  }

  /** A song whose searchable name is the name sought is picked, the first such one
      in the arranged pool when there are several (for a name without spaces the
      songs' spaces are ignored). */
  lemma ExactSongIsPicked(pool: seq<Song>, name: string, gen: Generation, j: nat)
    requires j < |Arranged(pool, gen)|
    requires SpaceAccounting(name, Arranged(pool, gen)[j].searchableName) == name
    requires forall i :: 0 <= i < j ==> SpaceAccounting(name, Arranged(pool, gen)[i].searchableName) != name
    ensures PickSong(pool, name, gen) == [Arranged(pool, gen)[j]]
  {
    var sorted := Arranged(pool, gen);
    var names := Names(sorted);
    assert forall i :: 0 <= i < |sorted| ==> names[i] == sorted[i].searchableName;
    ExactMatchFirst(name, names, 1, gen, j);
  }

  /** `processSearchTerm(term)` with `self.folderSearchLimit == branch`: the songs of
      the whole folder the path names, or at most one song picked from the named
      folder or from all songs; nothing when the folder path does not resolve. */
  ghost function SelectSongs(lib: Library, term: string, gen: Generation, branch: nat): (r: seq<Song>)
    requires Valid(lib) && term != [] && !AllSlashes(term)
    ensures !WholeFolder(term) ==> |r| <= 1
  {
    var parts := PathParts(term);
    var whole := WholeFolder(term);
    if whole || |parts| > 1 then
      var folderParts := if whole then parts else parts[..|parts| - 1];
      match SearchFolders(lib, folderParts, Omnifolder(lib), gen, branch)
      case None => []
      case Some(f) =>
        var pool := Gather(lib, f, Songs);
        if whole then pool else PickSong(pool, parts[|parts| - 1], gen)
    else PickSong(lib.songs, parts[|parts| - 1], gen)
  }

  /** A whole-folder term selects exactly the songs held in the subtree of the folder
      its path resolves to, and nothing when it resolves to none. */
  lemma WholeFolderSelection(lib: Library, term: string, gen: Generation, branch: nat, s: Song)
    requires Valid(lib) && term != [] && !AllSlashes(term) && WholeFolder(term)
    ensures var found := SearchFolders(lib, PathParts(term), Omnifolder(lib), gen, branch);
      (found.None? ==> SelectSongs(lib, term, gen, branch) == [])
      && (found.Some? ==> (s in SelectSongs(lib, term, gen, branch) <==> HeldBelow(lib, found.value, Songs, s)))
  {
    var found := SearchFolders(lib, PathParts(term), Omnifolder(lib), gen, branch);
    if found.Some? {
      GatherMembers(lib, found.value, Songs, s);
    }
  }

  /** Whatever a term selects is one of the library's songs. */
  lemma SelectionIsCatalogued(lib: Library, term: string, gen: Generation, branch: nat, s: Song)
    requires Valid(lib) && Catalogued(lib) && term != [] && !AllSlashes(term)
    requires s in SelectSongs(lib, term, gen, branch)
    ensures s in lib.songs
  {
    var parts := PathParts(term);
    var whole := WholeFolder(term);
    if whole || |parts| > 1 {
      var folderParts := if whole then parts else parts[..|parts| - 1];
      var f := SearchFolders(lib, folderParts, Omnifolder(lib), gen, branch).value;
      GatheredSongsAreCatalogued(lib, f, s);
    }
  }

  // ---------------------------------------------------------------------------
  // Selecting songs for a command
  // ---------------------------------------------------------------------------

  /** What `processSearchTerm` gives for each term that does not raise. */
  type Selector = string --> seq<Song>

  ghost predicate Selects(select: Selector) {
    forall t :: t != [] && !AllSlashes(t) ==> select.requires(t)
  }

  /** `processSearchTerm` with `self.folderSearchLimit == branch`, as a selector. */
  ghost function TermSelector(lib: Library, gen: Generation, branch: nat): (select: Selector)
    requires Valid(lib)
    ensures Selects(select)
  {
    t requires Valid(lib) && t != [] && !AllSlashes(t) => SelectSongs(lib, t, gen, branch)
  }

  /** `select` agrees with `processSearchTerm` on the library `lib`, as `TermSelector`
      does, without saying how. */
  ghost predicate SelectsSongs(select: Selector, lib: Library, gen: Generation, branch: nat) {
    Selects(select) && Valid(lib)
    && forall t {:trigger SelectSongs(lib, t, gen, branch)} :: t != [] && !AllSlashes(t) ==> select(t) == SelectSongs(lib, t, gen, branch)
  }

  lemma TermSelectorSelectsSongs(lib: Library, gen: Generation, branch: nat)
    requires Valid(lib)
    ensures SelectsSongs(TermSelector(lib, gen, branch), lib, gen, branch)
  {
  }

  /** `allSelectedSongs` after the loop over `terms`, or None when one of them raises
      IndexError (a term of slashes only). */
  function SelectAll(select: Selector, terms: seq<string>): (r: Option<seq<Song>>)
    requires Selects(select) && forall k :: 0 <= k < |terms| ==> terms[k] != []
    ensures r.None? <==> exists k :: 0 <= k < |terms| && AllSlashes(terms[k])
  {
    if terms == [] then Some([])
    else
      var last := terms[|terms| - 1];
      match SelectAll(select, terms[..|terms| - 1])
      case None => None
      case Some(sel) => if AllSlashes(last) then None else Some(sel + select(last))
  }

  /** The selection is defined exactly when no term is made of slashes only, and then
      it holds what the terms select, each song as often as the terms select it. */
  lemma {:induction false} SelectAllMembers(select: Selector, terms: seq<string>, s: Song)
    requires Selects(select) && forall k :: 0 <= k < |terms| ==> terms[k] != []
    ensures SelectAll(select, terms).None? <==> exists k :: 0 <= k < |terms| && AllSlashes(terms[k])
    ensures SelectAll(select, terms).Some? ==>
      (s in SelectAll(select, terms).value <==>
        exists k :: 0 <= k < |terms| && !AllSlashes(terms[k]) && s in select(terms[k]))
  {
    if terms != [] {
      var init := terms[..|terms| - 1];
      var last := terms[|terms| - 1];
      SelectAllMembers(select, init, s);
      assert forall k :: 0 <= k < |init| ==> init[k] == terms[k];
      if exists k :: 0 <= k < |terms| && AllSlashes(terms[k]) {
        var k :| 0 <= k < |terms| && AllSlashes(terms[k]);
        if k < |init| {
          assert AllSlashes(init[k]);
        }
      }
    }
  }

  // ---------------------------------------------------------------------------
  // What a command does
  // ---------------------------------------------------------------------------

  /** How an `@` command combines the selection with the active set. */
  datatype SetOp = Union | Difference | Intersection | Replace

  /** The flags are tested in the order `+`, `-`, `*`. */
  function ActiveOp(mods: string): SetOp {
    if '+' in mods then Union
    else if '-' in mods then Difference
    else if '*' in mods then Intersection
    else Replace
  }

  /** The current generation never reaches the `-` branch. */
  lemma CurrentNeverSubtracts(cmd: string)
    ensures ActiveOp(Modifiers(cmd, Current)) != Difference
  {
    CurrentModifiersLackDash(cmd);
  }

  /** What the player keeps between commands: `self.songQueue` and `self.activeSongs`. */
  datatype PlayerState = PlayerState(queue: seq<Song>, active: set<Song>)

  /** How a command or an entry ends: normally, or with an exception escaping it. */
  datatype Outcome = Completed | Raised(err: PyError)

  /** The change a command asks for, before the shuffles are drawn. */
  datatype Effect =
    | ClearActive
    | ShuffleQueue
    | Fail(err: PyError)
    | NoChange
    | SetActive(members: set<Song>)
    | Enqueue(songs: seq<Song>, append: bool, shuffle: bool)

  /** `processSearchCommand(cmd)`: the lone commands `@` and `?`, then the effect the
      modifiers and the terms of any other command ask for. */
  function Interpret(select: Selector, gen: Generation, cmd: string): (e: Effect)
    requires Selects(select)
    ensures e.ClearActive? <==> cmd == "@"
    ensures e.ShuffleQueue? <==> cmd == "?"
    ensures e == Fail(TypeError) ==> '@' in Modifiers(cmd, gen) && ActiveOp(Modifiers(cmd, gen)) != Replace
  {
    if cmd == "@" then ClearActive
    else if cmd == "?" then ShuffleQueue
    else Decide(select, Modifiers(cmd, gen), Terms(cmd, gen))
  }

  /** What a command with modifiers `mods` and terms `terms` does. An `@` command
      with `+`, `-` or `*` evaluates `set += list`, `set -= list` or `set &= list`,
      which raise TypeError in Python before the set changes; a term of slashes only
      raises IndexError before anything changes. */
  function Decide(select: Selector, mods: string, terms: seq<string>): (e: Effect)
    requires Selects(select) && forall k :: 0 <= k < |terms| ==> terms[k] != []
    ensures e == Fail(IndexError) <==> exists k :: 0 <= k < |terms| && AllSlashes(terms[k])
    ensures e == Fail(TypeError) ==> '@' in mods && ActiveOp(mods) != Replace
    ensures e != Fail(FileError) && !e.ClearActive? && !e.ShuffleQueue?
  {
    match SelectAll(select, terms)
    case None => Fail(IndexError)
    case Some(sel) =>
      if sel == [] then NoChange
      else if '@' in mods then
        (match ActiveOp(mods)
         case Replace => SetActive(set s | s in sel)
         case _ => Fail(TypeError))
      else Enqueue(sel, '+' in mods, '?' in mods)
  }

  /** `got` is `songs`, or some permutation of it when it was shuffled. */
  predicate ArrangedAs(got: seq<Song>, songs: seq<Song>, shuffled: bool) {
    if shuffled then multiset(got) == multiset(songs) else got == songs
  }

  /** The states before and after an effect, with the outcome; `random.shuffle` may
      give any permutation. */
  predicate Performs(e: Effect, st: PlayerState, st': PlayerState, out: Outcome)
    ensures Performs(e, st, st', out) ==> (out.Raised? <==> e.Fail?) && (out.Raised? ==> st' == st)
  {
    match e
    case ClearActive => st' == st.(active := {}) && out == Completed
    case ShuffleQueue => st'.active == st.active && multiset(st'.queue) == multiset(st.queue) && out == Completed
    case Fail(err) => st' == st && out == Raised(err)
    case NoChange => st' == st && out == Completed
    case SetActive(members) => st' == st.(active := members) && out == Completed
    case Enqueue(songs, append, shuffle) =>
      st'.active == st.active && out == Completed && |st'.queue| == |st.queue| + |songs|
      && if append then st'.queue[..|st.queue|] == st.queue && ArrangedAs(st'.queue[|st.queue|..], songs, shuffle)
         else st'.queue[|songs|..] == st.queue && ArrangedAs(st'.queue[..|songs|], songs, shuffle)
  }

  /** One command of an entry takes the player from `st` to `st'`. */
  predicate CommandStep(select: Selector, gen: Generation, st: PlayerState, cmd: string, st': PlayerState, out: Outcome)
    requires Selects(select)
  {
    Performs(Interpret(select, gen, cmd), st, st', out)
  }

  /** A relation between the state before a command, the command, the state after
      it and how it ended. */
  type StepRelation = (PlayerState, string, PlayerState, Outcome) -> bool

  /** `step` relates exactly the states, commands and outcomes that `CommandStep`
      relates. The quantifier is instantiated only where a proof names a command step. */
  ghost predicate StepsOf(step: StepRelation, select: Selector, gen: Generation) {
    forall st, cmd, st', out {:trigger CommandStep(select, gen, st, cmd, st', out)} ::
      step(st, cmd, st', out) == (Selects(select) && CommandStep(select, gen, st, cmd, st', out))
  }

  lemma StepsExist(select: Selector, gen: Generation)
    ensures exists step :: StepsOf(step, select, gen)
  {
    var step: StepRelation := (st, cmd, st', out) => Selects(select) && CommandStep(select, gen, st, cmd, st', out);
    assert StepsOf(step, select, gen);
  }

  /** The step relation of `processSearchCommand` with the selector `select`. */
  ghost function CommandSteps(select: Selector, gen: Generation): (step: StepRelation)
    ensures StepsOf(step, select, gen)
  {
    StepsExist(select, gen);
    var step :| StepsOf(step, select, gen);
    step
  }

  /** The commands of an entry run in order from `states[0]`, each command one `step`;
      `states[i + 1]` is the state after command `i`. The run stops at the first
      command that raises, so the commands after it do not run. Defined by its last
      step; `RunSteps` states it command by command. */
  ghost predicate Runs(step: StepRelation, cmds: seq<string>, states: seq<PlayerState>, out: Outcome)
    ensures Runs(step, cmds, states, out) ==> 1 <= |states| <= |cmds| + 1 && (out.Completed? ==> |states| == |cmds| + 1)
    decreases |states|
  {
    if |states| <= 1 then |states| == 1 && cmds == [] && out == Completed
    else
      var n := |states| - 1;
      n <= |cmds| && (out.Completed? ==> n == |cmds|)
      && Runs(step, cmds[..n - 1], states[..n], Completed)
      && step(states[n - 1], cmds[n - 1], states[n], out)
  }

  // ---------------------------------------------------------------------------
  // Properties of a command
  // ---------------------------------------------------------------------------

  /** Queue mode keeps the old queue as one block, before the selection with `+` and
      after it otherwise, and adds exactly the selected songs, shuffled with `?`; the
      active set is untouched. */
  lemma QueueModeAddsSelection(select: Selector, mods: string, terms: seq<string>, st: PlayerState, st': PlayerState, out: Outcome)
    requires Selects(select) && forall k :: 0 <= k < |terms| ==> terms[k] != []
    requires '@' !in mods && SelectAll(select, terms).Some? && SelectAll(select, terms).value != []
    requires Performs(Decide(select, mods, terms), st, st', out)
    ensures var sel := SelectAll(select, terms).value;
      multiset(st'.queue) == multiset(st.queue) + multiset(sel)
      && st'.active == st.active && out == Completed
      && ('+' in mods ==> IsPrefix(st.queue, st'.queue))
      && ('+' !in mods ==> st'.queue[|st'.queue| - |st.queue|..] == st.queue)
      && ('?' !in mods ==> ('+' in mods ==> st'.queue == st.queue + sel) && ('+' !in mods ==> st'.queue == sel + st.queue))
  {
    var sel := SelectAll(select, terms).value;
    assert Decide(select, mods, terms) == Enqueue(sel, '+' in mods, '?' in mods);
    EnqueueKeepsQueue(sel, '+' in mods, '?' in mods, st, st', out);
  }

  lemma EnqueueKeepsQueue(sel: seq<Song>, append: bool, shuffle: bool, st: PlayerState, st': PlayerState, out: Outcome)
    requires Performs(Enqueue(sel, append, shuffle), st, st', out)
    ensures multiset(st'.queue) == multiset(st.queue) + multiset(sel)
    ensures append ==> IsPrefix(st.queue, st'.queue)
    ensures !append ==> st'.queue[|st'.queue| - |st.queue|..] == st.queue
    ensures !shuffle ==> st'.queue == if append then st.queue + sel else sel + st.queue
  {
    var q, q' := st.queue, st'.queue;
    if append {
      assert q' == q'[..|q|] + q'[|q|..];
    } else {
      assert q' == q'[..|sel|] + q'[|sel|..];
    }
  }

  /** A command whose terms select nothing changes nothing. */
  lemma {:induction false} EmptySelectionChangesNothing(select: Selector, mods: string, terms: seq<string>, st: PlayerState, st': PlayerState, out: Outcome)
    requires Selects(select) && forall k :: 0 <= k < |terms| ==> terms[k] != []
    requires forall k :: 0 <= k < |terms| ==> !AllSlashes(terms[k]) && select(terms[k]) == []
    requires Performs(Decide(select, mods, terms), st, st', out)
    ensures st' == st && out == Completed
  {
    SelectAllNoneSelected(select, terms);
  }

  lemma {:induction false} SelectAllNoneSelected(select: Selector, terms: seq<string>)
    requires Selects(select) && forall k :: 0 <= k < |terms| ==> terms[k] != []
    requires forall k :: 0 <= k < |terms| ==> !AllSlashes(terms[k]) && select(terms[k]) == []
    ensures SelectAll(select, terms) == Some([])
  {
    if terms != [] {
      var init := terms[..|terms| - 1];
      var last := terms[|terms| - 1];
      assert forall k :: 0 <= k < |init| ==> init[k] == terms[k];
      SelectAllNoneSelected(select, init);
      assert !AllSlashes(last) && select(last) == [];
      var none: seq<Song> := [];
      assert SelectAll(select, terms) == Some(none + select(last));
      assert none + select(last) == none;
    }
  }

  /** An `@` command without `+`, `-` or `*` makes the active set exactly the songs
      its terms select; with one of them it raises TypeError and leaves the player as
      it was. */
  lemma ActiveMode(select: Selector, mods: string, terms: seq<string>, st: PlayerState, st': PlayerState, out: Outcome, s: Song)
    requires Selects(select) && forall k :: 0 <= k < |terms| ==> terms[k] != []
    requires '@' in mods && forall k :: 0 <= k < |terms| ==> !AllSlashes(terms[k])
    requires exists k :: 0 <= k < |terms| && select(terms[k]) != []
    requires Performs(Decide(select, mods, terms), st, st', out)
    ensures ActiveOp(mods) == Replace ==>
      out == Completed && st'.queue == st.queue
      && (s in st'.active <==> exists k :: 0 <= k < |terms| && s in select(terms[k]))
    ensures ActiveOp(mods) != Replace ==> st' == st && out == Raised(TypeError)
  {
    SelectAllMembers(select, terms, s);
    var k :| 0 <= k < |terms| && select(terms[k]) != [];
    var t := select(terms[k])[0];
    SelectAllMembers(select, terms, t);
  }

  /** A term of slashes only makes the command raise IndexError before it changes
      anything, whatever the other terms select. */
  lemma SlashTermRaises(select: Selector, mods: string, terms: seq<string>, st: PlayerState, st': PlayerState, out: Outcome)
    requires Selects(select) && forall k :: 0 <= k < |terms| ==> terms[k] != []
    requires exists k :: 0 <= k < |terms| && AllSlashes(terms[k])
    requires Performs(Decide(select, mods, terms), st, st', out)
    ensures st' == st && out == Raised(IndexError)
  {
    SelectAllMembers(select, terms, Entry([], [], []));
  }

  /** The lone `?` only reorders the queue; the lone `@` only empties the active set. */
  lemma LoneCommands(select: Selector, gen: Generation, st: PlayerState, st': PlayerState, out: Outcome)
    requires Selects(select)
    ensures CommandStep(select, gen, st, "?", st', out) ==>
      |st'.queue| == |st.queue| && (forall s :: s in st'.queue <==> s in st.queue) && st'.active == st.active
    ensures CommandStep(select, gen, st, "@", st', out) ==> st'.queue == st.queue && st'.active == {}
  {
    if CommandStep(select, gen, st, "?", st', out) {
      assert multiset(st'.queue) == multiset(st.queue);
      assert |multiset(st'.queue)| == |multiset(st.queue)|;
      forall s
        ensures s in st'.queue <==> s in st.queue
      {
        assert s in st'.queue <==> s in multiset(st'.queue);
      }
    }
  }

  // ---------------------------------------------------------------------------
  // Properties of an entry
  // ---------------------------------------------------------------------------

  /** A run performs its commands one after the other: each command before the last
      one that ran completes, the last one ends with the run's outcome, and a run
      that completes runs every command. */
  lemma {:induction false} RunSteps(step: StepRelation, cmds: seq<string>, states: seq<PlayerState>, out: Outcome)
    requires Runs(step, cmds, states, out)
    ensures 1 <= |states| <= |cmds| + 1
    ensures forall i :: 0 <= i < |states| - 1 ==>
      step(states[i], cmds[i], states[i + 1], if i == |states| - 2 then out else Completed)
    ensures out.Completed? ==> |states| == |cmds| + 1
    ensures out.Raised? ==> |states| >= 2
    decreases |states|
  {
    if |states| > 1 {
      var n := |states| - 1;
      RunSteps(step, cmds[..n - 1], states[..n], Completed);
      forall i | 0 <= i < n - 1
        ensures step(states[i], cmds[i], states[i + 1], Completed)
      {
        assert states[..n][i] == states[i] && states[..n][i + 1] == states[i + 1];
        assert cmds[..n - 1][i] == cmds[i];
      }
    }
  }

  /** A command that raises leaves the player as it was. */
  lemma RaiseChangesNothing(select: Selector, gen: Generation, st: PlayerState, cmd: string, st': PlayerState, err: PyError)
    requires Selects(select) && CommandStep(select, gen, st, cmd, st', Raised(err))
    ensures st' == st
  {
    var e := Interpret(select, gen, cmd);
    assert Performs(e, st, st', Raised(err));
  }

  /** Running `cmds ++ more` once `cmds` has raised is running `cmds`: the commands
      after an exception do not run. */
  lemma RaisedStopsEntry(step: StepRelation, cmds: seq<string>, more: seq<string>, states: seq<PlayerState>, err: PyError)
    requires Runs(step, cmds, states, Raised(err))
    ensures Runs(step, cmds + more, states, Raised(err))
  {
    var n := |states| - 1;
    assert (cmds + more)[..n - 1] == cmds[..n - 1];
    assert (cmds + more)[n - 1] == cmds[n - 1];
  }

  /** In an entry that raised, the command that raised changed nothing. */
  lemma RaisedRunEndsUnchanged(select: Selector, gen: Generation, cmds: seq<string>, states: seq<PlayerState>, err: PyError)
    requires Selects(select) && Runs(CommandSteps(select, gen), cmds, states, Raised(err))
    ensures |states| >= 2 && states[|states| - 1] == states[|states| - 2]
  {
    var n := |states| - 1;
    RaiseChangesNothing(select, gen, states[n - 1], cmds[n - 1], states[n], err);
  }

  /** A run of the first commands of `cmds` that completed grows by one step of the
      next command: it goes on when that step completes and is a run of all of `cmds`
      when it raises. */
  lemma RunAdvances(step: StepRelation, cmds: seq<string>, states: seq<PlayerState>, st': PlayerState, out: Outcome)
    requires 1 <= |states| <= |cmds|
    requires Runs(step, cmds[..|states| - 1], states, Completed)
    requires step(states[|states| - 1], cmds[|states| - 1], st', out)
    ensures out.Completed? ==> Runs(step, cmds[..|states|], states + [st'], out)
    ensures out.Raised? ==> Runs(step, cmds, states + [st'], out)
  {
    var n := |states|;
    assert cmds[..n][..n - 1] == cmds[..n - 1];
    assert (states + [st'])[..n] == states;
  }
}
