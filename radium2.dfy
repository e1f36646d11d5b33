/** The query side of the version 3.0 player object (src/Radium2.py): the library it
    loaded and its configured limits, which searching does not change, and the play
    queue and active set that search entries change. */
module Radium2 {
  import opened Strings
  import opened Matcher
  import opened Library
  import opened Macros
  import opened Commands

  /** `processSearchEntry` from `states[0]` once its stripped, lower-cased entry has
      resolved to `resolution`: the `;`-segments of an expanded entry run as commands,
      an abandoned resolution runs nothing, and an exception out of `resolveMacros`
      escapes before any command runs. */
  ghost predicate EntryRuns(select: Selector, resolution: Resolution, states: seq<PlayerState>, out: Outcome)
    requires Selects(select)
  {
    match resolution
    case Expanded(text) => Runs(CommandSteps(select, Current), Segments(text, ';'), states, out)
    case Abandoned => |states| == 1 && out == Completed
    case Crashed(err) => |states| == 1 && out == Raised(err)
  }

  class Radium {
    /** `self.folders`, `self.songs` and `self.macros`. */
    const lib: Library
    /** What `readMacroFile` reads for each macro path that exists. */
    const macroTexts: map<string, string>
    const folderSearchLimit: nat
    const macroCallLimit: int
    /** What `processSearchTerm` selects for each term. */
    ghost const select: Selector
    var songQueue: seq<Song>
    var activeSongs: set<Song>

    /** The library is well formed, every folder song is catalogued, the loader left
        the song and macro lists sorted by name length, and `select` agrees with
        `processSearchTerm`. */
    ghost predicate Consistent() {
      Valid(lib) && Catalogued(lib) && SortedByLen(lib.songs) && SortedByLen(lib.macros)
      && SelectsSongs(select, lib, Current, folderSearchLimit)
    }

    function State(): PlayerState
      reads this
    {
      PlayerState(songQueue, activeSongs)
    }

    /** The player after `loadSongList` (src/Radium2.py:614-616 sort the song and macro
        lists by name length) with an empty queue and no active songs. The source's
        defaults for the two limits are 5 and 10. */
    constructor (loaded: Library, texts: map<string, string>, branch: nat, limit: int)
      requires Valid(loaded) && Catalogued(loaded)
      ensures Consistent()
      ensures lib == loaded.(songs := SortByLen(loaded.songs), macros := SortByLen(loaded.macros))
      ensures macroTexts == texts && folderSearchLimit == branch && macroCallLimit == limit
      ensures select == TermSelector(lib, Current, folderSearchLimit)
      ensures songQueue == [] && activeSongs == {}
    {
      SortByLenIsStableSort(loaded.songs);
      SortByLenIsStableSort(loaded.macros);
      var sorted := loaded.(songs := SortByLen(loaded.songs), macros := SortByLen(loaded.macros));
      forall i | 0 <= i < |sorted.folders|
        ensures Fits(sorted, sorted.folders[i]) && RanksBelow(sorted, i)
      {
        assert FolderFits(loaded, i);
      }
      forall i, e | 0 <= i < |sorted.folders| && e in Own(sorted.folders[i], Songs)
        ensures e in sorted.songs
      {
        assert e in loaded.songs;
        assert e in multiset(sorted.songs);
      }
      lib := sorted;
      macroTexts := texts;
      folderSearchLimit := branch;
      macroCallLimit := limit;
      select := TermSelector(sorted, Current, branch);
      TermSelectorSelectsSongs(sorted, Current, branch);
      songQueue := [];
      activeSongs := {};
    }

    /** `resolveMacros(entry)`. */
    method ResolveMacros(entry: string) returns (r: Resolution)
      requires Consistent()
      ensures r == Expand(lib, macroTexts, folderSearchLimit, macroCallLimit, entry, 0)
    {
      var s := entry;
      var macroCount: nat := 0;
      while true
        invariant Expand(lib, macroTexts, folderSearchLimit, macroCallLimit, s, macroCount)
               == Expand(lib, macroTexts, folderSearchLimit, macroCallLimit, entry, 0)
        decreases if macroCount <= macroCallLimit then macroCallLimit - macroCount + 1 else 0
      {
        ExpandUnfolds(lib, macroTexts, folderSearchLimit, macroCallLimit, s, macroCount);
        if macroCount > macroCallLimit {
          return Abandoned;
        }
        var found := FindMacroRef(s);
        if found.None? {
          return Expanded(s);
        }
        var span := found.value;
        var t := Step(s, span);
        match t
        case Expanded(next) =>
          s := next;
          macroCount := macroCount + 1;
        case _ =>
          return t;
      }
    }

    /** The macro pool of the loop body of `resolveMacros`: the macros below the
        folder the leading path parts name, or `self.macros`, sorted by name length.
        When the pool is `self.macros` itself it is sorted in place, which leaves it
        as the loader sorted it. */
    method MacroPoolFor(pathParts: seq<string>) returns (pool: Option<seq<Macro>>)
      requires Consistent() && |pathParts| >= 1
      ensures pool == MacroPool(lib, pathParts, folderSearchLimit)
      ensures |pathParts| == 1 ==> pool == Some(lib.macros)
    {
      if |pathParts| > 1 {
        var folder := FindFolder(lib, pathParts[..|pathParts| - 1], Omnifolder(lib), Current, folderSearchLimit);
        if folder.None? {
          return None;
        }
        return Some(SortByLen(Gather(lib, folder.value, Macros)));
      }
      SortingSortedIsIdle(lib.macros);
      return Some(SortByLen(lib.macros));
    }

    /** The body of the loop of `resolveMacros` for the reference at `span`. */
    method Step(s: string, span: Span) returns (r: Resolution)
      requires Consistent() && span.start + 1 <= span.end <= |s|
      ensures r == ExpandOnce(lib, macroTexts, folderSearchLimit, s, span)
    {
      var pathParts := RefParts(s, span);
      if pathParts == [] {
        // the pool is sorted, then `pathParts[-1]` fails on an empty list
        return Crashed(IndexError);
      }
      var macroPool := MacroPoolFor(pathParts);
      if macroPool.None? {
        return Abandoned;
      }
      r := StepInPool(s, span, pathParts[|pathParts| - 1], macroPool.value);
    }

    /** The rest of the loop body once the pool is chosen. */
    method StepInPool(s: string, span: Span, name: string, macroPool: seq<Macro>) returns (r: Resolution)
      requires Consistent() && span.start <= span.end <= |s|
      ensures r == FromPool(lib, macroTexts, s, span, name, macroPool)
    {
      var foundIndices := StringSearch(name, Names(macroPool), 1, Current);
      if |foundIndices| == 0 {
        return Abandoned;
      }
      // the position found in `macroPool` indexes `self.macros`
      if foundIndices[0] >= |lib.macros| {
        return Crashed(IndexError);
      }
      var path := lib.macros[foundIndices[0]].localPath;
      if path !in macroTexts {
        // `open` raises for a macro file that is not there
        return Crashed(FileError);
      }
      r := Expanded(s[..span.start] + macroTexts[path] + s[span.end..]);
    }

    /** `processSearchTerm(term)` for a term that is not made of slashes only (such a
        term raises IndexError in `searchFolders`). A pool that is `self.songs` itself
        is sorted in place, which leaves it as the loader sorted it. */
    method ProcessSearchTerm(term: string) returns (r: seq<Song>)
      requires Consistent() && term != [] && !AllSlashes(term)
      ensures r == SelectSongs(lib, term, Current, folderSearchLimit)
    {
      var pathParts := PathParts(term);
      var wholeFolder := term[0] == '/' || term[|term| - 1] == '/';
      var songPool := lib.songs;
      if wholeFolder || |pathParts| > 1 {
        var folderParts := if wholeFolder then pathParts else pathParts[..|pathParts| - 1];
        var folder := FindFolder(lib, folderParts, Omnifolder(lib), Current, folderSearchLimit);
        if folder.None? {
          return [];
        }
        songPool := Gather(lib, folder.value, Songs);
      }
      if wholeFolder {
        return songPool;
      }
      if |pathParts| <= 1 {
        SortingSortedIsIdle(lib.songs);
      }
      songPool := SortByLen(songPool);
      var foundIndices := StringSearch(pathParts[|pathParts| - 1], Names(songPool), 1, Current);
      r := seq(|foundIndices|, k requires 0 <= k < |foundIndices| => songPool[foundIndices[k]]);
    }

    /** The loop of `processSearchCommand` over the terms: the songs they select, in
        order, or None when a term of slashes only raises IndexError in
        `searchFolders([])`. */
    method SelectTerms(terms: seq<string>) returns (all: Option<seq<Song>>)
      requires Consistent() && forall k :: 0 <= k < |terms| ==> terms[k] != []
      ensures all == SelectAll(select, terms)
    {
      var allSelectedSongs: seq<Song> := [];
      var i := 0;
      while i < |terms|
        invariant 0 <= i <= |terms|
        invariant SelectAll(select, terms[..i]) == Some(allSelectedSongs)
      {
        assert terms[..i + 1][..i] == terms[..i];
        if AllSlashes(terms[i]) {
          SelectAllMembers(select, terms, Entry([], [], []));
          return None;
        }
        var selected := ProcessSearchTerm(terms[i]);
        allSelectedSongs := allSelectedSongs + selected;
        i := i + 1;
      }
      assert terms[..|terms|] == terms;
      return Some(allSelectedSongs);
    }

    /** What `processSearchCommand` does with a non-empty selection `all` once the
        terms are searched. */
    method Apply(modifiers: string, all: seq<Song>) returns (out: Outcome)
      requires all != []
      modifies this
      ensures '@' in modifiers ==> Performs(match ActiveOp(modifiers) case Replace => SetActive(set s | s in all) case _ => Fail(TypeError), old(State()), State(), out)
      ensures '@' !in modifiers ==> Performs(Enqueue(all, '+' in modifiers, '?' in modifiers), old(State()), State(), out)
    {
      if '@' in modifiers {
        // `set += list`, `set -= list` and `set &= list` raise TypeError and leave
        // the set as it was
        if '+' in modifiers {
          return Raised(TypeError);
        } else if '-' in modifiers {
          return Raised(TypeError);
        } else if '*' in modifiers {
          return Raised(TypeError);
        }
        activeSongs := set s | s in all;
        return Completed;
      }
      var selected := all;
      if '?' in modifiers {
        var shuffled :| multiset(shuffled) == multiset(all);
        selected := shuffled;
      }
      if '+' in modifiers {
        songQueue := songQueue + selected;
        assert songQueue[..|old(songQueue)|] == old(songQueue);
        assert songQueue[|old(songQueue)|..] == selected;
      } else {
        songQueue := selected + songQueue;
        assert songQueue[..|selected|] == selected;
        assert songQueue[|selected|..] == old(songQueue);
      }
      return Completed;
    }

    /** `processSearchCommand(cmd)`: returns how it ended; `random.shuffle` is any
        permutation. */
    method ProcessSearchCommand(cmd: string) returns (out: Outcome)
      requires Consistent()
      modifies this
      ensures CommandStep(select, Current, old(State()), cmd, State(), out)
    {
      if cmd == "@" {
        activeSongs := {};
        return Completed;
      }
      if cmd == "?" {
        var shuffled :| multiset(shuffled) == multiset(songQueue);
        songQueue := shuffled;
        return Completed;
      }
      var split := SplitIndex(cmd, Current);
      var modifiers := cmd[..split];
      var terms := Segments(cmd[split..], ',');
      assert modifiers == Modifiers(cmd, Current) && terms == Terms(cmd, Current);
      var all := SelectTerms(terms);
      if all.None? {
        return Raised(IndexError);
      }
      if all.value == [] {
        return Completed;
      }
      out := Apply(modifiers, all.value);
    }

    /** One pass of the loop of `processSearchEntry`: the next command runs, and the
        run so far grows by its step. */
    method RunNext(cmds: seq<string>, i: nat, ghost states: seq<PlayerState>) returns (o: Outcome, ghost states': seq<PlayerState>)
      requires Consistent() && i < |cmds| && |states| == i + 1 && states[i] == State()
      requires Runs(CommandSteps(select, Current), cmds[..i], states, Completed)
      modifies this
      ensures states' == states + [State()]
      ensures o.Completed? ==> Runs(CommandSteps(select, Current), cmds[..i + 1], states', o)
      ensures o.Raised? ==> Runs(CommandSteps(select, Current), cmds, states', o)
    {
      o := ProcessSearchCommand(cmds[i]);
      RunAdvances(CommandSteps(select, Current), cmds, states, State(), o);
      states' := states + [State()];
    }

    /** The loop of `processSearchEntry` over the commands; `states` are the player
        states before and after each command that ran. */
    method RunCommands(cmds: seq<string>) returns (out: Outcome, ghost states: seq<PlayerState>)
      requires Consistent()
      modifies this
      ensures |states| >= 1 && states[0] == old(State()) && states[|states| - 1] == State()
      ensures Runs(CommandSteps(select, Current), cmds, states, out)
    {
      states := [State()];
      var i := 0;
      while i < |cmds|
        invariant 0 <= i <= |cmds|
        invariant |states| == i + 1 && states[0] == old(State()) && states[i] == State()
        invariant Runs(CommandSteps(select, Current), cmds[..i], states, Completed)
      {
        var o;
        o, states := RunNext(cmds, i, states);
        if o.Raised? {
          return o, states;
        }
        i := i + 1;
      }
      assert cmds[..|cmds|] == cmds;
      return Completed, states;
    }

    /** `processSearchEntry(entry)`: `states` are the player states before and after
        each command that ran. */
    method ProcessSearchEntry(entry: string) returns (out: Outcome, ghost states: seq<PlayerState>)
      requires Consistent()
      modifies this
      ensures |states| >= 1 && states[0] == old(State()) && states[|states| - 1] == State()
      ensures EntryRuns(select,
                        Expand(lib, macroTexts, folderSearchLimit, macroCallLimit, Lower(Strip(entry)), 0), states, out)
    {
      var resolved := ResolveMacros(Lower(Strip(entry)));
      if resolved.Expanded? {
        out, states := RunCommands(Segments(resolved.text, ';'));
        assert EntryRuns(select, resolved, states, out);
      } else {
        out := if resolved.Abandoned? then Completed else Raised(resolved.err);
        states := [State()];
        assert EntryRuns(select, resolved, states, out);
      }
    }

    /** `clearQueue()`. */
    method ClearQueue()
      modifies this
      ensures songQueue == [] && activeSongs == old(activeSongs)
    {
      songQueue := [];
    }

    /** `songQueuePop(index)`: Python's `list.pop`, where a negative index counts from
        the end. The only caller pops index 0 from a non-empty queue. */
    method SongQueuePop(index: int) returns (item: Song)
      requires -|songQueue| <= index < |songQueue|
      modifies this
      ensures var i := if index < 0 then |old(songQueue)| + index else index;
        item == old(songQueue)[i] && songQueue == old(songQueue)[..i] + old(songQueue)[i + 1..]
      ensures multiset(old(songQueue)) == multiset(songQueue) + multiset{item}
      ensures index == 0 ==> [item] + songQueue == old(songQueue)
      ensures activeSongs == old(activeSongs)
    {
      var i := if index < 0 then |songQueue| + index else index;
      item := songQueue[i];
      assert songQueue == songQueue[..i] + [item] + songQueue[i + 1..];
      songQueue := songQueue[..i] + songQueue[i + 1..];
    }
  }
}
