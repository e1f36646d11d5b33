/** The query side of the version 2.0 player object (Radium.py): no macros, no sorting
    of the song pool, and the smaller legacy alphabet for matching and for finding
    where a command's search text starts. */
module RadiumLegacy {
  import opened Strings
  import opened Matcher
  import opened Library
  import opened Commands

  class Radium {
    /** `self.folders`, `self.songs` and `self.macros`. */
    const lib: Library
    const folderSearchLimit: nat
    /** What `processSearchTerm` selects for each term. */
    ghost const select: Selector
    var songQueue: seq<Song>
    var activeSongs: set<Song>

    /** The library is well formed and `select` agrees with `processSearchTerm`. */
    ghost predicate Consistent() {
      Valid(lib) && SelectsSongs(select, lib, Legacy, folderSearchLimit)
    }

    function State(): PlayerState
      reads this
    {
      PlayerState(songQueue, activeSongs)
    }

    /** The player after `loadSongList`, with an empty queue and no active songs. The
        source's default search limit is 5. */
    constructor (loaded: Library, branch: nat)
      requires Valid(loaded)
      ensures Consistent()
      ensures lib == loaded && folderSearchLimit == branch
      ensures select == TermSelector(lib, Legacy, folderSearchLimit)
      ensures songQueue == [] && activeSongs == {}
    {
      lib := loaded;
      folderSearchLimit := branch;
      select := TermSelector(loaded, Legacy, branch);
      TermSelectorSelectsSongs(loaded, Legacy, branch);
      songQueue := [];
      activeSongs := {};
    }

    /** `processSearchTerm(term)` for a term that is not made of slashes only (such a
        term raises IndexError in `searchFolders`). */
    method ProcessSearchTerm(term: string) returns (r: seq<Song>)
      requires Consistent() && term != [] && !AllSlashes(term)
      ensures r == SelectSongs(lib, term, Legacy, folderSearchLimit)
    {
      var songPool := lib.songs;
      var pathParts := PathParts(term);
      var wholeFolder := term[0] == '/' || term[|term| - 1] == '/';
      if wholeFolder || |pathParts| > 1 {
        var folderParts := if wholeFolder then pathParts else pathParts[..|pathParts| - 1];
        var folder := FindFolder(lib, folderParts, Omnifolder(lib), Legacy, folderSearchLimit);
        if folder.None? {
          return [];
        }
        songPool := Gather(lib, folder.value, Songs);
      }
      if wholeFolder {
        return songPool;
      }
      var foundIndices := StringSearch(pathParts[|pathParts| - 1], Names(songPool), 1, Legacy);
      r := seq(|foundIndices|, k requires 0 <= k < |foundIndices| => songPool[foundIndices[k]]);
    }

    /** The loop of `processSearchCommand` over the terms: the songs they select, in
        order, or None when a term of slashes only raises IndexError in
        `searchFolders([])`. */
    method SelectTerms(terms: seq<string>) returns (all: Option<seq<Song>>)
      requires Consistent() && forall k :: 0 <= k < |terms| ==> terms[k] != []
      ensures all == SelectAll(select, terms)
    {
      var allSelectedSongs: seq<Song> := [];
      var i := 0;
      while i < |terms|
        invariant 0 <= i <= |terms|
        invariant SelectAll(select, terms[..i]) == Some(allSelectedSongs)
      {
        assert terms[..i + 1][..i] == terms[..i];
        if AllSlashes(terms[i]) {
          SelectAllMembers(select, terms, Entry([], [], []));
          return None;
        }
        var selected := ProcessSearchTerm(terms[i]);
        allSelectedSongs := allSelectedSongs + selected;
        i := i + 1;
      }
      assert terms[..|terms|] == terms;
      return Some(allSelectedSongs);
    }

    /** What `processSearchCommand` does with a non-empty selection `all` once the
        terms are searched. */
    method Apply(modifiers: string, all: seq<Song>) returns (out: Outcome)
      requires all != []
      modifies this
      ensures '@' in modifiers ==> Performs(match ActiveOp(modifiers) case Replace => SetActive(set s | s in all) case _ => Fail(TypeError), old(State()), State(), out)
      ensures '@' !in modifiers ==> Performs(Enqueue(all, '+' in modifiers, '?' in modifiers), old(State()), State(), out)
    {
      if '@' in modifiers {
        // `set += list`, `set -= list` and `set &= list` raise TypeError and leave
        // the set as it was
        if '+' in modifiers {
          return Raised(TypeError);
        } else if '-' in modifiers {
          return Raised(TypeError);
        } else if '*' in modifiers {
          return Raised(TypeError);
        }
        activeSongs := set s | s in all;
        return Completed;
      }
      var selected := all;
      if '?' in modifiers {
        var shuffled :| multiset(shuffled) == multiset(all);
        selected := shuffled;
      }
      if '+' in modifiers {
        songQueue := songQueue + selected;
        assert songQueue[..|old(songQueue)|] == old(songQueue);
        assert songQueue[|old(songQueue)|..] == selected;
      } else {
        songQueue := selected + songQueue;
        assert songQueue[..|selected|] == selected;
        assert songQueue[|selected|..] == old(songQueue);
      }
      return Completed;
    }

    /** `processSearchCommand(cmd)`: returns how it ended; `random.shuffle` is any
        permutation. */
    method ProcessSearchCommand(cmd: string) returns (out: Outcome)
      requires Consistent()
      modifies this
      ensures CommandStep(select, Legacy, old(State()), cmd, State(), out)
    {
      if cmd == "@" {
        activeSongs := {};
        return Completed;
      }
      if cmd == "?" {
        var shuffled :| multiset(shuffled) == multiset(songQueue);
        songQueue := shuffled;
        return Completed;
      }
      var split := SplitIndex(cmd, Legacy);
      var modifiers := cmd[..split];
      var terms := Segments(cmd[split..], ',');
      assert modifiers == Modifiers(cmd, Legacy) && terms == Terms(cmd, Legacy);
      var all := SelectTerms(terms);
      if all.None? {
        return Raised(IndexError);
      }
      if all.value == [] {
        return Completed;
      }
      out := Apply(modifiers, all.value);
    }

    /** One pass of the loop of `processSearchEntry`: the next command runs, and the
        run so far grows by its step. */
    method RunNext(cmds: seq<string>, i: nat, ghost states: seq<PlayerState>) returns (o: Outcome, ghost states': seq<PlayerState>)
      requires Consistent() && i < |cmds| && |states| == i + 1 && states[i] == State()
      requires Runs(CommandSteps(select, Legacy), cmds[..i], states, Completed)
      modifies this
      ensures states' == states + [State()]
      ensures o.Completed? ==> Runs(CommandSteps(select, Legacy), cmds[..i + 1], states', o)
      ensures o.Raised? ==> Runs(CommandSteps(select, Legacy), cmds, states', o)
    {
      o := ProcessSearchCommand(cmds[i]);
      RunAdvances(CommandSteps(select, Legacy), cmds, states, State(), o);
      states' := states + [State()];
    }

    /** The loop of `processSearchEntry` over the commands; `states` are the player
        states before and after each command that ran. */
    method RunCommands(cmds: seq<string>) returns (out: Outcome, ghost states: seq<PlayerState>)
      requires Consistent()
      modifies this
      ensures |states| >= 1 && states[0] == old(State()) && states[|states| - 1] == State()
      ensures Runs(CommandSteps(select, Legacy), cmds, states, out)
    {
      states := [State()];
      var i := 0;
      while i < |cmds|
        invariant 0 <= i <= |cmds|
        invariant |states| == i + 1 && states[0] == old(State()) && states[i] == State()
        invariant Runs(CommandSteps(select, Legacy), cmds[..i], states, Completed)
      {
        var o;
        o, states := RunNext(cmds, i, states);
        if o.Raised? {
          return o, states;
        }
        i := i + 1;
      }
      assert cmds[..|cmds|] == cmds;
      return Completed, states;
    }

    /** `processSearchEntry(entry)`: the entry is lower-cased, not stripped, and its
        `;`-segments run as commands until one raises. */
    method ProcessSearchEntry(entry: string) returns (out: Outcome, ghost states: seq<PlayerState>)
      requires Consistent()
      modifies this
      ensures |states| >= 1 && states[0] == old(State()) && states[|states| - 1] == State()
      ensures Runs(CommandSteps(select, Legacy), Segments(Lower(entry), ';'), states, out)
    {
      out, states := RunCommands(Segments(Lower(entry), ';'));
    }

    /** `clearQueue()`. */
    method ClearQueue()
      modifies this
      ensures songQueue == [] && activeSongs == old(activeSongs)
    {
      songQueue := [];
    }

    /** `songQueuePop(index)`: Python's `list.pop`, where a negative index counts from
        the end. */
    method SongQueuePop(index: int) returns (item: Song)
      requires -|songQueue| <= index < |songQueue|
      modifies this
      ensures var i := if index < 0 then |old(songQueue)| + index else index;
        item == old(songQueue)[i] && songQueue == old(songQueue)[..i] + old(songQueue)[i + 1..]
      ensures multiset(old(songQueue)) == multiset(songQueue) + multiset{item}
      ensures index == 0 ==> [item] + songQueue == old(songQueue)
      ensures activeSongs == old(activeSongs)
    {
      var i := if index < 0 then |songQueue| + index else index;
      item := songQueue[i];
      assert songQueue == songQueue[..i] + [item] + songQueue[i + 1..];
      songQueue := songQueue[..i] + songQueue[i + 1..];
    }
  }
}
