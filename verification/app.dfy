/**
 * The module-level state of fch.py (the globals HISTORY, HISTLIM, HISTMAX,
 * HISTSTORE and the icon's menu) and the functions that update it in place.
 */
module App {
  import opened Wrappers
  import opened ConfigStore
  import opened Settings
  import opened History
  import opened Menu
  import opened Poller

  class Fch {
    var history: seq<string>
    var histLim: nat
    var histMax: nat
    var histStore: nat
    /** False while HISTLIM, HISTMAX and HISTSTORE are still unbound. */
    var configured: bool
    /** The menu last handed to the tray icon. */
    var menu: seq<Item>

    /**
     * The invariant getConfig keeps: once bound, HISTMAX is at or above HISTLIM.
     * The other methods leave these fields out of their modifies clauses, so
     * no call after getConfig can break it.
     */
    ghost predicate Valid()
      reads this
    {
      configured ==> histLim <= histMax
    }

    /** The state at start-up: empty history, settings not yet read. */
    constructor ()
      ensures Valid() && !configured && history == [] && menu == []
    {
      history := [];
      histLim, histMax, histStore := 0, 0, 0;
      configured := false;
      menu := [];
    }

    /**
     * getConfig: reads `limit`, `max` and `store` from the configuration file.
     * Returns false, changing nothing, where the source raises a NameError.
     */
    method GetConfig(file: Option<Doc>) returns (ok: bool)
      requires Valid()
      modifies this`histLim, this`histMax, this`histStore, this`configured
      ensures Valid()
      ensures var s := Interpret(if old(configured) then Some(old(histLim)) else None, file);
        && ok == s.Some?
        && (ok ==> configured && Limits(histLim, histMax, histStore) == s.value)
        && (!ok ==> unchanged(this))
    {
      var limit := NonNegInt(Read(file, "limit"));
      if limit.Some? {
        histLim := limit.value;
      } else if !configured {
        return false;
      }
      var extra := NonNegInt(Read(file, "max"));
      if extra.Some? {
        histMax := histLim + extra.value;
      } else {
        histMax := histLim + DefaultExtra;
      }
      var store := NonNegInt(Read(file, "store"));
      if store.Some? {
        histStore := store.value;
      } else {
        histStore := 0;
      }
      configured := true;
      ok := true;
    }

    /** loadHistory: the list read from the history file, or [] if there is none. */
    method LoadHistory(loaded: Option<seq<string>>)
      modifies this`history
      ensures history == loaded.GetOr([])
    {
      history := if loaded.Some? then loaded.value else [];
    }

    /** saveHistory: applies the store cap (the file write is not modelled). */
    method SaveHistory()
      requires configured
      modifies this`history
      ensures history == Truncated(old(history), histStore)
    {
      if histStore > 0 && |history| > histStore {
        history := history[|history| - histStore..];
      }
    }

    /** appendHist */
    method AppendHist(text: string)
      requires configured
      modifies this`history
      ensures history == AfterAppend(old(history), text, histStore)
    {
      var t := Text.StripNewlines(text);
      if t == "" {
        return;
      }
      if history != [] && history[|history| - 1] == t {
        return;
      }
      history := history + [t];
      SaveHistory();
    }

    /** rebuildMenu: the icon's menu becomes the menu of the current history. */
    method RebuildMenu()
      requires configured
      modifies this`menu
      ensures menu == MenuOf(history, histLim, histMax)
    {
      menu := BuildMenu(history, histLim, histMax);
    }

    /** clipbOnchange */
    method ClipbOnchange(newText: string)
      requires configured
      modifies this`history, this`menu
      ensures history == AfterAppend(old(history), newText, histStore)
      ensures menu == MenuOf(history, histLim, histMax)
    {
      AppendHist(newText);
      RebuildMenu();
    }

    /**
     * clipbWatch over a finite run of clipboard reads: `initial` is the read
     * before the loop, `polls` the reads of its iterations. Returns the last
     * observed value.
     */
    method Watch(initial: Option<string>, polls: seq<Option<string>>) returns (last: Option<string>)
      requires configured
      modifies this`history, this`menu
      ensures last == Baseline(initial, polls) == LastSuccess(initial, polls)
      ensures history == Recorded(old(history), initial, polls, histStore)
      ensures menu == if AnyChange(initial, polls) then MenuOf(history, histLim, histMax) else old(menu)
    {
      last := initial;
      var fired := false;
      for i := 0 to |polls|
        invariant Baseline(last, polls[i..]) == Baseline(initial, polls)
        invariant Recorded(history, last, polls[i..], histStore) == Recorded(old(history), initial, polls, histStore)
        invariant AnyChange(initial, polls) == (fired || AnyChange(last, polls[i..]))
        invariant menu == if fired then MenuOf(history, histLim, histMax) else old(menu)
      {
        assert polls[i..][1..] == polls[i + 1..];
        var current := polls[i];
        if current.Some? && current != last {
          last := current;
          ClipbOnchange(current.value);
          fired := true;
        }
      }
      BaselineIsLastSuccess(initial, polls);
    }
  }
}
