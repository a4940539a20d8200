/**
 * The change detection of clipbWatch (fch.py): one poll compares the current
 * clipboard read with the last observed value. A failed read is `None`.
 */
module Poller {
  import opened Wrappers
  import opened Text
  import opened History

  /** A poll fires when the read succeeded and differs from the last observed value. */
  predicate Changed(last: Option<string>, current: Option<string>)
    ensures current.None? ==> !Changed(last, current)
    ensures current == last ==> !Changed(last, current)
  {
    current.Some? && current != last
  }

  /** The last observed value after one poll. */
  function Observe(last: Option<string>, current: Option<string>): (r: Option<string>)
    ensures current.None? ==> r == last
    ensures current.Some? ==> r == current
    ensures r == last || r == current
  {
    if Changed(last, current) then current else last
  }

  /** Polling again with the same read never fires twice. */
  lemma PollFiresOnce(last: Option<string>, current: Option<string>)
    ensures !Changed(Observe(last, current), current)
  {
  }

  /** The last observed value after a run of polls. */
  function Baseline(last: Option<string>, polls: seq<Option<string>>): (r: Option<string>)
    ensures r == last || r in polls
    decreases |polls|
  {
    if polls == [] then last else Baseline(Observe(last, polls[0]), polls[1..])
  }

  /** Whether any poll of the run fires. */
  predicate AnyChange(last: Option<string>, polls: seq<Option<string>>)
    ensures (forall i :: 0 <= i < |polls| ==> polls[i].None?) ==> !AnyChange(last, polls)
    decreases |polls|
  {
    polls != [] && (Changed(last, polls[0]) || AnyChange(Observe(last, polls[0]), polls[1..]))
  }

  /** The history after a run of polls, each firing poll recording its read. */
  function Recorded(h: seq<string>, last: Option<string>, polls: seq<Option<string>>, store: nat): (r: seq<string>)
    ensures store == 0 ==> h <= r && |r| <= |h| + |polls|
    decreases |polls|
  {
    if polls == [] then h
    else
      var h' := if Changed(last, polls[0]) then AfterAppend(h, polls[0].value, store) else h;
      Recorded(h', Observe(last, polls[0]), polls[1..], store)
  }

  /** The most recent successful read of a run, or the starting value if none succeeded. */
  function LastSuccess(last: Option<string>, polls: seq<Option<string>>): (r: Option<string>)
    ensures r == last || r in polls
  {
    if polls == [] then last
    else if polls[|polls| - 1].Some? then polls[|polls| - 1]
    else LastSuccess(last, polls[..|polls| - 1])
  }

  lemma {:induction false} BaselineSnoc(last: Option<string>, polls: seq<Option<string>>, current: Option<string>)
    ensures Baseline(last, polls + [current]) == Observe(Baseline(last, polls), current)
    decreases |polls|
  {
    if polls != [] {
      assert (polls + [current])[1..] == polls[1..] + [current];
      BaselineSnoc(Observe(last, polls[0]), polls[1..], current);
    }
  }

  /**
   * The poller's baseline is always the most recent successful read: a failed
   * read never disturbs it, and a successful read equal to it leaves it alone.
   */
  lemma {:induction false} BaselineIsLastSuccess(last: Option<string>, polls: seq<Option<string>>)
    ensures Baseline(last, polls) == LastSuccess(last, polls)
    decreases |polls|
  {
    if polls != [] {
      var init := polls[..|polls| - 1];
      assert polls == init + [polls[|polls| - 1]];
      BaselineSnoc(last, init, polls[|polls| - 1]);
      BaselineIsLastSuccess(last, init);
    }
  }

  /** Whatever the clipboard does, a well-formed history stays well-formed. */
  lemma {:induction false} RecordedWellFormed(h: seq<string>, last: Option<string>, polls: seq<Option<string>>, store: nat)
    requires WellFormed(h)
    ensures WellFormed(Recorded(h, last, polls, store))
    decreases |polls|
  {
    if polls != [] {
      if Changed(last, polls[0]) {
        AppendKeepsWellFormed(h, polls[0].value, store);
      }
      var h' := if Changed(last, polls[0]) then AfterAppend(h, polls[0].value, store) else h;
      RecordedWellFormed(h', Observe(last, polls[0]), polls[1..], store);
    }
  }

  /** With a positive store cap, a history within the cap stays within it. */
  lemma {:induction false} RecordedWithinCap(h: seq<string>, last: Option<string>, polls: seq<Option<string>>, store: nat)
    requires store > 0 && |h| <= store
    ensures |Recorded(h, last, polls, store)| <= store
    decreases |polls|
  {
    if polls != [] {
      if Changed(last, polls[0]) {
        AppendWithinCap(h, polls[0].value, store);
      }
      var h' := if Changed(last, polls[0]) then AfterAppend(h, polls[0].value, store) else h;
      RecordedWithinCap(h', Observe(last, polls[0]), polls[1..], store);
    }
  }

  /** A run without a firing poll leaves the history as it was. */
  lemma {:induction false} QuietRunKeepsHistory(h: seq<string>, last: Option<string>, polls: seq<Option<string>>, store: nat)
    requires !AnyChange(last, polls)
    ensures Recorded(h, last, polls, store) == h
    decreases |polls|
  {
    if polls != [] {
      QuietRunKeepsHistory(h, Observe(last, polls[0]), polls[1..], store);
    }
  }

  /** How many polls of the run record a capture: they fire, and appendHist does not ignore the text. */
  function Captured(h: seq<string>, last: Option<string>, polls: seq<Option<string>>): (n: nat)
    ensures n <= |polls|
    decreases |polls|
  {
    if polls == [] then 0
    else
      var fires := Changed(last, polls[0]) && !Ignored(h, polls[0].value);
      var h' := if fires then h + [StripNewlines(polls[0].value)] else h;
      (if fires then 1 else 0) + Captured(h', Observe(last, polls[0]), polls[1..])
  }

  /** Without a cap, a run adds exactly one entry per recorded capture. */
  lemma {:induction false} UncappedLength(h: seq<string>, last: Option<string>, polls: seq<Option<string>>)
    ensures |Recorded(h, last, polls, 0)| == |h| + Captured(h, last, polls)
    decreases |polls|
  {
    if polls != [] {
      var h' := if Changed(last, polls[0]) then AfterAppend(h, polls[0].value, 0) else h;
      UncappedLength(h', Observe(last, polls[0]), polls[1..]);
    }
  }

  /** Capping after every recorded capture keeps the newest entries of the uncapped run. */
  lemma {:induction false} RecordedTruncated(h: seq<string>, last: Option<string>, polls: seq<Option<string>>, store: nat)
    requires store > 0
    ensures Recorded(Truncated(h, store), last, polls, store) == Truncated(Recorded(h, last, polls, 0), store)
    decreases |polls|
  {
    if polls != [] {
      var next := Observe(last, polls[0]);
      if Changed(last, polls[0]) {
        AppendTruncated(h, polls[0].value, store);
        RecordedTruncated(AfterAppend(h, polls[0].value, 0), next, polls[1..], store);
      } else {
        RecordedTruncated(h, next, polls[1..], store);
      }
    }
  }

  /**
   * From an empty history with a positive cap C, a run that records N captures
   * ends with min(N, C) entries: the newest ones, in order.
   */
  lemma FromEmptyKeepsNewest(last: Option<string>, polls: seq<Option<string>>, store: nat)
    requires store > 0
    ensures var all, kept := Recorded([], last, polls, 0), Recorded([], last, polls, store);
      && |all| == Captured([], last, polls)
      && |kept| == Min(Captured([], last, polls), store)
      && kept == all[|all| - |kept|..]
  {
    RecordedTruncated([], last, polls, store);
    UncappedLength([], last, polls);
  }
}
