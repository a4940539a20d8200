/**
 * The history of fch.py: the ordered list of captured texts, newest last.
 * appendHist records a capture; saveHistory keeps only the newest HISTSTORE
 * entries before it rewrites the history file.
 */
module History {
  import opened Text

  predicate NoEmpty(h: seq<string>) {
    forall i :: 0 <= i < |h| ==> h[i] != ""
  }

  predicate NoAdjacentDuplicate(h: seq<string>) {
    forall i :: 0 <= i < |h| - 1 ==> h[i] != h[i + 1]
  }

  /**
   * What appendHist keeps true of a history it built itself. A history loaded
   * from a hand-edited file need not satisfy it.
   */
  predicate WellFormed(h: seq<string>) {
    NoEmpty(h) && NoAdjacentDuplicate(h)
  }

  function Min(a: nat, b: nat): nat {
    if a <= b then a else b
  }

  /**
   * The truncation in saveHistory: with a positive cap, keep the newest `store`
   * entries; a cap of 0 means no cap.
   */
  function Truncated(h: seq<string>, store: nat): (r: seq<string>)
    ensures |r| <= |h| && r == h[|h| - |r|..]
    ensures store > 0 ==> |r| == Min(|h|, store)
    ensures store == 0 ==> r == h
  {
    if store > 0 && |h| > store then h[|h| - store..] else h
  }

  /** Every suffix of a well-formed history is well-formed. */
  lemma SuffixWellFormed(h: seq<string>, k: nat)
    requires WellFormed(h) && k <= |h|
    ensures WellFormed(h[k..])
  {
  }

  /** appendHist ignores a capture that is empty once stripped or repeats the newest entry. */
  predicate Ignored(h: seq<string>, text: string)
    ensures AllNewlines(text) ==> Ignored(h, text)
  {
    var t := StripNewlines(text);
    t == "" || (h != [] && h[|h| - 1] == t)
  }

  /** The history after appendHist(text), the cap applied only when something was added. */
  function AfterAppend(h: seq<string>, text: string, store: nat): (r: seq<string>)
    ensures |r| <= |h| + 1
    ensures r == h || (r != [] && r[|r| - 1] == StripNewlines(text))
    ensures store == 0 ==> h <= r
  {
    if Ignored(h, text) then h else Truncated(h + [StripNewlines(text)], store)
  }

  /** Truncation keeps the newest entry, so the duplicate check sees the same entry. */
  lemma IgnoredTruncated(h: seq<string>, text: string, store: nat)
    requires store > 0
    ensures Ignored(Truncated(h, store), text) == Ignored(h, text)
  {
  }

  /** Dropping older entries that the cap would drop anyway changes nothing. */
  lemma TruncatedSuffix(g: seq<string>, k: nat, store: nat)
    requires store > 0 && k <= |g| && (k == 0 || |g| - k >= store)
    ensures Truncated(g[k..], store) == Truncated(g, store)
  {
    if k == 0 {
      assert g[k..] == g;
    } else {
      assert g[k..][|g| - k - store..] == g[|g| - store..];
    }
  }

  /**
   * Applying the cap after every append keeps the same entries as appending
   * uncapped and applying the cap once.
   */
  lemma AppendTruncated(h: seq<string>, text: string, store: nat)
    requires store > 0
    ensures AfterAppend(Truncated(h, store), text, store) == Truncated(AfterAppend(h, text, 0), store)
  {
    var c := Truncated(h, store);
    IgnoredTruncated(h, text, store);
    if !Ignored(h, text) {
      var g := h + [StripNewlines(text)];
      assert c + [StripNewlines(text)] == g[|h| - |c|..];
      TruncatedSuffix(g, |h| - |c|, store);
    }
  }

  /** appendHist leaves the history unchanged exactly when it ignores the capture. */
  lemma AppendUnchangedIff(h: seq<string>, text: string, store: nat)
    ensures AfterAppend(h, text, store) == h <==> Ignored(h, text)
  {
  }

  /** A recorded capture becomes the newest entry; the older ones keep their order. */
  lemma AppendRecords(h: seq<string>, text: string, store: nat)
    requires !Ignored(h, text)
    ensures var r := AfterAppend(h, text, store);
      && r != []
      && r[|r| - 1] == StripNewlines(text)
      && r[..|r| - 1] == h[|h| + 1 - |r|..]
      && (store == 0 || |h| < store ==> r == h + [StripNewlines(text)])
  {
    var g := h + [StripNewlines(text)];
    var r := Truncated(g, store);
    assert r == g[|g| - |r|..];
    assert r[..|r| - 1] == g[|g| - |r|..|g| - 1] == h[|h| + 1 - |r|..];
  }

  /** appendHist keeps a well-formed history well-formed, cap included. */
  lemma AppendKeepsWellFormed(h: seq<string>, text: string, store: nat)
    requires WellFormed(h)
    ensures WellFormed(AfterAppend(h, text, store))
  {
    if !Ignored(h, text) {
      var g := h + [StripNewlines(text)];
      assert WellFormed(g) by {
        forall i | 0 <= i < |g| - 1 ensures g[i] != g[i + 1] {
          if i + 1 < |h| { assert g[i] == h[i] && g[i + 1] == h[i + 1]; }
        }
      }
      SuffixWellFormed(g, |g| - |Truncated(g, store)|);
    }
  }

  /** Once within its cap, the history stays within it. */
  lemma AppendWithinCap(h: seq<string>, text: string, store: nat)
    requires store > 0 && |h| <= store
    ensures |AfterAppend(h, text, store)| <= store
  {
  }

  /** Appending the same capture twice records it once. */
  lemma AppendTwiceOnce(h: seq<string>, text: string, store: nat)
    ensures AfterAppend(AfterAppend(h, text, store), text, store) == AfterAppend(h, text, store)
  {
  }

  /** A history well within its cap grows by exactly one on append("x"), append("x"). */
  lemma DuplicateSuppressedScenario(h: seq<string>)
    requires h == [] || h[|h| - 1] != "x"
    ensures AfterAppend(AfterAppend(h, "x", 0), "x", 0) == h + ["x"]
  {
  }
}
