/**
 * The menu that rebuildMenu (fch.py) hands to the tray icon, as a tree of
 * titled items. Picking a history item copies its full entry text back to the
 * clipboard; "More..." opens a submenu of older entries; "Quit" stops the icon.
 */
module Menu {
  import opened Text
  import History

  datatype Action = Copy(text: string) | Open(submenu: seq<Item>) | Stop
  datatype Item = Item(title: string, action: Action)

  /** The width rebuildMenu passes to label. */
  const LabelWidth: nat := 40
  const MoreTitle: string := "More..."
  const QuitItem: Item := Item("Quit", Stop)

  /** The item for one history entry. */
  function PickOf(entry: string): (it: Item)
    ensures it.action == Copy(entry)
    ensures SingleLine(it.title) && |it.title| <= LabelWidth
  {
    Item(Label(entry, LabelWidth), Copy(entry))
  }

  /** One item per entry, in the order given. */
  function Picks(entries: seq<string>): (r: seq<Item>)
    ensures |r| == |entries|
    ensures forall k :: 0 <= k < |r| ==> r[k] == PickOf(entries[k])
  {
    if entries == [] then []
    else Picks(entries[..|entries| - 1]) + [PickOf(entries[|entries| - 1])]
  }

  /** `list(reversed(HISTORY))`: newest entry first. */
  function Reverse(s: seq<string>): (r: seq<string>)
    ensures |r| == |s|
    ensures forall k :: 0 <= k < |r| ==> r[k] == s[|s| - 1 - k]
  {
    if s == [] then [] else [s[|s| - 1]] + Reverse(s[..|s| - 1])
  }

  /** Python's `s[lo:hi]` for non-negative bounds: both ends clamped to the length. */
  function Slice(s: seq<string>, lo: nat, hi: nat): (r: seq<string>)
    ensures lo <= hi <= |s| ==> r == s[lo..hi]
    ensures hi <= lo || |s| <= lo ==> r == []
    ensures lo <= |s| <= hi ==> r == s[lo..]
  {
    var end := if hi <= |s| then hi else |s|;
    if lo <= end then s[lo..end] else []
  }

  /**
   * The menu for history `h`, display limit `limit` (HISTLIM) and overflow
   * cut-off `maxShown` (HISTMAX).
   */
  function MenuOf(h: seq<string>, limit: nat, maxShown: nat): (m: seq<Item>)
    ensures |m| == if |h| > limit then limit + 2 else |h| + 1
    ensures m[|m| - 1] == QuitItem
  {
    var hist := Reverse(h);
    if |hist| > limit then
      Picks(hist[..limit]) + [Item(MoreTitle, Open(Picks(Slice(hist, limit, maxShown))))] + [QuitItem]
    else
      Picks(hist) + [QuitItem]
  }

  /** The loop rebuildMenu runs over a list of entries, appending one item each. */
  method PickItems(entries: seq<string>) returns (items: seq<Item>)
    ensures items == Picks(entries)
  {
    items := [];
    for i := 0 to |entries|
      invariant items == Picks(entries[..i])
    {
      assert entries[..i + 1][..i] == entries[..i];
      items := items + [PickOf(entries[i])];
    }
    assert entries[..|entries|] == entries;
  }

  /**
   * rebuildMenu: the item list built from the visible entries and the
   * "More..." bucket, or from every entry, and closed by "Quit".
   */
  method BuildMenu(h: seq<string>, limit: nat, maxShown: nat) returns (items: seq<Item>)
    ensures items == MenuOf(h, limit, maxShown)
  {
    var hist := Reverse(h);
    if |hist| > limit {
      var visible := hist[..limit];
      var remaining := Slice(hist, limit, maxShown);
      items := PickItems(visible);
      var submenu := PickItems(remaining);
      items := items + [Item(MoreTitle, Open(submenu))];
    } else {
      items := PickItems(hist);
    }
    items := items + [QuitItem];
  }

  /** Up to the display limit, every entry is a top-level item, newest first. */
  lemma MenuWithoutOverflow(h: seq<string>, limit: nat, maxShown: nat)
    requires |h| <= limit
    ensures var m := MenuOf(h, limit, maxShown);
      && |m| == |h| + 1
      && (forall k :: 0 <= k < |h| ==> m[k] == PickOf(h[|h| - 1 - k]))
      && m[|h|] == QuitItem
  {
  }

  /**
   * Beyond the display limit: exactly `limit` newest entries at the top level,
   * then "More..." holding reversed positions [limit, min(maxShown, |h|)), then "Quit".
   */
  lemma MenuWithOverflow(h: seq<string>, limit: nat, maxShown: nat)
    requires |h| > limit
    ensures var m := MenuOf(h, limit, maxShown);
      && |m| == limit + 2
      && (forall k :: 0 <= k < limit ==> m[k] == PickOf(h[|h| - 1 - k]))
      && m[limit].title == MoreTitle && m[limit].action.Open?
      && m[limit + 1] == QuitItem
      && var sub := m[limit].action.submenu;
         && |sub| == (if maxShown <= limit then 0 else History.Min(maxShown, |h|) - limit)
         && forall j :: 0 <= j < |sub| ==> sub[j] == PickOf(h[|h| - 1 - (limit + j)])
  {
    var m := MenuOf(h, limit, maxShown);
    var hist := Reverse(h);
    var top := Picks(hist[..limit]);
    var rest := Slice(hist, limit, maxShown);
    var sub := Picks(rest);
    assert m == top + [Item(MoreTitle, Open(sub))] + [QuitItem];
    forall k | 0 <= k < limit ensures m[k] == PickOf(h[|h| - 1 - k]) {
      assert m[k] == top[k] == PickOf(hist[k]);
    }
    forall j | 0 <= j < |sub| ensures sub[j] == PickOf(h[|h| - 1 - (limit + j)]) {
      assert rest[j] == hist[limit + j];
    }
  }

  /** history ["a", "b", "c"] with limit 3: items c, b, a and "Quit", no "More...". */
  lemma ThreeEntriesScenario()
    ensures MenuOf(["a", "b", "c"], 3, 8)
         == [PickOf("c"), PickOf("b"), PickOf("a"), QuitItem]
  {
  }
}
