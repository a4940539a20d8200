/**
 * The string helpers of fch.py: the first line of an entry as
 * `str.splitlines()[0]` gives it, the menu label built from it, and the
 * `rstrip("\n")` applied to every clipboard capture.
 */
module Text {
  /** The characters Python's str.splitlines treats as line boundaries. */
  predicate IsLineBreak(c: char) {
    c == '\n' || c == '\r' || c == '\U{000B}' || c == '\U{000C}'
    || c == '\U{001C}' || c == '\U{001D}' || c == '\U{001E}'
    || c == '\U{0085}' || c == '\U{2028}' || c == '\U{2029}'
  }

  predicate SingleLine(s: string) {
    forall i :: 0 <= i < |s| ==> !IsLineBreak(s[i])
  }

  /**
   * `text.splitlines()[0] if text else ""`: the longest prefix without a line
   * boundary (a `\r\n` pair ends the line at its `\r`).
   */
  function FirstLine(text: string): (r: string)
    ensures r <= text && SingleLine(r)
    ensures |r| < |text| ==> IsLineBreak(text[|r|])
  {
    if text == [] || IsLineBreak(text[0]) then [] else [text[0]] + FirstLine(text[1..])
  }

  /** Only the first line of a multi-line entry matters. */
  lemma {:induction false} FirstLineOfLines(line: string, brk: char, rest: string)
    requires SingleLine(line) && IsLineBreak(brk)
    ensures FirstLine(line + [brk] + rest) == line
  {
    if line != [] {
      assert (line + [brk] + rest)[1..] == line[1..] + [brk] + rest;
      FirstLineOfLines(line[1..], brk, rest);
    }
  }

  const Ellipsis: char := '\U{2026}'
  const EmptyLabel: string := "(empty)"

  /**
   * label(text, limit): the first line, cut to `limit - 1` characters plus an
   * ellipsis when longer than `limit`, or "(empty)" when there is no first line.
   * With `limit == 0` the source's slice `[:-1]` drops one character, so the
   * ellipsis only replaces the last character and the label is not shortened.
   */
  function Label(text: string, limit: nat): (r: string)
    ensures SingleLine(r)
    ensures limit >= 1 ==> |r| <= if limit < |EmptyLabel| then |EmptyLabel| else limit
    ensures limit == 0 ==> |r| == if FirstLine(text) == "" then |EmptyLabel| else |FirstLine(text)|
  {
    var first := FirstLine(text);
    if |first| > limit then
      (if limit == 0 then first[..|first| - 1] else first[..limit - 1]) + [Ellipsis]
    else if first == "" then EmptyLabel
    else first
  }

  /** The three cases of label for the width the menu uses (any width >= 1). */
  lemma LabelCases(text: string, limit: nat)
    requires limit >= 1
    ensures |FirstLine(text)| > limit ==>
              |Label(text, limit)| == limit
              && Label(text, limit) == FirstLine(text)[..limit - 1] + [Ellipsis]
    ensures 0 < |FirstLine(text)| <= limit ==> Label(text, limit) == FirstLine(text)
    ensures FirstLine(text) == "" ==> Label(text, limit) == EmptyLabel
    ensures text == "" ==> Label(text, limit) == EmptyLabel
  {
  }

  /** A label depends on the first line alone. */
  lemma LabelOfLines(line: string, brk: char, rest: string, limit: nat)
    requires SingleLine(line) && IsLineBreak(brk)
    ensures Label(line + [brk] + rest, limit) == Label(line, limit)
  {
    FirstLineOfLines(line, brk, rest);
    assert FirstLine(line) == line;
  }

  predicate AllNewlines(s: string) {
    forall i :: 0 <= i < |s| ==> s[i] == '\n'
  }

  /** `text.rstrip("\n")`: drop every trailing `\n` (and nothing else). */
  function StripNewlines(text: string): (r: string)
    ensures r <= text && AllNewlines(text[|r|..])
    ensures r == [] || r[|r| - 1] != '\n'
  {
    if text != [] && text[|text| - 1] == '\n' then StripNewlines(text[..|text| - 1]) else text
  }

  /** Stripping is idempotent: a stripped entry is its own stripped form. */
  lemma StripNewlinesIdempotent(text: string)
    ensures StripNewlines(StripNewlines(text)) == StripNewlines(text)
  {
  }

  /** Adding trailing newlines to a capture does not change what is recorded. */
  lemma {:induction false} StripNewlinesIgnoresNewlines(text: string, nl: string)
    requires AllNewlines(nl)
    ensures StripNewlines(text + nl) == StripNewlines(text)
  {
    if nl != [] {
      assert (text + nl)[..|text + nl| - 1] == text + nl[..|nl| - 1];
      StripNewlinesIgnoresNewlines(text, nl[..|nl| - 1]);
    } else {
      assert text + nl == text;
    }
  }
}
