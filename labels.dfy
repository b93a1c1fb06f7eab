/**
  The text a task row shows: "{title} — Completed" or "{title} — Pending",
  and how the handlers read a title back out of that text (everything before
  the first em dash, trimmed).
 */
module Labels {

  /** The em dash (U+2014) that separates a title from its status. */
  const Dash: char := '\U{2014}'

  /** The characters JavaScript's String.prototype.trim removes: the
      ECMAScript WhiteSpace set (tab, vertical tab, form feed, the byte order
      mark and the Unicode space separators) and the LineTerminator set.
      The list is fixed; it follows the Unicode space separators as of
      Unicode 15 and is not derived from a character database. */
  predicate IsSpace(c: char)
  {
    || c == '\t' || c == '\U{000B}' || c == '\U{000C}' || c == ' '
    || c == '\U{00A0}' || c == '\U{1680}' || ('\U{2000}' <= c <= '\U{200A}')
    || c == '\U{202F}' || c == '\U{205F}' || c == '\U{3000}' || c == '\U{FEFF}'
    || c == '\n' || c == '\r' || c == '\U{2028}' || c == '\U{2029}'
  }

  predicate AllSpace(s: string)
  {
    forall k :: 0 <= k < |s| ==> IsSpace(s[k])
  }

  /** Neither end of `s` can be trimmed. */
  predicate IsTrimmed(s: string)
  {
    s == [] || (!IsSpace(s[0]) && !IsSpace(s[|s| - 1]))
  }

  predicate NoDash(s: string)
  {
    forall k :: 0 <= k < |s| ==> s[k] != Dash
  }

  /** The length of the whitespace run that starts `s`. */
  function LeadingSpace(s: string): (n: nat)
    ensures n <= |s|
    ensures forall k :: 0 <= k < n ==> IsSpace(s[k])
    ensures n < |s| ==> !IsSpace(s[n])
  {
    if s == [] || !IsSpace(s[0]) then 0 else 1 + LeadingSpace(s[1..])
  }

  /** Where the whitespace run that ends `s` begins. */
  function TrailingSpaceStart(s: string): (n: nat)
    ensures n <= |s|
    ensures forall k :: n <= k < |s| ==> IsSpace(s[k])
    ensures 0 < n ==> !IsSpace(s[n - 1])
  {
    if s == [] || !IsSpace(s[|s| - 1]) then |s| else TrailingSpaceStart(s[..|s| - 1])
  }

  /** `String.prototype.trim` over the whitespace set of IsSpace. */
  function Trim(s: string): (r: string)
    ensures IsTrimmed(r)
    ensures r == [] <==> AllSpace(s)
    ensures IsTrimmed(s) ==> r == s
    ensures NoDash(s) ==> NoDash(r)
  {
    var e := TrailingSpaceStart(s);
    var b := LeadingSpace(s[..e]);
    assert e == 0 ==> AllSpace(s);
    s[b..e]
  }

  /** `r` is `s` with `lead` whitespace characters dropped at the front and
      whitespace only dropped at the back. */
  predicate IsMiddle(s: string, r: string, lead: nat)
  {
    && lead + |r| <= |s|
    && r == s[lead..lead + |r|]
    && AllSpace(s[..lead]) && AllSpace(s[lead + |r|..])
  }

  /** Trim removes exactly a whitespace run at each end and keeps the
      middle of `s` as it was. */
  lemma TrimKeepsMiddle(s: string)
    ensures exists lead: nat :: IsMiddle(s, Trim(s), lead)
  {
    var e := TrailingSpaceStart(s);
    var lead := LeadingSpace(s[..e]);
    assert Trim(s) == s[lead..e];
    assert IsMiddle(s, Trim(s), lead);
  }

  /** `s.split('—')[0]`: the text before the first em dash, or all of `s`
      when it has none. */
  function BeforeDash(s: string): (r: string)
    ensures |r| <= |s| && r == s[..|r|]
    ensures NoDash(r)
    ensures |r| < |s| ==> s[|r|] == Dash
  {
    if s == [] || s[0] == Dash then [] else [s[0]] + BeforeDash(s[1..])
  }

  /** The status word a row shows after the dash. */
  function StatusText(completed: bool): string
  {
    if completed then "Completed" else "Pending"
  }

  /** The row text `${title} — ${completed ? 'Completed' : 'Pending'}`. */
  function Label(title: string, completed: bool): string
  {
    title + [' ', Dash, ' '] + StatusText(completed)
  }

  /** The title a handler reads back from a row's text:
      `text.split('—')[0].trim()`. */
  function TitleOf(text: string): (r: string)
    ensures IsTrimmed(r) && NoDash(r)
  {
    Trim(BeforeDash(text))
  }

  /** The row text after a status change: the title read back from the old
      text, followed by the new status. */
  function Relabel(text: string, isDone: bool): (r: string)
    ensures TitleOf(r) == TitleOf(text)
  {
    TitleOfLabel(TitleOf(text), isDone);
    Label(TitleOf(text), isDone)
  }

  /** Trailing whitespace does not survive a trim. */
  lemma TrimDropsTrailingSpace(s: string, c: char)
    requires IsSpace(c)
    ensures Trim(s + [c]) == Trim(s)
  {
    assert (s + [c])[..|s|] == s;
  }

  /** `split('—')[0]` of a concatenation: the first dash is in `s` if `s`
      has one, otherwise it is in `t`. */
  lemma {:induction false} BeforeDashAppend(s: string, t: string)
    ensures BeforeDash(s + t) == if NoDash(s) then s + BeforeDash(t) else BeforeDash(s)
  {
    if s == [] {
      assert s + t == t;
    } else {
      assert (s + t)[0] == s[0];
      assert (s + t)[1..] == s[1..] + t;
      BeforeDashAppend(s[1..], t);
      assert NoDash(s) <==> s[0] != Dash && NoDash(s[1..]);
      assert s == [s[0]] + s[1..];
    }
  }

  /** Text without an em dash is kept whole by `split('—')[0]`. */
  lemma BeforeDashNoDash(s: string)
    requires NoDash(s)
    ensures BeforeDash(s) == s
  {
  }

  /** What `split('—')[0]` keeps of a label without its title. */
  lemma BeforeDashSuffix(completed: bool)
    ensures BeforeDash([' ', Dash, ' '] + StatusText(completed)) == [' ']
  {
    var rest := [' ', Dash, ' '] + StatusText(completed);
    assert rest[0] == ' ' && rest[1..][0] == Dash;
  }

  /** For every title, reading the title back from its label gives what
      reading it back from the bare title gives: a title with an em dash is
      cut at its first dash, and surrounding whitespace is dropped. */
  lemma {:induction false} TitleOfLabelAll(title: string, completed: bool)
    ensures TitleOf(Label(title, completed)) == TitleOf(title)
  {
    var rest := [' ', Dash, ' '] + StatusText(completed);
    assert Label(title, completed) == title + rest;
    BeforeDashAppend(title, rest);
    if NoDash(title) {
      BeforeDashSuffix(completed);
      BeforeDashNoDash(title);
      TrimDropsTrailingSpace(title, ' ');
    }
  }

  /** Reading the title back from a freshly built label gives the title,
      for a title without an em dash and without surrounding whitespace. */
  lemma TitleOfLabel(title: string, completed: bool)
    requires NoDash(title) && IsTrimmed(title)
    ensures TitleOf(Label(title, completed)) == title
  {
    TitleOfLabelAll(title, completed);
  }

  /** Saving an edit that left a row's text as it was keeps the task's
      title exactly when the title is trimmed and has no em dash. */
  lemma UnchangedEditKeepsTitle(title: string, completed: bool)
    requires IsTrimmed(title)
    ensures TitleOf(Label(title, completed)) == title <==> NoDash(title)
  {
    TitleOfLabelAll(title, completed);
  }

  /** Any title a handler reads back is one the round trip preserves. */
  lemma TitleOfIsStable(text: string, completed: bool)
    ensures TitleOf(Label(TitleOf(text), completed)) == TitleOf(text)
  {
    TitleOfLabel(TitleOf(text), completed);
  }

  /** Only the last status change shows: relabelling twice is relabelling
      once with the second status, whatever the text was. */
  lemma RelabelLastWins(text: string, first: bool, second: bool)
    ensures Relabel(Relabel(text, first), second) == Relabel(text, second)
  {
    TitleOfIsStable(text, first);
  }

  /** A relabel changes only the status suffix of a well-formed label. */
  lemma RelabelLabel(title: string, completed: bool, isDone: bool)
    requires NoDash(title) && IsTrimmed(title)
    ensures Relabel(Label(title, completed), isDone) == Label(title, isDone)
  {
    TitleOfLabel(title, completed);
  }

  /** Marking a pending task completed and then pending again restores the
      original "Pending" label. */
  lemma RelabelRoundTrip(title: string)
    requires NoDash(title) && IsTrimmed(title)
    ensures Relabel(Relabel(Label(title, false), true), false) == Label(title, false)
  {
    RelabelLabel(title, false, true);
    RelabelLabel(title, true, false);
  }
}
