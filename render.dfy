/** `build_diff` and the `Line` column of the requester's diff output. The
    grouped, tagged line changes come from the line-diff library and are the
    input here; styling (colour, bold, underline) leaves the text as it is. */
module Render {
  import opened Wrappers
  import opened Text
  import opened Changes

  /** The sign column of a change; each tag has its own sign, so the sign
      tells the tag back. */
  function Sign(tag: ChangeTag): (c: char)
    ensures TagOfSign(c) == Some(tag)
  {
    match tag
    case Delete => '-'
    case Insert => '+'
    case Equal => ' '
  }

  function TagOfSign(c: char): Option<ChangeTag> {
    if c == '-' then Some(Delete)
    else if c == '+' then Some(Insert)
    else if c == ' ' then Some(Equal)
    else None
  }

  /** `Line`'s `Display`: four spaces, or the 1-based line number left-aligned
      in four columns. */
  function LineColumn(idx: Option<nat>): (r: string)
    ensures idx.None? ==> r == "    "
    ensures |r| >= 4
  {
    match idx
    case None => "    "
    case Some(i) => PadRight(Decimal(i + 1), 4)
  }

  /** Reads a line-number column back: the 0-based index it shows, if any. */
  function ParseColumn(col: string): Option<nat> {
    var d := TrimEndSpaces(col);
    if d != [] && AllDigits(d) && ParseDecimal(d) >= 1 then Some(ParseDecimal(d) - 1) else None
  }

  lemma {:induction false} TrimPadded(s: string, n: nat)
    requires s == [] || s[|s| - 1] != ' '
    ensures TrimEndSpaces(s + Repeat(' ', n)) == s
    decreases n
  {
    if n > 0 {
      var t := s + Repeat(' ', n);
      assert t[..|t| - 1] == s + Repeat(' ', n - 1);
      TrimPadded(s, n - 1);
    } else {
      assert s + Repeat(' ', 0) == s;
    }
  }

  /** The column shows the line number faithfully: reading it back gives the index. */
  lemma ColumnRoundTrip(idx: Option<nat>)
    ensures ParseColumn(LineColumn(idx)) == idx
  {
    match idx
    case None =>
      assert TrimEndSpaces("    ") == [] by {
        TrimPadded([], 4);
        assert [] + Repeat(' ', 4) == "    ";
      }
    case Some(i) =>
      var d := Decimal(i + 1);
      var pad := if |d| < 4 then 4 - |d| else 0;
      assert LineColumn(idx) == d + Repeat(' ', pad);
      TrimPadded(d, pad);
      DecimalRoundTrip(i + 1);
  }

  /** A numbered column is exactly four characters wide up to line 9999. */
  lemma ColumnWidth(i: nat)
    ensures |LineColumn(Some(i))| == 4 <==> i + 1 < 10000
  {
    DecimalFits(i + 1, 4);
    assert Pow10(4) == 10000;
  }

  /** The text of a change, its pieces concatenated. */
  function Content(segments: seq<Segment>): string {
    if segments == [] then ""
    else Content(segments[..|segments| - 1]) + segments[|segments| - 1].value
  }

  /** The columns and sign in front of a change's text. */
  function ChangePrefix(c: InlineChange): string {
    LineColumn(c.oldIndex) + LineColumn(c.newIndex) + " |" + [Sign(c.tag)]
  }

  /** The output for one change: columns, sign, text, and a newline if the text has none. */
  function RenderChange(c: InlineChange): string {
    ChangePrefix(c) + Content(c.segments) + (if c.missingNewline then "\n" else "")
  }

  /** The width of the rule between groups. */
  const RuleWidth: nat := 80

  /** `writeln!("{:-^1$}", "-", 80)`: a single dash centred in 80 columns and
      padded with dashes, i.e. a rule of 80 dashes, and a newline. */
  function Separator(): (r: string)
    ensures |r| == 81 && r[80] == '\n'
    ensures forall i :: 0 <= i < 80 ==> r[i] == '-'
  {
    Repeat('-', RuleWidth) + "\n"
  }

  function RenderChanges(changes: seq<InlineChange>): string {
    if changes == [] then ""
    else RenderChanges(changes[..|changes| - 1]) + RenderChange(changes[|changes| - 1])
  }

  /** The whole diff text: groups in order, a separator in front of every group but the first. */
  function RenderGroups(groups: seq<Group>): string {
    if groups == [] then ""
    else RenderGroups(groups[..|groups| - 1])
         + (if |groups| > 1 then Separator() else "")
         + RenderChanges(groups[|groups| - 1])
  }

  lemma ContentSnoc(segments: seq<Segment>, k: nat)
    requires k < |segments|
    ensures Content(segments[..k + 1]) == Content(segments[..k]) + segments[k].value
  {
    assert segments[..k + 1][..k] == segments[..k];
  }

  lemma RenderChangesSnoc(changes: seq<InlineChange>, j: nat)
    requires j < |changes|
    ensures RenderChanges(changes[..j + 1]) == RenderChanges(changes[..j]) + RenderChange(changes[j])
  {
    assert changes[..j + 1][..j] == changes[..j];
  }

  lemma RenderGroupsSnoc(groups: seq<Group>, idx: nat)
    requires idx < |groups|
    ensures RenderGroups(groups[..idx + 1]) ==
              RenderGroups(groups[..idx]) + (if idx > 0 then Separator() else "") + RenderChanges(groups[idx])
  {
    assert groups[..idx + 1][..idx] == groups[..idx];
  }

  /** The body of `build_diff`'s loop over one change: the columns and sign,
      then each piece of the text, then the missing newline. */
  method WriteChange(change: InlineChange) returns (out: string)
    ensures out == RenderChange(change)
  {
    out := ChangePrefix(change);
    ghost var textStart := out;
    var k := 0;
    assert change.segments[..k] == [];
    while k < |change.segments|
      invariant 0 <= k <= |change.segments|
      invariant out == textStart + Content(change.segments[..k])
    {
      ContentSnoc(change.segments, k);
      Associative(textStart, Content(change.segments[..k]), change.segments[k].value);
      out := out + change.segments[k].value;
      k := k + 1;
    }
    assert change.segments[..k] == change.segments;
    if change.missingNewline {
      out := out + "\n";
    }
  }

  /** The body of `build_diff`'s loop over one group: each change in turn. */
  method WriteGroup(group: Group) returns (out: string)
    ensures out == RenderChanges(group)
  {
    out := "";
    var j := 0;
    assert group[..j] == [];
    while j < |group|
      invariant 0 <= j <= |group|
      invariant out == RenderChanges(group[..j])
    {
      var line := WriteChange(group[j]);
      RenderChangesSnoc(group, j);
      out := out + line;
      j := j + 1;
    }
    assert group[..j] == group;
  }

  /** `build_diff`'s outer loop: a separator before every group but the first,
      then the group's changes. */
  method BuildDiff(groups: seq<Group>) returns (buf: string)
    ensures buf == RenderGroups(groups)
  {
    buf := "";
    var idx := 0;
    while idx < |groups|
      invariant 0 <= idx <= |groups|
      invariant buf == RenderGroups(groups[..idx])
    {
      ghost var before := buf;
      var separator := if idx > 0 then Separator() else "";
      var text := WriteGroup(groups[idx]);
      RenderGroupsSnoc(groups, idx);
      buf := buf + separator + text;
      idx := idx + 1;
    }
    assert groups[..idx] == groups;
  }

  lemma Associative(a: string, b: string, c: string)
    ensures a + b + c == a + (b + c)
  {
  }

  /** The first group is written without a separator in front of it. */
  lemma SingleGroup(g: Group)
    ensures RenderGroups([g]) == RenderChanges(g)
  {
    assert [g][..0] == [];
  }

  /** Separators go exactly between groups: rendering two non-empty lists of
      groups one after the other puts one separator between them. */
  lemma {:induction false} RenderGroupsAppend(gs1: seq<Group>, gs2: seq<Group>)
    requires gs1 != [] && gs2 != []
    ensures RenderGroups(gs1 + gs2) == RenderGroups(gs1) + Separator() + RenderGroups(gs2)
    decreases |gs2|
  {
    var init, last := gs2[..|gs2| - 1], gs2[|gs2| - 1];
    assert gs2 == init + [last];
    assert gs1 + gs2 == (gs1 + init) + [last];
    AppendGroup(gs1 + init, last);
    if init == [] {
      assert gs1 + init == gs1;
      SingleGroup(last);
    } else {
      RenderGroupsAppend(gs1, init);
      AppendGroup(init, last);
      Regroup(RenderGroups(gs1), Separator(), RenderGroups(init), RenderChanges(last));
    }
  }

  lemma Regroup(a: string, sep: string, b: string, c: string)
    ensures a + sep + b + sep + c == a + sep + (b + sep + c)
  {
  }

  lemma AppendGroup(groups: seq<Group>, g: Group)
    ensures RenderGroups(groups + [g]) ==
              RenderGroups(groups) + (if groups != [] then Separator() else "") + RenderChanges(g)
  {
    assert (groups + [g])[..|groups|] == groups;
  }

  /** Reads the columns and sign back from the front of a rendered line. */
  function DecodeChangePrefix(line: string): Option<(Option<nat>, Option<nat>, ChangeTag)> {
    if |line| < 11 || line[8..10] != " |" then None
    else match TagOfSign(line[10])
      case None => None
      case Some(tag) => Some((ParseColumn(line[..4]), ParseColumn(line[4..8]), tag))
  }

  /** Up to line 9999 a rendered change can be read back: its front gives its
      old and new line numbers and its tag. */
  lemma DecodeRenderedChange(c: InlineChange)
    requires c.oldIndex.Some? ==> c.oldIndex.value + 1 < 10000
    requires c.newIndex.Some? ==> c.newIndex.value + 1 < 10000
    ensures DecodeChangePrefix(RenderChange(c)) == Some((c.oldIndex, c.newIndex, c.tag))
  {
    if c.oldIndex.Some? { ColumnWidth(c.oldIndex.value); }
    if c.newIndex.Some? { ColumnWidth(c.newIndex.value); }
    var line := RenderChange(c);
    var o, n := LineColumn(c.oldIndex), LineColumn(c.newIndex);
    var head := ChangePrefix(c);
    assert head == o + n + " |" + [Sign(c.tag)];
    assert |head| == 11 && line[..11] == head;
    assert head[..4] == o && head[4..8] == n;
    assert head[8] == ' ' && head[9] == '|' && head[10] == Sign(c.tag);
    assert line[8..10] == [head[8], head[9]] == " |";
    assert line[..4] == head[..4] && line[4..8] == head[4..8];
    assert TagOfSign(line[10]) == Some(c.tag);
    ColumnRoundTrip(c.oldIndex);
    ColumnRoundTrip(c.newIndex);
  }

  /** Every change ends its own output line when the library reports a missing
      newline exactly for texts that do not end in one. */
  lemma RenderedChangeEndsLine(c: InlineChange)
    requires !c.missingNewline ==> Content(c.segments) != [] && Content(c.segments)[|Content(c.segments)| - 1] == '\n'
    ensures var r := RenderChange(c); |r| > 0 && r[|r| - 1] == '\n'
  {
  }
}
