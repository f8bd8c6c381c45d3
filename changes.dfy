/** The tagged line changes the line-diff library hands to `build_diff`
    (requester/src/diff.rs), grouped as `grouped_ops(3)` groups them. */
module Changes {
  import opened Wrappers

  datatype ChangeTag = Delete | Insert | Equal

  /** A piece of a changed line; emphasised pieces are the spans that changed. */
  datatype Segment = Segment(emphasized: bool, value: string)

  /** One inline change: its tag, its 0-based line numbers in the old and the
      new text (absent on the side it does not occur in), its text in pieces,
      and whether its text lacks a final newline. */
  datatype InlineChange = InlineChange(
    tag: ChangeTag,
    oldIndex: Option<nat>,
    newIndex: Option<nat>,
    segments: seq<Segment>,
    missingNewline: bool)

  /** One group of `grouped_ops(3)`, its operations expanded into their changes. */
  type Group = seq<InlineChange>
}
