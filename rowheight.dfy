/** The row-height rule `calculate_row_height` (QuickEval.py:314-324). */
module RowHeight {
  import opened Text

  /** The font size of the table rows, plus a two-point buffer per line. */
  const FontSize := 14
  const LineHeight := FontSize + 2
  /** Extra padding of every row. */
  const Padding := 10

  /** The height of a row: one line height per line of its tallest value, and at least
      one line, plus the padding. */
  method CalculateRowHeight(values: seq<string>) returns (height: int)
    ensures height >= LineHeight + Padding
    ensures forall k | 0 <= k < |values| ::
      height >= LineHeight * (Count(values[k], '\n') + 1) + Padding &&
      height >= LineHeight * |Lines(values[k])| + Padding
    ensures height == LineHeight + Padding ||
      exists k | 0 <= k < |values| :: height == LineHeight * (Count(values[k], '\n') + 1) + Padding
  {
    var maxLines := 1;
    for i := 0 to |values|
      invariant maxLines >= 1
      invariant forall k | 0 <= k < i :: maxLines >= Count(values[k], '\n') + 1
      invariant maxLines == 1 || exists k | 0 <= k < i :: maxLines == Count(values[k], '\n') + 1
    {
      var lines := Count(values[i], '\n') + 1;
      if lines > maxLines {
        maxLines := lines;
      }
    }
    forall k | 0 <= k < |values| ensures |Lines(values[k])| == Count(values[k], '\n') + 1 {
      SplitCount(values[k], '\n');
    }
    height := LineHeight * maxLines + Padding;
  }
}
