/** The result table and the consumer side of its message queue: `process_queue`
    (QuickEval.py:458-489) takes `('clear', _)` and `('insert', (values, tags))`
    messages off the queue in order and applies them to the table. */
module Table {
  import opened Text
  import opened Wrapping

  datatype Option<T> = None | Some(value: T)

  const Black := "black"
  const Green := "green"
  const Red := "red"

  /** The width every cell is wrapped to before insertion. */
  const WrapWidth := 30

  /** The columns whose tags decide a row's colour (Buffett, Hartz, Pabrai), in order. */
  const ColorColumns: seq<nat> := [1, 3, 4]

  /** A queue message. */
  datatype Message = Clear | Insert(values: seq<string>, tags: seq<string>)

  /** A table row: the wrapped cells and the single colour tag it was inserted with. */
  datatype Row = Row(values: seq<string>, color: string)

  predicate AllBlack(tags: seq<string>) {
    forall k | 0 <= k < |tags| :: tags[k] == Black
  }

  predicate IsMarked(tag: string) {
    tag == Green || tag == Red
  }

  /** The colour of an inserted row: black when every tag is black, otherwise the first
      green or red tag among columns 1, 3 and 4, otherwise black. `None` stands for the
      IndexError raised when a tag list that is not all black is too short for the
      column being read. */
  function RowColor(tags: seq<string>): Option<string> {
    if AllBlack(tags) then Some(Black)
    else if |tags| <= 1 then None
    else if IsMarked(tags[1]) then Some(tags[1])
    else if |tags| <= 3 then None
    else if IsMarked(tags[3]) then Some(tags[3])
    else if |tags| <= 4 then None
    else if IsMarked(tags[4]) then Some(tags[4])
    else Some(Black)
  }

  /** The colour choice of `process_queue`: the all-black test, then a scan of the colour
      columns that stops at the first green or red tag. */
  method ChooseRowColor(tags: seq<string>) returns (color: Option<string>)
    ensures color == RowColor(tags)
  {
    if AllBlack(tags) {
      return Some(Black);
    }
    var rowColor := Black;
    var i := 0;
    assert ColorColumns[0] == 1 && ColorColumns[1] == 3 && ColorColumns[2] == 4;
    while i < |ColorColumns|
      invariant 0 <= i <= |ColorColumns|
      invariant rowColor == Black
      invariant forall m | 0 <= m < i :: ColorColumns[m] < |tags| && !IsMarked(tags[ColorColumns[m]])
    {
      var index := ColorColumns[i];
      if index >= |tags| {
        assert 0 < i ==> !IsMarked(tags[ColorColumns[0]]);
        assert 1 < i ==> !IsMarked(tags[ColorColumns[1]]);
        return None;
      }
      if IsMarked(tags[index]) {
        rowColor := tags[index];
        break;
      }
      i := i + 1;
    }
    return Some(rowColor);
  }

  /** Every cell wrapped to the table width. */
  function WrapAll(values: seq<string>): seq<string> {
    seq(|values|, k requires 0 <= k < |values| => Wrap(values[k], WrapWidth))
  }

  /** The list comprehension that wraps the cells of an inserted row. */
  method WrapValues(values: seq<string>) returns (wrapped: seq<string>)
    ensures wrapped == WrapAll(values)
  {
    wrapped := [];
    for i := 0 to |values|
      invariant |wrapped| == i
      invariant forall k | 0 <= k < i :: wrapped[k] == Wrap(values[k], WrapWidth)
    {
      var cell := WrapText(values[i], WrapWidth);
      wrapped := wrapped + [cell];
    }
  }

  /** The table after one message, or `None` when handling it raises. */
  function Apply(rows: seq<Row>, m: Message): Option<seq<Row>> {
    match m
    case Clear => Some([])
    case Insert(values, tags) =>
      match RowColor(tags)
      case None => None
      case Some(c) => Some(rows + [Row(WrapAll(values), c)])
  }

  /** The table and what is left in the queue after one drain. */
  datatype Drained = Drained(rows: seq<Row>, pending: seq<Message>)

  /** One call of `process_queue`: messages are applied in order until the queue is
      empty. A message that raises has already been taken off the queue; the exception
      ends the drain and the rest waits for the next call. */
  function Drain(rows: seq<Row>, queue: seq<Message>): Drained
    decreases |queue|
  {
    if queue == [] then Drained(rows, [])
    else
      match Apply(rows, queue[0])
      case None => Drained(rows, queue[1..])
      case Some(next) => Drain(next, queue[1..])
  }

  /** The table widget with its message queue. */
  class ResultTable {
    var rows: seq<Row>
    var queue: seq<Message>

    constructor ()
      ensures rows == [] && queue == []
    {
      rows := [];
      queue := [];
    }

    /** `result_queue.put(message)`. */
    method Put(m: Message)
      modifies this
      ensures queue == old(queue) + [m] && rows == old(rows)
    {
      queue := queue + [m];
    }

    /** `clear_treeview`: delete the rows one by one. */
    method ClearTreeview()
      modifies this
      ensures rows == [] && queue == old(queue)
    {
      while rows != []
        invariant queue == old(queue)
        decreases |rows|
      {
        rows := rows[1..];
      }
    }

    /** `process_queue`: drain the queue into the table. */
    method ProcessQueue()
      modifies this
      ensures rows == Drain(old(rows), old(queue)).rows
      ensures queue == Drain(old(rows), old(queue)).pending
    {
      while queue != []
        invariant Drain(rows, queue) == Drain(old(rows), old(queue))
        decreases |queue|
      {
        var m := queue[0];
        queue := queue[1..];
        match m
        case Clear =>
          ClearTreeview();
        case Insert(values, tags) =>
          var wrapped := WrapValues(values);
          var color := ChooseRowColor(tags);
          if color.None? {
            return;
          }
          rows := rows + [Row(wrapped, color.value)];
      }
    }
  }

  // ---------------------------------------------------------------------------
  // The colour rule

  /** A colour is always black or the green or red tag of one of the colour columns;
      a tag list of at least five entries always gets a colour. */
  lemma RowColorChoices(tags: seq<string>)
    ensures |tags| >= 5 ==> RowColor(tags).Some?
    ensures RowColor(tags).Some? ==>
      RowColor(tags).value == Black ||
      (IsMarked(RowColor(tags).value) &&
       exists m | 0 <= m < |ColorColumns| :: ColorColumns[m] < |tags| && tags[ColorColumns[m]] == RowColor(tags).value)
  {
    var c := RowColor(tags);
    if c.Some? && c.value != Black {
      if |tags| > 1 && IsMarked(tags[1]) {
        assert ColorColumns[0] == 1;
      } else if |tags| > 3 && IsMarked(tags[3]) {
        assert ColorColumns[1] == 3;
      } else {
        assert ColorColumns[2] == 4;
      }
    }
  }

  /** Only the colour columns decide a colour: tag lists of one length of at least five
      that agree on columns 1, 3 and 4 get the same colour. */
  lemma RowColorOnlyColorColumns(tags: seq<string>, other: seq<string>)
    requires |tags| == |other| >= 5
    requires tags[1] == other[1] && tags[3] == other[3] && tags[4] == other[4]
    ensures RowColor(tags) == RowColor(other)
  {
    if AllBlack(tags) != AllBlack(other) {
      if AllBlack(tags) {
        assert !IsMarked(other[1]) && !IsMarked(other[3]) && !IsMarked(other[4]);
      } else {
        assert !IsMarked(tags[1]) && !IsMarked(tags[3]) && !IsMarked(tags[4]);
      }
    }
  }

  /** Tags that are black except perhaps in one column: the row takes that column's tag
      when it is a colour column and the tag is green or red, and is black otherwise. */
  lemma RowColorOneTag(tags: seq<string>, column: nat)
    requires |tags| >= 5 && column < |tags|
    requires forall j | 0 <= j < |tags| && j != column :: tags[j] == Black
    ensures RowColor(tags) == Some(if column in ColorColumns && IsMarked(tags[column]) then tags[column] else Black)
  {
    if tags[column] == Black {
      assert AllBlack(tags);
    } else {
      assert !AllBlack(tags);
      assert column in ColorColumns <==> column == 1 || column == 3 || column == 4;
    }
  }

  // ---------------------------------------------------------------------------
  // Draining the queue against a reference: the table ends up holding the rows
  // inserted after the last 'clear', or the old rows followed by every inserted row
  // when there is no 'clear'

  /** A message that can be handled without raising. */
  predicate Handled(m: Message) {
    m.Clear? || RowColor(m.tags).Some?
  }

  predicate AllHandled(queue: seq<Message>) {
    forall k | 0 <= k < |queue| :: Handled(queue[k])
  }

  /** The row an 'insert' message adds. */
  function RowOf(m: Message): Row
    requires m.Insert? && RowColor(m.tags).Some?
  {
    Row(WrapAll(m.values), RowColor(m.tags).value)
  }

  /** The rows of all the 'insert' messages, in queue order. */
  function InsertedRows(queue: seq<Message>): seq<Row>
    requires AllHandled(queue)
  {
    if queue == [] then []
    else (if queue[0].Clear? then [] else [RowOf(queue[0])]) + InsertedRows(queue[1..])
  }

  /** The position of the last 'clear' message, if any. */
  function LastClear(queue: seq<Message>): (r: Option<nat>)
    ensures r.Some? ==> r.value < |queue| && queue[r.value].Clear?
    ensures r.Some? ==> forall k | r.value < k < |queue| :: queue[k].Insert?
    ensures r.None? ==> forall k | 0 <= k < |queue| :: queue[k].Insert?
  {
    if queue == [] then None
    else
      match LastClear(queue[1..])
      case Some(j) => Some(j + 1)
      case None => if queue[0].Clear? then Some(0) else None
  }

  /** The table a drain of handled messages should leave. */
  function Expected(rows: seq<Row>, queue: seq<Message>): seq<Row>
    requires AllHandled(queue)
  {
    match LastClear(queue)
    case None => rows + InsertedRows(queue)
    case Some(i) => InsertedRows(queue[i + 1..])
  }

  /** Draining handled messages empties the queue and leaves the reference table. */
  lemma {:induction false} DrainHandled(rows: seq<Row>, queue: seq<Message>)
    requires AllHandled(queue)
    ensures Drain(rows, queue) == Drained(Expected(rows, queue), [])
    decreases |queue|
  {
    if queue != [] {
      var m := queue[0];
      var rest := queue[1..];
      assert Handled(m);
      var next := Apply(rows, m).value;
      assert Drain(rows, queue) == Drain(next, rest);
      DrainHandled(next, rest);
      match LastClear(rest)
      case Some(j) =>
        assert LastClear(queue) == Some(j + 1);
        assert queue[j + 2..] == rest[j + 1..];
      case None =>
        if m.Clear? {
          assert LastClear(queue) == Some(0);
          assert queue[1..] == rest;
        } else {
          assert LastClear(queue).None?;
          assert InsertedRows(queue) == [RowOf(m)] + InsertedRows(rest);
        }
    }
  }

  /** A message that raises ends the drain: the table is what the messages before it
      left, and the messages after it stay queued. */
  lemma {:induction false} DrainStops(rows: seq<Row>, queue: seq<Message>, k: nat)
    requires k < |queue| && !Handled(queue[k])
    requires AllHandled(queue[..k])
    ensures Drain(rows, queue) == Drained(Expected(rows, queue[..k]), queue[k + 1..])
    decreases k
  {
    if k == 0 {
      assert queue[..0] == [];
    } else {
      var m := queue[0];
      assert m == queue[..k][0];
      var next := Apply(rows, m).value;
      assert queue[1..][..k - 1] == queue[..k][1..];
      assert queue[1..][k - 1 + 1..] == queue[k + 1..];
      DrainStops(next, queue[1..], k - 1);
      DrainHandled(rows, queue[..k]);
      DrainHandled(next, queue[..k][1..]);
    }
  }

  /** Messages are applied in queue order: draining two batches at once is draining the
      first and then the second. */
  lemma {:induction false} DrainInOrder(rows: seq<Row>, first: seq<Message>, second: seq<Message>)
    requires AllHandled(first)
    ensures Drain(rows, first + second) == Drain(Drain(rows, first).rows, second)
    decreases |first|
  {
    if first == [] {
      assert first + second == second;
    } else {
      assert Handled(first[0]);
      assert (first + second)[0] == first[0];
      assert (first + second)[1..] == first[1..] + second;
      DrainInOrder(Apply(rows, first[0]).value, first[1..], second);
    }
  }

  lemma {:induction false} InsertedRowsLength(queue: seq<Message>)
    requires AllHandled(queue)
    requires forall k | 0 <= k < |queue| :: queue[k].Insert?
    ensures |InsertedRows(queue)| == |queue|
    ensures forall k | 0 <= k < |queue| :: InsertedRows(queue)[k] == RowOf(queue[k])
    decreases |queue|
  {
    if queue != [] {
      InsertedRowsLength(queue[1..]);
    }
  }

  /** Without a 'clear', the rows already present stay as they are and every 'insert'
      appends exactly one row, whose cells are the message's cells wrapped. */
  lemma InsertsAppend(rows: seq<Row>, queue: seq<Message>)
    requires AllHandled(queue)
    requires forall k | 0 <= k < |queue| :: queue[k].Insert?
    ensures var after := Drain(rows, queue).rows;
      |after| == |rows| + |queue| && after[..|rows|] == rows &&
      forall k | 0 <= k < |queue| ::
        after[|rows| + k].values == WrapAll(queue[k].values) &&
        Some(after[|rows| + k].color) == RowColor(queue[k].tags)
  {
    DrainHandled(rows, queue);
    InsertedRowsLength(queue);
    var after := Drain(rows, queue).rows;
    assert after == rows + InsertedRows(queue);
    assert after[..|rows|] == rows;
  }

  /** After a 'clear' only the rows inserted after it remain. */
  lemma ClearEmpties(rows: seq<Row>, before: seq<Message>, after: seq<Message>)
    requires AllHandled(before) && AllHandled(after)
    requires forall k | 0 <= k < |after| :: after[k].Insert?
    ensures |Drain(rows, before + [Clear] + after).rows| == |after|
    ensures forall k | 0 <= k < |after| :: Drain(rows, before + [Clear] + after).rows[k] == RowOf(after[k])
  {
    var tail := [Clear] + after;
    assert AllHandled(tail) by {
      forall k | 0 <= k < |tail| ensures Handled(tail[k]) {
        if k > 0 { assert tail[k] == after[k - 1]; }
      }
    }
    assert before + [Clear] + after == before + tail;
    DrainInOrder(rows, before, tail);
    DrainHandled(Drain(rows, before).rows, tail);
    assert tail[1..] == after;
    assert LastClear(tail) == Some(0);
    InsertedRowsLength(after);
  }
}
