# QuickEval result table, in Dafny

QuickEval is a Tkinter desktop tool. It reads a comma-separated list of stock tickers,
runs one or all of five valuation methods on them (Buffett, Brandes, Hartz-Millsap-Hill,
Pabrai, Hempton Nutty) and shows the results in a seven-column table, one row per
ticker. This project models the part of `QuickEval.py` that does not need the network
or the GUI:

- the ticker validator `validate_symbols`;
- the word wrapper `wrap_text`, which every cell goes through before display;
- the row-height rule `calculate_row_height`;
- the rows that `run_analysis_method` and `run_all_methods` queue;
- the consumer `process_queue`. It drains `('clear', None)` and
  `('insert', (values, tags))` messages into the table and picks each row's colour.

The valuation results and the formatted price line of every ticker are inputs of the
model. Computing them takes market data.

Files, one module each:

- `text.dfy` (`Text`): the parts of Python's `str` that the code uses, on ASCII. These
  are `split` (with and without a separator), `strip`, `upper`, `isalnum`, `count` and
  `join`. The file also holds the lemmas that relate them.
- `wrapping.dfy` (`Wrapping`): `wrap_text`. The loop keeps its list of lines, its
  current line and its running length. It is proved equal to a greedy reference
  definition, and the properties of the output are proved about that definition.
- `symbols.dfy` (`Symbols`): `validate_symbols`.
- `rowheight.dfy` (`RowHeight`): `calculate_row_height`, as a loop.
- `table.dfy` (`Table`): the queue messages and the colour rule. `ResultTable` is a
  class holding the table rows and the pending queue, and its `ProcessQueue` is the
  drain loop. A reference semantics (`Expected`) says which rows a drain leaves.
- `rows.dfy` (`Rows`): the batches of messages the two analysis commands queue, and
  what draining them does to the table.

Behaviour the code has and the model keeps:

- `wrap_text` puts a blank first line before a first word that is longer than the
  width. Its running length counts one space after every word, so a lone word may be
  longer than the width.
- `validate_symbols` rejects the whole list when any ticker is not alphanumeric. Blank
  pieces between commas are dropped.
- `process_queue` colours a row black when all its tags are black. Otherwise it uses
  the first green or red tag among columns 1, 3 and 4, and black when there is none. A
  tag list that is not all black but too short for a column it reads raises
  `IndexError`. The message has then already been taken off the queue; the drain stops
  and the remaining messages wait for the next timer tick. The model writes this as
  `None`.
- `run_analysis_method` writes the result text into the method's column. An unknown
  function name maps to column 0 and overwrites the ticker. Only columns 1, 3 and 4
  carry the method's tag. The five method functions of the file all map to columns
  1-5, so this cannot happen from the GUI.
- `calculate_row_height` is defined but never called anywhere in `QuickEval.py`.
  It is modelled on its own.

## Model

| member | source | states |
|---|---|---|
| Wrapping.WrapText | QuickEval.py:96-111 | the loop of `wrap_text` returns exactly the greedy reference wrapping `Wrap(text, width)` of the whitespace-split words |
| Wrapping.PackWords | QuickEval.py:98-111 | the running-length loop over a word list renders exactly the greedy groups `WrapGroups` (a blank first group when the first word is too long, then longest-fitting lines) joined by newlines |
| Wrapping.WrapKeepsWords | QuickEval.py:96-111 | splitting the wrapped text on whitespace gives back the input's words, in order: wrapping loses, adds and reorders no word |
| Wrapping.WrapEmpty | QuickEval.py:97-111 | the output is the empty string exactly when the input has no words |
| Wrapping.WrapLines | QuickEval.py:101-111 | every output line is its words joined by single spaces, and a line holding two or more words is at most `width` characters long |
| Wrapping.WrapLinesNonBlank | QuickEval.py:101-110 | no output line after the first is blank |
| Wrapping.WrapFirstLine | QuickEval.py:101-107 | when there are words, the first output line is blank exactly when the first word is longer than `width` |
| Wrapping.WrapLongWordAlone | QuickEval.py:101-107 | a word longer than `width` is the only word on its line |
| Wrapping.WrapGreedy | QuickEval.py:101-107 | each line break is forced: a line plus the first word of the next line would not fit in `width` |
| Symbols.ValidateSymbols | QuickEval.py:326-333 | the result is either empty or the full list of stripped, upper-cased, non-blank comma-separated pieces; it is empty exactly when that list is empty or holds a non-alphanumeric ticker; every ticker returned is non-empty, stripped, upper case and alphanumeric |
| Symbols.TickersClean | QuickEval.py:327 | every ticker the list comprehension produces is non-empty, has no surrounding whitespace and is upper case |
| Symbols.InvalidEmpty | QuickEval.py:328-329 | the list of invalid tickers is empty exactly when every ticker is alphanumeric |
| Symbols.ValidateRoundTrip | QuickEval.py:326-333 | validating the accepted tickers again, joined with commas, accepts the same list |
| RowHeight.CalculateRowHeight | QuickEval.py:314-324 | the height is 16 times the largest line count among the values (counting one line more than newlines, at least one), plus 10; so it is at least 26, at least 16 times the number of lines of any value plus 10, and it is attained by some value or by the one-line minimum |
| Table.ChooseRowColor | QuickEval.py:470-480 | the colour scan returns exactly `RowColor`: black for all-black tags, else the first green or red tag among columns 1, 3, 4, else black, and the `IndexError` outcome for a short tag list |
| Table.RowColorChoices | QuickEval.py:470-480 | a chosen colour is black or the green or red tag of one of the colour columns, and a tag list of five or more always gets a colour |
| Table.RowColorOnlyColorColumns | QuickEval.py:474-480 | two tag lists of the same length (five or more) that agree on columns 1, 3 and 4 get the same colour |
| Table.RowColorOneTag | QuickEval.py:470-480 | tags black everywhere except one column colour the row with that column's tag if it is a colour column and the tag is green or red, and black otherwise |
| Table.WrapValues | QuickEval.py:467 | every cell is wrapped to width 30, in order |
| Table.ResultTable.ProcessQueue | QuickEval.py:458-489 | the new table and the new queue are those of the reference drain `Drain` of the old table and the old queue |
| Table.ResultTable.ClearTreeview | QuickEval.py:405-407 | after deleting the rows one by one the table is empty and the queue is untouched |
| Table.ResultTable.Put | QuickEval.py:349 | `result_queue.put` appends the message at the back of the queue and leaves the table alone |
| Table.DrainHandled | QuickEval.py:458-489 | when no message raises, a drain empties the queue and leaves the rows inserted after the last 'clear', or the old rows followed by every inserted row when there is no 'clear' |
| Table.DrainStops | QuickEval.py:458-489 | a message that raises ends the drain: the table is what the messages before it produced, and every message after it stays queued |
| Table.DrainInOrder | QuickEval.py:460-483 | messages are applied first in, first out: draining two batches together equals draining the first and then the second from its result |
| Table.InsertsAppend | QuickEval.py:465-483 | without a 'clear', the old rows stay unchanged at the front and every 'insert' appends exactly one row with the message's cells wrapped and the colour the rule picks |
| Table.ClearEmpties | QuickEval.py:462-463 | after a 'clear' the table holds exactly the rows of the 'insert' messages that follow it |
| Table.InsertedRowsLength | QuickEval.py:465-483 | a list of 'insert' messages yields one row per message, in order |
| Rows.ColumnIndex | QuickEval.py:340-346 | the column of a method's result is always one of the columns 0-5 before the price column |
| Rows.RunAnalysisMethod | QuickEval.py:335-368 | nothing is queued when no ticker is accepted; otherwise a 'clear' and then one row per accepted ticker, in order, each equal to `AnalysisRow` |
| Rows.QueueAnalysisRows | QuickEval.py:349-368 | the loop over the accepted tickers queues a 'clear' followed by each ticker's row |
| Rows.BuildAnalysisRow | QuickEval.py:351-366 | filling a blank seven-cell, all-black row in place gives `AnalysisRow`: the ticker, the result text in the method's column, the tag only in a colour column, the price line or "Price data unavailable" last |
| Rows.AnalysisRowShape | QuickEval.py:351-366 | a one-method row has seven cells and seven tags; the ticker is first unless column 0 received the result; the result text is in the method's column; the other result cells are empty; only a colour column can have a non-black tag |
| Rows.AnalysisRowColor | QuickEval.py:358-359 | such a row gets the method's tag as colour when the method has a colour column and the tag is green or red, and black otherwise |
| Rows.AnalysisTable | QuickEval.py:335-368 | draining a one-method batch replaces the whole table by one row per accepted ticker, in order, with wrapped cells and the colour above, and nothing stays queued |
| Rows.RunAllMethods | QuickEval.py:412-456 | nothing is queued when no ticker is accepted; otherwise a 'clear' and one `RunAllRow` per accepted ticker, in order |
| Rows.QueueRunAllRows | QuickEval.py:437-454 | the loop over the accepted tickers queues a 'clear' followed by each ticker's row |
| Rows.BuildRunAllRow | QuickEval.py:439-452 | appending the ticker, the five methods' texts in column order and the price line gives `RunAllRow` |
| Rows.RunAllRowShape | QuickEval.py:439-452 | a "Run All" row has seven cells and seven black tags: the ticker, each method's text or "No Data" when the method reported nothing for the ticker, the price line last |
| Rows.RunAllTable | QuickEval.py:437-454 | draining a "Run All" batch replaces the table by one black row per accepted ticker, in order, with wrapped cells |

## Left out

- The Tkinter GUI: windows, buttons, the ticker entry widget, styles and fonts. The
  rows are values; nothing is drawn.
- Market data. Fetching prices and financial statements through yfinance is left
  out, and so are the price formatting and the cache. The price line of a ticker is an
  input map. A missing entry stands for a failed fetch, which shows
  "Price data unavailable".
- The five valuation formulas. Each method's result dictionary is an input: ticker to
  text and tag.
- The calculators' `output=False` branch. It queues rows whose tags are a dictionary.
  Every call in the file passes `output=True`, so the branch never runs.
- Threads. The executor, `run_in_thread` and the thread pool of "Run All" are left
  out. So is the exception that a failing method, or a result for a ticker outside the
  list, raises through `future.result()` and that cancels the batch. The model starts
  once every method has reported.
- The timer. The 100 ms rescheduling of `process_queue` is left out, and so are the
  `print` and `logging` calls and the error dialog of `validate_symbols`. Each
  `ProcessQueue` call is one timer tick.
- Unicode. `str.split`, `strip`, `upper` and `isalnum` are modelled on ASCII only.
  Whitespace is the ASCII set that `str.isspace` accepts.
- `str(value)` in `process_queue`. The cells the two analysis commands queue are
  already strings, so the conversion is the identity.
- Messages with an action other than 'clear' or 'insert'. The source ignores them,
  and no code in the file queues one. The message type cannot express them.
- Cells that are not strings. A message's values are a list of strings, so
  pandas values and other objects that `str(value)` would format are not represented.
