/** The rows the analysis commands queue for the result table: `run_analysis_method`
    (QuickEval.py:335-368), for one valuation method, and `run_all_methods`
    (QuickEval.py:412-456), for all five. The valuation results and the price line of
    every symbol are inputs: computing them takes market data. */
module Rows {
  import opened Text
  import opened Wrapping
  import opened Symbols
  import opened Table

  /** What a valuation method reports for one symbol: display text and tag. */
  datatype Evaluation = Evaluation(text: string, tag: string)

  /** Ticker, the five methods, current price. */
  const Width := 7
  const PriceColumn := 6
  const Unavailable := "Price data unavailable"
  const NoData := "No Data"

  /** The column of each method's result, by the name of the method's function. */
  const MethodColumns: map<string, nat> := map[
    "calculate_value" := 1,
    "evaluate_stock" := 2,
    "calculate_hartz_millsap_hill" := 3,
    "calculate_intrinsic_value" := 4,
    "calculate_hempton_nutty" := 5]

  /** The methods "Run All" reads, in column order. */
  const MethodNames: seq<string> := ["Buffett", "Brandes", "Hartz, Millsap, Hill", "Pabrai", "Hempton Nutty"]

  /** `column_index`: the mapped column, or 0 for a name the map lacks. */
  function ColumnIndex(functionName: string): (c: nat)
    ensures c < PriceColumn
  {
    if functionName in MethodColumns then MethodColumns[functionName] else 0
  }

  /** The price cell: the formatted quote when the symbol has one. */
  function PriceText(symbol: string, quotes: map<string, string>): string {
    if symbol in quotes then quotes[symbol] else Unavailable
  }

  // ---------------------------------------------------------------------------
  // One method

  /** The row `run_analysis_method` queues for `symbol`, cell by cell. */
  function AnalysisRow(symbol: string, column: nat, results: map<string, Evaluation>,
                       quotes: map<string, string>): Message
    requires column < PriceColumn
  {
    Insert(
      seq(Width, j requires 0 <= j < Width =>
        if j == PriceColumn then PriceText(symbol, quotes)
        else if j == column && symbol in results then results[symbol].text
        else if j == 0 then symbol
        else ""),
      seq(Width, j requires 0 <= j < Width =>
        if j == column && symbol in results && column in ColorColumns then results[symbol].tag
        else Black))
  }

  /** The messages `run_analysis_method` queues: none when no symbol was accepted,
      otherwise a 'clear' followed by one row per symbol. */
  function AnalysisBatch(symbols: seq<string>, column: nat, results: map<string, Evaluation>,
                         quotes: map<string, string>): seq<Message>
    requires column < PriceColumn
  {
    if symbols == [] then []
    else [Clear] + seq(|symbols|, k requires 0 <= k < |symbols| => AnalysisRow(symbols[k], column, results, quotes))
  }

  /** `run_analysis_method`: validate the entry, then fill a row per symbol in place. */
  method RunAnalysisMethod(entry: string, functionName: string, results: map<string, Evaluation>,
                           quotes: map<string, string>) returns (msgs: seq<Message>)
    ensures msgs == AnalysisBatch(ValidateSymbols(entry), ColumnIndex(functionName), results, quotes)
  {
    var symbols := ValidateSymbols(entry);
    if symbols == [] {
      return [];
    }
    var column := ColumnIndex(functionName);
    msgs := QueueAnalysisRows(symbols, column, results, quotes);
  }

  /** The loop of `run_analysis_method` over accepted symbols, after its 'clear'. */
  method QueueAnalysisRows(symbols: seq<string>, column: nat, results: map<string, Evaluation>,
                           quotes: map<string, string>) returns (msgs: seq<Message>)
    requires symbols != [] && column < PriceColumn
    ensures msgs == AnalysisBatch(symbols, column, results, quotes)
  {
    msgs := [Clear];
    for i := 0 to |symbols|
      invariant |msgs| == i + 1 && msgs[0] == Clear
      invariant forall k | 0 <= k < i :: msgs[k + 1] == AnalysisRow(symbols[k], column, results, quotes)
    {
      var row := BuildAnalysisRow(symbols[i], column, results, quotes);
      msgs := msgs + [row];
    }
    ghost var inserts := seq(|symbols|, k requires 0 <= k < |symbols| => AnalysisRow(symbols[k], column, results, quotes));
    assert msgs == [Clear] + inserts by {
      forall k | 0 <= k < |msgs| ensures msgs[k] == ([Clear] + inserts)[k] {
        if k > 0 { assert msgs[k] == inserts[k - 1]; }
      }
    }
  }

  /** The body of the loop of `run_analysis_method`: a blank row filled in place. */
  method BuildAnalysisRow(symbol: string, column: nat, results: map<string, Evaluation>,
                          quotes: map<string, string>) returns (row: Message)
    requires column < PriceColumn
    ensures row == AnalysisRow(symbol, column, results, quotes)
  {
    var values := seq(Width, _ => "");
    values := values[0 := symbol];
    var tags := seq(Width, _ => Black);
    if symbol in results {
      var evaluation := results[symbol];
      values := values[column := evaluation.text];
      if column in ColorColumns {
        tags := tags[column := evaluation.tag];
      }
    }
    values := values[PriceColumn := PriceText(symbol, quotes)];
    row := Insert(values, tags);
  }

  /** The shape of a one-method row: seven cells and seven tags, the symbol first
      (unless an unknown method name sends the result to column 0), the result text in
      the method's column, the price last, and only the colour columns 1, 3, 4 tagged. */
  lemma AnalysisRowShape(symbol: string, column: nat, results: map<string, Evaluation>,
                         quotes: map<string, string>)
    requires column < PriceColumn
    ensures var m := AnalysisRow(symbol, column, results, quotes);
      |m.values| == Width && |m.tags| == Width &&
      m.values[PriceColumn] == PriceText(symbol, quotes) &&
      (symbol in results ==> m.values[column] == results[symbol].text) &&
      (column != 0 || symbol !in results ==> m.values[0] == symbol) &&
      (forall j | 0 < j < PriceColumn && (j != column || symbol !in results) :: m.values[j] == "") &&
      (forall j | 0 <= j < Width && j !in ColorColumns :: m.tags[j] == Black) &&
      (forall j | 0 <= j < Width && j != column :: m.tags[j] == Black)
  {
  }

  /** The colour a one-method row is shown in. */
  function AnalysisColor(symbol: string, column: nat, results: map<string, Evaluation>): string {
    if symbol in results && column in ColorColumns && IsMarked(results[symbol].tag)
    then results[symbol].tag else Black
  }

  lemma AnalysisRowColor(symbol: string, column: nat, results: map<string, Evaluation>,
                         quotes: map<string, string>)
    requires column < PriceColumn
    ensures RowColor(AnalysisRow(symbol, column, results, quotes).tags) == Some(AnalysisColor(symbol, column, results))
  {
    var tags := AnalysisRow(symbol, column, results, quotes).tags;
    RowColorOneTag(tags, column);
  }

  /** Draining what `run_analysis_method` queued replaces the whole table by one row per
      accepted symbol, in order: its cells wrapped, its colour the method's tag when the
      method has a colour column and the tag is green or red, and black otherwise. */
  lemma AnalysisTable(rows: seq<Row>, symbols: seq<string>, column: nat,
                      results: map<string, Evaluation>, quotes: map<string, string>)
    requires column < PriceColumn
    requires symbols != []
    ensures var after := Drain(rows, AnalysisBatch(symbols, column, results, quotes));
      after.pending == [] && |after.rows| == |symbols| &&
      forall k | 0 <= k < |symbols| ::
        after.rows[k] == Row(WrapAll(AnalysisRow(symbols[k], column, results, quotes).values),
                             AnalysisColor(symbols[k], column, results))
  {
    var inserts := seq(|symbols|, k requires 0 <= k < |symbols| => AnalysisRow(symbols[k], column, results, quotes));
    forall k | 0 <= k < |inserts| ensures Handled(inserts[k]) {
      AnalysisRowColor(symbols[k], column, results, quotes);
    }
    var batch := AnalysisBatch(symbols, column, results, quotes);
    assert batch == [] + [Clear] + inserts;
    assert AllHandled(batch) by {
      forall k | 0 <= k < |batch| ensures Handled(batch[k]) {
        if k > 0 { assert batch[k] == inserts[k - 1]; }
      }
    }
    ClearEmpties(rows, [], inserts);
    DrainHandled(rows, batch);
    forall k | 0 <= k < |symbols|
      ensures Drain(rows, batch).rows[k] == Row(WrapAll(inserts[k].values), AnalysisColor(symbols[k], column, results))
    {
      AnalysisRowColor(symbols[k], column, results, quotes);
    }
  }

  // ---------------------------------------------------------------------------
  // All methods

  /** `results[symbol]` of `run_all_methods`: what each method reported for the symbol,
      by method name. `perMethod` holds each method's own result dictionary. */
  function Reported(perMethod: map<string, map<string, Evaluation>>, symbol: string): map<string, Evaluation> {
    map name | name in perMethod && symbol in perMethod[name] :: perMethod[name][symbol]
  }

  /** `results[symbol].get(method_name, ("No Data", 'black'))`. */
  function Lookup(perMethod: map<string, map<string, Evaluation>>, name: string, symbol: string): Evaluation {
    var reported := Reported(perMethod, symbol);
    if name in reported then reported[name] else Evaluation(NoData, Black)
  }

  /** The row "Run All" queues for `symbol`: the symbol, each method's text, the price;
      all tags black. */
  function RunAllRow(symbol: string, perMethod: map<string, map<string, Evaluation>>,
                     quotes: map<string, string>): Message
  {
    Insert(
      [symbol] + seq(|MethodNames|, m requires 0 <= m < |MethodNames| => Lookup(perMethod, MethodNames[m], symbol).text)
        + [PriceText(symbol, quotes)],
      seq(Width, _ => Black))
  }

  function RunAllBatch(symbols: seq<string>, perMethod: map<string, map<string, Evaluation>>,
                       quotes: map<string, string>): seq<Message>
  {
    if symbols == [] then []
    else [Clear] + seq(|symbols|, k requires 0 <= k < |symbols| => RunAllRow(symbols[k], perMethod, quotes))
  }

  /** The queueing part of `run_all_methods`, once every method has reported. */
  method RunAllMethods(entry: string, perMethod: map<string, map<string, Evaluation>>,
                       quotes: map<string, string>) returns (msgs: seq<Message>)
    ensures msgs == RunAllBatch(ValidateSymbols(entry), perMethod, quotes)
  {
    var symbols := ValidateSymbols(entry);
    if symbols == [] {
      return [];
    }
    msgs := QueueRunAllRows(symbols, perMethod, quotes);
  }

  /** The loop of `run_all_methods` over accepted symbols, after its 'clear'. */
  method QueueRunAllRows(symbols: seq<string>, perMethod: map<string, map<string, Evaluation>>,
                         quotes: map<string, string>) returns (msgs: seq<Message>)
    requires symbols != []
    ensures msgs == RunAllBatch(symbols, perMethod, quotes)
  {
    msgs := [Clear];
    for i := 0 to |symbols|
      invariant |msgs| == i + 1 && msgs[0] == Clear
      invariant forall k | 0 <= k < i :: msgs[k + 1] == RunAllRow(symbols[k], perMethod, quotes)
    {
      var row := BuildRunAllRow(symbols[i], perMethod, quotes);
      msgs := msgs + [row];
    }
    ghost var inserts := seq(|symbols|, k requires 0 <= k < |symbols| => RunAllRow(symbols[k], perMethod, quotes));
    assert msgs == [Clear] + inserts by {
      forall k | 0 <= k < |msgs| ensures msgs[k] == ([Clear] + inserts)[k] {
        if k > 0 { assert msgs[k] == inserts[k - 1]; }
      }
    }
  }

  /** The body of the loop of `run_all_methods`: the symbol, then one cell appended per
      method, then the price. */
  method BuildRunAllRow(symbol: string, perMethod: map<string, map<string, Evaluation>>,
                        quotes: map<string, string>) returns (row: Message)
    ensures row == RunAllRow(symbol, perMethod, quotes)
  {
    var values := [symbol];
    var tags := seq(Width, _ => Black);
    for m := 0 to |MethodNames|
      invariant |values| == m + 1 && values[0] == symbol
      invariant forall n | 0 <= n < m :: values[n + 1] == Lookup(perMethod, MethodNames[n], symbol).text
    {
      var evaluation := Lookup(perMethod, MethodNames[m], symbol);
      values := values + [evaluation.text];
    }
    values := values + [PriceText(symbol, quotes)];
    row := Insert(values, tags);
  }

  /** The shape of a "Run All" row: seven cells, the symbol first, then each method's
      text or "No Data" when the method reported nothing for the symbol, the price last;
      seven black tags. */
  lemma RunAllRowShape(symbol: string, perMethod: map<string, map<string, Evaluation>>,
                       quotes: map<string, string>)
    ensures var m := RunAllRow(symbol, perMethod, quotes);
      |m.values| == Width && |m.tags| == Width && AllBlack(m.tags) &&
      m.values[0] == symbol && m.values[PriceColumn] == PriceText(symbol, quotes) &&
      forall n | 0 <= n < |MethodNames| ::
        m.values[n + 1] ==
          (if MethodNames[n] in perMethod && symbol in perMethod[MethodNames[n]]
           then perMethod[MethodNames[n]][symbol].text else NoData)
  {
  }

  /** Draining what "Run All" queued replaces the table by one black row per accepted
      symbol, in order, with its cells wrapped. */
  lemma RunAllTable(rows: seq<Row>, symbols: seq<string>, perMethod: map<string, map<string, Evaluation>>,
                    quotes: map<string, string>)
    requires symbols != []
    ensures var after := Drain(rows, RunAllBatch(symbols, perMethod, quotes));
      after.pending == [] && |after.rows| == |symbols| &&
      forall k | 0 <= k < |symbols| ::
        after.rows[k] == Row(WrapAll(RunAllRow(symbols[k], perMethod, quotes).values), Black)
  {
    var inserts := seq(|symbols|, k requires 0 <= k < |symbols| => RunAllRow(symbols[k], perMethod, quotes));
    forall k | 0 <= k < |inserts| ensures RowColor(inserts[k].tags) == Some(Black) {
      assert AllBlack(inserts[k].tags);
    }
    var batch := RunAllBatch(symbols, perMethod, quotes);
    assert batch == [] + [Clear] + inserts;
    assert AllHandled(batch) by {
      forall k | 0 <= k < |batch| ensures Handled(batch[k]) {
        if k > 0 { assert batch[k] == inserts[k - 1]; }
      }
    }
    ClearEmpties(rows, [], inserts);
    DrainHandled(rows, batch);
  }
}
