/** The greedy word wrapper `wrap_text` (QuickEval.py:96-111): the words of a text are
    packed into lines, a new line starting whenever the next word would push the line
    past the width. */
module Wrapping {
  import opened Text

  predicate AllWords(ws: seq<string>) {
    forall k | 0 <= k < |ws| :: IsWord(ws[k])
  }

  /** A group of words fits a width when joined with single spaces it is no longer. */
  predicate Fits(g: seq<string>, width: int) {
    |JoinWords(g)| <= width
  }

  /** How many of the leading words of `ws` the next line holds, looking no further
      than the first `k`: the longest prefix that fits, and at least one word. */
  function LineLength(ws: seq<string>, width: int, k: nat): (n: nat)
    requires 1 <= k <= |ws|
    ensures 1 <= n <= k
    ensures n == 1 || Fits(ws[..n], width)
    ensures forall j | n < j <= k :: !Fits(ws[..j], width)
    decreases k
  {
    if k == 1 || Fits(ws[..k], width) then k else LineLength(ws, width, k - 1)
  }

  /** Greedy packing: every line takes as many words as fit, and at least one. */
  function Pack(ws: seq<string>, width: int): seq<seq<string>>
    decreases |ws|
  {
    if ws == [] then []
    else
      var n := LineLength(ws, width, |ws|);
      [ws[..n]] + Pack(ws[n..], width)
  }

  /** The line groups `wrap_text` produces. Its running length starts at 0 rather than
      at a line's length plus one, so a first word wider than the budget closes an empty
      first line before it is placed. */
  function WrapGroups(ws: seq<string>, width: int): seq<seq<string>> {
    if ws != [] && |ws[0]| > width then [[]] + Pack(ws, width) else Pack(ws, width)
  }

  /** Each group joined by spaces, the lines joined by line feeds. */
  function Render(groups: seq<seq<string>>): string {
    JoinWith(RenderLines(groups), '\n')
  }

  function RenderLines(groups: seq<seq<string>>): seq<string> {
    seq(|groups|, k requires 0 <= k < |groups| => JoinWords(groups[k]))
  }

  /** What `wrap_text(text, width)` returns. */
  function Wrap(text: string, width: int): string {
    Render(WrapGroups(Words(text), width))
  }

  /** `wrap_text`: split the text into words, then pack them. */
  method WrapText(text: string, width: int) returns (r: string)
    ensures r == Wrap(text, width)
  {
    r := PackWords(Words(text), width);
  }

  /** The loop of `wrap_text`: one pass over the words with a running line length. */
  method PackWords(words: seq<string>, width: int) returns (r: string)
    ensures r == Render(WrapGroups(words, width))
  {
    var lines: seq<string> := [];
    var currentLine: seq<string> := [];
    var currentLength := 0;
    ghost var done: seq<seq<string>> := [];
    ghost var start := 0;
    for i := 0 to |words|
      invariant Packing(words, width, i, start, done, currentLine, currentLength)
      invariant lines == RenderLines(done)
    {
      var word := words[i];
      if currentLength + |word| <= width {
        FitStep(words, width, i, start, done, currentLine, currentLength);
        currentLine := currentLine + [word];
        currentLength := currentLength + |word| + 1;
      } else {
        BreakStep(words, width, i, start, done, currentLine, currentLength);
        RenderLinesSnoc(done, currentLine);
        lines := lines + [JoinWords(currentLine)];
        done := done + [currentLine];
        currentLine := [word];
        currentLength := |word| + 1;
        start := i;
      }
    }
    Finish(words, width, start, done, currentLine, currentLength);
    if currentLine != [] {
      RenderLinesSnoc(done, currentLine);
      lines := lines + [JoinWords(currentLine)];
      done := done + [currentLine];
    }
    r := JoinWith(lines, '\n');
  }

  // ---------------------------------------------------------------------------
  // Steps of the loop, each against the greedy definition

  /** The state of the loop of `wrap_text` after `i` words: the words taken so far are
      the closed lines `done` and the open line `ws[start..i]`, whose running length is
      its joined length plus one, and which the greedy definition can still extend. */
  ghost predicate Packing(ws: seq<string>, width: int, i: nat, start: nat,
                          done: seq<seq<string>>, line: seq<string>, length: int)
  {
    start <= i <= |ws| && line == ws[start..i] &&
    (i == 0 ==> done == [] && length == 0) &&
    (i > 0 ==>
      start < i && length == |JoinWords(line)| + 1 &&
      WrapGroups(ws, width) == done + Pack(ws[start..], width) &&
      i - start <= LineLength(ws[start..], width, |ws| - start))
  }

  /** The next word fits: it joins the open line. */
  lemma FitStep(ws: seq<string>, width: int, i: nat, start: nat,
                done: seq<seq<string>>, line: seq<string>, length: int)
    requires Packing(ws, width, i, start, done, line, length)
    requires i < |ws| && length + |ws[i]| <= width
    ensures Packing(ws, width, i + 1, start, done, line + [ws[i]], length + |ws[i]| + 1)
  {
    if i == 0 {
      FirstFits(ws, width);
    } else {
      assert ws[start..i + 1] == line + [ws[i]];
      GrowLine(ws, width, start, i);
      JoinSnoc(line, ws[i], ' ');
    }
  }

  /** The first word fits: it opens the first line. */
  lemma FirstFits(ws: seq<string>, width: int)
    requires ws != [] && |ws[0]| <= width
    ensures Packing(ws, width, 1, 0, [], [ws[0]], |ws[0]| + 1)
  {
    assert ws[0..1] == [ws[0]];
    assert ws[0..] == ws;
    assert JoinWords([ws[0]]) == ws[0];
  }

  /** The next word does not fit: the open line closes and the word opens the next. */
  lemma BreakStep(ws: seq<string>, width: int, i: nat, start: nat,
                  done: seq<seq<string>>, line: seq<string>, length: int)
    requires Packing(ws, width, i, start, done, line, length)
    requires i < |ws| && length + |ws[i]| > width
    ensures Packing(ws, width, i + 1, i, done + [line], [ws[i]], |ws[i]| + 1)
  {
    if i == 0 {
      FirstTooLong(ws, width);
    } else {
      assert ws[i..i + 1] == [ws[i]];
      CloseLine(ws, width, start, i);
    }
  }

  /** The first word is too long: an empty first line closes, and the word opens the next. */
  lemma FirstTooLong(ws: seq<string>, width: int)
    requires ws != [] && |ws[0]| > width
    ensures Packing(ws, width, 1, 0, [[]], [ws[0]], |ws[0]| + 1)
  {
    assert ws[0..1] == [ws[0]];
    assert ws[0..] == ws;
    assert JoinWords([ws[0]]) == ws[0];
  }

  /** After the last word the open line, if any, is the last line. */
  lemma Finish(ws: seq<string>, width: int, start: nat,
               done: seq<seq<string>>, line: seq<string>, length: int)
    requires Packing(ws, width, |ws|, start, done, line, length)
    ensures WrapGroups(ws, width) == if line != [] then done + [line] else done
  {
    if line != [] {
      LastLine(ws, width, start);
      assert line == ws[start..];
    }
  }

  lemma RenderLinesSnoc(groups: seq<seq<string>>, g: seq<string>)
    ensures RenderLines(groups + [g]) == RenderLines(groups) + [JoinWords(g)]
  {
  }

  /** Joined prefixes of a word list only get longer. */
  lemma {:induction false} JoinedPrefixGrows(ws: seq<string>, j: nat, j': nat)
    requires 1 <= j <= j' <= |ws|
    ensures |JoinWords(ws[..j])| <= |JoinWords(ws[..j'])|
    decreases j' - j
  {
    if j < j' {
      JoinedPrefixGrows(ws, j, j' - 1);
      assert ws[..j'] == ws[..j' - 1] + [ws[j' - 1]];
      JoinSnoc(ws[..j' - 1], ws[j' - 1], ' ');
    }
  }

  /** The word at `i` fits after the current line `ws[start..i]`: the line may grow. */
  lemma GrowLine(ws: seq<string>, width: int, start: nat, i: nat)
    requires start < i < |ws|
    requires i - start <= LineLength(ws[start..], width, |ws| - start)
    requires |JoinWords(ws[start..i])| + 1 + |ws[i]| <= width
    ensures i + 1 - start <= LineLength(ws[start..], width, |ws| - start)
  {
    assert ws[start..i + 1] == ws[start..i] + [ws[i]];
    JoinSnoc(ws[start..i], ws[i], ' ');
    assert ws[start..][..i + 1 - start] == ws[start..i + 1];
  }

  /** The word at `i` does not fit: the current line `ws[start..i]` is a whole line. */
  lemma CloseLine(ws: seq<string>, width: int, start: nat, i: nat)
    requires start < i < |ws|
    requires i - start <= LineLength(ws[start..], width, |ws| - start)
    requires |JoinWords(ws[start..i])| + 1 + |ws[i]| > width
    ensures Pack(ws[start..], width) == [ws[start..i]] + Pack(ws[i..], width)
  {
    var tail := ws[start..];
    var n := LineLength(tail, width, |tail|);
    assert ws[start..i + 1] == ws[start..i] + [ws[i]];
    JoinSnoc(ws[start..i], ws[i], ' ');
    assert tail[..i + 1 - start] == ws[start..i + 1];
    if n > i - start {
      JoinedPrefixGrows(tail, i + 1 - start, n);
    }
    assert n == i - start;
    assert tail[..n] == ws[start..i];
    assert tail[n..] == ws[i..];
  }

  /** Past the last word, the current line is the last line. */
  lemma LastLine(ws: seq<string>, width: int, start: nat)
    requires start < |ws|
    requires |ws| - start <= LineLength(ws[start..], width, |ws| - start)
    ensures Pack(ws[start..], width) == [ws[start..]]
  {
    var tail := ws[start..];
    assert tail[..|tail|] == tail;
    assert tail[|tail|..] == [];
  }

  // ---------------------------------------------------------------------------
  // The shape of the greedy lines

  /** Every line holds at least one word, and a line of two or more words fits. */
  ghost predicate LinesFit(gs: seq<seq<string>>, width: int) {
    forall k | 0 <= k < |gs| :: AllWords(gs[k]) && (|gs[k]| >= 2 ==> Fits(gs[k], width))
  }

  /** No line could have taken the first word of the next one. */
  ghost predicate BreaksForced(gs: seq<seq<string>>, width: int) {
    forall k, j | 0 <= k < j < |gs| && j == k + 1 :: gs[j] != [] && !Fits(gs[k] + [gs[j][0]], width)
  }

  lemma {:induction false} PackFlatten(ws: seq<string>, width: int)
    ensures Flatten(Pack(ws, width)) == ws
    decreases |ws|
  {
    if ws != [] {
      var n := LineLength(ws, width, |ws|);
      PackFlatten(ws[n..], width);
      assert ws[..n] + ws[n..] == ws;
    }
  }

  lemma {:induction false} PackShape(ws: seq<string>, width: int)
    requires AllWords(ws)
    ensures LinesFit(Pack(ws, width), width) && BreaksForced(Pack(ws, width), width)
    ensures forall k | 0 <= k < |Pack(ws, width)| :: Pack(ws, width)[k] != []
    ensures ws != [] ==> Pack(ws, width) != [] && Pack(ws, width)[0][0] == ws[0]
    decreases |ws|
  {
    if ws != [] {
      var n := LineLength(ws, width, |ws|);
      var rest := Pack(ws[n..], width);
      PackShape(ws[n..], width);
      assert Pack(ws, width) == [ws[..n]] + rest;
      if rest != [] {
        assert rest[0][0] == ws[n];
        assert ws[..n] + [rest[0][0]] == ws[..n + 1];
      }
    }
  }

  /** The groups of `WrapGroups` have the greedy shape; only the first can be empty,
      and it is empty exactly when the first word is wider than the budget. */
  lemma WrapGroupsShape(ws: seq<string>, width: int)
    requires AllWords(ws)
    ensures Flatten(WrapGroups(ws, width)) == ws
    ensures LinesFit(WrapGroups(ws, width), width) && BreaksForced(WrapGroups(ws, width), width)
    ensures forall k | 0 < k < |WrapGroups(ws, width)| :: WrapGroups(ws, width)[k] != []
    ensures ws == [] <==> WrapGroups(ws, width) == []
    ensures ws != [] ==> (WrapGroups(ws, width)[0] == [] <==> |ws[0]| > width)
  {
    PackFlatten(ws, width);
    PackShape(ws, width);
    if ws != [] && |ws[0]| > width {
      var gs := WrapGroups(ws, width);
      assert gs == [[]] + Pack(ws, width);
      assert Flatten(gs) == [] + Flatten(Pack(ws, width));
      assert [] + [gs[1][0]] == [ws[0]];
    }
  }

  /** When there are words, the lines of the output are the joined groups, and the
      words of each line are its group. */
  lemma {:induction false} RenderedLines(gs: seq<seq<string>>)
    requires gs != []
    requires forall k | 0 <= k < |gs| :: AllWords(gs[k])
    ensures Lines(Render(gs)) == RenderLines(gs)
    ensures forall k | 0 <= k < |gs| :: Words(RenderLines(gs)[k]) == gs[k]
  {
    var ls := RenderLines(gs);
    forall k | 0 <= k < |gs|
      ensures NoDelim(ls[k], Exactly('\n')) && Words(ls[k]) == gs[k]
    {
      WordsOfJoin(gs[k], ' ');
      JoinNoDelim(gs[k], ' ', Exactly('\n'));
    }
    SplitJoin(ls, '\n');
  }

  lemma {:induction false} RenderedWords(gs: seq<seq<string>>)
    requires forall k | 0 <= k < |gs| :: AllWords(gs[k])
    ensures Words(Render(gs)) == Flatten(gs)
  {
    var ls := RenderLines(gs);
    WordsOfJoinedLines(ls, '\n');
    forall k | 0 <= k < |gs| ensures Words(ls[k]) == gs[k] {
      WordsOfJoin(gs[k], ' ');
    }
    assert seq(|ls|, k requires 0 <= k < |ls| => Words(ls[k])) == gs;
  }

  // ---------------------------------------------------------------------------
  // What `wrap_text` promises

  /** Splitting the wrapped text on whitespace gives back the words of the input, in order. */
  lemma WrapKeepsWords(text: string, width: int)
    ensures Words(Wrap(text, width)) == Words(text)
  {
    var ws := Words(text);
    WordsAreWords(text);
    WrapGroupsShape(ws, width);
    RenderedWords(WrapGroups(ws, width));
  }

  /** The output is empty exactly when the input has no words. */
  lemma WrapEmpty(text: string, width: int)
    ensures Wrap(text, width) == "" <==> Words(text) == []
  {
    WrapKeepsWords(text, width);
    assert Words("") == [];
  }

  /** Without words the output is one blank line; with words its lines are the joined
      groups of `WrapGroups`, and the words of each line are its group. */
  lemma WrappedLines(text: string, width: int)
    ensures Words(text) == [] ==> Lines(Wrap(text, width)) == [""]
    ensures Words(text) != [] ==>
      var gs := WrapGroups(Words(text), width);
      Lines(Wrap(text, width)) == RenderLines(gs) &&
      forall k | 0 <= k < |gs| :: Words(RenderLines(gs)[k]) == gs[k]
  {
    var ws := Words(text);
    WordsAreWords(text);
    WrapGroupsShape(ws, width);
    if ws == [] {
      assert Wrap(text, width) == "";
      assert Lines("") == [""];
    } else {
      RenderedLines(WrapGroups(ws, width));
    }
  }

  /** Each line of the output holds its words separated by single spaces, and a line of
      two or more words is at most `width` long. */
  lemma WrapLines(text: string, width: int)
    ensures var ls := Lines(Wrap(text, width));
      forall k | 0 <= k < |ls| ::
        ls[k] == JoinWords(Words(ls[k])) && (|Words(ls[k])| >= 2 ==> |ls[k]| <= width)
  {
    var ws := Words(text);
    WrappedLines(text, width);
    if ws == [] {
      assert Words("") == [];
    } else {
      WordsAreWords(text);
      WrapGroupsShape(ws, width);
      var gs := WrapGroups(ws, width);
      var ls := RenderLines(gs);
      forall k | 0 <= k < |ls|
        ensures ls[k] == JoinWords(Words(ls[k])) && (|Words(ls[k])| >= 2 ==> |ls[k]| <= width)
      {
        assert ls[k] == JoinWords(gs[k]);
        assert Words(ls[k]) == gs[k];
        assert |gs[k]| >= 2 ==> Fits(gs[k], width);
      }
    }
  }

  /** Only the first line of the output can be blank. */
  lemma WrapLinesNonBlank(text: string, width: int)
    ensures var ls := Lines(Wrap(text, width));
      forall k | 0 < k < |ls| :: ls[k] != ""
  {
    var ws := Words(text);
    WordsAreWords(text);
    WrapGroupsShape(ws, width);
    WrappedLines(text, width);
    if ws != [] {
      var gs := WrapGroups(ws, width);
      var ls := RenderLines(gs);
      forall k | 0 < k < |ls| ensures ls[k] != "" {
        assert gs[k] != [];
        assert Words("") == [];
      }
    }
  }

  /** The first line is blank exactly when the first word is longer than `width`. */
  lemma WrapFirstLine(text: string, width: int)
    requires Words(text) != []
    ensures Lines(Wrap(text, width))[0] == "" <==> |Words(text)[0]| > width
  {
    var ws := Words(text);
    WordsAreWords(text);
    WrapGroupsShape(ws, width);
    WrappedLines(text, width);
    var gs := WrapGroups(ws, width);
    assert JoinWords([]) == "";
    assert Words("") == [];
  }

  /** A word longer than `width` sits alone on its line. */
  lemma WrapLongWordAlone(text: string, width: int)
    ensures var ls := Lines(Wrap(text, width));
      forall k, j | 0 <= k < |ls| && 0 <= j < |Words(ls[k])| ::
        |Words(ls[k])[j]| > width ==> Words(ls[k]) == [Words(ls[k])[j]]
  {
    var ls := Lines(Wrap(text, width));
    WrapLines(text, width);
    forall k, j | 0 <= k < |ls| && 0 <= j < |Words(ls[k])| && |Words(ls[k])[j]| > width
      ensures Words(ls[k]) == [Words(ls[k])[j]]
    {
      PartWithinJoin(Words(ls[k]), ' ', j);
    }
  }

  /** Greediness: the first word of every line but the first would not have fitted
      on the line before it. */
  lemma WrapGreedy(text: string, width: int)
    ensures var ls := Lines(Wrap(text, width));
      forall k, j | 0 <= k < j < |ls| && j == k + 1 ::
        Words(ls[j]) != [] && !Fits(Words(ls[k]) + [Words(ls[j])[0]], width)
  {
    var ws := Words(text);
    WordsAreWords(text);
    WrapGroupsShape(ws, width);
    var gs := WrapGroups(ws, width);
    if ws == [] {
      assert Lines("") == [""];
    } else {
      RenderedLines(gs);
    }
  }
}
