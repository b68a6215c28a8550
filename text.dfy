/** String operations the application takes from Python's `str`: `split`, `strip`,
    `upper`, `isalnum`, `count` and `join`, restricted to ASCII. */
module Text {

  /** Python's `str.isspace` on ASCII: space, tab, line feed, vertical tab, form feed,
      carriage return, and the four separators 0x1C-0x1F. */
  predicate IsSpace(c: char) {
    c == ' ' || ('\t' <= c <= '\r') || ('\U{1C}' <= c <= '\U{1F}')
  }

  predicate IsAsciiLetter(c: char) {
    ('a' <= c <= 'z') || ('A' <= c <= 'Z')
  }

  predicate IsAsciiDigit(c: char) {
    '0' <= c <= '9'
  }

  /** `str.isalnum`: non-empty and made of letters and digits only. */
  predicate IsAlnum(s: string) {
    |s| > 0 && forall k | 0 <= k < |s| :: IsAsciiLetter(s[k]) || IsAsciiDigit(s[k])
  }

  /** A word as `str.split()` produces it: non-empty, no whitespace. */
  predicate IsWord(w: string) {
    |w| > 0 && forall k | 0 <= k < |w| :: !IsSpace(w[k])
  }

  function UpperChar(c: char): char {
    if 'a' <= c <= 'z' then (c as int - 'a' as int + 'A' as int) as char else c
  }

  /** `str.upper` on ASCII. */
  function Upper(s: string): string {
    seq(|s|, k requires 0 <= k < |s| => UpperChar(s[k]))
  }

  /** What a split breaks on: one given character (`s.split(c)`) or any whitespace. */
  datatype Delimiter = Exactly(c: char) | AnyWhitespace

  predicate IsDelim(d: Delimiter, x: char) {
    match d
    case Exactly(c) => x == c
    case AnyWhitespace => IsSpace(x)
  }

  predicate NoDelim(s: string, d: Delimiter) {
    forall k | 0 <= k < |s| :: !IsDelim(d, s[k])
  }

  /** Cut `s` at every delimiter character, keeping empty pieces: `s.split(c)`.
      There is always at least one piece. */
  function Split(s: string, d: Delimiter): (r: seq<string>)
    ensures |r| >= 1
    decreases |s|
  {
    if s == [] then [""]
    else
      var rest := Split(s[1..], d);
      if IsDelim(d, s[0]) then [""] + rest
      else [[s[0]] + rest[0]] + rest[1..]
  }

  /** The pieces that are not empty, in order. */
  function NonEmpty(ps: seq<string>): seq<string> {
    if ps == [] then []
    else (if ps[0] == "" then [] else [ps[0]]) + NonEmpty(ps[1..])
  }

  /** `s.split()` with no argument: the maximal runs of non-whitespace. */
  function Words(s: string): seq<string> {
    NonEmpty(Split(s, AnyWhitespace))
  }

  /** `sep.join(parts)` for a one-character separator. */
  function JoinWith(parts: seq<string>, sep: char): string {
    if |parts| == 0 then ""
    else if |parts| == 1 then parts[0]
    else parts[0] + [sep] + JoinWith(parts[1..], sep)
  }

  /** `' '.join(words)`. */
  function JoinWords(words: seq<string>): string {
    JoinWith(words, ' ')
  }

  /** The lines of a string, as `s.split('\n')` gives them. */
  function Lines(s: string): seq<string> {
    Split(s, Exactly('\n'))
  }

  /** `s.count(c)` for one character. */
  function Count(s: string, c: char): nat {
    if s == [] then 0 else (if s[0] == c then 1 else 0) + Count(s[1..], c)
  }

  /** All groups concatenated, in order. */
  function Flatten<T>(groups: seq<seq<T>>): seq<T> {
    if groups == [] then [] else groups[0] + Flatten(groups[1..])
  }

  /** Drop leading whitespace (`str.lstrip`). */
  function TrimStart(s: string): (r: string)
    ensures |r| <= |s| && r == s[|s| - |r|..]
    ensures forall k | 0 <= k < |s| - |r| :: IsSpace(s[k])
    ensures r == [] || !IsSpace(r[0])
    decreases |s|
  {
    if s != [] && IsSpace(s[0]) then TrimStart(s[1..]) else s
  }

  /** Drop trailing whitespace (`str.rstrip`). */
  function TrimEnd(s: string): (r: string)
    ensures |r| <= |s| && r == s[..|r|]
    ensures forall k | |r| <= k < |s| :: IsSpace(s[k])
    ensures r == [] || !IsSpace(r[|r| - 1])
    decreases |s|
  {
    if s != [] && IsSpace(s[|s| - 1]) then TrimEnd(s[..|s| - 1]) else s
  }

  /** `str.strip`: the infix of `s` left once whitespace is removed at both ends. */
  function Strip(s: string): (r: string)
    ensures exists i, j {:trigger s[i..j]} | 0 <= i <= j <= |s| ::
      r == s[i..j] && (forall k | 0 <= k < i :: IsSpace(s[k])) && (forall k | j <= k < |s| :: IsSpace(s[k]))
    ensures r == [] || (!IsSpace(r[0]) && !IsSpace(r[|r| - 1]))
  {
    var t := TrimStart(s);
    var r := TrimEnd(t);
    var i := |s| - |t|;
    assert r == s[i..i + |r|];
    r
  }

  // ---------------------------------------------------------------------------
  // Lemmas about splitting and joining

  lemma Reassociate<T>(p: seq<T>, q: seq<T>, r: seq<T>)
    ensures p + (q + r) == (p + q) + r
  {
  }

  lemma HeadTailOfAppend<T>(p: seq<T>, q: seq<T>)
    requires p != []
    ensures (p + q)[0] == p[0] && (p + q)[1..] == p[1..] + q
  {
  }

  /** Splitting at a delimiter distributes over the text on either side of it. */
  lemma {:induction false} SplitAround(a: string, x: char, b: string, d: Delimiter)
    requires IsDelim(d, x)
    ensures Split(a + [x] + b, d) == Split(a, d) + Split(b, d)
    decreases |a|
  {
    var s := a + [x] + b;
    Reassociate(a, [x], b);
    if a == [] {
      assert s == [x] + b;
      HeadTailOfAppend([x], b);
    } else {
      HeadTailOfAppend(a, [x] + b);
      Reassociate(a[1..], [x], b);
      SplitAround(a[1..], x, b, d);
      var ra, rb := Split(a[1..], d), Split(b, d);
      if IsDelim(d, a[0]) {
        assert Split(s, d) == [""] + (ra + rb);
        Reassociate([""], ra, rb);
      } else {
        var head := [a[0]] + ra[0];
        HeadTailOfAppend(ra, rb);
        assert Split(s, d) == [head] + (ra[1..] + rb);
        Reassociate([head], ra[1..], rb);
      }
    }
  }

  /** A string without delimiters is one piece. */
  lemma {:induction false} SplitWhole(s: string, d: Delimiter)
    requires NoDelim(s, d)
    ensures Split(s, d) == [s]
    decreases |s|
  {
    if s != [] {
      SplitWhole(s[1..], d);
      assert [s[0]] + s[1..] == s;
    }
  }

  /** No piece of a split contains the delimiter. */
  lemma {:induction false} SplitPiecesClean(s: string, d: Delimiter)
    ensures forall p | p in Split(s, d) :: NoDelim(p, d)
    decreases |s|
  {
    if s != [] {
      SplitPiecesClean(s[1..], d);
      var rest := Split(s[1..], d);
      if !IsDelim(d, s[0]) {
        var head := [s[0]] + rest[0];
        assert rest[0] in rest;
        assert NoDelim(head, d) by {
          forall k | 0 <= k < |head| ensures !IsDelim(d, head[k]) {
            if k > 0 { assert head[k] == rest[0][k - 1]; }
          }
        }
        forall p | p in rest[1..] ensures p in rest { }
      }
    }
  }

  /** Splitting a join at the same separator gives the parts back. */
  lemma {:induction false} SplitJoin(parts: seq<string>, sep: char)
    requires |parts| >= 1
    requires forall k | 0 <= k < |parts| :: NoDelim(parts[k], Exactly(sep))
    ensures Split(JoinWith(parts, sep), Exactly(sep)) == parts
    decreases |parts|
  {
    if |parts| == 1 {
      SplitWhole(parts[0], Exactly(sep));
    } else {
      SplitJoin(parts[1..], sep);
      SplitAround(parts[0], sep, JoinWith(parts[1..], sep), Exactly(sep));
      SplitWhole(parts[0], Exactly(sep));
      assert [parts[0]] + parts[1..] == parts;
    }
  }

  /** A line of `s.split(c)` per occurrence of `c`, plus one. */
  lemma {:induction false} SplitCount(s: string, c: char)
    ensures |Split(s, Exactly(c))| == Count(s, c) + 1
    decreases |s|
  {
    if s != [] { SplitCount(s[1..], c); }
  }

  lemma {:induction false} NonEmptyConcat(a: seq<string>, b: seq<string>)
    ensures NonEmpty(a + b) == NonEmpty(a) + NonEmpty(b)
    decreases |a|
  {
    if a != [] {
      assert (a + b)[0] == a[0];
      assert (a + b)[1..] == a[1..] + b;
      NonEmptyConcat(a[1..], b);
    } else {
      assert a + b == b;
    }
  }

  lemma {:induction false} FlattenConcat<T>(a: seq<seq<T>>, b: seq<seq<T>>)
    ensures Flatten(a + b) == Flatten(a) + Flatten(b)
    decreases |a|
  {
    if a != [] {
      assert (a + b)[0] == a[0];
      assert (a + b)[1..] == a[1..] + b;
      FlattenConcat(a[1..], b);
    } else {
      assert a + b == b;
    }
  }

  /** Whitespace between two texts separates their words. */
  lemma WordsAround(a: string, x: char, b: string)
    requires IsSpace(x)
    ensures Words(a + [x] + b) == Words(a) + Words(b)
  {
    SplitAround(a, x, b, AnyWhitespace);
    NonEmptyConcat(Split(a, AnyWhitespace), Split(b, AnyWhitespace));
  }

  lemma WordsOfWord(w: string)
    requires IsWord(w)
    ensures Words(w) == [w]
  {
    SplitWhole(w, AnyWhitespace);
    assert NonEmpty([w]) == [w] + NonEmpty([w][1..]);
  }

  /** Every element of `s.split()` is a word. */
  lemma {:induction false} WordsAreWords(s: string)
    ensures forall w | w in Words(s) :: IsWord(w)
  {
    SplitPiecesClean(s, AnyWhitespace);
    NonEmptyKeeps(Split(s, AnyWhitespace));
  }

  lemma {:induction false} NonEmptyKeeps(ps: seq<string>)
    ensures forall p | p in NonEmpty(ps) :: p in ps && p != ""
    decreases |ps|
  {
    if ps != [] {
      NonEmptyKeeps(ps[1..]);
    }
  }

  /** Joining words with whitespace and splitting again gives the words back. */
  lemma {:induction false} WordsOfJoin(ws: seq<string>, sep: char)
    requires IsSpace(sep)
    requires forall k | 0 <= k < |ws| :: IsWord(ws[k])
    ensures Words(JoinWith(ws, sep)) == ws
    decreases |ws|
  {
    if |ws| == 0 {
    } else if |ws| == 1 {
      WordsOfWord(ws[0]);
    } else {
      WordsOfJoin(ws[1..], sep);
      WordsAround(ws[0], sep, JoinWith(ws[1..], sep));
      WordsOfWord(ws[0]);
      assert [ws[0]] + ws[1..] == ws;
    }
  }

  /** The words of whitespace-joined texts are the words of each text, in order. */
  lemma {:induction false} WordsOfJoinedLines(lines: seq<string>, sep: char)
    requires IsSpace(sep)
    ensures Words(JoinWith(lines, sep)) == Flatten(seq(|lines|, k requires 0 <= k < |lines| => Words(lines[k])))
    decreases |lines|
  {
    var per := seq(|lines|, k requires 0 <= k < |lines| => Words(lines[k]));
    if |lines| == 0 {
    } else if |lines| == 1 {
      assert per == [Words(lines[0])];
    } else {
      var rest := lines[1..];
      WordsOfJoinedLines(rest, sep);
      WordsAround(lines[0], sep, JoinWith(rest, sep));
      assert per[1..] == seq(|rest|, k requires 0 <= k < |rest| => Words(rest[k]));
      assert Flatten(per) == per[0] + Flatten(per[1..]);
    }
  }

  /** Adding one more part to a join costs the separator and the part. */
  lemma {:induction false} JoinSnoc(parts: seq<string>, w: string, sep: char)
    requires |parts| >= 1
    ensures JoinWith(parts + [w], sep) == JoinWith(parts, sep) + [sep] + w
    decreases |parts|
  {
    if |parts| == 1 {
      assert parts + [w] == [parts[0], w];
      assert [parts[0], w][1..] == [w];
    } else {
      assert (parts + [w])[1..] == parts[1..] + [w];
      JoinSnoc(parts[1..], w, sep);
    }
  }

  /** A part is never longer than the join it belongs to. */
  lemma {:induction false} PartWithinJoin(parts: seq<string>, sep: char, k: nat)
    requires k < |parts|
    ensures |parts[k]| <= |JoinWith(parts, sep)|
    decreases |parts|
  {
    if |parts| > 1 && k > 0 {
      PartWithinJoin(parts[1..], sep, k - 1);
    }
  }

  /** A join of non-empty parts is empty only when there are no parts. */
  lemma {:induction false} JoinEmpty(parts: seq<string>, sep: char)
    requires forall k | 0 <= k < |parts| :: parts[k] != ""
    ensures JoinWith(parts, sep) == "" <==> parts == []
  {
  }

  /** A join contains only characters of its parts and separators. */
  lemma {:induction false} JoinNoDelim(parts: seq<string>, sep: char, d: Delimiter)
    requires !IsDelim(d, sep)
    requires forall k | 0 <= k < |parts| :: NoDelim(parts[k], d)
    ensures NoDelim(JoinWith(parts, sep), d)
    decreases |parts|
  {
    if |parts| > 1 {
      JoinNoDelim(parts[1..], sep, d);
      var s := JoinWith(parts, sep);
      var tail := JoinWith(parts[1..], sep);
      forall k | 0 <= k < |s| ensures !IsDelim(d, s[k]) {
        if k < |parts[0]| { assert s[k] == parts[0][k]; }
        else if k == |parts[0]| { assert s[k] == sep; }
        else { assert s[k] == tail[k - |parts[0]| - 1]; }
      }
    }
  }

  // ---------------------------------------------------------------------------
  // Lemmas about strip and upper

  /** A string with no whitespace at either end is its own strip. */
  lemma StripTrimmed(s: string)
    requires s == [] || (!IsSpace(s[0]) && !IsSpace(s[|s| - 1]))
    ensures Strip(s) == s
  {
  }

  /** Upper-casing never turns whitespace into non-whitespace or back. */
  lemma UpperKeepsSpace(c: char)
    ensures IsSpace(UpperChar(c)) == IsSpace(c)
  {
  }

  lemma UpperIdempotent(s: string)
    ensures Upper(Upper(s)) == Upper(s)
  {
  }
}
