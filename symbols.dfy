/** The ticker list validator `validate_symbols` (QuickEval.py:326-333), without its
    error dialog and log line. */
module Symbols {
  import opened Text

  /** Each comma-separated piece stripped and upper-cased, the blank ones dropped. */
  function Tickers(pieces: seq<string>): seq<string> {
    if pieces == [] then []
    else
      var t := Strip(pieces[0]);
      (if t == "" then [] else [Upper(t)]) + Tickers(pieces[1..])
  }

  /** The list `ticker_symbols` that `validate_symbols` builds from the entry text. */
  function Candidates(entry: string): seq<string> {
    Tickers(Split(entry, Exactly(',')))
  }

  /** The list `invalid_symbols`: the candidates that are not alphanumeric. */
  function Invalid(tickers: seq<string>): seq<string> {
    if tickers == [] then []
    else (if IsAlnum(tickers[0]) then [] else [tickers[0]]) + Invalid(tickers[1..])
  }

  /** A ticker as the validator hands it on: non-empty, stripped, upper case. */
  predicate Clean(t: string) {
    t != "" && Strip(t) == t && Upper(t) == t
  }

  /** `validate_symbols`: all candidates when every one is alphanumeric, otherwise none. */
  function ValidateSymbols(entry: string): (r: seq<string>)
    ensures r == [] || r == Candidates(entry)
    ensures r == [] <==>
      (Candidates(entry) == [] || exists k | 0 <= k < |Candidates(entry)| :: !IsAlnum(Candidates(entry)[k]))
    ensures forall k | 0 <= k < |r| :: Clean(r[k]) && IsAlnum(r[k])
  {
    var tickers := Candidates(entry);
    TickersClean(Split(entry, Exactly(',')));
    InvalidEmpty(tickers);
    if Invalid(tickers) != [] then [] else tickers
  }

  lemma {:induction false} TickersClean(pieces: seq<string>)
    ensures forall k | 0 <= k < |Tickers(pieces)| :: Clean(Tickers(pieces)[k])
    decreases |pieces|
  {
    if pieces != [] {
      TickersClean(pieces[1..]);
      var t := Strip(pieces[0]);
      var rest := Tickers(pieces[1..]);
      if t != "" {
        UpperClean(t);
        var r := Tickers(pieces);
        assert r == [Upper(t)] + rest;
        forall k | 0 <= k < |r| ensures Clean(r[k]) {
          if k > 0 { assert r[k] == rest[k - 1]; }
        }
      }
    }
  }

  /** A non-empty text without whitespace at its ends is clean once upper-cased. */
  lemma UpperClean(t: string)
    requires t != [] && !IsSpace(t[0]) && !IsSpace(t[|t| - 1])
    ensures Clean(Upper(t))
  {
    var u := Upper(t);
    assert u[0] == UpperChar(t[0]) && u[|u| - 1] == UpperChar(t[|t| - 1]);
    UpperKeepsSpace(t[0]);
    UpperKeepsSpace(t[|t| - 1]);
    StripTrimmed(u);
    UpperIdempotent(t);
  }

  lemma {:induction false} InvalidEmpty(tickers: seq<string>)
    ensures Invalid(tickers) == [] <==> forall k | 0 <= k < |tickers| :: IsAlnum(tickers[k])
    decreases |tickers|
  {
    if tickers != [] {
      InvalidEmpty(tickers[1..]);
      assert forall k | 1 <= k < |tickers| :: tickers[k] == tickers[1..][k - 1];
    }
  }

  lemma {:induction false} TickersOfClean(ts: seq<string>)
    requires forall k | 0 <= k < |ts| :: Clean(ts[k])
    ensures Tickers(ts) == ts
    decreases |ts|
  {
    if ts != [] {
      var rest := ts[1..];
      assert forall k | 0 <= k < |rest| :: Clean(rest[k]) by {
        forall k | 0 <= k < |rest| ensures Clean(rest[k]) {
          assert rest[k] == ts[k + 1];
        }
      }
      TickersOfClean(rest);
      TickersOfCleanHead(ts);
      HeadTail(ts);
    }
  }

  lemma HeadTail<T>(s: seq<T>)
    requires s != []
    ensures [s[0]] + s[1..] == s
  {
  }

  lemma TickersOfCleanHead(ts: seq<string>)
    requires ts != [] && Clean(ts[0])
    ensures Tickers(ts) == [ts[0]] + Tickers(ts[1..])
  {
    var t := ts[0];
    assert Strip(t) == t && Upper(t) == t;
  }

  /** Validating the accepted tickers again, joined by commas, accepts the same list. */
  lemma ValidateRoundTrip(entry: string)
    ensures ValidateSymbols(JoinWith(ValidateSymbols(entry), ',')) == ValidateSymbols(entry)
  {
    var r := ValidateSymbols(entry);
    if r == [] {
      assert Split("", Exactly(',')) == [""];
      assert Strip("") == "";
      assert Candidates("") == [];
    } else {
      forall k | 0 <= k < |r| ensures NoDelim(r[k], Exactly(',')) {
        AlnumHasNoComma(r[k]);
      }
      SplitJoin(r, ',');
      TickersOfClean(r);
      assert Candidates(JoinWith(r, ',')) == r;
    }
  }

  lemma AlnumHasNoComma(t: string)
    requires IsAlnum(t)
    ensures NoDelim(t, Exactly(','))
  {
  }
}
