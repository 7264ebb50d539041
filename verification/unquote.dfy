/** Quote removal (parse.c unquote): re-run the quoting machine over one
    token's text, dropping the unquoted quote characters and keeping the rest.
    Inside double quotes a backslash before anything but `\` or `"` is kept
    together with the character it precedes. */
module QuoteRemoval {
  import opened Quote

  /** The output contributed by one character read in state st. */
  function Emit(st: QuoteState, c: char): string {
    var escape := if st == BackslashInDouble && c != '\\' && c != '"' then ['\\'] else [];
    var kept := if !IsQuoteChar(c) || CheckQuote(st, c).quoted then [c] else [];
    escape + kept
  }

  function UnquoteFrom(s: string, st: QuoteState): string
    decreases |s|
  {
    if |s| == 0 then [] else Emit(st, s[0]) + UnquoteFrom(s[1..], CheckQuote(st, s[0]).next)
  }

  /** unquote, applied to the text of a token. */
  function Unquote(s: string): string {
    UnquoteFrom(s, NoQuote)
  }

  /** The output buffer of len + 1 bytes (one for the NUL) suffices: the
      only two-character output is paid for by the backslash before it,
      which produced nothing. */
  lemma {:induction false} UnquoteFromLength(s: string, st: QuoteState)
    ensures |UnquoteFrom(s, st)| <= |s| + (if st == BackslashInDouble then 1 else 0)
    decreases |s|
  {
    if |s| > 0 {
      UnquoteFromLength(s[1..], CheckQuote(st, s[0]).next);
    }
  }

  lemma UnquoteNoLonger(s: string)
    ensures |Unquote(s)| <= |s|
  {
    UnquoteFromLength(s, NoQuote);
  }

  /** Text without quote characters passes through unchanged. */
  lemma {:induction false} UnquotePlain(s: string)
    requires forall i :: 0 <= i < |s| ==> !IsQuoteChar(s[i])
    ensures Unquote(s) == s
    decreases |s|
  {
    if |s| > 0 {
      UnquotePlain(s[1..]);
    }
  }

  /** Wraps text in single quotes, the quoting for text without `'`. */
  function SingleQuoted(t: string): string {
    ['\''] + t + ['\'']
  }

  lemma {:induction false} InsideSingle(t: string, rest: string)
    requires forall i :: 0 <= i < |t| ==> t[i] != '\''
    ensures UnquoteFrom(t + ['\''] + rest, SingleQuote) == t + UnquoteFrom(rest, NoQuote)
    decreases |t|
  {
    if |t| == 0 {
      assert (t + ['\''] + rest)[1..] == rest;
    } else {
      assert (t + ['\''] + rest)[1..] == t[1..] + ['\''] + rest;
      InsideSingle(t[1..], rest);
    }
  }

  /** Single quoting round-trips: every character between the quotes is
      taken literally, and the quotes are dropped. */
  lemma UnquoteSingleQuoted(t: string)
    requires forall i :: 0 <= i < |t| ==> t[i] != '\''
    ensures Unquote(SingleQuoted(t)) == t
  {
    assert SingleQuoted(t)[1..] == t + ['\''] + [];
    InsideSingle(t, []);
  }

  /** Prefixes every character with a backslash. */
  function Escaped(t: string): string
    decreases |t|
  {
    if |t| == 0 then [] else ['\\', t[0]] + Escaped(t[1..])
  }

  /** Backslash escaping round-trips for any text. */
  lemma {:induction false} UnquoteEscaped(t: string)
    ensures Unquote(Escaped(t)) == t
    decreases |t|
  {
    if |t| > 0 {
      var e := Escaped(t);
      assert e[1..][1..] == Escaped(t[1..]);
      UnquoteEscaped(t[1..]);
      calc {
        Unquote(e);
        Emit(NoQuote, '\\') + UnquoteFrom(e[1..], Backslash);
        UnquoteFrom(e[1..], Backslash);
        Emit(Backslash, t[0]) + UnquoteFrom(e[1..][1..], NoQuote);
        [t[0]] + t[1..];
      }
    }
  }

  /** Double quoting: `\` and `"` are escaped, everything else is literal. */
  function DoubleQuotedBody(t: string): string
    decreases |t|
  {
    if |t| == 0 then []
    else (if t[0] == '\\' || t[0] == '"' then ['\\', t[0]] else [t[0]]) + DoubleQuotedBody(t[1..])
  }

  function DoubleQuoted(t: string): string {
    ['"'] + DoubleQuotedBody(t) + ['"']
  }

  /** Inside double quotes an escaped `\` or `"` yields the character alone. */
  lemma EscapedInDouble(c: char, tail: string)
    requires c == '\\' || c == '"'
    ensures UnquoteFrom(['\\', c] + tail, DoubleQuote) == [c] + UnquoteFrom(tail, DoubleQuote)
  {
    var s := ['\\', c] + tail;
    assert s[1..] == [c] + tail;
    assert s[1..][1..] == tail;
  }

  /** Inside double quotes any other character is kept as it is. */
  lemma PlainInDouble(c: char, tail: string)
    requires c != '\\' && c != '"'
    ensures UnquoteFrom([c] + tail, DoubleQuote) == [c] + UnquoteFrom(tail, DoubleQuote)
  {
    assert ([c] + tail)[1..] == tail;
  }

  /** The closing quote yields nothing and leaves the quotes. */
  lemma ClosingDouble(rest: string)
    ensures UnquoteFrom(['"'] + rest, DoubleQuote) == UnquoteFrom(rest, NoQuote)
  {
    assert (['"'] + rest)[1..] == rest;
  }

  /** One character of the body, quoted or not, yields itself. */
  lemma BodyStep(t: string, rest: string)
    requires |t| > 0
    ensures UnquoteFrom(DoubleQuotedBody(t) + ['"'] + rest, DoubleQuote)
         == [t[0]] + UnquoteFrom(DoubleQuotedBody(t[1..]) + ['"'] + rest, DoubleQuote)
  {
    var tail := DoubleQuotedBody(t[1..]) + ['"'] + rest;
    if t[0] == '\\' || t[0] == '"' {
      assert DoubleQuotedBody(t) + ['"'] + rest == ['\\', t[0]] + tail;
      EscapedInDouble(t[0], tail);
    } else {
      assert DoubleQuotedBody(t) + ['"'] + rest == [t[0]] + tail;
      PlainInDouble(t[0], tail);
    }
  }

  lemma {:induction false} InsideDouble(t: string, rest: string)
    ensures UnquoteFrom(DoubleQuotedBody(t) + ['"'] + rest, DoubleQuote) == t + UnquoteFrom(rest, NoQuote)
    decreases |t|
  {
    if |t| == 0 {
      assert DoubleQuotedBody(t) + ['"'] + rest == ['"'] + rest;
      ClosingDouble(rest);
    } else {
      BodyStep(t, rest);
      InsideDouble(t[1..], rest);
      assert [t[0]] + (t[1..] + UnquoteFrom(rest, NoQuote)) == t + UnquoteFrom(rest, NoQuote);
    }
  }

  /** Double quoting round-trips for any text. */
  lemma UnquoteDoubleQuoted(t: string)
    ensures Unquote(DoubleQuoted(t)) == t
  {
    assert DoubleQuoted(t)[1..] == DoubleQuotedBody(t) + ['"'] + [];
    InsideDouble(t, []);
  }

  /** Inside double quotes a backslash before an ordinary character is kept. */
  lemma BackslashKeptInDouble(c: char)
    requires c != '\\' && c != '"'
    ensures Unquote(['"', '\\', c, '"']) == ['\\', c]
  {
    var s := ['"', '\\', c, '"'];
    assert s[1..] == ['\\', c, '"'];
    assert s[1..][1..] == [c, '"'];
    assert s[1..][1..][1..] == ['"'];
    calc {
      Unquote(s);
      Emit(NoQuote, '"') + UnquoteFrom(s[1..], DoubleQuote);
      Emit(DoubleQuote, '\\') + UnquoteFrom(s[1..][1..], BackslashInDouble);
      Emit(BackslashInDouble, c) + UnquoteFrom(s[1..][1..][1..], DoubleQuote);
      ['\\', c] + (Emit(DoubleQuote, '"') + UnquoteFrom([], NoQuote));
    }
  }
}
