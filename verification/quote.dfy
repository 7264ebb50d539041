/** The five-state quoting machine of parse.c (check_quote), shared by the
    tokenizer and by quote removal. */
module Quote {
  import opened Base

  datatype QuoteState = NoQuote | SingleQuote | DoubleQuote | Backslash | BackslashInDouble

  /** The outcome of feeding one character: the next state, and whether the
      character itself is quoted (taken literally). */
  datatype Transition = Transition(next: QuoteState, quoted: bool)

  /** is_quote_char: the characters of the quoting mechanism. */
  predicate IsQuoteChar(c: char) {
    c == '\'' || c == '"' || c == '\\'
  }

  /** check_quote. Outside quotes nothing is quoted and each quote character
      opens its state; inside single quotes only `'` is unquoted; inside
      double quotes only `"` and `\` are; both backslash states quote the
      next character and fall back to the state they came from. */
  function CheckQuote(s: QuoteState, c: char): (t: Transition)
    ensures s == NoQuote ==> !t.quoted
    ensures s == NoQuote && c == '\'' ==> t.next == SingleQuote
    ensures s == NoQuote && c == '"' ==> t.next == DoubleQuote
    ensures s == NoQuote && c == '\\' ==> t.next == Backslash
    ensures s == NoQuote && !IsQuoteChar(c) ==> t.next == NoQuote
    ensures s == SingleQuote ==> (!t.quoted <==> c == '\'') && (t.next == NoQuote <==> c == '\'')
    ensures s == SingleQuote && c != '\'' ==> t.next == SingleQuote
    ensures s == DoubleQuote ==> (!t.quoted <==> c == '"' || c == '\\')
    ensures s == DoubleQuote && c == '"' ==> t.next == NoQuote
    ensures s == DoubleQuote && c == '\\' ==> t.next == BackslashInDouble
    ensures s == DoubleQuote && c != '"' && c != '\\' ==> t.next == DoubleQuote
    ensures s == Backslash ==> t.quoted && t.next == NoQuote
    ensures s == BackslashInDouble ==> t.quoted && t.next == DoubleQuote
    // An unquoted character outside the quoting mechanism can only be met
    // outside quotes, and leaves the machine there.
    ensures !t.quoted && !IsQuoteChar(c) ==> s == NoQuote && t.next == NoQuote
  {
    match s
    case SingleQuote =>
      if c == '\'' then Transition(NoQuote, false) else Transition(SingleQuote, true)
    case DoubleQuote =>
      if c == '\\' then Transition(BackslashInDouble, false)
      else if c == '"' then Transition(NoQuote, false)
      else Transition(DoubleQuote, true)
    case Backslash => Transition(NoQuote, true)
    case BackslashInDouble => Transition(DoubleQuote, true)
    case NoQuote =>
      if c == '\'' then Transition(SingleQuote, false)
      else if c == '"' then Transition(DoubleQuote, false)
      else if c == '\\' then Transition(Backslash, false)
      else Transition(NoQuote, false)
  }

  /** The state after feeding every character of s, starting outside quotes. */
  function QuoteAfter(s: string): QuoteState
    decreases |s|
  {
    if |s| == 0 then NoQuote else CheckQuote(QuoteAfter(s[..|s| - 1]), s[|s| - 1]).next
  }

  /** Feeding the terminating NUL reports it quoted exactly when some quote
      is still open: this is how tokenize detects an unterminated quote or a
      trailing backslash. */
  lemma NulQuotedIffOpen(s: QuoteState)
    ensures CheckQuote(s, Nul).quoted <==> s != NoQuote
  {
  }

  /** One step of QuoteAfter. */
  lemma QuoteAfterStep(s: string, pos: nat)
    requires pos < |s|
    ensures QuoteAfter(s[..pos + 1]) == CheckQuote(QuoteAfter(s[..pos]), s[pos]).next
  {
    assert s[..pos + 1][..pos] == s[..pos];
  }
}
