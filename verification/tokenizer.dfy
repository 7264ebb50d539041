/** The tokenizer of parse.c (end_token, tokenize), with the token types of
    parse.h. A token is a span of the input line; the line is the text before
    its terminating NUL, and the NUL itself is fed to the quoting machine
    last, as the source does. */
module Tokenizer {
  import opened Base
  import opened Quote

  datatype TokenKind = Word | Op | End

  /** token_info_t: the half-open span [off, off + len) of the input. */
  datatype Token = Token(off: nat, len: nat, kind: TokenKind)

  /** The loop state of tokenize: quote state, the token being built and the
      tokens already emitted. */
  datatype Scanner = Scanner(quote: QuoteState, cur: Token, toks: seq<Token>)

  predicate IsOpChar(c: char) {
    c == '<' || c == '>' || c == '|'
  }

  /** The second characters that extend a one-character operator:
      `<<` `<>` `<&` `>>` `>|` `>&`. `|` never extends. */
  predicate Extends(first: char, c: char) {
    || (first == '<' && (c == '<' || c == '>' || c == '&'))
    || (first == '>' && (c == '>' || c == '|' || c == '&'))
  }

  /** end_token: emit the current token if it is non-empty, then start an
      empty word right after it. */
  function EndToken(cur: Token, toks: seq<Token>): (Token, seq<Token>) {
    (Token(cur.off + cur.len, 0, Word), if cur.len > 0 then toks + [cur] else toks)
  }

  /** One iteration of the tokenize loop, for the character at pos. The
      current token always ends exactly at pos. */
  function Step(input: string, pos: nat, sc: Scanner): (r: Scanner)
    requires sc.cur.off + sc.cur.len == pos < |input|
    ensures r.cur.off + r.cur.len == pos + 1
  {
    var c := input[pos];
    var t := CheckQuote(sc.quote, c);
    if sc.cur.kind == Op && !t.quoted && sc.cur.len == 1 && Extends(input[sc.cur.off], c) then
      Scanner(t.next, sc.cur.(len := 2), sc.toks)
    else
      var (cur, toks) := if sc.cur.kind == Op then EndToken(sc.cur, sc.toks) else (sc.cur, sc.toks);
      if !t.quoted && IsQuoteChar(c) then
        Scanner(t.next, cur.(len := cur.len + 1), toks)
      else if !t.quoted && IsOpChar(c) then
        var (cur', toks') := EndToken(cur, toks);
        Scanner(t.next, Token(cur'.off, 1, Op), toks')
      else if !t.quoted && IsBlank(c) then
        var (cur', toks') := EndToken(cur, toks);
        Scanner(t.next, cur'.(off := cur'.off + 1), toks')
      else
        Scanner(t.next, cur.(len := cur.len + 1), toks)
  }

  /** The NUL step: fail if the NUL is quoted, otherwise flush the current
      token and append the END token. */
  function Finish(sc: Scanner): Option<seq<Token>> {
    if CheckQuote(sc.quote, Nul).quoted then None
    else
      var flushed := EndToken(sc.cur, sc.toks);
      Some(flushed.1 + [flushed.0.(kind := End)])
  }

  function Scan(input: string, pos: nat, sc: Scanner): Option<seq<Token>>
    requires sc.cur.off + sc.cur.len == pos <= |input|
    decreases |input| - pos
  {
    if pos == |input| then Finish(sc) else Scan(input, pos + 1, Step(input, pos, sc))
  }

  /** tokenize: `None` is the `false` return (syntax error). */
  function Tokenize(input: string): Option<seq<Token>> {
    Scan(input, 0, Scanner(NoQuote, Token(0, 0, Word), []))
  }

  /** The text a token spans. */
  function Text(input: string, t: Token): string
    requires t.off + t.len <= |input|
  {
    input[t.off..t.off + t.len]
  }
}

module TokenizerProofs {
  import opened Base
  import opened Quote
  import opened Tokenizer

  /** An operator token: one of `<` `>` `|`, or a two-character operator
      `<<` `<>` `<&` `>>` `>|` `>&`. */
  predicate IsOperatorToken(input: string, t: Token) {
    && t.kind == Op
    && (t.len == 1 || t.len == 2)
    && t.off + t.len <= |input|
    && IsOpChar(input[t.off])
    && (t.len == 2 ==> Extends(input[t.off], input[t.off + 1]))
  }

  /** Non-empty word and operator spans, in increasing non-overlapping order,
      all ending at or before bound. */
  predicate Chain(toks: seq<Token>, bound: nat) {
    && (forall i :: 0 <= i < |toks| ==> toks[i].kind != End && toks[i].len > 0)
    && (forall i :: 0 <= i < |toks| - 1 ==> toks[i].off + toks[i].len <= toks[i + 1].off)
    && (|toks| > 0 ==> toks[|toks| - 1].off + toks[|toks| - 1].len <= bound)
  }

  /** Every token of a chain ends at or before its bound. */
  lemma {:induction false} ChainBound(toks: seq<Token>, bound: nat, i: nat)
    requires Chain(toks, bound) && i < |toks|
    ensures toks[i].off + toks[i].len <= bound
    decreases |toks| - i
  {
    if i < |toks| - 1 {
      ChainBound(toks, bound, i + 1);
    }
  }

  predicate OpsValid(input: string, toks: seq<Token>) {
    forall i :: 0 <= i < |toks| && toks[i].kind == Op ==> IsOperatorToken(input, toks[i])
  }

  /** A word starts and ends outside any quote, so its text can be unquoted
      starting from NoQuote. */
  predicate WordEdgesUnquoted(input: string, toks: seq<Token>) {
    forall i :: 0 <= i < |toks| && toks[i].kind == Word ==>
      && toks[i].off + toks[i].len <= |input|
      && QuoteAfter(input[..toks[i].off]) == NoQuote
      && QuoteAfter(input[..toks[i].off + toks[i].len]) == NoQuote
  }

  /** The character at p is read as itself: check_quote does not report it
      quoted. Quote characters that open or close a quote are free. */
  predicate FreeAt(input: string, p: nat)
    requires p < |input|
  {
    !CheckQuote(QuoteAfter(input[..p]), input[p]).quoted
  }

  /** A blank outside quotes: it separates tokens and belongs to none. */
  predicate FreeBlank(input: string, p: nat)
    requires p < |input|
  {
    FreeAt(input, p) && IsBlank(input[p])
  }

  /** A blank or operator character outside quotes: it ends a word. */
  predicate Separates(input: string, p: nat)
    requires p < |input|
  {
    FreeAt(input, p) && (IsBlank(input[p]) || IsOpChar(input[p]))
  }

  predicate Covers(t: Token, p: nat) {
    t.off <= p < t.off + t.len
  }

  /** Every character of a token suits its kind: a word holds no free blank
      or operator character, an operator holds only free non-blanks. */
  predicate Filled(input: string, t: Token) {
    && t.off + t.len <= |input|
    && forall p :: t.off <= p < t.off + t.len ==>
         if t.kind == Word then !Separates(input, p) else FreeAt(input, p) && !IsBlank(input[p])
  }

  predicate AllFilled(input: string, toks: seq<Token>) {
    forall i :: 0 <= i < |toks| ==> Filled(input, toks[i])
  }

  /** Every position in [lo, hi) is a free blank. */
  predicate AllGap(input: string, lo: nat, hi: nat) {
    forall p :: lo <= p < hi ==> p < |input| && FreeBlank(input, p)
  }

  /** Every position before bound that lies between the tokens (before the
      first, between two, or after the last) is a free blank. */
  predicate Spaced(input: string, toks: seq<Token>, bound: nat)
    decreases |toks|
  {
    if |toks| == 0 then AllGap(input, 0, bound)
    else
      var t := toks[|toks| - 1];
      AllGap(input, t.off + t.len, bound) && Spaced(input, toks[..|toks| - 1], t.off)
  }

  /** Every word ends at the end of the line or right before a free blank
      or operator character. */
  predicate WordsEnd(input: string, toks: seq<Token>) {
    forall i :: 0 <= i < |toks| && toks[i].kind == Word && toks[i].off + toks[i].len < |input| ==>
      Separates(input, toks[i].off + toks[i].len)
  }

  /** A one-character operator is never followed by a character that would
      extend it. */
  predicate OpsMaximal(input: string, toks: seq<Token>) {
    forall i :: 0 <= i < |toks| && toks[i].kind == Op && toks[i].len == 1 && toks[i].off + 1 < |input| ==>
      !Extends(input[toks[i].off], input[toks[i].off + 1])
  }

  /** Every token is as long as it can be. */
  predicate Maximal(input: string, toks: seq<Token>) {
    WordsEnd(input, toks) && OpsMaximal(input, toks)
  }

  /** What a successful tokenize returns: word and operator spans in order,
      then exactly one END token of length 0 at the end of the input; the
      spans hold every character but the free blanks, split the line at
      every free blank and operator character, and are each as long as
      they can be. */
  predicate WellFormed(input: string, toks: seq<Token>) {
    && |toks| > 0
    && toks[|toks| - 1] == Token(|input|, 0, End)
    && Chain(toks[..|toks| - 1], |input|)
    && OpsValid(input, toks)
    && WordEdgesUnquoted(input, toks)
    && AllFilled(input, toks[..|toks| - 1])
    && Spaced(input, toks[..|toks| - 1], |input|)
    && Maximal(input, toks[..|toks| - 1])
  }

  /** The coverage invariant of tokenize: the emitted tokens and the current
      one are filled, and everything between them is a free blank. */
  predicate CoverInv(input: string, sc: Scanner) {
    && Filled(input, sc.cur)
    && AllFilled(input, sc.toks)
    && Spaced(input, sc.toks, sc.cur.off)
  }

  /** The loop invariant of tokenize. */
  predicate ScanInv(input: string, pos: nat, sc: Scanner) {
    && sc.cur.off + sc.cur.len == pos <= |input|
    && sc.quote == QuoteAfter(input[..pos])
    && sc.cur.kind != End
    && Chain(sc.toks, sc.cur.off)
    && OpsValid(input, sc.toks)
    && WordEdgesUnquoted(input, sc.toks)
    && (sc.cur.kind == Op ==> IsOperatorToken(input, sc.cur) && sc.quote == NoQuote)
    && (sc.cur.kind == Word ==> QuoteAfter(input[..sc.cur.off]) == NoQuote)
  }

  lemma ChainAppend(toks: seq<Token>, t: Token, bound: nat)
    requires Chain(toks, t.off) && t.kind != End && t.len > 0 && t.off + t.len <= bound
    ensures Chain(toks + [t], bound)
  {
    var ts := toks + [t];
    forall i | 0 <= i < |ts| - 1
      ensures ts[i].off + ts[i].len <= ts[i + 1].off
    {
      assert ts[i] == toks[i];
    }
  }

  lemma OpsAppend(input: string, toks: seq<Token>, t: Token)
    requires OpsValid(input, toks) && (t.kind == Op ==> IsOperatorToken(input, t))
    ensures OpsValid(input, toks + [t])
  {
    var ts := toks + [t];
    forall i | 0 <= i < |ts| && ts[i].kind == Op
      ensures IsOperatorToken(input, ts[i])
    {
      if i < |toks| {
        assert ts[i] == toks[i];
      }
    }
  }

  lemma WordsAppend(input: string, toks: seq<Token>, t: Token)
    requires WordEdgesUnquoted(input, toks)
    requires t.kind == Word ==>
               t.off + t.len <= |input| && QuoteAfter(input[..t.off]) == NoQuote
               && QuoteAfter(input[..t.off + t.len]) == NoQuote
    ensures WordEdgesUnquoted(input, toks + [t])
  {
    var ts := toks + [t];
    forall i | 0 <= i < |ts| && ts[i].kind == Word
      ensures ts[i].off + ts[i].len <= |input|
      ensures QuoteAfter(input[..ts[i].off]) == NoQuote
      ensures QuoteAfter(input[..ts[i].off + ts[i].len]) == NoQuote
    {
      if i < |toks| {
        assert ts[i] == toks[i];
      }
    }
  }

  /** Flushing a token that ends at `pos` starts an empty word there and
      keeps the emitted spans in order. */
  lemma FlushChain(toks: seq<Token>, t: Token, pos: nat)
    requires Chain(toks, t.off) && t.kind != End && t.off + t.len == pos
    ensures EndToken(t, toks).0 == Token(pos, 0, Word)
    ensures Chain(EndToken(t, toks).1, pos)
  {
    if t.len > 0 {
      ChainAppend(toks, t, pos);
    }
  }

  /** Flushing a valid operator keeps every emitted operator valid. */
  lemma FlushOps(input: string, toks: seq<Token>, t: Token)
    requires OpsValid(input, toks) && (t.kind == Op ==> IsOperatorToken(input, t))
    ensures OpsValid(input, EndToken(t, toks).1)
  {
    if t.len > 0 {
      OpsAppend(input, toks, t);
    }
  }

  /** Flushing a word whose edges are unquoted keeps every emitted word's
      edges unquoted. */
  lemma FlushWords(input: string, toks: seq<Token>, t: Token)
    requires WordEdgesUnquoted(input, toks)
    requires t.kind == Word && t.len > 0 ==>
      t.off + t.len <= |input| && QuoteAfter(input[..t.off]) == NoQuote
      && QuoteAfter(input[..t.off + t.len]) == NoQuote
    ensures WordEdgesUnquoted(input, EndToken(t, toks).1)
  {
    if t.len > 0 {
      WordsAppend(input, toks, t);
    }
  }

  /** Flushing a token that satisfies the invariant's conditions keeps the
      emitted list well formed. */
  lemma EndTokenKeeps(input: string, pos: nat, sc: Scanner)
    requires ScanInv(input, pos, sc)
    requires sc.cur.kind == Word && sc.cur.len > 0 ==> sc.quote == NoQuote
    ensures var (cur, toks) := EndToken(sc.cur, sc.toks);
      && cur == Token(pos, 0, Word)
      && Chain(toks, pos)
      && OpsValid(input, toks)
      && WordEdgesUnquoted(input, toks)
  {
    FlushChain(sc.toks, sc.cur, pos);
    FlushOps(input, sc.toks, sc.cur);
    FlushWords(input, sc.toks, sc.cur);
  }

  /** A second operator character extends a one-character operator. */
  lemma ExtendKeeps(input: string, pos: nat, sc: Scanner)
    requires ScanInv(input, pos, sc) && pos < |input| && sc.cur.kind == Op && sc.cur.len == 1
    requires !CheckQuote(sc.quote, input[pos]).quoted && Extends(input[sc.cur.off], input[pos])
    ensures ScanInv(input, pos + 1, Step(input, pos, sc))
  {
    QuoteAfterStep(input, pos);
    var r := Step(input, pos, sc);
    assert r.cur == sc.cur.(len := 2);
    assert input[r.cur.off + 1] == input[pos];
  }

  /** A character that joins the current word. */
  lemma GrowKeeps(input: string, pos: nat, sc: Scanner)
    requires ScanInv(input, pos, sc) && pos < |input| && sc.cur.kind == Word
    ensures ScanInv(input, pos + 1,
      Scanner(CheckQuote(sc.quote, input[pos]).next, sc.cur.(len := sc.cur.len + 1), sc.toks))
  {
    QuoteAfterStep(input, pos);
  }

  /** After a flush at `pos` outside quotes, an operator starts at `pos`
      or, for a blank, an empty word starts right after it. */
  lemma RestartKeeps(input: string, pos: nat, toks: seq<Token>, isOp: bool)
    requires pos < |input| && QuoteAfter(input[..pos + 1]) == NoQuote
    requires Chain(toks, pos) && OpsValid(input, toks) && WordEdgesUnquoted(input, toks)
    requires isOp ==> IsOpChar(input[pos])
    ensures ScanInv(input, pos + 1,
      Scanner(NoQuote, if isOp then Token(pos, 1, Op) else Token(pos + 1, 0, Word), toks))
  {
  }

  /** An unquoted operator character or blank ends the current word. */
  lemma BreakKeeps(input: string, pos: nat, sc: Scanner)
    requires ScanInv(input, pos, sc) && pos < |input| && sc.cur.kind == Word
    requires !CheckQuote(sc.quote, input[pos]).quoted && (IsOpChar(input[pos]) || IsBlank(input[pos]))
    ensures ScanInv(input, pos + 1, Step(input, pos, sc))
  {
    var c := input[pos];
    assert !IsQuoteChar(c);
    assert sc.quote == NoQuote && CheckQuote(sc.quote, c).next == NoQuote;
    QuoteAfterStep(input, pos);
    EndTokenKeeps(input, pos, sc);
    var toks := EndToken(sc.cur, sc.toks).1;
    RestartKeeps(input, pos, toks, IsOpChar(c));
    if IsOpChar(c) {
      assert Step(input, pos, sc) == Scanner(NoQuote, Token(pos, 1, Op), toks);
    } else {
      assert Step(input, pos, sc) == Scanner(NoQuote, Token(pos + 1, 0, Word), toks);
    }
  }

  /** One character read while the current token is a word. */
  lemma WordStepKeeps(input: string, pos: nat, sc: Scanner)
    requires ScanInv(input, pos, sc) && pos < |input| && sc.cur.kind == Word
    ensures ScanInv(input, pos + 1, Step(input, pos, sc))
  {
    var c := input[pos];
    if !CheckQuote(sc.quote, c).quoted && (IsOpChar(c) || IsBlank(c)) {
      BreakKeeps(input, pos, sc);
    } else {
      GrowKeeps(input, pos, sc);
    }
  }

  lemma StepKeepsInv(input: string, pos: nat, sc: Scanner)
    requires ScanInv(input, pos, sc) && pos < |input|
    ensures ScanInv(input, pos + 1, Step(input, pos, sc))
  {
    var c := input[pos];
    if sc.cur.kind == Op && !CheckQuote(sc.quote, c).quoted && sc.cur.len == 1 && Extends(input[sc.cur.off], c) {
      ExtendKeeps(input, pos, sc);
    } else if sc.cur.kind == Op {
      EndTokenKeeps(input, pos, sc);
      var flushed := EndToken(sc.cur, sc.toks);
      var sc1 := Scanner(sc.quote, flushed.0, flushed.1);
      assert Step(input, pos, sc) == Step(input, pos, sc1);
      WordStepKeeps(input, pos, sc1);
    } else {
      WordStepKeeps(input, pos, sc);
    }
  }

  /** Flushing the current token keeps the coverage: the flushed token is
      filled and no gap opens before the new empty word. */
  lemma FlushCover(input: string, cur: Token, toks: seq<Token>)
    requires Filled(input, cur) && AllFilled(input, toks) && Spaced(input, toks, cur.off)
    ensures var (cur', toks') := EndToken(cur, toks);
      AllFilled(input, toks') && Spaced(input, toks', cur'.off)
  {
    if cur.len > 0 {
      var ts := toks + [cur];
      assert ts[..|ts| - 1] == toks;
      assert AllFilled(input, ts) by {
        forall i | 0 <= i < |ts|
          ensures Filled(input, ts[i])
        {
          if i < |toks| {
            assert ts[i] == toks[i];
          }
        }
      }
    }
  }

  /** A free blank right after bound extends the last gap. */
  lemma SpacedGap(input: string, toks: seq<Token>, bound: nat)
    requires Spaced(input, toks, bound) && bound < |input| && FreeBlank(input, bound)
    ensures Spaced(input, toks, bound + 1)
  {
  }

  /** A character that does not separate extends a filled word. */
  lemma WordGrowCover(input: string, cur: Token, pos: nat)
    requires Filled(input, cur) && cur.kind == Word && cur.off + cur.len == pos < |input|
    requires !Separates(input, pos)
    ensures Filled(input, cur.(len := cur.len + 1))
  {
  }

  /** One character read while the current token is a word keeps the
      coverage. */
  lemma WordStepCover(input: string, pos: nat, sc: Scanner)
    requires sc.cur.off + sc.cur.len == pos < |input| && sc.quote == QuoteAfter(input[..pos])
    requires CoverInv(input, sc) && sc.cur.kind == Word
    ensures CoverInv(input, Step(input, pos, sc))
  {
    var c := input[pos];
    var t := CheckQuote(sc.quote, c);
    assert t.quoted == !FreeAt(input, pos);
    var r := Step(input, pos, sc);
    if !t.quoted && IsQuoteChar(c) {
      assert r == Scanner(t.next, sc.cur.(len := sc.cur.len + 1), sc.toks);
      WordGrowCover(input, sc.cur, pos);
    } else if !t.quoted && (IsOpChar(c) || IsBlank(c)) {
      FlushCover(input, sc.cur, sc.toks);
      var (cur', toks') := EndToken(sc.cur, sc.toks);
      if IsOpChar(c) {
        assert r == Scanner(t.next, Token(pos, 1, Op), toks');
      } else {
        assert r == Scanner(t.next, Token(pos + 1, 0, Word), toks');
        SpacedGap(input, toks', pos);
      }
    } else {
      assert r == Scanner(t.next, sc.cur.(len := sc.cur.len + 1), sc.toks);
      WordGrowCover(input, sc.cur, pos);
    }
  }

  /** A free non-blank character extends a filled operator. */
  lemma OpGrowCover(input: string, cur: Token, pos: nat)
    requires Filled(input, cur) && cur.kind == Op && cur.off + cur.len == pos < |input|
    requires FreeAt(input, pos) && !IsBlank(input[pos])
    ensures Filled(input, cur.(len := cur.len + 1))
  {
  }

  /** An operator that the next character does not extend is flushed
      first, and the character is then read as after a word. */
  lemma OpFlushStep(input: string, pos: nat, sc: Scanner)
    requires sc.cur.off + sc.cur.len == pos < |input| && sc.cur.kind == Op
    requires !(!CheckQuote(sc.quote, input[pos]).quoted && sc.cur.len == 1 && Extends(input[sc.cur.off], input[pos]))
    ensures var flushed := EndToken(sc.cur, sc.toks);
      Step(input, pos, sc) == Step(input, pos, Scanner(sc.quote, flushed.0, flushed.1))
  {
  }

  /** One character read while the current token is an operator keeps the
      coverage. */
  lemma OpStepCover(input: string, pos: nat, sc: Scanner)
    requires sc.cur.off + sc.cur.len == pos < |input| && sc.quote == QuoteAfter(input[..pos])
    requires CoverInv(input, sc) && sc.cur.kind == Op
    ensures CoverInv(input, Step(input, pos, sc))
  {
    var c := input[pos];
    var t := CheckQuote(sc.quote, c);
    if !t.quoted && sc.cur.len == 1 && Extends(input[sc.cur.off], c) {
      assert Step(input, pos, sc) == Scanner(t.next, sc.cur.(len := 2), sc.toks);
      OpGrowCover(input, sc.cur, pos);
    } else {
      FlushCover(input, sc.cur, sc.toks);
      var flushed := EndToken(sc.cur, sc.toks);
      var sc1 := Scanner(sc.quote, flushed.0, flushed.1);
      OpFlushStep(input, pos, sc);
      WordStepCover(input, pos, sc1);
    }
  }

  /** One step of tokenize keeps the coverage. */
  lemma StepKeepsCover(input: string, pos: nat, sc: Scanner)
    requires sc.cur.off + sc.cur.len == pos < |input| && sc.quote == QuoteAfter(input[..pos])
    requires CoverInv(input, sc) && sc.cur.kind != End
    ensures CoverInv(input, Step(input, pos, sc))
  {
    if sc.cur.kind == Op {
      OpStepCover(input, pos, sc);
    } else {
      WordStepCover(input, pos, sc);
    }
  }

  /** Flushed spans that cover the whole line, followed by the END token,
      are well formed. */
  lemma EndAppendWellFormed(input: string, toks: seq<Token>)
    requires Chain(toks, |input|) && OpsValid(input, toks) && WordEdgesUnquoted(input, toks)
    requires AllFilled(input, toks) && Spaced(input, toks, |input|) && Maximal(input, toks)
    ensures WellFormed(input, toks + [Token(|input|, 0, End)])
  {
    var end := Token(|input|, 0, End);
    var all := toks + [end];
    assert all[..|all| - 1] == toks;
    OpsAppend(input, toks, end);
    WordsAppend(input, toks, end);
  }

  /** Flushing a token that is as long as it can be keeps every emitted
      token so. */
  lemma FlushMaximal(input: string, cur: Token, toks: seq<Token>)
    requires Maximal(input, toks)
    requires cur.kind == Word && cur.off + cur.len < |input| ==> Separates(input, cur.off + cur.len)
    requires cur.kind == Op && cur.len == 1 && cur.off + 1 < |input| ==>
      !Extends(input[cur.off], input[cur.off + 1])
    ensures Maximal(input, EndToken(cur, toks).1)
  {
    var ts := EndToken(cur, toks).1;
    if cur.len > 0 {
      forall i | 0 <= i < |ts|
        ensures ts[i].kind == Word && ts[i].off + ts[i].len < |input| ==> Separates(input, ts[i].off + ts[i].len)
        ensures ts[i].kind == Op && ts[i].len == 1 && ts[i].off + 1 < |input| ==>
          !Extends(input[ts[i].off], input[ts[i].off + 1])
      {
        if i < |toks| {
          assert ts[i] == toks[i];
        }
      }
    }
  }

  /** One character read while the current token is a word keeps every
      emitted token as long as it can be. */
  lemma WordStepMaximal(input: string, pos: nat, sc: Scanner)
    requires sc.cur.off + sc.cur.len == pos < |input| && sc.quote == QuoteAfter(input[..pos])
    requires Maximal(input, sc.toks) && sc.cur.kind == Word
    ensures Maximal(input, Step(input, pos, sc).toks)
  {
    var c := input[pos];
    var t := CheckQuote(sc.quote, c);
    if !t.quoted && (IsOpChar(c) || IsBlank(c)) {
      assert !IsQuoteChar(c);
      assert Separates(input, pos);
      FlushMaximal(input, sc.cur, sc.toks);
    }
  }

  /** One step of tokenize keeps every emitted token as long as it can be:
      a word is emitted only at a free blank or operator character, and a
      one-character operator only when the next character does not extend
      it. */
  lemma StepKeepsMaximal(input: string, pos: nat, sc: Scanner)
    requires ScanInv(input, pos, sc) && pos < |input| && Maximal(input, sc.toks)
    ensures Maximal(input, Step(input, pos, sc).toks)
  {
    var c := input[pos];
    var t := CheckQuote(sc.quote, c);
    if sc.cur.kind == Op && !(!t.quoted && sc.cur.len == 1 && Extends(input[sc.cur.off], c)) {
      assert !t.quoted;
      FlushMaximal(input, sc.cur, sc.toks);
      var flushed := EndToken(sc.cur, sc.toks);
      OpFlushStep(input, pos, sc);
      WordStepMaximal(input, pos, Scanner(sc.quote, flushed.0, flushed.1));
    } else if sc.cur.kind == Word {
      WordStepMaximal(input, pos, sc);
    }
  }

  /** The shape of a successful NUL step: the emitted tokens, the pending
      one when it is non-empty, and the END token where the pending one
      ends. */
  lemma FinishShape(sc: Scanner)
    requires !CheckQuote(sc.quote, Nul).quoted
    ensures Finish(sc) == Some(EndToken(sc.cur, sc.toks).1 + [Token(sc.cur.off + sc.cur.len, 0, End)])
    ensures |Finish(sc).value| > |sc.toks| && Finish(sc).value[..|sc.toks|] == sc.toks
    ensures sc.cur.len > 0 ==> Finish(sc).value[|sc.toks|] == sc.cur
  {
    var all := Finish(sc).value;
    assert all[..|sc.toks|] == sc.toks;
  }

  /** The NUL step: it fails exactly when a quote is open; otherwise it
      keeps the emitted tokens, flushes the pending one when it is
      non-empty, and the result is well formed. */
  lemma FinishSpec(input: string, sc: Scanner)
    requires ScanInv(input, |input|, sc) && CoverInv(input, sc) && Maximal(input, sc.toks)
    ensures Finish(sc).None? <==> QuoteAfter(input) != NoQuote
    ensures Finish(sc).Some? ==> WellFormed(input, Finish(sc).value)
    ensures Finish(sc).Some? ==> |Finish(sc).value| > |sc.toks| && Finish(sc).value[..|sc.toks|] == sc.toks
    ensures Finish(sc).Some? && sc.cur.len > 0 ==> Finish(sc).value[|sc.toks|] == sc.cur
  {
    assert sc.quote == QuoteAfter(input) by {
      assert input[..|input|] == input;
    }
    NulQuotedIffOpen(sc.quote);
    if sc.quote == NoQuote {
      var (cur, toks) := EndToken(sc.cur, sc.toks);
      assert Chain(toks, |input|) && OpsValid(input, toks) && WordEdgesUnquoted(input, toks) by {
        EndTokenKeeps(input, |input|, sc);
      }
      assert AllFilled(input, toks) && Spaced(input, toks, |input|) by {
        FlushCover(input, sc.cur, sc.toks);
      }
      assert Maximal(input, toks) by {
        FlushMaximal(input, sc.cur, sc.toks);
      }
      FinishShape(sc);
      EndAppendWellFormed(input, toks);
    }
  }

  lemma {:induction false} ScanSpec(input: string, pos: nat, sc: Scanner)
    requires ScanInv(input, pos, sc) && CoverInv(input, sc) && Maximal(input, sc.toks)
    ensures Scan(input, pos, sc).None? <==> QuoteAfter(input) != NoQuote
    ensures Scan(input, pos, sc).Some? ==> WellFormed(input, Scan(input, pos, sc).value)
    decreases |input| - pos
  {
    if pos == |input| {
      FinishSpec(input, sc);
    } else {
      StepKeepsInv(input, pos, sc);
      StepKeepsCover(input, pos, sc);
      StepKeepsMaximal(input, pos, sc);
      ScanSpec(input, pos + 1, Step(input, pos, sc));
    }
  }

  /** In a chain every earlier token ends before a later one starts. */
  lemma {:induction false} ChainOrdered(toks: seq<Token>, bound: nat, i: nat, j: nat)
    requires Chain(toks, bound) && i < j < |toks|
    ensures toks[i].off + toks[i].len <= toks[j].off
    decreases j - i
  {
    if i + 1 < j {
      ChainOrdered(toks, bound, i + 1, j);
    }
  }

  /** A position before bound that is not a free blank lies in a token. */
  lemma {:induction false} SpacedCovers(input: string, toks: seq<Token>, bound: nat, p: nat)
    requires Spaced(input, toks, bound) && p < bound && p < |input| && !FreeBlank(input, p)
    ensures exists i :: 0 <= i < |toks| && Covers(toks[i], p)
    decreases |toks|
  {
    var n := |toks|;
    if n > 0 && p < toks[n - 1].off {
      SpacedCovers(input, toks[..n - 1], toks[n - 1].off, p);
      var i :| 0 <= i < n - 1 && Covers(toks[..n - 1][i], p);
      assert toks[..n - 1][i] == toks[i];
    } else if n > 0 {
      assert Covers(toks[n - 1], p);
    }
  }

  /** What tokenize's spans say about each character of the line: a free
      blank lies in no token and every other character in exactly one; a
      free operator character lies in an operator; no word holds a free
      blank or operator character. */
  lemma TokensCover(input: string, toks: seq<Token>, p: nat)
    requires WellFormed(input, toks) && p < |input|
    ensures FreeBlank(input, p) <==> forall i :: 0 <= i < |toks| ==> !Covers(toks[i], p)
    ensures FreeAt(input, p) && IsOpChar(input[p]) ==>
      exists i :: 0 <= i < |toks| && toks[i].kind == Op && Covers(toks[i], p)
    ensures forall i :: 0 <= i < |toks| && toks[i].kind == Word && Covers(toks[i], p) ==> !Separates(input, p)
    ensures forall i, j :: 0 <= i < j < |toks| && Covers(toks[i], p) ==> !Covers(toks[j], p)
  {
    var body := toks[..|toks| - 1];
    forall i | 0 <= i < |toks| && Covers(toks[i], p)
      ensures i < |body| && Filled(input, body[i]) && body[i] == toks[i]
    {
    }
    if !FreeBlank(input, p) {
      SpacedCovers(input, body, |input|, p);
      var i :| 0 <= i < |body| && Covers(body[i], p);
      assert Covers(toks[i], p);
    }
    forall i, j | 0 <= i < j < |toks| && Covers(toks[i], p)
      ensures !Covers(toks[j], p)
    {
      if j < |body| {
        ChainOrdered(body, |input|, i, j);
      }
    }
  }

  /** Where the k-th token may start at the earliest: the end of the one
      before it, or 0. */
  function Prev(toks: seq<Token>, k: nat): nat
    requires k <= |toks|
  {
    if k == 0 then 0 else toks[k - 1].off + toks[k - 1].len
  }

  /** Between consecutive tokens, and after the last up to bound, there are
      only free blanks. */
  lemma {:induction false} SpacedGapAt(input: string, toks: seq<Token>, bound: nat, k: nat)
    requires Spaced(input, toks, bound) && k <= |toks|
    ensures AllGap(input, Prev(toks, k), if k == |toks| then bound else toks[k].off)
    decreases |toks|
  {
    var n := |toks|;
    if k < n {
      var init := toks[..n - 1];
      SpacedGapAt(input, init, toks[n - 1].off, k);
      if 0 < k {
        assert init[k - 1] == toks[k - 1];
      }
      if k < n - 1 {
        assert init[k] == toks[k];
      }
    }
  }

  /** The spans of a well-formed list, without its END token. */
  predicate Lined(input: string, body: seq<Token>) {
    && Chain(body, |input|)
    && OpsValid(input, body)
    && AllFilled(input, body)
    && Spaced(input, body, |input|)
    && Maximal(input, body)
  }

  lemma BodyLined(input: string, toks: seq<Token>)
    requires WellFormed(input, toks)
    ensures Lined(input, toks[..|toks| - 1])
  {
    var body := toks[..|toks| - 1];
    forall i | 0 <= i < |body| && body[i].kind == Op
      ensures IsOperatorToken(input, body[i])
    {
      assert body[i] == toks[i];
    }
  }

  /** What a list of spans says about one of its tokens on its own. */
  predicate TokenOk(input: string, t: Token) {
    && Filled(input, t) && t.len > 0 && t.kind != End
    && (t.kind == Op ==> IsOperatorToken(input, t))
    && (t.kind == Word && t.off + t.len < |input| ==> Separates(input, t.off + t.len))
    && (t.kind == Op && t.len == 1 && t.off + 1 < |input| ==> !Extends(input[t.off], input[t.off + 1]))
  }

  lemma LinedAt(input: string, a: seq<Token>, k: nat)
    requires Lined(input, a) && k < |a|
    ensures TokenOk(input, a[k]) && Prev(a, k) <= a[k].off && AllGap(input, Prev(a, k), a[k].off)
  {
    SpacedGapAt(input, a, |input|, k);
  }

  /** The first character of a token is not a free blank. */
  lemma TokenStart(input: string, t: Token)
    requires Filled(input, t) && t.len > 0 && t.kind != End
    ensures t.off < |input| && !FreeBlank(input, t.off)
  {
    if t.kind == Word {
      assert !Separates(input, t.off);
    } else {
      assert FreeAt(input, t.off) && !IsBlank(input[t.off]);
    }
  }

  /** A token is fixed by where it starts: its kind by the first character
      (a free operator character starts an operator, anything else a word),
      and its length by being as long as it can be. */
  lemma SameToken(input: string, x: Token, y: Token)
    requires TokenOk(input, x) && TokenOk(input, y) && x.off == y.off
    ensures x == y
  {
    var p := x.off;
    TokenStart(input, x);
    if x.kind == Op {
      assert FreeAt(input, p) && Separates(input, p);
    }
    if y.kind == Op {
      assert FreeAt(input, p) && Separates(input, p);
    }
    assert x.kind == Word ==> !Separates(input, p);
    assert y.kind == Word ==> !Separates(input, p);
    if x.kind == Word {
      assert p + x.len < |input| ==> Separates(input, p + x.len);
      assert p + y.len < |input| ==> Separates(input, p + y.len);
    }
  }

  /** Two lists of spans that agree on where the k-th token may start agree
      on the k-th token: it starts at the first character from there on
      that is not a free blank. */
  lemma TokenDetermined(input: string, a: seq<Token>, b: seq<Token>, k: nat)
    requires Lined(input, a) && Lined(input, b) && k < |a| && k < |b|
    requires Prev(a, k) == Prev(b, k)
    ensures a[k] == b[k]
  {
    LinedAt(input, a, k);
    LinedAt(input, b, k);
    TokenStart(input, a[k]);
    TokenStart(input, b[k]);
    SameToken(input, a[k], b[k]);
  }

  lemma {:induction false} PrefixAgree(input: string, a: seq<Token>, b: seq<Token>, k: nat)
    requires Lined(input, a) && Lined(input, b) && k <= |a| && k <= |b|
    ensures forall i :: 0 <= i < k ==> a[i] == b[i]
    decreases k
  {
    if k > 0 {
      PrefixAgree(input, a, b, k - 1);
      TokenDetermined(input, a, b, k - 1);
    }
  }

  /** The k-th token of a list of spans, if there is one, starts at a
      character that is not a free blank, no earlier than the end of the
      token before it. */
  lemma TokenAfterGap(input: string, b: seq<Token>, k: nat)
    ensures Lined(input, b) && k < |b| ==>
      Prev(b, k) <= b[k].off < |input| && !FreeBlank(input, b[k].off)
  {
    if Lined(input, b) && k < |b| {
      LinedAt(input, b, k);
      TokenStart(input, b[k]);
    }
  }

  /** Two lists of spans of a line have the same tokens: a list that
      stopped early would leave a character that is not a free blank in its
      trailing gap. */
  lemma BodyDetermined(input: string, a: seq<Token>, b: seq<Token>)
    requires Lined(input, a) && Lined(input, b)
    ensures a == b
  {
    SpacedGapAt(input, a, |input|, |a|);
    SpacedGapAt(input, b, |input|, |b|);
    var m := if |a| < |b| then |a| else |b|;
    PrefixAgree(input, a, b, m);
    TokenAfterGap(input, b, |a|);
    TokenAfterGap(input, a, |b|);
    assert |a| == |b|;
  }

  /** Two non-empty sequences with the same front and the same last element
      are equal. */
  lemma SameFrontLast<T>(a: seq<T>, b: seq<T>)
    requires |a| > 0 && |b| > 0 && a[..|a| - 1] == b[..|b| - 1] && a[|a| - 1] == b[|b| - 1]
    ensures a == b
  {
    assert a == a[..|a| - 1] + [a[|a| - 1]];
    assert b == b[..|b| - 1] + [b[|b| - 1]];
  }

  /** At most one list of spans is well formed for a line. */
  lemma WellFormedUnique(input: string, a: seq<Token>, b: seq<Token>)
    requires WellFormed(input, a) && WellFormed(input, b)
    ensures a == b
  {
    BodyLined(input, a);
    BodyLined(input, b);
    BodyDetermined(input, a[..|a| - 1], b[..|b| - 1]);
    SameFrontLast(a, b);
  }

  /** tokenize's result is the one well-formed token list of the line: a
      token list is well formed exactly when tokenize returns it. */
  lemma TokenizeExact(input: string, toks: seq<Token>)
    requires Tokenize(input).Some?
    ensures WellFormed(input, toks) <==> Tokenize(input).value == toks
  {
    TokenizeSpec(input);
    if WellFormed(input, toks) {
      WellFormedUnique(input, Tokenize(input).value, toks);
    }
  }

  /** A plain character outside quotes joins the current word. */
  lemma ScanPlain(input: string, pos: nat, cur: Token, toks: seq<Token>)
    requires cur.kind == Word && cur.off + cur.len == pos < |input|
    requires !IsQuoteChar(input[pos]) && !IsOpChar(input[pos]) && !IsBlank(input[pos])
    ensures Scan(input, pos, Scanner(NoQuote, cur, toks)) == Scan(input, pos + 1, Scanner(NoQuote, cur.(len := cur.len + 1), toks))
  {
  }

  /** A blank outside quotes flushes the current word and starts an empty
      one after the blank. */
  lemma ScanBlank(input: string, pos: nat, cur: Token, toks: seq<Token>)
    requires cur.kind == Word && cur.off + cur.len == pos < |input| && IsBlank(input[pos])
    ensures Scan(input, pos, Scanner(NoQuote, cur, toks))
         == Scan(input, pos + 1, Scanner(NoQuote, Token(pos + 1, 0, Word), if cur.len > 0 then toks + [cur] else toks))
  {
  }

  /** An operator character outside quotes flushes the current word and
      starts an operator. */
  lemma ScanOpen(input: string, pos: nat, cur: Token, toks: seq<Token>)
    requires cur.kind == Word && cur.off + cur.len == pos < |input| && IsOpChar(input[pos])
    ensures Scan(input, pos, Scanner(NoQuote, cur, toks))
         == Scan(input, pos + 1, Scanner(NoQuote, Token(pos, 1, Op), if cur.len > 0 then toks + [cur] else toks))
  {
  }

  /** A second character that extends a one-character operator. */
  lemma ScanExtend(input: string, pos: nat, cur: Token, toks: seq<Token>)
    requires cur.kind == Op && cur.len == 1 && cur.off + 1 == pos < |input| && Extends(input[cur.off], input[pos])
    ensures Scan(input, pos, Scanner(NoQuote, cur, toks)) == Scan(input, pos + 1, Scanner(NoQuote, cur.(len := 2), toks))
  {
  }

  /** A character that does not extend the operator before it flushes that
      operator, and is then read after an empty word. */
  lemma ScanAfterOp(input: string, pos: nat, cur: Token, toks: seq<Token>)
    requires cur.kind == Op && cur.len > 0 && cur.off + cur.len == pos < |input|
    requires !(cur.len == 1 && Extends(input[cur.off], input[pos]))
    ensures Scan(input, pos, Scanner(NoQuote, cur, toks)) == Scan(input, pos, Scanner(NoQuote, Token(pos, 0, Word), toks + [cur]))
  {
    assert Step(input, pos, Scanner(NoQuote, cur, toks)) == Step(input, pos, Scanner(NoQuote, Token(pos, 0, Word), toks + [cur]));
  }

  /** At the end of the line outside quotes the current token is flushed and
      END appended. */
  lemma ScanEnd(input: string, cur: Token, toks: seq<Token>)
    requires cur.off + cur.len == |input|
    ensures Scan(input, |input|, Scanner(NoQuote, cur, toks))
         == Some((if cur.len > 0 then toks + [cur] else toks) + [Token(|input|, 0, End)])
  {
  }

  /** tokenize fails exactly when the line ends inside a quote or after an
      unescaped backslash; when it succeeds its tokens are well formed. */
  lemma TokenizeSpec(input: string)
    ensures Tokenize(input).None? <==> QuoteAfter(input) != NoQuote
    ensures Tokenize(input).Some? ==> WellFormed(input, Tokenize(input).value)
  {
    assert input[..0] == [];
    ScanSpec(input, 0, Scanner(NoQuote, Token(0, 0, Word), []));
  }
}
