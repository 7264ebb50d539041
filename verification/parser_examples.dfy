/** Worked examples of the parser on concrete lines, including the two
    lines that show the fd-number prefix defect. */
module ParserExamples {
  import opened Base
  import opened Quote
  import opened Cmd
  import opened Tokenizer
  import opened QuoteRemoval
  import opened Num
  import opened Parser
  import opened ParserProofs
  import opened TokenizerProofs

  /** A command of one plain word. */
  lemma OneWord(input: string, t: Token, w: string, policy: OverridePolicy)
    requires t.kind == Word && t.off + t.len <= |input| && Text(input, t) == w
    requires forall i :: 0 <= i < |w| ==> !IsQuoteChar(w[i])
    ensures ParseCommandWith(input, [t], policy) == Parsed(Command([Some(w), None], DefaultRedirs()))
  {
    UnquotePlain(w);
    assert ParseFrom(input, [t], 0, [], DefaultRedirs(), false, policy)
        == ParseFrom(input, [t], 1, [Some(w)], DefaultRedirs(), true, policy);
  }

  const Trunc: Mapping := Mapping(FileTrunc, 1)

  const CmdLine: string := "cmd 2>&1"
  const CmdSpan: seq<Token> := [Token(0, 3, Word), Token(4, 1, Word), Token(5, 2, Op), Token(7, 1, Word)]

  lemma CmdTexts()
    ensures TokensIn(CmdLine, CmdSpan)
    ensures Unquote(Text(CmdLine, CmdSpan[0])) == "cmd" && Unquote(Text(CmdLine, CmdSpan[1])) == "2"
    ensures Text(CmdLine, CmdSpan[2]) == ">&" && Unquote(Text(CmdLine, CmdSpan[3])) == "1"
  {
    UnquotePlain("cmd");
    UnquotePlain("2");
    UnquotePlain("1");
    assert Text(CmdLine, CmdSpan[0]) == "cmd";
    assert Text(CmdLine, CmdSpan[1]) == "2";
    assert Text(CmdLine, CmdSpan[3]) == "1";
  }

  lemma CmdOverride()
    ensures TokensIn(CmdLine, CmdSpan)
    ensures Override(CmdLine, CmdSpan, 2, true, SourceAware) == Some(2)
    ensures Override(CmdLine, CmdSpan, 2, true, AsWritten) == Some(2)
  {
    assert CmdLine[4..] == Decimal(2) + ">&1";
    StrToLDecimal(2, ">&1");
  }

  /** `cmd 2>&1`, under both rules: "2" is popped from the arguments and one
      descriptor-kind redirection targets fd 2 with source text "1". */
  lemma DupStderrToStdout()
    ensures ParseCommand("cmd 2>&1", [Token(0, 3, Word), Token(4, 1, Word), Token(5, 2, Op), Token(7, 1, Word)])
      == Parsed(Command([Some("cmd"), None], DefaultRedirs() + [Redir(FdOut, 2, -1, Some("1"))]))
    ensures ParseCommandAsWritten("cmd 2>&1", [Token(0, 3, Word), Token(4, 1, Word), Token(5, 2, Op), Token(7, 1, Word)])
      == Parsed(Command([Some("cmd"), None], DefaultRedirs() + [Redir(FdOut, 2, -1, Some("1"))]))
  {
    var d := DefaultRedirs();
    CmdTexts();
    CmdOverride();
    WordStep(CmdLine, CmdSpan, 0, [], d, false, SourceAware, "cmd");
    WordStep(CmdLine, CmdSpan, 1, [Some("cmd")], d, true, SourceAware, "2");
    OpStep(CmdLine, CmdSpan, 2, [Some("cmd"), Some("2")], d, true, SourceAware, Mapping(FdOut, 1), "1", Some(2));
    WordStep(CmdLine, CmdSpan, 0, [], d, false, AsWritten, "cmd");
    WordStep(CmdLine, CmdSpan, 1, [Some("cmd")], d, true, AsWritten, "2");
    OpStep(CmdLine, CmdSpan, 2, [Some("cmd"), Some("2")], d, true, AsWritten, Mapping(FdOut, 1), "1", Some(2));
  }

  const TruncOne: Redir := Redir(FileTrunc, 1, -1, Some("1"))
  const TruncB: Redir := Redir(FileTrunc, 1, -1, Some("b"))

  const BareLine: string := ">1>b"
  const BareSpan: seq<Token> := [Token(0, 1, Op), Token(1, 1, Word), Token(2, 1, Op), Token(3, 1, Word)]

  lemma BareTexts()
    ensures TokensIn(BareLine, BareSpan)
    ensures Text(BareLine, BareSpan[0]) == ">" && Unquote(Text(BareLine, BareSpan[1])) == "1"
    ensures Text(BareLine, BareSpan[2]) == ">" && Unquote(Text(BareLine, BareSpan[3])) == "b"
  {
    UnquotePlain("1");
    UnquotePlain("b");
    assert Text(BareLine, BareSpan[1]) == "1";
    assert Text(BareLine, BareSpan[3]) == "b";
  }

  /** In `>1>b`, the first operator has no prefix; the second takes "1"
      as written and nothing when corrected. */
  lemma BareOverrides()
    ensures TokensIn(BareLine, BareSpan)
    ensures Override(BareLine, BareSpan, 0, false, AsWritten) == None
    ensures Override(BareLine, BareSpan, 0, false, SourceAware) == None
    ensures Override(BareLine, BareSpan, 2, false, AsWritten) == Some(1)
    ensures Override(BareLine, BareSpan, 2, false, SourceAware) == None
  {
    assert BareLine[1..] == Decimal(1) + ">b";
    StrToLDecimal(1, ">b");
  }

  /** `>1>b` as written: "1" is the first redirection's file, yet it is
      taken as the second operator's fd prefix, and the argument vector,
      still empty, is popped. */
  lemma PrefixAfterSourceAsWritten()
    ensures ParseCommandAsWritten(">1>b", [Token(0, 1, Op), Token(1, 1, Word), Token(2, 1, Op), Token(3, 1, Word)])
      == Undefined
  {
    var d := DefaultRedirs();
    BareTexts();
    BareOverrides();
    OpStep(BareLine, BareSpan, 0, [], d, false, AsWritten, Trunc, "1", None);
    OpStep(BareLine, BareSpan, 2, [], d + [TruncOne], false, AsWritten, Trunc, "b", Some(1));
  }

  /** `>1>b` with the corrected rule: two truncating redirections of fd 1,
      to files "1" and "b", and no arguments. */
  lemma PrefixAfterSourceCorrected()
    ensures ParseCommand(">1>b", [Token(0, 1, Op), Token(1, 1, Word), Token(2, 1, Op), Token(3, 1, Word)])
      == Parsed(Command([None], DefaultRedirs() + [TruncOne, TruncB]))
  {
    var d := DefaultRedirs();
    BareTexts();
    BareOverrides();
    OpStep(BareLine, BareSpan, 0, [], d, false, SourceAware, Trunc, "1", None);
    OpStep(BareLine, BareSpan, 2, [], d + [TruncOne], false, SourceAware, Trunc, "b", None);
    assert d + [TruncOne] + [TruncB] == d + [TruncOne, TruncB];
  }

  const EchoLine: string := "echo >1>b"
  const EchoSpan: seq<Token> := [Token(0, 4, Word), Token(5, 1, Op), Token(6, 1, Word), Token(7, 1, Op), Token(8, 1, Word)]

  lemma EchoTexts()
    ensures TokensIn(EchoLine, EchoSpan)
    ensures Unquote(Text(EchoLine, EchoSpan[0])) == "echo" && Text(EchoLine, EchoSpan[1]) == ">"
    ensures Unquote(Text(EchoLine, EchoSpan[2])) == "1" && Text(EchoLine, EchoSpan[3]) == ">"
    ensures Unquote(Text(EchoLine, EchoSpan[4])) == "b"
  {
    var input := EchoLine;
    assert input[8..9] == [input[8]] == "b";
    UnquotePlain("echo");
    UnquotePlain("1");
    UnquotePlain("b");
    assert Text(EchoLine, EchoSpan[0]) == "echo";
    assert Text(EchoLine, EchoSpan[2]) == "1";
  }

  /** In `echo >1>b` the first `>` has no prefix: a blank separates it
      from `echo`. */
  lemma EchoFirstOpBare()
    ensures TokensIn(EchoLine, EchoSpan)
    ensures Override(EchoLine, EchoSpan, 1, true, AsWritten) == None
    ensures Override(EchoLine, EchoSpan, 1, true, SourceAware) == None
  {
    assert EchoSpan[0].off + EchoSpan[0].len != EchoSpan[1].off;
  }

  /** In `echo >1>b` the word "1" is read as the fd prefix of the second
      `>` as written, but not with the corrected rule. */
  lemma EchoPrefixAsWritten()
    ensures TokensIn(EchoLine, EchoSpan)
    ensures Override(EchoLine, EchoSpan, 3, false, AsWritten) == Some(1)
    ensures Override(EchoLine, EchoSpan, 3, false, SourceAware) == None
  {
    assert EchoLine[6..] == Decimal(1) + ">b";
    StrToLDecimal(1, ">b");
  }

  /** `echo >1>b` as written: the command name is popped in place of "1". */
  lemma CommandNamePoppedAsWritten()
    ensures TokensIn(EchoLine, EchoSpan)
    ensures ParseCommandAsWritten(EchoLine, EchoSpan) == Parsed(Command([None], DefaultRedirs() + [TruncOne, TruncB]))
  {
    var d := DefaultRedirs();
    EchoTexts();
    EchoFirstOpBare();
    EchoPrefixAsWritten();
    WordStep(EchoLine, EchoSpan, 0, [], d, false, AsWritten, "echo");
    OpStep(EchoLine, EchoSpan, 1, [Some("echo")], d, true, AsWritten, Trunc, "1", None);
    OpStep(EchoLine, EchoSpan, 3, [Some("echo")], d + [TruncOne], false, AsWritten, Trunc, "b", Some(1));
    assert [Some("echo")][..0] == [];
    assert d + [TruncOne] + [TruncB] == d + [TruncOne, TruncB];
  }

  /** `echo >1>b` with the corrected rule keeps the command name. */
  lemma CommandNameKeptCorrected()
    ensures TokensIn(EchoLine, EchoSpan)
    ensures ParseCommand(EchoLine, EchoSpan) == Parsed(Command([Some("echo"), None], DefaultRedirs() + [TruncOne, TruncB]))
  {
    var d := DefaultRedirs();
    EchoTexts();
    EchoFirstOpBare();
    EchoPrefixAsWritten();
    WordStep(EchoLine, EchoSpan, 0, [], d, false, SourceAware, "echo");
    OpStep(EchoLine, EchoSpan, 1, [Some("echo")], d, true, SourceAware, Trunc, "1", None);
    OpStep(EchoLine, EchoSpan, 3, [Some("echo")], d + [TruncOne], false, SourceAware, Trunc, "b", None);
    assert d + [TruncOne] + [TruncB] == d + [TruncOne, TruncB];
  }

  /** An empty line tokenizes to the END token alone. */
  lemma BlankLineTokens()
    ensures Tokenize("") == Some([Token(0, 0, End)])
  {
    var s0 := Scanner(NoQuote, Token(0, 0, Word), []);
    assert !CheckQuote(s0.quote, Nul).quoted;
    var f := EndToken(s0.cur, s0.toks);
    assert f.1 + [f.0.(kind := End)] == [Token(0, 0, End)];
    assert Finish(s0) == Some(f.1 + [f.0.(kind := End)]);
  }

  /** A blank line is a syntax error: its only span is empty. */
  lemma BlankLineRejected()
    ensures !Parse("", [Token(0, 0, End)]).ok
    ensures Parse("", [Token(0, 0, End)]).pipeline == []
  {
  }

  const A: Command := Command([Some("a"), None], DefaultRedirs())

  const ThreeStagesToks: seq<Token> :=
    [Token(0, 1, Word), Token(1, 1, Op), Token(2, 1, Word), Token(3, 1, Op), Token(4, 1, Word), Token(5, 0, End)]
  const DoubledPipeToks: seq<Token> := [Token(0, 1, Word), Token(1, 1, Op), Token(2, 1, Op), Token(3, 1, Word), Token(4, 0, End)]
  const LeadingPipeToks: seq<Token> := [Token(0, 1, Op), Token(1, 1, Word), Token(2, 0, End)]
  const TrailingPipeToks: seq<Token> := [Token(0, 1, Word), Token(1, 1, Op), Token(2, 0, End)]

  /** `a|b|c` is a pipeline of three commands. */
  lemma ThreeStages()
    ensures Parse("a|b|c", ThreeStagesToks)
      == ParseResult(true, [A, Command([Some("b"), None], DefaultRedirs()), Command([Some("c"), None], DefaultRedirs())])
  {
    var input := "a|b|c";
    var toks := ThreeStagesToks;
    OneWord(input, toks[0], "a", AsWritten);
    OneWord(input, toks[2], "b", AsWritten);
    OneWord(input, toks[4], "c", AsWritten);
    assert Text(input, toks[1]) == "|" && Text(input, toks[3]) == "|";
    assert toks[0..1] == [toks[0]] && toks[2..3] == [toks[2]] && toks[4..5] == [toks[4]];
  }

  /** `a||b`: the span between the two pipes is empty. */
  lemma DoubledPipeRejected()
    ensures Parse("a||b", DoubledPipeToks)
      == ParseResult(false, [A])
  {
    var input := "a||b";
    var toks := DoubledPipeToks;
    OneWord(input, toks[0], "a", AsWritten);
    assert Text(input, toks[1]) == "|" && Text(input, toks[2]) == "|";
    assert toks[0..1] == [toks[0]];
  }

  /** `|a`: the first span is empty. */
  lemma LeadingPipeRejected()
    ensures Parse("|a", LeadingPipeToks) == ParseResult(false, [])
  {
    assert Text("|a", Token(0, 1, Op)) == "|";
  }

  /** `a|`: the last span is empty; the first command stays in the pipeline
      for the caller to free. */
  lemma TrailingPipeRejected()
    ensures Parse("a|", TrailingPipeToks) == ParseResult(false, [A])
  {
    var input := "a|";
    var toks := TrailingPipeToks;
    OneWord(input, toks[0], "a", AsWritten);
    assert Text(input, toks[1]) == "|";
    assert toks[0..1] == [toks[0]];
  }

  /** The tokens of `cmd 2>&1` up to the fd prefix. */
  lemma CmdLineHead(line: string)
    requires line == "cmd 2>&1"
    ensures Tokenize(line) == Scan(line, 4, Scanner(NoQuote, Token(4, 0, Word), [Token(0, 3, Word)]))
  {
    var t0: seq<Token> := [];
    var t1 := t0 + [Token(0, 3, Word)];
    assert t1 == [Token(0, 3, Word)];
    assert line[0] == 'c' && line[1] == 'm' && line[2] == 'd' && line[3] == ' ' && line[4] == '2' && line[5] == '>' && line[6] == '&' && line[7] == '1';
    assert Tokenize(line) == Scan(line, 1, Scanner(NoQuote, Token(0, 1, Word), t0)) by {
      ScanPlain(line, 0, Token(0, 0, Word), t0);
    }
    assert Scan(line, 1, Scanner(NoQuote, Token(0, 1, Word), t0)) == Scan(line, 2, Scanner(NoQuote, Token(0, 2, Word), t0)) by {
      ScanPlain(line, 1, Token(0, 1, Word), t0);
    }
    assert Scan(line, 2, Scanner(NoQuote, Token(0, 2, Word), t0)) == Scan(line, 3, Scanner(NoQuote, Token(0, 3, Word), t0)) by {
      ScanPlain(line, 2, Token(0, 2, Word), t0);
    }
    assert Scan(line, 3, Scanner(NoQuote, Token(0, 3, Word), t0)) == Scan(line, 4, Scanner(NoQuote, Token(4, 0, Word), t1)) by {
      ScanBlank(line, 3, Token(0, 3, Word), t0);
    }
  }

  /** The tokens of `cmd 2>&1` from the fd prefix on. */
  lemma CmdLineTail(line: string)
    requires line == "cmd 2>&1"
    ensures Scan(line, 4, Scanner(NoQuote, Token(4, 0, Word), [Token(0, 3, Word)])) == Some(CmdSpan + [Token(8, 0, End)])
  {
    var t0: seq<Token> := [Token(0, 3, Word)];
    var t1 := t0 + [Token(4, 1, Word)];
    var t2 := t1 + [Token(5, 2, Op)];
    var t3 := t2 + [Token(7, 1, Word)];
    assert t3 + [Token(8, 0, End)] == CmdSpan + [Token(8, 0, End)];
    assert line[0] == 'c' && line[1] == 'm' && line[2] == 'd' && line[3] == ' ' && line[4] == '2' && line[5] == '>' && line[6] == '&' && line[7] == '1';
    assert Scan(line, 4, Scanner(NoQuote, Token(4, 0, Word), t0)) == Scan(line, 5, Scanner(NoQuote, Token(4, 1, Word), t0)) by {
      ScanPlain(line, 4, Token(4, 0, Word), t0);
    }
    assert Scan(line, 5, Scanner(NoQuote, Token(4, 1, Word), t0)) == Scan(line, 6, Scanner(NoQuote, Token(5, 1, Op), t1)) by {
      ScanOpen(line, 5, Token(4, 1, Word), t0);
    }
    assert Scan(line, 6, Scanner(NoQuote, Token(5, 1, Op), t1)) == Scan(line, 7, Scanner(NoQuote, Token(5, 2, Op), t1)) by {
      ScanExtend(line, 6, Token(5, 1, Op), t1);
    }
    assert Scan(line, 7, Scanner(NoQuote, Token(5, 2, Op), t1)) == Scan(line, 7, Scanner(NoQuote, Token(7, 0, Word), t2)) by {
      ScanAfterOp(line, 7, Token(5, 2, Op), t1);
    }
    assert Scan(line, 7, Scanner(NoQuote, Token(7, 0, Word), t2)) == Scan(line, 8, Scanner(NoQuote, Token(7, 1, Word), t2)) by {
      ScanPlain(line, 7, Token(7, 0, Word), t2);
    }
    ScanEnd(line, Token(7, 1, Word), t2);
  }

  /** tokenize yields the span the `cmd 2>&1` examples parse. */
  lemma CmdLineTokens()
    ensures Tokenize(CmdLine) == Some(CmdSpan + [Token(8, 0, End)])
  {
    CmdLineHead(CmdLine);
    CmdLineTail(CmdLine);
  }

  /** The tokens of `>1>b`. */
  lemma BareLineScan(line: string)
    requires line == ">1>b"
    ensures Tokenize(line) == Some(BareSpan + [Token(4, 0, End)])
  {
    var t0: seq<Token> := [];
    var t1 := t0 + [Token(0, 1, Op)];
    var t2 := t1 + [Token(1, 1, Word)];
    var t3 := t2 + [Token(2, 1, Op)];
    var t4 := t3 + [Token(3, 1, Word)];
    assert t4 + [Token(4, 0, End)] == BareSpan + [Token(4, 0, End)];
    assert line[0] == '>' && line[1] == '1' && line[2] == '>' && line[3] == 'b';
    assert Tokenize(line) == Scan(line, 1, Scanner(NoQuote, Token(0, 1, Op), t0)) by {
      ScanOpen(line, 0, Token(0, 0, Word), t0);
    }
    assert Scan(line, 1, Scanner(NoQuote, Token(0, 1, Op), t0)) == Scan(line, 1, Scanner(NoQuote, Token(1, 0, Word), t1)) by {
      ScanAfterOp(line, 1, Token(0, 1, Op), t0);
    }
    assert Scan(line, 1, Scanner(NoQuote, Token(1, 0, Word), t1)) == Scan(line, 2, Scanner(NoQuote, Token(1, 1, Word), t1)) by {
      ScanPlain(line, 1, Token(1, 0, Word), t1);
    }
    assert Scan(line, 2, Scanner(NoQuote, Token(1, 1, Word), t1)) == Scan(line, 3, Scanner(NoQuote, Token(2, 1, Op), t2)) by {
      ScanOpen(line, 2, Token(1, 1, Word), t1);
    }
    assert Scan(line, 3, Scanner(NoQuote, Token(2, 1, Op), t2)) == Scan(line, 3, Scanner(NoQuote, Token(3, 0, Word), t3)) by {
      ScanAfterOp(line, 3, Token(2, 1, Op), t2);
    }
    assert Scan(line, 3, Scanner(NoQuote, Token(3, 0, Word), t3)) == Scan(line, 4, Scanner(NoQuote, Token(3, 1, Word), t3)) by {
      ScanPlain(line, 3, Token(3, 0, Word), t3);
    }
    ScanEnd(line, Token(3, 1, Word), t3);
  }

  /** tokenize yields the span the `>1>b` examples parse. */
  lemma BareLineTokens()
    ensures Tokenize(BareLine) == Some(BareSpan + [Token(4, 0, End)])
  {
    BareLineScan(BareLine);
  }

  /** The tokens of `echo >1>b` up to the first operator. */
  lemma EchoLineHead(line: string)
    requires line == "echo >1>b"
    ensures Tokenize(line) == Scan(line, 5, Scanner(NoQuote, Token(5, 0, Word), [Token(0, 4, Word)]))
  {
    var t0: seq<Token> := [];
    var t1 := t0 + [Token(0, 4, Word)];
    assert t1 == [Token(0, 4, Word)];
    assert line[0] == 'e' && line[1] == 'c' && line[2] == 'h' && line[3] == 'o' && line[4] == ' ' && line[5] == '>' && line[6] == '1' && line[7] == '>' && line[8] == 'b';
    assert Tokenize(line) == Scan(line, 1, Scanner(NoQuote, Token(0, 1, Word), t0)) by {
      ScanPlain(line, 0, Token(0, 0, Word), t0);
    }
    assert Scan(line, 1, Scanner(NoQuote, Token(0, 1, Word), t0)) == Scan(line, 2, Scanner(NoQuote, Token(0, 2, Word), t0)) by {
      ScanPlain(line, 1, Token(0, 1, Word), t0);
    }
    assert Scan(line, 2, Scanner(NoQuote, Token(0, 2, Word), t0)) == Scan(line, 3, Scanner(NoQuote, Token(0, 3, Word), t0)) by {
      ScanPlain(line, 2, Token(0, 2, Word), t0);
    }
    assert Scan(line, 3, Scanner(NoQuote, Token(0, 3, Word), t0)) == Scan(line, 4, Scanner(NoQuote, Token(0, 4, Word), t0)) by {
      ScanPlain(line, 3, Token(0, 3, Word), t0);
    }
    assert Scan(line, 4, Scanner(NoQuote, Token(0, 4, Word), t0)) == Scan(line, 5, Scanner(NoQuote, Token(5, 0, Word), t1)) by {
      ScanBlank(line, 4, Token(0, 4, Word), t0);
    }
  }

  /** The tokens of `echo >1>b` from the first operator on. */
  lemma EchoLineTail(line: string)
    requires line == "echo >1>b"
    ensures Scan(line, 5, Scanner(NoQuote, Token(5, 0, Word), [Token(0, 4, Word)])) == Some(EchoSpan + [Token(9, 0, End)])
  {
    var t0: seq<Token> := [Token(0, 4, Word)];
    var t1 := t0 + [Token(5, 1, Op)];
    var t2 := t1 + [Token(6, 1, Word)];
    var t3 := t2 + [Token(7, 1, Op)];
    var t4 := t3 + [Token(8, 1, Word)];
    assert t4 + [Token(9, 0, End)] == EchoSpan + [Token(9, 0, End)];
    assert line[0] == 'e' && line[1] == 'c' && line[2] == 'h' && line[3] == 'o' && line[4] == ' ' && line[5] == '>' && line[6] == '1' && line[7] == '>' && line[8] == 'b';
    assert Scan(line, 5, Scanner(NoQuote, Token(5, 0, Word), t0)) == Scan(line, 6, Scanner(NoQuote, Token(5, 1, Op), t0)) by {
      ScanOpen(line, 5, Token(5, 0, Word), t0);
    }
    assert Scan(line, 6, Scanner(NoQuote, Token(5, 1, Op), t0)) == Scan(line, 6, Scanner(NoQuote, Token(6, 0, Word), t1)) by {
      ScanAfterOp(line, 6, Token(5, 1, Op), t0);
    }
    assert Scan(line, 6, Scanner(NoQuote, Token(6, 0, Word), t1)) == Scan(line, 7, Scanner(NoQuote, Token(6, 1, Word), t1)) by {
      ScanPlain(line, 6, Token(6, 0, Word), t1);
    }
    assert Scan(line, 7, Scanner(NoQuote, Token(6, 1, Word), t1)) == Scan(line, 8, Scanner(NoQuote, Token(7, 1, Op), t2)) by {
      ScanOpen(line, 7, Token(6, 1, Word), t1);
    }
    assert Scan(line, 8, Scanner(NoQuote, Token(7, 1, Op), t2)) == Scan(line, 8, Scanner(NoQuote, Token(8, 0, Word), t3)) by {
      ScanAfterOp(line, 8, Token(7, 1, Op), t2);
    }
    assert Scan(line, 8, Scanner(NoQuote, Token(8, 0, Word), t3)) == Scan(line, 9, Scanner(NoQuote, Token(8, 1, Word), t3)) by {
      ScanPlain(line, 8, Token(8, 0, Word), t3);
    }
    ScanEnd(line, Token(8, 1, Word), t3);
  }

  /** tokenize yields the span the `echo >1>b` examples parse. */
  lemma EchoLineTokens()
    ensures Tokenize(EchoLine) == Some(EchoSpan + [Token(9, 0, End)])
  {
    EchoLineHead(EchoLine);
    EchoLineTail(EchoLine);
  }

  /** The tokens of `a|b|c`. */
  lemma ThreeStagesScan(line: string)
    requires line == "a|b|c"
    ensures Tokenize(line) == Some(ThreeStagesToks)
  {
    var t0: seq<Token> := [];
    var t1 := t0 + [Token(0, 1, Word)];
    var t2 := t1 + [Token(1, 1, Op)];
    var t3 := t2 + [Token(2, 1, Word)];
    var t4 := t3 + [Token(3, 1, Op)];
    var t5 := t4 + [Token(4, 1, Word)];
    assert t5 + [Token(5, 0, End)] == ThreeStagesToks;
    assert line[0] == 'a' && line[1] == '|' && line[2] == 'b' && line[3] == '|' && line[4] == 'c';
    assert Tokenize(line) == Scan(line, 1, Scanner(NoQuote, Token(0, 1, Word), t0)) by {
      ScanPlain(line, 0, Token(0, 0, Word), t0);
    }
    assert Scan(line, 1, Scanner(NoQuote, Token(0, 1, Word), t0)) == Scan(line, 2, Scanner(NoQuote, Token(1, 1, Op), t1)) by {
      ScanOpen(line, 1, Token(0, 1, Word), t0);
    }
    assert Scan(line, 2, Scanner(NoQuote, Token(1, 1, Op), t1)) == Scan(line, 2, Scanner(NoQuote, Token(2, 0, Word), t2)) by {
      ScanAfterOp(line, 2, Token(1, 1, Op), t1);
    }
    assert Scan(line, 2, Scanner(NoQuote, Token(2, 0, Word), t2)) == Scan(line, 3, Scanner(NoQuote, Token(2, 1, Word), t2)) by {
      ScanPlain(line, 2, Token(2, 0, Word), t2);
    }
    assert Scan(line, 3, Scanner(NoQuote, Token(2, 1, Word), t2)) == Scan(line, 4, Scanner(NoQuote, Token(3, 1, Op), t3)) by {
      ScanOpen(line, 3, Token(2, 1, Word), t2);
    }
    assert Scan(line, 4, Scanner(NoQuote, Token(3, 1, Op), t3)) == Scan(line, 4, Scanner(NoQuote, Token(4, 0, Word), t4)) by {
      ScanAfterOp(line, 4, Token(3, 1, Op), t3);
    }
    assert Scan(line, 4, Scanner(NoQuote, Token(4, 0, Word), t4)) == Scan(line, 5, Scanner(NoQuote, Token(4, 1, Word), t4)) by {
      ScanPlain(line, 4, Token(4, 0, Word), t4);
    }
    ScanEnd(line, Token(4, 1, Word), t4);
  }

  /** The tokens of `a||b`. */
  lemma DoubledPipeScan(line: string)
    requires line == "a||b"
    ensures Tokenize(line) == Some(DoubledPipeToks)
  {
    var t0: seq<Token> := [];
    var t1 := t0 + [Token(0, 1, Word)];
    var t2 := t1 + [Token(1, 1, Op)];
    var t3 := t2 + [Token(2, 1, Op)];
    var t4 := t3 + [Token(3, 1, Word)];
    assert t4 + [Token(4, 0, End)] == DoubledPipeToks;
    assert line[0] == 'a' && line[1] == '|' && line[2] == '|' && line[3] == 'b';
    assert Tokenize(line) == Scan(line, 1, Scanner(NoQuote, Token(0, 1, Word), t0)) by {
      ScanPlain(line, 0, Token(0, 0, Word), t0);
    }
    assert Scan(line, 1, Scanner(NoQuote, Token(0, 1, Word), t0)) == Scan(line, 2, Scanner(NoQuote, Token(1, 1, Op), t1)) by {
      ScanOpen(line, 1, Token(0, 1, Word), t0);
    }
    assert Scan(line, 2, Scanner(NoQuote, Token(1, 1, Op), t1)) == Scan(line, 2, Scanner(NoQuote, Token(2, 0, Word), t2)) by {
      ScanAfterOp(line, 2, Token(1, 1, Op), t1);
    }
    assert Scan(line, 2, Scanner(NoQuote, Token(2, 0, Word), t2)) == Scan(line, 3, Scanner(NoQuote, Token(2, 1, Op), t2)) by {
      ScanOpen(line, 2, Token(2, 0, Word), t2);
    }
    assert Scan(line, 3, Scanner(NoQuote, Token(2, 1, Op), t2)) == Scan(line, 3, Scanner(NoQuote, Token(3, 0, Word), t3)) by {
      ScanAfterOp(line, 3, Token(2, 1, Op), t2);
    }
    assert Scan(line, 3, Scanner(NoQuote, Token(3, 0, Word), t3)) == Scan(line, 4, Scanner(NoQuote, Token(3, 1, Word), t3)) by {
      ScanPlain(line, 3, Token(3, 0, Word), t3);
    }
    ScanEnd(line, Token(3, 1, Word), t3);
  }

  /** The tokens of `|a`. */
  lemma LeadingPipeScan(line: string)
    requires line == "|a"
    ensures Tokenize(line) == Some(LeadingPipeToks)
  {
    var t0: seq<Token> := [];
    var t1 := t0 + [Token(0, 1, Op)];
    var t2 := t1 + [Token(1, 1, Word)];
    assert t2 + [Token(2, 0, End)] == LeadingPipeToks;
    assert line[0] == '|' && line[1] == 'a';
    assert Tokenize(line) == Scan(line, 1, Scanner(NoQuote, Token(0, 1, Op), t0)) by {
      ScanOpen(line, 0, Token(0, 0, Word), t0);
    }
    assert Scan(line, 1, Scanner(NoQuote, Token(0, 1, Op), t0)) == Scan(line, 1, Scanner(NoQuote, Token(1, 0, Word), t1)) by {
      ScanAfterOp(line, 1, Token(0, 1, Op), t0);
    }
    assert Scan(line, 1, Scanner(NoQuote, Token(1, 0, Word), t1)) == Scan(line, 2, Scanner(NoQuote, Token(1, 1, Word), t1)) by {
      ScanPlain(line, 1, Token(1, 0, Word), t1);
    }
    ScanEnd(line, Token(1, 1, Word), t1);
  }

  /** The tokens of `a|`. */
  lemma TrailingPipeScan(line: string)
    requires line == "a|"
    ensures Tokenize(line) == Some(TrailingPipeToks)
  {
    var t0: seq<Token> := [];
    var t1 := t0 + [Token(0, 1, Word)];
    var t2 := t1 + [Token(1, 1, Op)];
    assert t2 + [Token(2, 0, End)] == TrailingPipeToks;
    assert line[0] == 'a' && line[1] == '|';
    assert Tokenize(line) == Scan(line, 1, Scanner(NoQuote, Token(0, 1, Word), t0)) by {
      ScanPlain(line, 0, Token(0, 0, Word), t0);
    }
    assert Scan(line, 1, Scanner(NoQuote, Token(0, 1, Word), t0)) == Scan(line, 2, Scanner(NoQuote, Token(1, 1, Op), t1)) by {
      ScanOpen(line, 1, Token(0, 1, Word), t0);
    }
    ScanEnd(line, Token(1, 1, Op), t1);
  }

  /** tokenize yields the token lists the pipeline examples parse. */
  lemma PipelineLinesTokens()
    ensures Tokenize("a|b|c") == Some(ThreeStagesToks)
    ensures Tokenize("a||b") == Some(DoubledPipeToks)
    ensures Tokenize("|a") == Some(LeadingPipeToks)
    ensures Tokenize("a|") == Some(TrailingPipeToks)
  {
    ThreeStagesScan("a|b|c");
    DoubledPipeScan("a||b");
    LeadingPipeScan("|a");
    TrailingPipeScan("a|");
  }

  /** `echo "a` ends inside double quotes. */
  lemma EchoOpenQuote()
    ensures QuoteAfter("echo \"a") == DoubleQuote
  {
    var s := "echo \"a";
    assert s[..0] == [];
    QuoteAfterStep(s, 0);
    QuoteAfterStep(s, 1);
    QuoteAfterStep(s, 2);
    QuoteAfterStep(s, 3);
    assert QuoteAfter(s[..4]) == NoQuote;
    QuoteAfterStep(s, 4);
    QuoteAfterStep(s, 5);
    assert QuoteAfter(s[..6]) == DoubleQuote;
    QuoteAfterStep(s, 6);
    assert s[..7] == s;
  }

  /** `echo "a`: the line ends inside double quotes, so tokenize fails. */
  lemma UnterminatedQuoteRejected()
    ensures Tokenize("echo \"a").None?
  {
    EchoOpenQuote();
    TokenizeSpec("echo \"a");
  }

  /** `>>` is one append operator, not two output operators: the split
      list stops the first `>` although the next character extends it. */
  lemma SplitAppendNotWellFormed()
    ensures !WellFormed(">>", [Token(0, 1, Op), Token(1, 1, Op), Token(2, 0, End)])
  {
    var body := [Token(0, 1, Op), Token(1, 1, Op), Token(2, 0, End)][..2];
    assert body[0] == Token(0, 1, Op);
    assert Extends(">>"[0], ">>"[1]);
  }

  /** `ab` is one word, not two: the split list ends the first word at a
      character that does not separate. */
  lemma SplitWordNotWellFormed()
    ensures !WellFormed("ab", [Token(0, 1, Word), Token(1, 1, Word), Token(2, 0, End)])
  {
    var body := [Token(0, 1, Word), Token(1, 1, Word), Token(2, 0, End)][..2];
    assert body[0] == Token(0, 1, Word);
    assert !Separates("ab", 1) by {
      assert !IsBlank('b') && !IsOpChar('b');
    }
  }

  /** The tokens of `cmd 2>&1` are the only well-formed list of spans for
      it: `2` and `>&` are not re-split, and `2` is not joined to `>&`. */
  lemma CmdLineOnlyTokens()
    ensures forall toks :: WellFormed(CmdLine, toks) <==> toks == CmdSpan + [Token(8, 0, End)]
  {
    CmdLineTokens();
    forall toks
      ensures WellFormed(CmdLine, toks) <==> toks == CmdSpan + [Token(8, 0, End)]
    {
      TokenizeExact(CmdLine, toks);
    }
  }

  /** In `x 2a>y` strtol stops at `a`, before the operator, so `2a` is no
      target prefix, under either rule. */
  lemma PartlyNumericWordNoPrefix(policy: OverridePolicy)
    ensures Override("x 2a>y", [Token(0, 1, Word), Token(2, 2, Word), Token(4, 1, Op), Token(5, 1, Word)], 2, true, policy) == None
  {
    var input := "x 2a>y";
    assert input[2..] == "2a>y";
  }
}
