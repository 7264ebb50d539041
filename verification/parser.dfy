/** The parser of parse.c (token_is_op, parse_command, parse): token spans
    separated by `|` and END become commands with typed redirections. */
module Parser {
  import opened Base
  import opened Cmd
  import opened Tokenizer
  import opened QuoteRemoval
  import opened Num

  /** Every token lies inside the input. */
  predicate TokensIn(input: string, toks: seq<Token>) {
    forall i :: 0 <= i < |toks| ==> toks[i].off + toks[i].len <= |input|
  }

  /** token_is_op: an operator token whose text is exactly op. */
  predicate TokenIsOp(input: string, t: Token, op: string)
    requires t.off + t.len <= |input|
  {
    t.kind == Op && Text(input, t) == op
  }

  /** A redirection kind with the descriptor it targets by default. */
  datatype Mapping = Mapping(kind: RedirType, fd: int)

  /** The operator table of parse_command. Operators starting with `<` are
      readable and default to fd 0; those starting with `>` default to fd 1;
      `<>` is the one `<` operator that also writes. Anything else, the
      here-document operator `<<` included, is rejected. */
  function OpMapping(op: string): (m: Option<Mapping>)
    ensures m.Some? <==> op in ["<", ">", ">|", ">>", "<>", "<&", ">&"]
    ensures m.Some? ==> (IsReadable(m.value.kind) <==> op[0] == '<')
    ensures m.Some? ==> (IsWritable(m.value.kind) <==> op[0] == '>' || op == "<>")
    ensures m.Some? ==> m.value.fd == (if op[0] == '<' then StdIn else StdOut)
    ensures m.Some? ==> (IsFd(m.value.kind) <==> op[|op| - 1] == '&')
  {
    if op == "<" then Some(Mapping(FileIn, 0))
    else if op == ">" || op == ">|" then Some(Mapping(FileTrunc, 1))
    else if op == ">>" then Some(Mapping(FileAppend, 1))
    else if op == "<>" then Some(Mapping(FileInOut, 0))
    else if op == "<&" then Some(Mapping(FdIn, 0))
    else if op == ">&" then Some(Mapping(FdOut, 1))
    else None
  }

  /** Which words the fd-number prefix may take. The source takes any word
      that ends where the operator starts (AsWritten); SourceAware takes it
      only when that word was appended as an argument, not consumed as the
      source of the previous redirection. */
  datatype OverridePolicy = AsWritten | SourceAware

  /** The fd-number prefix of the operator at span[i]: the preceding word,
      adjacent to the operator, read by strtol right up to the operator,
      with a value in [0, INT_MAX]. */
  function Override(input: string, span: seq<Token>, i: nat, prevIsArg: bool, policy: OverridePolicy): (fd: Option<int>)
    requires TokensIn(input, span) && i < |span|
    ensures fd.Some? ==> InFdRange(fd.value)
    ensures fd.Some? ==> i > 0 && span[i - 1].kind == Word && span[i - 1].off + span[i - 1].len == span[i].off
    ensures fd.Some? && policy == SourceAware ==> prevIsArg
    ensures fd.Some? ==> fd.value == StrToL(input[span[i - 1].off..]).value
    ensures fd.Some? ==> span[i - 1].off + StrToL(input[span[i - 1].off..]).consumed == span[i].off
    ensures (&& i > 0 && span[i - 1].kind == Word && span[i - 1].off + span[i - 1].len == span[i].off
             && (policy == AsWritten || prevIsArg)
             && span[i - 1].off + StrToL(input[span[i - 1].off..]).consumed == span[i].off
             && InFdRange(StrToL(input[span[i - 1].off..]).value))
            ==> fd.Some?
  {
    if i > 0 && span[i - 1].kind == Word && span[i - 1].off + span[i - 1].len == span[i].off
       && (policy == AsWritten || prevIsArg)
    then
      var cv := StrToL(input[span[i - 1].off..]);
      if span[i - 1].off + cv.consumed == span[i].off && InFdRange(cv.value) then Some(cv.value) else None
    else None
  }

  /** parse_command's outcome. Undefined is the as-written pop of an empty
      argument vector, which has no defined behaviour. */
  datatype Outcome = Parsed(cmd: Command) | SyntaxError | Undefined

  /** The loop of parse_command from token i on, with the arguments and
      redirections built so far; prevIsArg says whether span[i - 1] was
      appended as an argument. */
  function ParseFrom(input: string, span: seq<Token>, i: nat, args: seq<Option<string>>,
                     redirs: seq<Redir>, prevIsArg: bool, policy: OverridePolicy): Outcome
    requires TokensIn(input, span)
    decreases |span| - i
  {
    if i >= |span| then Parsed(Command(args + [None], redirs))
    else if span[i].kind == Word then
      ParseFrom(input, span, i + 1, args + [Some(Unquote(Text(input, span[i])))], redirs, true, policy)
    else if i + 1 == |span| || span[i + 1].kind != Word then SyntaxError
    else if span[i].kind != Op || OpMapping(Text(input, span[i])).None? then SyntaxError
    else
      var m := OpMapping(Text(input, span[i])).value;
      var path := Unquote(Text(input, span[i + 1]));
      var fd := Override(input, span, i, prevIsArg, policy);
      if fd.Some? && |args| == 0 then Undefined
      else
        var args' := if fd.Some? then args[..|args| - 1] else args;
        var toFd := if fd.Some? then fd.value else m.fd;
        ParseFrom(input, span, i + 2, args', redirs + [Redir(m.kind, toFd, -1, Some(path))], false, policy)
  }

  function ParseCommandWith(input: string, span: seq<Token>, policy: OverridePolicy): Outcome
    requires TokensIn(input, span)
  {
    if |span| == 0 then SyntaxError
    else ParseFrom(input, span, 0, CommandInit().args, CommandInit().redirs, false, policy)
  }

  /** parse_command exactly as written. */
  function ParseCommandAsWritten(input: string, span: seq<Token>): Outcome
    requires TokensIn(input, span)
  {
    ParseCommandWith(input, span, AsWritten)
  }

  /** parse_command with the fd-number prefix restricted to argument words. */
  function ParseCommand(input: string, span: seq<Token>): Outcome
    requires TokensIn(input, span)
  {
    ParseCommandWith(input, span, SourceAware)
  }

  /** A token that ends a command: END, or the operator `|`. */
  predicate IsSeparator(input: string, t: Token)
    requires t.off + t.len <= |input|
  {
    t.kind == End || TokenIsOp(input, t, "|")
  }

  /** parse's result: the `bool` it returns and the pipeline it filled. On
      failure the commands of the earlier spans stay in the pipeline for the
      caller to free. UndefinedPop is a span whose parse_command popped an
      empty argument vector: nothing is defined from there on, and the
      pipeline holds the commands before it. */
  datatype ParseResult = ParseResult(ok: bool, pipeline: Pipeline) | UndefinedPop(pipeline: Pipeline)

  function ParseLoop(input: string, toks: seq<Token>, i: nat, last: nat, acc: Pipeline, policy: OverridePolicy): ParseResult
    requires TokensIn(input, toks) && last <= i <= |toks|
    decreases |toks| - i
  {
    if i == |toks| then ParseResult(true, acc)
    else if IsSeparator(input, toks[i]) then
      match ParseCommandWith(input, toks[last..i], policy)
      case Parsed(cmd) => ParseLoop(input, toks, i + 1, i + 1, acc + [cmd], policy)
      case SyntaxError => ParseResult(false, acc)
      case Undefined => UndefinedPop(acc)
    else ParseLoop(input, toks, i + 1, last, acc, policy)
  }

  function ParseWith(input: string, toks: seq<Token>, policy: OverridePolicy): ParseResult
    requires TokensIn(input, toks)
  {
    ParseLoop(input, toks, 0, 0, [], policy)
  }

  /** parse exactly as written. */
  function Parse(input: string, toks: seq<Token>): ParseResult
    requires TokensIn(input, toks)
  {
    ParseWith(input, toks, AsWritten)
  }

  /** parse over the corrected parse_command. */
  function ParseCorrected(input: string, toks: seq<Token>): ParseResult
    requires TokensIn(input, toks)
  {
    ParseWith(input, toks, SourceAware)
  }
}
