/** What parse_command and parse guarantee, proved about the model. */
module ParserProofs {
  import opened Base
  import opened Cmd
  import opened Tokenizer
  import opened QuoteRemoval
  import opened Num
  import opened Parser
  import opened TokenizerProofs
  import opened ParseReference

  lemma FirstErrorAt(input: string, span: seq<Token>, n: nat)
    requires TokensIn(input, span) && n <= |span| && GoodBefore(input, span, n)
    ensures n <= FirstError(input, span, 0)
    ensures n < |span| && !Placed(input, span, n) ==> FirstError(input, span, 0) == n
  {
  }

  lemma GrammaticalIff(input: string, span: seq<Token>)
    requires TokensIn(input, span)
    ensures Grammatical(input, span) <==> FirstError(input, span, 0) == |span|
  {
  }

  /** An argument word pushes its unquoted text and stands for no
      redirection. */
  lemma WordToken(input: string, span: seq<Token>, i: nat, policy: OverridePolicy)
    requires TokensIn(input, span) && i < |span| && span[i].kind == Word
    requires i == 0 || span[i - 1].kind == Word
    ensures Actions(input, span, policy)[i] == Push(Unquote(Text(input, span[i])))
    ensures EntryOpts(input, span, policy)[i] == None
  {
    ActionAt(input, span, i, policy);
    EntryOptAt(input, span, i, policy);
  }

  /** An operator of the grammar pops exactly when it takes a target prefix
      and stands for its redirection; its source word does neither. */
  lemma OpToken(input: string, span: seq<Token>, i: nat, prevIsArg: bool, policy: OverridePolicy)
    requires TokensIn(input, span) && i + 1 < |span| && GoodOp(input, span, i)
    requires prevIsArg == (i > 0 && IsArgWord(span, i - 1))
    ensures var fd := Override(input, span, i, prevIsArg, policy);
      && Actions(input, span, policy)[i] == (if fd.Some? then Pop else Keep)
      && Actions(input, span, policy)[i + 1] == Keep
      && EntryOpts(input, span, policy)[i] == Some(OpEntry(input, span, i, fd))
      && EntryOpts(input, span, policy)[i + 1] == None
  {
    ActionAt(input, span, i, policy);
    ActionAt(input, span, i + 1, policy);
    EntryOptAt(input, span, i, policy);
    EntryOptAt(input, span, i + 1, policy);
  }

  /** One word of parse_command's loop. */
  lemma WordStep(input: string, span: seq<Token>, i: nat, args: seq<Option<string>>, redirs: seq<Redir>,
                 prevIsArg: bool, policy: OverridePolicy, w: string)
    requires TokensIn(input, span) && i < |span| && span[i].kind == Word
    requires Unquote(Text(input, span[i])) == w
    ensures ParseFrom(input, span, i, args, redirs, prevIsArg, policy)
         == ParseFrom(input, span, i + 1, args + [Some(w)], redirs, true, policy)
  {
  }

  /** One redirection of parse_command's loop, given its mapping, its
      source path and its target override. */
  lemma OpStep(input: string, span: seq<Token>, i: nat, args: seq<Option<string>>, redirs: seq<Redir>,
               prevIsArg: bool, policy: OverridePolicy, m: Mapping, path: string, fd: Option<int>)
    requires TokensIn(input, span) && i + 1 < |span| && span[i].kind == Op && span[i + 1].kind == Word
    requires OpMapping(Text(input, span[i])) == Some(m)
    requires Unquote(Text(input, span[i + 1])) == path
    requires Override(input, span, i, prevIsArg, policy) == fd
    ensures fd.Some? && |args| == 0 ==> ParseFrom(input, span, i, args, redirs, prevIsArg, policy) == Undefined
    ensures !(fd.Some? && |args| == 0) ==>
      ParseFrom(input, span, i, args, redirs, prevIsArg, policy)
        == ParseFrom(input, span, i + 2, if fd.Some? then args[..|args| - 1] else args,
                     redirs + [Redir(m.kind, if fd.Some? then fd.value else m.fd, -1, Some(path))], false, policy)
  {
  }

  /** What ParseFromExpected keeps at token i: the tokens before i follow
      the grammar, and the loop holds the arguments and redirections the
      reference gives for them. */
  predicate Reached(input: string, span: seq<Token>, i: nat, args: seq<Option<string>>,
                    redirs: seq<Redir>, prevIsArg: bool, policy: OverridePolicy)
  {
    && TokensIn(input, span) && 0 < |span| && i <= |span|
    && (i == 0 || span[i - 1].kind == Word)
    && prevIsArg == (i > 0 && IsArgWord(span, i - 1))
    && GoodBefore(input, span, i) && Stack(Actions(input, span, policy), i) == Some(args)
    && redirs == CommandInit().redirs + Collect(EntryOpts(input, span, policy), i)
  }

  /** The arguments left after an operator whose target prefix is fd. */
  function AfterPop(args: seq<Option<string>>, fd: Option<int>): seq<Option<string>>
    requires fd.Some? ==> |args| > 0
  {
    if fd.Some? then args[..|args| - 1] else args
  }

  /** The entry parse_command appends for the operator at i. */
  function OpEntry(input: string, span: seq<Token>, i: nat, fd: Option<int>): Redir
    requires TokensIn(input, span) && i + 1 < |span| && GoodOp(input, span, i)
  {
    var m := OpMapping(Text(input, span[i])).value;
    Redir(m.kind, if fd.Some? then fd.value else m.fd, -1, Some(Unquote(Text(input, span[i + 1]))))
  }

  /** The end case of ParseFromExpected. */
  lemma EndCase(input: string, span: seq<Token>, args: seq<Option<string>>, redirs: seq<Redir>,
                prevIsArg: bool, policy: OverridePolicy)
    requires Reached(input, span, |span|, args, redirs, prevIsArg, policy)
    ensures ParseFrom(input, span, |span|, args, redirs, prevIsArg, policy) == Expected(input, span, policy)
  {
    FirstErrorAt(input, span, |span|);
  }

  /** The syntax-error case of ParseFromExpected. */
  lemma BadCase(input: string, span: seq<Token>, i: nat, args: seq<Option<string>>, redirs: seq<Redir>,
                prevIsArg: bool, policy: OverridePolicy)
    requires Reached(input, span, i, args, redirs, prevIsArg, policy)
    requires i < |span| && span[i].kind != Word && !GoodOp(input, span, i)
    ensures ParseFrom(input, span, i, args, redirs, prevIsArg, policy) == SyntaxError
    ensures Expected(input, span, policy) == SyntaxError
  {
    FirstErrorAt(input, span, i);
  }

  /** The word case of ParseFromExpected. */
  lemma WordCase(input: string, span: seq<Token>, i: nat, args: seq<Option<string>>,
                 redirs: seq<Redir>, prevIsArg: bool, policy: OverridePolicy)
    requires Reached(input, span, i, args, redirs, prevIsArg, policy) && i < |span| && span[i].kind == Word
    ensures Reached(input, span, i + 1, args + [Some(Unquote(Text(input, span[i])))], redirs, true, policy)
    ensures ParseFrom(input, span, i, args, redirs, prevIsArg, policy)
         == ParseFrom(input, span, i + 1, args + [Some(Unquote(Text(input, span[i])))], redirs, true, policy)
  {
    WordToken(input, span, i, policy);
    assert Collect(EntryOpts(input, span, policy), i + 1) == Collect(EntryOpts(input, span, policy), i) + [];
    WordStep(input, span, i, args, redirs, prevIsArg, policy, Unquote(Text(input, span[i])));
  }

  /** The operator case of ParseFromExpected, when the pop is defined. */
  lemma OpCase(input: string, span: seq<Token>, i: nat, args: seq<Option<string>>,
               redirs: seq<Redir>, prevIsArg: bool, policy: OverridePolicy)
    requires Reached(input, span, i, args, redirs, prevIsArg, policy) && i + 1 < |span| && GoodOp(input, span, i)
    requires var fd := Override(input, span, i, prevIsArg, policy); !(fd.Some? && |args| == 0)
    ensures var fd := Override(input, span, i, prevIsArg, policy);
      Reached(input, span, i + 2, AfterPop(args, fd), redirs + [OpEntry(input, span, i, fd)], false, policy)
  {
    var fd := Override(input, span, i, prevIsArg, policy);
    OpToken(input, span, i, prevIsArg, policy);
    GoodBeforeStep(input, span, i);
    GoodBeforeStep(input, span, i + 1);
    StackAfterOp(Actions(input, span, policy), i, args, fd);
    CollectAfterOp(EntryOpts(input, span, policy), i, OpEntry(input, span, i, fd));
  }

  /** The argument stack across an operator and its source word. */
  lemma StackAfterOp(acts: seq<ArgAction>, i: nat, args: seq<Option<string>>, fd: Option<int>)
    requires i + 1 < |acts| && Stack(acts, i) == Some(args) && !(fd.Some? && |args| == 0)
    requires acts[i] == (if fd.Some? then Pop else Keep) && acts[i + 1] == Keep
    ensures Stack(acts, i + 2) == Some(AfterPop(args, fd))
  {
    assert Stack(acts, i + 1) == Some(AfterPop(args, fd));
  }

  /** The collected entries across an operator and its source word. */
  lemma CollectAfterOp<T>(opts: seq<Option<T>>, i: nat, e: T)
    requires i + 1 < |opts| && opts[i] == Some(e) && opts[i + 1] == None
    ensures Collect(opts, i + 2) == Collect(opts, i) + [e]
  {
    assert Collect(opts, i + 2) == Collect(opts, i) + [e] + [];
  }

  /** The operator case of ParseFromExpected, when the pop finds no argument. */
  lemma UndefinedCase(input: string, span: seq<Token>, i: nat, prevIsArg: bool, policy: OverridePolicy)
    requires TokensIn(input, span) && i + 1 < |span| && GoodOp(input, span, i)
    requires prevIsArg == (i > 0 && IsArgWord(span, i - 1))
    requires GoodBefore(input, span, i) && Stack(Actions(input, span, policy), i) == Some([])
    requires Override(input, span, i, prevIsArg, policy).Some?
    ensures Expected(input, span, policy) == Undefined
  {
    var acts := Actions(input, span, policy);
    assert Stack(acts, i + 1).None? by {
      OpToken(input, span, i, prevIsArg, policy);
    }
    var e := FirstError(input, span, 0);
    assert i + 1 <= e by {
      GoodBeforeStep(input, span, i);
      FirstErrorAt(input, span, i + 1);
    }
    StackNoneStays(acts, i + 1, e);
  }

  /** The operator branch of ParseFromExpected, given what the loop reaches
      after the operator and its source. */
  lemma OpBranch(input: string, span: seq<Token>, i: nat, args: seq<Option<string>>,
                 redirs: seq<Redir>, prevIsArg: bool, policy: OverridePolicy)
    requires Reached(input, span, i, args, redirs, prevIsArg, policy) && i + 1 < |span| && GoodOp(input, span, i)
    requires var fd := Override(input, span, i, prevIsArg, policy);
      !(fd.Some? && |args| == 0) ==>
        ParseFrom(input, span, i + 2, AfterPop(args, fd), redirs + [OpEntry(input, span, i, fd)], false, policy)
        == Expected(input, span, policy)
    ensures ParseFrom(input, span, i, args, redirs, prevIsArg, policy) == Expected(input, span, policy)
  {
    var m := OpMapping(Text(input, span[i])).value;
    var fd := Override(input, span, i, prevIsArg, policy);
    OpStep(input, span, i, args, redirs, prevIsArg, policy, m, Unquote(Text(input, span[i + 1])), fd);
    if fd.Some? && |args| == 0 {
      UndefinedCase(input, span, i, prevIsArg, policy);
    }
  }

  /** From any point of parse_command's loop that follows the grammar, with
      the arguments and redirections the reference gives for the tokens
      before it, the loop reaches the reference outcome. */
  lemma {:induction false} ParseFromExpected(input: string, span: seq<Token>, i: nat, args: seq<Option<string>>,
                                             redirs: seq<Redir>, prevIsArg: bool, policy: OverridePolicy)
    requires Reached(input, span, i, args, redirs, prevIsArg, policy)
    ensures ParseFrom(input, span, i, args, redirs, prevIsArg, policy) == Expected(input, span, policy)
    decreases |span| - i
  {
    if i == |span| {
      EndCase(input, span, args, redirs, prevIsArg, policy);
    } else if span[i].kind == Word {
      WordCase(input, span, i, args, redirs, prevIsArg, policy);
      ParseFromExpected(input, span, i + 1, args + [Some(Unquote(Text(input, span[i])))], redirs, true, policy);
    } else if !GoodOp(input, span, i) {
      BadCase(input, span, i, args, redirs, prevIsArg, policy);
    } else {
      var fd := Override(input, span, i, prevIsArg, policy);
      if !(fd.Some? && |args| == 0) {
        OpCase(input, span, i, args, redirs, prevIsArg, policy);
        ParseFromExpected(input, span, i + 2, AfterPop(args, fd), redirs + [OpEntry(input, span, i, fd)], false, policy);
      }
      OpBranch(input, span, i, args, redirs, prevIsArg, policy);
    }
  }

  /** parse_command, under either prefix rule, is the reference outcome. */
  lemma ParseCommandExpected(input: string, span: seq<Token>, policy: OverridePolicy)
    requires TokensIn(input, span)
    ensures ParseCommandWith(input, span, policy) == Expected(input, span, policy)
  {
    if |span| > 0 {
      assert CommandInit().redirs + Collect(EntryOpts(input, span, policy), 0) == CommandInit().redirs;
      assert Reached(input, span, 0, [], CommandInit().redirs, false, policy);
      ParseFromExpected(input, span, 0, [], CommandInit().redirs, false, policy);
    }
  }

  /** parse_command under either rule: which outcome a span gets. A span is
      a syntax error when it is empty or breaks the grammar before any
      undefined pop. The pop is undefined when an operator takes a target
      prefix while the argument vector is empty, before the first grammar
      error. Otherwise the command holds the argument vector with its NULL,
      and the three defaults followed by one entry per operator. */
  lemma ParseCommandOutcome(input: string, span: seq<Token>, policy: OverridePolicy)
    requires TokensIn(input, span)
    ensures var r := ParseCommandWith(input, span, policy);
      var e := FirstError(input, span, 0); var acts := Actions(input, span, policy);
      && (r.SyntaxError? <==> |span| == 0 || (!Grammatical(input, span) && Stack(acts, e).Some?))
      && (r.Undefined? <==> |span| > 0 && exists j :: 0 <= j < e && EmptyPop(acts, j))
      && (r.Parsed? <==> |span| > 0 && Grammatical(input, span) && Stack(acts, |span|).Some?)
      && (r.Parsed? ==> r.cmd == Command(Stack(acts, |span|).value + [None],
                                         CommandInit().redirs + Collect(EntryOpts(input, span, policy), |span|)))
  {
    ParseCommandExpected(input, span, policy);
    GrammaticalIff(input, span);
    PopsEmpty(Actions(input, span, policy), FirstError(input, span, 0));
  }

  /** The number of operators before n. */
  function OpsBefore(span: seq<Token>, n: nat): nat
    requires n <= |span|
  {
    if n == 0 then 0 else OpsBefore(span, n - 1) + (if span[n - 1].kind == Word then 0 else 1)
  }

  /** In the grammar, the operators are exactly the tokens standing for a
      redirection. */
  lemma {:induction false} PresentOps(input: string, span: seq<Token>, n: nat, policy: OverridePolicy)
    requires TokensIn(input, span) && n <= |span| && GoodBefore(input, span, n)
    ensures Present(EntryOpts(input, span, policy), n) == OpsBefore(span, n)
    decreases n
  {
    if n > 0 {
      PresentOps(input, span, n - 1, policy);
      assert Placed(input, span, n - 1);
      EntryOptAt(input, span, n - 1, policy);
    }
  }

  /** r is the redirection of the operator at span[j]: the operator's kind,
      no source descriptor yet, the unquoted next word as its source path,
      and as target the prefix the operator takes, or else its default
      descriptor. */
  predicate Describes(input: string, span: seq<Token>, j: nat, policy: OverridePolicy, r: Redir)
    requires TokensIn(input, span) && j < |span|
  {
    && j + 1 < |span| && OpMapping(Text(input, span[j])).Some?
    && r.kind == OpMapping(Text(input, span[j])).value.kind && r.fromFd == -1
    && r.fromPath == Some(Unquote(Text(input, span[j + 1])))
    && r.toFd == (match Prefix(input, span, j, policy)
                  case Some(fd) => fd
                  case None => OpMapping(Text(input, span[j])).value.fd)
  }

  lemma EntryDescribes(input: string, span: seq<Token>, j: nat, policy: OverridePolicy)
    requires TokensIn(input, span) && j < |span| && GoodOp(input, span, j)
    ensures EntryOpts(input, span, policy)[j] == Some(Entry(input, span, j, policy))
    ensures Describes(input, span, j, policy, Entry(input, span, j, policy))
  {
    EntryOptAt(input, span, j, policy);
  }

  /** A grammatical span's redirections, after the three defaults: one per
      operator, the k-th operator's entry at index k, each describing its
      operator. */
  lemma ParsedRedirs(input: string, span: seq<Token>, policy: OverridePolicy)
    requires TokensIn(input, span) && Grammatical(input, span)
    ensures var rs := Collect(EntryOpts(input, span, policy), |span|);
      && |rs| == OpsBefore(span, |span|)
      && forall j :: 0 <= j < |span| && span[j].kind != Word ==>
           OpsBefore(span, j) < |rs| && Describes(input, span, j, policy, rs[OpsBefore(span, j)])
  {
    var opts := EntryOpts(input, span, policy);
    CollectLength(opts, |span|);
    PresentOps(input, span, |span|, policy);
    forall j | 0 <= j < |span| && span[j].kind != Word
      ensures OpsBefore(span, j) < |Collect(opts, |span|)|
      ensures Describes(input, span, j, policy, Collect(opts, |span|)[OpsBefore(span, j)])
    {
      assert Placed(input, span, j);
      EntryDescribes(input, span, j, policy);
      PresentOps(input, span, j, policy);
      CollectAt(opts, |span|, j);
    }
  }

  /** Every parsed entry has no source descriptor yet, a source path, and a
      target in [0, INT_MAX]. */
  lemma EntriesShape(input: string, span: seq<Token>, policy: OverridePolicy)
    requires TokensIn(input, span)
    ensures var rs := Collect(EntryOpts(input, span, policy), |span|);
      forall k :: 0 <= k < |rs| ==> rs[k].fromFd == -1 && rs[k].fromPath.Some? && InFdRange(rs[k].toFd)
  {
    var opts := EntryOpts(input, span, policy);
    var rs := Collect(opts, |span|);
    forall k | 0 <= k < |rs|
      ensures rs[k].fromFd == -1 && rs[k].fromPath.Some? && InFdRange(rs[k].toFd)
    {
      CollectFrom(opts, |span|, k);
      var j :| 0 <= j < |span| && opts[j] == Some(rs[k]);
      EntryOptAt(input, span, j, policy);
      EntryDescribes(input, span, j, policy);
    }
  }

  /** Under the corrected rule every pop undoes the push right before it:
      the operator takes its prefix only from an argument word. */
  lemma CorrectedPops(input: string, span: seq<Token>)
    requires TokensIn(input, span)
    ensures PopsFollowPushes(Actions(input, span, SourceAware))
  {
    var acts := Actions(input, span, SourceAware);
    forall j | 0 <= j < |acts|
      ensures PopAfterPush(acts, j)
    {
      ActionAt(input, span, j, SourceAware);
      if acts[j] == Pop {
        assert IsArgWord(span, j - 1);
        ActionAt(input, span, j - 1, SourceAware);
      }
    }
  }

  /** The corrected arguments: the argument words, unquoted and in order,
      but for those an operator right after takes as its target prefix. */
  function KeptArgs(input: string, span: seq<Token>): seq<Option<string>>
    requires TokensIn(input, span)
  {
    Kept(Actions(input, span, SourceAware), |span|)
  }

  /** parse_command with the corrected rule: never undefined; a syntax error
      exactly on an empty span or one that breaks the grammar; otherwise the
      kept argument words then NULL, and the three defaults followed by one
      entry per operator. */
  lemma ParseCommandSpec(input: string, span: seq<Token>)
    requires TokensIn(input, span)
    ensures ParseCommand(input, span) != Undefined
    ensures ParseCommand(input, span).SyntaxError? <==> |span| == 0 || !Grammatical(input, span)
    ensures var r := ParseCommand(input, span);
      r.Parsed? ==> r.cmd == Command(KeptArgs(input, span) + [None],
                                     CommandInit().redirs + Collect(EntryOpts(input, span, SourceAware), |span|))
  {
    var acts := Actions(input, span, SourceAware);
    ParseCommandOutcome(input, span, SourceAware);
    CorrectedPops(input, span);
    StackKept(acts, FirstError(input, span, 0));
    StackKept(acts, |span|);
    assert KeptArgs(input, span) + Pending(acts, |span|) == KeptArgs(input, span);
  }

  /** parse_command as written: undefined exactly when an operator takes a
      target prefix while the argument vector is empty, before the first
      grammar error; a syntax error on an empty span or a grammar error met
      first; otherwise the argument vector, whose pops may remove a word
      other than the prefix, then NULL, and one entry per operator. */
  lemma ParseCommandAsWrittenSpec(input: string, span: seq<Token>)
    requires TokensIn(input, span)
    ensures var acts := Actions(input, span, AsWritten);
      ParseCommandAsWritten(input, span).Undefined? <==>
        |span| > 0 && exists j :: 0 <= j < FirstError(input, span, 0) && EmptyPop(acts, j)
    ensures ParseCommandAsWritten(input, span).SyntaxError? <==>
      |span| == 0 || (!Grammatical(input, span) && Stack(Actions(input, span, AsWritten), FirstError(input, span, 0)).Some?)
    ensures ParseCommandAsWritten(input, span).Parsed? <==>
      |span| > 0 && Grammatical(input, span) && Stack(Actions(input, span, AsWritten), |span|).Some?
    ensures var r := ParseCommandAsWritten(input, span);
      r.Parsed? ==> r.cmd == Command(Stack(Actions(input, span, AsWritten), |span|).value + [None],
                                     CommandInit().redirs + Collect(EntryOpts(input, span, AsWritten), |span|))
  {
    ParseCommandOutcome(input, span, AsWritten);
  }

  /** No operator takes a prefix from a word that is not an argument. */
  predicate NoSourcePrefix(input: string, span: seq<Token>)
    requires TokensIn(input, span)
  {
    forall j :: 0 <= j < |span| ==> SourcePrefixFree(input, span, j)
  }

  predicate SourcePrefixFree(input: string, span: seq<Token>, j: nat)
    requires TokensIn(input, span) && j < |span|
  {
    !(j > 0 && IsArgWord(span, j - 1)) ==> Prefix(input, span, j, AsWritten).None?
  }

  lemma PrefixAgrees(input: string, span: seq<Token>, j: nat)
    requires TokensIn(input, span) && j < |span| && SourcePrefixFree(input, span, j)
    ensures Prefix(input, span, j, AsWritten) == Prefix(input, span, j, SourceAware)
    ensures Actions(input, span, AsWritten)[j] == Actions(input, span, SourceAware)[j]
    ensures EntryOpts(input, span, AsWritten)[j] == EntryOpts(input, span, SourceAware)[j]
  {
    ActionAt(input, span, j, AsWritten);
    ActionAt(input, span, j, SourceAware);
    EntryOptAt(input, span, j, AsWritten);
    EntryOptAt(input, span, j, SourceAware);
  }

  /** The two rules differ only where an operator takes its prefix from a
      word that is not an argument: elsewhere parse_command as written is
      the corrected one. */
  lemma AsWrittenAgrees(input: string, span: seq<Token>)
    requires TokensIn(input, span) && NoSourcePrefix(input, span)
    ensures ParseCommandAsWritten(input, span) == ParseCommand(input, span)
  {
    forall j | 0 <= j < |span|
      ensures Actions(input, span, AsWritten)[j] == Actions(input, span, SourceAware)[j]
      ensures EntryOpts(input, span, AsWritten)[j] == EntryOpts(input, span, SourceAware)[j]
    {
      assert SourcePrefixFree(input, span, j);
      PrefixAgrees(input, span, j);
    }
    assert Actions(input, span, AsWritten) == Actions(input, span, SourceAware);
    assert EntryOpts(input, span, AsWritten) == EntryOpts(input, span, SourceAware);
    ParseCommandExpected(input, span, AsWritten);
    ParseCommandExpected(input, span, SourceAware);
  }

  /** Index of the first separator, or the length when there is none. */
  function FirstSeparator(input: string, toks: seq<Token>): (k: nat)
    requires TokensIn(input, toks)
    ensures k <= |toks|
    ensures forall j :: 0 <= j < k ==> !IsSeparator(input, toks[j])
    ensures k < |toks| ==> IsSeparator(input, toks[k])
    decreases |toks|
  {
    if |toks| == 0 then 0
    else if IsSeparator(input, toks[0]) then 0
    else 1 + FirstSeparator(input, toks[1..])
  }

  /** The command spans of a token list: the runs of tokens each closed by
      a separator; tokens after the last separator belong to no span. */
  function Spans(input: string, toks: seq<Token>): (sp: seq<seq<Token>>)
    requires TokensIn(input, toks)
    ensures forall k :: 0 <= k < |sp| ==> TokensIn(input, sp[k])
    decreases |toks|
  {
    var k := FirstSeparator(input, toks);
    if k == |toks| then [] else [toks[..k]] + Spans(input, toks[k + 1..])
  }

  /** The pipeline r reached from the commands acc: the commands of the
      spans sp in order, up to and excluding the first span that does not
      parse; r is a success exactly when every span parsed, a failure when
      that span is a syntax error, and UndefinedPop when it is undefined. */
  predicate PipelineMatches(input: string, r: ParseResult, acc: Pipeline, sp: seq<seq<Token>>, policy: OverridePolicy)
    requires forall k :: 0 <= k < |sp| ==> TokensIn(input, sp[k])
  {
    && |acc| <= |r.pipeline| <= |acc| + |sp|
    && r.pipeline[..|acc|] == acc
    && (forall k :: 0 <= k < |r.pipeline| - |acc| ==>
          ParseCommandWith(input, sp[k], policy) == Parsed(r.pipeline[|acc| + k]))
    && (r == ParseResult(true, r.pipeline) <==> |r.pipeline| == |acc| + |sp|)
    && (r == ParseResult(false, r.pipeline) ==> ParseCommandWith(input, sp[|r.pipeline| - |acc|], policy).SyntaxError?)
    && (r.UndefinedPop? ==> ParseCommandWith(input, sp[|r.pipeline| - |acc|], policy).Undefined?)
  }

  lemma MatchesStep(input: string, r: ParseResult, acc: Pipeline, cmd: Command, span: seq<Token>,
                    sp: seq<seq<Token>>, policy: OverridePolicy)
    requires TokensIn(input, span) && forall k :: 0 <= k < |sp| ==> TokensIn(input, sp[k])
    requires ParseCommandWith(input, span, policy) == Parsed(cmd)
    requires PipelineMatches(input, r, acc + [cmd], sp, policy)
    ensures PipelineMatches(input, r, acc, [span] + sp, policy)
  {
    var sp' := [span] + sp;
    assert r.pipeline[..|acc|] == r.pipeline[..|acc| + 1][..|acc|];
    forall k | 0 <= k < |r.pipeline| - |acc|
      ensures ParseCommandWith(input, sp'[k], policy) == Parsed(r.pipeline[|acc| + k])
    {
      if k == 0 {
        assert r.pipeline[|acc|] == r.pipeline[..|acc| + 1][|acc|];
      } else {
        assert sp'[k] == sp[k - 1];
      }
    }
    assert sp'[|r.pipeline| - |acc|..] == sp[|r.pipeline| - |acc| - 1..];
  }

  /** Tokens with no separator among them close no span. */
  lemma SpansAtEnd(input: string, toks: seq<Token>, last: nat)
    requires TokensIn(input, toks) && last <= |toks|
    requires forall j :: last <= j < |toks| ==> !IsSeparator(input, toks[j])
    ensures Spans(input, toks[last..]) == []
  {
    var rest := toks[last..];
    assert forall j :: 0 <= j < |rest| ==> rest[j] == toks[last + j];
  }

  /** A first separator at `k` closes the first span. */
  lemma SpansAtFirst(input: string, rest: seq<Token>, k: nat)
    requires TokensIn(input, rest) && k < |rest| && IsSeparator(input, rest[k])
    requires forall j :: 0 <= j < k ==> !IsSeparator(input, rest[j])
    ensures Spans(input, rest) == [rest[..k]] + Spans(input, rest[k + 1..])
  {
    var f := FirstSeparator(input, rest);
    assert f == k;
  }

  /** The first separator at `i` closes the span `toks[last..i]`. */
  lemma SpansAtSeparator(input: string, toks: seq<Token>, last: nat, i: nat)
    requires TokensIn(input, toks) && last <= i < |toks| && IsSeparator(input, toks[i])
    requires forall j :: last <= j < i ==> !IsSeparator(input, toks[j])
    ensures Spans(input, toks[last..]) == [toks[last..i]] + Spans(input, toks[i + 1..])
  {
    var rest := toks[last..];
    assert rest[..i - last] == toks[last..i];
    assert rest[i - last + 1..] == toks[i + 1..];
    forall j | 0 <= j < i - last
      ensures !IsSeparator(input, rest[j])
    {
      assert rest[j] == toks[last + j];
    }
    SpansAtFirst(input, rest, i - last);
  }

  /** One iteration of parse's loop. */
  lemma LoopStep(input: string, toks: seq<Token>, i: nat, last: nat, acc: Pipeline, policy: OverridePolicy)
    requires TokensIn(input, toks) && last <= i < |toks|
    ensures !IsSeparator(input, toks[i]) ==>
      ParseLoop(input, toks, i, last, acc, policy) == ParseLoop(input, toks, i + 1, last, acc, policy)
    ensures IsSeparator(input, toks[i]) && ParseCommandWith(input, toks[last..i], policy).Parsed? ==>
      var cmd := ParseCommandWith(input, toks[last..i], policy).cmd;
      ParseLoop(input, toks, i, last, acc, policy) == ParseLoop(input, toks, i + 1, i + 1, acc + [cmd], policy)
    ensures IsSeparator(input, toks[i]) && ParseCommandWith(input, toks[last..i], policy).SyntaxError? ==>
      ParseLoop(input, toks, i, last, acc, policy) == ParseResult(false, acc)
    ensures IsSeparator(input, toks[i]) && ParseCommandWith(input, toks[last..i], policy).Undefined? ==>
      ParseLoop(input, toks, i, last, acc, policy) == UndefinedPop(acc)
  {
  }

  /** A first span that does not parse stops the pipeline at `acc`. */
  lemma MatchesFail(input: string, acc: Pipeline, sp: seq<seq<Token>>, policy: OverridePolicy)
    requires |sp| > 0 && forall k :: 0 <= k < |sp| ==> TokensIn(input, sp[k])
    requires !ParseCommandWith(input, sp[0], policy).Parsed?
    ensures ParseCommandWith(input, sp[0], policy).SyntaxError? ==>
      PipelineMatches(input, ParseResult(false, acc), acc, sp, policy)
    ensures ParseCommandWith(input, sp[0], policy).Undefined? ==>
      PipelineMatches(input, UndefinedPop(acc), acc, sp, policy)
  {
    assert acc[..|acc|] == acc;
  }

  /** With no span left the pipeline is complete at `acc`. */
  lemma MatchesDone(input: string, acc: Pipeline, policy: OverridePolicy)
    ensures PipelineMatches(input, ParseResult(true, acc), acc, [], policy)
  {
    assert acc[..|acc|] == acc;
  }

  /** A separator at `i` closes a span; from what the rest of the loop
      reaches, the whole loop's result matches the spans from `last`. */
  lemma SeparatorCase(input: string, toks: seq<Token>, i: nat, last: nat, acc: Pipeline, policy: OverridePolicy)
    requires TokensIn(input, toks) && last <= i < |toks| && IsSeparator(input, toks[i])
    requires forall j :: last <= j < i ==> !IsSeparator(input, toks[j])
    requires var c := ParseCommandWith(input, toks[last..i], policy);
      c.Parsed? ==>
        PipelineMatches(input, ParseLoop(input, toks, i + 1, i + 1, acc + [c.cmd], policy), acc + [c.cmd],
                        Spans(input, toks[i + 1..]), policy)
    ensures PipelineMatches(input, ParseLoop(input, toks, i, last, acc, policy), acc, Spans(input, toks[last..]), policy)
  {
    LoopStep(input, toks, i, last, acc, policy);
    SpansAtSeparator(input, toks, last, i);
    var span := toks[last..i];
    var sp := Spans(input, toks[i + 1..]);
    match ParseCommandWith(input, span, policy)
    case Parsed(cmd) =>
      MatchesStep(input, ParseLoop(input, toks, i + 1, i + 1, acc + [cmd], policy), acc, cmd, span, sp, policy);
    case _ =>
      MatchesFail(input, acc, [span] + sp, policy);
  }

  lemma {:induction false} ParseLoopSpec(input: string, toks: seq<Token>, i: nat, last: nat, acc: Pipeline,
                                         policy: OverridePolicy)
    requires TokensIn(input, toks) && last <= i <= |toks|
    requires forall j :: last <= j < i ==> !IsSeparator(input, toks[j])
    ensures PipelineMatches(input, ParseLoop(input, toks, i, last, acc, policy), acc, Spans(input, toks[last..]), policy)
    decreases |toks| - i
  {
    if i == |toks| {
      SpansAtEnd(input, toks, last);
      MatchesDone(input, acc, policy);
    } else if IsSeparator(input, toks[i]) {
      var c := ParseCommandWith(input, toks[last..i], policy);
      if c.Parsed? {
        ParseLoopSpec(input, toks, i + 1, i + 1, acc + [c.cmd], policy);
      }
      SeparatorCase(input, toks, i, last, acc, policy);
    } else {
      LoopStep(input, toks, i, last, acc, policy);
      ParseLoopSpec(input, toks, i + 1, last, acc, policy);
    }
  }

  /** parse, under either prefix rule: on success one command per span, in
      order; otherwise the commands of the spans before the first one that
      does not parse, which is a syntax error on failure and an undefined
      pop on UndefinedPop. */
  lemma ParseSpec(input: string, toks: seq<Token>, policy: OverridePolicy)
    requires TokensIn(input, toks)
    ensures var r := ParseWith(input, toks, policy); var sp := Spans(input, toks);
      && (r == ParseResult(true, r.pipeline) <==> |r.pipeline| == |sp|)
      && (r == ParseResult(false, r.pipeline) ==>
            |r.pipeline| < |sp| && ParseCommandWith(input, sp[|r.pipeline|], policy).SyntaxError?)
      && (r.UndefinedPop? ==> |r.pipeline| < |sp| && ParseCommandWith(input, sp[|r.pipeline|], policy).Undefined?)
      && (forall k :: 0 <= k < |r.pipeline| ==> ParseCommandWith(input, sp[k], policy) == Parsed(r.pipeline[k]))
  {
    assert toks[0..] == toks;
    ParseLoopSpec(input, toks, 0, 0, [], policy);
    var r := ParseWith(input, toks, policy);
    var sp := Spans(input, toks);
    assert PipelineMatches(input, r, [], sp, policy);
    forall k | 0 <= k < |r.pipeline|
      ensures ParseCommandWith(input, sp[k], policy) == Parsed(r.pipeline[k])
    {
      assert ParseCommandWith(input, sp[k], policy) == Parsed(r.pipeline[0 + k]);
    }
  }

  /** The corrected parse is never undefined, and succeeds exactly when every
      span is non-empty and follows the grammar. */
  lemma ParseCorrectedSpec(input: string, toks: seq<Token>)
    requires TokensIn(input, toks)
    ensures ParseCorrected(input, toks).ParseResult?
    ensures var sp := Spans(input, toks);
      ParseCorrected(input, toks).ok <==> forall k :: 0 <= k < |sp| ==> |sp[k]| > 0 && Grammatical(input, sp[k])
  {
    var r := ParseCorrected(input, toks);
    var sp := Spans(input, toks);
    ParseSpec(input, toks, SourceAware);
    forall k | 0 <= k < |sp|
      ensures ParseCommand(input, sp[k]).Parsed? <==> |sp[k]| > 0 && Grammatical(input, sp[k])
    {
      ParseCommandSpec(input, sp[k]);
    }
    if r.UndefinedPop? {
      ParseCommandSpec(input, sp[|r.pipeline|]);
    }
    if !r.ok {
      assert !ParseCommand(input, sp[|r.pipeline|]).Parsed?;
    }
  }

  function CountSeparators(input: string, toks: seq<Token>): nat
    requires TokensIn(input, toks)
    decreases |toks|
  {
    if |toks| == 0 then 0
    else (if IsSeparator(input, toks[0]) then 1 else 0) + CountSeparators(input, toks[1..])
  }

  /** The `|` operators of a token list. */
  function CountPipes(input: string, toks: seq<Token>): nat
    requires TokensIn(input, toks)
    decreases |toks|
  {
    if |toks| == 0 then 0
    else (if TokenIsOp(input, toks[0], "|") then 1 else 0) + CountPipes(input, toks[1..])
  }

  lemma {:induction false} CountSeparatorsSplit(input: string, toks: seq<Token>, k: nat)
    requires TokensIn(input, toks) && k <= |toks|
    ensures CountSeparators(input, toks) == CountSeparators(input, toks[..k]) + CountSeparators(input, toks[k..])
    ensures CountPipes(input, toks) == CountPipes(input, toks[..k]) + CountPipes(input, toks[k..])
    decreases k
  {
    if k == 0 {
      assert toks[..0] == [] && toks[0..] == toks;
    } else {
      CountSeparatorsSplit(input, toks[1..], k - 1);
      assert toks[1..][..k - 1] == toks[..k][1..];
      assert toks[1..][k - 1..] == toks[k..];
    }
  }

  lemma {:induction false} NoSeparatorCount(input: string, toks: seq<Token>)
    requires TokensIn(input, toks)
    requires forall j :: 0 <= j < |toks| ==> !IsSeparator(input, toks[j])
    ensures CountSeparators(input, toks) == 0
    decreases |toks|
  {
    if |toks| > 0 {
      NoSeparatorCount(input, toks[1..]);
    }
  }

  /** There is one span per separator. */
  lemma {:induction false} SpansCount(input: string, toks: seq<Token>)
    requires TokensIn(input, toks)
    ensures |Spans(input, toks)| == CountSeparators(input, toks)
    decreases |toks|
  {
    var k := FirstSeparator(input, toks);
    CountSeparatorsSplit(input, toks, k);
    NoSeparatorCount(input, toks[..k]);
    if k < |toks| {
      CountSeparatorsSplit(input, toks[k..], 1);
      assert toks[k..][1..] == toks[k + 1..];
      assert toks[k..][..1] == [toks[k]];
      SpansCount(input, toks[k + 1..]);
    }
  }

  lemma {:induction false} SeparatorsArePipes(input: string, toks: seq<Token>)
    requires TokensIn(input, toks)
    requires forall j :: 0 <= j < |toks| ==> toks[j].kind != End
    ensures CountSeparators(input, toks) == CountPipes(input, toks)
    decreases |toks|
  {
    if |toks| > 0 {
      SeparatorsArePipes(input, toks[1..]);
    }
  }

  /** Every token of a well-formed list lies within the line. */
  lemma WellFormedTokensIn(input: string, toks: seq<Token>)
    requires WellFormed(input, toks)
    ensures TokensIn(input, toks)
  {
    var n := |toks|;
    forall i | 0 <= i < n
      ensures toks[i].off + toks[i].len <= |input|
    {
      if i < n - 1 {
        ChainBound(toks[..n - 1], |input|, i);
      }
    }
  }

  /** The END token closes the last span and is no `|`. */
  lemma CountsWithEnd(input: string, toks: seq<Token>)
    requires WellFormed(input, toks) && TokensIn(input, toks)
    ensures CountSeparators(input, toks) == CountPipes(input, toks) + 1
  {
    var n := |toks|;
    CountSeparatorsSplit(input, toks, n - 1);
    SeparatorsArePipes(input, toks[..n - 1]);
    assert toks[n - 1..] == [toks[n - 1]];
    assert toks[n - 1..][1..] == [];
  }

  /** A line that tokenizes and parses, under either prefix rule, becomes
      one command per `|` plus one. */
  lemma ParseCountsPipes(input: string, policy: OverridePolicy)
    requires Tokenize(input).Some?
    ensures var toks := Tokenize(input).value;
      && TokensIn(input, toks)
      && (ParseWith(input, toks, policy) == ParseResult(true, ParseWith(input, toks, policy).pipeline) ==>
            |ParseWith(input, toks, policy).pipeline| == CountPipes(input, toks) + 1)
  {
    TokenizeSpec(input);
    var toks := Tokenize(input).value;
    WellFormedTokensIn(input, toks);
    ParseSpec(input, toks, policy);
    SpansCount(input, toks);
    CountsWithEnd(input, toks);
  }
}
