/** A token-by-token description of what parse_command builds, independent
    of its loop: each token's effect on the argument vector and the
    redirection it stands for, and the generic facts about both. */
module ParseReference {
  import opened Base
  import opened Cmd
  import opened Tokenizer
  import opened QuoteRemoval
  import opened Parser

  /** A word that is a command argument: first in its span or right after
      another word. The word right after an operator is that operator's
      source. */
  predicate IsArgWord(span: seq<Token>, j: nat)
    requires j < |span|
  {
    span[j].kind == Word && (j == 0 || span[j - 1].kind == Word)
  }

  /** The target prefix the operator at span[j] takes under policy. */
  function Prefix(input: string, span: seq<Token>, j: nat, policy: OverridePolicy): Option<int>
    requires TokensIn(input, span) && j < |span|
  {
    Override(input, span, j, j > 0 && IsArgWord(span, j - 1), policy)
  }

  /** A redirection operator of the table, followed by its source word. */
  predicate GoodOp(input: string, span: seq<Token>, j: nat)
    requires TokensIn(input, span) && j < |span|
  {
    && span[j].kind == Op && OpMapping(Text(input, span[j])).Some?
    && j + 1 < |span| && span[j + 1].kind == Word
  }

  /** A word, or a redirection operator followed by its source word. */
  predicate Placed(input: string, span: seq<Token>, j: nat)
    requires TokensIn(input, span) && j < |span|
  {
    span[j].kind == Word || GoodOp(input, span, j)
  }

  /** The grammar (WORD | REDIR-OP WORD)*, over the tokens before n: every
      token that is not a word is a redirection operator followed by a word. */
  predicate GoodBefore(input: string, span: seq<Token>, n: nat)
    requires TokensIn(input, span) && n <= |span|
  {
    forall j :: 0 <= j < n ==> Placed(input, span, j)
  }

  predicate Grammatical(input: string, span: seq<Token>)
    requires TokensIn(input, span)
  {
    GoodBefore(input, span, |span|)
  }

  lemma GoodBeforeStep(input: string, span: seq<Token>, n: nat)
    requires TokensIn(input, span) && n < |span| && GoodBefore(input, span, n) && Placed(input, span, n)
    ensures GoodBefore(input, span, n + 1)
  {
  }

  /** The first token from i on that breaks the grammar, or the length. */
  function FirstError(input: string, span: seq<Token>, i: nat): (e: nat)
    requires TokensIn(input, span) && i <= |span|
    ensures i <= e <= |span|
    ensures forall j :: i <= j < e ==> Placed(input, span, j)
    ensures e < |span| ==> !Placed(input, span, e)
    decreases |span| - i
  {
    if i == |span| then i
    else if Placed(input, span, i) then FirstError(input, span, i + 1)
    else i
  }

  /** What a token does to the argument vector: an argument word is pushed
      unquoted, an operator that takes a target prefix pops, and anything
      else leaves it alone. */
  datatype ArgAction = Push(arg: string) | Pop | Keep

  function Action(input: string, span: seq<Token>, j: nat, policy: OverridePolicy): ArgAction
    requires TokensIn(input, span) && j < |span|
  {
    if IsArgWord(span, j) then Push(Unquote(Text(input, span[j])))
    else if span[j].kind == Op && Prefix(input, span, j, policy).Some? then Pop
    else Keep
  }

  /** The actions of the tokens before n. */
  function ActionsBefore(input: string, span: seq<Token>, n: nat, policy: OverridePolicy): (acts: seq<ArgAction>)
    requires TokensIn(input, span) && n <= |span|
    ensures |acts| == n
  {
    if n == 0 then [] else ActionsBefore(input, span, n - 1, policy) + [Action(input, span, n - 1, policy)]
  }

  function Actions(input: string, span: seq<Token>, policy: OverridePolicy): (acts: seq<ArgAction>)
    requires TokensIn(input, span)
    ensures |acts| == |span|
  {
    ActionsBefore(input, span, |span|, policy)
  }

  lemma {:induction false} ActionsBeforeAt(input: string, span: seq<Token>, n: nat, j: nat, policy: OverridePolicy)
    requires TokensIn(input, span) && j < n <= |span|
    ensures ActionsBefore(input, span, n, policy)[j] == Action(input, span, j, policy)
    decreases n
  {
    if j < n - 1 {
      ActionsBeforeAt(input, span, n - 1, j, policy);
    }
  }

  lemma ActionAt(input: string, span: seq<Token>, j: nat, policy: OverridePolicy)
    requires TokensIn(input, span) && j < |span|
    ensures Actions(input, span, policy)[j] == Action(input, span, j, policy)
  {
    ActionsBeforeAt(input, span, |span|, j, policy);
  }

  /** The argument vector after the first n actions, or None once a pop
      finds it empty. */
  function Stack(acts: seq<ArgAction>, n: nat): Option<seq<Option<string>>>
    requires n <= |acts|
  {
    if n == 0 then Some([])
    else match Stack(acts, n - 1)
      case None => None
      case Some(a) =>
        match acts[n - 1]
        case Push(w) => Some(a + [Some(w)])
        case Pop => if |a| == 0 then None else Some(a[..|a| - 1])
        case Keep => Some(a)
  }

  /** Action j pops the empty vector. */
  predicate EmptyPop(acts: seq<ArgAction>, j: nat)
    requires j < |acts|
  {
    acts[j] == Pop && Stack(acts, j) == Some([])
  }

  /** Once popped empty, the vector stays undefined. */
  lemma {:induction false} StackNoneStays(acts: seq<ArgAction>, n: nat, m: nat)
    requires n <= m <= |acts| && Stack(acts, n).None?
    ensures Stack(acts, m).None?
    decreases m - n
  {
    if n < m {
      StackNoneStays(acts, n, m - 1);
    }
  }

  /** The vector is undefined exactly when some pop found it empty. */
  lemma {:induction false} PopsEmpty(acts: seq<ArgAction>, n: nat)
    requires n <= |acts|
    ensures Stack(acts, n).None? <==> exists j :: 0 <= j < n && EmptyPop(acts, j)
    decreases n
  {
    if n > 0 {
      PopsEmpty(acts, n - 1);
      if Stack(acts, n - 1).None? {
        var j :| 0 <= j < n - 1 && EmptyPop(acts, j);
        assert EmptyPop(acts, j);
      } else {
        assert forall j :: 0 <= j < n - 1 ==> !EmptyPop(acts, j);
        assert Stack(acts, n).None? <==> EmptyPop(acts, n - 1);
      }
    }
  }

  /** A pop right after the push it undoes. */
  predicate PopAfterPush(acts: seq<ArgAction>, j: nat)
    requires j < |acts|
  {
    acts[j] == Pop ==> j > 0 && acts[j - 1].Push?
  }

  predicate PopsFollowPushes(acts: seq<ArgAction>) {
    forall j :: 0 <= j < |acts| ==> PopAfterPush(acts, j)
  }

  /** The pushed words before n that the next action does not pop. */
  function Kept(acts: seq<ArgAction>, n: nat): seq<Option<string>>
    requires n <= |acts|
  {
    if n == 0 then []
    else Kept(acts, n - 1)
         + (if acts[n - 1].Push? && !(n < |acts| && acts[n] == Pop) then [Some(acts[n - 1].arg)] else [])
  }

  /** The word pushed last before n, when action n pops it. */
  function Pending(acts: seq<ArgAction>, n: nat): seq<Option<string>>
    requires n <= |acts|
  {
    if 0 < n < |acts| && acts[n - 1].Push? && acts[n] == Pop then [Some(acts[n - 1].arg)] else []
  }

  lemma KeptStep(acts: seq<ArgAction>, n: nat)
    requires 0 < n <= |acts| && PopAfterPush(acts, n - 1)
    requires Stack(acts, n - 1) == Some(Kept(acts, n - 1) + Pending(acts, n - 1))
    ensures Stack(acts, n) == Some(Kept(acts, n) + Pending(acts, n))
  {
    var k := Kept(acts, n - 1);
    assert k + [] == k;
    match acts[n - 1]
    case Push(w) =>
      assert Pending(acts, n - 1) == [];
      if n < |acts| && acts[n] == Pop {
        assert Kept(acts, n) + Pending(acts, n) == k + [] + [Some(w)];
      } else {
        assert Kept(acts, n) + Pending(acts, n) == k + [Some(w)] + [];
        assert k + [Some(w)] + [] == k + [Some(w)];
      }
    case Pop =>
      var p := Pending(acts, n - 1);
      assert |p| == 1;
      assert (k + p)[..|k + p| - 1] == k;
      assert Kept(acts, n) + Pending(acts, n) == k + [] + [];
    case Keep =>
      assert Pending(acts, n - 1) == [];
      assert Kept(acts, n) + Pending(acts, n) == k + [] + [];
  }

  /** When every pop follows a push, the vector is never popped empty: it
      holds the kept words, plus the one the next action pops. */
  lemma {:induction false} StackKept(acts: seq<ArgAction>, n: nat)
    requires n <= |acts| && PopsFollowPushes(acts)
    ensures Stack(acts, n) == Some(Kept(acts, n) + Pending(acts, n))
    decreases n
  {
    if n == 0 {
      assert Kept(acts, 0) + Pending(acts, 0) == [];
    } else {
      StackKept(acts, n - 1);
      KeptStep(acts, n);
    }
  }

  /** The redirection the operator at span[j] stands for. */
  function Entry(input: string, span: seq<Token>, j: nat, policy: OverridePolicy): Redir
    requires TokensIn(input, span) && j < |span| && GoodOp(input, span, j)
  {
    var m := OpMapping(Text(input, span[j])).value;
    var toFd := match Prefix(input, span, j, policy) case Some(fd) => fd case None => m.fd;
    Redir(m.kind, toFd, -1, Some(Unquote(Text(input, span[j + 1]))))
  }

  /** The redirection of the token at j, if it is an operator in the grammar. */
  function EntryOpt(input: string, span: seq<Token>, j: nat, policy: OverridePolicy): Option<Redir>
    requires TokensIn(input, span) && j < |span|
  {
    if GoodOp(input, span, j) then Some(Entry(input, span, j, policy)) else None
  }

  function EntryOptsBefore(input: string, span: seq<Token>, n: nat, policy: OverridePolicy): (opts: seq<Option<Redir>>)
    requires TokensIn(input, span) && n <= |span|
    ensures |opts| == n
  {
    if n == 0 then [] else EntryOptsBefore(input, span, n - 1, policy) + [EntryOpt(input, span, n - 1, policy)]
  }

  /** Each token's redirection, if it is an operator in the grammar. */
  function EntryOpts(input: string, span: seq<Token>, policy: OverridePolicy): (opts: seq<Option<Redir>>)
    requires TokensIn(input, span)
    ensures |opts| == |span|
  {
    EntryOptsBefore(input, span, |span|, policy)
  }

  lemma {:induction false} EntryOptsBeforeAt(input: string, span: seq<Token>, n: nat, j: nat, policy: OverridePolicy)
    requires TokensIn(input, span) && j < n <= |span|
    ensures EntryOptsBefore(input, span, n, policy)[j] == EntryOpt(input, span, j, policy)
    decreases n
  {
    if j < n - 1 {
      EntryOptsBeforeAt(input, span, n - 1, j, policy);
    }
  }

  lemma EntryOptAt(input: string, span: seq<Token>, j: nat, policy: OverridePolicy)
    requires TokensIn(input, span) && j < |span|
    ensures EntryOpts(input, span, policy)[j] == EntryOpt(input, span, j, policy)
  {
    EntryOptsBeforeAt(input, span, |span|, j, policy);
  }

  /** The present values among the first n options, in order. */
  function Collect<T>(opts: seq<Option<T>>, n: nat): seq<T>
    requires n <= |opts|
  {
    if n == 0 then [] else Collect(opts, n - 1) + (if opts[n - 1].Some? then [opts[n - 1].value] else [])
  }

  /** How many of the first n options are present. */
  function Present<T>(opts: seq<Option<T>>, n: nat): nat
    requires n <= |opts|
  {
    if n == 0 then 0 else Present(opts, n - 1) + (if opts[n - 1].Some? then 1 else 0)
  }

  lemma {:induction false} CollectLength<T>(opts: seq<Option<T>>, n: nat)
    requires n <= |opts|
    ensures |Collect(opts, n)| == Present(opts, n)
    decreases n
  {
    if n > 0 {
      CollectLength(opts, n - 1);
    }
  }

  /** The option at j, when present, is collected at index Present(opts, j). */
  lemma {:induction false} CollectAt<T>(opts: seq<Option<T>>, n: nat, j: nat)
    requires j < n <= |opts| && opts[j].Some?
    ensures Present(opts, j) < |Collect(opts, n)|
    ensures Collect(opts, n)[Present(opts, j)] == opts[j].value
    decreases n
  {
    CollectLength(opts, n - 1);
    if j < n - 1 {
      CollectAt(opts, n - 1, j);
      var c := Collect(opts, n - 1);
      assert Collect(opts, n)[..|c|] == c;
      assert Collect(opts, n)[Present(opts, j)] == Collect(opts, n)[..|c|][Present(opts, j)];
    }
  }

  /** Every collected value is some present option. */
  lemma {:induction false} CollectFrom<T>(opts: seq<Option<T>>, n: nat, k: nat)
    requires n <= |opts| && k < |Collect(opts, n)|
    ensures exists j :: 0 <= j < n && opts[j] == Some(Collect(opts, n)[k])
    decreases n
  {
    var c := Collect(opts, n - 1);
    if k < |c| {
      CollectFrom(opts, n - 1, k);
      assert Collect(opts, n)[k] == c[k];
    } else {
      assert opts[n - 1] == Some(Collect(opts, n)[k]);
    }
  }

  /** parse_command's outcome, stated token by token: a syntax error at the
      first token breaking the grammar, unless the argument vector was popped
      empty before it; otherwise the argument vector with its NULL, and the
      three defaults followed by one entry per operator. */
  function Expected(input: string, span: seq<Token>, policy: OverridePolicy): Outcome
    requires TokensIn(input, span)
  {
    var e := FirstError(input, span, 0);
    if |span| == 0 then SyntaxError
    else match Stack(Actions(input, span, policy), e)
      case None => Undefined
      case Some(a) =>
        if e < |span| then SyntaxError
        else Parsed(Command(a + [None], CommandInit().redirs + Collect(EntryOpts(input, span, policy), |span|)))
  }
}
