# myshell, modelled in Dafny

myshell is a small POSIX-style shell written in C. It reads a line, splits it
into tokens, and parses the tokens into a pipeline of commands with typed
redirections. Then it launches one child per command, wired together by
pipes, and reports the status of the last one. This project models that core
as pure Dafny functions over immutable data and proves what each step
promises:

- **Quote state machine** (`Quote`, quote.dfy): `check_quote`, the five
  quoting states of section 2.2 of POSIX.1-2017 Shell Command Language.
- **Tokenizer** (`Tokenizer`, `TokenizerProofs`, tokenizer.dfy): `tokenize`
  and `end_token`, which turn a line into word, operator and end spans
  (POSIX section 2.3).
- **Quote removal** (`QuoteRemoval`, unquote.dfy): `unquote`.
- **strtol** (`Num`, num.dfy): the base-10 `strtol` behaviour both files rely
  on (leading blanks, an optional sign, digits, clamping to the `long` range).
- **Parser** (`Parser`, `ParseReference`, `ParserProofs`, `ParserExamples`):
  `token_is_op`, `parse_command` and `parse`, with the operator table of
  POSIX section 2.7. parse_command is modelled under two rules for the fd-number
  prefix of an operator. `AsWritten` is the code's own rule, and
  `Parser.Parse` and `Parser.ParseCommandAsWritten` use it; there, popping
  an empty argument vector is the outcome `Undefined`. `SourceAware` is the
  corrected rule of the first finding below, used by `Parser.ParseCommand`
  and `Parser.ParseCorrected`. `ParseReference` describes the result token
  by token, independently of the loop.
- **Data model** (`Cmd`, cmd.dfy): the redirection kinds and their
  predicates, `redir_t`, `command_t` and `command_init`.
- **Growable array** (`Vector`, vector.dfy): `vec_init`, `vec_push_back`,
  `vec_pop_back` and `vec_at`, with the invariant size ≤ capacity and
  capacity 0 or a power of two.
- **Parent side of a launch** (`Launch`, launch.dfy): `check_fd`, reading a
  descriptor source, the open flags of each file kind, and `run_command` up to
  and including the fork. This includes which descriptors the parent owns and
  closes on every path.
- **Child side of a launch** (`Child`, child.dfy): `fix_fds` and
  `init_child_fds` over an abstract descriptor table with `dup2`, `close` and
  `fcntl(F_DUPFD_CLOEXEC)`, and the exit codes 1, 126 and 127 (POSIX section 2.8.2).
- **Pipelines** (`Pipeline`, pipeline.dfy): `run_pipeline`, which wires
  stages with pipes, and `pipeline_cleanup`, which derives the status.
- **Lowest free descriptor** (`FdTable`, fdtable.dfy): the number that
  `open`, `pipe2` and `fcntl` return.

The operating system is a parameter. `open` success is `canOpen(path, flags)`.
`pipe2` success is `pipeOk(i)` for stage `i`. The value `fork` returns in the
parent is `fork(i)`, and the outcome of `waitpid` is `wait(pid)`. The parent's
descriptors are a `set<nat>`. A child's descriptor table maps each descriptor
to an open-file description and a close-on-exec flag. What survives `execvp`
is the table minus its close-on-exec slots (`Child.ExecView`). Every
descriptor the model allocates is the lowest free one, as POSIX requires of
`open`, `pipe` and `fcntl(F_DUPFD)`.

For a parse, the model uses the chars before the C string's NUL as its input.
The NUL step of the tokenizer loop is modelled explicitly.

## Model

| member | source | states |
|---|---|---|
| Quote.CheckQuote | parse.c:16-54 | Outside quotes nothing is quoted, and each of `'`, `"` and `\` opens its state. Inside single quotes only `'` is unquoted, and it closes. Inside double quotes only `"` (closing) and `\` (escaping) are unquoted. Both backslash states quote the next character and fall back to NONE or DOUBLE. An unquoted non-quote character occurs only outside quotes. |
| Quote.NulQuotedIffOpen | parse.c:73-76 | The terminating NUL is quoted exactly when the state is not NONE, which is what makes tokenize fail. |
| Tokenizer.Step | parse.c:82-109 | After each character the current token ends exactly at the next position (`off + len == pos`). |
| TokenizerProofs.StepKeepsInv | parse.c:72-110 | One loop iteration keeps the tokenizer invariant. The state equals the quote state of the prefix read so far. Emitted spans are non-empty, ordered and non-overlapping, and every operator is valid. Every word starts and ends in state NONE. |
| TokenizerProofs.FinishSpec | parse.c:75-80 | At the NUL, tokenize fails exactly when a quote is open. Otherwise the emitted tokens stay as a prefix, the pending token follows them when it is non-empty, and one END token closes the list. The result covers the line as stated for TokenizeSpec. |
| TokenizerProofs.TokenizeSpec | parse.c:69-112 | tokenize fails exactly when the quote state after the whole line is not NONE. On success it returns non-empty word and operator spans in strictly increasing order, followed by one END token of length 0 at the line's length. Operators are one of `<` `>` `\|` or a valid two-character operator (`\|` never extends). Every word starts and ends outside quotes. Every character outside the spans is a blank outside quotes. A word holds no such blank and no unquoted operator character. Each span is as long as it can be: a word that ends before the line's end is followed by an unquoted blank or operator character, and a one-character `<` or `>` is never followed by a character that would extend it. |
| TokenizerProofs.TokensCover | parse.c:94-109 | For each character of a tokenized line: it lies in no token exactly when it is a blank outside quotes, and otherwise in exactly one. An unquoted operator character lies in an operator token. A word never holds an unquoted blank or operator character. |
| TokenizerProofs.StepKeepsMaximal | parse.c:82-109 | One loop iteration keeps every emitted span as long as it can be: a word is flushed only at an unquoted blank or operator character (parse.c:97-105), and a one-character operator only at a character that does not extend it (parse.c:82-92). |
| TokenizerProofs.SameToken | parse.c:82-109 | Two tokens that start at the same position of a line and each obey the span rules are the same token: the first character fixes the kind, and maximality fixes the length. |
| TokenizerProofs.BodyDetermined | parse.c:69-112 | Two lists of spans of one line that are ordered, filled, separated only by blanks outside quotes, and maximal are equal. |
| TokenizerProofs.WellFormedUnique | parse.c:69-112 | At most one token list is well formed for a line, so the well-formedness rules fix tokenize's output. |
| TokenizerProofs.TokenizeExact | parse.c:69-112 | When tokenize succeeds, a token list is well formed for the line exactly when it is tokenize's result. |
| QuoteRemoval.UnquoteFromLength | parse.c:114-129 | Starting from any state, the output is at most the input length, plus one when the state is BACKSLASH_IN_DOUBLE. |
| QuoteRemoval.UnquoteNoLonger | parse.c:115-128 | unquote's output never exceeds the token's length, so the len + 1 buffer suffices. |
| QuoteRemoval.UnquotePlain | parse.c:118-127 | A token with no quote characters comes back unchanged. |
| QuoteRemoval.UnquoteSingleQuoted | parse.c:19-25 | `'t'` unquotes to `t` for any `t` without `'`. |
| QuoteRemoval.UnquoteEscaped | parse.c:35-38 | Backslash-escaping every character of `t` unquotes back to `t`, a round trip. |
| QuoteRemoval.UnquoteDoubleQuoted | parse.c:26-42 | Double-quoting `t`, escaping only `\` and `"` inside, unquotes back to `t`, a round trip. |
| QuoteRemoval.BackslashKeptInDouble | parse.c:120-122 | Inside double quotes, `\x` with x not `\` or `"` keeps both characters. |
| Num.StrToL | parse.c:177 | strtol consumes no more than the string and yields a value in the `long` range. When nothing is consumed the value is 0. Otherwise it stops right after a digit and before a non-digit. |
| Num.StrToLDecimal | run.c:90-91 | The decimal text of `n`, followed by anything not starting with a digit, reads back as `n` and consumes exactly the digits. |
| Num.StrToLSigned | parse.c:177-178 | A signed decimal reads as its signed value and consumes the sign and the digits, so `+2` gives 2 and `-0` gives 0. |
| Parser.OpMapping | parse.c:151-171 | Exactly the seven operators `<` `>` `>\|` `>>` `<>` `<&` `>&` are mapped; `<<` is rejected. Operators starting with `<` are readable and target 0, and those starting with `>` target 1. The writable ones start with `>` or are `<>`, and the descriptor kinds end in `&`. |
| Parser.Override | parse.c:173-179 | A target prefix is taken only from a word that ends right where the operator starts. The strtol reading of that word must end right at the operator, and its value lies in [0, INT_MAX]. Conversely, when strtol reads such a word right up to the operator with a value in that range, the prefix is taken. As written any such word qualifies. The corrected rule also requires the word to be a command argument, not the previous redirection's source. |
| ParserProofs.ParseCommandExpected | parse.c:139-194 | Under either rule, parse_command equals a token-by-token reference. Each argument word pushes its unquoted text, and an operator that takes a prefix pops. The grammar is `(WORD \| REDIR-OP WORD)*`, and its first violation is a syntax error unless an earlier pop found the vector empty (undefined). Otherwise the result is the vector, then NULL, with the three defaults followed by each operator's entry. |
| ParserProofs.ParseCommandOutcome | parse.c:139-194 | Under either rule, the three outcomes. A syntax error is an empty span, or a grammar error reached while the vector is defined. Undefined means a token before the first grammar error popped an empty vector. Parsed means the span is grammatical and no pop found the vector empty, and then the command is that vector plus NULL, with the defaults followed by the entries. |
| ParserProofs.ParseCommandAsWrittenSpec | parse.c:139-194 | parse_command as written, with the source's own prefix rule. It is undefined exactly when a prefix is taken while the vector is empty, before the first grammar error. It is a syntax error exactly on an empty span or a grammar error met first. Otherwise it parses, and a pop may remove a word that is not the prefix. |
| ParserProofs.ParsedRedirs | parse.c:151-186 | A grammatical span has one user entry per operator, in order. The k-th operator's entry has its kind, `from_fd = -1` and the unquoted next word as its path. Its target is the prefix the operator takes, or else the operator's default descriptor. |
| ParserProofs.EntriesShape | parse.c:172-185 | Every parsed user entry has `from_fd = -1`, a source path, and a target in [0, INT_MAX]. |
| ParserProofs.CorrectedPops | parse.c:173-181 | Corrected rule: every pop removes the argument pushed right before it. |
| ParserProofs.ParseCommandSpec | parse.c:139-194 | Corrected rule: parse_command is never undefined. It is a syntax error exactly on an empty span or one that breaks the grammar. Otherwise args are the argument words, unquoted and in order, minus each one that an operator right after takes as its target, then NULL. The redirections are the three defaults followed by one entry per operator. |
| ParserProofs.AsWrittenAgrees | parse.c:173-181 | When no operator takes its prefix from a word that is not an argument, parse_command as written equals the corrected one. |
| ParserProofs.ParseLoopSpec | parse.c:199-211 | Under either rule, the loop of parse, from any point, parses each remaining span in order and stops at the first that does not parse. |
| ParserProofs.ParseSpec | parse.c:196-213 | Under either rule, including the as-written `Parser.Parse`, parse yields one command per span delimited by `\|` and END, each being that span's parse_command. A failure keeps the commands before the first span that is a syntax error. An undefined result keeps those before the first span whose parse is undefined. |
| ParserProofs.ParseCorrectedSpec | parse.c:196-213 | Corrected rule: parse is never undefined, and it succeeds exactly when every span is non-empty and grammatical. |
| ParserProofs.ParseCountsPipes | parse.c:196-213 | Under either rule, a tokenized line that parses has one command more than the number of `\|` operators. |
| ParserExamples.OneWord | parse.c:139-194 | A single plain word parses to `[word, NULL]` with the default redirections. |
| ParserExamples.DupStderrToStdout | parse.c:166-186 | Under both rules, `cmd 2>&1` gives a FD_OUT entry targeting 2 with source text `1`, and `2` is popped from args. |
| ParserExamples.CmdLineTokens | parse.c:69-112 | `cmd 2>&1` tokenizes to the words `cmd` and `2`, the operator `>&`, the word `1` and END at 8. These are the spans the `cmd 2>&1` examples parse. |
| ParserExamples.CmdLineOnlyTokens | parse.c:69-112 | The spans of `cmd 2>&1` are the only well-formed token list for it: `2>&1` is not split into `2`, `>` and `&1`. |
| ParserExamples.SplitAppendNotWellFormed | parse.c:82-89 | `>>` read as two one-character operators is not well formed, since the second `>` extends the first. |
| ParserExamples.SplitWordNotWellFormed | parse.c:97-109 | `ab` read as two one-character words is not well formed, since `b` does not end a word. |
| ParserExamples.PartlyNumericWordNoPrefix | parse.c:173-179 | In `x 2a>y` strtol stops at `a`, before the operator, so `2a` is not taken as a target prefix under either rule. |
| ParserExamples.BareLineTokens | parse.c:69-112 | `>1>b` tokenizes to `>`, `1`, `>`, `b` and END at 4. |
| ParserExamples.EchoLineTokens | parse.c:69-112 | `echo >1>b` tokenizes to `echo`, `>`, `1`, `>`, `b` and END at 9. |
| ParserExamples.PipelineLinesTokens | parse.c:69-112 | `a\|b\|c`, `a\|\|b`, `\|a` and `a\|` tokenize to the lists the pipeline examples parse, with each `\|` a one-character operator. |
| ParserExamples.PrefixAfterSourceAsWritten | parse.c:173-181 | As written, `>1>b` treats `1` as a target prefix and pops the empty argument vector. |
| ParserExamples.PrefixAfterSourceCorrected | parse.c:173-181 | Corrected rule: `>1>b` parses to two truncating redirections of 1 and no arguments. |
| ParserExamples.EchoPrefixAsWritten | parse.c:173-179 | In `echo >1>b`, the source word `1` is taken as the second operator's target as written. The rule that only looks at argument words does not take it. |
| ParserExamples.CommandNamePoppedAsWritten | parse.c:173-181 | As written, `echo >1>b` loses `echo`. |
| ParserExamples.CommandNameKeptCorrected | parse.c:173-181 | Corrected rule: `echo >1>b` keeps `echo` as its argument. |
| ParserExamples.BlankLineTokens | parse.c:69-80 | An empty line tokenizes to the END token alone. |
| ParserExamples.BlankLineRejected | parse.c:140 | A blank line is a syntax error with no commands. |
| ParserExamples.ThreeStages | parse.c:196-213 | `a\|b\|c` parses to three one-word commands. |
| ParserExamples.DoubledPipeRejected | parse.c:199-207 | `a\|\|b` fails after keeping `a`: the second `\|` closes an empty span, which parse_command rejects at once (parse.c:140), so parse returns false. |
| ParserExamples.LeadingPipeRejected | parse.c:140 | `\|a` fails with no commands. |
| ParserExamples.TrailingPipeRejected | parse.c:140 | `a\|` fails after keeping `a`. |
| ParserExamples.EchoOpenQuote | parse.c:26-47 | After `echo "a` the quote state is DOUBLE. |
| ParserExamples.UnterminatedQuoteRejected | parse.c:73-76 | `echo "a` does not tokenize. |
| Cmd.IsFile | cmd.h:16 | The file kinds are exactly FILE_IN, FILE_TRUNC, FILE_APPEND and FILE_IN_OUT. |
| Cmd.IsFd | cmd.h:17 | The descriptor kinds are exactly FD_IN and FD_OUT, the complement of the file kinds. |
| Cmd.IsWritable | cmd.h:19-28 | A kind is writable exactly when it is not readable or is FILE_IN_OUT. So every kind has a capability, and FILE_IN_OUT alone has both. |
| Cmd.CommandInit | cmd.c:5-22 | A fresh command has no args and three entries. Each maps its standard descriptor to itself with descriptor kind and no path; 0 is readable only, 1 and 2 writable only. |
| Vector.Init | vector.c:5-10 | vec_init gives size 0, capacity 0, no storage, and satisfies the invariant. |
| Vector.PushBack | vector.c:22-36 | Size grows by one and earlier cells are kept. The new cell holds the pushed value, or nothing for a NULL source. Capacity only grows, and only when the vector was full. The invariant is kept. |
| Vector.PopBack | vector.c:38-40 | Under its precondition size > 0, size drops by one and capacity and the remaining cells are kept. The invariant is kept. |
| Vector.At | vector.c:18-20 | vec_at returns a stored cell. |
| Vector.PopUndoesPush | vector.c:22-40 | Popping right after a push restores the cells and never shrinks capacity. |
| Vector.PushAllFromInit | vector.c:22-36 | Pushing a sequence keeps the invariant and appends exactly that sequence. Capacity stays below twice the size. |
| FdTable.LowestFreeFrom | run.c:19 | The descriptor found from `k` is free, at least `k`, and every descriptor between `k` and it is taken. |
| FdTable.LowestFree | run.c:121 | The descriptor returned is free, and every lower one is taken. |
| FdTable.LowestFreeAfterClose | run.c:64-70 | Closing a descriptor below the lowest free one makes it the lowest free one. |
| Launch.Capability | run.c:49-57 | For the matching entry, `<&` needs a readable kind and `>&` a writable one. It reports "not open for reading" exactly when `<&` meets a kind that is not readable, and "not open for writing" exactly when `>&` meets one that is not writable. |
| Launch.CheckFd | run.c:45-62 | check_fd reports "not open" exactly when no entry before the current one targets the descriptor. |
| Launch.CheckFdNewest | run.c:46-58 | The verdict is that of the newest earlier entry targeting the descriptor, even when that entry closes it. |
| Launch.CheckFdIgnoresSources | run.c:45-62 | The verdict depends only on kinds and targets, so resolving earlier sources does not change it. |
| Launch.CheckFdDefaults | run.c:97 | Against the defaults, `<&0`, `>&1` and `>&2` pass and `>&0` and `<&1` fail. Any other descriptor is not open. |
| Launch.ParseDupSource | run.c:86-96 | `-` closes the target. An accepted number was fully consumed by strtol and is at most INT_MAX, and anything else is an invalid descriptor. |
| Launch.DupSourceDecimal | run.c:89-96 | A decimal number up to INT_MAX reads back as itself, while the same digits with trailing junk are invalid. |
| Launch.DupSourceEdges | run.c:89-96 | The empty word reads as 0, as do `-0` and `+2` as 0 and 2. `-1` and INT_MAX + 1 are invalid. |
| Launch.OpenFlags | run.c:103-121 | Every file kind opens close-on-exec with exactly one access mode. It reads exactly when readable and writes exactly when writable, and creates exactly when writable. It truncates only for `>` and appends only for `>>`. |
| Launch.CloseFds | run.c:64-70 | Closing a list leaves exactly the descriptors not in it. |
| Launch.ResolveFrom | run.c:83-130 | Resolving keeps each entry's kind, target and path, leaves earlier entries alone and only adds descriptors. |
| Launch.ResolveFromReleases | run.c:83-130 | Whatever the loop opens, it also owns, so closing what it owns at the end leaves the parent as it started. |
| Launch.ResolveStep | run.c:84-129 | One iteration stops with that entry's error when its check fails. Otherwise it moves on without changing the later checks. |
| Launch.AdvanceInstalls | run.c:86-128 | A passing entry gets its source installed: -1 for `-`, the number read, or a freshly opened descriptor the parent now holds. |
| Launch.AdvanceOpensLowest | run.c:121-127 | A file entry's source is the lowest descriptor the parent did not hold, as open(2) returns, and it is added to the parent's set. |
| Launch.ResolveFromIff | run.c:83-130 | The loop completes exactly when every user entry passes its check. |
| Launch.ResolveFromInstalls | run.c:83-130 | When it completes, every user entry's source is installed. |
| Launch.ResolveFromStops | run.c:83-130 | When it stops, the error is that of the first failing entry. |
| Launch.Handed | run.c:73-82 | The descriptors handed in are exactly the non-negative ones among fd0 and fd1. |
| Launch.HandedSet | run.c:73-82 | The same, as a set. |
| Launch.Seeded | run.c:75-82 | Non-negative fd0 and fd1 become the sources of entries 0 and 1, and nothing else changes. |
| Launch.RunCommand | run.c:72-156 | On every path, success or failure, the parent ends with exactly the descriptors it had minus those it was handed. A launched child has the fork result as pid and the same args, and inherits everything the parent held. |
| Launch.RunCommandOutcome | run.c:83-136 | run_command launches exactly when the fork succeeds and every user entry passes. A fork failure is reported exactly when the entries pass and fork fails. Any other error is the first failing entry's. |
| Launch.RunCommandChild | run.c:75-130 | The child gets fd0 and fd1 (when given) as the sources of entries 0 and 1, an untouched entry 2, and every user entry installed. |
| Child.Dup2 | run.c:37 | dup2 fails exactly when the source is not open. When source and target coincide it leaves the table exactly as it was. Otherwise the target refers to the source's description without close-on-exec, and every other slot is unchanged. |
| Child.Close | run.c:36 | close frees the target and changes nothing else. |
| Child.DupCloexec | run.c:19 | fcntl(F_DUPFD_CLOEXEC) fails exactly on a closed source. It otherwise adds a close-on-exec copy at the lowest free descriptor at or above the floor. |
| Child.FixFds | run.c:15-27 | fix_fds keeps every entry's kind, target and descriptor source. It keeps every slot and adds only close-on-exec slots at or above the floor. |
| Child.FixFdsSpec | run.c:15-27 | With open file sources, fix_fds succeeds, every file source still refers to the same description, and none equals the target any more. |
| Child.FixFdsSkips | run.c:16-25 | Entries that do not use the target are left alone. |
| Child.InitFromSim | run.c:29-43 | The child's loop simulates the intended in-order semantics: whenever the intended application succeeds, the real one does, with the same table after exec. With a floor above every named descriptor, the converse also holds. |
| Child.InitChildFdsRefinesIntent | run.c:29-43 | As written, whenever the redirections can be applied as intended, init_child_fds succeeds with the intended table after exec. |
| Child.MinFd | run.c:19 | The corrected floor lies above every target and every descriptor source. |
| Child.InitChildFdsFixedExact | run.c:15-43 | With the corrected floor, init_child_fds succeeds exactly when the intended application does, with the same table after exec. |
| Child.ChildExit | run.c:137-151 | The child continues exactly when setup and exec succeed. It exits 127 exactly for a missing program, 126 exactly for a denied one, and otherwise 1. |
| Child.ChildStartsWithIntent | run.c:137-142 | With the corrected floor, a child whose redirections cannot be applied exits 1, and otherwise starts with the intended descriptors. |
| ChildExample.LineReachesChild | run.c:83-130 | For `cat 4<&- 3>&1 <y 5<&4`, run_command opens `y` at 3 and accepts `5<&4`, handing the child these redirections. |
| ChildExample.IntentFails | run.c:35-40 | Applied as intended, that line fails, since 4 is closed when `5<&4` runs. |
| ChildExample.AsWrittenRevivesClosedFd | run.c:15-43 | As written, the child succeeds and its 5 refers to the file `y`, through the hidden copy that landed on 4. |
| ChildExample.FinalView | run.c:15-43 | The table the as-written child execs with. |
| ChildExample.FixedRejects | run.c:15-43 | With the corrected floor the same line fails, as intended. |
| Pipeline.OnlyLastCounts | run.c:163-183 | Processes before the last recorded one never change the status. |
| Pipeline.StatusInRange | run.c:171-181 | With 8-bit exit codes the status is in [0, 256). |
| Pipeline.PipelineCleanup | run.c:158-186 | The status is 1 with no pid or a failed wait, 129 for a signalled last process, else its exit code. The read end passed in is closed, and every recorded pid is waited for in order. |
| Pipeline.LaunchedPids | run.c:205-207 | At most one pid is recorded per stage. |
| Pipeline.StageBalance | run.c:195-208 | After a stage, the parent holds its own descriptors plus only the new pipe's read end. |
| Pipeline.RunPipeline | run.c:188-211 | The parent ends with the descriptors it started with, and records exactly the launched stages' pids, waiting for all of them. Each stage reads from the previous pipe and writes to its own, using fresh descriptors. A failed stage is skipped while later ones run. A pipe failure stops with status 1, and otherwise the status is the last recorded pid's. |
| Pipeline.NeighboursShareAPipe | run.c:193-208 | For two launched neighbours, the earlier writes to and the later reads from the same pipe. |
| Pipeline.EndsUnpiped | run.c:191-202 | The first stage keeps its standard input and the last keeps its standard output. |
| Pipeline.ParsedCommandsLaunchable | parse.c:196-213 | Every command that parse as written leaves in the pipeline, even after a failure, has the three default entries, a path on every user entry and a non-negative target everywhere. So it can be launched and its child set up. |

## Left out

- main.c: the read loop, the prompt, `isatty`, the 1024-byte line buffer and newline stripping are I/O.
- error.c: message formatting to stderr. `print_err` and `print_errno` have no effect on the model.
- `strsignal` and `strerror` texts.
- Real system calls, and children running concurrently. `open`, `pipe2`, `fork` and `waitpid` are the oracles above. `dup2`, `close` and `fcntl` act on the abstract table, and `execvp` is its outcome (`ExecError`).
- `malloc`/`free` bookkeeping (`command_free`, `pipeline_free`, `vec_free`, unquote's buffer), and the `abort` on allocation failure. `size_t` overflow is not modelled either.
- The descriptor limit: `open`, `pipe2` and `fcntl` never fail for lack of descriptors, except through the oracles. `Child.InitChildFdsFixed`'s floor can exceed the process's limit, which is not modelled.
- `execvp` with `args[0]` NULL, for a command made only of redirections. It is `ExecError` like any other exec failure.
- Launch.OpenFlags: requires a file kind. The C `default: abort()` branch is unreachable, because the descriptor kinds take the other branch.
- Launch.RunCommand: requires `fork != 0`. The child side of `fork` is modelled separately by `Child`.
- `isblank` is space or tab, as in the C locale.
- Two points where the behaviour follows the code rather than the prose description of the shell. A command made only of redirections (`>x`) is accepted, with args `[NULL]`. When parse fails, the commands parsed so far stay in the pipeline for the caller to free.
- The creation mode 0666 that run_command passes to `open`. `canOpen` decides only whether the open succeeds, and file permissions are not modelled.
- Parser.Parse: the as-written parse can pop an empty argument vector, which has no defined behaviour in C. The model stops there with `UndefinedPop` and keeps the commands parsed before it. It does not say what the C program would do next.
- Vector.At: states only that the result is a stored cell. The C pointer arithmetic has no Dafny counterpart, and `Vector.PushBack` states the positions.

## Findings

| source | as written | input that shows it | evidently intended | confidence | as-written member | corrected member |
|---|---|---|---|---|---|---|
| parse.c:173-181 | The target-number check only asks whether the previous word ends at the operator. It also fires when that word was the previous redirection's source, and then pops the last argument. | `>1>b` pops an empty argument vector (undefined behaviour); `echo >1>b` loses `echo`. | Only a word that is still a command argument can be a target prefix. | high, not executed | ParserExamples.CommandNamePoppedAsWritten | ParserProofs.ParseCommandSpec |
| run.c:19 | fix_fds copies a source with `fcntl(F_DUPFD_CLOEXEC, 0)`, which takes the lowest free descriptor. That can be one an earlier `N<&-` closed. check_fd counts the closing entry as open, so a later `M<&N` dup2s the hidden copy. | `cat 4<&- 3>&1 <y 5<&4`: the copy of `y` lands on 4, and the child runs with 5 open on `y`. | `M<&N` after `N<&-` fails, with exit status 1. | high, not executed | ChildExample.AsWrittenRevivesClosedFd | Child.InitChildFdsFixedExact |
