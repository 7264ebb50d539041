/** run_pipeline and pipeline_cleanup in run.c: one pipe between each pair
    of neighbouring commands, each command launched with the read end of
    the previous pipe and the write end of the next, the pids of the
    children that started recorded, and the status of the pipeline taken
    from the last recorded child. */
module Pipeline {
  import opened Base
  import opened Cmd
  import opened FdTable
  import opened Launch
  import Child
  import Parser
  import ParserProofs
  import ParseReference
  import Tokenizer

  /** What waitpid(2) reports for a child. */
  datatype WaitStatus = WaitFailed | Exited(code: nat) | Signalled(signal: nat)

  /** The answers of the operating system: whether open(2) succeeds on a
      path and flags, whether the pipe2(2) for stage `i` succeeds, what
      fork(2) returns in the parent for stage `i`, and what waitpid reports
      for a pid. */
  datatype Os = Os(
    canOpen: (string, set<OpenFlag>) -> bool,
    pipeOk: nat -> bool,
    fork: nat -> int,
    wait: int -> WaitStatus)

  /** The status pipeline_cleanup derives: 1 when no child was recorded or
      waiting for the last one failed, 129 when the last one was killed by a
      signal, otherwise its exit code. Earlier children are waited for but
      do not count. */
  function DerivedStatus(pids: seq<int>, wait: int -> WaitStatus): int {
    if |pids| == 0 then 1
    else match wait(pids[|pids| - 1])
      case WaitFailed => 1
      case Signalled(_) => 129
      case Exited(code) => code
  }

  /** Only the last recorded child decides. */
  lemma OnlyLastCounts(a: seq<int>, b: seq<int>, pid: int, wait: int -> WaitStatus)
    ensures DerivedStatus(a + [pid], wait) == DerivedStatus(b + [pid], wait)
  {
  }

  /** With exit codes in the range waitpid can report, so is the status. */
  lemma StatusInRange(pids: seq<int>, wait: int -> WaitStatus)
    requires forall pid :: wait(pid).Exited? ==> wait(pid).code < 256
    ensures 0 <= DerivedStatus(pids, wait) < 256
  {
    if |pids| > 0 {
      var pid := pids[|pids| - 1];
      assert wait(pid).Exited? ==> wait(pid).code < 256;
    }
  }

  /** pipeline_cleanup: closes the pending read end of a pipe, if any, then
      waits for every recorded child in order. */
  method PipelineCleanup(pipe: int, pids: seq<int>, fds: set<nat>, wait: int -> WaitStatus)
    returns (status: int, left: set<nat>, waited: seq<int>)
    ensures status == DerivedStatus(pids, wait)
    ensures left == if pipe >= 0 then fds - {pipe as nat} else fds
    ensures waited == pids
  {
    left := if pipe >= 0 then fds - {pipe as nat} else fds;
    status := 1;
    waited := [];
    var i := 0;
    while i < |pids|
      invariant 0 <= i <= |pids|
      invariant waited == pids[..i]
      invariant status == if 0 < i == |pids| then DerivedStatus(pids, wait) else 1
    {
      var pid := pids[i];
      waited := waited + [pid];
      match wait(pid) {
        case WaitFailed =>
        case Signalled(_) =>
          if i == |pids| - 1 {
            status := 129;
          }
        case Exited(code) =>
          if i == |pids| - 1 {
            status := code;
          }
      }
      i := i + 1;
    }
  }

  /** One attempted stage: the descriptors handed to run_command as input
      and output (-1 for none), the parent's table at the call, and what
      run_command did. */
  datatype Stage = Stage(input: int, output: int, table: set<nat>, launch: Launch)

  /** The pids of the stages whose child started, in stage order. */
  function LaunchedPids(stages: seq<Stage>): (pids: seq<int>)
    ensures |pids| <= |stages|
  {
    if |stages| == 0 then []
    else
      var rest := LaunchedPids(stages[..|stages| - 1]);
      var l := stages[|stages| - 1].launch;
      if l.Launched? then rest + [l.pid] else rest
  }

  /** The record of a run: its status, the stages attempted, the pipes
      created (read end, write end), the pids recorded, the pids waited for,
      and the parent's descriptors at the end. */
  datatype Run = Run(status: int, stages: seq<Stage>, pipes: seq<(nat, nat)>, pids: seq<int>,
                     waited: seq<int>, fds: set<nat>)

  /** The commands of a parsed line, as run_command needs them: entries 0
      and 1 exist, and every user entry carries its word. */
  predicate Launchable(p: Pipeline) {
    forall k :: 0 <= k < |p| ==> |p[k].redirs| >= 2 && HasPaths(p[k].redirs, 3)
  }

  /** The descriptors the parent holds when it launches a stage: its own,
      the pending read end, and the new pipe. */
  function StageTable(fds0: set<nat>, input: int, pipe: Option<(nat, nat)>): set<nat> {
    fds0 + (if input >= 0 then {input as nat} else {}) + (if pipe.Some? then {pipe.value.0, pipe.value.1} else {})
  }

  /** The number of pipes created once `i` stages have been attempted: one
      per stage except the last. */
  function PipesAfter(n: nat, i: nat): nat {
    if i == n && n > 0 then n - 1 else i
  }

  /** Stage `k` was launched as run_pipeline wires it: reading from the
      previous pipe (none for the first), writing to its own pipe (none for
      the last). */
  predicate Wired(p: Pipeline, fds0: set<nat>, os: Os, stages: seq<Stage>, pipes: seq<(nat, nat)>, k: nat)
    requires Launchable(p) && k < |stages| && k < |p|
    requires k > 0 ==> k - 1 < |pipes|
    requires k < |p| - 1 ==> k < |pipes|
    requires forall i :: os.fork(i) != 0
  {
    var st := stages[k];
    && st.input == (if k == 0 then -1 else pipes[k - 1].0)
    && st.output == (if k == |p| - 1 then -1 else pipes[k].1)
    && st.table == StageTable(fds0, st.input, if k == |p| - 1 then None else Some(pipes[k]))
    && st.launch == RunCommand(p[k], st.input, st.output, st.table, os.canOpen, os.fork(k))
  }

  /** Pipes are pairs of distinct descriptors the parent did not hold. */
  predicate FreshPipes(pipes: seq<(nat, nat)>, fds0: set<nat>) {
    forall k :: 0 <= k < |pipes| ==> pipes[k].0 !in fds0 && pipes[k].1 !in fds0 && pipes[k].0 != pipes[k].1
  }

  /** Appending a stage, and possibly a pipe, keeps earlier stages wired. */
  lemma WiredKept(p: Pipeline, fds0: set<nat>, os: Os, stages0: seq<Stage>, pipes0: seq<(nat, nat)>,
                  stages: seq<Stage>, pipes: seq<(nat, nat)>)
    requires Launchable(p) && forall i :: os.fork(i) != 0
    requires |stages0| < |stages| <= |p| && stages[..|stages0|] == stages0
    requires |pipes0| <= |pipes| && pipes[..|pipes0|] == pipes0
    requires |pipes0| == PipesAfter(|p|, |stages0|)
    requires forall k :: 0 <= k < |stages0| ==> Wired(p, fds0, os, stages0, pipes0, k)
    ensures forall k :: 0 <= k < |stages0| ==> Wired(p, fds0, os, stages, pipes, k)
  {
    forall k | 0 <= k < |stages0|
      ensures Wired(p, fds0, os, stages, pipes, k)
    {
      assert Wired(p, fds0, os, stages0, pipes0, k);
      assert stages[k] == stages0[k];
      assert k > 0 ==> pipes[k - 1] == pipes0[k - 1];
      assert k < |p| - 1 ==> pipes[k] == pipes0[k];
    }
  }

  /** A pipe made of two free descriptors is fresh. */
  lemma FreshPipeAdded(pipes: seq<(nat, nat)>, fds0: set<nat>, fds: set<nat>, r: nat, w: nat)
    requires FreshPipes(pipes, fds0) && fds0 <= fds && r !in fds && w !in fds + {r}
    ensures FreshPipes(pipes + [(r, w)], fds0)
  {
    var ps := pipes + [(r, w)];
    forall k | 0 <= k < |ps|
      ensures ps[k].0 !in fds0 && ps[k].1 !in fds0 && ps[k].0 != ps[k].1
    {
      if k < |pipes| {
        assert ps[k] == pipes[k];
      }
    }
  }

  /** After run_command closes what it was handed, the parent holds its
      own descriptors plus the read end of the new pipe, if any. */
  lemma StageBalance(fds0: set<nat>, prev: int, pipe: Option<(nat, nat)>)
    requires prev >= 0 ==> prev !in fds0
    requires pipe.Some? ==>
      && pipe.value.0 !in fds0 && pipe.value.1 !in fds0 && pipe.value.0 != pipe.value.1
      && pipe.value.0 != prev && pipe.value.1 != prev
    ensures var output := if pipe.Some? then pipe.value.1 as int else -1;
      StageTable(fds0, prev, pipe) - HandedSet(prev, output)
        == fds0 + (if pipe.Some? then {pipe.value.0} else {})
  {
  }

  /** The state run_pipeline carries from one stage to the next: the
      stages attempted, the pipes created, the pids recorded, the read end
      waiting for the next stage (-1 for none), and the parent's
      descriptors. */
  datatype Progress = Progress(stages: seq<Stage>, pipes: seq<(nat, nat)>, pids: seq<int>, prev: int, fds: set<nat>)

  /** The counts, the pipes and the parent's descriptors after `i`
      stages: one pipe per stage but the last, all fresh, and the parent
      holding its own descriptors plus the read end still to hand on. */
  predicate Balanced(p: Pipeline, fds0: set<nat>, i: nat, g: Progress) {
    && i <= |p| && |g.stages| == i && |g.pipes| == PipesAfter(|p|, i)
    && FreshPipes(g.pipes, fds0)
    && g.prev == (if i == 0 || i == |p| then -1 else g.pipes[i - 1].0)
    && g.fds == fds0 + (if g.prev >= 0 then {g.prev as nat} else {})
  }

  /** Every stage so far is wired. */
  predicate AllWired(p: Pipeline, fds0: set<nat>, os: Os, i: nat, g: Progress)
    requires Launchable(p) && forall k :: os.fork(k) != 0
    requires Balanced(p, fds0, i, g)
  {
    forall k :: 0 <= k < i ==> Wired(p, fds0, os, g.stages, g.pipes, k)
  }

  /** The loop invariant of run_pipeline after `i` stages. */
  predicate Invariant(p: Pipeline, fds0: set<nat>, os: Os, i: nat, g: Progress)
    requires Launchable(p) && forall k :: os.fork(k) != 0
  {
    && Balanced(p, fds0, i, g)
    && AllWired(p, fds0, os, i, g)
    && (forall k :: 0 <= k < i && k < |p| - 1 ==> os.pipeOk(k))
    && g.pids == LaunchedPids(g.stages)
  }

  /** The pipe stage `i` writes to, made of the two lowest free
      descriptors; none for the last stage. */
  function NewPipe(p: Pipeline, i: nat, fds: set<nat>): (pipe: Option<(nat, nat)>)
    ensures pipe.Some? <==> i < |p| - 1
    ensures pipe.Some? ==> pipe.value.0 !in fds && pipe.value.1 !in fds && pipe.value.0 != pipe.value.1
  {
    if i < |p| - 1 then
      var r := LowestFree(fds);
      Some((r, LowestFree(fds + {r})))
    else None
  }

  /** The stage `i` as run_pipeline launches it, given the pending read
      end and the new pipe. */
  function StageAt(p: Pipeline, fds0: set<nat>, os: Os, i: nat, prev: int, pipe: Option<(nat, nat)>): (st: Stage)
    requires Launchable(p) && forall k :: os.fork(k) != 0
    requires i < |p|
  {
    var output := if pipe.Some? then pipe.value.1 as int else -1;
    var table := StageTable(fds0, prev, pipe);
    Stage(prev, output, table, RunCommand(p[i], prev, output, table, os.canOpen, os.fork(i)))
  }

  /** One iteration of run_pipeline's loop, once its pipe2 succeeded. */
  function Step(p: Pipeline, fds0: set<nat>, os: Os, i: nat, g: Progress): Progress
    requires Launchable(p) && forall k :: os.fork(k) != 0
    requires i < |p|
  {
    var pipe := NewPipe(p, i, g.fds);
    var st := StageAt(p, fds0, os, i, g.prev, pipe);
    Progress(g.stages + [st], g.pipes + (if pipe.Some? then [pipe.value] else []),
             if st.launch.Launched? then g.pids + [st.launch.pid] else g.pids,
             if pipe.Some? then pipe.value.0 as int else -1,
             st.launch.fds)
  }

  /** One iteration keeps the counts, the freshness of the pipes and the
      balance of the parent's descriptors. */
  lemma StepBalanced(p: Pipeline, fds0: set<nat>, os: Os, i: nat, g: Progress)
    requires Launchable(p) && forall k :: os.fork(k) != 0
    requires i < |p| && Invariant(p, fds0, os, i, g)
    ensures Balanced(p, fds0, i + 1, Step(p, fds0, os, i, g))
  {
    var pipe := NewPipe(p, i, g.fds);
    var h := Step(p, fds0, os, i, g);
    if pipe.Some? {
      FreshPipeAdded(g.pipes, fds0, g.fds, pipe.value.0, pipe.value.1);
      assert h.pipes[i] == pipe.value;
    }
    StageBalance(fds0, g.prev, pipe);
  }

  /** The stage an iteration adds is wired. */
  lemma NewStageWired(p: Pipeline, fds0: set<nat>, os: Os, i: nat, g: Progress)
    requires Launchable(p) && forall k :: os.fork(k) != 0
    requires i < |p| && Invariant(p, fds0, os, i, g)
    ensures Balanced(p, fds0, i + 1, Step(p, fds0, os, i, g))
    ensures var h := Step(p, fds0, os, i, g);
      Wired(p, fds0, os, h.stages, h.pipes, i)
  {
    var h := Step(p, fds0, os, i, g);
    StepBalanced(p, fds0, os, i, g);
    var pipe := NewPipe(p, i, g.fds);
    assert h.stages[i] == StageAt(p, fds0, os, i, g.prev, pipe);
    if pipe.Some? {
      assert h.pipes[i] == pipe.value;
    }
  }

  /** One iteration keeps every stage wired, the new one included. */
  lemma StepWired(p: Pipeline, fds0: set<nat>, os: Os, i: nat, g: Progress)
    requires Launchable(p) && forall k :: os.fork(k) != 0
    requires i < |p| && Invariant(p, fds0, os, i, g)
    ensures Balanced(p, fds0, i + 1, Step(p, fds0, os, i, g))
    ensures AllWired(p, fds0, os, i + 1, Step(p, fds0, os, i, g))
  {
    var h := Step(p, fds0, os, i, g);
    NewStageWired(p, fds0, os, i, g);
    assert h.stages[..i] == g.stages;
    assert h.pipes[..|g.pipes|] == g.pipes;
    WiredKept(p, fds0, os, g.stages, g.pipes, h.stages, h.pipes);
    forall k | 0 <= k < i + 1
      ensures Wired(p, fds0, os, h.stages, h.pipes, k)
    {
      if k == i {
      }
    }
  }

  /** One iteration records the pid of the new stage exactly when its
      child started. */
  lemma StepPids(p: Pipeline, fds0: set<nat>, os: Os, i: nat, g: Progress)
    requires Launchable(p) && forall k :: os.fork(k) != 0
    requires i < |p| && Invariant(p, fds0, os, i, g)
    ensures var h := Step(p, fds0, os, i, g);
      h.pids == LaunchedPids(h.stages)
  {
    var h := Step(p, fds0, os, i, g);
    assert h.stages[..i] == g.stages;
  }

  /** One iteration, after a successful pipe2, keeps the invariant. */
  lemma StepKeeps(p: Pipeline, fds0: set<nat>, os: Os, i: nat, g: Progress)
    requires Launchable(p) && forall k :: os.fork(k) != 0
    requires i < |p| && Invariant(p, fds0, os, i, g)
    requires i < |p| - 1 ==> os.pipeOk(i)
    ensures Invariant(p, fds0, os, i + 1, Step(p, fds0, os, i, g))
  {
    StepBalanced(p, fds0, os, i, g);
    StepWired(p, fds0, os, i, g);
    StepPids(p, fds0, os, i, g);
    forall k | 0 <= k < i + 1 && k < |p| - 1
      ensures os.pipeOk(k)
    {
    }
  }

  /** run_pipeline. A failed pipe2 ends the run with status 1 after
      cleaning up; a command that cannot be launched is skipped and the next
      one still runs. */
  method RunPipeline(p: Pipeline, fds0: set<nat>, os: Os) returns (run: Run)
    requires Launchable(p)
    requires forall i :: os.fork(i) != 0
    ensures run.fds == fds0
    ensures run.pids == LaunchedPids(run.stages) && run.waited == run.pids
    ensures |run.stages| <= |p| && |run.pipes| == PipesAfter(|p|, |run.stages|) && FreshPipes(run.pipes, fds0)
    ensures forall k :: 0 <= k < |run.stages| ==> Wired(p, fds0, os, run.stages, run.pipes, k)
    ensures forall k :: 0 <= k < |run.stages| && k < |p| - 1 ==> os.pipeOk(k)
    ensures |run.stages| < |p| ==> !os.pipeOk(|run.stages|) && run.status == 1
    ensures |run.stages| == |p| ==> run.status == DerivedStatus(run.pids, os.wait)
  {
    var g := Progress([], [], [], -1, fds0);
    var i := 0;
    while i < |p|
      invariant Invariant(p, fds0, os, i, g)
    {
      if i < |p| - 1 && !os.pipeOk(i) {
        var status, left, waited := PipelineCleanup(g.prev, g.pids, g.fds, os.wait);
        return Run(1, g.stages, g.pipes, g.pids, waited, left);
      }
      StepKeeps(p, fds0, os, i, g);
      g := Step(p, fds0, os, i, g);
      i := i + 1;
    }
    var status, left, waited := PipelineCleanup(g.prev, g.pids, g.fds, os.wait);
    run := Run(status, g.stages, g.pipes, g.pids, waited, left);
  }

  /** Two neighbouring stages whose children started are joined by pipe
      `k - 1`: the earlier one's stdout entry has its write end as source,
      the later one's stdin entry its read end. */
  lemma NeighboursShareAPipe(p: Pipeline, fds0: set<nat>, os: Os, stages: seq<Stage>, pipes: seq<(nat, nat)>, k: nat)
    requires Launchable(p) && forall i :: os.fork(i) != 0
    requires 0 < k < |stages| <= |p| && |pipes| == PipesAfter(|p|, |stages|)
    requires Wired(p, fds0, os, stages, pipes, k - 1) && Wired(p, fds0, os, stages, pipes, k)
    requires stages[k - 1].launch.Launched? && stages[k].launch.Launched?
    ensures |stages[k - 1].launch.child.redirs| >= 2 && |stages[k].launch.child.redirs| >= 2
    ensures stages[k - 1].launch.child.redirs[1].fromFd == pipes[k - 1].1
    ensures stages[k].launch.child.redirs[0].fromFd == pipes[k - 1].0
  {
    var a, b := stages[k - 1], stages[k];
    RunCommandChild(p[k - 1], a.input, a.output, a.table, os.canOpen, os.fork(k - 1));
    RunCommandChild(p[k], b.input, b.output, b.table, os.canOpen, os.fork(k));
  }

  /** The first stage reads from its own stdin entry and the last writes to
      its own stdout entry: no pipe is attached at either end. */
  lemma EndsUnpiped(p: Pipeline, fds0: set<nat>, os: Os, stages: seq<Stage>, pipes: seq<(nat, nat)>)
    requires Launchable(p) && forall i :: os.fork(i) != 0
    requires 0 < |stages| <= |p| && |pipes| == PipesAfter(|p|, |stages|)
    requires forall k :: 0 <= k < |stages| ==> Wired(p, fds0, os, stages, pipes, k)
    ensures stages[0].input == -1
    ensures |stages| == |p| ==> stages[|p| - 1].output == -1
    ensures stages[0].launch.Launched? ==>
      |stages[0].launch.child.redirs| >= 2 && stages[0].launch.child.redirs[0].fromFd == p[0].redirs[0].fromFd
  {
    assert Wired(p, fds0, os, stages, pipes, 0);
    RunCommandChild(p[0], stages[0].input, stages[0].output, stages[0].table, os.canOpen, os.fork(0));
    if |stages| == |p| {
      assert Wired(p, fds0, os, stages, pipes, |p| - 1);
    }
  }

  /** Every command parse produces, whether or not the whole line parsed,
      can be handed to run_command and to the child's descriptor setup:
      it keeps the three standard entries, each user entry carries its
      word, and every target is a descriptor. */
  lemma ParsedCommandsLaunchable(input: string, toks: seq<Tokenizer.Token>)
    requires Parser.TokensIn(input, toks)
    ensures var cmds := Parser.Parse(input, toks).pipeline;
      && Launchable(cmds)
      && forall k :: 0 <= k < |cmds| ==> |cmds[k].redirs| >= 3 && Child.Targets(cmds[k].redirs)
  {
    var r := Parser.Parse(input, toks);
    var sp := ParserProofs.Spans(input, toks);
    ParserProofs.ParseSpec(input, toks, Parser.AsWritten);
    forall k | 0 <= k < |r.pipeline|
      ensures |r.pipeline[k].redirs| >= 3 && HasPaths(r.pipeline[k].redirs, 3) && Child.Targets(r.pipeline[k].redirs)
    {
      ParserProofs.ParseCommandOutcome(input, sp[k], Parser.AsWritten);
      ParserProofs.EntriesShape(input, sp[k], Parser.AsWritten);
      var es := ParseReference.Collect(ParseReference.EntryOpts(input, sp[k], Parser.AsWritten), |sp[k]|);
      var rs := r.pipeline[k].redirs;
      assert rs == DefaultRedirs() + es;
      forall j | 0 <= j < |rs|
        ensures rs[j].toFd >= 0 && (j >= 3 ==> rs[j].fromPath.Some?)
      {
        if j >= 3 {
          assert rs[j] == es[j - 3];
        }
      }
    }
  }
}
