/** The parent side of run_command in run.c: validating descriptor
    redirections against earlier ones (check_fd), reading a descriptor
    number, choosing open flags, and resolving every redirection source
    before the fork while owning, and finally closing, the descriptors it
    was handed and the files it opened. */
module Launch {
  import opened Base
  import opened Cmd
  import opened Num
  import opened FdTable

  /** The outcome of check_fd: success, or which of its three messages. */
  datatype FdCheck = FdOk | NotOpen | NotReadable | NotWritable

  /** What the newest entry for a descriptor allows, for a redirection of
      kind `want` that duplicates it. */
  function Capability(kind: RedirType, want: RedirType): (r: FdCheck)
    ensures r != NotOpen
    ensures r == FdOk <==>
      (want == FdIn ==> IsReadable(kind)) && (want == FdOut ==> IsWritable(kind))
    ensures r == NotReadable <==> want == FdIn && !IsReadable(kind)
    ensures r == NotWritable <==> want == FdOut && !IsWritable(kind)
  {
    if want == FdIn && !IsReadable(kind) then NotReadable
    else if want == FdOut && !IsWritable(kind) then NotWritable
    else FdOk
  }

  /** Entry `j` is the last of the first `len` entries that targets its
      descriptor. */
  predicate Newest(redirs: seq<Redir>, len: nat, j: nat)
    requires j < len <= |redirs|
  {
    forall k :: j < k < len ==> redirs[k].toFd != redirs[j].toFd
  }

  /** check_fd: scanning the entries before `len` from the newest down, the
      first one targeting `fd` decides by its kind; none means the
      descriptor is not open. */
  function CheckFd(redirs: seq<Redir>, len: nat, fd: int, want: RedirType): (r: FdCheck)
    requires len <= |redirs|
    ensures r == NotOpen <==> forall j :: 0 <= j < len ==> redirs[j].toFd != fd
    decreases len
  {
    if len == 0 then NotOpen
    else if redirs[len - 1].toFd == fd then Capability(redirs[len - 1].kind, want)
    else CheckFd(redirs, len - 1, fd, want)
  }

  /** The verdict is the capability of the newest entry targeting `fd`. An
      entry that closes its target still decides, as if it had opened it. */
  lemma {:induction false} CheckFdNewest(redirs: seq<Redir>, len: nat, fd: int, want: RedirType, j: nat)
    requires j < len <= |redirs| && redirs[j].toFd == fd && Newest(redirs, len, j)
    ensures CheckFd(redirs, len, fd, want) == Capability(redirs[j].kind, want)
    decreases len
  {
    if j < len - 1 {
      assert redirs[len - 1].toFd != fd;
      CheckFdNewest(redirs, len - 1, fd, want, j);
    }
  }

  /** Two entry lists with the same kinds and targets. */
  predicate SameTargets(a: seq<Redir>, b: seq<Redir>, len: nat)
    requires len <= |a| && len <= |b|
  {
    forall j :: 0 <= j < len ==> a[j].kind == b[j].kind && a[j].toFd == b[j].toFd
  }

  /** check_fd never looks at sources: resolving earlier entries (or
      closing their targets) does not change its verdict. */
  lemma {:induction false} CheckFdIgnoresSources(a: seq<Redir>, b: seq<Redir>, len: nat, fd: int, want: RedirType)
    requires len <= |a| && len <= |b| && SameTargets(a, b, len)
    ensures CheckFd(a, len, fd, want) == CheckFd(b, len, fd, want)
    decreases len
  {
    if len > 0 && a[len - 1].toFd != fd {
      CheckFdIgnoresSources(a, b, len - 1, fd, want);
    }
  }

  /** The three standard descriptors before any user redirection: 0 is
      only readable, 1 and 2 only writable, and nothing else is open. */
  lemma CheckFdDefaults(fd: int)
    ensures CheckFd(DefaultRedirs(), 3, 0, FdIn) == FdOk
    ensures CheckFd(DefaultRedirs(), 3, 0, FdOut) == NotWritable
    ensures CheckFd(DefaultRedirs(), 3, 1, FdIn) == NotReadable
    ensures CheckFd(DefaultRedirs(), 3, 1, FdOut) == FdOk
    ensures CheckFd(DefaultRedirs(), 3, 2, FdOut) == FdOk
    ensures !(0 <= fd < 3) ==> CheckFd(DefaultRedirs(), 3, fd, FdIn) == NotOpen
    ensures !(0 <= fd < 3) ==> CheckFd(DefaultRedirs(), 3, fd, FdOut) == NotOpen
  {
  }

  /** How a descriptor redirection's source word is read. */
  datatype DupSource = CloseTarget | DupFrom(fd: nat) | BadFd

  /** The source word of `N<&word` / `N>&word`: "-" closes the target;
      otherwise strtol must consume the whole word and yield a value in
      [0, INT_MAX]. The empty word is consumed entirely and reads as 0. */
  function ParseDupSource(path: string): (r: DupSource)
    ensures path == "-" ==> r == CloseTarget
    ensures r.DupFrom? ==> r.fd <= IntMax && StrToL(path) == Conversion(r.fd, |path|)
    ensures r == BadFd <==>
      path != "-" && (StrToL(path).consumed != |path| || !InFdRange(StrToL(path).value))
  {
    if path == "-" then CloseTarget
    else
      var c := StrToL(path);
      if c.consumed != |path| || !InFdRange(c.value) then BadFd else DupFrom(c.value)
  }

  /** Writing a descriptor number in decimal and reading it back gives the
      same descriptor; with anything after the digits it is rejected. */
  lemma DupSourceDecimal(n: nat, junk: char)
    requires n <= IntMax && !IsDigit(junk)
    ensures ParseDupSource(Decimal(n)) == DupFrom(n)
    ensures ParseDupSource(Decimal(n) + [junk]) == BadFd
  {
    Num.StrToLDecimal(n, []);
    assert Decimal(n) + [] == Decimal(n);
    Num.StrToLDecimal(n, [junk]);
    Num.DecimalDigits(n);
  }

  /** Edge cases strtol lets through: an empty word is descriptor 0, and a
      leading sign is accepted, so "-0" is 0 and "+2" is 2; "-1" is not a
      descriptor, and neither is INT_MAX + 1. */
  lemma DupSourceEdges()
    ensures ParseDupSource("") == DupFrom(0)
    ensures ParseDupSource("-0") == DupFrom(0)
    ensures ParseDupSource("+2") == DupFrom(2)
    ensures ParseDupSource("-1") == BadFd
    ensures ParseDupSource(Decimal(IntMax + 1)) == BadFd
  {
    assert StrToL("") == Conversion(0, 0);
    assert Decimal(0) == "0" && Decimal(1) == "1" && Decimal(2) == "2";
    Num.StrToLSigned(0, '-');
    assert "-0" == ['-'] + Decimal(0);
    Num.StrToLSigned(2, '+');
    assert "+2" == ['+'] + Decimal(2);
    Num.StrToLSigned(1, '-');
    assert "-1" == ['-'] + Decimal(1);
    Num.StrToLDecimal(IntMax + 1, []);
    assert Decimal(IntMax + 1) + [] == Decimal(IntMax + 1);
  }

  /** The open(2) flags run_command can pass. */
  datatype OpenFlag = ReadOnly | WriteOnly | ReadWrite | Create | Truncate | Append | CloseOnExec

  /** The flags for opening a file source: the access mode follows the
      kind's capabilities, writable kinds create the file, only `>` truncates
      and only `>>` appends, and the descriptor never leaks into an exec. */
  function OpenFlags(kind: RedirType): (f: set<OpenFlag>)
    requires IsFile(kind)
    ensures CloseOnExec in f
    ensures (ReadOnly in f || ReadWrite in f) <==> IsReadable(kind)
    ensures (WriteOnly in f || ReadWrite in f) <==> IsWritable(kind)
    ensures ReadOnly in f || WriteOnly in f || ReadWrite in f
    ensures ReadOnly in f ==> WriteOnly !in f && ReadWrite !in f
    ensures WriteOnly in f ==> ReadWrite !in f
    ensures Create in f <==> IsWritable(kind)
    ensures Truncate in f <==> kind == FileTrunc
    ensures Append in f <==> kind == FileAppend
  {
    var access := match kind
      case FileIn => {ReadOnly}
      case FileTrunc => {WriteOnly, Create, Truncate}
      case FileAppend => {WriteOnly, Create, Append}
      case FileInOut => {ReadWrite, Create}
      case _ => {};
    access + {CloseOnExec}
  }

  /** Why run_command gives up before or at the fork. */
  datatype LaunchError =
    | InvalidFd(path: string)
    | BadFdRef(fd: nat, why: FdCheck)
    | OpenFailed(path: string, flags: set<OpenFlag>)
    | ForkFailed

  /** The parent's descriptors as they stand once `owned` is closed. */
  function CloseFds(fds: set<nat>, owned: seq<nat>): (r: set<nat>)
    ensures forall x :: x in r <==> x in fds && x !in owned
  {
    if |owned| == 0 then fds else CloseFds(fds, owned[..|owned| - 1]) - {owned[|owned| - 1]}
  }

  /** The entries being resolved, the parent's open descriptors, and the
      descriptors run_command must close before returning. */
  datatype Setup = Setup(redirs: seq<Redir>, fds: set<nat>, owned: seq<nat>)

  datatype Resolution = Resolved(st: Setup) | Stopped(err: LaunchError, st: Setup)

  /** Kinds, targets and paths agree: only sources may differ. */
  predicate SameShape(a: seq<Redir>, b: seq<Redir>) {
    && |a| == |b|
    && forall k :: 0 <= k < |a| ==>
         a[k].kind == b[k].kind && a[k].toFd == b[k].toFd && a[k].fromPath == b[k].fromPath
  }

  lemma SameShapeTrans(a: seq<Redir>, b: seq<Redir>, c: seq<Redir>)
    requires SameShape(a, b) && SameShape(b, c)
    ensures SameShape(a, c)
  {
  }

  /** Every entry from `i` on carries a source word. */
  predicate HasPaths(redirs: seq<Redir>, i: nat) {
    forall k :: i <= k < |redirs| ==> redirs[k].fromPath.Some?
  }

  /** The loop of run_command from entry `i`: a descriptor entry is "-",
      a valid descriptor number that check_fd accepts, or an error; a file
      entry is opened at the lowest free descriptor and owned from then on.
      `canOpen` stands for whether open(2) succeeds on a path with flags. */
  function ResolveFrom(i: nat, st: Setup, canOpen: (string, set<OpenFlag>) -> bool): (r: Resolution)
    requires i <= |st.redirs| && HasPaths(st.redirs, i)
    ensures SameShape(st.redirs, r.st.redirs)
    ensures forall k :: 0 <= k < i ==> r.st.redirs[k] == st.redirs[k]
    ensures st.fds <= r.st.fds
    decreases |st.redirs| - i
  {
    if i == |st.redirs| then Resolved(st)
    else
      var rd := st.redirs[i];
      var path := rd.fromPath.value;
      if IsFd(rd.kind) then
        match ParseDupSource(path)
        case BadFd => Stopped(InvalidFd(path), st)
        case CloseTarget => ResolveFrom(i + 1, st.(redirs := st.redirs[i := rd.(fromFd := -1)]), canOpen)
        case DupFrom(n) =>
          var next := st.(redirs := st.redirs[i := rd.(fromFd := n)]);
          var verdict := CheckFd(st.redirs, i, n, rd.kind);
          if verdict != FdOk then Stopped(BadFdRef(n, verdict), next)
          else ResolveFrom(i + 1, next, canOpen)
      else
        var flags := OpenFlags(rd.kind);
        if !canOpen(path, flags) then Stopped(OpenFailed(path, flags), st)
        else
          var fd := LowestFree(st.fds);
          ResolveFrom(i + 1, Setup(st.redirs[i := rd.(fromFd := fd)], st.fds + {fd}, st.owned + [fd]), canOpen)
  }

  /** Opening a file at a free descriptor and taking ownership of it
      leaves the table-after-closing unchanged. */
  lemma OwnFresh(fds: set<nat>, owned: seq<nat>, fd: nat)
    requires fd !in fds
    ensures CloseFds(fds + {fd}, owned + [fd]) == CloseFds(fds, owned)
  {
  }

  /** Whatever the loop does, closing what it owns at the end leaves the
      parent with the descriptors it would have had by closing what it
      owned at the start: every file it opens it also closes. */
  lemma {:induction false} ResolveFromReleases(i: nat, st: Setup, canOpen: (string, set<OpenFlag>) -> bool)
    requires i <= |st.redirs| && HasPaths(st.redirs, i)
    ensures var r := ResolveFrom(i, st, canOpen);
      CloseFds(r.st.fds, r.st.owned) == CloseFds(st.fds, st.owned)
    decreases |st.redirs| - i
  {
    if i < |st.redirs| {
      ResolveStepFds(i, st, canOpen);
      if RedirOk(st.redirs, i, canOpen) {
        ResolveFromReleases(i + 1, Advance(i, st), canOpen);
        AdvanceReleases(i, st);
      }
    }
  }

  /** One passing entry leaves the table-after-closing as it was: a
      descriptor entry touches neither, and a file is opened at a free
      descriptor that is owned at once. */
  lemma AdvanceReleases(i: nat, st: Setup)
    requires i < |st.redirs| && st.redirs[i].fromPath.Some?
    ensures CloseFds(Advance(i, st).fds, Advance(i, st).owned) == CloseFds(st.fds, st.owned)
  {
    if !IsFd(st.redirs[i].kind) {
      OwnFresh(st.fds, st.owned, LowestFree(st.fds));
    }
  }

  /** What a parent's view of a run_command call ends in: a child with its
      resolved entries (`atFork` being the parent's descriptors the child
      inherits), or an error; `fds` is the parent's table afterwards. */
  datatype Launch =
    | Launched(pid: int, child: Command, atFork: set<nat>, fds: set<nat>)
    | Refused(err: LaunchError, fds: set<nat>)

  /** The descriptors handed to run_command, which it takes over. */
  function Handed(fd0: int, fd1: int): (h: seq<nat>)
    ensures forall x :: x in h <==> (x == fd0 && fd0 >= 0) || (x == fd1 && fd1 >= 0)
  {
    (if fd0 >= 0 then [fd0 as nat] else []) + (if fd1 >= 0 then [fd1 as nat] else [])
  }

  /** The handed descriptors as a set. */
  function HandedSet(fd0: int, fd1: int): (h: set<nat>)
    ensures forall x :: x in h <==> x in Handed(fd0, fd1)
  {
    (if fd0 >= 0 then {fd0 as nat} else {}) + (if fd1 >= 0 then {fd1 as nat} else {})
  }

  lemma ClosingHanded(fds: set<nat>, fd0: int, fd1: int)
    ensures CloseFds(fds, Handed(fd0, fd1)) == fds - HandedSet(fd0, fd1)
  {
    var a, b := CloseFds(fds, Handed(fd0, fd1)), fds - HandedSet(fd0, fd1);
    assert forall x :: x in a <==> x in b;
  }

  /** Entries 0 and 1 with the handed descriptors as their sources. */
  function Seeded(redirs: seq<Redir>, fd0: int, fd1: int): (r: seq<Redir>)
    requires fd0 >= 0 ==> |redirs| > 0
    requires fd1 >= 0 ==> |redirs| > 1
    ensures SameShape(redirs, r)
    ensures forall k :: 0 <= k < |r| ==>
      r[k].fromFd == (if k == 0 && fd0 >= 0 then fd0 else if k == 1 && fd1 >= 0 then fd1 else redirs[k].fromFd)
  {
    var r0 := if fd0 >= 0 then redirs[0 := redirs[0].(fromFd := fd0)] else redirs;
    var r1 := if fd1 >= 0 then r0[1 := r0[1].(fromFd := fd1)] else r0;
    assert SameShape(redirs, r0) && SameShape(r0, r1);
    SameShapeTrans(redirs, r0, r1);
    r1
  }

  /** Where the loop over user entries starts: entry 3, or the end. */
  function FirstUser(redirs: seq<Redir>): nat {
    if |redirs| < 3 then |redirs| else 3
  }

  /** run_command: `fd0` and `fd1`, when not negative, become the sources of
      entries 0 and 1; every entry from 3 on is resolved; then the process
      forks (`fork` is the result fork(2) returns in the parent). On every
      path the parent ends up holding exactly what it held before minus the
      descriptors it handed over. */
  function RunCommand(cmd: Command, fd0: int, fd1: int, fds: set<nat>,
                      canOpen: (string, set<OpenFlag>) -> bool, fork: int): (r: Launch)
    requires fd0 >= 0 ==> |cmd.redirs| > 0
    requires fd1 >= 0 ==> |cmd.redirs| > 1
    requires HasPaths(cmd.redirs, 3)
    requires fork != 0
    ensures r.fds == fds - HandedSet(fd0, fd1)
    ensures r.Launched? ==> r.pid == fork && r.child.args == cmd.args && fds <= r.atFork
    ensures r.Launched? ==> SameShape(cmd.redirs, r.child.redirs)
  {
    var seeded := Seeded(cmd.redirs, fd0, fd1);
    var st := Setup(seeded, fds, Handed(fd0, fd1));
    var res := ResolveFrom(FirstUser(seeded), st, canOpen);
    ResolveFromReleases(FirstUser(seeded), st, canOpen);
    SameShapeTrans(cmd.redirs, seeded, res.st.redirs);
    var left := CloseFds(res.st.fds, res.st.owned);
    ClosingHanded(fds, fd0, fd1);
    if res.Stopped? then Refused(res.err, left)
    else if fork < 0 then Refused(ForkFailed, left)
    else Launched(fork, Command(cmd.args, res.st.redirs), res.st.fds, left)
  }


  /** Entry `k` passes run_command's checks: a descriptor source is "-" or
      a valid number that check_fd accepts against the entries before `k`;
      a file source can be opened with the flags of its kind. */
  predicate RedirOk(redirs: seq<Redir>, k: nat, canOpen: (string, set<OpenFlag>) -> bool)
    requires k < |redirs| && redirs[k].fromPath.Some?
  {
    var rd := redirs[k];
    if IsFd(rd.kind) then
      match ParseDupSource(rd.fromPath.value)
      case BadFd => false
      case CloseTarget => true
      case DupFrom(n) => CheckFd(redirs, k, n, rd.kind) == FdOk
    else canOpen(rd.fromPath.value, OpenFlags(rd.kind))
  }

  /** The error reported for an entry that fails its check. */
  function Failure(redirs: seq<Redir>, k: nat): LaunchError
    requires k < |redirs| && redirs[k].fromPath.Some?
  {
    var rd := redirs[k];
    if IsFd(rd.kind) then
      match ParseDupSource(rd.fromPath.value)
      case DupFrom(n) => BadFdRef(n, CheckFd(redirs, k, n, rd.kind))
      case _ => InvalidFd(rd.fromPath.value)
    else OpenFailed(rd.fromPath.value, OpenFlags(rd.kind))
  }

  /** Entry `k` is the first from `i` on to fail. */
  predicate FirstFailure(redirs: seq<Redir>, i: nat, k: nat, canOpen: (string, set<OpenFlag>) -> bool)
    requires i <= k < |redirs| && HasPaths(redirs, i)
  {
    && !RedirOk(redirs, k, canOpen)
    && forall m :: i <= m < k ==> RedirOk(redirs, m, canOpen)
  }

  /** The source entry `rd` received for the word of `orig`: -1 for "-",
      the number read for a descriptor, and for a file a descriptor that was
      not open in `before` and is open in `after`. */
  predicate Installed(rd: Redir, orig: Redir, before: set<nat>, after: set<nat>)
    requires orig.fromPath.Some?
  {
    if IsFd(orig.kind) then
      match ParseDupSource(orig.fromPath.value)
      case CloseTarget => rd.fromFd == -1
      case DupFrom(n) => rd.fromFd == n
      case BadFd => false
    else rd.fromFd >= 0 && rd.fromFd in after && rd.fromFd !in before
  }

  lemma RedirOkShape(a: seq<Redir>, b: seq<Redir>, k: nat, canOpen: (string, set<OpenFlag>) -> bool)
    requires SameShape(a, b) && k < |a| && a[k].fromPath.Some?
    ensures RedirOk(a, k, canOpen) == RedirOk(b, k, canOpen)
    ensures Failure(a, k) == Failure(b, k)
  {
    if IsFd(a[k].kind) && ParseDupSource(a[k].fromPath.value).DupFrom? {
      CheckFdIgnoresSources(a, b, k, ParseDupSource(a[k].fromPath.value).fd, a[k].kind);
    }
  }

  /** The state after entry `i` passes its check. */
  function Advance(i: nat, st: Setup): Setup
    requires i < |st.redirs| && st.redirs[i].fromPath.Some?
  {
    var rd := st.redirs[i];
    if IsFd(rd.kind) then
      match ParseDupSource(rd.fromPath.value)
      case CloseTarget => st.(redirs := st.redirs[i := rd.(fromFd := -1)])
      case DupFrom(n) => st.(redirs := st.redirs[i := rd.(fromFd := n)])
      case BadFd => st
    else
      var fd := LowestFree(st.fds);
      Setup(st.redirs[i := rd.(fromFd := fd)], st.fds + {fd}, st.owned + [fd])
  }

  /** One iteration of the loop, as far as the parent's descriptors go: a
      failing entry stops the loop with them as they were; a passing one
      moves on to the next entry. */
  lemma ResolveStepFds(i: nat, st: Setup, canOpen: (string, set<OpenFlag>) -> bool)
    requires i < |st.redirs| && HasPaths(st.redirs, i)
    ensures !RedirOk(st.redirs, i, canOpen) ==>
      var r := ResolveFrom(i, st, canOpen);
      r.Stopped? && r.st.fds == st.fds && r.st.owned == st.owned
    ensures RedirOk(st.redirs, i, canOpen) ==>
      && |Advance(i, st).redirs| == |st.redirs| && HasPaths(Advance(i, st).redirs, i + 1)
      && ResolveFrom(i, st, canOpen) == ResolveFrom(i + 1, Advance(i, st), canOpen)
  {
  }

  /** One iteration of the loop: a failing entry stops it with its error;
      a passing one moves on, leaving the later entries' checks unchanged. */
  lemma ResolveStep(i: nat, st: Setup, canOpen: (string, set<OpenFlag>) -> bool)
    requires i < |st.redirs| && HasPaths(st.redirs, i)
    ensures !RedirOk(st.redirs, i, canOpen) ==>
      ResolveFrom(i, st, canOpen).Stopped? && ResolveFrom(i, st, canOpen).err == Failure(st.redirs, i)
    ensures var next := Advance(i, st);
      RedirOk(st.redirs, i, canOpen) ==>
        && SameShape(st.redirs, next.redirs) && HasPaths(next.redirs, i + 1)
        && ResolveFrom(i, st, canOpen) == ResolveFrom(i + 1, next, canOpen)
        && forall k :: i < k < |st.redirs| ==>
             RedirOk(st.redirs, k, canOpen) == RedirOk(next.redirs, k, canOpen)
             && Failure(st.redirs, k) == Failure(next.redirs, k)
  {
    var next := Advance(i, st);
    if RedirOk(st.redirs, i, canOpen) {
      forall k | i < k < |st.redirs|
        ensures RedirOk(st.redirs, k, canOpen) == RedirOk(next.redirs, k, canOpen)
        ensures Failure(st.redirs, k) == Failure(next.redirs, k)
      {
        RedirOkShape(st.redirs, next.redirs, k, canOpen);
      }
    }
  }

  /** A passing entry receives the source its word names. */
  lemma AdvanceInstalls(i: nat, st: Setup, canOpen: (string, set<OpenFlag>) -> bool)
    requires i < |st.redirs| && st.redirs[i].fromPath.Some? && RedirOk(st.redirs, i, canOpen)
    ensures st.fds <= Advance(i, st).fds
    ensures Installed(Advance(i, st).redirs[i], st.redirs[i], st.fds, Advance(i, st).fds)
  {
  }

  /** A file entry gets the lowest descriptor the parent does not hold, as
      open(2) returns, and the parent now holds it too. */
  lemma AdvanceOpensLowest(i: nat, st: Setup)
    requires i < |st.redirs| && st.redirs[i].fromPath.Some? && !IsFd(st.redirs[i].kind)
    ensures var fd := Advance(i, st).redirs[i].fromFd;
      && fd >= 0 && fd !in st.fds && Advance(i, st).fds == st.fds + {fd}
      && forall m: nat :: m < fd ==> m in st.fds
  {
  }

  /** Every entry from `i` on passes its check. */
  predicate AllOk(redirs: seq<Redir>, i: nat, canOpen: (string, set<OpenFlag>) -> bool)
    requires HasPaths(redirs, i)
  {
    forall k :: i <= k < |redirs| ==> RedirOk(redirs, k, canOpen)
  }

  /** Past a passing entry, the later entries pass in the advanced state
      exactly when they passed before. */
  lemma AllOkShift(i: nat, st: Setup, canOpen: (string, set<OpenFlag>) -> bool)
    requires i < |st.redirs| && HasPaths(st.redirs, i) && RedirOk(st.redirs, i, canOpen)
    ensures HasPaths(Advance(i, st).redirs, i + 1)
    ensures AllOk(st.redirs, i, canOpen) <==> AllOk(Advance(i, st).redirs, i + 1, canOpen)
  {
    ResolveStep(i, st, canOpen);
    var next := Advance(i, st);
    if AllOk(next.redirs, i + 1, canOpen) {
      forall k | i <= k < |st.redirs|
        ensures RedirOk(st.redirs, k, canOpen)
      {
        if k > i {
          assert RedirOk(next.redirs, k, canOpen);
        }
      }
    }
  }

  /** The loop resolves every entry exactly when each passes its check. */
  lemma {:induction false} ResolveFromIff(i: nat, st: Setup, canOpen: (string, set<OpenFlag>) -> bool)
    requires i <= |st.redirs| && HasPaths(st.redirs, i)
    ensures ResolveFrom(i, st, canOpen).Resolved? <==> AllOk(st.redirs, i, canOpen)
    decreases |st.redirs| - i
  {
    if i < |st.redirs| {
      ResolveStepFds(i, st, canOpen);
      if RedirOk(st.redirs, i, canOpen) {
        AllOkShift(i, st, canOpen);
        ResolveFromIff(i + 1, Advance(i, st), canOpen);
      } else {
        assert !AllOk(st.redirs, i, canOpen);
      }
    }
  }

  /** Once resolved, every entry from `i` on holds the source its word
      names. */
  /** Installation depends only on the entry's kind and word, and a
      smaller starting table keeps a fresh descriptor fresh. */
  lemma InstalledWeaken(rd: Redir, a: Redir, b: Redir, before: set<nat>, smaller: set<nat>, after: set<nat>, larger: set<nat>)
    requires a.fromPath.Some? && a.kind == b.kind && a.fromPath == b.fromPath
    requires smaller <= before && after <= larger
    requires Installed(rd, a, before, after)
    ensures Installed(rd, b, smaller, larger)
  {
  }

  lemma {:induction false} ResolveFromInstalls(i: nat, st: Setup, canOpen: (string, set<OpenFlag>) -> bool)
    requires i <= |st.redirs| && HasPaths(st.redirs, i)
    ensures var r := ResolveFrom(i, st, canOpen);
      r.Resolved? ==>
        forall k :: i <= k < |st.redirs| ==> Installed(r.st.redirs[k], st.redirs[k], st.fds, r.st.fds)
    decreases |st.redirs| - i
  {
    var r := ResolveFrom(i, st, canOpen);
    if i < |st.redirs| && r.Resolved? {
      var next := Advance(i, st);
      ResolveStep(i, st, canOpen);
      AdvanceInstalls(i, st, canOpen);
      ResolveFromInstalls(i + 1, next, canOpen);
      var fin := ResolveFrom(i + 1, next, canOpen);
      assert r == fin;
      assert fin.st.redirs[i] == next.redirs[i];
      InstalledWeaken(fin.st.redirs[i], st.redirs[i], st.redirs[i], st.fds, st.fds, next.fds, fin.st.fds);
      forall k | i < k < |st.redirs|
        ensures Installed(fin.st.redirs[k], st.redirs[k], st.fds, fin.st.fds)
      {
        InstalledWeaken(fin.st.redirs[k], next.redirs[k], st.redirs[k], next.fds, st.fds, fin.st.fds, fin.st.fds);
      }
    }
  }

  /** The first failure from `i + 1` on, after a passing entry `i`, is the
      first failure from `i` on. */
  lemma FirstFailureShift(a: seq<Redir>, b: seq<Redir>, i: nat, k: nat, canOpen: (string, set<OpenFlag>) -> bool)
    requires i < k < |a| && HasPaths(a, i) && SameShape(a, b) && RedirOk(a, i, canOpen)
    requires forall m :: i < m < |a| ==>
      RedirOk(a, m, canOpen) == RedirOk(b, m, canOpen) && Failure(a, m) == Failure(b, m)
    requires FirstFailure(b, i + 1, k, canOpen)
    ensures FirstFailure(a, i, k, canOpen) && Failure(a, k) == Failure(b, k)
  {
    assert !RedirOk(b, k, canOpen);
    forall m | i <= m < k
      ensures RedirOk(a, m, canOpen)
    {
      if m > i {
        assert RedirOk(b, m, canOpen);
      }
    }
  }

  /** `r`, if stopped, reports the error of the first entry from `i` on
      that fails its check. */
  predicate ReportsFirst(redirs: seq<Redir>, i: nat, r: Resolution, canOpen: (string, set<OpenFlag>) -> bool)
    requires i <= |redirs| && HasPaths(redirs, i)
  {
    r.Stopped? ==> exists k :: i <= k < |redirs| && FirstFailure(redirs, i, k, canOpen) && r.err == Failure(redirs, k)
  }

  /** A passing entry hands the report over to the rest of the loop. */
  lemma ReportsFirstShift(i: nat, st: Setup, canOpen: (string, set<OpenFlag>) -> bool)
    requires i < |st.redirs| && HasPaths(st.redirs, i) && RedirOk(st.redirs, i, canOpen)
    requires HasPaths(Advance(i, st).redirs, i + 1)
    requires ReportsFirst(Advance(i, st).redirs, i + 1, ResolveFrom(i + 1, Advance(i, st), canOpen), canOpen)
    ensures ReportsFirst(st.redirs, i, ResolveFrom(i, st, canOpen), canOpen)
  {
    var next := Advance(i, st);
    ResolveStep(i, st, canOpen);
    var r := ResolveFrom(i + 1, next, canOpen);
    if r.Stopped? {
      var k :| i + 1 <= k < |st.redirs| && FirstFailure(next.redirs, i + 1, k, canOpen) && r.err == Failure(next.redirs, k);
      FirstFailureShift(st.redirs, next.redirs, i, k, canOpen);
    }
  }

  /** A stopped loop reports the error of the first failing entry. */
  lemma {:induction false} ResolveFromStops(i: nat, st: Setup, canOpen: (string, set<OpenFlag>) -> bool)
    requires i <= |st.redirs| && HasPaths(st.redirs, i)
    ensures ReportsFirst(st.redirs, i, ResolveFrom(i, st, canOpen), canOpen)
    decreases |st.redirs| - i
  {
    if i < |st.redirs| {
      ResolveStep(i, st, canOpen);
      if !RedirOk(st.redirs, i, canOpen) {
        assert FirstFailure(st.redirs, i, i, canOpen);
      } else {
        ResolveFromStops(i + 1, Advance(i, st), canOpen);
        ReportsFirstShift(i, st, canOpen);
      }
    }
  }

  /** All user entries of `cmd` pass their checks. */
  predicate Resolvable(cmd: Command, canOpen: (string, set<OpenFlag>) -> bool)
    requires HasPaths(cmd.redirs, 3)
  {
    forall k :: 3 <= k < |cmd.redirs| ==> RedirOk(cmd.redirs, k, canOpen)
  }

  /** run_command forks exactly when every user entry passes and fork
      succeeds; a failed fork is reported only then; any other error is the
      one of the first failing entry. */
  lemma RunCommandOutcome(cmd: Command, fd0: int, fd1: int, fds: set<nat>,
                          canOpen: (string, set<OpenFlag>) -> bool, fork: int)
    requires fd0 >= 0 ==> |cmd.redirs| > 0
    requires fd1 >= 0 ==> |cmd.redirs| > 1
    requires HasPaths(cmd.redirs, 3)
    requires fork != 0
    ensures var r := RunCommand(cmd, fd0, fd1, fds, canOpen, fork);
      && (r.Launched? <==> fork > 0 && Resolvable(cmd, canOpen))
      && (r.Refused? && r.err == ForkFailed <==> fork < 0 && Resolvable(cmd, canOpen))
      && (r.Refused? && r.err != ForkFailed ==>
            exists k :: 3 <= k < |cmd.redirs| && FirstFailure(cmd.redirs, 3, k, canOpen) && r.err == Failure(cmd.redirs, k))
  {
    var seeded := Seeded(cmd.redirs, fd0, fd1);
    var st := Setup(seeded, fds, Handed(fd0, fd1));
    var first := FirstUser(seeded);
    ResolveFromIff(first, st, canOpen);
    ResolveFromStops(first, st, canOpen);
    forall k | 3 <= k < |cmd.redirs|
      ensures RedirOk(cmd.redirs, k, canOpen) == RedirOk(seeded, k, canOpen)
      ensures Failure(cmd.redirs, k) == Failure(seeded, k)
    {
      RedirOkShape(cmd.redirs, seeded, k, canOpen);
    }
    var res := ResolveFrom(first, st, canOpen);
    if res.Stopped? {
      assert res.err.InvalidFd? || res.err.BadFdRef? || res.err.OpenFailed?;
    }
  }

  /** In a launched child, entries 0 and 1 read from the handed descriptors
      (when given), entry 2 is untouched, and every user entry holds the
      source its word names: "-" as -1, a number as itself, a file as a
      descriptor the parent opened for it and holds at the fork. */
  lemma RunCommandChild(cmd: Command, fd0: int, fd1: int, fds: set<nat>,
                        canOpen: (string, set<OpenFlag>) -> bool, fork: int)
    requires fd0 >= 0 ==> |cmd.redirs| > 0
    requires fd1 >= 0 ==> |cmd.redirs| > 1
    requires HasPaths(cmd.redirs, 3)
    requires fork != 0
    ensures var r := RunCommand(cmd, fd0, fd1, fds, canOpen, fork);
      r.Launched? ==>
        && (|cmd.redirs| > 0 ==> r.child.redirs[0].fromFd == if fd0 >= 0 then fd0 else cmd.redirs[0].fromFd)
        && (|cmd.redirs| > 1 ==> r.child.redirs[1].fromFd == if fd1 >= 0 then fd1 else cmd.redirs[1].fromFd)
        && (|cmd.redirs| > 2 ==> r.child.redirs[2] == cmd.redirs[2])
        && forall k :: 3 <= k < |cmd.redirs| ==> Installed(r.child.redirs[k], cmd.redirs[k], fds, r.atFork)
  {
    var seeded := Seeded(cmd.redirs, fd0, fd1);
    var st := Setup(seeded, fds, Handed(fd0, fd1));
    var first := FirstUser(seeded);
    ResolveFromInstalls(first, st, canOpen);
    var res := ResolveFrom(first, st, canOpen);
    if res.Resolved? && fork > 0 {
      forall k | 3 <= k < |cmd.redirs|
        ensures Installed(res.st.redirs[k], cmd.redirs[k], fds, res.st.fds)
      {
        InstalledWeaken(res.st.redirs[k], seeded[k], cmd.redirs[k], fds, fds, res.st.fds, res.st.fds);
      }
      if |cmd.redirs| > 2 {
        assert cmd.redirs[2] == seeded[2];
      }
    }
  }
}
