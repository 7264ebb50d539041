/** The child side of run_command in run.c: init_child_fds, which applies
    each redirection in order with dup2 and close, after fix_fds has moved
    every file source that the next step would overwrite to a fresh
    close-on-exec descriptor; and the exit codes of a child that cannot
    start its program. */
module Child {
  import opened Base
  import opened Cmd
  import opened FdTable

  /** A slot of the child's descriptor table: the open file description it
      refers to, and its close-on-exec flag. */
  datatype Entry = Entry(desc: nat, cloexec: bool)

  type Table = map<nat, Entry>

  /** What the program started by execvp sees: the descriptors without
      close-on-exec, and what they refer to. */
  function ExecView(t: Table): map<nat, nat> {
    map f | f in t && !t[f].cloexec :: t[f].desc
  }

  /** dup2(2): fails on a source that is not open; copying a descriptor
      onto itself changes nothing; otherwise the target is (re)opened on the
      source's description, without close-on-exec. */
  function Dup2(t: Table, from: int, to: nat): (r: Option<Table>)
    ensures r.Some? <==> from >= 0 && from in t
    ensures r.Some? ==> to in r.value && r.value[to].desc == t[from].desc
    ensures r.Some? ==> forall f :: f != to ==> (f in r.value <==> f in t) && (f in t ==> r.value[f] == t[f])
    ensures r.Some? && from != to ==> !r.value[to].cloexec
    ensures r.Some? && from == to ==> r.value == t
  {
    if from < 0 || from !in t then None
    else if from == to then Some(t)
    else Some(t[to := Entry(t[from].desc, false)])
  }

  /** close(2), whose failure on a descriptor that is not open is ignored. */
  function Close(t: Table, fd: nat): (r: Table)
    ensures fd !in r
    ensures forall f :: f != fd ==> (f in r <==> f in t) && (f in t ==> r[f] == t[f])
  {
    t - {fd}
  }

  /** fcntl(from, F_DUPFD_CLOEXEC, floor): a close-on-exec copy of `from`
      at the lowest free descriptor that is at least `floor`. */
  function DupCloexec(t: Table, from: nat, floor: nat): (r: Option<(Table, nat)>)
    ensures r.Some? <==> from in t
    ensures r.Some? ==>
      var (t2, n) := r.value;
      && n !in t && n >= floor && t2 == t[n := Entry(t[from].desc, true)]
      && forall m :: floor <= m < n ==> m in t
  {
    if from !in t then None
    else
      var n := LowestFreeFrom(t.Keys, floor);
      Some((t[n := Entry(t[from].desc, true)], n))
  }

  /** `b` is `a` with only file sources moved. */
  predicate Tracks(a: seq<Redir>, b: seq<Redir>) {
    && |a| == |b|
    && forall k :: 0 <= k < |a| ==>
         && b[k].kind == a[k].kind && b[k].toFd == a[k].toFd
         && (!IsFile(a[k].kind) ==> b[k].fromFd == a[k].fromFd)
  }

  /** `t2` keeps every slot of `t` and adds only close-on-exec slots at or
      above `floor`. */
  predicate Grows(t: Table, t2: Table, floor: nat) {
    && (forall f :: f in t ==> f in t2 && t2[f] == t[f])
    && (forall f :: f in t2 && f !in t ==> t2[f].cloexec && f >= floor)
  }

  datatype Fix = Fix(redirs: seq<Redir>, table: Table)

  /** fix_fds from entry `j` on: every file entry whose source is `fd` gets
      a fresh close-on-exec copy of it as its source. */
  function FixFds(rs: seq<Redir>, fd: nat, t: Table, floor: nat, j: nat): (r: Option<Fix>)
    requires j <= |rs|
    ensures r.Some? ==> Tracks(rs, r.value.redirs) && Grows(t, r.value.table, floor)
    decreases |rs| - j
  {
    if j == |rs| then Some(Fix(rs, t))
    else if IsFile(rs[j].kind) && rs[j].fromFd == fd then
      match DupCloexec(t, fd, floor)
      case None => None
      case Some((t2, n)) => FixFds(rs[j := rs[j].(fromFd := n)], fd, t2, floor, j + 1)
    else FixFds(rs, fd, t, floor, j + 1)
  }

  /** Every target is a descriptor. */
  predicate Targets(rs: seq<Redir>) {
    forall k :: 0 <= k < |rs| ==> rs[k].toFd >= 0
  }

  /** init_child_fds from entry `i`: fix the sources that the entry's target
      would clobber, then close the target or dup2 the source onto it. A
      failing dup2 or fcntl makes the child exit with status 1 (`None`).
      fcntl searches from `floor`. */
  function InitFrom(rs: seq<Redir>, i: nat, t: Table, floor: nat): (r: Option<Table>)
    requires i <= |rs| && Targets(rs)
    decreases |rs| - i
  {
    if i == |rs| then Some(t)
    else
      match FixFds(rs, rs[i].toFd, t, floor, 0)
      case None => None
      case Some(fx) =>
        var rd := fx.redirs[i];
        if rd.fromFd < 0 then InitFrom(fx.redirs, i + 1, Close(fx.table, rd.toFd), floor)
        else
          match Dup2(fx.table, rd.fromFd, rd.toFd)
          case None => None
          case Some(t2) => InitFrom(fx.redirs, i + 1, t2, floor)
  }

  /** Every file source is an open slot. */
  predicate SourcesOpen(rs: seq<Redir>, t: Table) {
    forall k :: 0 <= k < |rs| && IsFile(rs[k].kind) ==> rs[k].fromFd >= 0 && rs[k].fromFd in t
  }

  /** Each file source of `rs2` in `t2` refers to the same description as
      the corresponding source of `rs` in `t`. */
  predicate Follows(rs: seq<Redir>, t: Table, rs2: seq<Redir>, t2: Table)
    requires |rs| == |rs2| && SourcesOpen(rs, t) && SourcesOpen(rs2, t2)
  {
    forall k :: 0 <= k < |rs| && IsFile(rs[k].kind) && IsFile(rs2[k].kind) ==>
      t2[rs2[k].fromFd].desc == t[rs[k].fromFd].desc
  }

  /** fix_fds never fails while every file source is open; afterwards no
      file entry from `j` on has `fd` as its source, every file source still
      refers to the description it referred to, and the entries before `j`
      are untouched. */
  lemma {:induction false} FixFdsSpec(rs: seq<Redir>, fd: nat, t: Table, floor: nat, j: nat)
    requires j <= |rs| && SourcesOpen(rs, t)
    ensures var r := FixFds(rs, fd, t, floor, j);
      && r.Some?
      && SourcesOpen(r.value.redirs, r.value.table)
      && Follows(rs, t, r.value.redirs, r.value.table)
      && (forall k :: j <= k < |rs| && IsFile(rs[k].kind) ==> r.value.redirs[k].fromFd != fd)
      && (forall k :: 0 <= k < j ==> r.value.redirs[k] == rs[k])
    decreases |rs| - j
  {
    if j < |rs| {
      if IsFile(rs[j].kind) && rs[j].fromFd == fd {
        var n := LowestFreeFrom(t.Keys, floor);
        var t2 := t[n := Entry(t[fd].desc, true)];
        var rs2 := rs[j := rs[j].(fromFd := n)];
        assert SourcesOpen(rs2, t2);
        FixFdsSpec(rs2, fd, t2, floor, j + 1);
        var r := FixFds(rs2, fd, t2, floor, j + 1);
        assert r.value.redirs[j] == rs2[j];
        forall k | 0 <= k < |rs| && IsFile(rs[k].kind)
          ensures r.value.table[r.value.redirs[k].fromFd].desc == t[rs[k].fromFd].desc
        {
          assert r.value.table[r.value.redirs[k].fromFd].desc == t2[rs2[k].fromFd].desc;
        }
      } else {
        FixFdsSpec(rs, fd, t, floor, j + 1);
      }
    }
  }

  /** The meaning the entries are meant to have, applied in order to a
      table without hidden copies: "-" closes the target; a file entry
      points the target at the file opened for it; a descriptor entry
      points the target at whatever its source refers to at that moment,
      and fails when the source is not open. */
  function RefFrom(rs: seq<Redir>, i: nat, l: Table, t0: Table): Option<Table>
    requires i <= |rs| && Targets(rs) && SourcesOpen(rs, t0)
    decreases |rs| - i
  {
    if i == |rs| then Some(l)
    else
      var rd := rs[i];
      if rd.fromFd < 0 then RefFrom(rs, i + 1, l - {rd.toFd as nat}, t0)
      else if IsFile(rd.kind) then RefFrom(rs, i + 1, l[rd.toFd as nat := Entry(t0[rd.fromFd].desc, false)], t0)
      else if rd.fromFd !in l then None
      else if rd.fromFd == rd.toFd then RefFrom(rs, i + 1, l, t0)
      else RefFrom(rs, i + 1, l[rd.toFd as nat := Entry(l[rd.fromFd].desc, false)], t0)
  }

  /** The intended outcome of all entries on the table the child inherits. */
  function RefApply(rs: seq<Redir>, t0: Table): Option<Table>
    requires Targets(rs) && SourcesOpen(rs, t0)
  {
    RefFrom(rs, 0, t0, t0)
  }

  /** The slots of `l` are in `t` with the same contents. */
  predicate Agree(l: Table, t: Table) {
    forall f :: f in l ==> f in t && t[f] == l[f]
  }

  /** The slots of `t` not in `l` are hidden copies: close-on-exec, and
      when `strict`, at or above `floor`. */
  predicate Hidden(l: Table, t: Table, floor: nat, strict: bool) {
    forall f :: f in t && f !in l ==> t[f].cloexec && (strict ==> f >= floor)
  }

  /** The real state (`rs`, `t`) simulates the intended one (`l`). */
  predicate Sim(rs0: seq<Redir>, t0: Table, rs: seq<Redir>, t: Table, l: Table, floor: nat, strict: bool)
    requires SourcesOpen(rs0, t0)
  {
    && Tracks(rs0, rs) && Targets(rs) && SourcesOpen(rs, t)
    && Follows(rs0, t0, rs, t)
    && Agree(l, t) && Hidden(l, t, floor, strict)
  }

  /** Hidden copies do not survive the exec. */
  lemma ViewsAgree(l: Table, t: Table, floor: nat, strict: bool)
    requires Agree(l, t) && Hidden(l, t, floor, strict)
    ensures ExecView(t) == ExecView(l)
  {
    forall f | f in ExecView(t)
      ensures f in ExecView(l)
    {
      assert f in t && !t[f].cloexec;
    }
  }

  /** Every descriptor a descriptor entry names, as target or source, is
      below `floor`. */
  predicate NamesBelow(rs: seq<Redir>, floor: nat) {
    forall k :: 0 <= k < |rs| ==> rs[k].toFd < floor && (!IsFile(rs[k].kind) ==> rs[k].fromFd < floor)
  }

  /** The simulation survives fix_fds, which in addition frees the target. */
  lemma SimAfterFix(rs0: seq<Redir>, t0: Table, rs: seq<Redir>, t: Table, l: Table, floor: nat, strict: bool, to: nat)
    requires SourcesOpen(rs0, t0) && Sim(rs0, t0, rs, t, l, floor, strict)
    ensures var fx := FixFds(rs, to, t, floor, 0);
      && fx.Some?
      && Sim(rs0, t0, fx.value.redirs, fx.value.table, l, floor, strict)
      && forall k :: 0 <= k < |rs| && IsFile(rs[k].kind) ==> fx.value.redirs[k].fromFd != to
  {
    FixFdsSpec(rs, to, t, floor, 0);
    var fx := FixFds(rs, to, t, floor, 0).value;
    forall k | 0 <= k < |rs0| && IsFile(rs0[k].kind)
      ensures fx.table[fx.redirs[k].fromFd].desc == t0[rs0[k].fromFd].desc
    {
      assert fx.table[fx.redirs[k].fromFd].desc == t[rs[k].fromFd].desc;
    }
  }

  /** Closing the same slot on both sides keeps the simulation when no file
      source is that slot. */
  lemma SimClose(rs0: seq<Redir>, t0: Table, rs: seq<Redir>, t: Table, l: Table, floor: nat, strict: bool, to: nat)
    requires SourcesOpen(rs0, t0) && Sim(rs0, t0, rs, t, l, floor, strict)
    requires forall k :: 0 <= k < |rs| && IsFile(rs[k].kind) ==> rs[k].fromFd != to
    ensures Sim(rs0, t0, rs, Close(t, to), l - {to}, floor, strict)
  {
    var t2 := Close(t, to);
    forall k | 0 <= k < |rs0| && IsFile(rs0[k].kind)
      ensures t2[rs[k].fromFd].desc == t0[rs0[k].fromFd].desc
    {
      assert t2[rs[k].fromFd] == t[rs[k].fromFd];
    }
  }

  /** Setting the same slot on both sides keeps the simulation when no file
      source is that slot. */
  lemma SimSet(rs0: seq<Redir>, t0: Table, rs: seq<Redir>, t: Table, l: Table, floor: nat, strict: bool, to: nat, e: Entry)
    requires SourcesOpen(rs0, t0) && Sim(rs0, t0, rs, t, l, floor, strict)
    requires forall k :: 0 <= k < |rs| && IsFile(rs[k].kind) ==> rs[k].fromFd != to
    ensures Sim(rs0, t0, rs, t[to := e], l[to := e], floor, strict)
  {
    var t2 := t[to := e];
    forall k | 0 <= k < |rs0| && IsFile(rs0[k].kind)
      ensures t2[rs[k].fromFd].desc == t0[rs0[k].fromFd].desc
    {
      assert t2[rs[k].fromFd] == t[rs[k].fromFd];
    }
  }

  /** From a simulating state, whenever the intended application succeeds
      init_child_fds succeeds too and the program sees the same
      descriptors; when hidden copies stay at or above a floor that every
      named descriptor is below (`strict`), init_child_fds also fails
      whenever the intended application fails. */
  lemma {:induction false} InitFromSim(rs0: seq<Redir>, t0: Table, rs: seq<Redir>, i: nat, t: Table, l: Table,
                                       floor: nat, strict: bool)
    requires i <= |rs0| && Targets(rs0) && SourcesOpen(rs0, t0)
    requires Sim(rs0, t0, rs, t, l, floor, strict)
    requires strict ==> NamesBelow(rs0, floor)
    ensures RefFrom(rs0, i, l, t0).Some? ==>
      InitFrom(rs, i, t, floor).Some? && ExecView(InitFrom(rs, i, t, floor).value) == ExecView(RefFrom(rs0, i, l, t0).value)
    ensures strict && InitFrom(rs, i, t, floor).Some? ==> RefFrom(rs0, i, l, t0).Some?
    decreases |rs0| - i
  {
    if i == |rs0| {
      ViewsAgree(l, t, floor, strict);
    } else {
      var rd0 := rs0[i];
      var to: nat := rd0.toFd as nat;
      SimAfterFix(rs0, t0, rs, t, l, floor, strict, to);
      var fx := FixFds(rs, to, t, floor, 0).value;
      var rs2, t2 := fx.redirs, fx.table;
      var rd := rs2[i];
      assert InitFrom(rs, i, t, floor) == (
        if rd.fromFd < 0 then InitFrom(rs2, i + 1, Close(t2, to), floor)
        else match Dup2(t2, rd.fromFd, to)
          case None => None
          case Some(t3) => InitFrom(rs2, i + 1, t3, floor));
      if rd0.fromFd < 0 {
        SimClose(rs0, t0, rs2, t2, l, floor, strict, to);
        InitFromSim(rs0, t0, rs2, i + 1, Close(t2, to), l - {to}, floor, strict);
      } else if IsFile(rd0.kind) {
        var e := Entry(t0[rd0.fromFd].desc, false);
        assert Dup2(t2, rd.fromFd, to) == Some(t2[to := e]);
        SimSet(rs0, t0, rs2, t2, l, floor, strict, to, e);
        InitFromSim(rs0, t0, rs2, i + 1, t2[to := e], l[to := e], floor, strict);
      } else if rd0.fromFd in l {
        if rd0.fromFd == rd0.toFd {
          InitFromSim(rs0, t0, rs2, i + 1, t2, l, floor, strict);
        } else {
          var e := Entry(l[rd0.fromFd].desc, false);
          SimSet(rs0, t0, rs2, t2, l, floor, strict, to, e);
          InitFromSim(rs0, t0, rs2, i + 1, t2[to := e], l[to := e], floor, strict);
        }
      } else if strict {
        assert rd0.fromFd < floor;
        assert rd0.fromFd !in t2;
      }
    }
  }

  /** init_child_fds as written: fcntl copies land on the lowest free
      descriptor. */
  function InitChildFds(rs: seq<Redir>, t0: Table): Option<Table>
    requires Targets(rs)
  {
    InitFrom(rs, 0, t0, 0)
  }

  /** One past the largest descriptor the entries name as a target or as a
      descriptor source. */
  function MinFd(rs: seq<Redir>): (m: nat)
    ensures NamesBelow(rs, m)
  {
    if |rs| == 0 then 0
    else
      var rest := MinFd(rs[..|rs| - 1]);
      var rd := rs[|rs| - 1];
      var a := if rd.toFd + 1 > rest then rd.toFd + 1 else rest;
      if !IsFile(rd.kind) && rd.fromFd + 1 > a then rd.fromFd + 1 else a
  }

  /** init_child_fds with fcntl searching from MinFd: a hidden copy can then
      never occupy a descriptor that an entry names. */
  function InitChildFdsFixed(rs: seq<Redir>, t0: Table): Option<Table>
    requires Targets(rs)
  {
    InitFrom(rs, 0, t0, MinFd(rs))
  }

  lemma SimStart(rs: seq<Redir>, t0: Table, floor: nat, strict: bool)
    requires Targets(rs) && SourcesOpen(rs, t0)
    ensures Sim(rs, t0, rs, t0, t0, floor, strict)
  {
  }

  /** As written, init_child_fds does everything the entries mean whenever
      their meaning is defined, and the program sees what it should. */
  lemma InitChildFdsRefinesIntent(rs: seq<Redir>, t0: Table)
    requires Targets(rs) && SourcesOpen(rs, t0)
    ensures RefApply(rs, t0).Some? ==>
      InitChildFds(rs, t0).Some? && ExecView(InitChildFds(rs, t0).value) == ExecView(RefApply(rs, t0).value)
  {
    SimStart(rs, t0, 0, false);
    InitFromSim(rs, t0, rs, 0, t0, t0, 0, false);
  }

  /** With the floor, init_child_fds succeeds exactly when the entries'
      meaning is defined, and then the program sees what it should. */
  lemma InitChildFdsFixedExact(rs: seq<Redir>, t0: Table)
    requires Targets(rs) && SourcesOpen(rs, t0)
    ensures InitChildFdsFixed(rs, t0).Some? <==> RefApply(rs, t0).Some?
    ensures InitChildFdsFixed(rs, t0).Some? ==>
      ExecView(InitChildFdsFixed(rs, t0).value) == ExecView(RefApply(rs, t0).value)
  {
    SimStart(rs, t0, MinFd(rs), true);
    InitFromSim(rs, t0, rs, 0, t0, t0, MinFd(rs), true);
  }

  /** fix_fds skips entries that are not file entries with source `fd`. */
  lemma {:induction false} FixFdsSkips(rs: seq<Redir>, fd: nat, t: Table, floor: nat, j: nat, m: nat)
    requires j <= m <= |rs|
    requires forall k :: j <= k < m ==> !(IsFile(rs[k].kind) && rs[k].fromFd == fd)
    ensures FixFds(rs, fd, t, floor, j) == FixFds(rs, fd, t, floor, m)
    decreases m - j
  {
    if j < m {
      FixFdsSkips(rs, fd, t, floor, j + 1, m);
    }
  }

  /** Why execvp returned to the child: errno ENOENT, EACCES, or another. */
  datatype ExecError = NoEntry | AccessDenied | OtherError

  /** The child's fate once forked: `None` when execvp replaced its image
      (the program decides its status); otherwise the status it exits
      with: 1 when the descriptor setup failed, 127 when the program was
      not found, 126 when it could not be executed, 1 for any other error. */
  function ChildExit(setup: Option<Table>, exec: Option<ExecError>): (r: Option<int>)
    ensures r.None? <==> setup.Some? && exec.None?
    ensures r == Some(127) <==> setup.Some? && exec == Some(NoEntry)
    ensures r == Some(126) <==> setup.Some? && exec == Some(AccessDenied)
    ensures r.Some? ==> r.value in {1, 126, 127}
  {
    if setup.None? then Some(1)
    else match exec
      case None => None
      case Some(NoEntry) => Some(127)
      case Some(AccessDenied) => Some(126)
      case Some(OtherError) => Some(1)
  }

  /** A child whose entries are meant to fail exits with 1 before trying
      the program; otherwise the program starts with exactly the
      descriptors the entries mean. */
  lemma ChildStartsWithIntent(rs: seq<Redir>, t0: Table, exec: Option<ExecError>)
    requires Targets(rs) && SourcesOpen(rs, t0)
    ensures RefApply(rs, t0).None? ==> ChildExit(InitChildFdsFixed(rs, t0), exec) == Some(1)
    ensures RefApply(rs, t0).Some? ==>
      InitChildFdsFixed(rs, t0).Some? && ExecView(InitChildFdsFixed(rs, t0).value) == ExecView(RefApply(rs, t0).value)
  {
    InitChildFdsFixedExact(rs, t0);
  }
}

/** The line `cat 4<&- 3>&1 <y 5<&4`, run by a shell holding descriptors 0,
    1 and 2, with `y` opened at 3: descriptor 4 is closed, then `5<&4` must
    fail, yet as written the hidden copy of `y` made for `3>&1` lands on 4
    and `5<&4` duplicates it. */
module ChildExample {
  import opened Base
  import opened Cmd
  import opened FdTable
  import opened Child
  import opened Num
  import Launch

  /** The command as parse leaves it: every user entry still unresolved. */
  const Parsed: seq<Redir> := [
    Redir(FdIn, 0, 0, None), Redir(FdOut, 1, 1, None), Redir(FdOut, 2, 2, None),
    Redir(FdIn, 4, -1, Some("-")), Redir(FdOut, 3, -1, Some("1")),
    Redir(FileIn, 0, -1, Some("y")), Redir(FdIn, 5, -1, Some("4"))]

  const Cat: Command := Command([Some("cat"), None], Parsed)

  /** Every open succeeds. */
  function AnyOpen(path: string, flags: set<Launch.OpenFlag>): bool {
    true
  }

  const Line: seq<Redir> := [
    Redir(FdIn, 0, 0, None), Redir(FdOut, 1, 1, None), Redir(FdOut, 2, 2, None),
    Redir(FdIn, 4, -1, Some("-")), Redir(FdOut, 3, 1, Some("1")),
    Redir(FileIn, 0, 3, Some("y")), Redir(FdIn, 5, 4, Some("4"))]

  /** The inherited table: the shell's three streams, and `y` opened
      close-on-exec at 3. */
  const Start: Table := map[0 := Entry(10, false), 1 := Entry(11, false), 2 := Entry(12, false), 3 := Entry(13, true)]

  /** The entry for `<y` after its source moved to 4. */
  const Moved: seq<Redir> := Line[5 := Line[5].(fromFd := 4)]

  const AfterMove: Table := Start[4 := Entry(13, true)]

  lemma LineWellFormed()
    ensures Targets(Line) && SourcesOpen(Line, Start)
  {
  }

  /** The meaning of the line is undefined: `5<&4` names a closed
      descriptor. */
  lemma IntentFails()
    ensures Targets(Line) && SourcesOpen(Line, Start)
    ensures RefApply(Line, Start) == None
  {
    LineWellFormed();
    var l3 := Start - {4};
    var l4 := l3[3 := Entry(11, false)];
    var l5 := l4[0 := Entry(13, false)];
    assert RefFrom(Line, 3, Start, Start) == RefFrom(Line, 4, l3, Start);
    assert RefFrom(Line, 4, l3, Start) == RefFrom(Line, 5, l4, Start);
    assert RefFrom(Line, 5, l4, Start) == RefFrom(Line, 6, l5, Start);
    assert 4 !in l5;
  }

  lemma FourIsLowest()
    ensures LowestFreeFrom(Start.Keys, 0) == 4
  {
    assert Start.Keys == {0, 1, 2, 3};
    var r := LowestFreeFrom(Start.Keys, 0);
    assert 4 !in Start.Keys;
  }

  lemma FixForThree()
    ensures FixFds(Line, 3, Start, 0, 0) == Some(Fix(Moved, AfterMove))
  {
    FixFdsSkips(Line, 3, Start, 0, 0, 5);
    FourIsLowest();
    assert DupCloexec(Start, 3, 0) == Some((AfterMove, 4));
    assert FixFds(Line, 3, Start, 0, 5) == FixFds(Moved, 3, AfterMove, 0, 6);
    FixFdsSkips(Moved, 3, AfterMove, 0, 6, 7);
  }

  const T4: Table := AfterMove[3 := Entry(11, false)]
  const T5: Table := T4[0 := Entry(13, false)]
  const T6: Table := T5[5 := Entry(13, false)]

  /** Entry `k` of the three defaults maps its descriptor onto itself. */
  lemma StreamUnchanged(k: nat)
    requires k < 3
    ensures InitFrom(Line, k, Start, 0) == InitFrom(Line, k + 1, Start, 0)
  {
    FixFdsSkips(Line, k, Start, 0, 0, 7);
    assert Dup2(Start, k, k) == Some(Start);
  }

  lemma CloseFour()
    ensures InitFrom(Line, 3, Start, 0) == InitFrom(Line, 4, Start, 0)
  {
    FixFdsSkips(Line, 4, Start, 0, 0, 7);
    assert Close(Start, 4) == Start;
  }

  lemma DupOntoThree()
    ensures InitFrom(Line, 4, Start, 0) == InitFrom(Moved, 5, T4, 0)
  {
    FixForThree();
  }

  lemma OpenOntoZero()
    ensures InitFrom(Moved, 5, T4, 0) == InitFrom(Moved, 6, T5, 0)
  {
    FixFdsSkips(Moved, 0, T4, 0, 0, 7);
  }

  lemma DupFourOntoFive()
    ensures InitFrom(Moved, 6, T5, 0) == Some(T6)
  {
    FixFdsSkips(Moved, 5, T5, 0, 0, 7);
  }

  /** What the program would see from T6: `y` on 0 and 5, the shell's
      stdout on 1 and 3, its stderr on 2. */
  lemma FinalView()
    ensures ExecView(T6) == map[0 := 13, 1 := 11, 2 := 12, 3 := 11, 5 := 13]
  {
    var v := ExecView(T6);
    var w := map[0 := 13, 1 := 11, 2 := 12, 3 := 11, 5 := 13];
    assert T6.Keys == {0, 1, 2, 3, 4, 5};
    assert T6[4].cloexec;
    forall f
      ensures f in v <==> f in w
    {
    }
    forall f | f in v
      ensures v[f] == w[f]
    {
    }
  }

  /** As written, the child starts the program, and it sees `y` at 5. */
  lemma AsWrittenRevivesClosedFd()
    ensures Targets(Line) && SourcesOpen(Line, Start)
    ensures InitChildFds(Line, Start) == Some(T6)
    ensures 5 in ExecView(T6) && ExecView(T6)[5] == Start[3].desc
  {
    LineWellFormed();
    StreamUnchanged(0);
    StreamUnchanged(1);
    StreamUnchanged(2);
    CloseFour();
    DupOntoThree();
    OpenOntoZero();
    DupFourOntoFive();
    FinalView();
  }

  /** With the floor, the child refuses the line, as its meaning demands. */
  lemma FixedRejects()
    ensures Targets(Line) && SourcesOpen(Line, Start)
    ensures InitChildFdsFixed(Line, Start) == None
  {
    IntentFails();
    InitChildFdsFixedExact(Line, Start);
  }

  const P4: seq<Redir> := [
    Redir(FdIn, 0, 0, None), Redir(FdOut, 1, 1, None), Redir(FdOut, 2, 2, None),
    Redir(FdIn, 4, -1, Some("-")), Redir(FdOut, 3, -1, Some("1")),
    Redir(FileIn, 0, -1, Some("y")), Redir(FdIn, 5, -1, Some("4"))]
  const P5: seq<Redir> := [
    Redir(FdIn, 0, 0, None), Redir(FdOut, 1, 1, None), Redir(FdOut, 2, 2, None),
    Redir(FdIn, 4, -1, Some("-")), Redir(FdOut, 3, 1, Some("1")),
    Redir(FileIn, 0, -1, Some("y")), Redir(FdIn, 5, -1, Some("4"))]
  const P6: seq<Redir> := [
    Redir(FdIn, 0, 0, None), Redir(FdOut, 1, 1, None), Redir(FdOut, 2, 2, None),
    Redir(FdIn, 4, -1, Some("-")), Redir(FdOut, 3, 1, Some("1")),
    Redir(FileIn, 0, 3, Some("y")), Redir(FdIn, 5, -1, Some("4"))]
  const S3: Launch.Setup := Launch.Setup(Parsed, {0, 1, 2}, [])
  const S6: Launch.Setup := Launch.Setup(P6, {0, 1, 2, 3}, [3])

  /** A `-` entry closes its target and the loop moves on. */
  lemma CloseStep(i: nat, st: Launch.Setup)
    requires i < |st.redirs| && Launch.HasPaths(st.redirs, i) && IsFd(st.redirs[i].kind)
    requires Launch.ParseDupSource(st.redirs[i].fromPath.value) == Launch.CloseTarget
    ensures Launch.ResolveFrom(i, st, AnyOpen)
         == Launch.ResolveFrom(i + 1, st.(redirs := st.redirs[i := st.redirs[i].(fromFd := -1)]), AnyOpen)
  {
  }

  /** A file entry is opened at the lowest free descriptor, which the
      loop then owns. */
  lemma OpenStep(i: nat, st: Launch.Setup)
    requires i < |st.redirs| && Launch.HasPaths(st.redirs, i) && !IsFd(st.redirs[i].kind)
    ensures var fd := LowestFree(st.fds);
      Launch.ResolveFrom(i, st, AnyOpen)
        == Launch.ResolveFrom(i + 1, Launch.Setup(st.redirs[i := st.redirs[i].(fromFd := fd)], st.fds + {fd}, st.owned + [fd]), AnyOpen)
  {
  }

  lemma ResolveClose()
    ensures Launch.ResolveFrom(3, S3, AnyOpen) == Launch.ResolveFrom(4, S3.(redirs := P4), AnyOpen)
  {
    assert Launch.ParseDupSource("-") == Launch.CloseTarget;
    CloseStep(3, S3);
    assert Parsed[3 := Parsed[3].(fromFd := -1)] == P4;
  }

  /** A one-digit word names that descriptor. */
  lemma SourceIs(n: nat, w: string)
    requires n < 10 && w == Decimal(n)
    ensures Launch.ParseDupSource(w) == Launch.DupFrom(n)
  {
    Launch.DupSourceDecimal(n, 'x');
  }

  /** `3>&1` passes check_fd: the newest entry for 1 is the standard
      output entry, of the writable kind. */
  lemma OneLooksOpen()
    ensures Launch.CheckFd(P4, 4, 1, FdOut) == Launch.FdOk
  {
    Launch.CheckFdNewest(P4, 4, 1, FdOut, 1);
  }

  lemma ResolveDupOne()
    ensures Launch.ResolveFrom(4, S3.(redirs := P4), AnyOpen) == Launch.ResolveFrom(5, S3.(redirs := P5), AnyOpen)
  {
    SourceIs(1, "1");
    OneLooksOpen();
    DupStep(4, S3.(redirs := P4), 1);
    assert P4[4 := P4[4].(fromFd := 1)] == P5;
  }

  lemma ResolveOpen()
    ensures Launch.ResolveFrom(5, S3.(redirs := P5), AnyOpen) == Launch.ResolveFrom(6, S6, AnyOpen)
  {
    LowestFreeAboveStdio();
    OpenStep(5, S3.(redirs := P5));
    assert P5[5 := P5[5].(fromFd := 3)] == P6;
    assert {0, 1, 2} + {3} == {0, 1, 2, 3};
    assert [] + [3] == [3];
  }

  /** `5<&4` passes check_fd: the newest entry for 4 is `4<&-`, of the
      readable kind. */
  lemma FourLooksOpen()
    ensures Launch.CheckFd(P6, 6, 4, FdIn) == Launch.FdOk
  {
    Launch.CheckFdNewest(P6, 6, 4, FdIn, 3);
  }

  /** A descriptor entry naming a descriptor that check_fd accepts takes
      it as its source and the loop moves on. */
  lemma DupStep(i: nat, st: Launch.Setup, n: nat)
    requires i < |st.redirs| && Launch.HasPaths(st.redirs, i) && IsFd(st.redirs[i].kind)
    requires Launch.ParseDupSource(st.redirs[i].fromPath.value) == Launch.DupFrom(n)
    requires Launch.CheckFd(st.redirs, i, n, st.redirs[i].kind) == Launch.FdOk
    ensures Launch.ResolveFrom(i, st, AnyOpen)
         == Launch.ResolveFrom(i + 1, st.(redirs := st.redirs[i := st.redirs[i].(fromFd := n)]), AnyOpen)
  {
  }

  lemma ResolveDupFour()
    ensures Launch.ResolveFrom(6, S6, AnyOpen) == Launch.ResolveFrom(7, S6.(redirs := Line), AnyOpen)
  {
    SourceIs(4, "4");
    FourLooksOpen();
    DupStep(6, S6, 4);
    assert P6[6 := P6[6].(fromFd := 4)] == Line;
  }

  lemma ResolveDone()
    ensures Launch.ResolveFrom(7, S6.(redirs := Line), AnyOpen) == Launch.Resolved(S6.(redirs := Line))
  {
  }

  /** run_command, in a shell holding 0, 1 and 2, opens `y` at 3, accepts
      `3>&1` and also `5<&4`, since check_fd counts the closing entry
      `4<&-` as opening 4, and hands the child exactly `Line`. */
  lemma LineReachesChild()
    ensures Launch.RunCommand(Cat, -1, -1, {0, 1, 2}, AnyOpen, 100)
      == Launch.Launched(100, Command(Cat.args, Line), {0, 1, 2, 3}, {0, 1, 2})
  {
    ResolveClose();
    ResolveDupOne();
    ResolveOpen();
    ResolveDupFour();
    ResolveDone();
    assert Launch.Seeded(Parsed, -1, -1) == Parsed;
    assert Launch.Handed(-1, -1) == [];
    assert Launch.CloseFds({0, 1, 2, 3}, [3]) == {0, 1, 2};
  }
}
