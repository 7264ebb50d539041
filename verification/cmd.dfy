/** The command data model of cmd.h and cmd.c: redirection kinds, their
    capability predicates, redirections, commands and pipelines. */
module Cmd {
  import opened Base

  /** redir_type_t, in declaration order. */
  datatype RedirType = FileIn | FileTrunc | FileAppend | FileInOut | FdIn | FdOut

  /** The enumerator's integer value. */
  function Ordinal(t: RedirType): nat {
    match t
    case FileIn => 0
    case FileTrunc => 1
    case FileAppend => 2
    case FileInOut => 3
    case FdIn => 4
    case FdOut => 5
  }

  /** REDIR_FILE_MAX, the last file kind. */
  const FileMax: nat := Ordinal(FileInOut)

  /** REDIR_IS_FILE: the source is a path to open. */
  function IsFile(t: RedirType): (b: bool)
    ensures b <==> t == FileIn || t == FileTrunc || t == FileAppend || t == FileInOut
  {
    Ordinal(t) <= FileMax
  }

  /** REDIR_IS_FD: the source is another descriptor; exactly the non-file kinds. */
  function IsFd(t: RedirType): (b: bool)
    ensures b <==> t == FdIn || t == FdOut
    ensures b <==> !IsFile(t)
  {
    Ordinal(t) > FileMax
  }

  /** REDIR_IS_READABLE. */
  predicate IsReadable(t: RedirType) {
    t == FileIn || t == FileInOut || t == FdIn
  }

  /** REDIR_IS_WRITABLE: every kind that is not readable, plus FileInOut,
      the only kind with both capabilities. */
  function IsWritable(t: RedirType): (b: bool)
    ensures b <==> !IsReadable(t) || t == FileInOut
  {
    t == FileTrunc || t == FileAppend || t == FileInOut || t == FdOut
  }

  /** redir_t. A `fromFd` below zero means "close `toFd`"; `fromPath` is
      NULL for the three default entries. */
  datatype Redir = Redir(kind: RedirType, toFd: int, fromFd: int, fromPath: Option<string>)

  /** command_t. `args` ends with a NULL (`None`) terminator once parsed. */
  datatype Command = Command(args: seq<Option<string>>, redirs: seq<Redir>)

  /** pipeline_t. */
  type Pipeline = seq<Command>

  const StdIn: int := 0
  const StdOut: int := 1
  const StdErr: int := 2

  /** The three pass-through redirections every command starts with. */
  function DefaultRedirs(): seq<Redir> {
    [Redir(FdIn, StdIn, StdIn, None), Redir(FdOut, StdOut, StdOut, None), Redir(FdOut, StdErr, StdErr, None)]
  }

  /** command_init: no arguments, and one descriptor-kind entry per standard
      stream mapping the descriptor to itself, readable for 0 and writable
      for 1 and 2, none owning a path. */
  function CommandInit(): (c: Command)
    ensures |c.args| == 0 && |c.redirs| == 3
    ensures forall i :: 0 <= i < 3 ==>
      && c.redirs[i].toFd == i && c.redirs[i].fromFd == i
      && IsFd(c.redirs[i].kind) && c.redirs[i].fromPath == None
      && (IsReadable(c.redirs[i].kind) <==> i == StdIn)
      && (IsWritable(c.redirs[i].kind) <==> i != StdIn)
  {
    Command([], DefaultRedirs())
  }
}
