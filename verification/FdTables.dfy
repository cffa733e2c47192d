/** A process's descriptor table, and pcb_fd_install of fs/file.c. */
module FdTables {

  const MAX_FILES_OPEN_PER_PROC := 8

  /** fd_table of a process: indices into file_table, or -1. */
  type FdTable = t: seq<int> | |t| == MAX_FILES_OPEN_PER_PROC witness [0, 1, 2, -1, -1, -1, -1, -1]

  /** Some descriptor from 3 on is free. */
  predicate HasFreeFd(t: FdTable) {
    exists k :: 3 <= k < 8 && t[k] == -1
  }

  /** Descriptor fd is the lowest free one from 3 on. */
  predicate LowestFreeFd(t: FdTable, fd: int) {
    3 <= fd < 8 && t[fd] == -1 && forall k :: 3 <= k < fd ==> t[k] != -1
  }

  /** What pcb_fd_install does: descriptor fd leads to slot g, or none was free and nothing changes. */
  predicate FdInstalled(t: FdTable, t': FdTable, fd: int, g: int) {
    && (fd == -1 <==> !HasFreeFd(t)) && (fd != -1 ==> LowestFreeFd(t, fd))
    && t' == if fd == -1 then t else if 0 <= fd < 8 then t[fd := g] else t
  }

  /** pcb_fd_install: the lowest free descriptor leads to slot g, or there is none. */
  method PcbFdInstall(t: FdTable, g: int) returns (fd: int, t': FdTable)
    ensures FdInstalled(t, t', fd, g)
  {
    fd, t' := 3, t;
    while fd < MAX_FILES_OPEN_PER_PROC
      invariant 3 <= fd <= 8 && t' == t && forall k :: 3 <= k < fd ==> t[k] != -1
    {
      if t[fd] == -1 {
        t' := t[fd := g];
        return;
      }
      fd := fd + 1;
    }
    fd := -1;
  }
}
