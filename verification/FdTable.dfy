// The descriptor table of one task (servers/vfs.c): eight slots, each the
// index of an open file description, or -1.
module FdTable {
  import opened Common

  const MAX_FD: nat := 8
  const CLOSED: int := -1

  type Table = seq<int>

  ghost predicate IsTable(t: Table) {
    |t| == MAX_FD && forall i | 0 <= i < MAX_FD :: CLOSED <= t[i]
  }

  const ALL_CLOSED: Table := [CLOSED, CLOSED, CLOSED, CLOSED, CLOSED, CLOSED, CLOSED, CLOSED]

  // The descriptor that dup, open and pipe hand out: the lowest closed one.
  function LowestFree(t: Table): (fd: int)
    ensures -1 <= fd < |t|
    ensures 0 <= fd ==> t[fd] < 0 && forall j | 0 <= j < fd :: 0 <= t[j]
    ensures fd < 0 ==> forall j | 0 <= j < |t| :: 0 <= t[j]
  {
    FirstWhere(t, (x: int) => x < 0)
  }

  // ----- what the system calls do to the table of their caller -----

  function CloseFd(t: Table, fd: nat): Table
    requires fd < |t|
  {
    t[fd := CLOSED]
  }

  // The table and the descriptor returned; -1 when there is nothing to
  // duplicate or no room.
  function DupFd(t: Table, fd: int): (Table, int)
    requires fd < |t|
  {
    var free := LowestFree(t);
    if fd < 0 || t[fd] < 0 || free < 0 then (t, -1) else (t[free := t[fd]], free)
  }

  // A pipe whose read and write ends are descriptions r and w.
  function PipeFd(t: Table, r: int, w: int): (Table, int, int) {
    var fdi := LowestFree(t);
    if fdi < 0 then (t, -1, -1)
    else
      var t1 := t[fdi := r];
      var fdo := LowestFree(t1);
      if fdo < 0 then (t1, fdi, -1) else (t1[fdo := w], fdi, fdo)
  }
}
