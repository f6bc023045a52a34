/** sync_close of src/sync.c on the descriptor pair itself, over closep of src/util.h. */
module SyncFds {

  /** The descriptors a process has open. */
  class Process {
    var open: set<int>

    constructor ()
      ensures open == {}
    {
      open := {};
    }
  }

  /** Each variable of the pair is -1 or a descriptor of its own that is open. */
  ghost predicate Owns(p: Process, fd: array<int>)
    reads p, fd
  {
    && fd.Length == 2 && -1 !in p.open
    && (fd[0] == -1 || fd[0] in p.open) && (fd[1] == -1 || fd[1] in p.open)
    && (fd[0] == fd[1] ==> fd[0] == -1)
  }

  /** closep, whose caller here has looked at the variable already. */
  method Closep(p: Process, fd: array<int>, i: nat)
    requires Owns(p, fd) && i < 2
    modifies p, fd
    ensures Owns(p, fd) && fd[..] == old(fd[..])[i := -1] && p.open == old(p.open) - {old(fd[i])}
  {
    if fd[i] == -1 { return; }
    p.open := p.open - {fd[i]};
    fd[i] := -1;
  }

  /** sync_close: sync_close_child, then sync_close_parent. */
  method SyncClose(p: Process, fd: array<int>)
    requires Owns(p, fd)
    modifies p, fd
    ensures Owns(p, fd) && fd[..] == [-1, -1]
    ensures p.open == old(p.open) - {old(fd[0]), old(fd[1])}
  {
    if fd[0] != -1 {
      Closep(p, fd, 0);
    }
    if fd[1] != -1 {
      Closep(p, fd, 1);
    }
  }

  /** Closing once more later closes nothing, even if the numbers have been given to other files meanwhile. */
  method SyncCloseTwice(p: Process, fd: array<int>, others: set<int>)
    requires Owns(p, fd) && -1 !in others
    modifies p, fd
    ensures p.open == old(p.open) - {old(fd[0]), old(fd[1])} + others
  {
    SyncClose(p, fd);
    p.open := p.open + others;
    SyncClose(p, fd);
  }
}
