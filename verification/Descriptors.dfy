/** Descriptors and the file table: `fs/open.c`, `fs/fcntl.c`, sys_pipe of `fs/pipe.c` and the
    descriptor parts of `kernel/fork.c` and `kernel/exit.c`. */
module DescriptorTables {
  const NULL := -1
  const NR_OPEN := 20

  /** f_count and f_inode of an entry of file_table. */
  datatype File = File(count: int, inode: int)

  /** filp of every task, the file table, i_count of every inode, and of it the references that are
      held elsewhere: working directories, mounts, system calls in progress. */
  datatype Tables = Tables(filp: seq<seq<int>>, files: seq<File>, icount: seq<int>, others: seq<int>)

  // ---- counting ------------------------------------------------------------------------------------------

  /** The descriptors of the first n tasks that name file f. */
  ghost function Naming(filp: seq<seq<int>>, f: int, n: nat): nat
    requires n <= |filp|
  {
    if n == 0 then 0 else Naming(filp, f, n - 1) + multiset(filp[n - 1])[f]
  }

  lemma {:induction false} NamingUpdate(filp: seq<seq<int>>, f: int, n: nat, t: nat, fds: seq<int>)
    requires n <= |filp| && t < |filp|
    ensures Naming(filp[t := fds], f, n) == Naming(filp, f, n) + if t < n then multiset(fds)[f] as int - multiset(filp[t])[f] else 0
  {
    if n > 0 { NamingUpdate(filp, f, n - 1, t, fds); }
  }

  lemma {:induction false} NamingAtLeast(filp: seq<seq<int>>, f: int, n: nat, t: nat)
    requires t < n <= |filp|
    ensures Naming(filp, f, n) >= multiset(filp[t])[f]
  {
    if t < n - 1 { NamingAtLeast(filp, f, n - 1, t); }
  }

  /** The files in use among the first n that refer to inode i. */
  function Holding(files: seq<File>, i: int, n: nat): nat
    requires n <= |files|
  {
    if n == 0 then 0 else Holding(files, i, n - 1) + Holds(files[n - 1], i)
  }

  function Holds(f: File, i: int): nat { if f.count > 0 && f.inode == i then 1 else 0 }

  lemma {:induction false} HoldingUpdate(files: seq<File>, i: int, n: nat, k: nat, f: File)
    requires n <= |files| && k < |files|
    ensures Holding(files[k := f], i, n) == Holding(files, i, n) + if k < n then Holds(f, i) - Holds(files[k], i) else 0
  {
    if n > 0 { HoldingUpdate(files, i, n - 1, k, f); }
  }

  lemma {:induction false} HoldingSame(a: seq<File>, b: seq<File>, i: int, n: nat)
    requires n <= |a| == |b| && forall k | 0 <= k < n :: Holds(a[k], i) == Holds(b[k], i)
    ensures Holding(a, i, n) == Holding(b, i, n)
  {
    if n > 0 { HoldingSame(a, b, i, n - 1); }
  }

  // ---- the invariant -----------------------------------------------------------------------------------------

  /** f_count is the number of descriptors that name the file. */
  ghost predicate FileCounted(s: Tables, f: nat)
    requires f < |s.files|
  {
    s.files[f].count == Naming(s.filp, f, |s.filp|)
  }

  /** i_count is one for every file in use, and the rest. */
  predicate InodeCounted(s: Tables, i: nat)
    requires i < |s.icount| && |s.others| == |s.icount|
  {
    s.icount[i] == s.others[i] + Holding(s.files, i, |s.files|)
  }

  predicate Shaped(s: Tables)
  {
    && |s.others| == |s.icount|
    && (forall t | 0 <= t < |s.filp| :: |s.filp[t]| == NR_OPEN)
    && (forall t, d | 0 <= t < |s.filp| && 0 <= d < NR_OPEN :: -1 <= s.filp[t][d] < |s.files|)
    && (forall f | 0 <= f < |s.files| && s.files[f].count > 0 :: 0 <= s.files[f].inode < |s.icount|)
  }

  ghost predicate Inv(s: Tables)
  {
    && Shaped(s)
    && (forall f | 0 <= f < |s.files| :: FileCounted(s, f))
    && (forall i | 0 <= i < |s.icount| :: InodeCounted(s, i))
  }

  /** A descriptor in use names a file in use. */
  lemma NamedIsOpen(s: Tables, t: nat, d: nat)
    requires Inv(s) && t < |s.filp| && d < NR_OPEN && s.filp[t][d] != NULL
    ensures 0 <= s.filp[t][d] < |s.files| && s.files[s.filp[t][d]].count >= multiset(s.filp[t])[s.filp[t][d]] >= 1
  {
    var f := s.filp[t][d];
    assert FileCounted(s, f);
    NamingAtLeast(s.filp, f, |s.filp|, t);
    assert s.filp[t][d] in multiset(s.filp[t]);
  }

  /** At start nothing is open. */
  lemma NothingOpen(s: Tables)
    requires |s.others| == |s.icount| && s.icount == s.others
    requires forall t | 0 <= t < |s.filp| :: s.filp[t] == seq(NR_OPEN, _ => NULL)
    requires forall f | 0 <= f < |s.files| :: s.files[f].count == 0
    ensures Inv(s)
  {
    forall f | 0 <= f < |s.files| ensures FileCounted(s, f) { NoneNaming(s.filp, f, |s.filp|); }
    forall i | 0 <= i < |s.icount| ensures InodeCounted(s, i) { NoneHolding(s.files, i, |s.files|); }
  }

  lemma {:induction false} NoneNaming(filp: seq<seq<int>>, f: nat, n: nat)
    requires n <= |filp| && forall t | 0 <= t < |filp| :: filp[t] == seq(NR_OPEN, _ => NULL)
    ensures Naming(filp, f, n) == 0
  {
    if n > 0 {
      NoneNaming(filp, f, n - 1);
      AllNull(f);
    }
  }

  lemma {:induction false} NoneHolding(files: seq<File>, i: int, n: nat)
    requires n <= |files| && forall f | 0 <= f < |files| :: files[f].count == 0
    ensures Holding(files, i, n) == 0
  {
    if n > 0 { NoneHolding(files, i, n - 1); }
  }

  // ---- operations ------------------------------------------------------------------------------------------------

  /** A descriptor begins to name a file that is in use. */
  function Named(s: Tables, t: nat, d: nat, f: nat): Tables
    requires t < |s.filp| && d < |s.filp[t]| && f < |s.files|
  {
    s.(filp := s.filp[t := s.filp[t][d := f]], files := s.files[f := s.files[f].(count := s.files[f].count + 1)])
  }

  lemma NamedKeeps(s: Tables, t: nat, d: nat, f: nat)
    requires Inv(s) && t < |s.filp| && d < NR_OPEN && s.filp[t][d] == NULL && f < |s.files| && s.files[f].count > 0
    ensures Inv(Named(s, t, d, f))
  {
    var n := Named(s, t, d, f);
    forall g | 0 <= g < |n.files| ensures FileCounted(n, g) {
      assert FileCounted(s, g);
      NamingUpdate(s.filp, g, |s.filp|, t, s.filp[t][d := f]);
    }
    forall i | 0 <= i < |n.icount| ensures InodeCounted(n, i) {
      assert InodeCounted(s, i);
      HoldingUpdate(s.files, i, |s.files|, f, n.files[f]);
    }
  }

  /** sys_open: the descriptor names a new file, which takes over the reference open_namei got. */
  function Opened(s: Tables, t: nat, d: nat, f: nat, inode: nat): Tables
    requires t < |s.filp| && d < |s.filp[t]| && f < |s.files| && inode < |s.icount|
  {
    s.(filp := s.filp[t := s.filp[t][d := f]], files := s.files[f := File(1, inode)],
       icount := s.icount[inode := s.icount[inode] + 1])
  }

  lemma OpenedKeeps(s: Tables, t: nat, d: nat, f: nat, inode: nat)
    requires Inv(s) && t < |s.filp| && d < NR_OPEN && s.filp[t][d] == NULL
    requires f < |s.files| && s.files[f].count == 0 && inode < |s.icount|
    ensures Inv(Opened(s, t, d, f, inode))
  {
    var n := Opened(s, t, d, f, inode);
    forall g | 0 <= g < |n.files| ensures FileCounted(n, g) {
      assert FileCounted(s, g);
      NamingUpdate(s.filp, g, |s.filp|, t, s.filp[t][d := f]);
    }
    forall i | 0 <= i < |n.icount| ensures InodeCounted(n, i) {
      assert InodeCounted(s, i);
      HoldingUpdate(s.files, i, |s.files|, f, n.files[f]);
    }
  }

  /** sys_close: the inode reference goes with the last descriptor. */
  function Closed(s: Tables, t: nat, d: nat): Tables
    requires t < |s.filp| && d < |s.filp[t]| && 0 <= s.filp[t][d] < |s.files|
  {
    var f := s.filp[t][d];
    var file := s.files[f].(count := s.files[f].count - 1);
    var i := file.inode;
    s.(filp := s.filp[t := s.filp[t][d := NULL]], files := s.files[f := file],
       icount := if file.count == 0 && 0 <= i < |s.icount| then s.icount[i := s.icount[i] - 1] else s.icount)
  }

  lemma ClosedKeeps(s: Tables, t: nat, d: nat)
    requires Inv(s) && t < |s.filp| && d < NR_OPEN && s.filp[t][d] != NULL
    ensures 0 <= s.filp[t][d] < |s.files| && Inv(Closed(s, t, d))
  {
    NamedIsOpen(s, t, d);
    var (n, f) := (Closed(s, t, d), s.filp[t][d]);
    forall g | 0 <= g < |n.files| ensures FileCounted(n, g) {
      assert FileCounted(s, g);
      NamingUpdate(s.filp, g, |s.filp|, t, s.filp[t][d := NULL]);
    }
    forall i | 0 <= i < |n.icount| ensures InodeCounted(n, i) {
      assert InodeCounted(s, i);
      HoldingUpdate(s.files, i, |s.files|, f, n.files[f]);
    }
  }

  /** fork: the child's descriptors name the parent's files. */
  function Forked(s: Tables, parent: nat, child: nat): Tables
    requires parent < |s.filp| && child < |s.filp|
  {
    s.(filp := s.filp[child := s.filp[parent]], files := Shared(s.files, s.filp[parent]))
  }

  /** Every file is counted once more for each of the descriptors. */
  function Shared(files: seq<File>, fds: seq<int>): (r: seq<File>)
    ensures |r| == |files|
  {
    seq(|files|, f requires 0 <= f < |files| => files[f].(count := files[f].count + multiset(fds)[f]))
  }

  function OneMore(files: seq<File>, f: int): seq<File>
  {
    if 0 <= f < |files| then files[f := files[f].(count := files[f].count + 1)] else files
  }

  lemma SharedMore(files: seq<File>, fds: seq<int>, i: nat)
    requires i < |fds| && -1 <= fds[i] < |files|
    ensures Shared(files, fds[..i + 1]) == OneMore(Shared(files, fds[..i]), fds[i])
  {
    assert fds[..i + 1] == fds[..i] + [fds[i]];
    assert multiset(fds[..i + 1]) == multiset(fds[..i]) + multiset{fds[i]};
  }

  lemma ForkedKeeps(s: Tables, parent: nat, child: nat)
    requires Inv(s) && parent < |s.filp| && child < |s.filp| && s.filp[child] == seq(NR_OPEN, _ => NULL)
    ensures Inv(Forked(s, parent, child))
  {
    var n := Forked(s, parent, child);
    forall f | 0 <= f < |s.files| && s.files[f].count <= 0 ensures multiset(s.filp[parent])[f] == 0 {
      assert FileCounted(s, f);
      NamingAtLeast(s.filp, f, |s.filp|, parent);
    }
    forall g | 0 <= g < |n.files| ensures FileCounted(n, g) {
      assert FileCounted(s, g);
      NamingUpdate(s.filp, g, |s.filp|, child, s.filp[parent]);
      AllNull(g);
    }
    forall i | 0 <= i < |n.icount| ensures InodeCounted(n, i) {
      assert InodeCounted(s, i);
      HoldingSame(s.files, n.files, i, |s.files|);
    }
  }

  lemma AllNull(f: nat)
    ensures multiset(seq(NR_OPEN, _ => NULL))[f] == 0
  {
    assert f !in seq(NR_OPEN, _ => NULL);
  }
}

module FileDescriptors {
  import opened DescriptorTables

  const EBADF := 9
  const EINVAL := 22
  const EMFILE := 24
  const EPERM := 1

  /** The first free descriptor from a on. */
  predicate FirstFree(fds: seq<int>, a: nat, d: int)
  {
    a <= d < |fds| && fds[d] == NULL && forall k | a <= k < d :: fds[k] != NULL
  }

  lemma IsOpened(s: Tables, n: Tables, t: nat, d: nat, f: nat, inode: nat)
    requires t < |s.filp| && d < |s.filp[t]| && f < |s.files| && inode < |s.icount|
    requires n == s.(filp := s.filp[t := s.filp[t][d := f]], files := s.files[f := File(1, inode)],
                     icount := s.icount[inode := s.icount[inode] + 1])
    ensures n == Opened(s, t, d, f, inode)
  {
  }

  class FileTable {
    const filp: array<seq<int>>
    const file: array<File>
    const icount: array<int>
    ghost const others: seq<int>

    ghost function S(): Tables
      reads this, filp, file, icount
    {
      Tables(filp[..], file[..], icount[..], others)
    }

    ghost predicate Valid()
      reads this, filp, file, icount
    {
      Inv(S())
    }

    /** Any tables in which the counts are right. */
    constructor (tasks: array<seq<int>>, files: array<File>, inodes: array<int>, ghost rest: seq<int>)
      requires Inv(Tables(tasks[..], files[..], inodes[..], rest))
      ensures Valid() && filp == tasks && file == files && icount == inodes && others == rest
    {
      filp, file, icount, others := tasks, files, inodes, rest;
    }

    // ---- searches --------------------------------------------------------------------------------------------

    method FindDescriptor(t: nat, a: nat) returns (d: nat)
      requires Valid() && t < filp.Length && a <= NR_OPEN
      ensures a <= d <= NR_OPEN && (d < NR_OPEN ==> FirstFree(filp[t], a, d))
      ensures d == NR_OPEN ==> forall k | a <= k < NR_OPEN :: filp[t][k] != NULL
    {
      assert |S().filp[t]| == NR_OPEN;
      d := a;
      while d < NR_OPEN
        invariant a <= d <= NR_OPEN
        invariant forall k | a <= k < d :: filp[t][k] != NULL
      {
        if filp[t][d] == NULL { break; }
        d := d + 1;
      }
    }

    method FindFile(a: nat) returns (f: nat)
      requires a <= file.Length
      ensures a <= f <= file.Length && (f < file.Length ==> file[f].count == 0)
      ensures forall k | a <= k < f :: file[k].count != 0
    {
      f := a;
      while f < file.Length
        invariant a <= f <= file.Length
        invariant forall k | a <= k < f :: file[k].count != 0
      {
        if file[f].count == 0 { break; }
        f := f + 1;
      }
    }

    // ---- system calls -------------------------------------------------------------------------------------------

    /** sys_open. `namei` is what open_namei gives, an inode with a reference or an error; `refused`
        says that it is a terminal that may not be opened. A failure leaves everything as it was. */
    method Open(t: nat, namei: int, refused: bool) returns (r: int)
      requires Valid() && t < filp.Length && namei < icount.Length
      modifies filp, file, icount
      ensures Valid() && r < NR_OPEN
      ensures r < 0 ==> S() == old(S())
      ensures r >= 0 ==> namei >= 0 && !refused && FirstFree(old(filp[t]), 0, r) && exists f: nat ::
                f < file.Length && old(file[f]).count == 0 && S() == Opened(old(S()), t, r, f, namei)
    {
      assert |S().filp[t]| == NR_OPEN;
      var d := FindDescriptor(t, 0);
      if d >= NR_OPEN { return -EINVAL; }
      var f := FindFile(0);
      if f >= file.Length { return -EINVAL; }
      if namei >= 0 { OpenedKeeps(S(), t, d, f, namei); }
      hide Inv, Opened;
      assert filp[t][d := f][d := NULL] == filp[t] && file[f].(count := 0) == file[f];
      filp[t] := filp[t][d := f];
      file[f] := file[f].(count := file[f].count + 1);
      if namei < 0 {
        GiveUp(t, d, f);
        assert filp[..] == old(filp[..]) && file[..] == old(file[..]);
        return namei;
      }
      icount[namei] := icount[namei] + 1;
      if refused {
        icount[namei] := icount[namei] - 1;
        GiveUp(t, d, f);
        assert filp[..] == old(filp[..]) && file[..] == old(file[..]) && icount[..] == old(icount[..]);
        return -EPERM;
      }
      file[f] := File(1, namei);
      IsOpened(old(S()), S(), t, d, f, namei);
      return d;
    }

    method GiveUp(t: nat, d: nat, f: nat)
      requires t < filp.Length && d < |filp[t]| && f < file.Length
      modifies filp, file
      ensures filp[..] == old(filp[..])[t := old(filp[t])[d := NULL]]
      ensures file[..] == old(file[..])[f := old(file[f]).(count := 0)]
    {
      filp[t] := filp[t][d := NULL];
      file[f] := file[f].(count := 0);
    }

    /** sys_close: the inode is released exactly with the last descriptor of its file. */
    method Close(t: nat, fd: nat) returns (r: int)
      requires Valid() && t < filp.Length
      modifies filp, file, icount
      ensures Valid()
      ensures fd >= NR_OPEN || old(filp[t])[fd] == NULL ==> r == -EINVAL && S() == old(S())
      ensures fd < NR_OPEN && old(filp[t])[fd] != NULL ==> r == 0 && S() == Closed(old(S()), t, fd)
    {
      assert |S().filp[t]| == NR_OPEN;
      if fd >= NR_OPEN { return -EINVAL; }
      var f := filp[t][fd];
      if f == NULL { return -EINVAL; }
      NamedIsOpen(S(), t, fd);
      ClosedKeeps(S(), t, fd);
      assert 0 <= S().files[f].inode < icount.Length;
      hide Inv;
      filp[t] := filp[t][fd := NULL];
      file[f] := file[f].(count := file[f].count - 1);
      if file[f].count == 0 {
        var i := file[f].inode;
        icount[i] := icount[i] - 1;
      }
      assert S() == Closed(old(S()), t, fd);
      return 0;
    }

    method DupFd(t: nat, fd: nat, arg: nat) returns (r: int)
      requires Valid() && t < filp.Length
      modifies filp, file
      ensures Valid() && r < NR_OPEN
      ensures r < 0 ==> S() == old(S())
      ensures r >= 0 <==> fd < NR_OPEN && old(filp[t])[fd] != NULL && exists d | arg <= d < NR_OPEN :: old(filp[t])[d] == NULL
      ensures r >= 0 ==> FirstFree(old(filp[t]), arg, r) && 0 <= old(filp[t])[fd] < file.Length
                         && S() == Named(old(S()), t, r, old(filp[t])[fd])
    {
      assert |S().filp[t]| == NR_OPEN;
      if fd >= NR_OPEN || filp[t][fd] == NULL { return -EBADF; }
      if arg >= NR_OPEN { return -EINVAL; }
      var d := FindDescriptor(t, arg);
      if d >= NR_OPEN { return -EMFILE; }
      var f := filp[t][fd];
      NamedIsOpen(S(), t, fd);
      NamedKeeps(S(), t, d, f);
      hide Inv;
      filp[t] := filp[t][d := f];
      file[f] := file[f].(count := file[f].count + 1);
      assert S() == Named(old(S()), t, d, f);
      return d;
    }

    /** sys_dup2; when it fails newfd is closed all the same. */
    method Dup2(t: nat, oldfd: nat, newfd: nat) returns (r: int)
      requires Valid() && t < filp.Length
      modifies filp, file, icount
      ensures Valid() && |old(filp[t])| == |filp[t]| == NR_OPEN
      ensures r >= 0 <==> oldfd < NR_OPEN && newfd < NR_OPEN && oldfd != newfd && old(filp[t])[oldfd] != NULL
      ensures r >= 0 ==> r == newfd && filp[..] == old(filp[..])[t := old(filp[t])[newfd := old(filp[t])[oldfd]]]
      ensures r < 0 ==> S() == if newfd < NR_OPEN && old(filp[t])[newfd] != NULL then Closed(old(S()), t, newfd) else old(S())
    {
      assert |S().filp[t]| == NR_OPEN;
      var c := Close(t, newfd);
      assert |S().filp[t]| == NR_OPEN;
      ghost var closed := filp[..];
      ghost var fds := old(filp[t]);
      if newfd < NR_OPEN && fds[newfd] == NULL { assert fds[newfd := NULL] == fds && closed[t := fds] == closed; }
      if newfd < NR_OPEN { assert closed == old(filp[..])[t := old(filp[t])[newfd := NULL]] && filp[t][newfd] == NULL; }
      r := DupFd(t, oldfd, newfd);
      if r >= 0 {
        assert filp[..] == closed[t := closed[t][newfd := closed[t][oldfd]]];
        assert fds[newfd := NULL][newfd := fds[oldfd]] == fds[newfd := fds[oldfd]];
      }
    }

    /** sys_pipe. `inode` is what get_pipe_inode gives, an unused inode or NULL. */
    method SysPipe(t: nat, inode: int) returns (r: int)
      requires Valid() && t < filp.Length && -1 <= inode < icount.Length
      requires inode >= 0 ==> icount[inode] == 0
      modifies filp, file, icount
      ensures Valid()
      ensures r < 0 ==> S() == old(S())
      ensures r >= 0 ==> inode >= 0 && icount[inode] == 2 && exists f0: nat, f1: nat, d0: nat, d1: nat ::
                f0 < f1 < |old(S()).files| && FirstFree(old(filp[t]), 0, d0) && FirstFree(old(filp[t]), d0 + 1, d1) &&
                S() == Opened(Opened(old(S()), t, d0, f0, inode), t, d1, f1, inode)
    {
      assert |S().filp[t]| == NR_OPEN;
      var f0 := FindFile(0);
      if f0 >= file.Length { return -1; }
      var f1 := FindFile(f0 + 1);
      if f1 >= file.Length { return -1; }
      var d0 := FindDescriptor(t, 0);
      if d0 >= NR_OPEN { return -1; }
      var d1 := FindDescriptor(t, d0 + 1);
      if d1 >= NR_OPEN { return -1; }
      if inode < 0 { return -1; }
      OpenedKeeps(S(), t, d0, f0, inode);
      OpenedKeeps(Opened(S(), t, d0, f0, inode), t, d1, f1, inode);
      hide Inv;
      icount[inode] := 2;
      filp[t] := filp[t][d0 := f0];
      filp[t] := filp[t][d1 := f1];
      file[f0] := File(1, inode);
      file[f1] := File(1, inode);
      assert S() == Opened(Opened(old(S()), t, d0, f0, inode), t, d1, f1, inode);
      return 0;
    }

    method CountAll(t: nat)
      requires t < filp.Length && |filp[t]| == NR_OPEN && forall d | 0 <= d < NR_OPEN :: -1 <= filp[t][d] < file.Length
      modifies file
      ensures file[..] == Shared(old(file[..]), filp[t])
    {
      ghost var fds := filp[t];
      var i := 0;
      while i < NR_OPEN
        invariant 0 <= i <= NR_OPEN && file[..] == Shared(old(file[..]), fds[..i])
      {
        SharedMore(old(file[..]), fds, i);
        hide Shared;
        var f := filp[t][i];
        if f != NULL { file[f] := file[f].(count := file[f].count + 1); }
        i := i + 1;
      }
      assert fds[..i] == fds;
    }

    /** The descriptor part of fork: the child's slot gets a copy and every file one count more for
        each descriptor. */
    method Fork(parent: nat, child: nat)
      requires Valid() && parent < filp.Length && child < filp.Length && parent != child
      requires filp[child] == seq(NR_OPEN, _ => NULL)
      modifies filp, file
      ensures Valid() && S() == Forked(old(S()), parent, child)
    {
      ForkedKeeps(S(), parent, child);
      assert |S().filp[parent]| == NR_OPEN;
      assert forall d | 0 <= d < NR_OPEN :: -1 <= S().filp[parent][d] < file.Length;
      hide Inv, Shared;
      filp[child] := filp[parent];
      CountAll(parent);
      assert filp[..] == old(filp[..])[child := old(filp[parent])];
    }

    /** The descriptor part of do_exit. */
    method Exit(t: nat)
      requires Valid() && t < filp.Length
      modifies filp, file, icount
      ensures Valid() && filp[..] == old(filp[..])[t := seq(NR_OPEN, _ => NULL)]
    {
      var i := 0;
      assert |S().filp[t]| == NR_OPEN;
      while i < NR_OPEN
        invariant 0 <= i <= NR_OPEN && Valid() && |filp[t]| == NR_OPEN
        invariant filp[..] == old(filp[..])[t := filp[t]]
        invariant forall k | 0 <= k < i :: filp[t][k] == NULL
      {
        hide Inv;
        if filp[t][i] != NULL { var r := Close(t, i); }
        i := i + 1;
      }
      assert filp[t] == seq(NR_OPEN, _ => NULL);
    }
  }
}
