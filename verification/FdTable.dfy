/** The file descriptor table and exclusive access to devices. */
module FdTable {

  const EMFILE := 24
  const EACCES := 13
  const ENODEV := 19
  const ENOTTY := 25
  const EBADFD := 81

  datatype Option<T> = None | Some(value: T)

  /** What a descriptor refers to: a device, or a file system, which keeps its own locks. */
  datatype Device = Device(id: nat, isFilesystem: bool)

  /** The flag word: ALT_FD_EXCL, ALT_FD_DEV, and the flags of open(). */
  datatype Flags = Flags(excl: bool, dev: bool, mode: nat)

  const NOFLAGS := Flags(false, false, 0)

  datatype Fd = Fd(dev: Option<Device>, flags: Flags)

  const FREE := Fd(None, NOFLAGS)

  /** The table, and the highest descriptor that has been handed out, or -1. */
  datatype Table = Table(fds: seq<Fd>, max: int)

  predicate IsOpen(t: Table, i: int) { 0 <= i < |t.fds| && t.fds[i].dev.Some? }

  /** The descriptors for standard input, output and error are never free.  The mark covers every
      open descriptor as soon as any other one has been handed out. */
  ghost predicate Valid(t: Table) {
    && |t.fds| >= 3 && (t.max == -1 || 3 <= t.max < |t.fds|)
    && IsOpen(t, 0) && IsOpen(t, 1) && IsOpen(t, 2)
    && (forall i | IsOpen(t, i) :: i <= 2 || i <= t.max)
    && (forall i | 0 <= i < |t.fds| :: t.fds[i].dev == None ==> t.fds[i] == FREE)
    && (forall i | 0 <= i < |t.fds| :: t.fds[i].flags.excl ==> t.fds[i].flags.dev)
    && (forall i | 0 <= i < |t.fds| :: t.fds[i].flags.dev ==> t.max >= 3 && t.fds[i].dev.Some? && !t.fds[i].dev.value.isFilesystem)
  }

  /** Descriptor `i` holds device `d` for itself. */
  predicate Holds(t: Table, i: int, d: Device) {
    IsOpen(t, i) && t.fds[i].dev.value == d && t.fds[i].flags.excl
  }

  predicate Shares(t: Table, i: int, fd: int)
    requires IsOpen(t, fd)
  {
    i != fd && IsOpen(t, i) && t.fds[i].dev == t.fds[fd].dev
  }

  function FirstFree(fds: seq<Fd>): (i: nat)
    ensures i <= |fds| && (forall j | 0 <= j < i :: fds[j].dev.Some?) && (i < |fds| ==> fds[i].dev == None)
  {
    if fds == [] || fds[0].dev == None then 0 else 1 + FirstFree(fds[1..])
  }

  // The operations, by what they return: the table, the result, and the error number if they set one

  datatype Op =
    | Open(name: Option<Device>, mode: nat, status: int)   // what the name refers to; what its own open() returns
    | Close(fd: int, status: int)                          // what its own close() returns
    | Lock(fd: int, status: int)                           // what its own ioctl() returns
    | Unlock(fd: int, status: int)
    | Redirect(fd: int, name: Option<Device>, mode: nat, status: int)

  datatype Outcome = Outcome(table: Table, r: int, errno: Option<int>)

  function Marked(t: Table, i: int): int { if i > t.max then i else t.max }

  predicate Locked(t: Table, d: Device) { exists i | 0 <= i < |t.fds| :: Holds(t, i, d) }

  /** open(): -1 unless the name is known, a descriptor is free, nobody holds the device and its own
      open() succeeds.  File systems see to their own locks. */
  function Opened(t: Table, name: Option<Device>, mode: nat, status: int): Outcome {
    if name == None then Outcome(t, -1, Some(ENODEV)) else
    var d := name.value;
    var i := FirstFree(t.fds);
    if i == |t.fds| then Outcome(t, -1, Some(EMFILE)) else
    var max := Marked(t, i);
    if !d.isFilesystem && Locked(t, d) then Outcome(Table(t.fds, max), -1, Some(EACCES))
    else if status < 0 then Outcome(Table(t.fds, max), -1, Some(-status))
    else Outcome(Table(t.fds[i := Fd(Some(d), Flags(false, !d.isFilesystem, mode))], max), i, None)
  }

  /** Descriptors above 2 become free; the lower ones stay open, lock and all. */
  function Released(t: Table, fd: int): Table
    requires fd < |t.fds|
  {
    if fd > 2 then t.(fds := t.fds[fd := FREE]) else t
  }

  function Closed(t: Table, fd: int, status: int): Outcome
    requires fd < 0 || IsOpen(t, fd)
  {
    if fd < 0 then Outcome(t, -1, Some(EBADFD))
    else if status < 0 then Outcome(Released(t, fd), -1, Some(-status))
    else Outcome(Released(t, fd), 0, None)
  }

  /** The lock is granted if no other descriptor below the mark refers to the device. */
  predicate Grants(t: Table, fd: int)
    requires IsOpen(t, fd)
  {
    forall i | 0 <= i < |t.fds| && i < t.max :: !Shares(t, i, fd)
  }

  function WithExcl(t: Table, fd: int, excl: bool): Table
    requires IsOpen(t, fd)
  {
    t.(fds := t.fds[fd := Fd(t.fds[fd].dev, t.fds[fd].flags.(excl := excl))])
  }

  function Failure(t: Table, r: int): Outcome { Outcome(t, r, if r < 0 then Some(-r) else None) }

  /** ioctl(TIOCEXCL) */
  function LockTried(t: Table, fd: int, status: int): Outcome
    requires fd < 0 || IsOpen(t, fd)
  {
    if fd < 0 then Failure(t, -EBADFD)
    else if !t.fds[fd].flags.dev then Failure(t, status)
    else if Grants(t, fd) then Outcome(WithExcl(t, fd, true), 0, None)
    else Failure(t, -EACCES)
  }

  /** ioctl(TIOCNXCL) */
  function Unlocked(t: Table, fd: int, status: int): Outcome
    requires fd < 0 || IsOpen(t, fd)
  {
    if fd < 0 then Failure(t, -EBADFD)
    else if !t.fds[fd].flags.dev then Failure(t, status)
    else Outcome(WithExcl(t, fd, false), 0, None)
  }

  /** alt_open_fd(): opens the name and moves the new descriptor to a standard one; if the name
      cannot be opened, that stays as it is. */
  function Redirected(t: Table, fd: int, name: Option<Device>, mode: nat, status: int): Outcome
    requires 0 <= fd <= 2 && 3 <= |t.fds|
  {
    var o := Opened(t, name, mode, status);
    if o.r < 0 || o.r >= |t.fds| then o
    else Outcome(Released(o.table.(fds := o.table.fds[fd := o.table.fds[o.r]]), o.r), 0, None)
  }

  /** The descriptors that an operation names are open, or negative. */
  ghost predicate Enabled(t: Table, op: Op) {
    match op
    case Open(_, _, _) => true
    case Close(fd, _) => fd < 0 || IsOpen(t, fd)
    case Lock(fd, _) => fd < 0 || IsOpen(t, fd)
    case Unlock(fd, _) => fd < 0 || IsOpen(t, fd)
    case Redirect(fd, _, _, _) => 0 <= fd <= 2 && 3 <= |t.fds|
  }

  ghost function Step(t: Table, op: Op): Outcome
    requires Enabled(t, op)
  {
    match op
    case Open(name, mode, status) => Opened(t, name, mode, status)
    case Close(fd, status) => Closed(t, fd, status)
    case Lock(fd, status) => LockTried(t, fd, status)
    case Unlock(fd, status) => Unlocked(t, fd, status)
    case Redirect(fd, name, mode, status) => Redirected(t, fd, name, mode, status)
  }

  lemma FirstFreeAbove(t: Table)
    requires Valid(t)
    ensures FirstFree(t.fds) >= 3
  {
    assert t.fds[0].dev.Some? && t.fds[1].dev.Some? && t.fds[2].dev.Some?;
  }

  lemma OpenedValid(t: Table, name: Option<Device>, mode: nat, status: int)
    requires Valid(t)
    ensures Valid(Opened(t, name, mode, status).table)
  {
    FirstFreeAbove(t);
    var t' := Opened(t, name, mode, status).table;
    forall i | IsOpen(t', i) ensures i <= 2 || i <= t'.max {
      assert IsOpen(t, i) || i == FirstFree(t.fds);
    }
    assert IsOpen(t', 0) && IsOpen(t', 1) && IsOpen(t', 2);
  }

  lemma ReleasedValid(t: Table, fd: int)
    requires Valid(t) && fd < |t.fds|
    ensures Valid(Released(t, fd))
  {
    var t' := Released(t, fd);
    forall i | IsOpen(t', i) ensures i <= 2 || i <= t'.max {
      assert IsOpen(t, i);
    }
  }

  lemma WithExclValid(t: Table, fd: int, excl: bool)
    requires Valid(t) && IsOpen(t, fd) && t.fds[fd].flags.dev
    ensures Valid(WithExcl(t, fd, excl))
  {
    var t' := WithExcl(t, fd, excl);
    forall i | IsOpen(t', i) ensures i <= 2 || i <= t'.max {
      assert IsOpen(t, i);
    }
  }

  lemma MovedValid(t: Table, fd: int, from: int)
    requires Valid(t) && 0 <= fd <= 2 && IsOpen(t, from)
    ensures Valid(t.(fds := t.fds[fd := t.fds[from]]))
  {
    var t' := t.(fds := t.fds[fd := t.fds[from]]);
    forall i | IsOpen(t', i) ensures i <= 2 || i <= t'.max {
      assert IsOpen(t, i);
    }
  }

  lemma RedirectedValid(t: Table, fd: int, name: Option<Device>, mode: nat, status: int)
    requires Valid(t) && 0 <= fd <= 2
    ensures Valid(Redirected(t, fd, name, mode, status).table)
  {
    var o := Opened(t, name, mode, status);
    OpenedValid(t, name, mode, status);
    if 0 <= o.r < |t.fds| {
      MovedValid(o.table, fd, o.r);
      ReleasedValid(o.table.(fds := o.table.fds[fd := o.table.fds[o.r]]), o.r);
    }
  }

  lemma StepValid(t: Table, op: Op)
    requires Valid(t) && Enabled(t, op)
    ensures Valid(Step(t, op).table)
  {
    match op
    case Open(name, mode, status) => OpenedValid(t, name, mode, status);
    case Close(fd, _) => ReleasedValid(t, fd);
    case Lock(fd, _) => if fd >= 0 && t.fds[fd].flags.dev { WithExclValid(t, fd, true); }
    case Unlock(fd, _) => if fd >= 0 && t.fds[fd].flags.dev { WithExclValid(t, fd, false); }
    case Redirect(fd, name, mode, status) => RedirectedValid(t, fd, name, mode, status);
  }

  // Exclusive access over whole runs

  ghost predicate Run(ts: seq<Table>, ops: seq<Op>) {
    && |ts| == |ops| + 1 && Valid(ts[0])
    && forall i | 0 <= i < |ops| :: Enabled(ts[i], ops[i]) && ts[i + 1] == Step(ts[i], ops[i]).table
  }

  lemma {:induction false} RunValid(ts: seq<Table>, ops: seq<Op>, i: nat)
    requires Run(ts, ops) && i < |ts|
    ensures Valid(ts[i])
  {
    if i > 0 {
      RunValid(ts, ops, i - 1);
      StepValid(ts[i - 1], ops[i - 1]);
    }
  }

  predicate Refers(t: Table, i: int, d: Device) { IsOpen(t, i) && t.fds[i].dev.value == d }

  /** The operation takes the lock of descriptor `j` away. */
  predicate GivesUp(op: Op, j: int) {
    match op
    case Open(_, _, _) => false
    case Close(fd, _) => fd == j
    case Lock(_, _) => false
    case Unlock(fd, _) => fd == j
    case Redirect(fd, _, _, _) => fd == j
  }

  ghost predicate NoneAdded(t: Table, t': Table, d: Device) { forall i | Refers(t', i, d) :: Refers(t, i, d) }

  lemma OpenKeepsOut(t: Table, name: Option<Device>, mode: nat, status: int, j: int, d: Device)
    requires Valid(t) && Holds(t, j, d)
    ensures var o := Opened(t, name, mode, status);
            Holds(o.table, j, d) && NoneAdded(t, o.table, d) && (name == Some(d) ==> o.r == -1 && o.table.fds == t.fds)
  {
    FirstFreeAbove(t);
    assert Locked(t, d);
  }

  lemma RedirectKeepsOut(t: Table, fd: int, name: Option<Device>, mode: nat, status: int, j: int, d: Device)
    requires Valid(t) && Holds(t, j, d) && 0 <= fd <= 2 && fd != j
    ensures var t' := Redirected(t, fd, name, mode, status).table; Holds(t', j, d) && NoneAdded(t, t', d)
  {
    OpenKeepsOut(t, name, mode, status, j, d);
    FirstFreeAbove(t);
    var o := Opened(t, name, mode, status);
    if 0 <= o.r < |t.fds| {
      assert o.table.fds[o.r].dev == name;
      var t' := Redirected(t, fd, name, mode, status).table;
      forall i | Refers(t', i, d) ensures Refers(t, i, d) {
        assert i != fd ==> Refers(o.table, i, d);
      }
    }
  }

  /** While a descriptor holds a device, nothing that happens takes the lock away or lets anybody else
      in, unless it concerns the holder itself. */
  lemma StepKeepsOut(t: Table, op: Op, j: int, d: Device)
    requires Valid(t) && Enabled(t, op) && Holds(t, j, d) && !GivesUp(op, j)
    ensures Holds(Step(t, op).table, j, d) && NoneAdded(t, Step(t, op).table, d)
    ensures Refuses(t, op, d)
  {
    match op
    case Open(name, mode, status) => OpenKeepsOut(t, name, mode, status, j, d);
    case Close(_, _) =>
    case Lock(_, _) =>
    case Unlock(_, _) =>
    case Redirect(fd, name, mode, status) => RedirectKeepsOut(t, fd, name, mode, status, j, d);
  }

  /** Over any run in which a descriptor holds a device from `a` to `b`, the descriptors that refer to
      the device at `b` referred to it at `a` ... */
  lemma {:induction false} ExclusiveOverRuns(ts: seq<Table>, ops: seq<Op>, a: nat, b: nat, j: int, d: Device)
    requires Run(ts, ops) && a <= b <= |ops| && Holds(ts[a], j, d)
    requires forall i | a <= i < b :: !GivesUp(ops[i], j)
    ensures Holds(ts[b], j, d) && NoneAdded(ts[a], ts[b], d)
  {
    if a < b {
      ExclusiveOverRuns(ts, ops, a, b - 1, j, d);
      RunValid(ts, ops, b - 1);
      StepKeepsOut(ts[b - 1], ops[b - 1], j, d);
      Chained(ts[a], ts[b - 1], ts[b], d);
    }
  }

  lemma Chained(t: Table, t': Table, t'': Table, d: Device)
    requires NoneAdded(t, t', d) && NoneAdded(t', t'', d)
    ensures NoneAdded(t, t'', d)
  {
  }

  /** ... and every open of the device in between was refused. */
  lemma OpensRefusedOverRuns(ts: seq<Table>, ops: seq<Op>, a: nat, b: nat, j: int, d: Device)
    requires Run(ts, ops) && a <= b < |ops| && Holds(ts[a], j, d)
    requires forall i | a <= i < b :: !GivesUp(ops[i], j)
    ensures Refuses(ts[b], ops[b], d)
  {
    ExclusiveOverRuns(ts, ops, a, b, j, d);
    RunValid(ts, ops, b);
    if ops[b].Open? {
      StepKeepsOut(ts[b], ops[b], j, d);
    }
  }

  /** If the operation opens the device, it fails and the descriptors stay as they are. */
  ghost predicate Refuses(t: Table, op: Op, d: Device) {
    op.Open? && op.name == Some(d) ==> Enabled(t, op) && Step(t, op).r == -1 && Step(t, op).table.fds == t.fds
  }

  // What a lock is good for

  /** The descriptor of a device is granted the lock: it holds the device, and nothing else changes. */
  lemma GrantedLockHolds(t: Table, fd: int, status: int)
    requires IsOpen(t, fd) && t.fds[fd].flags.dev && LockTried(t, fd, status).r == 0
    ensures var t' := LockTried(t, fd, status).table;
            && Holds(t', fd, t.fds[fd].dev.value) && |t'.fds| == |t.fds|
            && t'.fds[fd].dev == t.fds[fd].dev && t'.fds[fd].flags.mode == t.fds[fd].flags.mode
            && forall i | 0 <= i < |t.fds| && i != fd :: t'.fds[i] == t.fds[i]
  {
  }

  /** Once a descriptor has been granted the lock, every open of its device is refused until it gives the
      lock up. */
  lemma GrantedLockRefuses(ts: seq<Table>, ops: seq<Op>, a: nat, b: nat, j: int, status: int)
    requires Run(ts, ops) && a < b < |ops| && ops[a] == Lock(j, status)
    requires IsOpen(ts[a], j) && ts[a].fds[j].flags.dev && Step(ts[a], ops[a]).r == 0
    requires forall i | a < i < b :: !GivesUp(ops[i], j)
    ensures Refuses(ts[b], ops[b], ts[a].fds[j].dev.value)
  {
    GrantedLockHolds(ts[a], j, status);
    OpensRefusedOverRuns(ts, ops, a + 1, b, j, ts[a].fds[j].dev.value);
  }

  /** Nobody holds a device that only the descriptor just unlocked held; it can be opened again. */
  lemma UnlockEnds(t: Table, fd: int, status: int, d: Device)
    requires IsOpen(t, fd) && t.fds[fd].flags.dev && t.fds[fd].dev == Some(d)
    ensures var t' := Unlocked(t, fd, status).table;
            && !Holds(t', fd, d) && Refers(t', fd, d) && (Locked(t', d) ==> exists i | Holds(t, i, d) :: i != fd)
            && forall i | 0 <= i < |t.fds| && i != fd :: t'.fds[i] == t.fds[i]
  {
    var t' := Unlocked(t, fd, status).table;
    if i :| 0 <= i < |t'.fds| && Holds(t', i, d) {
      assert Holds(t, i, d) && i != fd;
    }
  }

  /** A name is opened if and only if it is known, some descriptor is free, nobody holds the device and
      its own open() succeeds; it gets the lowest free descriptor, without the lock. */
  lemma OpenedIff(t: Table, name: Option<Device>, mode: nat, status: int)
    ensures var o := Opened(t, name, mode, status);
            && (o.r >= 0 <==>
                && name.Some? && (exists i | 0 <= i < |t.fds| :: !IsOpen(t, i)) && status >= 0
                && (name.value.isFilesystem || forall i | 0 <= i < |t.fds| :: !Holds(t, i, name.value)))
            && (o.r >= 0 ==> OpenedAt(t, o.table, o.r, name.value, mode))
            && (o.r < 0 ==> o.r == -1 && o.table.fds == t.fds && o.errno.Some?)
            && (name == None ==> o.errno == Some(ENODEV))
            && (name.Some? && (forall i | 0 <= i < |t.fds| :: IsOpen(t, i)) ==> o.errno == Some(EMFILE))
            && (name.Some? && (exists i | 0 <= i < |t.fds| :: !IsOpen(t, i)) ==>
                  !name.value.isFilesystem && Locked(t, name.value) ==> o.errno == Some(EACCES))
  {
    var i := FirstFree(t.fds);
    assert i < |t.fds| ==> !IsOpen(t, i);
  }

  /** The lowest free descriptor now refers to the device, and no other one has changed. */
  ghost predicate OpenedAt(t: Table, t': Table, r: int, d: Device, mode: nat) {
    && 0 <= r < |t.fds| == |t'.fds| && !IsOpen(t, r) && (forall i | 0 <= i < r :: IsOpen(t, i))
    && t'.fds[r] == Fd(Some(d), Flags(false, !d.isFilesystem, mode)) && r <= t'.max
    && forall i | 0 <= i < |t.fds| && i != r :: t'.fds[i] == t.fds[i]
  }

  /** A descriptor above 2 that has been closed can be opened again, whatever the driver answered. */
  lemma ClosedIsReused(t: Table, fd: int, status: int, d: Device, mode: nat)
    requires Valid(t) && 2 < fd && IsOpen(t, fd) && (d.isFilesystem || !Locked(t, d))
    ensures var t' := Closed(t, fd, status).table;
            && !IsOpen(t', fd) && (forall i | 0 <= i < |t.fds| && i != fd :: t'.fds[i] == t.fds[i])
            && 3 <= Opened(t', Some(d), mode, 0).r <= fd
  {
    var t' := Closed(t, fd, status).table;
    ReleasedValid(t, fd);
    FirstFreeAbove(t');
    assert t'.fds[fd].dev == None;
    ReleasedLocks(t, fd, d);
  }

  lemma ReleasedLocks(t: Table, fd: int, d: Device)
    requires fd < |t.fds|
    ensures Locked(Released(t, fd), d) ==> Locked(t, d)
  {
    if i :| 0 <= i < |t.fds| && Holds(Released(t, fd), i, d) {
      assert Holds(t, i, d);
    }
  }

  /** What a failed open returned is not followed any further. */
  lemma NegativeDescriptor(t: Table, fd: int, status: int)
    requires fd < 0
    ensures Closed(t, fd, status) == Outcome(t, -1, Some(EBADFD))
    ensures LockTried(t, fd, status) == Unlocked(t, fd, status) == Outcome(t, -EBADFD, Some(EBADFD))
  {
  }

  /** A standard descriptor that has been redirected refers to the device, and no other descriptor has
      been used up. */
  lemma RedirectedMeans(t: Table, fd: int, name: Option<Device>, mode: nat, status: int)
    requires Valid(t) && 0 <= fd <= 2
    ensures var o, t' := Redirected(t, fd, name, mode, status), Redirected(t, fd, name, mode, status).table;
            && (o.r == 0 <==> Opened(t, name, mode, status).r >= 0) && |t'.fds| == |t.fds|
            && (o.r == 0 ==> t'.fds[fd] == Fd(name, Flags(false, !name.value.isFilesystem, mode)))
            && forall i | 0 <= i < |t.fds| && (i != fd || o.r != 0) :: t'.fds[i] == t.fds[i]
  {
    OpenedIff(t, name, mode, status);
    FirstFreeAbove(t);
  }

  // What a lock request checks

  /** The lock is granted if and only if no descriptor but the one at the mark shares the device; a refusal
      changes nothing. */
  lemma LockGrantedIff(t: Table, fd: int, status: int)
    requires Valid(t) && IsOpen(t, fd) && t.fds[fd].flags.dev
    ensures LockTried(t, fd, status).r == 0 <==> forall i | 0 <= i < |t.fds| && i != t.max :: !Shares(t, i, fd)
    ensures var o := LockTried(t, fd, status); o.r != 0 ==> o == Outcome(t, -EACCES, Some(EACCES))
  {
    forall i | 0 <= i < |t.fds| && i != t.max && Shares(t, i, fd) ensures i < t.max {
      assert IsOpen(t, i);
    }
  }

  /** The lock is granted although another descriptor refers to the device, if and only if the one at
      the mark is the only other one that does. */
  lemma LockWronglyGrantedIff(t: Table, fd: int)
    requires Valid(t) && IsOpen(t, fd) && t.fds[fd].flags.dev
    ensures Grants(t, fd) && (exists i | 0 <= i < |t.fds| :: Shares(t, i, fd))
      <==> Shares(t, t.max, fd) && forall i | 0 <= i < |t.fds| && i != t.max :: !Shares(t, i, fd)
  {
    if Grants(t, fd) && exists i | 0 <= i < |t.fds| :: Shares(t, i, fd) {
      forall i | 0 <= i < |t.fds| && Shares(t, i, fd) ensures i == t.max {
        assert IsOpen(t, i);
      }
    }
  }

  /** A run that gets there, with four descriptors: standard input is redirected to a device, the device
      is opened again, and standard input is granted the lock. */
  lemma LockWronglyGranted(nil: Device, uart: Device)
    requires !nil.isFilesystem && !uart.isFilesystem && nil != uart
    ensures var std := Fd(Some(nil), NOFLAGS);
            var t0 := Table([std, std, std, FREE], -1);
            var t1 := Redirected(t0, 0, Some(uart), 0, 0).table;
            var t2 := Opened(t1, Some(uart), 0, 0).table;
            Valid(t0) && IsOpen(t2, 0) && Shares(t2, 3, 0) && LockTried(t2, 0, 0).r == 0
  {
    var std, open := Fd(Some(nil), NOFLAGS), Fd(Some(uart), Flags(false, true, 0));
    var t0 := Table([std, std, std, FREE], -1);
    FirstFreeIs(t0.fds, 3);
    assert Opened(t0, Some(uart), 0, 0).table == Table([std, std, std, open], 3);
    var t1 := Redirected(t0, 0, Some(uart), 0, 0).table;
    assert t1 == Table([open, std, std, FREE], 3);
    FirstFreeIs(t1.fds, 3);
    var t2 := Opened(t1, Some(uart), 0, 0).table;
    assert t2 == Table([open, std, std, open], 3);
    assert Grants(t2, 0);
  }

  /** Where the three standard descriptors refer to one device and there is a single further one, as in
      this system, every lock that is granted is granted rightly. */
  lemma LockRightlyGrantedHere(t: Table, fd: int)
    requires Valid(t) && |t.fds| == 4 && IsOpen(t, fd) && t.fds[fd].flags.dev
    requires t.fds[0].dev == t.fds[1].dev == t.fds[2].dev
    ensures Grants(t, fd) ==> forall i | 0 <= i < |t.fds| :: !Shares(t, i, fd)
  {
    LockWronglyGrantedIff(t, fd);
    var other := if fd == 0 then 1 else 0;
    assert Shares(t, 3, fd) ==> Shares(t, other, fd);
  }

  // The code

  class Files {
    const fds: array<Fd>
    var max: int
    var errno: int

    constructor (n: nat, nil: Device)
      requires n >= 3 && !nil.isFilesystem
      ensures fresh(fds) && fds.Length == n && Valid(View()) && max == -1
    {
      var a := new Fd[n](i => if i <= 2 then Fd(Some(nil), NOFLAGS) else FREE);
      fds, max, errno := a, -1, 0;
    }

    ghost function View(): Table
      reads this, fds
    {
      Table(fds[..], max)
    }

    /** alt_get_fd: the first free descriptor. */
    method GetFd(d: Device) returns (rc: int)
      requires Valid(View())
      modifies this`max, fds
      ensures var t, i := old(View()), FirstFree(old(fds[..]));
              if i == |t.fds| then rc == -EMFILE && View() == t
              else rc == i >= 3 && View() == Table(t.fds[i := Fd(Some(d), NOFLAGS)], Marked(t, i))
    {
      rc := -EMFILE;
      FirstFreeAbove(View());
      for i := 0 to fds.Length
        invariant forall j | 0 <= j < i :: fds[j].dev.Some?
        invariant rc == -EMFILE && View() == old(View())
      {
        if fds[i].dev == None {
          FirstFreeIs(fds[..], i);
          assert fds[..][i] == FREE;
          fds[i] := Fd(Some(d), fds[i].flags);
          if i > max {
            max := i;
          }
          return i;
        }
      }
      FirstFreeIs(fds[..], fds.Length);
    }

    /** alt_file_locked: marks the descriptor as one of a device, and looks for another one that holds
        the device. */
    method FileLocked(fd: nat, ghost before: Table) returns (r: int)
      requires Valid(before) && 3 <= fd < fds.Length == |before.fds| && before.fds[fd] == FREE
      requires fds[fd].dev.Some? && !fds[fd].flags.excl
      requires View() == Table(before.fds[fd := fds[fd]], Marked(before, fd))
      modifies fds
      ensures View() == Table(before.fds[fd := Fd(old(fds[fd].dev), old(fds[fd].flags).(dev := true))], max)
      ensures r == if Locked(before, old(fds[fd].dev).value) then -EACCES else 0
    {
      ghost var d := fds[fd].dev.value;
      fds[fd] := Fd(fds[fd].dev, fds[fd].flags.(dev := true));
      for i := 0 to max + 1
        invariant fds[..] == before.fds[fd := Fd(old(fds[fd].dev), old(fds[fd].flags).(dev := true))]
        invariant forall j | 0 <= j < i :: !Holds(before, j, d)
      {
        if fds[i].dev == fds[fd].dev && fds[i].flags.excl && i != fd {
          assert Holds(before, i, d);
          return -EACCES;
        }
      }
      assert forall j | Holds(before, j, d) :: IsOpen(before, j) && j <= max;
      r := 0;
    }

    /** ALT_OPEN */
    method Open(name: Option<Device>, mode: nat, driverStatus: int) returns (r: int)
      requires Valid(View())
      modifies this`max, this`errno, fds
      ensures var o := Opened(old(View()), name, mode, driverStatus);
              View() == o.table && r == o.r && (o.errno.Some? ==> errno == o.errno.value)
    {
      var index, status := -1, -ENODEV;
      ghost var t := View();
      if name != None {
        index := GetFd(name.value);
        if index < 0 {
          status := index;
        } else {
          status := OpenDevice(index, name.value, mode, driverStatus, t);
        }
      }
      if status < 0 {
        ReleaseFd(index);
        errno := -status;
        assert View().fds == t.fds;
        return -1;
      }
      return index;
    }

    /** The part of open() that comes after the descriptor has been allocated. */
    method OpenDevice(index: nat, d: Device, mode: nat, driverStatus: int, ghost t: Table) returns (status: int)
      requires Valid(t) && index == FirstFree(t.fds) < fds.Length == |t.fds|
      requires View() == Table(t.fds[index := Fd(Some(d), NOFLAGS)], Marked(t, index))
      modifies fds
      ensures View() == Table(t.fds[index := Fd(Some(d), Flags(false, !d.isFilesystem, mode))], Marked(t, index))
      ensures status == if !d.isFilesystem && Locked(t, d) then -EACCES else driverStatus
    {
      FirstFreeAbove(t);
      fds[index] := Fd(fds[index].dev, Flags(false, false, mode));
      status := 0;
      if !d.isFilesystem {
        status := FileLocked(index, t);
      }
      if status >= 0 {
        status := driverStatus;
      }
    }

    /** ALT_CLOSE */
    method Close(fd: int, driverStatus: int) returns (r: int)
      requires Valid(View()) && (fd < 0 || IsOpen(View(), fd))
      modifies this`errno, fds
      ensures var o := Closed(old(View()), fd, driverStatus);
              View() == o.table && r == o.r && (o.errno.Some? ==> errno == o.errno.value)
    {
      if fd < 0 {
        errno := EBADFD;
        return -1;
      }
      ReleaseFd(fd);
      if driverStatus < 0 {
        errno := -driverStatus;
        return -1;
      }
      return 0;
    }

    /** alt_fd_lock */
    method FdLock(fd: nat) returns (rc: int)
      requires Valid(View()) && IsOpen(View(), fd) && fds[fd].flags.dev
      modifies fds
      ensures var t := old(View());
              if Grants(t, fd) then rc == 0 && View() == WithExcl(t, fd, true) else rc == -EACCES && View() == t
      ensures rc == 0 ==> Holds(View(), fd, old(fds[fd].dev).value)
    {
      ghost var t := View();
      for i := 0 to max
        invariant forall j | 0 <= j < i :: !Shares(t, j, fd)
        invariant fds[..] == old(fds[..])
      {
        if i != fd && fds[i].dev == fds[fd].dev {
          assert Shares(t, i, fd);
          return -EACCES;
        }
      }
      fds[fd] := Fd(fds[fd].dev, fds[fd].flags.(excl := true));
      return 0;
    }

    /** alt_fd_unlock */
    method FdUnlock(fd: nat) returns (rc: int)
      requires Valid(View()) && IsOpen(View(), fd)
      modifies fds
      ensures rc == 0 && View() == WithExcl(old(View()), fd, false) && !fds[fd].flags.excl
    {
      fds[fd] := Fd(fds[fd].dev, fds[fd].flags.(excl := false));
      return 0;
    }

    /** ALT_IOCTL, for the two requests that it handles itself; `exclusive` stands for TIOCEXCL and
        its opposite for TIOCNXCL. */
    method Ioctl(fd: int, exclusive: bool, driverStatus: int) returns (rc: int)
      requires Valid(View()) && (fd < 0 || IsOpen(View(), fd))
      modifies this`errno, fds
      ensures var o := if exclusive then LockTried(old(View()), fd, driverStatus) else Unlocked(old(View()), fd, driverStatus);
              View() == o.table && rc == o.r && (o.errno.Some? ==> errno == o.errno.value)
    {
      if fd < 0 {
        rc := -EBADFD;
      } else if fds[fd].flags.dev {
        if exclusive {
          rc := FdLock(fd);
        } else {
          rc := FdUnlock(fd);
        }
      } else {
        rc := driverStatus;
      }
      if rc < 0 {
        errno := -rc;
      }
    }

    /** alt_open_fd */
    method OpenFd(fd: nat, name: Option<Device>, mode: nat, driverStatus: int)
      requires Valid(View()) && fd <= 2
      modifies this`max, this`errno, fds
      ensures View() == Redirected(old(View()), fd, name, mode, driverStatus).table
    {
      var from := Open(name, mode, driverStatus);
      if from >= 0 {
        fds[fd] := fds[from];
        ReleaseFd(from);
      }
    }

    /** alt_release_fd */
    method ReleaseFd(fd: int)
      requires fd < fds.Length
      modifies fds
      ensures View() == Released(old(View()), fd)
    {
      if fd > 2 {
        fds[fd] := FREE;
      }
    }
  }

  lemma FirstFreeIs(s: seq<Fd>, i: nat)
    requires i <= |s| && (forall j | 0 <= j < i :: s[j].dev.Some?) && (i < |s| ==> s[i].dev == None)
    ensures FirstFree(s) == i
  {
  }
}
