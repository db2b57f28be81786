/** What each descriptor call does to the descriptor pool, on plain values. */
module FdSpec {
  import opened Errno
  import opened LList
  import opened Lookup
  import opened FdFlags

  /** alt_fd. A null dev marks a free slot. */
  datatype Fd = Fd(dev: Node?<DevInfo>, priv: int, flags: Flags)

  /** alt_fd_list, alt_max_fd and ALT_ERRNO. */
  datatype Table = Table(fds: seq<Fd>, maxFd: int, errno: int)

  /** What open() finds under a name. */
  datatype Target = Device(dev: Dev) | Mount(dev: Dev) | Nothing

  /** A driver function: not provided, or returning rc. An open() function also stores priv. */
  datatype Hook = Absent | Returns(rc: int, priv: int)

  datatype Command = GetFl | SetFl(arg: Flags) | OtherCommand
  datatype Request = TiocExcl | TiocNxcl | OtherRequest

  predicate Open?(t: Table, i: int) {
    0 <= i < |t.fds| && t.fds[i].dev != null
  }

  /** i is the slot POSIX open must use: the lowest free one. */
  ghost predicate IsLowestFree(t: Table, i: nat) {
    i < |t.fds| && t.fds[i].dev == null && forall j :: 0 <= j < i ==> t.fds[j].dev != null
  }

  ghost predicate Full(t: Table) {
    forall j :: 0 <= j < |t.fds| ==> t.fds[j].dev != null
  }

  ghost function LowestFree(t: Table): (i: nat)
    requires !Full(t)
    ensures IsLowestFree(t, i)
  {
    LowestFreeFrom(t, 0)
  }

  ghost function LowestFreeFrom(t: Table, k: nat): (i: nat)
    requires !Full(t) && k <= |t.fds| && forall j :: 0 <= j < k ==> t.fds[j].dev != null
    ensures IsLowestFree(t, i)
    decreases |t.fds| - k
  {
    if t.fds[k].dev == null then k else LowestFreeFrom(t, k + 1)
  }

  /** Some descriptor holds device d for exclusive access. */
  ghost predicate Locked(t: Table, d: Dev) {
    exists i :: 0 <= i < |t.fds| && t.fds[i].dev == d && t.fds[i].flags.excl
  }

  function FreshFlags(flags: Flags, device: bool): Flags {
    Unmarked(flags).(device := device)
  }

  /** The descriptor of a successful open(): the name's device or filesystem, the flags asked for
      bit by bit, no lock, and the device mark exactly on devices. */
  ghost predicate Carries(f: Fd, target: Target, mode: Flags) {
    && !target.Nothing? && f.dev == target.dev
    && f.flags.rest == mode.rest && f.flags.append == mode.append && f.flags.nonblock == mode.nonblock
    && !f.flags.excl && (f.flags.device <==> target.Device?)
  }

  function Max(a: int, b: int): int { if a < b then b else a }

  function Fail(t: Table, errno: int): (Table, int) {
    (t.(errno := errno), -1)
  }

  function Status(cb: Hook, default: int): int {
    if cb.Absent? then default else cb.rc
  }

  /** ALT_OPEN. */
  ghost function OpenCall(t: Table, target: Target, flags: Flags, cb: Hook): (Table, int)
  {
    if target.Nothing? then Fail(t, ENODEV)
    else if Full(t) then Fail(t, EMFILE)
    else
      var i := LowestFree(t);
      var u := t.(maxFd := Max(t.maxFd, i));
      if target.Device? && Locked(t, target.dev) then
        Fail(u.(fds := t.fds[i := Fd(null, t.fds[i].priv, NONE)]), EACCES)
      else
        var priv := if cb.Absent? then t.fds[i].priv else cb.priv;
        if Status(cb, 0) < 0 then Fail(u.(fds := t.fds[i := Fd(null, priv, NONE)]), -cb.rc)
        else (u.(fds := t.fds[i := Fd(target.dev, priv, FreshFlags(flags, target.Device?))]), i)
  }

  /** alt_release_fd: the three standard descriptors are never freed. */
  function Release(t: Table, i: int): Table
    requires i < |t.fds|
  {
    if i > 2 then t.(fds := t.fds[i := t.fds[i].(dev := null, flags := NONE)]) else t
  }

  /** ALT_CLOSE. */
  function CloseCall(t: Table, file: int, cb: Hook): (Table, int)
    requires file < |t.fds|
  {
    if file < 0 then Fail(t, EBADFD)
    else if Status(cb, 0) < 0 then Fail(Release(t, file), -cb.rc)
    else (Release(t, file), 0)
  }

  function SetFlags(t: Table, i: int, flags: Flags): Table
    requires 0 <= i < |t.fds|
  {
    t.(fds := t.fds[i := t.fds[i].(flags := flags)])
  }

  /** alt_fd_lock looks for rivals below alt_max_fd, not at it. */
  ghost predicate Grantable(t: Table, i: nat)
    requires i < |t.fds|
  {
    forall j :: 0 <= j < t.maxFd && j < |t.fds| && j != i ==> t.fds[j].dev != t.fds[i].dev
  }

  function Report(t: Table, rc: int): (Table, int) {
    (if rc < 0 then t.(errno := -rc) else t, rc)
  }

  /** ALT_IOCTL. */
  ghost function IoctlCall(t: Table, file: int, req: Request, cb: Hook): (Table, int)
    requires file < |t.fds|
  {
    if file < 0 then Report(t, -EBADFD)
    else if t.fds[file].flags.device && req.TiocExcl? then
      if Grantable(t, file) then (SetFlags(t, file, t.fds[file].flags.(excl := true)), 0) else Report(t, -EACCES)
    else if t.fds[file].flags.device && req.TiocNxcl? then
      (SetFlags(t, file, t.fds[file].flags.(excl := false)), 0)
    else Report(t, Status(cb, -ENOTTY))
  }

  /** The result of fcntl(): the flags asked for, or a return code. */
  datatype FcntlResult = Current(flags: Flags) | Code(rc: int)

  /** ALT_FCNTL. */
  function FcntlCall(t: Table, file: int, cmd: Command): (Table, FcntlResult)
    requires file < |t.fds|
  {
    if file < 0 then (t.(errno := EBADFD), Code(-1))
    else match cmd
      case GetFl => (t, Current(Unmarked(t.fds[file].flags)))
      case SetFl(arg) => (SetFlags(t, file, Adjusted(t.fds[file].flags, arg)), Code(0))
      case OtherCommand => (t.(errno := EINVAL), Code(-1))
  }

  /** alt_open_fd: open, copy the new descriptor into a standard slot, release it. */
  ghost function Redirect1(t: Table, slot: int, target: Target, flags: Flags, cb: Hook): Table
    requires 0 <= slot < |t.fds|
  {
    var (u, index) := OpenCall(t, target, flags, cb);
    if index < 0 then u else Release(u.(fds := u.fds[slot := u.fds[index]]), index)
  }

  /** A channel of alt_io_redirect: what its name resolves to, and how its driver answers. */
  datatype Channel = Channel(target: Target, cb: Hook)

  /** alt_io_redirect. */
  ghost function RedirectCall(t: Table, stdout: Channel, stdin: Channel, stderr: Channel): Table
    requires |t.fds| >= 3
  {
    var t1 := Redirect1(t, 1, stdout.target, O_WRONLY, stdout.cb);
    var t2 := Redirect1(t1, 0, stdin.target, O_RDONLY, stdin.cb);
    Redirect1(t2, 2, stderr.target, O_WRONLY, stderr.cb)
  }

  // ---- Invariant ---------------------------------------------------------------------

  /** The registered devices and filesystems. */
  datatype World = World(devices: set<Dev>, mounts: set<Dev>)

  ghost predicate Fits(w: World, target: Target) {
    match target
    case Device(d) => d in w.devices
    case Mount(d) => d in w.mounts
    case Nothing => true
  }

  ghost predicate World?(w: World) {
    w.devices !! w.mounts
  }

  ghost predicate SlotOk(w: World, f: Fd, i: int, maxFd: int)
  {
    && (i <= 2 ==> f.dev != null)
    && (f.dev != null ==> i <= Max(2, maxFd))
    && (f.flags.device ==> f.dev != null && f.dev in w.devices && maxFd >= 3)
    && (f.flags.excl ==> f.flags.device)
  }

  /** The standard slots are in use, no slot in use lies above the high-water mark, and only
      open descriptors of devices carry the device and lock bits. */
  ghost predicate Inv(w: World, t: Table)
  {
    && |t.fds| >= 3 && -1 <= t.maxFd < |t.fds|
    && forall i :: 0 <= i < |t.fds| ==> SlotOk(w, t.fds[i], i, t.maxFd)
  }
}
