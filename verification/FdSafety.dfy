/** Whole runs of descriptor calls: what every call keeps, and what a lock is worth. */
module FdSafety {
  import opened LList
  import opened Lookup
  import opened FdFlags
  import opened FdSpec

  datatype Op =
    | OpenOp(target: Target, flags: Flags, cb: Hook)
    | CloseOp(file: int, cb: Hook)
    | IoctlOp(file: int, req: Request, cb: Hook)
    | FcntlOp(file: int, cmd: Command)
    | RedirectOp(stdout: Channel, stdin: Channel, stderr: Channel)

  /** What the source asks of the caller: close and ioctl follow the device pointer of a
      non-negative descriptor, fcntl only indexes the pool. */
  ghost predicate Legal(w: World, t: Table, op: Op)
  {
    match op
    case OpenOp(target, _, _) => Fits(w, target)
    case CloseOp(file, _) => file < 0 || Open?(t, file)
    case IoctlOp(file, _, _) => file < 0 || Open?(t, file)
    case FcntlOp(file, _) => file < |t.fds|
    case RedirectOp(a, b, c) => Fits(w, a.target) && Fits(w, b.target) && Fits(w, c.target)
  }

  ghost function Step(w: World, t: Table, op: Op): Table
    requires |t.fds| >= 3 && Legal(w, t, op)
  {
    match op
    case OpenOp(target, flags, cb) => OpenCall(t, target, flags, cb).0
    case CloseOp(file, cb) => CloseCall(t, file, cb).0
    case IoctlOp(file, req, cb) => IoctlCall(t, file, req, cb).0
    case FcntlOp(file, cmd) => FcntlCall(t, file, cmd).0
    case RedirectOp(a, b, c) => RedirectCall(t, a, b, c)
  }

  // ---- The invariant ------------------------------------------------------------------

  /** Replacing one slot by an acceptable one, under a mark that did not fall. */
  lemma PutKeeps(w: World, t: Table, i: int, f: Fd, u: Table)
    requires Inv(w, t) && 0 <= i < |t.fds| && t.maxFd <= u.maxFd < |t.fds|
    requires u.fds == t.fds[i := f] && SlotOk(w, f, i, u.maxFd)
    ensures Inv(w, u)
  {
    forall j | 0 <= j < |u.fds|
      ensures SlotOk(w, u.fds[j], j, u.maxFd)
    {
      assert SlotOk(w, t.fds[j], j, t.maxFd);
    }
  }

  lemma OpenKeeps(w: World, t: Table, target: Target, flags: Flags, cb: Hook)
    requires Inv(w, t) && Fits(w, target)
    ensures var (u, r) := OpenCall(t, target, flags, cb);
      Inv(w, u) && |u.fds| == |t.fds| && u.maxFd >= t.maxFd && (r >= 0 ==> 3 <= r < |u.fds|)
  {
    if !Full(t) && !target.Nothing? {
      var i, u := LowestFree(t), OpenCall(t, target, flags, cb).0;
      assert SlotOk(w, t.fds[i], i, t.maxFd);
      PutKeeps(w, t, i, u.fds[i], u);
    }
  }

  lemma ReleaseKeeps(w: World, t: Table, i: int)
    requires Inv(w, t) && i < |t.fds|
    ensures Inv(w, Release(t, i))
  {
    if i > 2 {
      PutKeeps(w, t, i, Fd(null, t.fds[i].priv, NONE), Release(t, i));
    }
  }

  lemma SetFlagsKeeps(w: World, t: Table, i: int, flags: Flags)
    requires Inv(w, t) && 0 <= i < |t.fds|
    requires flags.device == t.fds[i].flags.device
    requires flags.excl ==> t.fds[i].flags.device
    ensures Inv(w, SetFlags(t, i, flags))
  {
    assert SlotOk(w, t.fds[i], i, t.maxFd);
    PutKeeps(w, t, i, t.fds[i].(flags := flags), SetFlags(t, i, flags));
  }

  lemma IoctlKeeps(w: World, t: Table, file: int, req: Request, cb: Hook)
    requires Inv(w, t) && file < |t.fds|
    ensures Inv(w, IoctlCall(t, file, req, cb).0)
  {
    if file >= 0 && t.fds[file].flags.device {
      var f := t.fds[file].flags;
      SetFlagsKeeps(w, t, file, f.(excl := true));
      SetFlagsKeeps(w, t, file, f.(excl := false));
    }
  }

  lemma FcntlKeeps(w: World, t: Table, file: int, cmd: Command)
    requires Inv(w, t) && file < |t.fds|
    ensures Inv(w, FcntlCall(t, file, cmd).0)
  {
    if file >= 0 && cmd.SetFl? {
      assert SlotOk(w, t.fds[file], file, t.maxFd);
      SetFlagsKeeps(w, t, file, Adjusted(t.fds[file].flags, cmd.arg));
    }
  }

  lemma Redirect1Keeps(w: World, t: Table, slot: int, target: Target, flags: Flags, cb: Hook)
    requires Inv(w, t) && Fits(w, target) && 0 <= slot <= 2
    ensures var u := Redirect1(t, slot, target, flags, cb); Inv(w, u) && |u.fds| == |t.fds|
  {
    OpenKeeps(w, t, target, flags, cb);
    var (u, index) := OpenCall(t, target, flags, cb);
    if index >= 0 {
      var v := u.(fds := u.fds[slot := u.fds[index]]);
      assert SlotOk(w, u.fds[index], index, u.maxFd);
      PutKeeps(w, u, slot, u.fds[index], v);
      ReleaseKeeps(w, v, index);
    }
  }

  lemma StepKeeps(w: World, t: Table, op: Op)
    requires Inv(w, t) && Legal(w, t, op)
    ensures Inv(w, Step(w, t, op)) && |Step(w, t, op).fds| == |t.fds|
  {
    match op {
      case OpenOp(target, flags, cb) => OpenKeeps(w, t, target, flags, cb);
      case CloseOp(file, cb) => ReleaseKeeps(w, t, file);
      case IoctlOp(file, req, cb) => IoctlKeeps(w, t, file, req, cb);
      case FcntlOp(file, cmd) => FcntlKeeps(w, t, file, cmd);
      case RedirectOp(a, b, c) =>
        Redirect1Keeps(w, t, 1, a.target, O_WRONLY, a.cb);
        var t1 := Redirect1(t, 1, a.target, O_WRONLY, a.cb);
        Redirect1Keeps(w, t1, 0, b.target, O_RDONLY, b.cb);
        var t2 := Redirect1(t1, 0, b.target, O_RDONLY, b.cb);
        Redirect1Keeps(w, t2, 2, c.target, O_WRONLY, c.cb);
    }
  }

  // ---- What a lock is worth -----------------------------------------------------------

  /** The number of descriptors open on d. */
  ghost function Count(fds: seq<Fd>, d: Dev): nat
  {
    if fds == [] then 0
    else Count(fds[..|fds| - 1], d) + if fds[|fds| - 1].dev == d then 1 else 0
  }

  lemma {:induction false} CountPut(fds: seq<Fd>, i: nat, f: Fd, d: Dev)
    requires i < |fds|
    ensures Count(fds[i := f], d)
      == Count(fds, d) - (if fds[i].dev == d then 1 else 0) + (if f.dev == d then 1 else 0)
  {
    var last := |fds| - 1;
    if i == last {
      assert fds[i := f][..last] == fds[..last];
    } else {
      assert fds[i := f][..last] == fds[..last][i := f];
      CountPut(fds[..last], i, f, d);
    }
  }

  lemma LockedBelongsToDevice(w: World, t: Table, d: Dev)
    requires Inv(w, t) && Locked(t, d)
    ensures d in w.devices
  {
    var i :| 0 <= i < |t.fds| && t.fds[i].dev == d && t.fds[i].flags.excl;
    assert SlotOk(w, t.fds[i], i, t.maxFd);
  }

  /** open() neither adds nor removes a lock, and adds no descriptor to a locked device. */
  lemma OpenRespectsLock(w: World, t: Table, target: Target, flags: Flags, cb: Hook, d: Dev)
    requires World?(w) && Inv(w, t) && Fits(w, target)
    ensures var (u, r) := OpenCall(t, target, flags, cb);
      && (Locked(u, d) <==> Locked(t, d))
      && Count(u.fds, d) == Count(t.fds, d) + (if r >= 0 && target.dev == d then 1 else 0)
      && (Locked(t, d) ==> Count(u.fds, d) == Count(t.fds, d))
  {
    if Locked(t, d) { LockedBelongsToDevice(w, t, d); }
    if !target.Nothing? && !Full(t) {
      var i, u := LowestFree(t), OpenCall(t, target, flags, cb).0;
      CountPut(t.fds, i, u.fds[i], d);
      assert SlotOk(w, t.fds[i], i, t.maxFd);
      assert forall j :: 0 <= j < |t.fds| && j != i ==> u.fds[j] == t.fds[j];
    }
  }

  lemma ReleaseCount(w: World, t: Table, i: int, d: Dev)
    requires Inv(w, t) && i < |t.fds|
    ensures Locked(Release(t, i), d) ==> Locked(t, d)
    ensures i > 2 ==>
      Count(Release(t, i).fds, d) == Count(t.fds, d) - (if t.fds[i].dev == d then 1 else 0)
  {
    if i > 2 {
      CountPut(t.fds, i, t.fds[i].(dev := null, flags := NONE), d);
    }
  }

  lemma Redirect1RespectsLock(w: World, t: Table, slot: int, target: Target, flags: Flags, cb: Hook, d: Dev)
    requires World?(w) && Inv(w, t) && Fits(w, target) && 0 <= slot <= 2
    requires Locked(Redirect1(t, slot, target, flags, cb), d)
    ensures Locked(t, d) && Count(Redirect1(t, slot, target, flags, cb).fds, d) <= Count(t.fds, d)
  {
    OpenKeeps(w, t, target, flags, cb);
    OpenRespectsLock(w, t, target, flags, cb, d);
    var (u, index) := OpenCall(t, target, flags, cb);
    if index >= 0 {
      var v := u.(fds := u.fds[slot := u.fds[index]]);
      CountPut(u.fds, slot, u.fds[index], d);
      CountPut(v.fds, index, v.fds[index].(dev := null, flags := NONE), d);
      var r := Release(v, index);
      var j :| 0 <= j < |r.fds| && r.fds[j].dev == d && r.fds[j].flags.excl;
      assert j != slot && j != index && u.fds[j] == r.fds[j];
    }
  }

  /** A call that ends with d locked leaves no more descriptors on d than it found. */
  lemma StepEndsLocked(w: World, t: Table, op: Op, d: Dev)
    requires World?(w) && Inv(w, t) && Legal(w, t, op) && Locked(Step(w, t, op), d)
    ensures Count(Step(w, t, op).fds, d) <= Count(t.fds, d)
  {
    match op {
      case OpenOp(target, flags, cb) => OpenRespectsLock(w, t, target, flags, cb, d);
      case CloseOp(file, cb) => ReleaseCount(w, t, file, d);
      case IoctlOp(file, req, cb) => IoctlCount(w, t, file, req, cb, d);
      case FcntlOp(file, cmd) => FcntlCount(w, t, file, cmd, d);
      case RedirectOp(a, b, c) =>
        Redirect1Keeps(w, t, 1, a.target, O_WRONLY, a.cb);
        var t1 := Redirect1(t, 1, a.target, O_WRONLY, a.cb);
        Redirect1Keeps(w, t1, 0, b.target, O_RDONLY, b.cb);
        var t2 := Redirect1(t1, 0, b.target, O_RDONLY, b.cb);
        Redirect1RespectsLock(w, t2, 2, c.target, O_WRONLY, c.cb, d);
        Redirect1RespectsLock(w, t1, 0, b.target, O_RDONLY, b.cb, d);
        Redirect1RespectsLock(w, t, 1, a.target, O_WRONLY, a.cb, d);
    }
  }

  lemma IoctlCount(w: World, t: Table, file: int, req: Request, cb: Hook, d: Dev)
    requires Inv(w, t) && file < |t.fds|
    ensures Count(IoctlCall(t, file, req, cb).0.fds, d) == Count(t.fds, d)
  {
    var u := IoctlCall(t, file, req, cb).0;
    if u.fds != t.fds { CountPut(t.fds, file, u.fds[file], d); }
  }

  lemma FcntlCount(w: World, t: Table, file: int, cmd: Command, d: Dev)
    requires Inv(w, t) && file < |t.fds|
    ensures Count(FcntlCall(t, file, cmd).0.fds, d) == Count(t.fds, d)
  {
    var u := FcntlCall(t, file, cmd).0;
    if u.fds != t.fds { CountPut(t.fds, file, u.fds[file], d); }
  }

  /** open() would succeed. */
  ghost predicate Opens(t: Table, target: Target, cb: Hook) {
    && !target.Nothing? && !Full(t)
    && !(target.Device? && Locked(t, target.dev))
    && Status(cb, 0) >= 0
  }

  /** Slot i alone holds the lock on d. */
  ghost predicate OnlyLock(t: Table, i: nat, d: Dev)
    requires i < |t.fds|
  {
    t.fds[i].dev == d && forall j :: 0 <= j < |t.fds| && j != i ==> !(t.fds[j].dev == d && t.fds[j].flags.excl)
  }

  /** One redirection, slot by slot: beside its standard slot it changes free slots only. */
  lemma Redirect1Slots(w: World, t: Table, slot: int, target: Target, flags: Flags, cb: Hook)
    requires Inv(w, t) && Fits(w, target) && 0 <= slot <= 2
    ensures var u := Redirect1(t, slot, target, flags, cb);
      && |u.fds| == |t.fds|
      && (forall i :: 0 <= i < |t.fds| && i != slot ==>
            u.fds[i] == t.fds[i] || (t.fds[i].dev == null && u.fds[i].dev == null && u.fds[i].flags == NONE))
      && if Opens(t, target, cb) then
           && Carries(u.fds[slot], target, flags)
           && u.fds[slot].priv == (if cb.Absent? then t.fds[LowestFree(t)].priv else cb.priv)
         else u.fds[slot] == t.fds[slot]
  {
    OpenKeeps(w, t, target, flags, cb);
    assert SlotOk(w, t.fds[slot], slot, t.maxFd);
  }

  lemma {:induction false} CountDevices(fds: seq<Fd>, gds: seq<Fd>, d: Dev)
    requires |fds| == |gds| && forall i :: 0 <= i < |fds| ==> fds[i].dev == gds[i].dev
    ensures Count(fds, d) == Count(gds, d)
  {
    if fds != [] { CountDevices(fds[..|fds| - 1], gds[..|gds| - 1], d); }
  }

  /** What happens to the standard slot, the locks and the count in one redirection. */
  lemma Redirect1Effect(w: World, t: Table, slot: int, target: Target, flags: Flags, cb: Hook, d: Dev)
    requires World?(w) && Inv(w, t) && Fits(w, target) && 0 <= slot <= 2
    ensures var u := Redirect1(t, slot, target, flags, cb);
      && |u.fds| == |t.fds|
      && (forall i :: 0 <= i < |t.fds| && i != slot ==> u.fds[i].dev == t.fds[i].dev)
      && (u.fds[slot].dev == if Opens(t, target, cb) then target.dev else t.fds[slot].dev)
      && Count(u.fds, d) == Count(t.fds, d) + (if u.fds[slot].dev == d then 1 else 0) - (if t.fds[slot].dev == d then 1 else 0)
      && (Locked(u, d) <==> Locked(t, d) && !(Opens(t, target, cb) && OnlyLock(t, slot, d)))
      && (Full(u) <==> Full(t))
  {
    Redirect1Slots(w, t, slot, target, flags, cb);
    Redirect1Locks(w, t, slot, target, flags, cb, d);
    var u := Redirect1(t, slot, target, flags, cb);
    CountPut(t.fds, slot, u.fds[slot], d);
    CountDevices(t.fds[slot := u.fds[slot]], u.fds, d);
    assert t.fds[slot].dev != null && u.fds[slot].dev != null by { assert SlotOk(w, t.fds[slot], slot, t.maxFd); }
    assert forall i :: 0 <= i < |t.fds| ==> (t.fds[i].dev == null <==> u.fds[i].dev == null);
  }

  lemma Redirect1Locks(w: World, t: Table, slot: int, target: Target, flags: Flags, cb: Hook, d: Dev)
    requires World?(w) && Inv(w, t) && Fits(w, target) && 0 <= slot <= 2
    ensures Locked(Redirect1(t, slot, target, flags, cb), d)
      <==> Locked(t, d) && !(Opens(t, target, cb) && OnlyLock(t, slot, d))
  {
    Redirect1Slots(w, t, slot, target, flags, cb);
    var u := Redirect1(t, slot, target, flags, cb);
    forall i | 0 <= i < |t.fds| && i != slot
      ensures (u.fds[i].dev == d && u.fds[i].flags.excl) <==> (t.fds[i].dev == d && t.fds[i].flags.excl)
    {
      assert u.fds[i] == t.fds[i] || (t.fds[i].dev == null && u.fds[i].dev == null);
    }
    if Opens(t, target, cb) && Locked(t, d) && !OnlyLock(t, slot, d) && t.fds[slot].dev == d {
      var j :| 0 <= j < |t.fds| && j != slot && t.fds[j].dev == d && t.fds[j].flags.excl;
      assert u.fds[j].dev == d && u.fds[j].flags.excl;
    }
  }

  ghost predicate Names?(target: Target, d: Dev) {
    !target.Nothing? && target.dev == d
  }

  /** The redirections that put a locked device on more descriptors: standard output, alone on
      the device among the standard slots and the only holder of the lock, moves to another
      device, which drops the lock; then the other two channels open the device. */
  ghost predicate Raises(t: Table, op: Op, d: Dev)
    requires |t.fds| >= 3
  {
    && op.RedirectOp?
    && OnlyLock(t, 1, d) && t.fds[0].dev != d && t.fds[2].dev != d
    && Opens(t, op.stdout.target, op.stdout.cb) && !Names?(op.stdout.target, d)
    && op.stdin.target == Device(d) && Status(op.stdin.cb, 0) >= 0
    && op.stderr.target == Device(d) && Status(op.stderr.cb, 0) >= 0
  }

  /** A locked device gains nothing from one redirection that keeps it locked. */
  lemma LockedGainsNothing(w: World, t: Table, slot: int, target: Target, flags: Flags, cb: Hook, d: Dev)
    requires World?(w) && Inv(w, t) && Fits(w, target) && 0 <= slot <= 2 && Locked(t, d)
    ensures !(Opens(t, target, cb) && Names?(target, d))
    ensures var u := Redirect1(t, slot, target, flags, cb);
      Count(u.fds, d) == Count(t.fds, d) - (if Opens(t, target, cb) && t.fds[slot].dev == d then 1 else 0)
  {
    LockedBelongsToDevice(w, t, d);
    Redirect1Effect(w, t, slot, target, flags, cb, d);
  }

  /** The last two channels, on a device that is not locked. */
  lemma UnlockedGains(w: World, t: Table, slot: int, target: Target, flags: Flags, cb: Hook, d: Dev)
    requires World?(w) && Inv(w, t) && Fits(w, target) && 0 <= slot <= 2 && d in w.devices
    requires !Locked(t, d) && !Full(t)
    ensures var u := Redirect1(t, slot, target, flags, cb);
      && !Locked(u, d) && !Full(u)
      && Count(u.fds, d) <= Count(t.fds, d) + 1
      && (Count(u.fds, d) == Count(t.fds, d) + 1
          <==> t.fds[slot].dev != d && target == Device(d) && Status(cb, 0) >= 0)
  {
    Redirect1Effect(w, t, slot, target, flags, cb, d);
  }

  /** A redirection that begins with d locked leaves more descriptors on d exactly if it is one
      of those. */
  lemma RedirectRaisesExactly(w: World, t: Table, op: Op, d: Dev)
    requires World?(w) && Inv(w, t) && op.RedirectOp? && Legal(w, t, op) && Locked(t, d)
    ensures Count(Step(w, t, op).fds, d) > Count(t.fds, d) <==> Raises(t, op, d)
    ensures Raises(t, op, d) ==> Count(Step(w, t, op).fds, d) == Count(t.fds, d) + 1 && !Locked(Step(w, t, op), d)
  {
    var a, b, c := op.stdout, op.stdin, op.stderr;
    LockedBelongsToDevice(w, t, d);
    Redirect1Keeps(w, t, 1, a.target, O_WRONLY, a.cb);
    Redirect1Effect(w, t, 1, a.target, O_WRONLY, a.cb, d);
    LockedGainsNothing(w, t, 1, a.target, O_WRONLY, a.cb, d);
    var t1 := Redirect1(t, 1, a.target, O_WRONLY, a.cb);
    Redirect1Keeps(w, t1, 0, b.target, O_RDONLY, b.cb);
    var t2 := Redirect1(t1, 0, b.target, O_RDONLY, b.cb);
    if Locked(t1, d) {
      SecondChannel(w, t1, t2, b, c, d);
    } else {
      LastTwoChannels(w, t1, t2, b, c, d);
    }
  }

  /** If the first channel dropped the lock, the other two make up for the descriptor it freed
      exactly if both open the device. */
  lemma LastTwoChannels(w: World, t1: Table, t2: Table, b: Channel, c: Channel, d: Dev)
    requires World?(w) && Inv(w, t1) && Inv(w, t2) && !Locked(t1, d) && !Full(t1) && d in w.devices
    requires Fits(w, b.target) && Fits(w, c.target) && t2 == Redirect1(t1, 0, b.target, O_RDONLY, b.cb)
    ensures var u := Redirect1(t2, 2, c.target, O_WRONLY, c.cb);
      && !Locked(u, d)
      && Count(u.fds, d) <= Count(t1.fds, d) + 2
      && (Count(u.fds, d) == Count(t1.fds, d) + 2
          <==> && t1.fds[0].dev != d && b.target == Device(d) && Status(b.cb, 0) >= 0
               && t1.fds[2].dev != d && c.target == Device(d) && Status(c.cb, 0) >= 0)
  {
    Redirect1Effect(w, t1, 0, b.target, O_RDONLY, b.cb, d);
    Redirect1Effect(w, t2, 2, c.target, O_WRONLY, c.cb, d);
    UnlockedGains(w, t1, 0, b.target, O_RDONLY, b.cb, d);
    UnlockedGains(w, t2, 2, c.target, O_WRONLY, c.cb, d);
  }

  /** If the lock survived the first channel, the other two cannot make up for what they free. */
  lemma SecondChannel(w: World, t1: Table, t2: Table, b: Channel, c: Channel, d: Dev)
    requires World?(w) && Inv(w, t1) && Inv(w, t2) && Locked(t1, d) && Fits(w, b.target) && Fits(w, c.target)
    requires t2 == Redirect1(t1, 0, b.target, O_RDONLY, b.cb)
    ensures Count(Redirect1(t2, 2, c.target, O_WRONLY, c.cb).fds, d) <= Count(t1.fds, d)
  {
    LockedBelongsToDevice(w, t1, d);
    LockedGainsNothing(w, t1, 0, b.target, O_RDONLY, b.cb, d);
    Redirect1Effect(w, t1, 0, b.target, O_RDONLY, b.cb, d);
    if Locked(t2, d) {
      LockedGainsNothing(w, t2, 2, c.target, O_WRONLY, c.cb, d);
    } else {
      Redirect1Effect(w, t2, 2, c.target, O_WRONLY, c.cb, d);
    }
  }

  /** A call that begins with d locked leaves more descriptors on d exactly if it is one of those
      redirections. */
  lemma StepRespectsLock(w: World, t: Table, op: Op, d: Dev)
    requires World?(w) && Inv(w, t) && Legal(w, t, op) && Locked(t, d)
    ensures Count(Step(w, t, op).fds, d) > Count(t.fds, d) <==> Raises(t, op, d)
    ensures Raises(t, op, d) ==> !Locked(Step(w, t, op), d)
  {
    match op {
      case OpenOp(target, flags, cb) => OpenRespectsLock(w, t, target, flags, cb, d);
      case CloseOp(file, cb) => ReleaseCount(w, t, file, d);
      case IoctlOp(file, req, cb) => IoctlCount(w, t, file, req, cb, d);
      case FcntlOp(file, cmd) => FcntlCount(w, t, file, cmd, d);
      case RedirectOp(_, _, _) => RedirectRaisesExactly(w, t, op, d);
    }
  }

  ghost predicate LegalRun(w: World, t: Table, ops: seq<Op>)
    requires |t.fds| >= 3
    decreases |ops|
  {
    ops == [] || (Legal(w, t, ops[0]) && |Step(w, t, ops[0]).fds| >= 3 && LegalRun(w, Step(w, t, ops[0]), ops[1..]))
  }

  ghost function Run(w: World, t: Table, ops: seq<Op>): (r: Table)
    requires |t.fds| >= 3 && LegalRun(w, t, ops)
    ensures |r.fds| >= 3
    decreases |ops|
  {
    if ops == [] then t else Run(w, Step(w, t, ops[0]), ops[1..])
  }

  /** Every call of the run begins with d locked, and none is a redirection that raises its
      count. The last call may release the lock. */
  ghost predicate LockHeld(w: World, t: Table, ops: seq<Op>, d: Dev)
    requires |t.fds| >= 3 && LegalRun(w, t, ops)
    decreases |ops|
  {
    ops != [] ==> Locked(t, d) && !Raises(t, ops[0], d) && LockHeld(w, Step(w, t, ops[0]), ops[1..], d)
  }

  /** d is locked at every call boundary of the run, its end included. */
  ghost predicate LockedThroughout(w: World, t: Table, ops: seq<Op>, d: Dev)
    requires |t.fds| >= 3 && LegalRun(w, t, ops)
    decreases |ops|
  {
    Locked(t, d) && (ops != [] ==> LockedThroughout(w, Step(w, t, ops[0]), ops[1..], d))
  }

  /** Redirections that raise the count drop the lock, so they break it. */
  lemma {:induction false} ThroughoutIsHeld(w: World, t: Table, ops: seq<Op>, d: Dev)
    requires World?(w) && Inv(w, t) && LegalRun(w, t, ops) && LockedThroughout(w, t, ops, d)
    ensures LockHeld(w, t, ops, d) && Locked(Run(w, t, ops), d)
    decreases |ops|
  {
    if ops != [] {
      StepKeeps(w, t, ops[0]);
      StepRespectsLock(w, t, ops[0], d);
      ThroughoutIsHeld(w, Step(w, t, ops[0]), ops[1..], d);
    }
  }

  lemma {:induction false} RunKeeps(w: World, t: Table, ops: seq<Op>)
    requires Inv(w, t) && LegalRun(w, t, ops)
    ensures Inv(w, Run(w, t, ops))
    decreases |ops|
  {
    if ops != [] {
      StepKeeps(w, t, ops[0]);
      RunKeeps(w, Step(w, t, ops[0]), ops[1..]);
    }
  }

  /** While every call finds a device locked, no sequence of open, close, ioctl, fcntl and
      redirect calls raises the number of its descriptors, unless one is a redirection that
      overwrites the lock. */
  lemma {:induction false} LockedDeviceGainsNoDescriptor(w: World, t: Table, ops: seq<Op>, d: Dev)
    requires World?(w) && Inv(w, t) && LegalRun(w, t, ops) && LockHeld(w, t, ops, d)
    ensures Count(Run(w, t, ops).fds, d) <= Count(t.fds, d)
    decreases |ops|
  {
    if ops != [] {
      StepKeeps(w, t, ops[0]);
      StepRespectsLock(w, t, ops[0], d);
      LockedDeviceGainsNoDescriptor(w, Step(w, t, ops[0]), ops[1..], d);
    }
  }

  ghost predicate Sole(t: Table, i: nat)
    requires i < |t.fds|
  {
    forall j :: 0 <= j < |t.fds| && j != i ==> t.fds[j].dev != t.fds[i].dev
  }

  /** What a granted lock says. The scan of alt_fd_lock stops short of alt_max_fd, so if
      TIOCEXCL answers 0, the holder is the only descriptor of its device exactly if that last
      slot is its own or refers to something else. The only descriptor is always granted it. */
  lemma GrantedMeansSole(w: World, t: Table, i: nat, cb: Hook)
    requires Inv(w, t) && i < |t.fds| && t.fds[i].flags.device
    ensures var (u, rc) := IoctlCall(t, i, TiocExcl, cb);
      && (rc == 0 ==> |u.fds| == |t.fds| && (Sole(u, i) <==> i == t.maxFd || t.fds[t.maxFd].dev != t.fds[i].dev))
      && (Sole(t, i) ==> rc == 0)
  {
    assert SlotOk(w, t.fds[i], i, t.maxFd);
    forall j | 0 <= j < |t.fds| && t.fds[j].dev != null
      ensures j <= t.maxFd
    {
      assert SlotOk(w, t.fds[j], j, t.maxFd);
    }
    var u := IoctlCall(t, i, TiocExcl, cb).0;
    assert |u.fds| == |t.fds| && forall j :: 0 <= j < |t.fds| ==> u.fds[j].dev == t.fds[j].dev;
    assert Sole(u, i) <==> Sole(t, i);
    if Grantable(t, i) && !Sole(t, i) {
      var j :| 0 <= j < |t.fds| && j != i && t.fds[j].dev == t.fds[i].dev;
      assert j == t.maxFd;
    }
  }

  lemma {:induction false} SoleCount(fds: seq<Fd>, i: nat, d: Dev)
    requires i < |fds| && fds[i].dev == d
    ensures Count(fds, d) >= 1
    ensures Count(fds, d) == 1 <==> forall j :: 0 <= j < |fds| && j != i ==> fds[j].dev != d
  {
    var front := fds[..|fds| - 1];
    assert forall j :: 0 <= j < |front| ==> front[j] == fds[j];
    if i == |fds| - 1 {
      NoneCount(front, d);
    } else {
      SoleCount(front, i, d);
    }
  }

  lemma {:induction false} NoneCount(fds: seq<Fd>, d: Dev)
    ensures Count(fds, d) == 0 <==> forall j :: 0 <= j < |fds| ==> fds[j].dev != d
  {
    if fds != [] {
      var front := fds[..|fds| - 1];
      assert forall j :: 0 <= j < |front| ==> front[j] == fds[j];
      NoneCount(front, d);
    }
  }

  /** The sole descriptor of a locked device stays the sole one as long as its device stays
      locked, whatever calls are made. */
  lemma SoleHolderStaysSole(w: World, t: Table, ops: seq<Op>, i: nat, d: Dev)
    requires World?(w) && Inv(w, t) && LegalRun(w, t, ops) && LockedThroughout(w, t, ops, d)
    requires i < |t.fds| && t.fds[i].dev == d && Sole(t, i)
    ensures var r := Run(w, t, ops);
      Locked(r, d) && Count(r.fds, d) == 1
      && forall j :: 0 <= j < |r.fds| && r.fds[j].dev == d ==> Sole(r, j) && r.fds[j].flags.excl
  {
    SoleCount(t.fds, i, d);
    ThroughoutIsHeld(w, t, ops, d);
    LockedDeviceGainsNoDescriptor(w, t, ops, d);
    var r := Run(w, t, ops);
    var k :| 0 <= k < |r.fds| && r.fds[k].dev == d && r.fds[k].flags.excl;
    SoleCount(r.fds, k, d);
  }
}
