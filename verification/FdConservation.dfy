/** What the descriptor calls give back: failed opens, open followed by close, redirection;
    and where the code falls short of its own description. */
module FdConservation {
  import opened LList
  import opened Lookup
  import opened FdFlags
  import opened FdSpec
  import opened FdSafety

  ghost predicate SameSlot(f: Fd, g: Fd) {
    f.dev == g.dev && f.flags == g.flags
  }

  /** Every slot has the same device and flags. */
  ghost predicate SamePool(t: Table, u: Table) {
    |t.fds| == |u.fds| && forall i :: 0 <= i < |t.fds| ==> SameSlot(t.fds[i], u.fds[i])
  }

  /** Free slots carry no flags. */
  ghost predicate Clean(t: Table) {
    forall i :: 0 <= i < |t.fds| && t.fds[i].dev == null ==> t.fds[i].flags == NONE
  }

  lemma LowestFreeUnique(t: Table, i: nat)
    requires IsLowestFree(t, i)
    ensures !Full(t) && LowestFree(t) == i
  {
  }

  /** A successful open() takes the lowest free slot, fills it with the flags asked for and the
      driver's private word, raises the high-water mark to it, and changes no other slot. */
  lemma OpenTakesLowest(t: Table, target: Target, flags: Flags, cb: Hook)
    ensures var (u, r) := OpenCall(t, target, flags, cb);
      r >= 0 ==>
        && IsLowestFree(t, r) && |u.fds| == |t.fds|
        && Carries(u.fds[r], target, flags)
        && u.fds[r].priv == (if cb.Absent? then t.fds[r].priv else cb.priv)
        && u.maxFd == (if r > t.maxFd then r else t.maxFd) && u.errno == t.errno
        && forall j :: 0 <= j < |t.fds| && j != r ==> u.fds[j] == t.fds[j]
  {
  }

  /** open() fails exactly when nothing has the name, no slot is free, the device is locked, or
      the driver refuses. */
  lemma OpenFailsExactly(t: Table, target: Target, flags: Flags, cb: Hook)
    ensures var (u, r) := OpenCall(t, target, flags, cb);
      r < 0 <==>
        || target.Nothing?
        || Full(t)
        || (target.Device? && Locked(t, target.dev))
        || (cb.Returns? && cb.rc < 0)
  {
  }

  /** A failed open() restores the pool exactly if it found no slot to try, or that slot
      carried no stale flags. */
  lemma FailedOpenRestores(t: Table, target: Target, flags: Flags, cb: Hook)
    requires OpenCall(t, target, flags, cb).1 < 0
    ensures SamePool(t, OpenCall(t, target, flags, cb).0)
      <==> target.Nothing? || Full(t) || t.fds[LowestFree(t)].flags == NONE
  {
    if !target.Nothing? && !Full(t) {
      var i, u := LowestFree(t), OpenCall(t, target, flags, cb).0;
      assert u.fds[i].flags == NONE && u.fds[i].dev == null;
    }
  }

  /** open() then close() of the descriptor restores the pool, under the same condition. */
  lemma OpenThenClose(w: World, t: Table, target: Target, flags: Flags, cb: Hook, cb': Hook)
    requires Inv(w, t) && Fits(w, target) && OpenCall(t, target, flags, cb).1 >= 0
    ensures var (u, r) := OpenCall(t, target, flags, cb);
      r < |u.fds| && (SamePool(t, CloseCall(u, r, cb').0) <==> t.fds[r].flags == NONE)
  {
    OpenKeeps(w, t, target, flags, cb);
    var (u, r) := OpenCall(t, target, flags, cb);
    var v := CloseCall(u, r, cb').0;
    assert v.fds[r].dev == null && v.fds[r].flags == NONE;
  }

  /** The stale flags that F_SETFL leaves on a descriptor that is not open. */
  ghost predicate Soils(t: Table, op: Op)
  {
    op.FcntlOp? && 0 <= op.file < |t.fds| && t.fds[op.file].dev == null
    && op.cmd.SetFl? && (op.cmd.arg.append || op.cmd.arg.nonblock)
  }

  /** One redirection cleans the free slot that it tries, and changes no other slot but its own. */
  lemma Redirect1Frame(w: World, t: Table, slot: int, target: Target, flags: Flags, cb: Hook)
    requires Inv(w, t) && Fits(w, target) && 0 <= slot <= 2
    ensures var u := Redirect1(t, slot, target, flags, cb);
      && |u.fds| == |t.fds| && (Full(u) <==> Full(t))
      && (!Full(t) ==> LowestFree(u) == LowestFree(t) > 2)
      && (forall i :: 0 <= i < |t.fds| && i != slot ==>
            SameSlot(u.fds[i], if Full(t) || target.Nothing? || i != LowestFree(t) then t.fds[i] else Fd(null, 0, NONE)))
      && Redirected(t.fds[slot], u.fds[slot], target, flags)
  {
    OpenKeeps(w, t, target, flags, cb);
    var u := Redirect1(t, slot, target, flags, cb);
    assert SlotOk(w, t.fds[slot], slot, t.maxFd);
    assert u.fds[slot].dev != null;
    if !Full(t) {
      var i := LowestFree(t);
      assert SlotOk(w, t.fds[i], i, t.maxFd);
      LowestFreeUnique(u, i);
    }
  }

  /** Replacing one slot of a clean pool. */
  lemma PutClean(t: Table, i: nat, f: Fd, u: Table)
    requires Clean(t) && i < |t.fds| && u.fds == t.fds[i := f]
    ensures Clean(u) <==> (f.dev == null ==> f.flags == NONE)
  {
    if f.dev == null && f.flags != NONE { assert u.fds[i] == f; }
  }

  lemma RedirectClean(w: World, t: Table, a: Channel, b: Channel, c: Channel)
    requires Inv(w, t) && Fits(w, a.target) && Fits(w, b.target) && Fits(w, c.target) && Clean(t)
    ensures Clean(RedirectCall(t, a, b, c))
  {
    RedirectFrame(w, t, a, b, c);
    StepKeeps(w, t, RedirectOp(a, b, c));
    var u := RedirectCall(t, a, b, c);
    forall i | 0 <= i < |u.fds| && u.fds[i].dev == null
      ensures u.fds[i].flags == NONE
    {
      assert SlotOk(w, u.fds[i], i, u.maxFd);
    }
  }

  lemma OpenClean(t: Table, target: Target, flags: Flags, cb: Hook)
    requires Clean(t)
    ensures Clean(OpenCall(t, target, flags, cb).0)
  {
    if !target.Nothing? && !Full(t) {
      var i, u := LowestFree(t), OpenCall(t, target, flags, cb).0;
      PutClean(t, i, u.fds[i], u);
    }
  }

  /** From a clean pool a call leaves a clean pool, unless it is the one fcntl() that should
      have failed: setting flags on a descriptor that is not open. */
  lemma StepClean(w: World, t: Table, op: Op)
    requires Inv(w, t) && Legal(w, t, op) && Clean(t)
    ensures Clean(Step(w, t, op)) <==> !Soils(t, op)
  {
    match op {
      case RedirectOp(a, b, c) => RedirectClean(w, t, a, b, c);
      case OpenOp(target, flags, cb) => OpenClean(t, target, flags, cb);
      case FcntlOp(file, cmd) =>
        var u := Step(w, t, op);
        if u.fds != t.fds { PutClean(t, file, u.fds[file], u); }
      case CloseOp(file, cb) =>
        var u := Step(w, t, op);
        if u.fds != t.fds { PutClean(t, file, u.fds[file], u); }
      case IoctlOp(file, req, cb) =>
        var u := Step(w, t, op);
        if u.fds != t.fds { PutClean(t, file, u.fds[file], u); }
    }
  }

  ghost predicate NeverSoils(w: World, t: Table, ops: seq<Op>)
    requires |t.fds| >= 3 && LegalRun(w, t, ops)
    decreases |ops|
  {
    ops != [] ==> !Soils(t, ops[0]) && NeverSoils(w, Step(w, t, ops[0]), ops[1..])
  }

  /** So if every fcntl() names an open descriptor, free slots never carry flags. */
  lemma {:induction false} RunClean(w: World, t: Table, ops: seq<Op>)
    requires Inv(w, t) && Clean(t) && LegalRun(w, t, ops) && NeverSoils(w, t, ops)
    ensures Clean(Run(w, t, ops))
    decreases |ops|
  {
    if ops != [] {
      StepKeeps(w, t, ops[0]);
      StepClean(w, t, ops[0]);
      RunClean(w, Step(w, t, ops[0]), ops[1..]);
    }
  }

  /** Every other slot keeps its device and flags, but for the lowest free slot if it is tried. */
  ghost predicate SparesOthers(t: Table, u: Table, tried: bool)
    requires |u.fds| == |t.fds|
  {
    forall i :: 3 <= i < |t.fds| ==>
      SameSlot(u.fds[i], if !Full(t) && tried && i == LowestFree(t) then Fd(null, 0, NONE) else t.fds[i])
  }

  lemma RedirectFrame(w: World, t: Table, stdout: Channel, stdin: Channel, stderr: Channel)
    requires Inv(w, t)
    requires Fits(w, stdout.target) && Fits(w, stdin.target) && Fits(w, stderr.target)
    ensures var u := RedirectCall(t, stdout, stdin, stderr);
      && |u.fds| == |t.fds| && (!Full(t) ==> LowestFree(t) > 2)
      && SparesOthers(t, u, !(stdout.target.Nothing? && stdin.target.Nothing? && stderr.target.Nothing?))
      && Redirected(t.fds[0], u.fds[0], stdin.target, O_RDONLY)
      && Redirected(t.fds[1], u.fds[1], stdout.target, O_WRONLY)
      && Redirected(t.fds[2], u.fds[2], stderr.target, O_WRONLY)
  {
    Redirect1Keeps(w, t, 1, stdout.target, O_WRONLY, stdout.cb);
    Redirect1Frame(w, t, 1, stdout.target, O_WRONLY, stdout.cb);
    var t1 := Redirect1(t, 1, stdout.target, O_WRONLY, stdout.cb);
    Redirect1Keeps(w, t1, 0, stdin.target, O_RDONLY, stdin.cb);
    Redirect1Frame(w, t1, 0, stdin.target, O_RDONLY, stdin.cb);
    Redirect1Frame(w, Redirect1(t1, 0, stdin.target, O_RDONLY, stdin.cb), 2, stderr.target, O_WRONLY, stderr.cb);
  }

  /** alt_io_redirect from any table: each standard slot is as it was or carries its named
      device with the flags of a fresh open, and all other slots keep their devices. They keep
      their flags too exactly if no slot is tried, or the slot tried carried no stale flags. */
  lemma RedirectLeaksNothing(w: World, t: Table, stdout: Channel, stdin: Channel, stderr: Channel)
    requires Inv(w, t)
    requires Fits(w, stdout.target) && Fits(w, stdin.target) && Fits(w, stderr.target)
    ensures var u := RedirectCall(t, stdout, stdin, stderr);
      && |u.fds| == |t.fds|
      && (forall i :: 3 <= i < |t.fds| ==> u.fds[i].dev == t.fds[i].dev)
      && ((forall i :: 3 <= i < |t.fds| ==> SameSlot(t.fds[i], u.fds[i]))
          <==> (stdout.target.Nothing? && stdin.target.Nothing? && stderr.target.Nothing?)
               || Full(t) || t.fds[LowestFree(t)].flags == NONE)
      && Redirected(t.fds[0], u.fds[0], stdin.target, O_RDONLY)
      && Redirected(t.fds[1], u.fds[1], stdout.target, O_WRONLY)
      && Redirected(t.fds[2], u.fds[2], stderr.target, O_WRONLY)
  {
    RedirectFrame(w, t, stdout, stdin, stderr);
    var u := RedirectCall(t, stdout, stdin, stderr);
    if !Full(t) { assert u.fds[LowestFree(t)].flags == NONE || SameSlot(u.fds[LowestFree(t)], t.fds[LowestFree(t)]); }
  }

  /** So from a pool whose free slots carry no flags, nothing leaks at all. */
  lemma RedirectFromClean(w: World, t: Table, stdout: Channel, stdin: Channel, stderr: Channel)
    requires Inv(w, t) && Clean(t)
    requires Fits(w, stdout.target) && Fits(w, stdin.target) && Fits(w, stderr.target)
    ensures var u := RedirectCall(t, stdout, stdin, stderr);
      |u.fds| == |t.fds| && forall i :: 3 <= i < |t.fds| ==> SameSlot(t.fds[i], u.fds[i])
  {
    RedirectLeaksNothing(w, t, stdout, stdin, stderr);
  }

  ghost predicate Redirected(before: Fd, after: Fd, target: Target, mode: Flags)
  {
    || SameSlot(before, after)
    || Carries(after, target, mode)
  }

  // ---- The initial pool, and where the code falls short -------------------------------

  /** alt_fd_list at reset: three slots on the null device, the others free. */
  ghost function Initial(n: nat, devNull: Dev): Table
    requires n >= 3
  {
    Table(seq(n, i => if i < 3 then Fd(devNull, 0, NONE) else Fd(null, 0, NONE)), -1, 0)
  }

  lemma InitialOk(w: World, n: nat, devNull: Dev)
    requires n >= 3
    ensures Inv(w, Initial(n, devNull)) && Clean(Initial(n, devNull))
  {
  }

  /** alt_fd_lock promises the lock only if no other descriptor refers to the device. After
      two opens of one device at reset, the lower descriptor is granted the lock: the other sits
      at alt_max_fd, where the scan does not look. */
  lemma LockGrantedBesideRival(w: World, devNull: Dev, d: Dev)
    requires d in w.devices && d != devNull
    ensures var open := OpenOp(Device(d), NONE, Absent);
      var ops := [open, open, IoctlOp(3, TiocExcl, Absent)];
      LegalRun(w, Initial(32, devNull), ops)
      && Locked(Run(w, Initial(32, devNull), ops), d)
      && Count(Run(w, Initial(32, devNull), ops).fds, d) >= 2
  {
    var open, lock := OpenOp(Device(d), NONE, Absent), IoctlOp(3, TiocExcl, Absent);
    var ops := [open, open, lock];
    var t0 := Initial(32, devNull);
    LowestFreeUnique(t0, 3);
    var t1 := Step(w, t0, open);
    LowestFreeUnique(t1, 4);
    var t2 := Step(w, t1, open);
    assert t2.maxFd == 4 && t2.fds[3].dev == d && t2.fds[4].dev == d && Grantable(t2, 3);
    var t3 := Step(w, t2, lock);
    assert t3.fds[3].flags.excl && t3.fds[3].dev == d && t3.fds[4].dev == d;
    SoleCount(t3.fds, 3, d);
    Unfold3(w, t0, ops);
  }

  lemma Unfold3(w: World, t: Table, ops: seq<Op>)
    requires |ops| == 3 && |t.fds| >= 3 && Legal(w, t, ops[0])
    requires |Step(w, t, ops[0]).fds| >= 3 && Legal(w, Step(w, t, ops[0]), ops[1])
    requires |Step(w, Step(w, t, ops[0]), ops[1]).fds| >= 3
    requires Legal(w, Step(w, Step(w, t, ops[0]), ops[1]), ops[2])
    requires |Step(w, Step(w, Step(w, t, ops[0]), ops[1]), ops[2]).fds| >= 3
    ensures LegalRun(w, t, ops)
    ensures Run(w, t, ops) == Step(w, Step(w, Step(w, t, ops[0]), ops[1]), ops[2])
  {
    var t1 := Step(w, t, ops[0]);
    var t2 := Step(w, t1, ops[1]);
    var t3 := Step(w, t2, ops[2]);
    assert ops[1..][1..] == [ops[2]] && [ops[2]][1..] == [];
    assert LegalRun(w, t3, []) && Run(w, t3, []) == t3;
    assert LegalRun(w, t2, [ops[2]]) && Run(w, t2, [ops[2]]) == t3;
    assert LegalRun(w, t1, ops[1..]) && Run(w, t1, ops[1..]) == t3;
  }

  /** From reset: F_SETFL on a slot that is not open leaves a flag there, and an open() that the
      driver refuses then clears it, so the failed call did not restore the pool. */
  lemma FailedOpenClearsStaleFlags(w: World, n: nat, devNull: Dev, d: Dev)
    requires n > 3 && d in w.devices && d != devNull
    ensures var soil := FcntlOp(3, SetFl(NONE.(append := true)));
      var t := Step(w, Initial(n, devNull), soil);
      && Legal(w, Initial(n, devNull), soil)
      && OpenCall(t, Device(d), NONE, Returns(-1, 0)).1 == -1
      && !SamePool(t, OpenCall(t, Device(d), NONE, Returns(-1, 0)).0)
  {
    var t := Step(w, Initial(n, devNull), FcntlOp(3, SetFl(NONE.(append := true))));
    LowestFreeUnique(t, 3);
    FailedOpenRestores(t, Device(d), NONE, Returns(-1, 0));
  }

  /** From reset: standard output is sent to d and locks it; a redirection of all three channels
      then raises the count of d from one to two, although it began with d locked. */
  lemma RedirectDropsLock(w: World, n: nat, devNull: Dev, d: Dev)
    requires World?(w) && n > 3 && d in w.devices && devNull in w.devices && d != devNull
    ensures var none, null0, to := Channel(Nothing, Absent), Channel(Device(devNull), Absent), Channel(Device(d), Absent);
      var ops := [RedirectOp(to, none, none), IoctlOp(1, TiocExcl, Absent)];
      var raise := RedirectOp(null0, to, to);
      LegalRun(w, Initial(n, devNull), ops)
      && var t := Run(w, Initial(n, devNull), ops);
         && Inv(w, t) && Legal(w, t, raise) && Locked(t, d) && Count(t.fds, d) == 1
         && Count(Step(w, t, raise).fds, d) == 2
  {
    var none, null0, to := Channel(Nothing, Absent), Channel(Device(devNull), Absent), Channel(Device(d), Absent);
    var open, lock, raise := RedirectOp(to, none, none), IoctlOp(1, TiocExcl, Absent), RedirectOp(null0, to, to);
    var t0 := Initial(n, devNull);
    InitialOk(w, n, devNull);
    LowestFreeUnique(t0, 3);
    var t1 := Step(w, t0, open);
    OutputSentTo(w, n, devNull, d);
    var t2 := Step(w, t1, lock);
    LockOutput(w, t1, devNull, d);
    Unfold2(w, t0, open, lock);
    StepKeeps(w, t0, open);
    StepKeeps(w, t1, lock);
    LockedOutput(w, t2, devNull, d);
  }

  /** Standard output on d, the other two on the null device, nothing else open. */
  ghost predicate OutputOn(t: Table, devNull: Dev, d: Dev) {
    && |t.fds| > 3 && t.maxFd == 3
    && t.fds[0].dev == devNull && t.fds[1].dev == d && t.fds[2].dev == devNull
    && !t.fds[0].flags.excl && t.fds[1].flags.device && !t.fds[2].flags.excl
    && forall i :: 3 <= i < |t.fds| ==> t.fds[i].dev == null
  }

  lemma OutputSentTo(w: World, n: nat, devNull: Dev, d: Dev)
    requires n > 3 && d in w.devices && d != devNull
    ensures var none, to := Channel(Nothing, Absent), Channel(Device(d), Absent);
      OutputOn(RedirectCall(Initial(n, devNull), to, none, none), devNull, d)
  {
    LowestFreeUnique(Initial(n, devNull), 3);
  }

  lemma LockOutput(w: World, t: Table, devNull: Dev, d: Dev)
    requires OutputOn(t, devNull, d) && d != devNull
    ensures var u := IoctlCall(t, 1, TiocExcl, Absent).0;
      OutputOn(u, devNull, d) && u.fds[1].flags.excl
  {
    assert Grantable(t, 1);
  }

  /** The redirection that doubles the count. */
  lemma LockedOutput(w: World, t: Table, devNull: Dev, d: Dev)
    requires World?(w) && Inv(w, t) && d in w.devices && devNull in w.devices && d != devNull
    requires OutputOn(t, devNull, d) && t.fds[1].flags.excl
    ensures var null0, to := Channel(Device(devNull), Absent), Channel(Device(d), Absent);
      var raise := RedirectOp(null0, to, to);
      Legal(w, t, raise) && Locked(t, d) && Count(t.fds, d) == 1 && Count(Step(w, t, raise).fds, d) == 2
  {
    var null0, to := Channel(Device(devNull), Absent), Channel(Device(d), Absent);
    NobodyHolds(w, t, devNull, d);
    RedirectRaisesExactly(w, t, RedirectOp(null0, to, to), d);
  }

  lemma NobodyHolds(w: World, t: Table, devNull: Dev, d: Dev)
    requires OutputOn(t, devNull, d) && d != devNull && Inv(w, t)
    ensures !Full(t) && OnlyLock(t, 1, d) && !Locked(t, devNull) && Count(t.fds, d) == 1
  {
    assert t.fds[3].dev == null;
    assert forall j :: 0 <= j < |t.fds| && j != 1 ==> t.fds[j].dev != d;
    SoleCount(t.fds, 1, d);
  }

  lemma Unfold2(w: World, t: Table, a: Op, b: Op)
    requires |t.fds| >= 3 && Legal(w, t, a)
    requires |Step(w, t, a).fds| >= 3 && Legal(w, Step(w, t, a), b)
    requires |Step(w, Step(w, t, a), b).fds| >= 3
    ensures LegalRun(w, t, [a, b]) && Run(w, t, [a, b]) == Step(w, Step(w, t, a), b)
  {
    var t1 := Step(w, t, a);
    var t2 := Step(w, t1, b);
    assert [a, b][1..] == [b] && [b][1..] == [];
    assert LegalRun(w, t2, []) && Run(w, t2, []) == t2;
    assert LegalRun(w, t1, [b]) && Run(w, t1, [b]) == t2;
  }
}
