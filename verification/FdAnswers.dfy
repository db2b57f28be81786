/** What each descriptor call answers, and what it leaves in the table, field by field. */
module FdAnswers {
  import opened Errno
  import opened LList
  import opened Lookup
  import opened FdFlags
  import opened FdSpec
  import opened FdSafety
  import opened FdConservation

  /** u is t, but for slot i and errno. */
  ghost predicate OnlySlot(t: Table, u: Table, i: int) {
    && |u.fds| == |t.fds| && u.maxFd == t.maxFd
    && forall j :: 0 <= j < |t.fds| && j != i ==> u.fds[j] == t.fds[j]
  }

  ghost predicate SameBesideErrno(t: Table, u: Table) {
    u.fds == t.fds && u.maxFd == t.maxFd
  }

  /** ioctl(TIOCEXCL) on a device: granted exactly if no other slot strictly below alt_max_fd is
      on it. Granting sets the lock bit of this descriptor and nothing else; refusing reports
      EACCES and changes nothing. */
  lemma LockAnswer(t: Table, file: nat, cb: Hook)
    requires file < |t.fds| && t.fds[file].flags.device
    ensures var (u, rc) := IoctlCall(t, file, TiocExcl, cb);
      && (rc == 0 <==> forall j :: 0 <= j < |t.fds| && j < t.maxFd && j != file ==> t.fds[j].dev != t.fds[file].dev)
      && (rc == 0 ==>
            && OnlySlot(t, u, file) && u.errno == t.errno
            && u.fds[file].dev == t.fds[file].dev && u.fds[file].priv == t.fds[file].priv
            && u.fds[file].flags.excl && OtherFlagsKept(t.fds[file].flags, u.fds[file].flags))
      && (rc != 0 ==> rc == -EACCES && SameBesideErrno(t, u) && u.errno == EACCES)
  {
    var (u, rc) := IoctlCall(t, file, TiocExcl, cb);
    if rc != 0 {
      var j :| 0 <= j < t.maxFd && j < |t.fds| && j != file && t.fds[j].dev == t.fds[file].dev;
      assert j < |t.fds| && j < t.maxFd;
    }
  }

  ghost predicate OtherFlagsKept(f: Flags, g: Flags) {
    g.device == f.device && g.append == f.append && g.nonblock == f.nonblock && g.rest == f.rest
  }

  /** ioctl(TIOCNXCL) on a device always succeeds, and clears that bit alone. */
  lemma UnlockAnswer(t: Table, file: nat, cb: Hook)
    requires file < |t.fds| && t.fds[file].flags.device
    ensures var (u, rc) := IoctlCall(t, file, TiocNxcl, cb);
      && rc == 0 && OnlySlot(t, u, file) && u.errno == t.errno
      && u.fds[file].dev == t.fds[file].dev && u.fds[file].priv == t.fds[file].priv
      && !u.fds[file].flags.excl && OtherFlagsKept(t.fds[file].flags, u.fds[file].flags)
  {
  }

  /** Any other ioctl is the driver's: its answer is returned, ENOTTY stands in for a driver
      without the function, and a negative descriptor is refused. */
  lemma DriverAnswer(t: Table, file: int, req: Request, cb: Hook)
    requires file < |t.fds| && (file >= 0 && t.fds[file].flags.device ==> req.OtherRequest?)
    ensures var (u, rc) := IoctlCall(t, file, req, cb);
      && SameBesideErrno(t, u)
      && rc == (if file < 0 then -EBADFD else if cb.Returns? then cb.rc else -ENOTTY)
      && u.errno == (if rc < 0 then -rc else t.errno)
  {
  }

  /** From reset: after three opens of one device the scan finds the second descriptor, and the
      first is refused the lock. */
  lemma LockRefused(w: World, n: nat, devNull: Dev, d: Dev)
    requires n > 5 && d in w.devices && d != devNull
    ensures var open := OpenOp(Device(d), NONE, Absent);
      var t1 := Step(w, Initial(n, devNull), open);
      && |t1.fds| == n && var t2 := Step(w, t1, open);
      && |t2.fds| == n && var t3 := Step(w, t2, open);
      && |t3.fds| == n && IoctlCall(t3, 3, TiocExcl, Absent).1 == -EACCES && !Locked(t3, d)
  {
    var open := OpenOp(Device(d), NONE, Absent);
    var t0 := Initial(n, devNull);
    LowestFreeUnique(t0, 3);
    var t1 := Step(w, t0, open);
    LowestFreeUnique(t1, 4);
    var t2 := Step(w, t1, open);
    LowestFreeUnique(t2, 5);
    var t3 := Step(w, t2, open);
    assert t3.fds[3].dev == d && t3.fds[4].dev == d && t3.maxFd == 5 && t3.fds[3].flags.device;
    LockAnswer(t3, 3, Absent);
  }

  /** close() frees the slot above 2, device and flags, even if the driver reports an error; the
      standard slots stay open. */
  lemma CloseAnswer(t: Table, file: nat, cb: Hook)
    requires file < |t.fds|
    ensures var (u, rc) := CloseCall(t, file, cb);
      && OnlySlot(t, u, file)
      && (if file > 2 then u.fds[file].dev == null && u.fds[file].flags == NONE else u.fds[file] == t.fds[file])
      && (rc == 0 <==> cb.Absent? || cb.rc >= 0)
      && (rc == 0 ==> u.errno == t.errno)
      && (rc != 0 ==> rc == -1 && u.errno == -cb.rc)
  {
  }

  /** fcntl(F_GETFL) hides the reserved bits and changes nothing. */
  lemma GetFlagsAnswer(t: Table, file: nat)
    requires file < |t.fds|
    ensures var (u, r) := FcntlCall(t, file, GetFl);
      && u == t && r.Current? && !r.flags.excl && !r.flags.device
      && r.flags.append == t.fds[file].flags.append && r.flags.nonblock == t.fds[file].flags.nonblock
      && r.flags.rest == t.fds[file].flags.rest
  {
  }

  /** fcntl(F_SETFL) takes O_APPEND and O_NONBLOCK from its argument and keeps every other bit. */
  lemma SetFlagsAnswer(t: Table, file: nat, arg: Flags)
    requires file < |t.fds|
    ensures var (u, r) := FcntlCall(t, file, SetFl(arg));
      && r == Code(0) && OnlySlot(t, u, file) && u.errno == t.errno
      && u.fds[file].dev == t.fds[file].dev && u.fds[file].priv == t.fds[file].priv
      && u.fds[file].flags.append == arg.append && u.fds[file].flags.nonblock == arg.nonblock
      && u.fds[file].flags.excl == t.fds[file].flags.excl && u.fds[file].flags.device == t.fds[file].flags.device
      && u.fds[file].flags.rest == t.fds[file].flags.rest
  {
  }

  /** So what F_GETFL reports after F_SETFL is what was set, with the access mode of the open. */
  lemma SetThenGetFlags(t: Table, file: nat, arg: Flags)
    requires file < |t.fds|
    ensures var r := FcntlCall(FcntlCall(t, file, SetFl(arg)).0, file, GetFl).1;
      r == Current(Flags(false, false, arg.append, arg.nonblock, t.fds[file].flags.rest))
  {
  }

  lemma FcntlRefused(t: Table, file: int, cmd: Command)
    requires file < |t.fds| && (file < 0 || cmd.OtherCommand?)
    ensures var (u, r) := FcntlCall(t, file, cmd);
      r == Code(-1) && SameBesideErrno(t, u) && u.errno == (if file < 0 then EBADFD else EINVAL)
  {
  }

  /** The error that a failed open() reports, in the order of the checks. */
  lemma OpenError(t: Table, target: Target, flags: Flags, cb: Hook)
    requires OpenCall(t, target, flags, cb).1 < 0
    ensures var (u, r) := OpenCall(t, target, flags, cb);
      r == -1 && u.errno ==
        if target.Nothing? then ENODEV
        else if Full(t) then EMFILE
        else if target.Device? && Locked(t, target.dev) then EACCES
        else -cb.rc
  {
  }

  /** What open() makes of the word of flags in C. */
  lemma OpenedWord(t: Table, target: Target, word: bv32, cb: Hook)
    requires OpenCall(t, target, Meaning(word), cb).1 >= 0
    ensures var (u, r) := OpenCall(t, target, Meaning(word), cb);
      r < |u.fds| && u.fds[r].flags == Meaning(if target.Device? then (word & !ALT_FD_FLAGS_MASK) | ALT_FD_DEV
                                                else word & !ALT_FD_FLAGS_MASK)
  {
    UnmarkOnWord(word);
    MarkOnWord(word & !ALT_FD_FLAGS_MASK);
  }

  /** open, then F_GETFL: the descriptor reports the flags it was opened with. */
  lemma OpenThenGetFlags(w: World, t: Table, target: Target, flags: Flags, cb: Hook)
    requires Inv(w, t) && Fits(w, target) && OpenCall(t, target, flags, cb).1 >= 0
    ensures var (u, r) := OpenCall(t, target, flags, cb);
      r < |u.fds| && FcntlCall(u, r, GetFl).1 == Current(flags.(excl := false, device := false))
  {
    OpenKeeps(w, t, target, flags, cb);
  }

  /** Nothing holds the lock on what the channel names, and its driver does not refuse. */
  ghost predicate Willing(t: Table, c: Channel) {
    !c.target.Nothing? && !(c.target.Device? && Locked(t, c.target.dev)) && Status(c.cb, 0) >= 0
  }

  /** Channels that are willing are all redirected: each standard slot carries its own name. */
  lemma RedirectSucceeds(w: World, t: Table, stdout: Channel, stdin: Channel, stderr: Channel)
    requires World?(w) && Inv(w, t) && !Full(t)
    requires Fits(w, stdout.target) && Fits(w, stdin.target) && Fits(w, stderr.target)
    requires Willing(t, stdout) && Willing(t, stdin) && Willing(t, stderr)
    ensures var u := RedirectCall(t, stdout, stdin, stderr);
      && |u.fds| == |t.fds|
      && Carries(u.fds[0], stdin.target, NONE)
      && Carries(u.fds[1], stdout.target, NONE.(rest := 1))
      && Carries(u.fds[2], stderr.target, NONE.(rest := 1))
  {
    var t1 := Redirect1(t, 1, stdout.target, O_WRONLY, stdout.cb);
    WillingStays(w, t, 1, stdout, O_WRONLY, stdin);
    WillingStays(w, t, 1, stdout, O_WRONLY, stderr);
    WillingStays(w, t1, 0, stdin, O_RDONLY, stderr);
    var t2 := Redirect1(t1, 0, stdin.target, O_RDONLY, stdin.cb);
    Redirect1Keeps(w, t1, 0, stdin.target, O_RDONLY, stdin.cb);
    Redirect1Slots(w, t2, 2, stderr.target, O_WRONLY, stderr.cb);
  }

  lemma WillingStays(w: World, t: Table, slot: int, c: Channel, mode: Flags, other: Channel)
    requires World?(w) && Inv(w, t) && !Full(t) && Fits(w, c.target) && 0 <= slot <= 2
    requires Willing(t, c) && Willing(t, other)
    ensures var u := Redirect1(t, slot, c.target, mode, c.cb);
      && Inv(w, u) && !Full(u) && |u.fds| == |t.fds| && Willing(u, other) && Carries(u.fds[slot], c.target, mode)
      && forall i :: 0 <= i <= 2 && i != slot ==> u.fds[i] == t.fds[i]
  {
    Redirect1Keeps(w, t, slot, c.target, mode, c.cb);
    Redirect1Slots(w, t, slot, c.target, mode, c.cb);
    if other.target.Device? {
      Redirect1Effect(w, t, slot, c.target, mode, c.cb, other.target.dev);
    } else {
      Redirect1Effect(w, t, slot, c.target, mode, c.cb, t.fds[0].dev);
    }
    var u := Redirect1(t, slot, c.target, mode, c.cb);
    forall i | 0 <= i <= 2 && i != slot ensures u.fds[i] == t.fds[i] {
      assert SlotOk(w, t.fds[i], i, t.maxFd);
    }
  }
}
