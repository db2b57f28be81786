/** The descriptor calls themselves: loops and writes over the array alt_fd_list. */
module FdTable {
  import opened Errno
  import opened LList
  import opened Lookup
  import opened FdFlags
  import opened FdSpec
  import opened FdSafety
  import opened FdConservation

  /** What is on alt_dev_list and alt_fs_list. */
  datatype Registry = Registry(devices: seq<Dev>, deviceNames: seq<string>, mounts: seq<Dev>, mountNames: seq<string>)
  {
    /** What a name refers to: the first matching device, else the first matching mount. */
    ghost predicate Resolves(file: string, target: Target)
    {
      && |deviceNames| == |devices| && |mountNames| == |mounts|
      && match target
         case Device(d) => IsFirst(d, devices, deviceNames, n => NamesDevice(file, n))
         case Mount(d) =>
           && IsFirst(null, devices, deviceNames, n => NamesDevice(file, n))
           && IsFirst(d, mounts, mountNames, m => BelowMount(file, m))
         case Nothing =>
           && IsFirst(null, devices, deviceNames, n => NamesDevice(file, n))
           && IsFirst(null, mounts, mountNames, m => BelowMount(file, m))
    }
  }

  /** A device is found before any filesystem, and a name refers to one thing only. */
  lemma DevicesFirst(r: Registry, file: string, target: Target, k: nat)
    requires r.Resolves(file, target) && k < |r.devices| && r.deviceNames[k] == file && |file| <= 1000
    ensures target.Device?
    ensures exists i :: 0 <= i <= k && r.devices[i] == target.dev && r.deviceNames[i] == file
                        && forall j :: 0 <= j < i ==> r.deviceNames[j] != file
  {
    assert NamesDevice(file, r.deviceNames[k]);
  }

  ghost predicate Registered(r: Registry, w: World, devices: Ring<DevInfo>, mounts: Ring<DevInfo>)
    reads devices, devices.head, devices.entries, mounts, mounts.head, mounts.entries
  {
    && Named(devices) && Named(mounts)
    && r == Registry(devices.entries, Names(devices.entries), mounts.entries, Names(mounts.entries))
    && w == World(Elements(devices.entries), Elements(mounts.entries))
  }

  /** The lookup half of ALT_OPEN. */
  method Find(file: string, devices: Ring<DevInfo>, mounts: Ring<DevInfo>, ghost reg: Registry, ghost w: World)
    returns (dev: Node?<DevInfo>, isafs: bool)
    requires CString(file) && Registered(reg, w, devices, mounts)
    ensures reg.Resolves(file, ToTarget(dev, isafs)) && Fits(w, ToTarget(dev, isafs))
  {
    dev := FindDev(file, devices);
    isafs := false;
    if dev == null {
      dev := FindFile(file, mounts);
      isafs := true;
    }
  }

  class Pool {
    const fds: array<Fd>              // alt_fd_list
    var maxFd: int                    // alt_max_fd
    var errno: int                    // ALT_ERRNO
    ghost const w: World              // the registered devices and filesystems

    ghost predicate Valid()
      reads this, fds
    {
      World?(w) && Inv(w, View())
    }

    ghost function View(): Table
      reads this, fds
    {
      Table(fds[..], maxFd, errno)
    }

    /** The pool at reset. Devices and filesystems are registered before any file is opened. */
    constructor (n: nat, devNull: Dev, ghost w: World)
      requires n >= 3 && World?(w)
      ensures Valid() && fresh(fds) && this.w == w
      ensures View() == Initial(n, devNull)
    {
      fds := new Fd[n](i => Fd(if i < 3 then devNull else null, 0, NONE));
      maxFd, errno := -1, 0;
      this.w := w;
      new;
      assert fds[..] == Initial(n, devNull).fds;
    }

    /** alt_get_fd. */
    method GetFd(dev: Dev) returns (rc: int)
      modifies this`maxFd, fds
      requires -1 <= maxFd < fds.Length
      ensures Full(old(View())) ==> rc == -EMFILE && View() == old(View())
      ensures !Full(old(View())) ==>
        && rc == LowestFree(old(View()))
        && View() == old(View()).(fds := old(fds[..])[rc := old(fds[..])[rc].(dev := dev)],
                                  maxFd := Max(old(maxFd), rc))
    {
      rc := -EMFILE;
      var i := 0;
      while i < fds.Length
        invariant 0 <= i <= fds.Length
        invariant forall j :: 0 <= j < i ==> fds[j].dev != null
        invariant View() == old(View()) && rc == -EMFILE
      {
        if fds[i].dev == null {
          fds[i] := fds[i].(dev := dev);
          if i > maxFd { maxFd := i; }
          return i;
        }
        i := i + 1;
      }
    }

    /** alt_release_fd. */
    method ReleaseFd(fd: int)
      requires fd < fds.Length
      modifies fds
      ensures View() == Release(old(View()), fd)
    {
      if fd > 2 {
        fds[fd] := fds[fd].(flags := NONE);
        fds[fd] := fds[fd].(dev := null);
      }
    }

    /** alt_file_locked marks the descriptor as a device and looks for a lock among the others.
        The C loop compares an unsigned index with the signed alt_max_fd; here it is never -1. */
    method FileLocked(fd: int) returns (rc: int)
      requires 0 <= fd < fds.Length && 0 <= maxFd < fds.Length
      requires forall i :: 0 <= i < fds.Length && fds[i].dev != null ==> i <= maxFd
      requires fds[fd].dev != null && !fds[fd].flags.excl
      modifies fds
      ensures View() == SetFlags(old(View()), fd, old(fds[fd]).flags.(device := true))
      ensures rc == if Locked(old(View()), old(fds[fd]).dev) then -EACCES else 0
    {
      fds[fd] := fds[fd].(flags := fds[fd].flags.(device := true));
      var i := 0;
      while i <= maxFd
        invariant 0 <= i <= maxFd + 1
        invariant View() == SetFlags(old(View()), fd, old(fds[fd]).flags.(device := true))
        invariant forall j :: 0 <= j < i ==> !(old(fds[j]).dev == fds[fd].dev && old(fds[j]).flags.excl)
      {
        if fds[i].dev == fds[fd].dev && fds[i].flags.excl && i != fd {
          assert old(View()).fds[i] == fds[i];
          return -EACCES;
        }
        i := i + 1;
      }
      return 0;
    }

    /** What ALT_OPEN does with a descriptor just allocated: mark it, guard it, call the driver. */
    method Attach(index: int, isafs: bool, flags: Flags, cb: Hook) returns (status: int)
      requires 0 <= index < fds.Length && 0 <= maxFd < fds.Length && fds[index].dev != null
      requires forall i :: 0 <= i < fds.Length && fds[i].dev != null ==> i <= maxFd
      modifies fds
      ensures var f := old(fds[index]);
        if !isafs && Rival(old(View()), index) then
          && status == -EACCES
          && fds[..] == old(fds[..])[index := Fd(f.dev, f.priv, FreshFlags(flags, true))]
        else
          && status == Status(cb, 0)
          && fds[..] == old(fds[..])[index := Fd(f.dev, if cb.Absent? then f.priv else cb.priv, FreshFlags(flags, !isafs))]
      ensures Carries(fds[index], ToTarget(old(fds[index]).dev, isafs), flags)
    {
      fds[index] := fds[index].(flags := Unmarked(flags));
      status := 0;
      if !isafs {
        LockedElsewhere(old(View()), View(), index);
        status := FileLocked(index);
      }
      if isafs || status >= 0 {
        if cb.Returns? {
          fds[index] := fds[index].(priv := cb.priv);
          status := cb.rc;
        } else {
          status := 0;
        }
      }
    }

    /** Allocate, guard, call the driver. */
    method Allocate(dev: Dev, isafs: bool, flags: Flags, cb: Hook) returns (index: int, status: int)
      requires Inv(w, View())
      modifies this`maxFd, fds
      ensures Full(old(View())) ==> index < 0 && status == -EMFILE && View() == old(View())
      ensures !Full(old(View())) ==>
        var t := old(View());
        && index == LowestFree(t) > 2
        && maxFd == Max(t.maxFd, index) && errno == t.errno
        && status == (if !isafs && Locked(t, dev) then -EACCES else Status(cb, 0))
        && fds[..] == t.fds[index := Fd(dev, if cb.Absent? || (!isafs && Locked(t, dev)) then t.fds[index].priv else cb.priv,
                                        FreshFlags(flags, !isafs))]
    {
      ghost var t := View();
      index := GetFd(dev);
      if index < 0 {
        status := index;
      } else {
        Occupied(w, t, index);
        RivalIsLock(t, View(), index);
        status := Attach(index, isafs, flags, cb);
      }
    }

    /** The second half of ALT_OPEN: allocate, and roll back on failure. */
    method OpenDev(dev: Node?<DevInfo>, isafs: bool, flags: Flags, cb: Hook) returns (r: int)
      requires Inv(w, View())
      modifies this`maxFd, this`errno, fds
      ensures (View(), r) == OpenCall(old(View()), ToTarget(dev, isafs), flags, cb)
    {
      var index, status := -1, -ENODEV;
      ghost var t := View();
      if dev != null {
        index, status := Allocate(dev, isafs, flags, cb);
      }
      if status < 0 {
        ReleaseFd(index);
        errno := -status;
        assert fds[..] == OpenCall(t, ToTarget(dev, isafs), flags, cb).0.fds;
        return -1;
      }
      assert fds[..] == OpenCall(t, ToTarget(dev, isafs), flags, cb).0.fds;
      return index;
    }

    /** ALT_OPEN. */
    method OpenFile(file: string, flags: Flags, cb: Hook, devices: Ring<DevInfo>, mounts: Ring<DevInfo>,
                    ghost reg: Registry)
      returns (ghost target: Target, r: int)
      requires Valid() && CString(file) && Registered(reg, w, devices, mounts)
      modifies this`maxFd, this`errno, fds
      ensures Valid() && reg.Resolves(file, target) && Fits(w, target)
      ensures (View(), r) == OpenCall(old(View()), target, flags, cb)
      ensures r >= 0 ==> IsLowestFree(old(View()), r) && r < fds.Length && Carries(fds[r], target, flags)
      ensures r < 0 <==> target.Nothing? || Full(old(View())) || (target.Device? && Locked(old(View()), target.dev))
                         || (cb.Returns? && cb.rc < 0)
    {
      var dev, isafs := Find(file, devices, mounts, reg, w);
      target := ToTarget(dev, isafs);
      OpenKeeps(w, View(), target, flags, cb);
      OpenTakesLowest(View(), target, flags, cb);
      OpenFailsExactly(View(), target, flags, cb);
      r := OpenDev(dev, isafs, flags, cb);
    }

    /** ALT_CLOSE. */
    method Close(file: int, cb: Hook) returns (r: int)
      requires Valid() && (file < 0 || Open?(View(), file))
      modifies this`errno, fds
      ensures Valid() && (View(), r) == CloseCall(old(View()), file, cb)
    {
      if file >= 0 {
        ReleaseKeeps(w, View(), file);
        var rval := if cb.Returns? then cb.rc else 0;
        ReleaseFd(file);
        if rval < 0 {
          errno := -rval;
          return -1;
        }
        return 0;
      } else {
        errno := EBADFD;
        return -1;
      }
    }

    /** alt_fd_lock. */
    method FdLock(fd: int) returns (rc: int)
      requires 0 <= fd < fds.Length && -1 <= maxFd < fds.Length
      modifies fds
      ensures rc == if Grantable(old(View()), fd) then 0 else -EACCES
      ensures View() == if rc == 0 then SetFlags(old(View()), fd, old(fds[fd]).flags.(excl := true)) else old(View())
    {
      var i := 0;
      while i < maxFd
        invariant 0 <= i <= Max(0, maxFd)
        invariant forall j :: 0 <= j < i && j != fd ==> fds[j].dev != fds[fd].dev
      {
        if i != fd && fds[i].dev == fds[fd].dev {
          assert View().fds[i].dev == View().fds[fd].dev;
          return -EACCES;
        }
        i := i + 1;
      }
      fds[fd] := fds[fd].(flags := fds[fd].flags.(excl := true));
      return 0;
    }

    /** alt_fd_unlock. */
    method FdUnlock(fd: int) returns (rc: int)
      requires 0 <= fd < fds.Length
      modifies fds
      ensures rc == 0 && View() == SetFlags(old(View()), fd, old(fds[fd]).flags.(excl := false))
    {
      fds[fd] := fds[fd].(flags := fds[fd].flags.(excl := false));
      return 0;
    }

    /** ALT_IOCTL. */
    method Ioctl(file: int, req: Request, cb: Hook) returns (rc: int)
      requires Valid() && (file < 0 || Open?(View(), file))
      modifies this`errno, fds
      ensures Valid() && (View(), rc) == IoctlCall(old(View()), file, req, cb)
    {
      if file < fds.Length { IoctlKeeps(w, View(), file, req, cb); }
      if file >= 0 {
        if fds[file].flags.device && req.TiocExcl? {
          rc := FdLock(file);
        } else if fds[file].flags.device && req.TiocNxcl? {
          rc := FdUnlock(file);
        } else if cb.Returns? {
          rc := cb.rc;
        } else {
          rc := -ENOTTY;
        }
      } else {
        rc := -EBADFD;
      }
      if rc < 0 {
        errno := -rc;
      }
    }

    /** ALT_FCNTL. */
    method Fcntl(file: int, cmd: Command) returns (r: FcntlResult)
      requires Valid() && file < fds.Length
      modifies this`errno, fds
      ensures Valid() && (View(), r) == FcntlCall(old(View()), file, cmd)
    {
      FcntlKeeps(w, View(), file, cmd);
      if file >= 0 {
        match cmd {
          case GetFl =>
            return Current(Unmarked(fds[file].flags));
          case SetFl(arg) =>
            fds[file] := fds[file].(flags := Adjusted(fds[file].flags, arg));
            return Code(0);
          case OtherCommand =>
            errno := EINVAL;
            return Code(-1);
        }
      }
      errno := EBADFD;
      return Code(-1);
    }

    /** alt_open_fd. */
    method OpenFd(slot: int, name: string, flags: Flags, cb: Hook, devices: Ring<DevInfo>, mounts: Ring<DevInfo>,
                  ghost reg: Registry)
      returns (ghost target: Target)
      requires Valid() && CString(name) && 0 <= slot <= 2 && Registered(reg, w, devices, mounts)
      modifies this`maxFd, this`errno, fds
      ensures Valid() && reg.Resolves(name, target) && Fits(w, target)
      ensures View() == Redirect1(old(View()), slot, target, flags, cb)
    {
      ghost var t := View();
      var index;
      target, index := OpenFile(name, flags, cb, devices, mounts, reg);
      OpenKeeps(w, t, target, flags, cb);
      Redirect1Keeps(w, t, slot, target, flags, cb);
      if index >= 0 {
        fds[slot] := fds[index];
        ReleaseFd(index);
      }
    }

    /** alt_io_redirect, up to the stream buffers of the C library. */
    method IoRedirect(stdout: string, stdin: string, stderr: string, cb1: Hook, cb0: Hook, cb2: Hook,
                      devices: Ring<DevInfo>, mounts: Ring<DevInfo>, ghost reg: Registry)
      returns (ghost t1: Target, ghost t0: Target, ghost t2: Target)
      requires Valid() && CString(stdout) && CString(stdin) && CString(stderr)
      requires Registered(reg, w, devices, mounts)
      modifies this`maxFd, this`errno, fds
      ensures Valid()
      ensures reg.Resolves(stdout, t1) && reg.Resolves(stdin, t0) && reg.Resolves(stderr, t2)
      ensures View() == RedirectCall(old(View()), Channel(t1, cb1), Channel(t0, cb0), Channel(t2, cb2))
    {
      t1 := OpenFd(1, stdout, O_WRONLY, cb1, devices, mounts, reg);
      t0, t2 := RedirectInputAndErrors(stdin, stderr, cb0, cb2, devices, mounts, reg);
    }

    /** The last two channels. */
    method RedirectInputAndErrors(stdin: string, stderr: string, cb0: Hook, cb2: Hook,
                                  devices: Ring<DevInfo>, mounts: Ring<DevInfo>, ghost reg: Registry)
      returns (ghost t0: Target, ghost t2: Target)
      requires Valid() && CString(stdin) && CString(stderr) && Registered(reg, w, devices, mounts)
      modifies this`maxFd, this`errno, fds
      ensures Valid() && reg.Resolves(stdin, t0) && reg.Resolves(stderr, t2)
      ensures View() == Redirect1(Redirect1(old(View()), 0, t0, O_RDONLY, cb0), 2, t2, O_WRONLY, cb2)
    {
      t0 := OpenFd(0, stdin, O_RDONLY, cb0, devices, mounts, reg);
      t2 := OpenFd(2, stderr, O_WRONLY, cb2, devices, mounts, reg);
    }
  }

  ghost function ToTarget(dev: Node?<DevInfo>, isafs: bool): Target {
    if dev == null then Nothing else if isafs then Mount(dev) else Device(dev)
  }

  lemma Occupied(w: World, t: Table, i: int)
    requires Inv(w, t) && 0 <= i < |t.fds| && t.fds[i].dev == null
    ensures i >= 3
    ensures forall j :: 0 <= j < |t.fds| && t.fds[j].dev != null ==> j <= Max(t.maxFd, i)
  {
    assert SlotOk(w, t.fds[i], i, t.maxFd);
    forall j | 0 <= j < |t.fds| && t.fds[j].dev != null
      ensures j <= Max(t.maxFd, i)
    {
      assert SlotOk(w, t.fds[j], j, t.maxFd);
    }
  }

  /** Some other descriptor holds the device of slot i. */
  ghost predicate Rival(t: Table, i: int)
    requires 0 <= i < |t.fds|
  {
    exists j :: 0 <= j < |t.fds| && j != i && t.fds[j].dev == t.fds[i].dev && t.fds[j].flags.excl
  }

  lemma RivalIsLock(t: Table, u: Table, i: int)
    requires 0 <= i < |t.fds| == |u.fds| && t.fds[i].dev == null != u.fds[i].dev
    requires forall j :: 0 <= j < |t.fds| && j != i ==> u.fds[j] == t.fds[j]
    ensures Rival(u, i) <==> Locked(t, u.fds[i].dev)
  {
  }

  lemma LockedElsewhere(t: Table, u: Table, i: int)
    requires 0 <= i < |t.fds| == |u.fds| && t.fds[i].dev == u.fds[i].dev != null && !u.fds[i].flags.excl
    requires forall j :: 0 <= j < |t.fds| && j != i ==> u.fds[j] == t.fds[j]
    ensures Locked(u, t.fds[i].dev) <==> Rival(t, i)
  {
  }
}
