# Verified model of the Nios V runtime and its companions

This project models the run-time support library of the Nios V board package
(`axc3000/NIOSV_lab/software/bsp/HAL`) and three pieces of code around it: the number
printers of the camera firmware, the host script that reads the firmware's report, and the
post-processing of streamed inference output. `dafny verify dfyconfig.toml` checks it all.

Code that changes state step by step is written as methods over classes and arrays, each
proved against a specification on plain values; the promises of the system are lemmas about
those values, for every input or every run.

- **Alarms** (`LList`, `AlarmSpec`, `AlarmTiming`, `AlarmCalls`, `AlarmClock`). The intrusive
  ring of `sys/alt_llist.h` on the heap, and `alt_tick` walking it while callbacks start and stop
  alarms. What a callback does and returns is an arbitrary function of the alarm and the
  tick. The main results are the invariant over all runs (`RunSettled`), the exact times of
  the callbacks of one alarm (`StartedAlarmIsOnTime`), and the silence of a stopped one
  (`StoppedAlarmIsSilent`), each also for starts and stops made inside callbacks.
- **Descriptors** (`Lookup`, `FdFlags`, `FdSpec`, `FdSafety`, `FdConservation`, `FdAnswers`,
  `FdTable`). open, close, ioctl, fcntl and redirection over the pool. A driver function is
  absent or returns an arbitrary code; devices and filesystems are disjoint and registered before the
  first open. The main results are what an exclusive lock guarantees over all runs, what each
  call gives back, and what it answers.
- **Time of day** (`TimeOfDay`): the clock as an offset from the tick counter, and for which
  tick rates it is exact and monotone.
- **Text** (`Numerals`, `LogPrintf`, `LogFormat`, `LogLetters`, `Printers`, `AiReport`): the
  format machine of `alt_log_private_printf` against a grammar of formats, what each letter
  prints, four integer printers that agree, and the round trip from the firmware's report to the host's parser.
- **Storage** (`Sbrk`, `Gmon`): the bump allocator, the slabs above it, and the call graph
  built by prepending records. Memory is a map from word addresses, so that records survive
  writes to others because they do not overlap.
- **Loops** (`BusySleep`, `Interrupts`, `CacheFlush`, `StreamPost`): the calibrated delay in
  32-bit arithmetic, interrupt dispatch, cache-line coverage, and the chunk pipeline.

## Where the code differs from its description

- `alt_fd_lock` says that it grants a lock only to the sole descriptor of a device. It does
  not look at the slot at `alt_max_fd`. `FdSafety.GrantedMeansSole` gives the exact condition
  and `FdConservation.LockGrantedBesideRival` a run where the promise fails.
- A failed open restores the slot it tried only if that slot had no flags, and a redirection
  keeps the flags of the slots above 2 only under the same condition
  (`FdConservation.FailedOpenRestores`, `FdConservation.RedirectLeaksNothing`). Flags on a
  free slot come from `F_SETFL` on a descriptor that is not open, which fcntl does not refuse,
  and from nothing else (`FdConservation.StepClean`).
- While a device is locked its descriptors do not multiply, with one kind of exception:
  redirecting standard output away from a device that only it had locked, and the other two
  channels to it. `FdSafety.RedirectRaisesExactly` says exactly when, and
  `FdConservation.RedirectDropsLock` is a run from reset.
- Seconds and microseconds of the clock come from two separate quotients. They agree only for
  tick rates that divide a million (`TimeOfDay.ExactOnlyForDivisors`,
  `TimeOfDay.MonotoneExactly`).
- The comments of `alt_busy_sleep` say that 32-bit arithmetic cannot overflow there. There is
  one request for which it does (`BusySleep.OverflowSleepsNotAtAll`).
- The comment above `ALT_SBRK` says that the heap limit is not enforced; the code enforces
  it, and the model follows the code. The check is made on sums of 32 bits, which may wrap
  past it (`Sbrk.Corrupts`).
- The loop of `alt_dcache_flush` never ends for a region that ends in the last cache line of
  the address space, past the offset that its start has in its own line
  (`CacheFlush.LoopEndsExactly`).
- `alt_iic_isr_register` compares a signed copy of its line number, so a number of 2^31 or
  more is not refused (`Interrupts.Controller.Register`).

## Model

| member | source | states |
|---|---|---|
| LList.Ring.constructor | axc3000/NIOSV_lab/software/bsp/HAL/inc/sys/alt_llist.h:69-75 | a list head starts as an empty, well-formed ring |
| LList.Ring.Insert | axc3000/NIOSV_lab/software/bsp/HAL/inc/sys/alt_llist.h:90-98 | the entry becomes first, the ring stays closed in both directions, nothing else moves |
| LList.Ring.Unlink | axc3000/NIOSV_lab/software/bsp/HAL/inc/sys/alt_llist.h:105-117 | the neighbours are joined and the element points at itself; on an element off every list it changes nothing |
| LList.Ring.Remove | axc3000/NIOSV_lab/software/bsp/HAL/inc/sys/alt_llist.h:100-117 | exactly that element leaves a ring that stays well formed; removing it again is harmless |
| LList.Bridged | axc3000/NIOSV_lab/software/bsp/HAL/inc/sys/alt_llist.h:105-117 | links that bypass one element form a closed doubly linked ring of all the others |
| AlarmClock.Clock.SysclkInit | axc3000/NIOSV_lab/software/bsp/HAL/inc/sys/alt_alarm.h:88-104 | the rate can be set once; later calls fail and change nothing |
| AlarmClock.Clock.constructor | axc3000/NIOSV_lab/software/bsp/HAL/src/alt_tick.c:44-58 | the state at reset, which satisfies the invariant of all runs |
| AlarmClock.Clock.AlarmStart | axc3000/NIOSV_lab/software/bsp/HAL/src/alt_alarm_start.c:64-98 | error codes without a clock or an alarm, and then nothing changes; otherwise the alarm is first on the list with deadline now + nticks + 1, its callback and context |
| AlarmClock.Clock.Enlist | axc3000/NIOSV_lab/software/bsp/HAL/src/alt_alarm_start.c:84 | an alarm off the list comes to its front |
| AlarmClock.Clock.AlarmStop | axc3000/NIOSV_lab/software/bsp/HAL/src/alt_tick.c:66-73 | the alarm leaves the list and the walk whatever its deadline; the others keep order and fields |
| AlarmClock.Clock.Perform | axc3000/NIOSV_lab/software/bsp/HAL/src/alt_tick.c:107 | a callback may start and stop alarms while the ring is being walked |
| AlarmClock.Clock.CallBack | axc3000/NIOSV_lab/software/bsp/HAL/src/alt_tick.c:107 | the callback with its effects, recorded with the fields the alarm had when it was called |
| AlarmClock.Clock.Rearm | axc3000/NIOSV_lab/software/bsp/HAL/src/alt_tick.c:109-118 | result 0 retires the alarm; any other is added to the deadline just met |
| AlarmClock.Clock.Expire | axc3000/NIOSV_lab/software/bsp/HAL/src/alt_tick.c:105-119 | one callback, its effects on the list, then retirement or the next deadline |
| AlarmClock.Clock.Visit | axc3000/NIOSV_lab/software/bsp/HAL/src/alt_tick.c:102-120 | the callback runs exactly if the deadline is reached |
| AlarmClock.Clock.Tick | axc3000/NIOSV_lab/software/bsp/HAL/src/alt_tick.c:87-121 | the pointer walk over the changing ring gives each alarm registered at entry its one turn, terminates and keeps the ring well formed |
| AlarmClock.Clock.Successor | axc3000/NIOSV_lab/software/bsp/HAL/src/alt_tick.c:102 | the saved successor is the next alarm still to be visited, or the head |
| AlarmSpec.StopKeeps | axc3000/NIOSV_lab/software/bsp/HAL/src/alt_tick.c:66-73 | stopping any alarm keeps the ring, the part still to visit and all deadlines in order |
| AlarmSpec.CallKeeps | axc3000/NIOSV_lab/software/bsp/HAL/src/alt_alarm_start.c:78-85 | a start or stop from inside a callback keeps the walk invariant |
| AlarmSpec.CallsKeep | axc3000/NIOSV_lab/software/bsp/HAL/src/alt_tick.c:107 | so does any legal sequence of them |
| AlarmSpec.FirstStays | axc3000/NIOSV_lab/software/bsp/HAL/src/alt_tick.c:102 | nothing a legal callback does displaces the alarm whose turn is next |
| AlarmSpec.NextStays | axc3000/NIOSV_lab/software/bsp/HAL/src/alt_tick.c:102-120 | after a turn the alarm to visit is the one saved before it |
| AlarmSpec.Reached | axc3000/NIOSV_lab/software/bsp/HAL/src/alt_tick.c:100-120 | the alarm being visited is registered and is not visited again in this tick |
| AlarmSpec.TurnKeeps | axc3000/NIOSV_lab/software/bsp/HAL/src/alt_tick.c:100-121 | each turn keeps the invariant: no registered deadline has passed without its turn to come |
| AlarmSpec.TurnsKeep | axc3000/NIOSV_lab/software/bsp/HAL/src/alt_tick.c:100-121 | the walk visits everything and keeps the invariant |
| AlarmSpec.TickKeeps | axc3000/NIOSV_lab/software/bsp/HAL/src/alt_tick.c:87-121 | between ticks every registered deadline is strictly in the future, before and after a tick |
| AlarmTiming.NextSettled | axc3000/NIOSV_lab/software/bsp/HAL/src/alt_tick.c:87-121 | each start, stop or tick keeps that invariant |
| AlarmTiming.RunSettled | axc3000/NIOSV_lab/software/bsp/HAL/src/alt_tick.c:87-121 | over every run of clock settings, starts, stops and ticks, registered alarms have time > _alt_nticks between ticks |
| AlarmTiming.SilentCalls | axc3000/NIOSV_lab/software/bsp/HAL/src/alt_tick.c:107 | callbacks that do not name an alarm leave it as it was |
| AlarmTiming.OwnTurn | axc3000/NIOSV_lab/software/bsp/HAL/src/alt_tick.c:102-120 | an alarm in its turn makes one callback if due and is then out of this tick |
| AlarmTiming.OtherTurn | axc3000/NIOSV_lab/software/bsp/HAL/src/alt_tick.c:102-120 | the turns of other alarms do not change it |
| AlarmTiming.TurnsServe | axc3000/NIOSV_lab/software/bsp/HAL/src/alt_tick.c:100-121 | the rest of a tick serves each alarm exactly as often as it is owed |
| AlarmTiming.TurnServes | axc3000/NIOSV_lab/software/bsp/HAL/src/alt_tick.c:102-120 | the callback that a turn makes is the one the tick no longer owes |
| AlarmTiming.RunLog | axc3000/NIOSV_lab/software/bsp/HAL/src/alt_tick.c:107 | the history of callbacks only grows |
| AlarmTiming.TickServes | axc3000/NIOSV_lab/software/bsp/HAL/src/alt_tick.c:87-121 | a tick makes exactly one callback for an alarm that is registered and due, none otherwise; it stays registered exactly if it did not return 0 |
| AlarmTiming.TickOnTrack | axc3000/NIOSV_lab/software/bsp/HAL/src/alt_tick.c:87-121 | a tick extends the on-time history of an alarm |
| AlarmTiming.RunOnTrack | axc3000/NIOSV_lab/software/bsp/HAL/src/alt_tick.c:75-121 | any run that leaves the alarm alone keeps its history on time |
| AlarmTiming.StartedAlarmIsOnTime | axc3000/NIOSV_lab/software/bsp/HAL/src/alt_alarm_start.c:43-98 | if no callback made in the run starts or stops it, an alarm started at tick t with nticks n fires first at t + n + 1, then at the running sum of its results: no drift, no callback missed, registered until a result is 0 |
| AlarmTiming.AtMostOncePerTick | axc3000/NIOSV_lab/software/bsp/HAL/src/alt_tick.c:75-121 | such an alarm fires at most once per tick |
| AlarmCalls.StopStops | axc3000/NIOSV_lab/software/bsp/HAL/src/alt_tick.c:66-73 | stopping takes exactly that alarm out of the list and of the tick in progress; all other alarms keep order and fields |
| AlarmCalls.OffThroughCalls | axc3000/NIOSV_lab/software/bsp/HAL/src/alt_tick.c:107 | calls of a callback that do not start an alarm bring it back neither |
| AlarmCalls.OffAfterStop | axc3000/NIOSV_lab/software/bsp/HAL/src/alt_tick.c:107 | an alarm stopped among the calls of a callback, and not started later, is off the list after it |
| AlarmCalls.OffThroughTurns | axc3000/NIOSV_lab/software/bsp/HAL/src/alt_tick.c:100-121 | an alarm off the list makes no callback in the rest of the tick |
| AlarmCalls.OffThroughRun | axc3000/NIOSV_lab/software/bsp/HAL/src/alt_tick.c:87-121 | over any run in which nothing starts it, an alarm that is not registered makes no callback and stays off the list |
| AlarmCalls.StoppedAlarmIsSilent | axc3000/NIOSV_lab/software/bsp/HAL/src/alt_tick.c:60-73 | a stopped alarm makes no further callback over any run in which neither the program nor a callback starts it |
| AlarmCalls.StoppedInCallbackIsSilent | axc3000/NIOSV_lab/software/bsp/HAL/src/alt_tick.c:60-73 | the same for a stop inside a callback, from the rest of that tick on |
| AlarmCalls.StartStarts | axc3000/NIOSV_lab/software/bsp/HAL/src/alt_alarm_start.c:71-97 | a start, also inside a callback, puts the alarm in front with its deadline and fields, and not into the tick in progress |
| AlarmCalls.OnAfterStart | axc3000/NIOSV_lab/software/bsp/HAL/src/alt_alarm_start.c:71-87 | it stands if no later call names the alarm |
| AlarmCalls.StartedInCallbackIsOnTime | axc3000/NIOSV_lab/software/bsp/HAL/src/alt_alarm_start.c:43-98 | an alarm started inside a callback at tick t with nticks n fires first at t + n + 1 and from there on time |
| Lookup.SameName | axc3000/NIOSV_lab/software/bsp/HAL/src/alt_find_dev.c:70-78 | true exactly for equal names of at most 1000 characters |
| Lookup.OwnsPath | axc3000/NIOSV_lab/software/bsp/HAL/src/alt_find_file.c:66-80 | true exactly if the mount name without one trailing slash is a prefix of the path that ends at a slash or at the end |
| Lookup.OwnedExactly | axc3000/NIOSV_lab/software/bsp/HAL/src/alt_find_file.c:46-80 | a mount name below 1000 characters, with or without one trailing slash, owns the equal path and those that go on with a slash, and no path that goes on with another character |
| Lookup.FindDev | axc3000/NIOSV_lab/software/bsp/HAL/src/alt_find_dev.c:54-86 | the first device on the ring with that name, NULL if there is none or no ring |
| Lookup.FindFile | axc3000/NIOSV_lab/software/bsp/HAL/src/alt_find_file.c:54-88 | the first filesystem on the ring that owns the path, NULL if there is none |
| FdFlags.SetFlOnWord | axc3000/NIOSV_lab/software/bsp/HAL/src/alt_fcntl.c:86-92 | the two masked statements of F_SETFL on the 32-bit word are the update of the named bits; the lock bits stay |
| FdFlags.UnmarkOnWord | axc3000/NIOSV_lab/software/bsp/HAL/src/alt_open.c:139 | so is clearing the reserved bits |
| FdFlags.MarkOnWord | axc3000/NIOSV_lab/software/bsp/HAL/src/alt_open.c:72 | so is the device mark |
| FdFlags.LockOnWord | axc3000/NIOSV_lab/software/bsp/HAL/src/alt_fd_lock.c:69 | so is setting the lock bit |
| FdFlags.UnlockOnWord | axc3000/NIOSV_lab/software/bsp/HAL/src/alt_fd_unlock.c:54 | so is clearing it |
| FdFlags.AccessModes | axc3000/NIOSV_lab/software/bsp/HAL/src/alt_io_redirect.c:111-113 | the words of O_RDONLY and O_WRONLY |
| FdFlags.UpdateBits | axc3000/NIOSV_lab/software/bsp/HAL/src/alt_fcntl.c:89-90 | a masked update keeps the bits outside its mask and replaces those inside |
| FdFlags.MeaningExact | axc3000/NIOSV_lab/software/bsp/HAL/inc/priv/alt_file.h:120-133 | no two words stand for the same named bits |
| FdTable.Find | axc3000/NIOSV_lab/software/bsp/HAL/src/alt_open.c:113-124 | devices by name first, then filesystems by mount point |
| FdTable.DevicesFirst | axc3000/NIOSV_lab/software/bsp/HAL/src/alt_open.c:113-124 | a name that some device has refers to the first such device |
| FdTable.Pool.constructor | axc3000/NIOSV_lab/software/bsp/HAL/src/alt_dev.c:118-149 | three slots on the null device, the rest free, alt_max_fd -1 |
| FdTable.Pool.GetFd | axc3000/NIOSV_lab/software/bsp/HAL/src/alt_get_fd.c:54-101 | takes the lowest free slot and raises the high-water mark to it, or fails with EMFILE and changes nothing |
| FdTable.Pool.ReleaseFd | axc3000/NIOSV_lab/software/bsp/HAL/src/alt_release_fd.c:44-51 | frees a slot above 2 and its flags; slots 0 to 2 and negative indices are left alone |
| FdTable.Pool.FileLocked | axc3000/NIOSV_lab/software/bsp/HAL/src/alt_open.c:64-92 | marks the descriptor as a device; EACCES exactly if another descriptor holds the device |
| FdTable.Pool.Attach | axc3000/NIOSV_lab/software/bsp/HAL/src/alt_open.c:138-151 | access mode and other flags as asked for, no lock, the device mark exactly on devices; the lock guard for devices only, then the driver |
| FdTable.Pool.Allocate | axc3000/NIOSV_lab/software/bsp/HAL/src/alt_open.c:130-153 | the slot taken, the status, and the descriptor as guard and driver leave it |
| FdTable.Pool.OpenDev | axc3000/NIOSV_lab/software/bsp/HAL/src/alt_open.c:126-170 | the whole effect of open on the table, with roll-back on each failure |
| FdTable.Pool.OpenFile | axc3000/NIOSV_lab/software/bsp/HAL/src/alt_open.c:105-171 | open by name: on success the lowest free index, with the flags asked for bit by bit; failure exactly for an unknown name, a full pool, a locked device or a refusing driver |
| FdTable.Pool.Close | axc3000/NIOSV_lab/software/bsp/HAL/src/alt_close.c:64-101 | the slot is freed even if the driver reports an error, which sets errno |
| FdTable.Pool.FdLock | axc3000/NIOSV_lab/software/bsp/HAL/src/alt_fd_lock.c:54-75 | granted exactly if no other slot strictly below alt_max_fd is on the device |
| FdTable.Pool.FdUnlock | axc3000/NIOSV_lab/software/bsp/HAL/src/alt_fd_unlock.c:52-56 | clears the lock bit of this descriptor alone |
| FdTable.Pool.Ioctl | axc3000/NIOSV_lab/software/bsp/HAL/src/alt_ioctl.c:106-168 | lock requests on devices go to the lock, all else to the driver; errno on failure |
| FdTable.Pool.Fcntl | axc3000/NIOSV_lab/software/bsp/HAL/src/alt_fcntl.c:66-101 | reads hide the reserved bits; F_SETFL changes O_APPEND and O_NONBLOCK only |
| FdTable.Pool.OpenFd | axc3000/NIOSV_lab/software/bsp/HAL/src/alt_io_redirect.c:78-92 | open, copy into the standard slot, release |
| FdTable.Pool.IoRedirect | axc3000/NIOSV_lab/software/bsp/HAL/src/alt_io_redirect.c:105-113 | the three redirections in the order of the code |
| FdTable.Pool.RedirectInputAndErrors | axc3000/NIOSV_lab/software/bsp/HAL/src/alt_io_redirect.c:112-113 | its second and third channel |
| FdSafety.OpenKeeps | axc3000/NIOSV_lab/software/bsp/HAL/src/alt_open.c:126-170 | open keeps: slots in use lie at or below max(2, alt_max_fd), and lock bits sit on device descriptors only |
| FdSafety.ReleaseKeeps | axc3000/NIOSV_lab/software/bsp/HAL/src/alt_release_fd.c:44-51 | so does releasing a descriptor |
| FdSafety.IoctlKeeps | axc3000/NIOSV_lab/software/bsp/HAL/src/alt_ioctl.c:117-159 | so does ioctl |
| FdSafety.FcntlKeeps | axc3000/NIOSV_lab/software/bsp/HAL/src/alt_fcntl.c:78-97 | so does fcntl, which cannot forge a lock |
| FdSafety.Redirect1Keeps | axc3000/NIOSV_lab/software/bsp/HAL/src/alt_io_redirect.c:78-92 | so does a redirection |
| FdSafety.StepKeeps | axc3000/NIOSV_lab/software/bsp/HAL/src/alt_dev.c:111-149 | every call keeps the table invariant and the size of the pool |
| FdSafety.RunKeeps | axc3000/NIOSV_lab/software/bsp/HAL/src/alt_dev.c:111-149 | so does every sequence of calls |
| FdSafety.OpenRespectsLock | axc3000/NIOSV_lab/software/bsp/HAL/src/alt_open.c:74-92 | open changes no lock, and adds one descriptor exactly when it succeeds, never on a locked device |
| FdSafety.Redirect1RespectsLock | axc3000/NIOSV_lab/software/bsp/HAL/src/alt_io_redirect.c:78-92 | a redirection after which the device is locked found it locked and added no descriptor |
| FdSafety.StepEndsLocked | axc3000/NIOSV_lab/software/bsp/HAL/src/alt_open.c:64-92 | a call that ends with the device locked adds no descriptor to it |
| FdSafety.Redirect1Slots | axc3000/NIOSV_lab/software/bsp/HAL/src/alt_io_redirect.c:78-92 | one redirection, slot by slot |
| FdSafety.Redirect1Effect | axc3000/NIOSV_lab/software/bsp/HAL/src/alt_io_redirect.c:78-92 | what one redirection does to the locks and to the count of any device |
| FdSafety.LockedGainsNothing | axc3000/NIOSV_lab/software/bsp/HAL/src/alt_io_redirect.c:78-92 | one redirection adds nothing to a locked device |
| FdSafety.RedirectRaisesExactly | axc3000/NIOSV_lab/software/bsp/HAL/src/alt_io_redirect.c:105-113 | a redirection that begins with the device locked adds descriptors to it if and only if standard output alone held the lock and moves elsewhere, and both other channels then open the device |
| FdSafety.StepRespectsLock | axc3000/NIOSV_lab/software/bsp/HAL/src/alt_open.c:64-92 | a call that begins with the device locked adds descriptors to it if and only if it is such a redirection |
| FdSafety.ThroughoutIsHeld | axc3000/NIOSV_lab/software/bsp/HAL/src/alt_io_redirect.c:105-113 | a run that keeps the device locked to its end contains no such redirection |
| FdSafety.LockedDeviceGainsNoDescriptor | axc3000/NIOSV_lab/software/bsp/HAL/inc/priv/alt_file.h:120-124 | while every call finds a device locked, no sequence of open, close, ioctl, fcntl and redirect calls raises the number of its descriptors, such redirections excepted |
| FdSafety.GrantedMeansSole | axc3000/NIOSV_lab/software/bsp/HAL/src/alt_fd_lock.c:40-75 | if ioctl grants the lock, its holder is the sole descriptor of the device exactly if the slot at alt_max_fd is the holder or is on another device; a sole descriptor is always granted it |
| FdSafety.SoleHolderStaysSole | axc3000/NIOSV_lab/software/bsp/HAL/src/alt_fd_lock.c:40-75 | a sole descriptor of a locked device: at the end of any run that keeps the device locked, one descriptor is on it and holds the lock |
| FdConservation.OpenTakesLowest | axc3000/NIOSV_lab/software/bsp/HAL/src/alt_get_fd.c:66-89 | a successful open takes the lowest free index, with the flags asked for and the word its driver stores, raises the high-water mark to it and changes no other slot |
| FdConservation.OpenFailsExactly | axc3000/NIOSV_lab/software/bsp/HAL/src/alt_open.c:159-166 | open fails exactly for an unknown name, a full pool, a locked device or a refusing driver |
| FdConservation.FailedOpenRestores | axc3000/NIOSV_lab/software/bsp/HAL/src/alt_open.c:159-166 | a failed open restores devices and flags exactly if the slot tried had no stale flags |
| FdConservation.FailedOpenClearsStaleFlags | axc3000/NIOSV_lab/software/bsp/HAL/src/alt_release_fd.c:44-51 | from reset: F_SETFL on a free slot, then a refused open, which does not restore the pool |
| FdConservation.OpenThenClose | axc3000/NIOSV_lab/software/bsp/HAL/src/alt_close.c:86-94 | open then close restores the pool under the same condition |
| FdConservation.StepClean | axc3000/NIOSV_lab/software/bsp/HAL/src/alt_release_fd.c:46-50 | from a pool whose free slots carry no flags, a call leaves such a pool exactly unless it is F_SETFL on a free slot |
| FdConservation.RunClean | axc3000/NIOSV_lab/software/bsp/HAL/src/alt_release_fd.c:46-50 | so if fcntl is called on open descriptors, free slots never carry flags |
| FdConservation.Redirect1Frame | axc3000/NIOSV_lab/software/bsp/HAL/src/alt_io_redirect.c:78-92 | from any table one redirection changes its standard slot and cleans the free slot it tries, no other |
| FdConservation.RedirectFrame | axc3000/NIOSV_lab/software/bsp/HAL/src/alt_io_redirect.c:94-113 | so do all three together |
| FdConservation.RedirectLeaksNothing | axc3000/NIOSV_lab/software/bsp/HAL/src/alt_io_redirect.c:94-113 | from any table: each standard slot is unchanged or carries its named device with the flags of a fresh open; slots above 2 keep their devices, and their flags if and only if no slot is tried or the slot tried has no stale flags |
| FdConservation.RedirectFromClean | axc3000/NIOSV_lab/software/bsp/HAL/src/alt_io_redirect.c:94-113 | so from a pool without stale flags slots above 2 keep device and flags |
| FdConservation.InitialOk | axc3000/NIOSV_lab/software/bsp/HAL/src/alt_dev.c:118-149 | the pool at reset satisfies both invariants |
| FdConservation.LockGrantedBesideRival | axc3000/NIOSV_lab/software/bsp/HAL/src/alt_fd_lock.c:61-68 | after two opens of one device at reset, the first descriptor is granted the lock beside the second |
| FdConservation.RedirectDropsLock | axc3000/NIOSV_lab/software/bsp/HAL/src/alt_io_redirect.c:84-91 | from reset: standard output goes to a device and locks it; a redirection of all channels then raises its count from one to two |
| FdAnswers.LockAnswer | axc3000/NIOSV_lab/software/bsp/HAL/src/alt_fd_lock.c:54-75 | TIOCEXCL on a device answers 0 if and only if no other slot strictly below alt_max_fd is on it; then only the lock bit changes, else nothing but errno, which is EACCES |
| FdAnswers.UnlockAnswer | axc3000/NIOSV_lab/software/bsp/HAL/src/alt_ioctl.c:134-138 | TIOCNXCL on a device answers 0 and clears that bit alone |
| FdAnswers.DriverAnswer | axc3000/NIOSV_lab/software/bsp/HAL/src/alt_ioctl.c:141-167 | any other ioctl returns what the driver does, ENOTTY without one, EBADFD for a negative descriptor |
| FdAnswers.LockRefused | axc3000/NIOSV_lab/software/bsp/HAL/src/alt_fd_lock.c:61-68 | after three opens of one device at reset the first descriptor is refused the lock |
| FdAnswers.CloseAnswer | axc3000/NIOSV_lab/software/bsp/HAL/src/alt_close.c:77-95 | close frees the slot above 2 even if the driver reports an error, which it returns through errno |
| FdAnswers.GetFlagsAnswer | axc3000/NIOSV_lab/software/bsp/HAL/src/alt_fcntl.c:84-85 | F_GETFL hides the two reserved bits, shows all others and changes nothing |
| FdAnswers.SetFlagsAnswer | axc3000/NIOSV_lab/software/bsp/HAL/src/alt_fcntl.c:86-92 | F_SETFL takes O_APPEND and O_NONBLOCK from its argument and keeps every other bit |
| FdAnswers.SetThenGetFlags | axc3000/NIOSV_lab/software/bsp/HAL/src/alt_fcntl.c:84-92 | F_GETFL after F_SETFL reports what was set, with the access mode of the open |
| FdAnswers.FcntlRefused | axc3000/NIOSV_lab/software/bsp/HAL/src/alt_fcntl.c:93-100 | the errors of fcntl |
| FdAnswers.OpenError | axc3000/NIOSV_lab/software/bsp/HAL/src/alt_open.c:126-166 | the error that a failed open reports, in the order of the checks |
| FdAnswers.OpenedWord | axc3000/NIOSV_lab/software/bsp/HAL/src/alt_open.c:72-139 | the 32-bit flag word of an opened descriptor |
| FdAnswers.OpenThenGetFlags | axc3000/NIOSV_lab/software/bsp/HAL/src/alt_open.c:139 | an opened descriptor reports the flags it was opened with |
| FdAnswers.RedirectSucceeds | axc3000/NIOSV_lab/software/bsp/HAL/src/alt_io_redirect.c:105-113 | channels whose device is not locked and whose driver is willing are all redirected, each slot to its own name and access mode |
| TimeOfDay.WallClock.Set | axc3000/NIOSV_lab/software/bsp/HAL/src/alt_settod.c:72-96 | the stored offset plus the elapsed time is the time set; without a clock it fails and stores nothing |
| TimeOfDay.WallClock.Get | axc3000/NIOSV_lab/software/bsp/HAL/src/alt_gettod.c:71-124 | both normalising loops together: the normalised sum of offset and elapsed time, or 0 when it would be negative |
| TimeOfDay.ReadingMeans | axc3000/NIOSV_lab/software/bsp/HAL/src/alt_gettod.c:95-112 | the loops change nothing but the form of the time; a negative one that would have to be borrowed from reads as 0 |
| TimeOfDay.SetThenGet | axc3000/NIOSV_lab/software/bsp/HAL/src/alt_gettod.c:91-112 | for a rate that divides a million: set at tick n, get at tick m returns t plus exactly (m - n) ticks, normalised |
| TimeOfDay.SetThenGetAtOnce | axc3000/NIOSV_lab/software/bsp/HAL/src/alt_gettod.c:91-112 | at the tick of the call the reading is the time set, at any rate |
| TimeOfDay.ElapsedExact | axc3000/NIOSV_lab/software/bsp/HAL/src/alt_gettod.c:91-93 | for a rate that divides a million the two quotients describe the same instant |
| TimeOfDay.ExactOnlyForDivisors | axc3000/NIOSV_lab/software/bsp/HAL/src/alt_gettod.c:91-93 | after every number of ticks the elapsed time is the true one, ticks divided by rate, if and only if the rate divides a million |
| TimeOfDay.AfterOneSecond | axc3000/NIOSV_lab/software/bsp/HAL/src/alt_gettod.c:91-93 | at any other rate below a million the clock is fast after one second |
| TimeOfDay.StepsBack | axc3000/NIOSV_lab/software/bsp/HAL/src/alt_gettod.c:91-93 | at any other rate below a million some tick makes the time smaller |
| TimeOfDay.MonotoneExactly | axc3000/NIOSV_lab/software/bsp/HAL/src/alt_gettod.c:91-93 | the time never runs backwards if and only if the rate divides a million or exceeds it |
| Numerals.DigitsValue | axc3000/NIOSV_lab/software/bsp/HAL/src/alt_log_printf.c:281-296 | the shortest numeral of a number denotes it, in any base |
| Numerals.Fewest | axc3000/NIOSV_lab/software/bsp/HAL/src/alt_log_printf.c:247-255 | no numeral of the number has fewer digits |
| Numerals.Unique | axc3000/NIOSV_lab/software/bsp/HAL/src/alt_printf.c:98-112 | it is the only numeral of the number without a leading zero |
| LogPrintf.RepChar | axc3000/NIOSV_lab/software/bsp/HAL/src/alt_log_printf.c:106-110 | count copies of the character, none for a negative count |
| LogPrintf.Lead | axc3000/NIOSV_lab/software/bsp/HAL/src/alt_log_printf.c:257-279 | sign and padding in either order |
| LogPrintf.Negate | axc3000/NIOSV_lab/software/bsp/HAL/src/alt_log_printf.c:241-245 | the two-complement negation on 32 bits, 0x80000000 included |
| LogPrintf.CountDigits | axc3000/NIOSV_lab/software/bsp/HAL/src/alt_log_printf.c:247-255 | the number of digits and the leading place value, which stays a 32-bit value |
| LogPrintf.PlaceFits | axc3000/NIOSV_lab/software/bsp/HAL/src/alt_log_printf.c:254 | the place value never exceeds the number, so p cannot overflow |
| LogPrintf.PrintDigits | axc3000/NIOSV_lab/software/bsp/HAL/src/alt_log_printf.c:281-296 | the loop over place values prints the shortest numeral |
| LogPrintf.PrintingStep | axc3000/NIOSV_lab/software/bsp/HAL/src/alt_log_printf.c:282-296 | the digits printed and the rest of the value always make the value |
| LogPrintf.IntegerPrint | axc3000/NIOSV_lab/software/bsp/HAL/src/alt_log_printf.c:206-297 | sign, padding and digits of an integer conversion |
| LogPrintf.RenderReadsBack | axc3000/NIOSV_lab/software/bsp/HAL/src/alt_log_printf.c:206-297 | for every 32-bit value, base, sign and width the text parses back to the number, 0x80000000 under %d included |
| LogPrintf.RenderWidth | axc3000/NIOSV_lab/software/bsp/HAL/src/alt_log_printf.c:257-279 | its length is the larger of the width and the digits plus sign, and no numeral of the number is shorter |
| LogFormat.SpecChar | axc3000/NIOSV_lab/software/bsp/HAL/src/alt_log_printf.c:172-199 | digits before the point build the width in decimal; point, later digits and l do not change it |
| LogFormat.MoreSpec | axc3000/NIOSV_lab/software/bsp/HAL/src/alt_log_printf.c:170-199 | the machine keeps reading the conversion it has begun |
| LogFormat.Letter | axc3000/NIOSV_lab/software/bsp/HAL/src/alt_log_printf.c:200-337 | the letter prints its argument, or nothing if unknown, and ends the conversion |
| LogFormat.Convert | axc3000/NIOSV_lab/software/bsp/HAL/src/alt_log_printf.c:202-335 | a conversion consumes its argument exactly if the letter takes one |
| LogFormat.PrintArg | axc3000/NIOSV_lab/software/bsp/HAL/src/alt_log_printf.c:204-334 | what each letter prints |
| LogFormat.OneChar | axc3000/NIOSV_lab/software/bsp/HAL/src/alt_log_printf.c:130-340 | one step of the machine: printed text plus what the rest will print is unchanged |
| LogFormat.Printf | axc3000/NIOSV_lab/software/bsp/HAL/src/alt_log_printf.c:114-341 | the machine prints what the grammar of formats prescribes, for every format and suitable arguments |
| LogFormat.BrokenOff | axc3000/NIOSV_lab/software/bsp/HAL/src/alt_log_printf.c:130-131 | a conversion that the format breaks off prints nothing |
| LogFormat.WidthOfNumeral | axc3000/NIOSV_lab/software/bsp/HAL/src/alt_log_printf.c:176-190 | a width written in decimal is read as that width |
| LogFormat.FormatRoundTrip | axc3000/NIOSV_lab/software/bsp/HAL/src/alt_log_printf.c:132-199 | a written conversion parses to exactly that conversion |
| LogFormat.PrintfOne | axc3000/NIOSV_lab/software/bsp/HAL/src/alt_log_printf.c:114-341 | so such a format prints its argument in the width and base it names |
| LogLetters.WrittenParses | axc3000/NIOSV_lab/software/bsp/HAL/src/alt_log_printf.c:132-199 | a conversion as written, with or without zero flag and width |
| LogLetters.LetterPrints | axc3000/NIOSV_lab/software/bsp/HAL/src/alt_log_printf.c:202-317 | for every integer letter, value, flag and width the printed text is: a minus sign exactly for a negative number of d or i, the shortest digits in the base and case of the letter, and blanks in front or zeros after the sign |
| LogLetters.LetterReadsBack | axc3000/NIOSV_lab/software/bsp/HAL/src/alt_log_printf.c:202-317 | %d and %i read back in base 10 as the signed value, %u, %o, %x and %X as the value in bases 10, 8, 16 and 16 |
| LogLetters.CharPrints | axc3000/NIOSV_lab/software/bsp/HAL/src/alt_log_printf.c:319-322 | %c prints its character after blanks |
| LogLetters.StringPrints | axc3000/NIOSV_lab/software/bsp/HAL/src/alt_log_printf.c:324-334 | %s prints its text after blanks |
| LogLetters.PlainPrints | axc3000/NIOSV_lab/software/bsp/HAL/src/alt_log_printf.c:134-150 | text without a percent sign prints as it stands |
| LogLetters.PercentPrints | axc3000/NIOSV_lab/software/bsp/HAL/src/alt_log_printf.c:158-162 | two percent signs print one |
| LogLetters.ConversionFirst | axc3000/NIOSV_lab/software/bsp/HAL/src/alt_log_printf.c:130-340 | what a format prints is what its conversions print one after the other, each from its own argument |
| LogLetters.UnknownPrintsNothing | axc3000/NIOSV_lab/software/bsp/HAL/src/alt_log_printf.c:202-336 | any other letter prints nothing and takes no argument |
| LogLetters.ModifiersIgnored | axc3000/NIOSV_lab/software/bsp/HAL/src/alt_log_printf.c:172-199 | a precision and the modifier l change nothing |
| LogLetters.BrokenOffPrintsNothing | axc3000/NIOSV_lab/software/bsp/HAL/src/alt_log_printf.c:130-131 | a format that ends inside a conversion prints nothing for it |
| LogLetters.MinusOne | axc3000/NIOSV_lab/software/bsp/HAL/src/alt_log_printf.c:239-245 | for instance %d of 0xFFFFFFFF prints -1 |
| Printers.LeadingNibble | axc3000/NIOSV_lab/software/bsp/HAL/src/alt_printf.c:98-101 | the search stops in range, at the leading non-zero digit |
| Printers.HexDigits | axc3000/NIOSV_lab/software/bsp/HAL/src/alt_printf.c:91-112 | the %x loops print the shortest hexadecimal numeral |
| Printers.AltPrintHex | axc3000/NIOSV_lab/software/bsp/HAL/src/alt_printf.c:84-113 | alt_printf %x prints what alt_log prints for %x |
| Printers.TenDigits | axc3000/OneWare_AI_lab/software/OneWare_app/niosv_mira220.c:1442 | a 32-bit value has at most ten decimal digits |
| Printers.DecimalDigits | axc3000/OneWare_AI_lab/software/OneWare_app/niosv_mira220.c:1440-1461 | the buffer loop prints the shortest decimal numeral, with at most 10 of 11 entries used |
| Printers.FromBuffer | axc3000/OneWare_AI_lab/software/OneWare_app/niosv_mira220.c:1457-1460 | the buffer comes out in reverse |
| Printers.Dword2Decimal | axc3000/OneWare_AI_lab/software/OneWare_app/niosv_mira220.c:1440-1461 | dword2decimal prints what alt_log prints for %u |
| Printers.HexDigit | axc3000/MIPI_CSI2_lab/software/mipi_app/niosv_mipi_mira220.c:1260-1282 | HEX2ASCII is the upper-case digit of every nibble |
| Printers.PutNibble | axc3000/MIPI_CSI2_lab/software/mipi_app/niosv_mipi_mira220.c:1339-1346 | each line appends the next hexadecimal digit |
| Printers.PaddedHex | axc3000/MIPI_CSI2_lab/software/mipi_app/niosv_mipi_mira220.c:1337-1348 | eight digits are the shortest numeral padded with zeros |
| Printers.LongWord2Ascii | axc3000/MIPI_CSI2_lab/software/mipi_app/niosv_mipi_mira220.c:1337-1348 | long_word2ascii prints what alt_log prints for %08X |
| Printers.LogHex | axc3000/NIOSV_lab/software/bsp/HAL/src/alt_log_printf.c:309-312 | what alt_log prints for %x |
| Printers.LogDecimal | axc3000/NIOSV_lab/software/bsp/HAL/src/alt_log_printf.c:302-304 | what alt_log prints for %u |
| Printers.LogPadded | axc3000/NIOSV_lab/software/bsp/HAL/src/alt_log_printf.c:313-317 | what alt_log prints for %08X |
| AiReport.DisplayAiStatus | axc3000/OneWare_AI_lab/software/OneWare_app/niosv_mira220.c:1502-1549 | in the printed text a reader finds after each of the seven titles the value of its register: bit 0, whole words, and the low and high halves in that order; and after each label its output |
| AiReport.ReportHeaderReads | axc3000/OneWare_AI_lab/software/OneWare_app/niosv_mira220.c:1514-1528 | the header values in the text of the report |
| AiReport.ReadsSizes | axc3000/OneWare_AI_lab/software/OneWare_app/niosv_mira220.c:1521-1524 | the width is the low half of its register, the height the high half |
| AiReport.ReadsObjects | axc3000/OneWare_AI_lab/software/OneWare_app/niosv_mira220.c:1525-1528 | so are objects and classes |
| AiReport.PutHeader | axc3000/OneWare_AI_lab/software/OneWare_app/niosv_mira220.c:1514-1528 | the title and the seven header fields |
| AiReport.PutLines | axc3000/OneWare_AI_lab/software/OneWare_app/niosv_mira220.c:1537-1548 | the ten data lines and the closing rule |
| AiReport.ReSearch | axc3000/OneWare_AI_lab/scripts/visualize_vfb.py:565-566 | the leftmost match of the pattern and its group |
| AiReport.SearchMeans | axc3000/OneWare_AI_lab/scripts/visualize_vfb.py:566 | the match found is the leftmost, and none is overlooked |
| AiReport.ParseResponse | axc3000/OneWare_AI_lab/scripts/visualize_vfb.py:552-588 | each value is the group of the first match of its label, 0 without one |
| AiReport.SkipHeader | axc3000/OneWare_AI_lab/software/OneWare_app/niosv_mira220.c:1514-1528 | whatever the header values, no label occurs before the data block |
| AiReport.SkipHeading | axc3000/OneWare_AI_lab/software/OneWare_app/niosv_mira220.c:1531 | nor in its heading |
| AiReport.HeadingIsNoLabel | axc3000/OneWare_AI_lab/software/OneWare_app/niosv_mira220.c:1531 | the word Data in the heading starts no label |
| AiReport.SkipLine | axc3000/OneWare_AI_lab/software/OneWare_app/niosv_mira220.c:1541-1545 | a data line holds no label but its own |
| AiReport.FindLine | axc3000/OneWare_AI_lab/software/OneWare_app/niosv_mira220.c:1541-1545 | the search finds the value on its own line |
| AiReport.SearchLines | axc3000/OneWare_AI_lab/software/OneWare_app/niosv_mira220.c:1538-1546 | the search finds each of the ten values among the lines |
| AiReport.ReportReadsBack | axc3000/OneWare_AI_lab/scripts/visualize_vfb.py:564-569 | for all register values and all ten 32-bit outputs, searching the complete report finds exactly the output printed |
| AiReport.Exchange | axc3000/OneWare_AI_lab/scripts/visualize_vfb.py:552-588 | printing and parsing, end to end, is the identity on the outputs |
| Sbrk.Heap.Sbrk | axc3000/NIOSV_lab/software/bsp/HAL/src/alt_sbrk.c:69-137 | for every non-negative request, in 32-bit addresses: an aligned block at the end of the heap, or -1 beyond the limit; the heap stays sound if and only if the sums do not wrap past the limit check |
| Sbrk.Heap.constructor | axc3000/NIOSV_lab/software/bsp/HAL/src/alt_sbrk.c:61 | the heap begins at its start with nothing handed out |
| Sbrk.GrantedPastTheLimit | axc3000/NIOSV_lab/software/bsp/HAL/src/alt_sbrk.c:89 | for instance 64 kB are granted past a limit close to the end of the address space |
| Sbrk.HandedOutApart | axc3000/NIOSV_lab/software/bsp/HAL/src/alt_sbrk.c:69-137 | all blocks handed out are pairwise disjoint |
| Sbrk.LaidOneMore | axc3000/NIOSV_lab/software/bsp/HAL/src/alt_sbrk.c:95-96 | the next block keeps all of them aligned, within the limit and in order |
| Gmon.Profiler.constructor | axc3000/NIOSV_lab/software/bsp/HAL/src/alt_gmon.c:131-146 | no slab, and empty buckets |
| Gmon.Profiler.Allocate | axc3000/NIOSV_lab/software/bsp/HAL/src/alt_gmon.c:131-146 | a record never handed out before, from the current slab or a new one |
| Gmon.Profiler.Refill | axc3000/NIOSV_lab/software/bsp/HAL/src/alt_gmon.c:135-139 | a new slab from sbrk |
| Gmon.CarvedSeparate | axc3000/NIOSV_lab/software/bsp/HAL/src/alt_gmon.c:131-146 | no two records overlap |
| Gmon.CarveOne | axc3000/NIOSV_lab/software/bsp/HAL/src/alt_gmon.c:141-143 | the record taken lies inside its slab and after all earlier records |
| Gmon.NewSlab | axc3000/NIOSV_lab/software/bsp/HAL/src/alt_gmon.c:135-139 | a new slab keeps the earlier records in theirs |
| Gmon.RecordsApart | axc3000/NIOSV_lab/software/bsp/HAL/src/alt_gmon.c:131-146 | a record overlaps no other record and no other storage from sbrk, and lies within the heap |
| Gmon.WritesInside | axc3000/NIOSV_lab/software/bsp/HAL/src/alt_gmon.c:187-204 | writes to the words of one record leave every other record as it was, because none overlaps it |
| Gmon.WriteOutside | axc3000/NIOSV_lab/software/bsp/HAL/src/alt_gmon.c:187-204 | a write outside all records leaves them as they were |
| Gmon.ChainFrame | axc3000/NIOSV_lab/software/bsp/HAL/src/alt_gmon.c:187-204 | writes that keep next fields keep a chain |
| Gmon.ChainUnique | axc3000/NIOSV_lab/software/bsp/HAL/src/alt_gmon.c:187-204 | a head determines its chain |
| Gmon.ChainAcyclic | axc3000/NIOSV_lab/software/bsp/HAL/src/alt_gmon.c:187-204 | a chain that ends at NULL visits no record twice |
| Gmon.EntryAdded | axc3000/NIOSV_lab/software/bsp/HAL/src/alt_gmon.c:187-191 | prepending an entry adds one function to its bucket and keeps every other |
| Gmon.ArcAdded | axc3000/NIOSV_lab/software/bsp/HAL/src/alt_gmon.c:198-204 | prepending an arc adds one caller to its function and keeps every other |
| Gmon.Profiler.WriteEntry | axc3000/NIOSV_lab/software/bsp/HAL/src/alt_gmon.c:187-190 | the three words of a new entry |
| Gmon.Profiler.WriteArc | axc3000/NIOSV_lab/software/bsp/HAL/src/alt_gmon.c:198-202 | the three words of a new arc |
| Gmon.Profiler.WriteHead | axc3000/NIOSV_lab/software/bsp/HAL/src/alt_gmon.c:204 | the word that makes it the first arc of its entry |
| Gmon.Profiler.LinkEntry | axc3000/NIOSV_lab/software/bsp/HAL/src/alt_gmon.c:187-191 | the writes that add an entry |
| Gmon.Profiler.LinkArc | axc3000/NIOSV_lab/software/bsp/HAL/src/alt_gmon.c:198-204 | the writes that add an arc |
| Gmon.Profiler.AddEntry | axc3000/NIOSV_lab/software/bsp/HAL/src/alt_gmon.c:182-192 | allocate and link an entry |
| Gmon.Profiler.AddArc | axc3000/NIOSV_lab/software/bsp/HAL/src/alt_gmon.c:194-204 | allocate and link an arc |
| Gmon.Profiler.Record | axc3000/NIOSV_lab/software/bsp/HAL/src/alt_gmon.c:157-207 | the call graph gains exactly this call; every chain stays finite and nothing recorded is lost |
| Gmon.Profiler.OtherSbrk | axc3000/NIOSV_lab/software/bsp/HAL/src/alt_sbrk.c:69-137 | other users of sbrk do not disturb the call graph |
| Gmon.Profiler.OtherStore | axc3000/NIOSV_lab/software/bsp/HAL/src/alt_sbrk.c:69-137 | nor do their writes to the storage they were given |
| BusySleep.CountDown | axc3000/NIOSV_lab/software/bsp/HAL/src/alt_busy_sleep.c:114-123 | the nested countdown makes 2^32 iterations per outer pass |
| BusySleep.Spin | axc3000/NIOSV_lab/software/bsp/HAL/src/alt_busy_sleep.c:144-153 | the short countdown makes as many iterations as asked |
| BusySleep.Sleep | axc3000/NIOSV_lab/software/bsp/HAL/src/alt_busy_sleep.c:111-153 | the total of iterations, in 32-bit arithmetic |
| BusySleep.ShortProduct | axc3000/NIOSV_lab/software/bsp/HAL/src/alt_busy_sleep.c:137-142 | the product of the short branch never wraps |
| BusySleep.LongProduct | axc3000/NIOSV_lab/software/bsp/HAL/src/alt_busy_sleep.c:132-136 | the product of the long branch is at most 2^32, and reaches it for one delay only |
| BusySleep.BigError | axc3000/NIOSV_lab/software/bsp/HAL/src/alt_busy_sleep.c:111-129 | the nested loops overshoot by at most F - 1 clocks per pass |
| BusySleep.SmallError | axc3000/NIOSV_lab/software/bsp/HAL/src/alt_busy_sleep.c:131-143 | the short loop falls short by at most (C-1)*F clocks |
| BusySleep.OverflowSleepsNotAtAll | axc3000/NIOSV_lab/software/bsp/HAL/src/alt_busy_sleep.c:132-136 | a request of exactly US_PER_OUTER_LOOP with F dividing 2^32 makes no iteration at all |
| BusySleep.FortyMinutesAtOnce | axc3000/NIOSV_lab/software/bsp/HAL/src/alt_busy_sleep.c:132-136 | for instance with 16 clocks per microsecond and 9 per iteration |
| BusySleep.SleepBound | axc3000/NIOSV_lab/software/bsp/HAL/src/alt_busy_sleep.c:111-153 | -(C-1)*F <= C*iterations - F*us <= passes*(F-1) for every 32-bit us, exactly unless it is that request |
| Interrupts.Controller.Register | axc3000/NIOSV_lab/software/bsp/HAL/src/alt_iic_isr_register.c:65-91 | below 16 the handler table and the enable bit change together; from 16 on the line is refused with nothing changed; from 2^31 on the code writes before the table |
| Interrupts.Controller.FirstActive | axc3000/NIOSV_lab/software/bsp/HAL/src/alt_irq_handler.c:197-217 | the bit search stops in range, at the lowest pending line |
| Interrupts.Controller.ServeOne | axc3000/NIOSV_lab/software/bsp/HAL/src/alt_irq_handler.c:197-219 | one pass calls the non-null handler of the lowest pending line, once |
| Interrupts.Controller.Handle | axc3000/NIOSV_lab/software/bsp/HAL/src/alt_irq_handler.c:170-228 | each pass calls the non-null handler of the lowest pending line; returns only with nothing pending, for any finite arrivals |
| Interrupts.RaisedIsServed | axc3000/NIOSV_lab/software/bsp/HAL/src/alt_irq_handler.c:195-221 | every enabled line that is up is served |
| Interrupts.ArrivalIsServed | axc3000/NIOSV_lab/software/bsp/HAL/src/alt_irq_handler.c:181-193 | so is every enabled line that comes up during a handler |
| Interrupts.ServedStep | axc3000/NIOSV_lab/software/bsp/HAL/src/alt_irq_handler.c:195-221 | each step serves the lowest line that is up and enabled, and loads the lines anew |
| Interrupts.ServedInOrder | axc3000/NIOSV_lab/software/bsp/HAL/src/alt_irq_handler.c:195-221 | without arrivals each pending line is served once, in increasing order, and no other |
| CacheFlush.Flush | axc3000/NIOSV_lab/software/bsp/HAL/src/alt_dcache_flush.c:42-63 | in 32-bit addresses, when the loop ends: every line the region touches is flushed if and only if the end does not wrap or the region begins inside the last line; at most the last flushed line is untouched, for an unaligned start only |
| CacheFlush.LoopEndsExactly | axc3000/NIOSV_lab/software/bsp/HAL/src/alt_dcache_flush.c:46-51 | the loop ends if and only if the end wraps or is not above every address the pointer can take |
| CacheFlush.LastLineNeverEnds | axc3000/NIOSV_lab/software/bsp/HAL/src/alt_dcache_flush.c:46-51 | for instance sixteen bytes in the last line never end |
| CacheFlush.WrappedCoverage | axc3000/NIOSV_lab/software/bsp/HAL/src/alt_dcache_flush.c:46-61 | when the end wraps, at most the line of start is flushed |
| CacheFlush.Advance | axc3000/NIOSV_lab/software/bsp/HAL/src/alt_dcache_flush.c:48 | a step of a loop that ends does not wrap |
| CacheFlush.LoopSteps | axc3000/NIOSV_lab/software/bsp/HAL/src/alt_dcache_flush.c:46-51 | the addresses of the loop |
| CacheFlush.AllSteps | axc3000/NIOSV_lab/software/bsp/HAL/src/alt_dcache_flush.c:46-61 | with the extra step for an unaligned start |
| CacheFlush.Covers | axc3000/NIOSV_lab/software/bsp/HAL/src/alt_dcache_flush.c:46-61 | each touched line contains one of those addresses |
| CacheFlush.ExtraStep | axc3000/NIOSV_lab/software/bsp/HAL/src/alt_dcache_flush.c:53-61 | the extra line is touched or begins past the end |
| StreamPost.ReverseChunk | axc3000/FPGA_AI_Suite_lab/agx5-platform-mod-dev-kit/streaming_post_processing.py:24 | the slice reverses a chunk |
| StreamPost.FlipEndianness | axc3000/FPGA_AI_Suite_lab/agx5-platform-mod-dev-kit/streaming_post_processing.py:13-27 | every whole 16-byte chunk reversed, in order; the rest dropped |
| StreamPost.UnpackWords | axc3000/FPGA_AI_Suite_lab/agx5-platform-mod-dev-kit/streaming_post_processing.py:35-36 | the little-endian words of the data; an odd number of bytes is an error |
| StreamPost.DropFillers | axc3000/FPGA_AI_Suite_lab/agx5-platform-mod-dev-kit/streaming_post_processing.py:38-39 | the comprehension keeps exactly the specified words |
| StreamPost.PackWords | axc3000/FPGA_AI_Suite_lab/agx5-platform-mod-dev-kit/streaming_post_processing.py:41-43 | unpacking what is packed gives the words back |
| StreamPost.RemoveInvalid | axc3000/FPGA_AI_Suite_lab/agx5-platform-mod-dev-kit/streaming_post_processing.py:30-43 | the result unpacks to the words of the input without 0xFFFF, and fails exactly for an odd number of bytes |
| StreamPost.KeepCounts | axc3000/FPGA_AI_Suite_lab/agx5-platform-mod-dev-kit/streaming_post_processing.py:38-39 | no 0xFFFF is left and every other word occurs as often as before |
| StreamPost.KeepInOrder | axc3000/FPGA_AI_Suite_lab/agx5-platform-mod-dev-kit/streaming_post_processing.py:38-39 | in the order of the input |
| StreamPost.Process | axc3000/FPGA_AI_Suite_lab/agx5-platform-mod-dev-kit/streaming_post_processing.py:46-57 | never fails; the output packs, chunk by chunk, the words in reverse order, byte-swapped, without 0xFFFF, and as many as there were valid words |
| StreamPost.FlipTwice | axc3000/FPGA_AI_Suite_lab/agx5-platform-mod-dev-kit/streaming_post_processing.py:13-27 | flip is its own inverse on whole chunks |
| StreamPost.FlipAt | axc3000/FPGA_AI_Suite_lab/agx5-platform-mod-dev-kit/streaming_post_processing.py:22-25 | byte j of chunk c comes from byte 15 - j of that chunk |
| StreamPost.WordAt | axc3000/FPGA_AI_Suite_lab/agx5-platform-mod-dev-kit/streaming_post_processing.py:36 | a word is two bytes, the low one first |
| StreamPost.FlippedWordAt | axc3000/FPGA_AI_Suite_lab/agx5-platform-mod-dev-kit/streaming_post_processing.py:53-54 | word j of chunk c is made of bytes 15 - 2j and 14 - 2j of that chunk |
| StreamPost.FlipLength | axc3000/FPGA_AI_Suite_lab/agx5-platform-mod-dev-kit/streaming_post_processing.py:18-27 | only the last len mod 16 bytes are lost |
| StreamPost.WordsOfReverse | axc3000/FPGA_AI_Suite_lab/agx5-platform-mod-dev-kit/streaming_post_processing.py:24 | reversing bytes reverses the words and swaps the bytes of each |
| StreamPost.FlipThenKeep | axc3000/FPGA_AI_Suite_lab/agx5-platform-mod-dev-kit/streaming_post_processing.py:53-54 | flip then filter is the chunk-wise description |
| StreamPost.CountKept | axc3000/FPGA_AI_Suite_lab/agx5-platform-mod-dev-kit/streaming_post_processing.py:53-54 | the count of valid words in the whole chunks is conserved |

## Left out

- AlarmClock.Clock.Tick: a callback does not stop the alarm saved in `next`, start an alarm that is registered, or stop one never started; after those the walk of the code may not return to the head.
- AlarmTiming.StartedAlarmIsOnTime: says nothing of an alarm that a callback made in the run starts or stops; module `AlarmCalls` and the invariant `RunSettled` do.
- AlarmClock.Clock.AlarmStart: the 64-bit tick counter does not wrap.
- FdTable.Pool.Fcntl: the flag word is a record of named bits, and `FdFlags` proves each masked write of the word to be the update of the record. O_APPEND and O_NONBLOCK have newlib's values, whose header is not part of this model. Bit lists of interrupts are sets, and nibble and line masks are quotients and remainders.
- FdTable.Pool.Close: a descriptor beyond the pool, or not open, where the code follows a null or stray pointer; the same holds for ioctl.
- FdTable.Pool.IoRedirect: the stream buffers that the C library is told about afterwards.
- FdTable.Pool.FileLocked: its unsigned comparison with `alt_max_fd` when that is -1, which cannot happen after `alt_get_fd`.
- FdConservation.FailedOpenRestores: the high-water mark and the private word of the slot are not restored by the code, and are not claimed to be.
- TimeOfDay.WallClock.Get: unbounded integers in place of 64-bit ticks and of the C types of `tv_sec` and `tv_usec`.
- LogFormat.Printf: widths beyond the range of a C int, and arguments of the wrong number or kind.
- AiReport.ParseResponse: `\d` matches ASCII digits only; locking of the shared list and the exception path are not modelled.
- AiReport.ReportReadsBack: the complete text only; the serial thread may hand over a text that ends early.
- Sbrk.Heap.Sbrk: negative increments, and the variants with a fixed maximum or with stack checks.
- Gmon.Profiler.Record: needs room for its records; `mcount_allocate` does not look for a failed sbrk.
- Interrupts.Controller.Handle: entered with nothing pending, where the bit search has no end; handlers that change registrations; a handler is taken to clear its own line.
- Interrupts.Controller.Register: what the writes before the table destroy, for numbers of 2^31 and more.
- CacheFlush.Flush: has no result when the loop does not end; `LoopEndsExactly` says when that is.
- Start-up of the profiler's sampling, its histogram, its assembler entry and the operating-system hook of `alt_tick`: platform-bound.
- Semaphores and interrupt masking: every modelled call runs to its end undisturbed, apart from the callbacks and handlers above.
- The timer branches of `alt_busy_sleep`, the direct-driver variants, the stub system calls and stdio wrappers: no logic of their own.
- Other letters of `alt_printf` and the other log helpers: easier cases of the format machine.
- Camera, I2C and video registers, exposure stepping, user interface, machine-learning scripts, `bin_to_txt`: data, foreign hardware or unseen libraries.
- The copies of these files in other labs and under `completed_lab`.
