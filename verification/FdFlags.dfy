/** The word fd_flags of an alt_fd. The model names its bits: the masks the descriptor code
    uses (ALT_FD_EXCL 0x80000000, ALT_FD_DEV 0x40000000, O_APPEND, O_NONBLOCK) select
    different bits, so each masked update changes the named fields and no others. */
module FdFlags {
  const ALT_FD_EXCL: bv32 := 0x8000_0000
  const ALT_FD_DEV: bv32 := 0x4000_0000
  const ALT_FD_FLAGS_MASK: bv32 := ALT_FD_EXCL | ALT_FD_DEV

  /** rest: all other bits, with the access mode in it. */
  datatype Flags = Flags(excl: bool, device: bool, append: bool, nonblock: bool, rest: bv32)

  const NONE := Flags(false, false, false, false, 0)
  const O_RDONLY := NONE
  const O_WRONLY := NONE.(rest := 1)

  /** flags & ~ALT_FD_FLAGS_MASK */
  function Unmarked(f: Flags): Flags {
    f.(excl := false, device := false)
  }

  /** The update of F_SETFL, whose mask is O_APPEND | O_NONBLOCK. */
  function Adjusted(f: Flags, arg: Flags): Flags {
    f.(append := arg.append, nonblock := arg.nonblock)
  }

  // ---- The C word ------------------------------------------------------------------------

  /** Bits of the open flags as newlib assigns them; no proof depends on more than that they
      differ from each other and from the lock bits. */
  const O_APPEND: bv32 := 0x0000_0008
  const O_NONBLOCK: bv32 := 0x0000_4000
  const ALT_FCNTL_FLAGS_MASK: bv32 := O_APPEND | O_NONBLOCK

  /** The record that a word stands for. */
  function Meaning(w: bv32): Flags {
    Flags(w & ALT_FD_EXCL != 0, w & ALT_FD_DEV != 0, w & O_APPEND != 0, w & O_NONBLOCK != 0,
          w & OTHERS)
  }

  /** A masked update keeps the bits that its mask does not select, and replaces the others. */
  lemma UpdateBits(f: bv32, arg: bv32, mask: bv32, bits: bv32)
    ensures mask & bits == 0 ==> ((f & !mask) | (arg & mask)) & bits == f & bits
    ensures mask & bits == bits ==> ((f & !mask) | (arg & mask)) & bits == arg & bits
  {
  }

  lemma SetBits(f: bv32, mask: bv32, bits: bv32)
    ensures mask & bits == 0 ==> (f | mask) & bits == f & bits
    ensures (f | mask) & mask == mask
  {
  }

  lemma ClearBits(f: bv32, mask: bv32, bits: bv32)
    ensures mask & bits == 0 ==> (f & !mask) & bits == f & bits
    ensures mask & bits == bits ==> (f & !mask) & bits == 0
  {
  }

  const OTHERS: bv32 := !(ALT_FD_FLAGS_MASK | ALT_FCNTL_FLAGS_MASK)

  /** The two statements of F_SETFL on the word are the update of the record: no argument can
      forge a lock. */
  lemma SetFlOnWord(f: bv32, arg: bv32)
    ensures Meaning((f & !ALT_FCNTL_FLAGS_MASK) | (arg & ALT_FCNTL_FLAGS_MASK)) == Adjusted(Meaning(f), Meaning(arg))
  {
    UpdateBits(f, arg, ALT_FCNTL_FLAGS_MASK, ALT_FD_EXCL);
    UpdateBits(f, arg, ALT_FCNTL_FLAGS_MASK, ALT_FD_DEV);
    UpdateBits(f, arg, ALT_FCNTL_FLAGS_MASK, O_APPEND);
    UpdateBits(f, arg, ALT_FCNTL_FLAGS_MASK, O_NONBLOCK);
    UpdateBits(f, arg, ALT_FCNTL_FLAGS_MASK, OTHERS);
  }

  /** So are the writes of open and F_GETFL, of the device mark, and of lock and unlock. */
  lemma UnmarkOnWord(f: bv32)
    ensures Meaning(f & !ALT_FD_FLAGS_MASK) == Unmarked(Meaning(f))
  {
    ClearBits(f, ALT_FD_FLAGS_MASK, ALT_FD_EXCL);
    ClearBits(f, ALT_FD_FLAGS_MASK, ALT_FD_DEV);
    ClearBits(f, ALT_FD_FLAGS_MASK, O_APPEND);
    ClearBits(f, ALT_FD_FLAGS_MASK, O_NONBLOCK);
    ClearBits(f, ALT_FD_FLAGS_MASK, OTHERS);
  }

  lemma MarkOnWord(f: bv32)
    ensures Meaning(f | ALT_FD_DEV) == Meaning(f).(device := true)
  {
    SetBits(f, ALT_FD_DEV, ALT_FD_EXCL);
    SetBits(f, ALT_FD_DEV, O_APPEND);
    SetBits(f, ALT_FD_DEV, O_NONBLOCK);
    SetBits(f, ALT_FD_DEV, OTHERS);
  }

  lemma LockOnWord(f: bv32)
    ensures Meaning(f | ALT_FD_EXCL) == Meaning(f).(excl := true)
  {
    SetBits(f, ALT_FD_EXCL, ALT_FD_DEV);
    SetBits(f, ALT_FD_EXCL, O_APPEND);
    SetBits(f, ALT_FD_EXCL, O_NONBLOCK);
    SetBits(f, ALT_FD_EXCL, OTHERS);
  }

  lemma UnlockOnWord(f: bv32)
    ensures Meaning(f & !ALT_FD_EXCL) == Meaning(f).(excl := false)
  {
    ClearBits(f, ALT_FD_EXCL, ALT_FD_EXCL);
    ClearBits(f, ALT_FD_EXCL, ALT_FD_DEV);
    ClearBits(f, ALT_FD_EXCL, O_APPEND);
    ClearBits(f, ALT_FD_EXCL, O_NONBLOCK);
    ClearBits(f, ALT_FD_EXCL, OTHERS);
  }

  /** The access modes as words. */
  lemma AccessModes()
    ensures Meaning(0) == O_RDONLY && Meaning(1) == O_WRONLY
  {
  }

  /** No two words stand for the same record. */
  lemma MeaningExact(f: bv32, g: bv32)
    requires Meaning(f) == Meaning(g)
    ensures f == g
  {
  }
}
