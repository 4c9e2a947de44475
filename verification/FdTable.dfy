/** The file descriptor table: open, close, and exclusive locks on devices. */
module FdTable {

  const MAX_FD := 32

  datatype Option<T> = None | Some(value: T)

  /** A registered device or filesystem. */
  datatype Dev = Dev(id: nat, filesystem: bool)

  const NULL_DEV := Dev(0, false)

  /** A descriptor's flag word: its open mode, and the two bits the table keeps for itself. */
  datatype Flags = Flags(mode: nat, excl: bool, device: bool)

  const NO_FLAGS := Flags(0, false, false)

  datatype Slot = Slot(dev: Option<Dev>, flags: Flags)

  /** The descriptor pool and the highest index ever allocated. */
  datatype Table = Table(slots: seq<Slot>, max: int)

  datatype Errno = ENODEV | EMFILE | EACCES | ENOTTY | EBADFD | Driver(code: int)
  datatype Result = Done(value: int) | Error(errno: Errno)

  datatype Request = TIOCEXCL | TIOCNXCL | OtherRequest

  predicate Used(s: seq<Slot>, i: int)
    requires 0 <= i < |s|
  {
    s[i].dev.Some?
  }

  predicate SameDev(s: seq<Slot>, i: int, j: int)
    requires 0 <= i < |s| && 0 <= j < |s|
  {
    s[i].dev.Some? && s[i].dev == s[j].dev
  }

  /** What every operation keeps of one slot. */
  predicate SlotSound(t: Table, i: int)
    requires 0 <= i < |t.slots|
  {
    var slot := t.slots[i];
    && (i <= 2 ==> slot.dev.Some?)
    && (slot.dev.None? ==> slot.flags == NO_FLAGS)
    && (slot.dev.Some? && i > 2 ==> i <= t.max && slot.flags.device == !slot.dev.value.filesystem)
    && (slot.flags.device ==> t.max > 2 && slot.dev.Some? && !slot.dev.value.filesystem)
    && (slot.flags.excl ==> slot.flags.device)
  }

  /** A lock holder and another descriptor of its device: only one holds, and the holder is not the last. */
  predicate PairSound(t: Table, a: int, b: int)
    requires 0 <= a < |t.slots| && 0 <= b < |t.slots|
  {
    a != b && t.slots[a].flags.excl && SameDev(t.slots, a, b) ==> !t.slots[b].flags.excl && a < t.max
  }

  predicate Sound(t: Table) {
    && |t.slots| == MAX_FD && -1 <= t.max < MAX_FD
    && (forall i | 0 <= i < MAX_FD :: SlotSound(t, i))
    && (forall a, b | 0 <= a < MAX_FD && 0 <= b < MAX_FD :: PairSound(t, a, b))
  }

  /** The table at start-up: the standard streams on the null device. */
  function Initial(): Table {
    Table(seq(MAX_FD, i => if i <= 2 then Slot(Some(NULL_DEV), NO_FLAGS) else Slot(None, NO_FLAGS)), -1)
  }

  /** The lowest free slot from i on, or the length of the pool. */
  function FirstFree(s: seq<Slot>, i: nat): (f: nat)
    requires i <= |s|
    ensures i <= f <= |s| && (f < |s| ==> !Used(s, f))
    ensures forall j | i <= j < f :: Used(s, j)
    decreases |s| - i
  {
    if i == |s| || !Used(s, i) then i else FirstFree(s, i + 1)
  }

  /** Some other descriptor holds the lock on the device. */
  predicate LockedBy(s: seq<Slot>, dev: Dev, fd: int, j: int)
    requires 0 <= j < |s|
  {
    j != fd && s[j].dev == Some(dev) && s[j].flags.excl
  }

  predicate Locked(s: seq<Slot>, dev: Dev, fd: int) {
    exists j | 0 <= j < |s| :: LockedBy(s, dev, fd, j)
  }

  /** The outcome of open() on what the name was found to be; status is what the driver's open returns. */
  function OpenOutcome(t: Table, dev: Option<Dev>, status: int): Result
    requires Sound(t)
  {
    if dev.None? then Error(ENODEV)
    else
      var i := FirstFree(t.slots, 0);
      if i == MAX_FD then Error(EMFILE)
      else if !dev.value.filesystem && Locked(t.slots, dev.value, i) then Error(EACCES)
      else if status < 0 then Error(Driver(-status))
      else Done(i)
  }

  /** A failed open leaves the slots as they were, though it may have raised the mark. */
  function Opened(t: Table, dev: Option<Dev>, flags: Flags, status: int): Table
    requires Sound(t)
  {
    var i := FirstFree(t.slots, 0);
    if dev.None? || i == MAX_FD then t
    else
      var max := if i > t.max then i else t.max;
      if OpenOutcome(t, dev, status).Done? then
        Table(t.slots[i := Slot(dev, Flags(flags.mode, false, !dev.value.filesystem))], max)
      else t.(max := max)
  }

  function Released(t: Table, fd: int): Table
    requires fd < |t.slots|
  {
    if fd > 2 then t.(slots := t.slots[fd := Slot(None, NO_FLAGS)]) else t
  }

  /** The lock's scan stops short of the mark. */
  predicate Granted(t: Table, fd: int)
    requires Sound(t) && 0 <= fd < MAX_FD
  {
    forall j | 0 <= j < t.max && j != fd :: t.slots[j].dev != t.slots[fd].dev
  }

  function WithExcl(t: Table, fd: int, excl: bool): Table
    requires 0 <= fd < |t.slots|
  {
    t.(slots := t.slots[fd := t.slots[fd].(flags := t.slots[fd].flags.(excl := excl))])
  }

  function Controlled(t: Table, fd: int, request: Request): Table
    requires Sound(t) && 0 <= fd < MAX_FD
  {
    if !t.slots[fd].flags.device then t
    else
      match request
      case TIOCEXCL => if Granted(t, fd) then WithExcl(t, fd, true) else t
      case TIOCNXCL => WithExcl(t, fd, false)
      case OtherRequest => t
  }

  /** A standard stream takes over what an open returned. */
  function Redirected(t: Table, stream: nat, dev: Option<Dev>, flags: Flags, status: int): Table
    requires Sound(t) && stream <= 2
  {
    var after := Opened(t, dev, flags, status);
    match OpenOutcome(t, dev, status)
    case Error(_) => after
    case Done(fd) => Released(after.(slots := after.slots[stream := after.slots[fd]]), fd)
  }

  // ----- what every operation keeps -----

  lemma InitialIsSound()
    ensures Sound(Initial())
  {
  }

  lemma OpenKeepsSound(t: Table, dev: Option<Dev>, flags: Flags, status: int)
    requires Sound(t)
    ensures Sound(Opened(t, dev, flags, status))
  {
    var u := Opened(t, dev, flags, status);
    forall i | 0 <= i < MAX_FD ensures SlotSound(u, i) {
      assert SlotSound(t, i);
    }
    forall a, b | 0 <= a < MAX_FD && 0 <= b < MAX_FD ensures PairSound(u, a, b) {
      assert PairSound(t, a, b) && SlotSound(t, a);
      assert OpenOutcome(t, dev, status).Done? && !dev.value.filesystem ==>
          !LockedBy(t.slots, dev.value, FirstFree(t.slots, 0), a);
    }
  }

  lemma ReleaseKeepsSound(t: Table, fd: int)
    requires Sound(t) && fd < MAX_FD
    ensures Sound(Released(t, fd))
  {
    var u := Released(t, fd);
    forall i | 0 <= i < MAX_FD ensures SlotSound(u, i) {
      assert SlotSound(t, i);
    }
    forall a, b | 0 <= a < MAX_FD && 0 <= b < MAX_FD ensures PairSound(u, a, b) {
      assert PairSound(t, a, b);
    }
  }

  lemma ControlKeepsSound(t: Table, fd: int, request: Request)
    requires Sound(t) && 0 <= fd < MAX_FD
    ensures Sound(Controlled(t, fd, request))
  {
    var u := Controlled(t, fd, request);
    forall i | 0 <= i < MAX_FD ensures SlotSound(u, i) {
      assert SlotSound(t, i);
    }
    forall a, b | 0 <= a < MAX_FD && 0 <= b < MAX_FD ensures PairSound(u, a, b) {
      assert PairSound(t, a, b) && PairSound(t, b, a) && SlotSound(t, a) && SlotSound(t, b);
      if request == TIOCEXCL && t.slots[fd].flags.device && Granted(t, fd)
        && a == fd && b != fd && SameDev(t.slots, fd, b)
      {
        HolderBelowMark(t, fd, b);
      }
    }
  }

  /** A granted lock is shared with the descriptor at the mark at most. */
  lemma HolderBelowMark(t: Table, fd: int, b: int)
    requires Sound(t) && 0 <= fd < MAX_FD && 0 <= b < MAX_FD && t.slots[fd].flags.device
    requires Granted(t, fd) && b != fd && SameDev(t.slots, fd, b)
    ensures fd < t.max == b
  {
    assert SlotSound(t, fd) && SlotSound(t, b);
    assert b >= t.max;
  }

  lemma RedirectKeepsSound(t: Table, stream: nat, dev: Option<Dev>, flags: Flags, status: int)
    requires Sound(t) && stream <= 2
    ensures Sound(Redirected(t, stream, dev, flags, status))
  {
    OpenKeepsSound(t, dev, flags, status);
    if OpenOutcome(t, dev, status).Done? {
      var fd := FirstFree(t.slots, 0);
      var after := Opened(t, dev, flags, status);
      assert SlotSound(t, 0) && SlotSound(t, 1) && SlotSound(t, 2);
      assert fd > 2;
      forall a | 0 <= a < MAX_FD ensures !LockedBy(after.slots, dev.value, -1, a) {
        assert SlotSound(t, a);
        assert a != fd && !dev.value.filesystem ==> !LockedBy(t.slots, dev.value, fd, a);
      }
      CopyKeepsSound(after, stream, fd);
      ReleaseKeepsSound(after.(slots := after.slots[stream := after.slots[fd]]), fd);
    }
  }

  /** Copying a descriptor without the lock to a standard stream. */
  lemma CopyKeepsSound(t: Table, stream: nat, fd: nat)
    requires Sound(t) && stream <= 2 < fd < MAX_FD && Used(t.slots, fd)
    requires forall a | 0 <= a < MAX_FD :: !LockedBy(t.slots, t.slots[fd].dev.value, -1, a)
    ensures Sound(t.(slots := t.slots[stream := t.slots[fd]]))
  {
    var u := t.(slots := t.slots[stream := t.slots[fd]]);
    forall i | 0 <= i < MAX_FD ensures SlotSound(u, i) {
      assert SlotSound(t, i) && SlotSound(t, fd);
    }
    forall a, b | 0 <= a < MAX_FD && 0 <= b < MAX_FD ensures PairSound(u, a, b) {
      assert PairSound(t, a, b);
      assert !LockedBy(t.slots, t.slots[fd].dev.value, -1, a);
      assert !LockedBy(t.slots, t.slots[fd].dev.value, -1, b);
    }
  }

  // ----- over every run -----

  datatype Step =
    | Open(dev: Option<Dev>, flags: Flags, status: int)
    | Close(fd: nat)
    | Ioctl(fd: nat, request: Request)
    | Redirect(stream: nat, dev: Option<Dev>, flags: Flags, status: int)

  /** The descriptors a program may name are those in use. */
  predicate Allowed(t: Table, step: Step) {
    match step
    case Open(_, _, _) => true
    case Close(fd) => fd < |t.slots| && Used(t.slots, fd)
    case Ioctl(fd, _) => fd < |t.slots| && Used(t.slots, fd)
    case Redirect(stream, _, _, _) => stream <= 2
  }

  function Next(t: Table, step: Step): Table
    requires Sound(t) && Allowed(t, step)
  {
    match step
    case Open(dev, flags, status) => Opened(t, dev, flags, status)
    case Close(fd) => Released(t, fd)
    case Ioctl(fd, request) => Controlled(t, fd, request)
    case Redirect(stream, dev, flags, status) => Redirected(t, stream, dev, flags, status)
  }

  lemma NextKeepsSound(t: Table, step: Step)
    requires Sound(t) && Allowed(t, step)
    ensures Sound(Next(t, step))
  {
    match step
    case Open(dev, flags, status) => OpenKeepsSound(t, dev, flags, status);
    case Close(fd) => ReleaseKeepsSound(t, fd);
    case Ioctl(fd, request) => ControlKeepsSound(t, fd, request);
    case Redirect(stream, dev, flags, status) => RedirectKeepsSound(t, stream, dev, flags, status);
  }

  /** The tables a run of allowed steps passes through. */
  ghost predicate IsRun(tables: seq<Table>, steps: seq<Step>) {
    && |tables| == |steps| + 1 && tables[0] == Initial()
    && forall i | 0 <= i < |steps| :: Follows(tables[i], steps[i], tables[i + 1])
  }

  ghost predicate Follows(t: Table, step: Step, u: Table) {
    Allowed(t, step) && (Sound(t) ==> u == Next(t, step))
  }

  lemma {:induction false} RunStaysSound(tables: seq<Table>, steps: seq<Step>, n: nat)
    requires IsRun(tables, steps) && n < |tables|
    ensures Sound(tables[n])
  {
    if n == 0 {
      InitialIsSound();
    } else {
      RunStaysSound(tables, steps, n - 1);
      assert Follows(tables[n - 1], steps[n - 1], tables[n]);
      NextKeepsSound(tables[n - 1], steps[n - 1]);
    }
  }

  /** At no point of a run do two descriptors hold the lock of one device, or is one in use above the mark. */
  lemma RunIsSafe(tables: seq<Table>, steps: seq<Step>, n: nat, a: nat, b: nat)
    requires IsRun(tables, steps) && n < |tables| && a < MAX_FD && b < MAX_FD
    ensures |tables[n].slots| == MAX_FD
    ensures SameDev(tables[n].slots, a, b) && tables[n].slots[a].flags.excl && tables[n].slots[b].flags.excl ==> a == b
    ensures Used(tables[n].slots, a) ==> a <= 2 || a <= tables[n].max
  {
    RunStaysSound(tables, steps, n);
    assert PairSound(tables[n], a, b) && SlotSound(tables[n], a);
  }

  /** While a descriptor holds a device's lock, opening the device fails and no descriptor of it appears. */
  lemma LockedDeviceGainsNone(t: Table, step: Step, holder: nat, j: nat)
    requires Sound(t) && Allowed(t, step) && holder < MAX_FD && j < MAX_FD && t.slots[holder].flags.excl
    ensures Used(t.slots, holder)
    ensures var dev := t.slots[holder].dev;
            && (forall status ::
                  OpenOutcome(t, dev, status) == Error(EMFILE) || OpenOutcome(t, dev, status) == Error(EACCES))
            && (Next(t, step).slots[j].dev == dev ==> t.slots[j].dev == dev)
  {
    assert SlotSound(t, holder);
    var dev := t.slots[holder].dev;
    assert FirstFree(t.slots, 0) < MAX_FD ==> LockedBy(t.slots, dev.value, FirstFree(t.slots, 0), holder);
  }

  /** The lock gives what it promises, no other descriptor of the device, unless the one at the mark is of it. */
  lemma GrantExcludesIff(t: Table, fd: nat)
    requires Sound(t) && fd < MAX_FD && t.slots[fd].flags.device && Granted(t, fd)
    ensures 2 < t.max
    ensures (forall j | 0 <= j < MAX_FD && j != fd :: !SameDev(t.slots, fd, j))
            <==> fd == t.max || t.slots[t.max].dev != t.slots[fd].dev
  {
    assert SlotSound(t, fd);
    if fd != t.max && t.slots[t.max].dev == t.slots[fd].dev {
      assert SameDev(t.slots, fd, t.max);
    }
    forall j | 0 <= j < MAX_FD && j != fd && SameDev(t.slots, fd, j) ensures fd < t.max == j {
      HolderBelowMark(t, fd, j);
    }
  }

  /** A lock that is denied is denied because another descriptor of the device is in use. */
  lemma DeniedOnlyIfShared(t: Table, fd: nat)
    requires Sound(t) && fd < MAX_FD && t.slots[fd].flags.device && !Granted(t, fd)
    ensures exists j | 0 <= j < MAX_FD && j != fd :: SameDev(t.slots, fd, j)
  {
    var j :| 0 <= j < t.max && j != fd && t.slots[j].dev == t.slots[fd].dev;
    assert SlotSound(t, fd) && SameDev(t.slots, fd, j);
  }

  /** Two opens of a device and a lock on the first: the lock is granted and the second stays open. */
  lemma SharedLockWitness(dev: Dev)
    requires !dev.filesystem && dev != NULL_DEV
    ensures var t0 := Initial();
            Sound(t0) &&
            var t1 := Opened(t0, Some(dev), NO_FLAGS, 0);
            Sound(t1) &&
            var t2 := Opened(t1, Some(dev), NO_FLAGS, 0);
            Sound(t2) &&
            var t3 := Controlled(t2, 3, TIOCEXCL);
            t3.slots[3].flags.excl && SameDev(t3.slots, 3, 4)
  {
    var t0 := Initial();
    InitialIsSound();
    LowestIs(t0.slots, 0, 3);
    var t1 := Opened(t0, Some(dev), NO_FLAGS, 0);
    OpenKeepsSound(t0, Some(dev), NO_FLAGS, 0);
    LowestIs(t1.slots, 0, 4);
    var t2 := Opened(t1, Some(dev), NO_FLAGS, 0);
    OpenKeepsSound(t1, Some(dev), NO_FLAGS, 0);
    assert Granted(t2, 3);
  }

  // ----- what each operation does to the slots -----

  /** A descriptor just opened: the open mode asked for, no lock, and marked if it is a device's. */
  function Fresh(dev: Dev, flags: Flags): Slot {
    Slot(Some(dev), Flags(flags.mode, false, !dev.filesystem))
  }

  /** Slot v is the lowest without a device. */
  predicate LowestFree(s: seq<Slot>, v: int) {
    0 <= v < |s| && !Used(s, v) && forall j | 0 <= j < v :: Used(s, j)
  }

  /**
   What open answers, case by case, and what it leaves behind: one new descriptor, the lowest free one,
   or every slot as it was. The mark rises to a slot claimed even if it is not kept.
   */
  lemma OpenSays(t: Table, dev: Option<Dev>, flags: Flags, status: int)
    requires Sound(t)
    ensures var r, u := OpenOutcome(t, dev, status), Opened(t, dev, flags, status);
            && (r == Error(ENODEV) <==> dev.None?)
            && (r == Error(EMFILE) <==> dev.Some? && forall j | 0 <= j < MAX_FD :: Used(t.slots, j))
            && (r == Error(EACCES) <==> dev.Some? && !dev.value.filesystem &&
                                        exists v | LowestFree(t.slots, v) :: Locked(t.slots, dev.value, v))
            && (r.Done? ==> status >= 0 && LowestFree(t.slots, r.value))
            && (r.Done? || r in {Error(ENODEV), Error(EMFILE), Error(EACCES)} ||
                (status < 0 && r == Error(Driver(-status))))
            && u.slots == (if r.Done? then t.slots[r.value := Fresh(dev.value, flags)] else t.slots)
            && (dev.None? ==> u == t)
            && (forall v | dev.Some? && LowestFree(t.slots, v) :: u.max == if v > t.max then v else t.max)
  {
    var i := FirstFree(t.slots, 0);
    if i < MAX_FD {
      assert LowestFree(t.slots, i);
      assert forall v | LowestFree(t.slots, v) :: v == i;
    } else {
      assert forall j | 0 <= j < MAX_FD :: Used(t.slots, j);
    }
  }

  /** A stream redirected takes over the descriptor, which is free again; no other slot changes. */
  lemma RedirectSays(t: Table, stream: nat, dev: Option<Dev>, flags: Flags, status: int)
    requires Sound(t) && stream <= 2
    ensures Redirected(t, stream, dev, flags, status).slots ==
            if OpenOutcome(t, dev, status).Error? then t.slots
            else t.slots[stream := Fresh(dev.value, flags)]
  {
    OpenSays(t, dev, flags, status);
    if OpenOutcome(t, dev, status).Done? {
      var fd := OpenOutcome(t, dev, status).value;
      assert SlotSound(t, 0) && SlotSound(t, 1) && SlotSound(t, 2) && SlotSound(t, fd);
    }
  }

  /** The lock requests touch nothing but the descriptor's own flag. */
  lemma ControlSays(t: Table, fd: nat, request: Request)
    requires Sound(t) && fd < MAX_FD
    ensures var u := Controlled(t, fd, request);
            var held, holds := t.slots[fd].flags.excl, u.slots[fd].flags.excl;
            && u == t.(slots := t.slots[fd := t.slots[fd].(flags := t.slots[fd].flags.(excl := holds))])
            && (t.slots[fd].flags.device && request == TIOCEXCL ==> (holds <==> Granted(t, fd) || held))
            && (request == TIOCNXCL ==> !holds)
            && (!t.slots[fd].flags.device || request == OtherRequest ==> u == t)
  {
    assert SlotSound(t, fd);
  }

  /** Once the holder has unlocked it, nobody holds the device. */
  lemma UnlockFrees(t: Table, fd: nat)
    requires Sound(t) && fd < MAX_FD && t.slots[fd].flags.excl
    ensures Used(t.slots, fd)
    ensures !Locked(Controlled(t, fd, TIOCNXCL).slots, t.slots[fd].dev.value, -1)
  {
    assert SlotSound(t, fd);
    forall j | 0 <= j < MAX_FD ensures !LockedBy(Controlled(t, fd, TIOCNXCL).slots, t.slots[fd].dev.value, -1, j) {
      assert PairSound(t, fd, j);
    }
  }

  lemma {:induction false} LowestIs(s: seq<Slot>, i: nat, f: nat)
    requires i <= f < |s| && !Used(s, f) && forall j | i <= j < f :: Used(s, j)
    ensures FirstFree(s, i) == f
    decreases f - i
  {
    if i < f {
      LowestIs(s, i + 1, f);
    }
  }

  /** Closing the holder leaves its device unlocked exactly if the holder is not a standard stream. */
  lemma CloseUnlocksIff(t: Table, fd: nat)
    requires Sound(t) && fd < MAX_FD && t.slots[fd].flags.excl
    ensures Used(t.slots, fd)
    ensures !Locked(Released(t, fd).slots, t.slots[fd].dev.value, -1) <==> fd > 2
  {
    assert SlotSound(t, fd);
    var dev := t.slots[fd].dev.value;
    var u := Released(t, fd);
    if fd > 2 {
      forall j | 0 <= j < MAX_FD ensures !LockedBy(u.slots, dev, -1, j) {
        assert PairSound(t, fd, j);
      }
    } else {
      assert LockedBy(u.slots, dev, -1, fd);
    }
  }

  /** A stream redirected to a device and locked: closing it changes nothing, and the device cannot be opened. */
  lemma StreamKeepsLockWitness(dev: Dev)
    requires !dev.filesystem && dev != NULL_DEV
    ensures var t0 := Initial();
            Sound(t0) &&
            var t1 := Redirected(t0, 1, Some(dev), NO_FLAGS, 0);
            Sound(t1) &&
            var t2 := Controlled(t1, 1, TIOCEXCL);
            Sound(t2) && t2.slots[1].flags.excl && Released(t2, 1) == t2
            && OpenOutcome(t2, Some(dev), 0) == Error(EACCES)
  {
    var t0 := Initial();
    InitialIsSound();
    LowestIs(t0.slots, 0, 3);
    var t1 := Redirected(t0, 1, Some(dev), NO_FLAGS, 0);
    RedirectKeepsSound(t0, 1, Some(dev), NO_FLAGS, 0);
    assert !Used(t1.slots, 3) && t1.slots[1].flags.device && Granted(t1, 1);
    var t2 := Controlled(t1, 1, TIOCEXCL);
    ControlKeepsSound(t1, 1, TIOCEXCL);
    LowestIs(t2.slots, 0, 3);
    assert LockedBy(t2.slots, dev, 3, 1);
  }

  // ----- the code -----

  class Pool {
    var slots: array<Slot>
    var max: int

    ghost function Contents(): Table
      reads this, slots
    {
      Table(slots[..], max)
    }

    constructor ()
      ensures fresh(slots) && Contents() == Initial()
    {
      slots := new Slot[MAX_FD](i => if 0 <= i <= 2 then Slot(Some(NULL_DEV), NO_FLAGS) else Slot(None, NO_FLAGS));
      max := -1;
      new;
      assert slots[..] == Initial().slots;
    }

    /** Claims the lowest free slot and raises the mark. */
    method GetFd(dev: Dev) returns (rc: Result)
      requires Sound(Contents())
      modifies this`max, slots
      ensures var i := FirstFree(old(slots[..]), 0);
              if i == MAX_FD then rc == Error(EMFILE) && Contents() == old(Contents())
              else
                && rc == Done(i) && max == (if i > old(max) then i else old(max))
                && slots[..] == old(slots[..])[i := Slot(Some(dev), NO_FLAGS)]
    {
      var i := 0;
      while i < MAX_FD
        invariant 0 <= i <= MAX_FD && Contents() == old(Contents())
        invariant forall j | 0 <= j < i :: Used(slots[..], j)
      {
        if slots[i].dev.None? {
          LowestIs(slots[..], 0, i);
          assert SlotSound(Contents(), i);
          slots[i] := slots[i].(dev := Some(dev));
          if i > max {
            max := i;
          }
          return Done(i);
        }
        assert Used(slots[..], i);
        i := i + 1;
      }
      return Error(EMFILE);
    }

    method ReleaseFd(fd: int)
      requires fd < slots.Length
      modifies slots
      ensures Contents() == Released(old(Contents()), fd)
    {
      if fd > 2 {
        slots[fd] := Slot(None, NO_FLAGS);
      }
    }

    /** Marks the descriptor as a device's, and looks for another that holds the device's lock. */
    method FileLocked(fd: nat) returns (locked: bool)
      requires fd < slots.Length && 0 <= max < slots.Length && slots[fd].dev.Some?
      modifies slots
      ensures slots[..] == old(slots[..])[fd := old(slots[fd]).(flags := old(slots[fd]).flags.(device := true))]
      ensures locked <==> exists j | 0 <= j <= max :: LockedBy(old(slots[..]), old(slots[fd]).dev.value, fd, j)
    {
      slots[fd] := slots[fd].(flags := slots[fd].flags.(device := true));
      ghost var before := old(slots[..]);
      var i := 0;
      while i <= max
        invariant 0 <= i <= max + 1
        invariant forall j | 0 <= j < i && j <= max :: !LockedBy(before, before[fd].dev.value, fd, j)
      {
        assert i != fd ==> slots[i] == before[i];
        if slots[i].dev == slots[fd].dev && slots[i].flags.excl && i != fd {
          assert LockedBy(before, before[fd].dev.value, fd, i);
          return true;
        }
        i := i + 1;
      }
      return false;
    }

    /** open() on what the name was found to be, if anything. */
    method Open(found: Option<Dev>, flags: Flags, driverStatus: int) returns (r: Result)
      requires Sound(Contents())
      modifies this`max, slots
      ensures r == OpenOutcome(old(Contents()), found, driverStatus)
      ensures Contents() == Opened(old(Contents()), found, flags, driverStatus) && Sound(Contents())
      ensures r.Error? ==> slots[..] == old(slots[..])
      ensures r.Done? ==>
                && LowestFree(old(slots[..]), r.value)
                && slots[..] == old(slots[..])[r.value := Fresh(found.value, flags)]
    {
      ghost var t := Contents();
      OpenSays(t, found, flags, driverStatus);
      OpenKeepsSound(t, found, flags, driverStatus);
      if found.None? {
        return Error(ENODEV);
      }
      r := GetFd(found.value);
      if r.Error? {
        return;
      }
      var index := r.value;
      slots[index] := slots[index].(flags := Flags(flags.mode, false, false));
      var locked := false;
      if !found.value.filesystem {
        ghost var claimed := slots[..];
        locked := FileLocked(index);
        ScanSeesAll(t, claimed, found.value, index, max, locked);
      }
      if locked || driverStatus < 0 {
        assert SlotSound(t, index) && SlotSound(t, 0) && SlotSound(t, 1) && SlotSound(t, 2);
        ReleaseFd(index);
        assert slots[..] == t.slots;
        r := if locked then Error(EACCES) else Error(Driver(-driverStatus));
      }
    }

    method Close(fd: int, driverStatus: int) returns (r: Result)
      requires Sound(Contents()) && fd < MAX_FD && (fd >= 0 ==> Used(slots[..], fd))
      modifies slots
      ensures r == if fd < 0 then Error(EBADFD) else if driverStatus < 0 then Error(Driver(-driverStatus)) else Done(0)
      ensures Contents() == (if fd < 0 then old(Contents()) else Released(old(Contents()), fd)) && Sound(Contents())
    {
      if fd < 0 {
        return Error(EBADFD);
      }
      ReleaseKeepsSound(Contents(), fd);
      ReleaseFd(fd);
      r := if driverStatus < 0 then Error(Driver(-driverStatus)) else Done(0);
    }

    /** Takes the device's lock unless another descriptor below the mark is of the device. */
    method FdLock(fd: nat) returns (granted: bool)
      requires Sound(Contents()) && fd < MAX_FD
      modifies slots
      ensures granted == Granted(old(Contents()), fd)
      ensures Contents() == if granted then WithExcl(old(Contents()), fd, true) else old(Contents())
    {
      ghost var t := Contents();
      var i := 0;
      while i < max
        invariant 0 <= i && (i <= max || i == 0) && Contents() == t
        invariant forall j | 0 <= j < i && j != fd :: t.slots[j].dev != t.slots[fd].dev
      {
        if i != fd && slots[i].dev == slots[fd].dev {
          assert t.slots[i].dev == t.slots[fd].dev;
          return false;
        }
        i := i + 1;
      }
      slots[fd] := slots[fd].(flags := slots[fd].flags.(excl := true));
      return true;
    }

    method FdUnlock(fd: nat)
      requires fd < slots.Length
      modifies slots
      ensures Contents() == WithExcl(old(Contents()), fd, false)
    {
      slots[fd] := slots[fd].(flags := slots[fd].flags.(excl := false));
    }

    /** ioctl(); the lock requests are the table's own on devices, anything else is the driver's. */
    method Ioctl(fd: int, request: Request, driver: Option<int>) returns (r: Result)
      requires Sound(Contents()) && fd < MAX_FD && (fd >= 0 ==> Used(slots[..], fd))
      modifies slots
      ensures Sound(Contents())
      ensures Contents() == if fd < 0 then old(Contents()) else Controlled(old(Contents()), fd, request)
      ensures fd < 0 ==> r == Error(EBADFD)
      ensures fd >= 0 && old(slots[fd]).flags.device && request == TIOCEXCL ==>
                r == if Granted(old(Contents()), fd) then Done(0) else Error(EACCES)
      ensures fd >= 0 && old(slots[fd]).flags.device && request == TIOCNXCL ==> r == Done(0)
      ensures fd >= 0 && (!old(slots[fd]).flags.device || request == OtherRequest) ==>
                r == match driver
                     case None => Error(ENOTTY)
                     case Some(v) => if v < 0 then Error(Driver(-v)) else Done(v)
    {
      if fd < 0 {
        return Error(EBADFD);
      }
      ControlKeepsSound(Contents(), fd, request);
      if slots[fd].flags.device {
        if request == TIOCEXCL {
          var granted := FdLock(fd);
          return if granted then Done(0) else Error(EACCES);
        } else if request == TIOCNXCL {
          FdUnlock(fd);
          return Done(0);
        }
      }
      match driver {
        case None => r := Error(ENOTTY);
        case Some(v) => r := if v < 0 then Error(Driver(-v)) else Done(v);
      }
    }

    /** Points a standard stream at what open() finds; on failure it stays where it was. */
    method OpenFd(stream: nat, found: Option<Dev>, flags: Flags, driverStatus: int)
      requires Sound(Contents()) && stream <= 2
      modifies this`max, slots
      ensures Contents() == Redirected(old(Contents()), stream, found, flags, driverStatus) && Sound(Contents())
      ensures slots[..] == if OpenOutcome(old(Contents()), found, driverStatus).Error? then old(slots[..])
                           else old(slots[..])[stream := Fresh(found.value, flags)]
    {
      RedirectSays(Contents(), stream, found, flags, driverStatus);
      RedirectKeepsSound(Contents(), stream, found, flags, driverStatus);
      var r := Open(found, flags, driverStatus);
      if r.Done? {
        slots[stream] := slots[r.value];
        ReleaseFd(r.value);
      }
    }
  }

  /** Up to the mark is as good as everywhere: nothing above it holds a lock. */
  lemma ScanSeesAll(t: Table, s: seq<Slot>, dev: Dev, fd: nat, max: int, locked: bool)
    requires Sound(t) && fd == FirstFree(t.slots, 0) < MAX_FD == |s| && s == t.slots[fd := s[fd]]
    requires max == (if fd > t.max then fd else t.max)
    requires locked <==> exists j | 0 <= j <= max :: LockedBy(s, dev, fd, j)
    ensures locked <==> Locked(t.slots, dev, fd)
  {
    forall j | 0 <= j < MAX_FD ensures LockedBy(s, dev, fd, j) <==> LockedBy(t.slots, dev, fd, j) {
      assert j != fd ==> s[j] == t.slots[j];
    }
    forall j | 0 <= j < MAX_FD && LockedBy(t.slots, dev, fd, j) ensures j <= max {
      assert SlotSound(t, j);
    }
    if Locked(t.slots, dev, fd) {
      var j :| 0 <= j < MAX_FD && LockedBy(t.slots, dev, fd, j);
      assert LockedBy(s, dev, fd, j);
    }
  }
}
