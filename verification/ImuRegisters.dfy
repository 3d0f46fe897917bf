// The register file of the LSM6DS3TR-C and the slice of its driver that has to keep two derived
// facts: the interrupts-enable bit follows the routed activity events, and accesses to the
// embedded-function banks leave the user bank alone, with a fault possible at every bus access.
module ImuRegisters {

  type byte = bv8

  const REG_COUNT: nat := 128
  const FUNC_CFG_ACCESS: nat := 0x01
  const DRDY_PULSE_CFG_G: nat := 0x0B
  const INT1_CTRL: nat := 0x0D
  const INT2_CTRL: nat := 0x0E
  const CTRL4_C: nat := 0x13
  const MASTER_CONFIG: nat := 0x1A
  const TAP_CFG: nat := 0x58
  const MD1_CFG: nat := 0x5E
  const MD2_CFG: nat := 0x5F
  const A_WRIST_TILT_MASK: nat := 0x59 // bank B
  const PEDO_DEB_REG: nat := 0x14 // bank A

  type File = f: seq<byte> | |f| == REG_COUNT witness seq(REG_COUNT, i => 0)

  datatype Regs = Regs(user: File, bankA: File, bankB: File)

  datatype Bank = User | A | B

  // func_cfg_en, the top three bits of FUNC_CFG_ACCESS, selects the bank.
  function SelectedBank(access: byte): Bank {
    if access & 0xE0 == 0x80 then A else if access & 0xE0 == 0xA0 then B else User
  }

  function BankOf(r: Regs): Bank {
    SelectedBank(r.user[FUNC_CFG_ACCESS])
  }

  // FUNC_CFG_ACCESS answers in every bank.
  function Visible(r: Regs): File {
    match BankOf(r)
    case User => r.user
    case A => r.bankA[FUNC_CFG_ACCESS := r.user[FUNC_CFG_ACCESS]]
    case B => r.bankB[FUNC_CFG_ACCESS := r.user[FUNC_CFG_ACCESS]]
  }

  // The file behind every register but FUNC_CFG_ACCESS.
  function Current(r: Regs): File {
    match BankOf(r)
    case User => r.user
    case A => r.bankA
    case B => r.bankB
  }

  function Replace(r: Regs, f: File): Regs {
    match BankOf(r)
    case User => r.(user := f)
    case A => r.(bankA := f)
    case B => r.(bankB := f)
  }

  function Overwrite(f: File, reg: nat, data: seq<byte>): (r: File)
    requires reg + |data| <= REG_COUNT
  {
    f[..reg] + data + f[reg + |data|..]
  }

  // A bus write of consecutive registers of the selected bank.
  function Stored(r: Regs, reg: nat, data: seq<byte>): Regs
    requires reg + |data| <= REG_COUNT
  {
    if reg == FUNC_CFG_ACCESS then r.(user := Overwrite(r.user, reg, data))
    else
      match BankOf(r)
      case User => r.(user := Overwrite(r.user, reg, data))
      case A => r.(bankA := Overwrite(r.bankA, reg, data))
      case B => r.(bankB := Overwrite(r.bankB, reg, data))
  }

  // ---- Bit fields ----

  function SetBit(r: byte, mask: byte, on: bool): byte {
    if on then r | mask else r & !mask
  }

  function Flag(mask: byte, on: bool): byte { if on then mask else 0 }

  // ---- Interrupt routing ----

  datatype Activity = Activity(sixD: bool, doubleTap: bool, freeFall: bool, wakeUp: bool, singleTap: bool, inactivity: bool)

  // lsm6ds3tr_c_int1_route_t and lsm6ds3tr_c_int2_route_t: the eight fields of the control
  // register as one byte, the low two fields of MDx_CFG, the six activity fields and the rest.
  datatype Int1Route = Int1Route(ctrl: byte, timer: bool, tilt: bool, activity: Activity, denDrdyInt1: bool, drdyOnInt1: bool)
  datatype Int2Route = Int2Route(ctrl: byte, iron: bool, tilt: bool, activity: Activity, wristTilt: bool)

  function MdByte(low: bool, tilt: bool, a: Activity): byte {
    Flag(0x01, low) | Flag(0x02, tilt) | Flag(0x04, a.sixD) | Flag(0x08, a.doubleTap) | Flag(0x10, a.freeFall)
    | Flag(0x20, a.wakeUp) | Flag(0x40, a.singleTap) | Flag(0x80, a.inactivity)
  }

  // The activity fields of a register, as the driver tests them.
  function ActivityOf(md: byte): Activity {
    Activity(md & 0x04 != 0, md & 0x08 != 0, md & 0x10 != 0, md & 0x20 != 0, md & 0x40 != 0, md & 0x80 != 0)
  }

  predicate Any(a: Activity) {
    a.sixD || a.freeFall || a.wakeUp || a.singleTap || a.doubleTap || a.inactivity
  }

  predicate EnableBit(user: File) { user[TAP_CFG] & 0x80 != 0 }

  // The enable bit is set exactly when an activity event is routed to either pin.
  predicate Consistent(user: File) {
    EnableBit(user) <==> user[MD1_CFG] & 0xFC != 0 || user[MD2_CFG] & 0xFC != 0
  }

  lemma MdActivity(low: bool, tilt: bool, a: Activity)
    ensures MdByte(low, tilt, a) & 0xFC != 0 <==> Any(a)
  {
    var m := MdByte(low, tilt, a);
    assert m & 0xFC == Flag(0x04, a.sixD) | Flag(0x08, a.doubleTap) | Flag(0x10, a.freeFall)
      | Flag(0x20, a.wakeUp) | Flag(0x40, a.singleTap) | Flag(0x80, a.inactivity);
  }

  lemma AnyActivity(md: byte)
    ensures Any(ActivityOf(md)) <==> md & 0xFC != 0
  {
  }

  // ---- What the setters write, register by register ----

  function Put(r: Regs, reg: nat, b: byte): Regs
    requires reg < REG_COUNT
  {
    if reg == FUNC_CFG_ACCESS then r.(user := r.user[reg := b])
    else
      match BankOf(r)
      case User => r.(user := r.user[reg := b])
      case A => r.(bankA := r.bankA[reg := b])
      case B => r.(bankB := r.bankB[reg := b])
  }

  type Write = w: (nat, byte) | FUNC_CFG_ACCESS < w.0 < REG_COUNT witness (FUNC_CFG_ACCESS + 1, 0)

  function ApplyWrites(user: File, ws: seq<Write>): File
    decreases |ws|
  {
    if ws == [] then user
    else ApplyWrites(user, ws[..|ws| - 1])[ws[|ws| - 1].0 := ws[|ws| - 1].1]
  }

  function Int1Writes(user: File, v: Int1Route): seq<Write> {
    [ (INT1_CTRL, v.ctrl),
      (MD1_CFG, MdByte(v.timer, v.tilt, v.activity)),
      (CTRL4_C, SetBit(user[CTRL4_C], 0x10, v.denDrdyInt1)),
      (MASTER_CONFIG, SetBit(user[MASTER_CONFIG], 0x80, v.denDrdyInt1)),
      (TAP_CFG, SetBit(user[TAP_CFG], 0x80, Any(v.activity) || Any(ActivityOf(user[MD2_CFG])))) ]
  }

  function Int2Writes(user: File, v: Int2Route): seq<Write> {
    [ (INT2_CTRL, v.ctrl),
      (MD2_CFG, MdByte(v.iron, v.tilt, v.activity)),
      (DRDY_PULSE_CFG_G, SetBit(user[DRDY_PULSE_CFG_G], 0x01, v.wristTilt)),
      (TAP_CFG, SetBit(user[TAP_CFG], 0x80, Any(ActivityOf(user[MD1_CFG])) || Any(v.activity))) ]
  }

  lemma SetBitSets(r: byte, on: bool)
    ensures SetBit(r, 0x80, on) & 0x80 != 0 <==> on
  {
  }

  lemma ApplyNext(user: File, ws: seq<Write>, k: nat)
    requires k < |ws|
    ensures ApplyWrites(user, ws[..k + 1]) == ApplyWrites(user, ws[..k])[ws[k].0 := ws[k].1]
  {
    assert ws[..k + 1][..k] == ws[..k];
  }

  // A register outside the list keeps its value.
  lemma {:induction false} ApplyElsewhere(user: File, ws: seq<Write>, reg: nat)
    requires reg < REG_COUNT && forall i :: 0 <= i < |ws| ==> ws[i].0 != reg
    ensures ApplyWrites(user, ws)[reg] == user[reg]
    decreases |ws|
  {
    if ws != [] {
      ApplyElsewhere(user, ws[..|ws| - 1], reg);
    }
  }

  // A register written once, at position k, holds what was written there.
  lemma {:induction false} ApplyAt(user: File, ws: seq<Write>, k: nat)
    requires k < |ws| && forall i :: 0 <= i < |ws| && i != k ==> ws[i].0 != ws[k].0
    ensures ApplyWrites(user, ws)[ws[k].0] == ws[k].1
    decreases |ws|
  {
    if k < |ws| - 1 {
      ApplyAt(user, ws[..|ws| - 1], k);
    }
  }

  // Writes to the selected bank's file keep the selection.
  lemma WritesKeepBank(r: Regs, ws: seq<Write>)
    ensures BankOf(Replace(r, ApplyWrites(Current(r), ws))) == BankOf(r)
    ensures Current(Replace(r, ApplyWrites(Current(r), ws))) == ApplyWrites(Current(r), ws)
  {
    hide SelectedBank;
    ApplyElsewhere(Current(r), ws, FUNC_CFG_ACCESS);
  }

  lemma PutInCurrent(r: Regs, reg: nat, b: byte)
    requires FUNC_CFG_ACCESS < reg < REG_COUNT
    ensures Put(r, reg, b) == Replace(r, Current(r)[reg := b]) && Visible(r)[reg] == Current(r)[reg]
  {
  }

  // However the device stood before, a completed routing call leaves the enable bit consistent.
  lemma Int1Consistent(user: File, v: Int1Route)
    ensures Consistent(ApplyWrites(user, Int1Writes(user, v)))
  {
    hide MdByte, Any, ActivityOf, SetBit;
    var ws := Int1Writes(user, v);
    ApplyAt(user, ws, 1);
    ApplyAt(user, ws, 4);
    ApplyElsewhere(user, ws, MD2_CFG);
    MdActivity(v.timer, v.tilt, v.activity);
    AnyActivity(user[MD2_CFG]);
    SetBitSets(user[TAP_CFG], Any(v.activity) || Any(ActivityOf(user[MD2_CFG])));
  }

  lemma Int2Consistent(user: File, v: Int2Route)
    ensures Consistent(ApplyWrites(user, Int2Writes(user, v)))
  {
    hide MdByte, Any, ActivityOf, SetBit;
    var ws := Int2Writes(user, v);
    ApplyAt(user, ws, 1);
    ApplyAt(user, ws, 3);
    ApplyElsewhere(user, ws, MD1_CFG);
    MdActivity(v.iron, v.tilt, v.activity);
    AnyActivity(user[MD1_CFG]);
    SetBitSets(user[TAP_CFG], Any(ActivityOf(user[MD1_CFG])) || Any(v.activity));
  }

  // What a completed routing call leaves in the registers of the bank it worked in: each field of the
  // route at its own bit of its own register, and every other bit as it was.
  predicate RoutedInt1(before: File, after: File, v: Int1Route) {
    && after[0x0D] == v.ctrl
    && (after[0x5E] & 0x01 != 0 <==> v.timer)
    && (after[0x5E] & 0x02 != 0 <==> v.tilt)
    && (after[0x5E] & 0x04 != 0 <==> v.activity.sixD)
    && (after[0x5E] & 0x08 != 0 <==> v.activity.doubleTap)
    && (after[0x5E] & 0x10 != 0 <==> v.activity.freeFall)
    && (after[0x5E] & 0x20 != 0 <==> v.activity.wakeUp)
    && (after[0x5E] & 0x40 != 0 <==> v.activity.singleTap)
    && (after[0x5E] & 0x80 != 0 <==> v.activity.inactivity)
    && (after[0x13] & 0x10 != 0 <==> v.denDrdyInt1) && after[0x13] & 0xEF == before[0x13] & 0xEF
    && (after[0x1A] & 0x80 != 0 <==> v.denDrdyInt1) && after[0x1A] & 0x7F == before[0x1A] & 0x7F
    && (after[0x58] & 0x80 != 0 <==> after[0x5E] & 0xFC != 0 || before[0x5F] & 0xFC != 0)
    && after[0x58] & 0x7F == before[0x58] & 0x7F
    && forall i :: 0 <= i < REG_COUNT && i != 0x0D && i != 0x5E && i != 0x13 && i != 0x1A && i != 0x58 ==>
         after[i] == before[i]
  }

  predicate RoutedInt2(before: File, after: File, v: Int2Route) {
    && after[0x0E] == v.ctrl
    && (after[0x5F] & 0x01 != 0 <==> v.iron)
    && (after[0x5F] & 0x02 != 0 <==> v.tilt)
    && (after[0x5F] & 0x04 != 0 <==> v.activity.sixD)
    && (after[0x5F] & 0x08 != 0 <==> v.activity.doubleTap)
    && (after[0x5F] & 0x10 != 0 <==> v.activity.freeFall)
    && (after[0x5F] & 0x20 != 0 <==> v.activity.wakeUp)
    && (after[0x5F] & 0x40 != 0 <==> v.activity.singleTap)
    && (after[0x5F] & 0x80 != 0 <==> v.activity.inactivity)
    && (after[0x0B] & 0x01 != 0 <==> v.wristTilt) && after[0x0B] & 0xFE == before[0x0B] & 0xFE
    && (after[0x58] & 0x80 != 0 <==> before[0x5E] & 0xFC != 0 || after[0x5F] & 0xFC != 0)
    && after[0x58] & 0x7F == before[0x58] & 0x7F
    && forall i :: 0 <= i < REG_COUNT && i != 0x0E && i != 0x5F && i != 0x0B && i != 0x58 ==> after[i] == before[i]
  }

  lemma MdBits(low: bool, tilt: bool, a: Activity)
    ensures var m := MdByte(low, tilt, a);
      && (m & 0x01 != 0 <==> low) && (m & 0x02 != 0 <==> tilt)
      && (m & 0x04 != 0 <==> a.sixD) && (m & 0x08 != 0 <==> a.doubleTap)
      && (m & 0x10 != 0 <==> a.freeFall) && (m & 0x20 != 0 <==> a.wakeUp)
      && (m & 0x40 != 0 <==> a.singleTap) && (m & 0x80 != 0 <==> a.inactivity)
  {
  }

  lemma SetBitKeeps(r: byte, on: bool)
    ensures (SetBit(r, 0x01, on) & 0x01 != 0 <==> on) && SetBit(r, 0x01, on) & 0xFE == r & 0xFE
    ensures (SetBit(r, 0x10, on) & 0x10 != 0 <==> on) && SetBit(r, 0x10, on) & 0xEF == r & 0xEF
    ensures (SetBit(r, 0x80, on) & 0x80 != 0 <==> on) && SetBit(r, 0x80, on) & 0x7F == r & 0x7F
  {
  }

  lemma Int1Routed(user: File, v: Int1Route)
    ensures RoutedInt1(user, ApplyWrites(user, Int1Writes(user, v)), v)
  {
    MdBits(v.timer, v.tilt, v.activity);
    MdActivity(v.timer, v.tilt, v.activity);
    AnyActivity(user[MD2_CFG]);
    hide MdByte, Any, ActivityOf, SetBit, ApplyWrites;
    var ws := Int1Writes(user, v);
    ApplyAt(user, ws, 0);
    ApplyAt(user, ws, 1);
    ApplyAt(user, ws, 2);
    ApplyAt(user, ws, 3);
    ApplyAt(user, ws, 4);
    SetBitKeeps(user[CTRL4_C], v.denDrdyInt1);
    SetBitKeeps(user[MASTER_CONFIG], v.denDrdyInt1);
    SetBitKeeps(user[TAP_CFG], Any(v.activity) || Any(ActivityOf(user[MD2_CFG])));
    forall i | 0 <= i < REG_COUNT && i != 0x0D && i != 0x5E && i != 0x13 && i != 0x1A && i != 0x58
      ensures ApplyWrites(user, ws)[i] == user[i]
    {
      ApplyElsewhere(user, ws, i);
    }
  }

  lemma Int2Routed(user: File, v: Int2Route)
    ensures RoutedInt2(user, ApplyWrites(user, Int2Writes(user, v)), v)
  {
    MdBits(v.iron, v.tilt, v.activity);
    MdActivity(v.iron, v.tilt, v.activity);
    AnyActivity(user[MD1_CFG]);
    hide MdByte, Any, ActivityOf, SetBit, ApplyWrites;
    var ws := Int2Writes(user, v);
    ApplyAt(user, ws, 0);
    ApplyAt(user, ws, 1);
    ApplyAt(user, ws, 2);
    ApplyAt(user, ws, 3);
    SetBitKeeps(user[DRDY_PULSE_CFG_G], v.wristTilt);
    SetBitKeeps(user[TAP_CFG], Any(ActivityOf(user[MD1_CFG])) || Any(v.activity));
    forall i | 0 <= i < REG_COUNT && i != 0x0E && i != 0x5F && i != 0x0B && i != 0x58
      ensures ApplyWrites(user, ws)[i] == user[i]
    {
      ApplyElsewhere(user, ws, i);
    }
  }

  // A routing call stopped after k writes has finished with the first k of its registers, in this
  // order, and not touched the others.
  lemma Int1Order(user: File, v: Int1Route, k: nat, i: nat)
    requires k <= 5 && i < REG_COUNT
    ensures ApplyWrites(user, Int1Writes(user, v)[..k])[i] ==
      if i in [0x0D, 0x5E, 0x13, 0x1A, 0x58][..k] then ApplyWrites(user, Int1Writes(user, v))[i] else user[i]
  {
    hide MdByte, Any, ActivityOf, SetBit, ApplyWrites;
    var ws, order := Int1Writes(user, v), [0x0D, 0x5E, 0x13, 0x1A, 0x58];
    assert |ws| == 5 && forall j :: 0 <= j < 5 ==> ws[j].0 == order[j];
    StoppedAt(user, ws, order, k, i);
  }

  lemma Int2Order(user: File, v: Int2Route, k: nat, i: nat)
    requires k <= 4 && i < REG_COUNT
    ensures ApplyWrites(user, Int2Writes(user, v)[..k])[i] ==
      if i in [0x0E, 0x5F, 0x0B, 0x58][..k] then ApplyWrites(user, Int2Writes(user, v))[i] else user[i]
  {
    hide MdByte, Any, ActivityOf, SetBit, ApplyWrites;
    var ws, order := Int2Writes(user, v), [0x0E, 0x5F, 0x0B, 0x58];
    assert |ws| == 4 && forall j :: 0 <= j < 4 ==> ws[j].0 == order[j];
    StoppedAt(user, ws, order, k, i);
  }

  lemma StoppedAt(user: File, ws: seq<Write>, order: seq<nat>, k: nat, i: nat)
    requires k <= |ws| == |order| && i < REG_COUNT
    requires forall j :: 0 <= j < |ws| ==> ws[j].0 == order[j]
    requires forall j, l :: 0 <= j < l < |order| ==> order[j] != order[l]
    ensures ApplyWrites(user, ws[..k])[i] == if i in order[..k] then ApplyWrites(user, ws)[i] else user[i]
  {
    hide ApplyWrites;
    if i in order[..k] {
      var j :| 0 <= j < k && order[..k][j] == i;
      ApplyAt(user, ws[..k], j);
      ApplyAt(user, ws, j);
    } else {
      assert forall j :: 0 <= j < k ==> order[..k][j] == ws[j].0;
      ApplyElsewhere(user, ws[..k], i);
    }
  }

  // What the enable bit is worth after a fault stopped a routing call after its k-th write.
  lemma StoppedInt1(user: File, v: Int1Route, k: nat)
    requires k <= 5
    ensures Consistent(ApplyWrites(user, Int1Writes(user, v)[..k])) <==>
      if k < 2 then Consistent(user)
      else k == 5 || (EnableBit(user) <==> Any(v.activity) || Any(ActivityOf(user[MD2_CFG])))
  {
    hide MdByte, Any, ActivityOf, SetBit, ApplyWrites;
    var ws := Int1Writes(user, v);
    if k == 5 {
      assert ws[..5] == ws;
      Int1Consistent(user, v);
    } else {
      ApplyElsewhere(user, ws[..k], MD2_CFG);
      ApplyElsewhere(user, ws[..k], TAP_CFG);
      if k < 2 {
        ApplyElsewhere(user, ws[..k], MD1_CFG);
      } else {
        ApplyAt(user, ws[..k], 1);
        MdActivity(v.timer, v.tilt, v.activity);
        AnyActivity(user[MD2_CFG]);
      }
    }
  }

  lemma StoppedInt2(user: File, v: Int2Route, k: nat)
    requires k <= 4
    ensures Consistent(ApplyWrites(user, Int2Writes(user, v)[..k])) <==>
      if k < 2 then Consistent(user)
      else k == 4 || (EnableBit(user) <==> Any(ActivityOf(user[MD1_CFG])) || Any(v.activity))
  {
    hide MdByte, Any, ActivityOf, SetBit, ApplyWrites;
    var ws := Int2Writes(user, v);
    if k == 4 {
      assert ws[..4] == ws;
      Int2Consistent(user, v);
    } else {
      ApplyElsewhere(user, ws[..k], MD1_CFG);
      ApplyElsewhere(user, ws[..k], TAP_CFG);
      if k < 2 {
        ApplyElsewhere(user, ws[..k], MD2_CFG);
      } else {
        ApplyAt(user, ws[..k], 1);
        MdActivity(v.iron, v.tilt, v.activity);
        AnyActivity(user[MD1_CFG]);
      }
    }
  }

  // A routing call that a fault stops after its k-th write keeps a consistent bit exactly if it had
  // not reached its event register, had finished, or asked for what the bit already said.
  lemma InterruptedInt1(user: File, v: Int1Route, k: nat)
    requires Consistent(user) && k <= 5
    ensures Consistent(ApplyWrites(user, Int1Writes(user, v)[..k])) <==>
      k < 2 || k == 5 || (EnableBit(user) <==> Any(v.activity) || Any(ActivityOf(user[MD2_CFG])))
  {
    hide Consistent, Any, ActivityOf, ApplyWrites, EnableBit, Int1Writes;
    StoppedInt1(user, v, k);
  }

  lemma InterruptedInt2(user: File, v: Int2Route, k: nat)
    requires Consistent(user) && k <= 4
    ensures Consistent(ApplyWrites(user, Int2Writes(user, v)[..k])) <==>
      k < 2 || k == 4 || (EnableBit(user) <==> Any(ActivityOf(user[MD1_CFG])) || Any(v.activity))
  {
    hide Consistent, Any, ActivityOf, ApplyWrites, EnableBit, Int2Writes;
    StoppedInt2(user, v, k);
  }

  // Whatever the fault, the bit stays consistent exactly for calls that ask for what it already says.
  lemma AnyInterruptionInt1(user: File, v: Int1Route)
    requires Consistent(user)
    ensures (forall k: nat :: k <= 5 ==> Consistent(ApplyWrites(user, Int1Writes(user, v)[..k]))) <==>
      (EnableBit(user) <==> Any(v.activity) || Any(ActivityOf(user[MD2_CFG])))
  {
    hide Consistent, Any, ActivityOf, ApplyWrites, EnableBit;
    forall k: nat | k <= 5
      ensures Consistent(ApplyWrites(user, Int1Writes(user, v)[..k])) <==>
        k < 2 || k == 5 || (EnableBit(user) <==> Any(v.activity) || Any(ActivityOf(user[MD2_CFG])))
    {
      InterruptedInt1(user, v, k);
    }
    InterruptedInt1(user, v, 2);
  }

  lemma AnyInterruptionInt2(user: File, v: Int2Route)
    requires Consistent(user)
    ensures (forall k: nat :: k <= 4 ==> Consistent(ApplyWrites(user, Int2Writes(user, v)[..k]))) <==>
      (EnableBit(user) <==> Any(ActivityOf(user[MD1_CFG])) || Any(v.activity))
  {
    hide Consistent, Any, ActivityOf, ApplyWrites, EnableBit;
    forall k: nat | k <= 4
      ensures Consistent(ApplyWrites(user, Int2Writes(user, v)[..k])) <==>
        k < 2 || k == 4 || (EnableBit(user) <==> Any(ActivityOf(user[MD1_CFG])) || Any(v.activity))
    {
      InterruptedInt2(user, v, k);
    }
    InterruptedInt2(user, v, 2);
  }

  lemma Routed1(r: Regs, v: Int1Route)
    ensures BankOf(r) == User ==>
      var r' := Replace(r, ApplyWrites(Current(r), Int1Writes(Current(r), v)));
      RoutedInt1(r.user, r'.user, v) && r'.bankA == r.bankA && r'.bankB == r.bankB
  {
    hide SelectedBank, RoutedInt1, ApplyWrites, Int1Writes;
    Int1Routed(r.user, v);
  }

  lemma Routed2(r: Regs, v: Int2Route)
    ensures BankOf(r) == User ==>
      var r' := Replace(r, ApplyWrites(Current(r), Int2Writes(Current(r), v)));
      RoutedInt2(r.user, r'.user, v) && r'.bankA == r.bankA && r'.bankB == r.bankB
  {
    hide SelectedBank, RoutedInt2, ApplyWrites, Int2Writes;
    Int2Routed(r.user, v);
  }

  // MASTER_CONFIG.drdy_on_int1 is documented to follow the route's drdy_on_int1 field; it follows
  // den_drdy_int1, so the two agree exactly if the caller set both alike.
  lemma DrdyOnInt1(user: File, v: Int1Route)
    ensures (ApplyWrites(user, Int1Writes(user, v))[MASTER_CONFIG] & 0x80 != 0) == v.drdyOnInt1
      <==> v.denDrdyInt1 == v.drdyOnInt1
  {
    hide MdByte, Any, ActivityOf;
    ApplyAt(user, Int1Writes(user, v), 3);
    SetBitSets(user[MASTER_CONFIG], v.denDrdyInt1);
  }

  // The other fields of TAP_CFG.
  datatype TapField = Lir | TapZEn | TapYEn | TapXEn | SlopeFds | InactEn

  function TapMask(f: TapField): byte {
    match f
    case Lir => 0x01
    case TapZEn => 0x02
    case TapYEn => 0x04
    case TapXEn => 0x08
    case SlopeFds => 0x10
    case InactEn => 0x60
  }

  // The field's bits of a value, in place.
  function TapBits(f: TapField, val: byte): byte {
    match f
    case Lir => val & 0x01
    case TapZEn => (val << 1) & 0x02
    case TapYEn => (val << 2) & 0x04
    case TapXEn => (val << 3) & 0x08
    case SlopeFds => (val << 4) & 0x10
    case InactEn => (val << 5) & 0x60
  }

  function SetTapField(r: byte, f: TapField, val: byte): byte {
    (r & !TapMask(f)) | TapBits(f, val)
  }

  lemma TapFieldKeepsEnable(r: byte, f: TapField, val: byte)
    ensures SetTapField(r, f, val) & 0x80 == r & 0x80
  {
  }

  // Each field of TAP_CFG reads back from its own bits, cut to its width, and the others are kept.
  lemma TapFieldReadsBack(r: byte, f: TapField, val: byte)
    ensures var r' := SetTapField(r, f, val);
      match f
      case Lir => r' & 0x01 == val & 0x01 && r' & 0xFE == r & 0xFE
      case TapZEn => (r' >> 1) & 0x01 == val & 0x01 && r' & 0xFD == r & 0xFD
      case TapYEn => (r' >> 2) & 0x01 == val & 0x01 && r' & 0xFB == r & 0xFB
      case TapXEn => (r' >> 3) & 0x01 == val & 0x01 && r' & 0xF7 == r & 0xF7
      case SlopeFds => (r' >> 4) & 0x01 == val & 0x01 && r' & 0xEF == r & 0xEF
      case InactEn => (r' >> 5) & 0x03 == val & 0x03 && r' & 0x9F == r & 0x9F
  {
    match f
    case Lir =>
    case TapZEn =>
    case TapYEn =>
    case TapXEn =>
    case SlopeFds =>
    case InactEn =>
  }

  // ---- Banked registers ----

  // Fields of single registers of bank A.
  datatype BankedField =
    | ThsMin | PedoFs | DebStep | DebTime
    | AuxSensOn | Slave0Rate | WriteOnce | Slave1Rate | Slave2Rate | Slave3Rate

  function FieldReg(f: BankedField): nat {
    match f
    case ThsMin | PedoFs => 0x0F
    case DebStep | DebTime => PEDO_DEB_REG
    case AuxSensOn | Slave0Rate => 0x04
    case WriteOnce | Slave1Rate => 0x07
    case Slave2Rate => 0x0A
    case Slave3Rate => 0x0D
  }

  function FieldMask(f: BankedField): byte {
    match f
    case ThsMin => 0x1F
    case PedoFs => 0x80
    case DebStep => 0x07
    case DebTime => 0xF8
    case AuxSensOn => 0x30
    case WriteOnce => 0x20
    case Slave0Rate | Slave1Rate | Slave2Rate | Slave3Rate => 0xC0
  }

  function FieldBits(f: BankedField, val: byte): byte {
    match f
    case ThsMin => val & 0x1F
    case PedoFs => (val << 7) & 0x80
    case DebStep => val & 0x07
    case DebTime => (val << 3) & 0xF8
    case AuxSensOn => (val << 4) & 0x30
    case WriteOnce => (val << 5) & 0x20
    case Slave0Rate | Slave1Rate | Slave2Rate | Slave3Rate => (val << 6) & 0xC0
  }

  function SetBankedField(r: byte, f: BankedField, val: byte): byte {
    (r & !FieldMask(f)) | FieldBits(f, val)
  }

  // A field's value, and the widest value it can hold.
  function FieldOf(r: byte, f: BankedField): byte {
    match f
    case ThsMin => r & 0x1F
    case PedoFs => (r & 0x80) >> 7
    case DebStep => r & 0x07
    case DebTime => (r & 0xF8) >> 3
    case AuxSensOn => (r & 0x30) >> 4
    case WriteOnce => (r & 0x20) >> 5
    case Slave0Rate | Slave1Rate | Slave2Rate | Slave3Rate => (r & 0xC0) >> 6
  }

  function FieldMax(f: BankedField): byte {
    match f
    case ThsMin | DebTime => 0x1F
    case DebStep => 0x07
    case PedoFs | WriteOnce => 0x01
    case AuxSensOn | Slave0Rate | Slave1Rate | Slave2Rate | Slave3Rate => 0x03
  }

  // A field that was set reads back, cut to its width.
  lemma FieldReadsBack(r: byte, f: BankedField, val: byte)
    ensures FieldOf(SetBankedField(r, f, val), f) == val & FieldMax(f)
  {
    hide FieldOf, FieldMax, SetBankedField;
    if f.ThsMin? || f.DebStep? {
      LowFieldReadsBack(r, f, val);
    } else if f.PedoFs? || f.DebTime? {
      PedoFieldReadsBack(r, f, val);
    } else if f.AuxSensOn? || f.WriteOnce? {
      HubFieldReadsBack(r, f, val);
    } else {
      RateReadsBack(r, f, val);
    }
  }

  lemma LowFieldReadsBack(r: byte, f: BankedField, val: byte)
    requires f.ThsMin? || f.DebStep?
    ensures FieldOf(SetBankedField(r, f, val), f) == val & FieldMax(f)
  {
  }

  lemma PedoFieldReadsBack(r: byte, f: BankedField, val: byte)
    requires f.PedoFs? || f.DebTime?
    ensures FieldOf(SetBankedField(r, f, val), f) == val & FieldMax(f)
  {
  }

  lemma HubFieldReadsBack(r: byte, f: BankedField, val: byte)
    requires f.AuxSensOn? || f.WriteOnce?
    ensures FieldOf(SetBankedField(r, f, val), f) == val & FieldMax(f)
  {
  }

  lemma RateReadsBack(r: byte, f: BankedField, val: byte)
    requires f.Slave0Rate? || f.Slave1Rate? || f.Slave2Rate? || f.Slave3Rate?
    ensures FieldOf(SetBankedField(r, f, val), f) == val & FieldMax(f)
  {
  }

  // Where each field lies in bank A: its register and bits; the register's other bits are kept.
  lemma FieldLayout(r: byte, f: BankedField, val: byte)
    ensures var b := SetBankedField(r, f, val);
      match f
      case ThsMin => FieldReg(f) == 0x0F && b & 0x1F == val & 0x1F && b & 0xE0 == r & 0xE0
      case PedoFs => FieldReg(f) == 0x0F && b >> 7 == val & 0x01 && b & 0x7F == r & 0x7F
      case DebStep => FieldReg(f) == 0x14 && b & 0x07 == val & 0x07 && b & 0xF8 == r & 0xF8
      case DebTime => FieldReg(f) == 0x14 && b >> 3 == val & 0x1F && b & 0x07 == r & 0x07
      case AuxSensOn => FieldReg(f) == 0x04 && (b >> 4) & 0x03 == val & 0x03 && b & 0xCF == r & 0xCF
      case Slave0Rate => FieldReg(f) == 0x04 && b >> 6 == val & 0x03 && b & 0x3F == r & 0x3F
      case WriteOnce => FieldReg(f) == 0x07 && (b >> 5) & 0x01 == val & 0x01 && b & 0xDF == r & 0xDF
      case Slave1Rate => FieldReg(f) == 0x07 && b >> 6 == val & 0x03 && b & 0x3F == r & 0x3F
      case Slave2Rate => FieldReg(f) == 0x0A && b >> 6 == val & 0x03 && b & 0x3F == r & 0x3F
      case Slave3Rate => FieldReg(f) == 0x0D && b >> 6 == val & 0x03 && b & 0x3F == r & 0x3F
  {
    match f
    case ThsMin =>
    case PedoFs =>
    case DebStep =>
    case DebTime =>
    case AuxSensOn =>
    case WriteOnce =>
    case _ =>
  }

  // Setting a field keeps the others of its register.
  lemma OtherFieldsKept(r: byte, f: BankedField, g: BankedField, val: byte)
    requires g != f && FieldReg(g) == FieldReg(f)
    ensures FieldOf(SetBankedField(r, f, val), g) == FieldOf(r, g)
  {
    OtherBitsKept(r, FieldMask(f), FieldMask(g), FieldBits(f, val));
  }

  lemma OtherBitsKept(r: byte, mask: byte, other: byte, bits: byte)
    requires mask & other == 0 && bits & !mask == 0
    ensures ((r & !mask) | bits) & other == r & other
  {
  }

  // Whole registers, or runs of them, that are written and read as raw bytes.
  datatype BankedBlock =
    StepPeriod | MotionThreshold | SoftIron | MagOffset | TiltLatency | TiltThreshold | TiltMask

  function BlockBank(b: BankedBlock): Bank {
    if b.TiltLatency? || b.TiltThreshold? || b.TiltMask? then B else A
  }

  function BlockReg(b: BankedBlock): nat {
    match b
    case StepPeriod => 0x15
    case MotionThreshold => 0x13
    case SoftIron => 0x24
    case MagOffset => 0x2D
    case TiltLatency => 0x50
    case TiltThreshold => 0x54
    case TiltMask => A_WRIST_TILT_MASK
  }

  function BlockLen(b: BankedBlock): nat {
    match b
    case SoftIron => 9
    case MagOffset => 6
    case _ => 1
  }

  function AccessByte(access: byte, bank: Bank): byte {
    (access & 0x1F) | (match bank case User => 0x00 case A => 0x80 case B => 0xA0)
  }

  lemma AccessLayout(access: byte, bank: Bank)
    ensures AccessByte(access, bank) & 0xE0 == match bank case User => 0x00 case A => 0x80 case B => 0xA0
    ensures AccessByte(access, bank) & 0x1F == access & 0x1F
  {
    match bank
    case User =>
    case A =>
    case B =>
  }

  // The registers after the bank was selected.
  function WithBank(r: Regs, bank: Bank): Regs {
    r.(user := r.user[FUNC_CFG_ACCESS := AccessByte(r.user[FUNC_CFG_ACCESS], bank)])
  }

  lemma OverwriteReadsBack(f: File, reg: nat, data: seq<byte>, i: nat)
    requires reg + |data| <= REG_COUNT && i < REG_COUNT
    ensures Overwrite(f, reg, data)[reg..reg + |data|] == data
    ensures Overwrite(f, reg, data)[i] == if reg <= i < reg + |data| then data[i - reg] else f[i]
  {
    var g := Overwrite(f, reg, data);
    assert f[..reg] + data == g[..reg + |data|];
  }

  lemma SelectsBank(r: Regs, bank: Bank)
    ensures BankOf(WithBank(r, bank)) == bank
    ensures WithBank(WithBank(r, bank), User) == WithBank(r, User)
  {
    var access := r.user[FUNC_CFG_ACCESS];
    assert AccessByte(access, A) & 0xE0 == 0x80;
    assert AccessByte(access, B) & 0xE0 == 0xA0;
    assert AccessByte(access, User) & 0xE0 == 0x00;
    assert AccessByte(AccessByte(access, bank), User) == AccessByte(access, User);
  }

  // A banked call after k of its writes took effect: it selects its bank, makes its writes there and
  // selects the user bank.
  function Partly(r: Regs, bank: Bank, ws: seq<Write>, k: nat): Regs
    requires k <= |ws| + 2
  {
    var there := WithBank(r, bank);
    if k == 0 then r
    else if k <= |ws| + 1 then Replace(there, ApplyWrites(Current(there), ws[..k - 1]))
    else WithBank(Replace(there, ApplyWrites(Current(there), ws)), User)
  }

  // Which bank is selected then, and that the user registers are kept, wherever a fault stops it.
  lemma PartlyBank(r: Regs, bank: Bank, ws: seq<Write>, k: nat)
    requires k <= |ws| + 2 && bank != User
    ensures BankOf(Partly(r, bank, ws, k)) == if k == 0 then BankOf(r) else if k <= |ws| + 1 then bank else User
    ensures UserBankKept(r, Partly(r, bank, ws, k))
  {
    hide SelectedBank, AccessByte, ApplyWrites;
    SelectsBank(r, bank);
    if 0 < k <= |ws| + 1 {
      WritesKeepBank(WithBank(r, bank), ws[..k - 1]);
    } else if k > 0 {
      SelectsBank(Replace(WithBank(r, bank), ApplyWrites(Current(WithBank(r, bank)), ws)), User);
    }
  }

  // A fault leaves the user bank selected exactly if it came before the first write took effect or
  // after the last.
  lemma StrandedIff(r: Regs, bank: Bank, ws: seq<Write>, k: nat)
    requires k <= |ws| + 2 && bank != User && BankOf(r) == User
    ensures BankOf(Partly(r, bank, ws, k)) == User <==> k == 0 || k == |ws| + 2
  {
    PartlyBank(r, bank, ws, k);
  }

  // What a call leaves of the banks: its writes in its own, nothing in the other.
  lemma PartlyBanks(r: Regs, bank: Bank, ws: seq<Write>, k: nat)
    requires k <= |ws| + 2 && bank != User
    ensures var done := if k == 0 then [] else if k <= |ws| + 1 then ws[..k - 1] else ws;
      && Partly(r, bank, ws, k).bankA == (if bank == A then ApplyWrites(r.bankA, done) else r.bankA)
      && Partly(r, bank, ws, k).bankB == (if bank == B then ApplyWrites(r.bankB, done) else r.bankB)
    ensures k == |ws| + 2 ==> Partly(r, bank, ws, k).user == WithBank(r, User).user
  {
    hide SelectedBank, AccessByte;
    SelectsBank(r, bank);
  }

  // A run of registers, one write each.
  function BlockWrites(reg: nat, data: seq<byte>): (ws: seq<Write>)
    requires FUNC_CFG_ACCESS < reg && reg + |data| <= REG_COUNT
    ensures |ws| == |data| && forall i :: 0 <= i < |ws| ==> ws[i] == (reg + i, data[i])
  {
    seq(|data|, i requires 0 <= i < |data| => (reg + i, data[i]))
  }

  lemma {:induction false} OverwriteIsWrites(f: File, reg: nat, data: seq<byte>)
    requires FUNC_CFG_ACCESS < reg && reg + |data| <= REG_COUNT
    ensures Overwrite(f, reg, data) == ApplyWrites(f, BlockWrites(reg, data))
    decreases |data|
  {
    if data == [] {
      assert Overwrite(f, reg, data) == f;
    } else {
      var n := |data| - 1;
      OverwriteIsWrites(f, reg, data[..n]);
      assert BlockWrites(reg, data)[..n] == BlockWrites(reg, data[..n]);
      assert Overwrite(f, reg, data) == Overwrite(f, reg, data[..n])[reg + n := data[n]];
    }
  }

  lemma StoredIsWrites(r: Regs, reg: nat, data: seq<byte>)
    requires FUNC_CFG_ACCESS < reg && reg + |data| <= REG_COUNT
    ensures Stored(r, reg, data) == Replace(r, ApplyWrites(Current(r), BlockWrites(reg, data)))
  {
    hide Overwrite, ApplyWrites, SelectedBank;
    OverwriteIsWrites(Current(r), reg, data);
  }

  // ---- The driver ----

  // A device behind a bus on which every access may fail; a failed write may have reached any
  // number of its registers.
  class Imu {
    var regs: Regs
    ghost var faults: nat    // bus accesses that failed

    constructor (reset: Regs)
      ensures regs == reset && faults == 0
    {
      regs, faults := reset, 0;
    }

    method ReadReg(reg: nat, len: nat) returns (ret: int, data: seq<byte>)
      requires reg + len <= REG_COUNT
      modifies this`faults
      ensures faults == old(faults) + if ret == 0 then 0 else 1
      ensures |data| == len
      ensures ret == 0 ==> data == Visible(regs)[reg..reg + len]
    {
      ret := *;
      if ret == 0 {
        data := Visible(regs)[reg..reg + len];
      } else {
        faults := faults + 1;
        assert |seq(len, i => 0 as byte)| == len;
        data :| |data| == len;
      }
    }

    method WriteReg(reg: nat, data: seq<byte>) returns (ret: int, ghost k: nat)
      requires FUNC_CFG_ACCESS <= reg && reg + |data| <= REG_COUNT
      modifies this
      ensures faults == old(faults) + if ret == 0 then 0 else 1
      ensures k <= |data| && (ret == 0 ==> k == |data|)
      ensures regs == Stored(old(regs), reg, data[..k])
    {
      ret := *;
      var taken: nat := |data|;
      if ret != 0 {
        faults := faults + 1;
        assert 0 <= |data|;
        taken :| 0 <= taken <= |data|;
      }
      k := taken;
      regs := Stored(regs, reg, data[..taken]);
    }

    method ReadOne(reg: nat) returns (ret: int, b: byte)
      requires reg < REG_COUNT
      modifies this`faults
      ensures faults == old(faults) + if ret == 0 then 0 else 1
      ensures ret == 0 ==> b == Visible(regs)[reg]
    {
      var data;
      ret, data := ReadReg(reg, 1);
      b := data[0];
    }

    method WriteOne(reg: nat, b: byte) returns (ret: int)
      requires FUNC_CFG_ACCESS <= reg < REG_COUNT
      modifies this
      ensures faults == old(faults) + if ret == 0 then 0 else 1
      ensures ret == 0 ==> regs == Put(old(regs), reg, b)
      ensures regs == old(regs) || regs == Put(old(regs), reg, b)
    {
      ghost var k;
      ret, k := WriteReg(reg, [b]);
      StoredOne(old(regs), reg, b);
      assert [b][..1] == [b] && [b][..0] == [];
    }

    // Routes signals to the first interrupt pin, in whatever bank is selected. `k` counts the
    // register writes that took effect.
    method PinInt1RouteSet(v: Int1Route) returns (ret: int, ghost k: nat)
      modifies this
      ensures faults == old(faults) + if ret == 0 then 0 else 1
      ensures k <= 5 && (ret == 0 ==> k == 5)
      ensures regs == Replace(old(regs), ApplyWrites(Current(old(regs)), Int1Writes(Current(old(regs)), v)[..k]))
      ensures ret == 0 && BankOf(old(regs)) == User ==>
        RoutedInt1(old(regs).user, regs.user, v) && regs.bankA == old(regs).bankA && regs.bankB == old(regs).bankB
    {
      ghost var r, ws := regs, Int1Writes(Current(regs), v);
      k := 0;
      assert regs == Replace(r, ApplyWrites(Current(r), ws[..0]));
      hide MdByte, Any, ActivityOf, SetBit, ApplyWrites, BankOf, Current, Replace, RoutedInt1;
      var int1Ctrl, md1, md2: byte := 0, 0, 0;
      ret, int1Ctrl := ReadCurrent(INT1_CTRL, r, ws, 0);
      if ret == 0 {
        int1Ctrl := v.ctrl;
        ret, k := WriteCurrent(INT1_CTRL, int1Ctrl, r, ws, 0);
      }
      if ret == 0 {
        ret, md1 := ReadCurrent(MD1_CFG, r, ws, 1);
      }
      if ret == 0 {
        ret, md2 := ReadCurrent(MD2_CFG, r, ws, 1);
      }
      if ret == 0 {
        md1 := MdByte(v.timer, v.tilt, v.activity);
        ret, k := WriteCurrent(MD1_CFG, md1, r, ws, 1);
      }
      if ret == 0 {
        ret, k := Int1Bits(v, Any(v.activity) || Any(ActivityOf(md2)), r, ws);
      }
      if ret == 0 {
        assert ws[..5] == ws;
        Routed1(r, v);
      }
    }

    // The last three writes of the first pin's routing, each a single bit.
    method Int1Bits(v: Int1Route, any: bool, ghost r: Regs, ghost ws: seq<Write>) returns (ret: int, ghost k: nat)
      requires ws == Int1Writes(Current(r), v) && any == (Any(v.activity) || Any(ActivityOf(Current(r)[MD2_CFG])))
      requires regs == Replace(r, ApplyWrites(Current(r), ws[..2]))
      modifies this
      ensures faults == old(faults) + if ret == 0 then 0 else 1
      ensures 2 <= k <= 5 && (ret == 0 ==> k == 5)
      ensures regs == Replace(r, ApplyWrites(Current(r), ws[..k]))
    {
      hide MdByte, Any, ActivityOf, SetBit, ApplyWrites, BankOf, Current, Replace;
      ret, k := ModifyBit(CTRL4_C, 0x10, v.denDrdyInt1, r, ws, 2);
      if ret == 0 {
        ret, k := ModifyBit(MASTER_CONFIG, 0x80, v.denDrdyInt1, r, ws, 3);
      }
      if ret == 0 {
        ret, k := ModifyBit(TAP_CFG, 0x80, any, r, ws, 4);
      }
    }

    // Routes signals to the second interrupt pin.
    method PinInt2RouteSet(v: Int2Route) returns (ret: int, ghost k: nat)
      modifies this
      ensures faults == old(faults) + if ret == 0 then 0 else 1
      ensures k <= 4 && (ret == 0 ==> k == 4)
      ensures regs == Replace(old(regs), ApplyWrites(Current(old(regs)), Int2Writes(Current(old(regs)), v)[..k]))
      ensures ret == 0 && BankOf(old(regs)) == User ==>
        RoutedInt2(old(regs).user, regs.user, v) && regs.bankA == old(regs).bankA && regs.bankB == old(regs).bankB
    {
      ghost var r, ws := regs, Int2Writes(Current(regs), v);
      k := 0;
      assert regs == Replace(r, ApplyWrites(Current(r), ws[..0]));
      hide MdByte, Any, ActivityOf, SetBit, ApplyWrites, BankOf, Current, Replace, RoutedInt2;
      var int2Ctrl, md1, md2: byte := 0, 0, 0;
      ret, int2Ctrl := ReadCurrent(INT2_CTRL, r, ws, 0);
      if ret == 0 {
        int2Ctrl := v.ctrl;
        ret, k := WriteCurrent(INT2_CTRL, int2Ctrl, r, ws, 0);
      }
      if ret == 0 {
        ret, md1 := ReadCurrent(MD1_CFG, r, ws, 1);
      }
      if ret == 0 {
        ret, md2 := ReadCurrent(MD2_CFG, r, ws, 1);
      }
      if ret == 0 {
        md2 := MdByte(v.iron, v.tilt, v.activity);
        ret, k := WriteCurrent(MD2_CFG, md2, r, ws, 1);
      }
      if ret == 0 {
        ret, k := Int2Bits(v, Any(ActivityOf(md1)) || Any(v.activity), r, ws);
      }
      if ret == 0 {
        assert ws[..4] == ws;
        Routed2(r, v);
      }
    }

    method Int2Bits(v: Int2Route, any: bool, ghost r: Regs, ghost ws: seq<Write>) returns (ret: int, ghost k: nat)
      requires ws == Int2Writes(Current(r), v) && any == (Any(ActivityOf(Current(r)[MD1_CFG])) || Any(v.activity))
      requires regs == Replace(r, ApplyWrites(Current(r), ws[..2]))
      modifies this
      ensures faults == old(faults) + if ret == 0 then 0 else 1
      ensures 2 <= k <= 4 && (ret == 0 ==> k == 4)
      ensures regs == Replace(r, ApplyWrites(Current(r), ws[..k]))
    {
      hide MdByte, Any, ActivityOf, SetBit, ApplyWrites, BankOf, Current, Replace;
      ret, k := ModifyBit(DRDY_PULSE_CFG_G, 0x01, v.wristTilt, r, ws, 2);
      if ret == 0 {
        ret, k := ModifyBit(TAP_CFG, 0x80, any, r, ws, 3);
      }
    }

    // One register read of a setter that has made its first n writes, none to this register.
    method ReadCurrent(reg: nat, ghost r: Regs, ghost ws: seq<Write>, ghost n: nat) returns (ret: int, b: byte)
      requires n <= |ws| && FUNC_CFG_ACCESS < reg < REG_COUNT
      requires forall i :: 0 <= i < n ==> ws[i].0 != reg
      requires regs == Replace(r, ApplyWrites(Current(r), ws[..n]))
      modifies this`faults
      ensures faults == old(faults) + if ret == 0 then 0 else 1
      ensures ret == 0 ==> b == Current(r)[reg]
    {
      hide BankOf, Current, Replace, ApplyWrites;
      WritesKeepBank(r, ws[..n]);
      PutInCurrent(regs, reg, 0);
      ApplyElsewhere(Current(r), ws[..n], reg);
      ret, b := ReadOne(reg);
    }

    // One register write of a setter that has made its first n writes.
    method WriteCurrent(reg: nat, b: byte, ghost r: Regs, ghost ws: seq<Write>, ghost n: nat) returns (ret: int, ghost k: nat)
      requires n < |ws| && ws[n] == (reg, b)
      requires regs == Replace(r, ApplyWrites(Current(r), ws[..n]))
      modifies this
      ensures faults == old(faults) + if ret == 0 then 0 else 1
      ensures n <= k <= n + 1 && (ret == 0 ==> k == n + 1)
      ensures regs == Replace(r, ApplyWrites(Current(r), ws[..k]))
    {
      hide BankOf, Current, ApplyWrites;
      WritesKeepBank(r, ws[..n]);
      PutInCurrent(regs, reg, b);
      ApplyNext(Current(r), ws, n);
      ret := WriteOne(reg, b);
      k := if regs == old(regs) && ret != 0 then n else n + 1;
    }

    // Sets or clears one bit of a register, as a setter's write number n.
    method ModifyBit(reg: nat, mask: byte, on: bool, ghost r: Regs, ghost ws: seq<Write>, ghost n: nat)
      returns (ret: int, ghost k: nat)
      requires FUNC_CFG_ACCESS < reg < REG_COUNT
      requires n < |ws| && ws[n] == (reg, SetBit(Current(r)[reg], mask, on))
      requires forall i :: 0 <= i < n ==> ws[i].0 != reg
      requires regs == Replace(r, ApplyWrites(Current(r), ws[..n]))
      modifies this
      ensures faults == old(faults) + if ret == 0 then 0 else 1
      ensures n <= k <= n + 1 && (ret == 0 ==> k == n + 1)
      ensures regs == Replace(r, ApplyWrites(Current(r), ws[..k]))
    {
      hide SetBit, BankOf, Current, Replace, ApplyWrites;
      var b;
      k := n;
      ret, b := ReadCurrent(reg, r, ws, n);
      if ret == 0 {
        b := SetBit(b, mask, on);
        ret, k := WriteCurrent(reg, b, r, ws, n);
      }
    }

    // The setters of the other TAP_CFG fields.
    method TapFieldSet(f: TapField, val: byte) returns (ret: int, ghost k: nat)
      modifies this
      ensures faults == old(faults) + if ret == 0 then 0 else 1
      ensures k <= 1 && (ret == 0 ==> k == 1)
      ensures regs ==
        if k == 0 then old(regs)
        else Replace(old(regs), Current(old(regs))[TAP_CFG := SetTapField(Current(old(regs))[TAP_CFG], f, val)])
    {
      hide SetTapField, SelectedBank;
      var tap;
      k := 0;
      ret, tap := ReadOne(TAP_CFG);
      if ret == 0 {
        tap := SetTapField(tap, f, val);
        ret := WriteOne(TAP_CFG, tap);
        k := if ret != 0 && regs == old(regs) then 0 else 1;
      }
    }

    method MemBankSet(bank: Bank) returns (ret: int)
      modifies this
      ensures faults == old(faults) + if ret == 0 then 0 else 1
      ensures regs == old(regs) || regs == WithBank(old(regs), bank)
      ensures ret == 0 ==>
        && regs.user[0x01] & 0xE0 == (match bank case User => 0x00 case A => 0x80 case B => 0xA0)
        && regs.user[0x01] & 0x1F == old(regs).user[0x01] & 0x1F
        && regs == old(regs).(user := old(regs).user[0x01 := regs.user[0x01]])
      ensures ret == 0 ==> regs == WithBank(old(regs), bank)
    {
      AccessLayout(regs.user[FUNC_CFG_ACCESS], bank);
      hide AccessByte;
      var access;
      ret, access := ReadOne(FUNC_CFG_ACCESS);
      if ret == 0 {
        access := AccessByte(access, bank);
        ret := WriteOne(FUNC_CFG_ACCESS, access);
      }
    }

    // The first step of a banked call.
    method EnterBank(bank: Bank, ghost ws: seq<Write>) returns (ret: int, ghost k: nat)
      requires bank != User
      modifies this
      ensures faults == old(faults) + if ret == 0 then 0 else 1
      ensures k <= 1 && (ret == 0 ==> k == 1)
      ensures regs == Partly(old(regs), bank, ws, k)
      ensures k == 1 ==> regs == WithBank(old(regs), bank) == Replace(regs, ApplyWrites(Current(regs), ws[..0]))
    {
      hide AccessByte, SelectedBank;
      ret := MemBankSet(bank);
      k := if ret != 0 && regs == old(regs) then 0 else 1;
    }

    // The last step.
    method LeaveBank(bank: Bank, ghost r: Regs, ghost ws: seq<Write>) returns (ret: int, ghost k: nat)
      requires bank != User
      requires regs == Replace(WithBank(r, bank), ApplyWrites(Current(WithBank(r, bank)), ws))
      modifies this
      ensures faults == old(faults) + if ret == 0 then 0 else 1
      ensures |ws| + 1 <= k <= |ws| + 2 && (ret == 0 ==> k == |ws| + 2)
      ensures regs == Partly(r, bank, ws, k)
    {
      hide WithBank, Replace, Current, ApplyWrites;
      assert ws[..|ws|] == ws;
      ret := MemBankSet(User);
      k := if ret != 0 && regs == old(regs) then |ws| + 1 else |ws| + 2;
    }

    // Read-modify-write setters of bank A fields.
    method BankedFieldSet(f: BankedField, val: byte) returns (ret: int, ghost k: nat)
      modifies this
      ensures faults == old(faults) + if ret == 0 then 0 else 1
      ensures k <= 3 && (ret == 0 ==> k == 3)
      ensures regs == Partly(old(regs), A, FieldWrites(old(regs), f, val), k)
      ensures UserBankKept(old(regs), regs)
      ensures ret == 0 ==> regs == After(old(regs), SetField(f, val))
    {
      hide SetBankedField, BankOf, Current, Replace, ApplyWrites, WithBank;
      ghost var r, ws := regs, FieldWrites(regs, f, val);
      CurrentA(r);
      ret, k := EnterBank(A, ws);
      if ret == 0 {
        ghost var n: nat, there := 0, regs;
        var b;
        ret, b := ReadCurrent(FieldReg(f), there, ws, 0);
        if ret == 0 {
          b := SetBankedField(b, f, val);
          ret, n := WriteCurrent(FieldReg(f), b, there, ws, 0);
          k := n + 1;
          if ret == 0 {
            assert ws[..1] == ws;
            ret, k := LeaveBank(A, r, ws);
          }
        }
      }
      PartlyBank(r, A, FieldWrites(r, f, val), k);
      BankedAfter(r, SetField(f, val));
    }

    // Getters of the same fields.
    method BankedFieldGet(f: BankedField) returns (ret: int, val: byte, ghost k: nat)
      modifies this
      ensures faults == old(faults) + if ret == 0 then 0 else 1
      ensures k <= 2 && (ret == 0 ==> k == 2)
      ensures regs == Partly(old(regs), A, [], k)
      ensures ret == 0 ==> val == FieldOf(old(regs).bankA[FieldReg(f)], f)
      ensures UserBankKept(old(regs), regs)
      ensures ret == 0 ==> regs == After(old(regs), GetField(f))
    {
      hide FieldOf, BankOf, Current, Replace, ApplyWrites, WithBank;
      val := 0;
      ghost var r := regs;
      CurrentA(r);
      ret, k := EnterBank(A, []);
      if ret == 0 {
        var b;
        ret, b := ReadCurrent(FieldReg(f), regs, [], 0);
        if ret == 0 {
          val := FieldOf(b, f);
          ret, k := LeaveBank(A, r, []);
        }
      }
      PartlyBank(r, A, [], k);
      BankedAfter(r, GetField(f));
    }

    // Setters that write raw registers of bank A or B.
    method BankedBlockSet(block: BankedBlock, data: seq<byte>) returns (ret: int, ghost k: nat)
      requires |data| == BlockLen(block)
      modifies this
      ensures faults == old(faults) + if ret == 0 then 0 else 1
      ensures k <= |data| + 2 && (ret == 0 ==> k == |data| + 2)
      ensures regs == Partly(old(regs), BlockBank(block), BlockWrites(BlockReg(block), data), k)
      ensures UserBankKept(old(regs), regs)
      ensures ret == 0 ==> regs == After(old(regs), SetBlock(block, data))
    {
      hide BankOf, Current, Replace, ApplyWrites, WithBank, Stored;
      ghost var r, ws := regs, BlockWrites(BlockReg(block), data);
      ret, k := EnterBank(BlockBank(block), ws);
      if ret == 0 {
        ghost var there := regs;
        ghost var n;
        ret, n := WriteReg(BlockReg(block), data);
        StoredIsWrites(there, BlockReg(block), data[..n]);
        assert BlockWrites(BlockReg(block), data[..n]) == ws[..n];
        k := n + 1;
        if ret == 0 {
          assert ws[..n] == ws;
          ret, k := LeaveBank(BlockBank(block), r, ws);
        }
      }
      PartlyBank(r, BlockBank(block), ws, k);
      BankedAfter(r, SetBlock(block, data));
    }

    // Getters of the same registers.
    method BankedBlockGet(block: BankedBlock) returns (ret: int, data: seq<byte>, ghost k: nat)
      modifies this
      ensures faults == old(faults) + if ret == 0 then 0 else 1
      ensures k <= 2 && (ret == 0 ==> k == 2)
      ensures regs == Partly(old(regs), BlockBank(block), [], k)
      ensures ret == 0 ==>
        var file := if BlockBank(block) == A then old(regs).bankA else old(regs).bankB;
        data == file[BlockReg(block)..BlockReg(block) + BlockLen(block)]
      ensures UserBankKept(old(regs), regs)
      ensures ret == 0 ==> regs == After(old(regs), GetBlock(block))
    {
      hide AccessByte, SelectedBank;
      data := [];
      ghost var r := regs;
      SelectsBank(regs, BlockBank(block));
      ret, k := EnterBank(BlockBank(block), []);
      if ret == 0 {
        ret, data := ReadReg(BlockReg(block), BlockLen(block));
        if ret == 0 {
          ret, k := LeaveBank(BlockBank(block), r, []);
        }
      }
      PartlyBank(r, BlockBank(block), [], k);
      BankedAfter(r, GetBlock(block));
    }

    // all_sources_get: seven source registers of the bank that happens to be selected, and the tilt
    // mask of bank B.
    method AllSourcesGet() returns (ret: int, data: seq<byte>, ghost k: nat)
      modifies this
      ensures faults == old(faults) + if ret == 0 then 0 else 1
      ensures k <= 2 && (ret == 0 ==> k == 2)
      ensures regs == Partly(old(regs), B, [], k)
      ensures ret == 0 ==>
        var file := Current(old(regs));
        data == [file[0x1B], file[0x1C], file[0x1D], file[0x1E], file[0x53], file[0x54], file[0x55],
                 old(regs).bankB[A_WRIST_TILT_MASK]]
      ensures UserBankKept(old(regs), regs)
      ensures ret == 0 ==> regs == After(old(regs), GetSources)
    {
      hide BankOf, Current, Replace, ApplyWrites, WithBank, Visible;
      ghost var r := regs;
      CurrentB(r);
      data, k := [], 0;
      var sources := [0x1B, 0x1C, 0x1D, 0x1E, 0x53, 0x54, 0x55];
      ret := 0;
      var i := 0;
      while i < |sources| && ret == 0
        invariant 0 <= i <= |sources| && regs == r && faults == old(faults) + if ret == 0 then 0 else 1
        invariant ret == 0 ==> |data| == i && forall j :: 0 <= j < i ==> data[j] == Current(r)[sources[j]]
      {
        var b;
        PutInCurrent(regs, sources[i], 0);
        ret, b := ReadOne(sources[i]);
        data := data + [b];
        i := i + 1;
      }
      if ret == 0 {
        ret, k := EnterBank(B, []);
      }
      if ret == 0 {
        var mask;
        ret, mask := ReadCurrent(A_WRIST_TILT_MASK, regs, [], 0);
        data := data + [mask];
      }
      if ret == 0 {
        ret, k := LeaveBank(B, r, []);
      }
      PartlyBank(r, B, [], k);
      BankedAfter(r, GetSources);
    }

    // sh_slvN_cfg_read: address with the read bit, sub-address and number of operations.
    method SlaveCfgRead(n: nat, add: byte, subadd: byte, len: byte) returns (ret: int, ghost k: nat)
      requires n < 4
      modifies this
      ensures faults == old(faults) + if ret == 0 then 0 else 1
      ensures k <= 5 && (ret == 0 ==> k == 5)
      ensures regs == Partly(old(regs), A, SlaveReadWrites(old(regs), n, add, subadd, len), k)
      ensures UserBankKept(old(regs), regs)
      ensures ret == 0 ==> regs == After(old(regs), SlaveRead(n, add, subadd, len))
    {
      hide BankOf, Current, Replace, ApplyWrites, WithBank, SlaveAddress, SetNumOp;
      ghost var r, ws := regs, SlaveReadWrites(regs, n, add, subadd, len);
      CurrentA(r);
      ret, k := EnterBank(A, ws);
      ghost var there, m: nat := regs, 0;
      if ret == 0 {
        ret, m := WriteCurrent(2 + 3 * n, SlaveAddress(add, true), there, ws, 0);
        k := m + 1;
      }
      if ret == 0 {
        ret, m := WriteCurrent(3 + 3 * n, subadd, there, ws, 1);
        k := m + 1;
      }
      if ret == 0 {
        var config;
        ret, config := ReadCurrent(4 + 3 * n, there, ws, 2);
        config := SetNumOp(config, len);
        if ret == 0 {
          ret, m := WriteCurrent(4 + 3 * n, config, there, ws, 2);
          k := m + 1;
        }
      }
      if ret == 0 {
        assert ws[..3] == ws;
        ret, k := LeaveBank(A, r, ws);
      }
      PartlyBank(r, A, ws, k);
      BankedAfter(r, SlaveRead(n, add, subadd, len));
    }

    // sh_cfg_write: address with the write bit, sub-address and data of slave 0.
    method SlaveCfgWrite(add: byte, subadd: byte, data: byte) returns (ret: int, ghost k: nat)
      modifies this
      ensures faults == old(faults) + if ret == 0 then 0 else 1
      ensures k <= 5 && (ret == 0 ==> k == 5)
      ensures regs == Partly(old(regs), A, SlaveWriteWrites(add, subadd, data), k)
      ensures UserBankKept(old(regs), regs)
      ensures ret == 0 ==> regs == After(old(regs), SlaveWrite(add, subadd, data))
    {
      hide BankOf, Current, Replace, ApplyWrites, WithBank, SlaveAddress;
      ghost var r, ws := regs, SlaveWriteWrites(add, subadd, data);
      ret, k := EnterBank(A, ws);
      ghost var there, m: nat := regs, 0;
      if ret == 0 {
        ret, m := WriteCurrent(0x02, SlaveAddress(add, false), there, ws, 0);
        k := m + 1;
      }
      if ret == 0 {
        ret, m := WriteCurrent(0x03, subadd, there, ws, 1);
        k := m + 1;
      }
      if ret == 0 {
        ret, m := WriteCurrent(0x0E, data, there, ws, 2);
        k := m + 1;
      }
      if ret == 0 {
        assert ws[..3] == ws;
        ret, k := LeaveBank(A, r, ws);
      }
      PartlyBank(r, A, ws, k);
      BankedAfter(r, SlaveWrite(add, subadd, data));
    }

    // Hard-iron offsets, three signed 16-bit values with the low byte first.
    method MagOffsetSet(x: bv16, y: bv16, z: bv16) returns (ret: int, ghost k: nat)
      modifies this
      ensures faults == old(faults) + if ret == 0 then 0 else 1
      ensures k <= 8 && (ret == 0 ==> k == 8)
      ensures regs == Partly(old(regs), A, BlockWrites(BlockReg(MagOffset), OffsetBytes(x, y, z)), k)
      ensures ret == 0 ==> OffsetsOf(regs.bankA) == (x, y, z)
      ensures ret == 0 ==>
        && regs.bankA[0x2D] as bv16 == x & 0xFF && regs.bankA[0x2E] as bv16 == x >> 8
        && regs.bankA[0x2F] as bv16 == y & 0xFF && regs.bankA[0x30] as bv16 == y >> 8
        && regs.bankA[0x31] as bv16 == z & 0xFF && regs.bankA[0x32] as bv16 == z >> 8
      ensures UserBankKept(old(regs), regs)
      ensures ret == 0 ==> regs == After(old(regs), SetBlock(MagOffset, OffsetBytes(x, y, z)))
    {
      hide HighByte, LowByte, BankOf, AccessByte, ApplyWrites, Overwrite, Partly;
      var data := OffsetBytes(x, y, z);
      ghost var r := regs;
      ret, k := BankedBlockSet(MagOffset, data);
      if ret == 0 {
        PartlyBanks(r, A, BlockWrites(BlockReg(MagOffset), data), k);
        OverwriteIsWrites(r.bankA, BlockReg(MagOffset), data);
        OffsetsReadBack(r.bankA, x, y, z);
        OffsetsStored(r.bankA, x, y, z);
      }
    }

    method MagOffsetGet() returns (ret: int, offsets: (bv16, bv16, bv16), ghost k: nat)
      modifies this
      ensures faults == old(faults) + if ret == 0 then 0 else 1
      ensures k <= 2 && (ret == 0 ==> k == 2)
      ensures regs == Partly(old(regs), A, [], k)
      ensures ret == 0 ==> offsets == OffsetsOf(old(regs).bankA)
      ensures UserBankKept(old(regs), regs)
      ensures ret == 0 ==> regs == After(old(regs), GetBlock(MagOffset))
    {
      hide Word, Partly;
      offsets := (0, 0, 0);
      var data;
      ret, data, k := BankedBlockGet(MagOffset);
      if ret == 0 {
        offsets := (Word(data[0], data[1]), Word(data[2], data[3]), Word(data[4], data[5]));
      }
    }

    // A series of driver calls, continued past failures. `ks` counts the writes of each call that took
    // effect.
    method Run(calls: seq<Call>) returns (rets: seq<int>, ghost ks: seq<nat>)
      requires forall c :: c in calls ==> WellFormed(c)
      modifies this
      ensures |rets| == |ks| == |calls| && Stopped(calls, ks)
      ensures regs == InterruptedAll(old(regs), calls, ks)
      ensures forall i :: 0 <= i < |calls| && rets[i] == 0 ==> ks[i] == Steps(calls[i])
      ensures faults == old(faults) <==> AllOk(rets)
      ensures faults == old(faults) ==> regs == AfterAll(old(regs), calls)
    {
      hide After, Interrupted, Steps;
      rets, ks := [], [];
      ghost var r := regs;
      var i := 0;
      while i < |calls|
        invariant 0 <= i <= |calls| && |rets| == |ks| == i
        invariant Stopped(calls[..i], ks) && regs == InterruptedAll(r, calls[..i], ks)
        invariant forall j :: 0 <= j < i && rets[j] == 0 ==> ks[j] == Steps(calls[j])
        invariant faults >= old(faults)
        invariant faults == old(faults) <==> AllOk(rets)
      {
        assert calls[i] in calls;
        ghost var k, was, before := 0, ks, rets;
        var ret;
        ret, k := Perform(calls[i]);
        rets, ks := rets + [ret], ks + [k];
        AllOkNext(before, ret);
        assert ks[..i] == was && calls[..i + 1][..i] == calls[..i];
        assert ks[i] == k && calls[..i + 1][i] == calls[i] && rets[i] == ret;
        i := i + 1;
      }
      assert calls[..i] == calls;
      if faults == old(faults) {
        AllDone(r, calls, ks);
      }
    }

    // `k` counts the writes that took effect.
    method Perform(c: Call) returns (ret: int, ghost k: nat)
      requires WellFormed(c)
      modifies this
      ensures faults == old(faults) + if ret == 0 then 0 else 1
      ensures k <= Steps(c) && (ret == 0 ==> k == Steps(c))
      ensures regs == Interrupted(old(regs), c, k)
      ensures ret == 0 ==> regs == After(old(regs), c)
      ensures Banked(c) ==> UserBankKept(old(regs), regs)
    {
      hide BankOf, Current, Replace, ApplyWrites, SetTapField, SetBankedField, AccessByte, MdByte, SetBit, Any, ActivityOf,
        Overwrite, SlaveAddress, SetNumOp, Partly, WithBank, OffsetBytes;
      ghost var r := regs;
      k := 0;
      match c {
        case RouteInt1(v) =>
          ret, k := PinInt1RouteSet(v);
          if ret == 0 {
            assert Int1Writes(Current(r), v)[..5] == Int1Writes(Current(r), v);
          }
        case RouteInt2(v) =>
          ret, k := PinInt2RouteSet(v);
          if ret == 0 {
            assert Int2Writes(Current(r), v)[..4] == Int2Writes(Current(r), v);
          }
        case SetTap(f, val) => ret, k := TapFieldSet(f, val);
        case SetField(f, val) => ret, k := BankedFieldSet(f, val);
        case GetField(f) =>
          var value;
          ret, value, k := BankedFieldGet(f);
        case SetBlock(b, data) => ret, k := BankedBlockSet(b, data);
        case GetBlock(b) =>
          var data;
          ret, data, k := BankedBlockGet(b);
        case GetSources =>
          var data;
          ret, data, k := AllSourcesGet();
        case SlaveRead(i, add, subadd, len) => ret, k := SlaveCfgRead(i, add, subadd, len);
        case SlaveWrite(add, subadd, data) => ret, k := SlaveCfgWrite(add, subadd, data);
      }
    }
  }

  function FieldWrites(r: Regs, f: BankedField, val: byte): seq<Write> {
    [(FieldReg(f), SetBankedField(r.bankA[FieldReg(f)], f, val))]
  }

  function SlaveReadWrites(r: Regs, n: nat, add: byte, subadd: byte, len: byte): seq<Write>
    requires n < 4
  {
    [(2 + 3 * n, SlaveAddress(add, true)), (3 + 3 * n, subadd), (4 + 3 * n, SetNumOp(r.bankA[4 + 3 * n], len))]
  }

  function SlaveWriteWrites(add: byte, subadd: byte, data: byte): seq<Write> {
    [(0x02, SlaveAddress(add, false)), (0x03, subadd), (0x0E, data)]
  }

  lemma CurrentA(r: Regs)
    ensures Current(WithBank(r, A)) == r.bankA
  {
    SelectsBank(r, A);
    hide SelectedBank, AccessByte;
  }

  lemma CurrentB(r: Regs)
    ensures Current(WithBank(r, B)) == r.bankB
  {
    SelectsBank(r, B);
    hide SelectedBank, AccessByte;
  }

  // ---- Whole runs ----

  datatype Call =
    | RouteInt1(v1: Int1Route)
    | RouteInt2(v2: Int2Route)
    | SetTap(tap: TapField, val: byte)
    | SetField(f: BankedField, val: byte)
    | GetField(f: BankedField)
    | SetBlock(block: BankedBlock, data: seq<byte>)
    | GetBlock(block: BankedBlock)
    | GetSources
    | SlaveRead(n: nat, add: byte, subadd: byte, len: byte)
    | SlaveWrite(add: byte, subadd: byte, one: byte)

  predicate Route(c: Call) { c.RouteInt1? || c.RouteInt2? }

  predicate Banked(c: Call) { !Route(c) && !c.SetTap? }

  predicate WellFormed(c: Call) {
    (c.SetBlock? ==> |c.data| == BlockLen(c.block)) && (c.SlaveRead? ==> c.n < 4)
  }

  // The bank a banked call works in, and its writes there.
  function CallBank(c: Call): Bank {
    match c
    case SetBlock(b, _) => BlockBank(b)
    case GetBlock(b) => BlockBank(b)
    case GetSources => B
    case _ => A
  }

  function CallWrites(r: Regs, c: Call): seq<Write>
    requires WellFormed(c)
  {
    match c
    case SetField(f, val) => FieldWrites(r, f, val)
    case SetBlock(b, data) => BlockWrites(BlockReg(b), data)
    case SlaveRead(n, add, subadd, len) => SlaveReadWrites(r, n, add, subadd, len)
    case SlaveWrite(add, subadd, data) => SlaveWriteWrites(add, subadd, data)
    case _ => []
  }

  // What a successful call leaves.
  function After(r: Regs, c: Call): Regs
    requires WellFormed(c)
  {
    match c
    case RouteInt1(v) => Replace(r, ApplyWrites(Current(r), Int1Writes(Current(r), v)))
    case RouteInt2(v) => Replace(r, ApplyWrites(Current(r), Int2Writes(Current(r), v)))
    case SetTap(f, val) => Replace(r, Current(r)[TAP_CFG := SetTapField(Current(r)[TAP_CFG], f, val)])
    case SetField(f, val) =>
      WithBank(r, User).(bankA := r.bankA[FieldReg(f) := SetBankedField(r.bankA[FieldReg(f)], f, val)])
    case SetBlock(b, data) =>
      if BlockBank(b) == A then WithBank(r, User).(bankA := Overwrite(r.bankA, BlockReg(b), data))
      else WithBank(r, User).(bankB := Overwrite(r.bankB, BlockReg(b), data))
    case GetField(f) => WithBank(r, User)
    case GetBlock(b) => WithBank(r, User)
    case GetSources => WithBank(r, User)
    case SlaveRead(n, add, subadd, len) =>
      WithBank(r, User).(bankA := r.bankA[2 + 3 * n := SlaveAddress(add, true)][3 + 3 * n := subadd]
        [4 + 3 * n := SetNumOp(r.bankA[4 + 3 * n], len)])
    case SlaveWrite(add, subadd, data) =>
      WithBank(r, User).(bankA := r.bankA[0x02 := SlaveAddress(add, false)][0x03 := subadd][0x0E := data])
  }

  predicate AllOk(rets: seq<int>) {
    forall i :: 0 <= i < |rets| ==> rets[i] == 0
  }

  lemma AllOkNext(rets: seq<int>, ret: int)
    ensures AllOk(rets + [ret]) <==> AllOk(rets) && ret == 0
  {
    var all := rets + [ret];
    assert all[|rets|] == ret && forall i :: 0 <= i < |rets| ==> all[i] == rets[i];
    if AllOk(all) {
      forall i | 0 <= i < |rets| ensures rets[i] == 0 {
        assert all[i] == 0;
      }
    }
  }

  // How many writes a call makes, the selections of banks included.
  function Steps(c: Call): nat {
    match c
    case RouteInt1(_) => 5
    case RouteInt2(_) => 4
    case SetTap(_, _) => 1
    case SetField(_, _) => 3
    case SetBlock(_, data) => |data| + 2
    case GetField(_) => 2
    case GetBlock(_) => 2
    case GetSources => 2
    case SlaveRead(_, _, _, _) => 5
    case SlaveWrite(_, _, _) => 5
  }

  // What a call leaves after k of its writes took effect.
  function Interrupted(r: Regs, c: Call, k: nat): Regs
    requires WellFormed(c) && k <= Steps(c)
  {
    match c
    case RouteInt1(v) => Replace(r, ApplyWrites(Current(r), Int1Writes(Current(r), v)[..k]))
    case RouteInt2(v) => Replace(r, ApplyWrites(Current(r), Int2Writes(Current(r), v)[..k]))
    case SetTap(f, val) => if k == 0 then r else After(r, c)
    case _ => Partly(r, CallBank(c), CallWrites(r, c), k)
  }

  predicate Stopped(calls: seq<Call>, ks: seq<nat>) {
    |calls| == |ks| && forall i :: 0 <= i < |calls| ==> WellFormed(calls[i]) && ks[i] <= Steps(calls[i])
  }

  function InterruptedAll(r: Regs, calls: seq<Call>, ks: seq<nat>): Regs
    requires Stopped(calls, ks)
    decreases |calls|
  {
    if calls == [] then r
    else
      var n := |calls| - 1;
      Interrupted(InterruptedAll(r, calls[..n], ks[..n]), calls[n], ks[n])
  }

  function AfterAll(r: Regs, calls: seq<Call>): Regs
    requires forall c :: c in calls ==> WellFormed(c)
    decreases |calls|
  {
    if calls == [] then r
    else
      assert calls[|calls| - 1] in calls;
      After(AfterAll(r, calls[..|calls| - 1]), calls[|calls| - 1])
  }

  // A banked call all of whose writes took effect leaves what a successful one does.
  lemma BankedAfter(r: Regs, c: Call)
    requires WellFormed(c) && Banked(c)
    ensures After(r, c) == Partly(r, CallBank(c), CallWrites(r, c), |CallWrites(r, c)| + 2)
  {
    hide SelectedBank, AccessByte, SetBankedField, Overwrite, SlaveAddress, SetNumOp, Partly;
    var ws := CallWrites(r, c);
    PartlyBanks(r, CallBank(c), ws, |ws| + 2);
    match c {
      case SetBlock(b, data) =>
        hide ApplyWrites;
        OverwriteIsWrites(r.bankA, BlockReg(b), data);
        OverwriteIsWrites(r.bankB, BlockReg(b), data);
      case SetField(f, val) =>
        OneWrite(r.bankA, ws);
      case SlaveRead(_, _, _, _) =>
        ThreeWrites(r.bankA, ws);
      case SlaveWrite(_, _, _) =>
        ThreeWrites(r.bankA, ws);
      case _ =>
    }
  }

  // Where the blocks lie: their bank, first register and length.
  lemma BlockLayout(r: Regs, block: BankedBlock, data: seq<byte>)
    requires |data| == BlockLen(block)
    ensures var r' := After(r, SetBlock(block, data));
      match block
      case StepPeriod => r'.bankB == r.bankB && |data| == 1 && r'.bankA == r.bankA[0x15 := data[0]]
      case MotionThreshold => r'.bankB == r.bankB && |data| == 1 && r'.bankA == r.bankA[0x13 := data[0]]
      case SoftIron => r'.bankB == r.bankB && |data| == 9 && r'.bankA == r.bankA[..0x24] + data + r.bankA[0x2D..]
      case MagOffset => r'.bankB == r.bankB && |data| == 6 && r'.bankA == r.bankA[..0x2D] + data + r.bankA[0x33..]
      case TiltLatency => r'.bankA == r.bankA && |data| == 1 && r'.bankB == r.bankB[0x50 := data[0]]
      case TiltThreshold => r'.bankA == r.bankA && |data| == 1 && r'.bankB == r.bankB[0x54 := data[0]]
      case TiltMask => r'.bankA == r.bankA && |data| == 1 && r'.bankB == r.bankB[0x59 := data[0]]
  {
    hide AccessByte;
    if |data| == 1 {
      assert data == [data[0]];
      var reg := BlockReg(block);
      assert Overwrite(r.bankA, reg, data) == r.bankA[reg := data[0]];
      assert Overwrite(r.bankB, reg, data) == r.bankB[reg := data[0]];
    }
  }

  // A block that was set reads back from its bank, and nothing else of the bank changed.
  lemma BlockRoundTrip(r: Regs, block: BankedBlock, data: seq<byte>, i: nat)
    requires |data| == BlockLen(block) && i < REG_COUNT
    ensures var r' := After(r, SetBlock(block, data));
      var before := if BlockBank(block) == A then r.bankA else r.bankB;
      var after := if BlockBank(block) == A then r'.bankA else r'.bankB;
      && after[BlockReg(block)..BlockReg(block) + BlockLen(block)] == data
      && (i < BlockReg(block) || i >= BlockReg(block) + BlockLen(block) ==> after[i] == before[i])
  {
    hide Overwrite, AccessByte;
    OverwriteReadsBack(r.bankA, BlockReg(block), data, i);
    OverwriteReadsBack(r.bankB, BlockReg(block), data, i);
  }

  lemma OneWrite(f: File, ws: seq<Write>)
    requires |ws| == 1
    ensures ApplyWrites(f, ws) == f[ws[0].0 := ws[0].1]
  {
    assert ws[..0] == [];
  }

  lemma ThreeWrites(f: File, ws: seq<Write>)
    requires |ws| == 3
    ensures ApplyWrites(f, ws) == f[ws[0].0 := ws[0].1][ws[1].0 := ws[1].1][ws[2].0 := ws[2].1]
  {
    assert ws[..2][..1] == ws[..1] && ws[..1][..0] == [];
    assert ApplyWrites(f, ws[..1]) == f[ws[0].0 := ws[0].1];
    assert ApplyWrites(f, ws[..2]) == f[ws[0].0 := ws[0].1][ws[1].0 := ws[1].1];
  }

  lemma CallKeeps(r: Regs, c: Call)
    requires WellFormed(c)
    ensures BankOf(After(r, c)) == if Banked(c) then User else BankOf(r)
    ensures Consistent(After(r, c).user) <==> Consistent(r.user) || (Route(c) && BankOf(r) == User)
  {
    hide SelectedBank, Int1Writes, Int2Writes, AccessByte, SetTapField, SetBankedField, Overwrite, ApplyWrites,
      SlaveAddress, SetNumOp;
    match c {
      case RouteInt1(v) =>
        hide Consistent, Current, Replace, BankOf;
        WritesKeepBank(r, Int1Writes(Current(r), v));
        UserAfter(r, ApplyWrites(Current(r), Int1Writes(Current(r), v)));
        Int1Consistent(Current(r), v);
      case RouteInt2(v) =>
        hide Consistent, Current, Replace, BankOf;
        WritesKeepBank(r, Int2Writes(Current(r), v));
        UserAfter(r, ApplyWrites(Current(r), Int2Writes(Current(r), v)));
        Int2Consistent(Current(r), v);
      case SetTap(f, val) =>
        TapFieldKeepsEnable(r.user[TAP_CFG], f, val);
      case _ =>
        SelectsBank(r, User);
    }
  }

  // Call i routes events while the user bank is selected.
  predicate RoutesAt(r: Regs, calls: seq<Call>, i: nat)
    requires forall c :: c in calls ==> WellFormed(c)
  {
    i < |calls| && Route(calls[i]) && BankOf(AfterAll(r, calls[..i])) == User
  }

  // Over any run of successful calls, from any state at all: the enable bit ends up consistent
  // exactly if it was at the start or some call routed events while the user bank was selected, and
  // the user bank ends up selected exactly if it was at the start or some call was banked. So a
  // run from reset keeps both, and either is regained after faults.
  lemma {:induction false} RunConsistent(r: Regs, calls: seq<Call>)
    requires forall c :: c in calls ==> WellFormed(c)
    ensures Consistent(AfterAll(r, calls).user) <==>
      Consistent(r.user) || exists i: nat :: RoutesAt(r, calls, i)
    ensures BankOf(AfterAll(r, calls)) == User <==>
      BankOf(r) == User || exists c :: c in calls && Banked(c)
    decreases |calls|
  {
    if calls != [] {
      var n := |calls| - 1;
      var first := calls[..n];
      hide After, AfterAll, BankOf, Consistent, RoutesAt;
      assert calls == first + [calls[n]];
      RunConsistent(r, first);
      AfterLast(r, calls);
      CallKeeps(AfterAll(r, first), calls[n]);
      RoutesAtPrefix(r, calls);
    } else {
      assert forall i: nat :: !RoutesAt(r, calls, i);
    }
  }

  lemma AfterLast(r: Regs, calls: seq<Call>)
    requires calls != [] && forall c :: c in calls ==> WellFormed(c)
    ensures AfterAll(r, calls) == After(AfterAll(r, calls[..|calls| - 1]), calls[|calls| - 1])
  {
    hide After;
  }

  lemma RoutesAtPrefix(r: Regs, calls: seq<Call>)
    requires calls != [] && forall c :: c in calls ==> WellFormed(c)
    ensures var n := |calls| - 1;
      (exists i: nat :: RoutesAt(r, calls, i)) <==>
      (exists i: nat :: RoutesAt(r, calls[..n], i)) || (Route(calls[n]) && BankOf(AfterAll(r, calls[..n])) == User)
  {
    hide AfterAll, BankOf;
    var n := |calls| - 1;
    var first := calls[..n];
    forall i: nat | i < n ensures RoutesAt(r, calls, i) <==> RoutesAt(r, first, i) {
      assert first[..i] == calls[..i];
    }
    assert RoutesAt(r, calls, n) <==> Route(calls[n]) && BankOf(AfterAll(r, first)) == User;
    if i: nat :| RoutesAt(r, first, i) {
      assert RoutesAt(r, calls, i);
    }
    if i: nat :| RoutesAt(r, calls, i) {
      assert i == n || RoutesAt(r, first, i);
    }
  }

  lemma DoneIsAfter(r: Regs, c: Call)
    requires WellFormed(c)
    ensures Interrupted(r, c, Steps(c)) == After(r, c)
  {
    hide Partly, ApplyWrites, Current, Replace;
    match c {
      case RouteInt1(v) => assert Int1Writes(Current(r), v)[..5] == Int1Writes(Current(r), v);
      case RouteInt2(v) => assert Int2Writes(Current(r), v)[..4] == Int2Writes(Current(r), v);
      case SetTap(_, _) =>
      case _ => BankedAfter(r, c);
    }
  }

  lemma {:induction false} AllDone(r: Regs, calls: seq<Call>, ks: seq<nat>)
    requires Stopped(calls, ks) && forall i :: 0 <= i < |calls| ==> ks[i] == Steps(calls[i])
    ensures forall c :: c in calls ==> WellFormed(c)
    ensures InterruptedAll(r, calls, ks) == AfterAll(r, calls)
    decreases |calls|
  {
    if calls != [] {
      var n := |calls| - 1;
      hide Interrupted, After, Steps;
      AllDone(r, calls[..n], ks[..n]);
      DoneIsAfter(AfterAll(r, calls[..n]), calls[n]);
    }
  }

  // ---- Runs with faults ----

  // The registers before call i.
  function At(r: Regs, calls: seq<Call>, ks: seq<nat>, i: nat): Regs
    requires Stopped(calls, ks) && i <= |calls|
  {
    InterruptedAll(r, calls[..i], ks[..i])
  }

  lemma AtNext(r: Regs, calls: seq<Call>, ks: seq<nat>, i: nat)
    requires Stopped(calls, ks) && i < |calls|
    ensures At(r, calls, ks, i + 1) == Interrupted(At(r, calls, ks, i), calls[i], ks[i])
  {
    hide Interrupted;
    assert calls[..i + 1][..i] == calls[..i] && ks[..i + 1][..i] == ks[..i];
  }

  // The enable bit already says what a routing call asks for.
  predicate Agrees(user: File, c: Call)
    requires Route(c)
  {
    EnableBit(user) <==>
      match c
      case RouteInt1(v) => Any(v.activity) || Any(ActivityOf(user[MD2_CFG]))
      case RouteInt2(v) => Any(ActivityOf(user[MD1_CFG])) || Any(v.activity)
  }

  // Call i got as far as the event register of its pin in the user bank.
  predicate Decides(r: Regs, calls: seq<Call>, ks: seq<nat>, i: nat)
    requires Stopped(calls, ks)
  {
    i < |calls| && Route(calls[i]) && ks[i] >= 2 && BankOf(At(r, calls, ks, i)) == User
  }

  // Call i got as far as selecting a bank.
  predicate Selects(calls: seq<Call>, ks: seq<nat>, i: nat)
    requires Stopped(calls, ks)
  {
    i < |calls| && Banked(calls[i]) && ks[i] > 0
  }

  lemma UserAfter(r: Regs, f: File)
    ensures Replace(r, f).user == if BankOf(r) == User then f else r.user
    ensures BankOf(r) == User ==> Current(r) == r.user
  {
    hide SelectedBank;
  }

  lemma CallStopped(r: Regs, c: Call, k: nat)
    requires WellFormed(c) && k <= Steps(c)
    ensures BankOf(Interrupted(r, c, k)) ==
      if Banked(c) && k > 0 then (if k == Steps(c) then User else CallBank(c)) else BankOf(r)
    ensures Consistent(Interrupted(r, c, k).user) <==>
      if Route(c) && k >= 2 && BankOf(r) == User then k == Steps(c) || Agrees(r.user, c) else Consistent(r.user)
  {
    hide SelectedBank, AccessByte, SetTapField, ApplyWrites, Partly, Any, ActivityOf, BankOf, Current, Replace, Consistent,
      EnableBit, MdByte, SetBit, WithBank, After;
    match c {
      case RouteInt1(v) =>
        var ws := Int1Writes(Current(r), v)[..k];
        WritesKeepBank(r, ws);
        UserAfter(r, ApplyWrites(Current(r), ws));
        StoppedInt1(Current(r), v, k);
      case RouteInt2(v) =>
        var ws := Int2Writes(Current(r), v)[..k];
        WritesKeepBank(r, ws);
        UserAfter(r, ApplyWrites(Current(r), ws));
        StoppedInt2(Current(r), v, k);
      case SetTap(f, val) =>
        CallKeeps(r, c);
      case _ =>
        PartlyBank(r, CallBank(c), CallWrites(r, c), k);
        KeptConsistent(r, Partly(r, CallBank(c), CallWrites(r, c), k));
    }
  }

  lemma KeptConsistent(before: Regs, after: Regs)
    requires UserBankKept(before, after)
    ensures Consistent(after.user) <==> Consistent(before.user)
  {
  }

  lemma {:induction false} Undecided(r: Regs, calls: seq<Call>, ks: seq<nat>, from: nat)
    requires Stopped(calls, ks) && from <= |calls|
    requires forall j: nat :: j >= from ==> !Decides(r, calls, ks, j)
    ensures Consistent(InterruptedAll(r, calls, ks).user) <==> Consistent(At(r, calls, ks, from).user)
    decreases |calls| - from
  {
    hide Consistent, Interrupted, InterruptedAll, BankOf;
    if from < |calls| {
      AtNext(r, calls, ks, from);
      CallStopped(At(r, calls, ks, from), calls[from], ks[from]);
      assert !Decides(r, calls, ks, from);
      Undecided(r, calls, ks, from + 1);
    } else {
      assert calls[..from] == calls && ks[..from] == ks;
    }
  }

  lemma {:induction false} Unselected(r: Regs, calls: seq<Call>, ks: seq<nat>, from: nat)
    requires Stopped(calls, ks) && from <= |calls|
    requires forall j: nat :: j >= from ==> !Selects(calls, ks, j)
    ensures BankOf(InterruptedAll(r, calls, ks)) == BankOf(At(r, calls, ks, from))
    decreases |calls| - from
  {
    hide Consistent, Interrupted, InterruptedAll, BankOf;
    if from < |calls| {
      AtNext(r, calls, ks, from);
      CallStopped(At(r, calls, ks, from), calls[from], ks[from]);
      assert !Selects(calls, ks, from);
      Unselected(r, calls, ks, from + 1);
    } else {
      assert calls[..from] == calls && ks[..from] == ks;
    }
  }

  // Over any run with any faults the enable bit is decided by the last routing call that got as far
  // as its event register in the user bank: it is right at the end exactly if that call was completed
  // or asked for what the bit already said, and without such a call exactly if it was right before.
  lemma FaultyRunEnable(r: Regs, calls: seq<Call>, ks: seq<nat>, last: nat)
    requires Stopped(calls, ks) && forall j: nat :: j > last ==> !Decides(r, calls, ks, j)
    ensures last < |calls| && Decides(r, calls, ks, last) ==>
      (Consistent(InterruptedAll(r, calls, ks).user) <==>
        ks[last] == Steps(calls[last]) || Agrees(At(r, calls, ks, last).user, calls[last]))
    ensures (forall j: nat :: !Decides(r, calls, ks, j)) ==>
      (Consistent(InterruptedAll(r, calls, ks).user) <==> Consistent(r.user))
  {
    hide Consistent, Interrupted, BankOf, Agrees, Steps;
    if forall j: nat :: !Decides(r, calls, ks, j) {
      Undecided(r, calls, ks, 0);
    } else if last < |calls| && Decides(r, calls, ks, last) {
      Undecided(r, calls, ks, last + 1);
      AtNext(r, calls, ks, last);
      CallStopped(At(r, calls, ks, last), calls[last], ks[last]);
    }
  }

  // And the bank by the last banked call of which a write took effect: the user bank if it was
  // completed and the call's own if not.
  lemma FaultyRunBank(r: Regs, calls: seq<Call>, ks: seq<nat>, last: nat)
    requires Stopped(calls, ks) && forall j: nat :: j > last ==> !Selects(calls, ks, j)
    ensures last < |calls| && Selects(calls, ks, last) ==>
      BankOf(InterruptedAll(r, calls, ks)) == if ks[last] == Steps(calls[last]) then User else CallBank(calls[last])
    ensures (forall j: nat :: !Selects(calls, ks, j)) ==> BankOf(InterruptedAll(r, calls, ks)) == BankOf(r)
  {
    hide Consistent, Interrupted, BankOf, Steps;
    if forall j: nat :: !Selects(calls, ks, j) {
      Unselected(r, calls, ks, 0);
    } else if last < |calls| && Selects(calls, ks, last) {
      Unselected(r, calls, ks, last + 1);
      AtNext(r, calls, ks, last);
      CallStopped(At(r, calls, ks, last), calls[last], ks[last]);
    }
  }

  // With another bank left selected, the next routing call to complete routes nothing; in bank A it
  // overwrites the sensor-hub register that shares INT1_CTRL's address.
  lemma StrandedRoute(r: Regs, v: Int1Route)
    requires BankOf(r) != User
    ensures After(r, RouteInt1(v)).user == r.user
    ensures BankOf(r) == A ==> After(r, RouteInt1(v)).bankA[FieldReg(Slave3Rate)] == v.ctrl
  {
    hide MdByte, SetBit, SelectedBank;
    ApplyAt(r.bankA, Int1Writes(r.bankA, v), 0);
  }

  // A banked call that starts in the user bank and is stopped by a fault anywhere between its first
  // and its last write leads there: the event routing stays what it was, and the device stays in
  // the call's bank. Nothing of it happens if the fault came earlier or later.
  lemma FaultStrandsRoute(r: Regs, c: Call, k: nat, v: Int1Route)
    requires WellFormed(c) && Banked(c) && BankOf(r) == User
    requires k <= |CallWrites(r, c)| + 2
    ensures var stopped := Partly(r, CallBank(c), CallWrites(r, c), k);
      var after := After(stopped, RouteInt1(v));
      && (BankOf(stopped) == User <==> k == 0 || k == |CallWrites(r, c)| + 2)
      && (BankOf(stopped) != User ==>
            && UserBankKept(r, after) && BankOf(after) == CallBank(c)
            && (Consistent(after.user) <==> Consistent(r.user))
            && (CallBank(c) == A ==> after.bankA[FieldReg(Slave3Rate)] == v.ctrl))
      && (BankOf(stopped) == User ==>
            Consistent(after.user) && after.bankA == stopped.bankA && after.bankB == stopped.bankB)
  {
    hide Partly, After, SelectedBank, Int1Writes, ApplyWrites;
    var ws, bank := CallWrites(r, c), CallBank(c);
    var stopped := Partly(r, bank, ws, k);
    PartlyBank(r, bank, ws, k);
    StrandedIff(r, bank, ws, k);
    CallKeeps(stopped, RouteInt1(v));
    if BankOf(stopped) == User {
      RouteStaysInBank(stopped, v);
    } else {
      StrandedRoute(stopped, v);
    }
  }

  lemma RouteStaysInBank(r: Regs, v: Int1Route)
    requires BankOf(r) == User
    ensures After(r, RouteInt1(v)).bankA == r.bankA && After(r, RouteInt1(v)).bankB == r.bankB
  {
    hide SelectedBank, ApplyWrites, Int1Writes;
  }

  // ---- 16-bit values ----

  function HighByte(w: bv16): byte { (w / 256) as byte }

  function LowByte(w: bv16): byte { (w - HighByte(w) as bv16 * 256) as byte }

  function Word(low: byte, high: byte): bv16 { high as bv16 * 256 + low as bv16 }

  lemma WordRoundTrip(w: bv16)
    ensures Word(LowByte(w), HighByte(w)) == w
  {
  }

  function OffsetBytes(x: bv16, y: bv16, z: bv16): (data: seq<byte>)
    ensures |data| == 6
  {
    [LowByte(x), HighByte(x), LowByte(y), HighByte(y), LowByte(z), HighByte(z)]
  }

  lemma OffsetsReadBack(bankA: File, x: bv16, y: bv16, z: bv16)
    ensures OffsetsOf(Overwrite(bankA, BlockReg(MagOffset), OffsetBytes(x, y, z))) == (x, y, z)
  {
    hide HighByte, LowByte, Word;
    WordRoundTrip(x);
    WordRoundTrip(y);
    WordRoundTrip(z);
  }

  // Each value low byte first.
  lemma OffsetsStored(bankA: File, x: bv16, y: bv16, z: bv16)
    ensures var f := Overwrite(bankA, BlockReg(MagOffset), OffsetBytes(x, y, z));
      && f[0x2D] as bv16 == x & 0xFF && f[0x2E] as bv16 == x >> 8
      && f[0x2F] as bv16 == y & 0xFF && f[0x30] as bv16 == y >> 8
      && f[0x31] as bv16 == z & 0xFF && f[0x32] as bv16 == z >> 8
  {
    hide HighByte, LowByte;
    WordBytes(x);
    WordBytes(y);
    WordBytes(z);
  }

  lemma WordBytes(w: bv16)
    ensures LowByte(w) as bv16 == w & 0xFF && HighByte(w) as bv16 == w >> 8
  {
  }

  function OffsetsOf(bankA: File): (bv16, bv16, bv16) {
    (Word(bankA[0x2D], bankA[0x2E]), Word(bankA[0x2F], bankA[0x30]), Word(bankA[0x31], bankA[0x32]))
  }

  // Every user-bank register except FUNC_CFG_ACCESS is as it was.
  ghost predicate UserBankKept(before: Regs, after: Regs) {
    forall i :: 0 <= i < REG_COUNT && i != FUNC_CFG_ACCESS ==> after.user[i] == before.user[i]
  }

  function SlaveAddress(add: byte, read: bool): byte {
    ((add << 1) & 0xFE) | Flag(0x01, read)
  }

  function SetNumOp(config: byte, len: byte): byte {
    (config & 0xF8) | (len & 0x07)
  }

  lemma SlaveBytes(config: byte, add: byte, len: byte)
    ensures SlaveAddress(add, true) == (add << 1) | 0x01 && SlaveAddress(add, false) == add << 1
    ensures SetNumOp(config, len) & 0x07 == len & 0x07 && SetNumOp(config, len) & 0xF8 == config & 0xF8
  {
  }

  // Where the sensor-hub calls put what they are given, in bank A.
  lemma SlaveLayout(r: Regs, n: nat, add: byte, subadd: byte, len: byte, data: byte)
    requires n < 4
    ensures var f := After(r, SlaveRead(n, add, subadd, len)).bankA;
      && f[2 + 3 * n] == (add << 1) | 0x01 && f[3 + 3 * n] == subadd
      && f[4 + 3 * n] & 0x07 == len & 0x07 && f[4 + 3 * n] & 0xF8 == r.bankA[4 + 3 * n] & 0xF8
      && f == r.bankA[2 + 3 * n := f[2 + 3 * n]][3 + 3 * n := subadd][4 + 3 * n := f[4 + 3 * n]]
    ensures After(r, SlaveWrite(add, subadd, data)).bankA == r.bankA[0x02 := add << 1][0x03 := subadd][0x0E := data]
  {
    SlaveBytes(r.bankA[4 + 3 * n], add, len);
    hide SlaveAddress, SetNumOp, AccessByte;
  }

  lemma StoredOne(r: Regs, reg: nat, b: byte)
    requires FUNC_CFG_ACCESS <= reg < REG_COUNT
    ensures Stored(r, reg, [b]) == Put(r, reg, b) && Stored(r, reg, []) == r
  {
    assert Overwrite(r.user, reg, [b]) == r.user[reg := b] && Overwrite(r.user, reg, []) == r.user;
    assert Overwrite(r.bankA, reg, [b]) == r.bankA[reg := b] && Overwrite(r.bankA, reg, []) == r.bankA;
    assert Overwrite(r.bankB, reg, [b]) == r.bankB[reg := b] && Overwrite(r.bankB, reg, []) == r.bankB;
  }
}
