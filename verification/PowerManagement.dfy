// SaboRobot::OnPowerManagement: the adapter and charge currents that are asked of the charger, and
// what its registers hold then, in amperes as real numbers.
module PowerManagement {

  // A measured or configured value; NaN when there is none.
  datatype Reading = NaN | Value(amps: real)

  datatype Sample = Sample(system: Reading, dcdc: Reading, charge: Reading)

  datatype Limits = Limits(maxAdapter: real, maxCharge: real)

  datatype Board = V0_1 | V0_2 | V0_3 | V0_4 | V0_5

  const HYSTERESIS: real := 0.05
  const SAFETY_RESERVE: real := 0.2
  const MIN_ADAPTER_CURRENT: real := 0.3
  const DEFAULT_CHARGE_CURRENT: real := 2.5
  const MAX_CHARGE_CURRENT: real := 3.9

  function LimitsOf(board: Board): Limits {
    match board
    case V0_1 => Limits(4.2, 5.0)
    case V0_2 => Limits(4.9, 4.9)
    case V0_3 => Limits(4.8, 5.5)
    case V0_4 => Limits(6.0, 9.0)
    case V0_5 => Limits(10.0, 9.0)
  }

  function Min(a: real, b: real): real { if b < a then b else a }

  function Max(a: real, b: real): real { if a < b then b else a }

  function Abs(a: real): real { if a < 0.0 then -a else a }

  predicate Positive(r: Reading) { r.Value? && r.amps > 0.0 }

  // The two input guards.
  predicate Passes(s: Sample) { Positive(s.system) && Positive(s.dcdc) }

  function AdapterLimit(board: Board, s: Sample): real
    requires Passes(s)
  {
    Min(Max(MIN_ADAPTER_CURRENT, s.system.amps - s.dcdc.amps - SAFETY_RESERVE), LimitsOf(board).maxAdapter)
  }

  function ChargeLimit(board: Board, s: Sample): real {
    Min(LimitsOf(board).maxCharge, if Positive(s.charge) then s.charge.amps else DEFAULT_CHARGE_CURRENT)
  }

  // The charge current that the power service configures the charger with.
  function InitialCharge(charge: Reading, override: bool): real {
    var amps := if Positive(charge) then charge.amps else DEFAULT_CHARGE_CURRENT;
    if override then amps else Min(MAX_CHARGE_CURRENT, amps)
  }

  // ---- Following a series of limits ----

  // What was last asked of the charger, and all that was asked on the way.
  datatype Trace = Trace(last: real, writes: seq<real>)

  // The adapter current follows its limit once the gap exceeds the hysteresis.
  function Followed(limits: seq<real>): Trace
    decreases |limits|
  {
    if limits == [] then Trace(0.0, [])
    else
      var t, limit := Followed(limits[..|limits| - 1]), limits[|limits| - 1];
      if Abs(limit - t.last) > HYSTERESIS then Trace(limit, t.writes + [limit]) else t
  }

  // The charge current follows every change.
  function Copied(limits: seq<real>): Trace
    decreases |limits|
  {
    if limits == [] then Trace(0.0, [])
    else
      var t, limit := Copied(limits[..|limits| - 1]), limits[|limits| - 1];
      if t.last != limit then Trace(limit, t.writes + [limit]) else t
  }

  function Last(limits: seq<real>): real { if limits == [] then 0.0 else limits[|limits| - 1] }

  // How far a series of limits moves in all, starting from zero.
  function Variation(limits: seq<real>): real
    decreases |limits|
  {
    if limits == [] then 0.0
    else Variation(limits[..|limits| - 1]) + Abs(limits[|limits| - 1] - Last(limits[..|limits| - 1]))
  }

  // Over any run every adapter request is paid for by movement of the limit.
  lemma {:induction false} WritesAmortised(limits: seq<real>)
    ensures HYSTERESIS * |Followed(limits).writes| as real + Abs(Last(limits) - Followed(limits).last) <= Variation(limits)
    decreases |limits|
  {
    if limits != [] {
      WritesAmortised(limits[..|limits| - 1]);
    }
  }

  // After a call the remembered current is within the hysteresis of its limit, and it is the last
  // value asked for.
  lemma {:induction false} GapBounded(limits: seq<real>)
    ensures Abs(Last(limits) - Followed(limits).last) <= 0.05
    ensures Followed(limits).last == Last(Followed(limits).writes)
    decreases |limits|
  {
    if limits != [] {
      GapBounded(limits[..|limits| - 1]);
    }
  }

  // Only limits are ever asked for.
  lemma {:induction false} WritesAreLimits(limits: seq<real>)
    ensures forall x :: x in Followed(limits).writes ==> x in limits
    decreases |limits|
  {
    if limits != [] {
      var front := limits[..|limits| - 1];
      WritesAreLimits(front);
      assert limits == front + [Last(limits)];
    }
  }

  // Every request moves the current by more than the hysteresis.
  lemma {:induction false} WritesApart(limits: seq<real>, i: nat)
    requires i < |Followed(limits).writes|
    ensures var w := Followed(limits).writes; Abs(w[i] - Last(w[..i])) > 0.05
    decreases |limits|
  {
    var front := limits[..|limits| - 1];
    var before, after := Followed(front).writes, Followed(limits).writes;
    if i < |before| {
      WritesApart(front, i);
      assert after[..i] == before[..i];
    } else {
      GapBounded(front);
      assert after[..i] == before;
    }
  }

  // The remembered charge current always equals its limit, and is asked for exactly when that
  // changes.
  lemma {:induction false} CopiesChanges(limits: seq<real>)
    ensures var t := Copied(limits);
      && t.last == Last(limits) == Last(t.writes) && (forall x :: x in t.writes ==> x in limits)
      && forall i :: 0 <= i < |t.writes| ==> t.writes[i] != Last(t.writes[..i])
    decreases |limits|
  {
    if limits != [] {
      var front := limits[..|limits| - 1];
      CopiesChanges(front);
      var before, after := Copied(front).writes, Copied(limits).writes;
      forall i | 0 <= i < |after| ensures after[i] != Last(after[..i]) {
        assert after[..i] == if i < |before| then before[..i] else before;
      }
      forall x | x in after ensures x in limits {
        assert x in before || x == limits[|limits| - 1];
      }
    }
  }

  lemma LimitsInRange(board: Board, s: Sample)
    ensures 0.0 < ChargeLimit(board, s) <= LimitsOf(board).maxCharge
    ensures Passes(s) ==> MIN_ADAPTER_CURRENT <= AdapterLimit(board, s) <= LimitsOf(board).maxAdapter
  {
  }

  predicate InRange(board: Board, limits: seq<real>) {
    forall x :: x in limits ==> MIN_ADAPTER_CURRENT <= x <= LimitsOf(board).maxAdapter
  }

  predicate ChargesInRange(board: Board, limits: seq<real>) {
    forall x :: x in limits ==> 0.0 < x <= LimitsOf(board).maxCharge
  }

  lemma ChargesGrow(board: Board, limits: seq<real>, x: real)
    requires ChargesInRange(board, limits) && 0.0 < x <= LimitsOf(board).maxCharge
    ensures ChargesInRange(board, limits + [x])
  {
  }

  // What the guards and limits come to: the adapter limit is what the system current leaves after
  // the DC/DC current and 0.2 A, or the nearest of 0.3 A and the board's limit; the charge limit is
  // the configured current, or 2.5 A without one, but no more than the board's limit.
  lemma LimitsMean(board: Board, s: Sample)
    ensures Passes(s) <==> s.system.Value? && s.system.amps > 0.0 && s.dcdc.Value? && s.dcdc.amps > 0.0
    ensures Passes(s) ==>
      var rest, most := s.system.amps - s.dcdc.amps - 0.2, LimitsOf(board).maxAdapter;
      AdapterLimit(board, s) == if rest < 0.3 then 0.3 else if rest > most then most else rest
    ensures var wanted := if s.charge.Value? && s.charge.amps > 0.0 then s.charge.amps else 2.5;
      var most := LimitsOf(board).maxCharge;
      ChargeLimit(board, s) == if wanted > most then most else wanted
  {
  }

  lemma RangeGrows(board: Board, limits: seq<real>, x: real)
    requires InRange(board, limits) && MIN_ADAPTER_CURRENT <= x <= LimitsOf(board).maxAdapter
    ensures InRange(board, limits + [x])
  {
  }

  // ---- The charger's registers ----

  // What the driver accepts at least, and the registers' step.
  const CHARGER_MIN: real := 0.4
  const CHARGER_STEP: real := 0.05
  const R_AC_SENSE: real := 0.005    // on every board version

  // The driver's register values: clamped from below, cut to whole steps and shifted into place in
  // 16 bits. The adapter's step depends on the sense resistor.
  function AdapterCode(amps: real, sense: real): nat {
    (Max(amps, CHARGER_MIN) * 4000.0 * sense).Floor % 0x1_0000 * 4 % 0x1_0000
  }

  function ChargeCode(amps: real): nat {
    (Max(amps, CHARGER_MIN) * 1000.0 / 50.0).Floor % 0x1_0000 * 4 % 0x1_0000
  }

  // The current that a register value stands for, with the boards' sense resistor.
  function Held(code: nat): real { (code / 4) as real * CHARGER_STEP }

  // A request up to 10 A is raised to 0.4 A or cut by less than a step.
  lemma HeldBounds(amps: real)
    requires amps <= 10.0
    ensures ChargeCode(amps) == AdapterCode(amps, R_AC_SENSE) == 4 * (20.0 * Max(amps, CHARGER_MIN)).Floor < 0x1_0000
    ensures Max(amps, CHARGER_MIN) - CHARGER_STEP < Held(ChargeCode(amps)) <= Max(amps, CHARGER_MIN)
    ensures Held(ChargeCode(amps)) >= CHARGER_MIN
  {
    var x := Max(amps, CHARGER_MIN);
    assert x * 4000.0 * R_AC_SENSE == 20.0 * x == x * 1000.0 / 50.0;
    var n := (20.0 * x).Floor;
    assert 8 <= n <= 200;
  }

  // The charger never takes more than was asked exactly for requests of at least 0.4 A, and exactly
  // what was asked for whole steps among them.
  lemma ChargeHeld(amps: real)
    requires amps <= 10.0
    ensures Held(ChargeCode(amps)) <= amps <==> amps >= 0.4
    ensures Held(ChargeCode(amps)) == amps <==> amps >= 0.4 && (20.0 * amps).Floor as real == 20.0 * amps
  {
    HeldBounds(amps);
  }

  lemma InitialChargeHeld(charge: Reading)
    ensures Held(ChargeCode(InitialCharge(charge, false))) <= 3.9
  {
    HeldBounds(InitialCharge(charge, false));
    hide Held, ChargeCode, AdapterCode;
  }

  // The board's limit is kept by what the charger holds.
  lemma BoardLimitHeld(board: Board, amps: real)
    ensures amps <= LimitsOf(board).maxAdapter ==> Held(AdapterCode(amps, R_AC_SENSE)) <= LimitsOf(board).maxAdapter
    ensures amps <= LimitsOf(board).maxCharge ==> Held(ChargeCode(amps)) <= LimitsOf(board).maxCharge
  {
    if amps <= 10.0 {
      HeldBounds(amps);
    }
  }

  // A register that holds the last request of a series of limits is at most 50 mA above the last limit exactly if
  // that is at least 0.35 A, and at most 100 mA below it.
  lemma RegisterGap(board: Board, limits: seq<real>)
    requires limits != [] && InRange(board, limits)
    ensures var held := Held(AdapterCode(Followed(limits).last, R_AC_SENSE));
      && (held <= Last(limits) + 0.05 <==> Last(limits) >= 0.35)
      && Last(limits) - 0.1 < held
      && 0.4 <= held <= LimitsOf(board).maxAdapter
  {
    GapBounded(limits);
    WritesAreLimits(limits);
    assert Last(limits) in limits;
    var t := Followed(limits);
    assert t.last in limits by {
      assert t.last in t.writes;
    }
    HeldBounds(t.last);
    BoardLimitHeld(board, t.last);
  }

  // After any history of limits, an adapter register that holds the last request and the DC/DC
  // current together stay 0.15 A below the system current exactly if the inputs leave 0.35 A after
  // the reserve.
  lemma MarginKept(board: Board, s: Sample, limits: seq<real>)
    requires Passes(s) && InRange(board, limits)
    requires limits != [] && Last(limits) == AdapterLimit(board, s)
    ensures Held(AdapterCode(Followed(limits).last, R_AC_SENSE)) + s.dcdc.amps <= s.system.amps - 0.15
      <==> s.system.amps - s.dcdc.amps - 0.2 >= 0.35
  {
    RegisterGap(board, limits);
  }

  // 0.3 A after the reserve, the minimum that the callback provides for, is too little.
  lemma MarginMissed(board: Board, limits: seq<real>)
    requires var s := Sample(Value(1.5), Value(1.0), NaN);
      InRange(board, limits) && limits != [] && Last(limits) == AdapterLimit(board, s)
    ensures var s := Sample(Value(1.5), Value(1.0), NaN);
      && s.system.amps - s.dcdc.amps - SAFETY_RESERVE >= MIN_ADAPTER_CURRENT
      && Held(AdapterCode(Followed(limits).last, R_AC_SENSE)) + s.dcdc.amps > s.system.amps - 0.15
  {
    MarginKept(board, Sample(Value(1.5), Value(1.0), NaN), limits);
  }

  // A write that is lost is made again exactly when the limit leaves the hysteresis around it.
  lemma {:induction false} WriteRepeated(limits: seq<real>, more: seq<real>)
    ensures Followed(limits + more).writes == Followed(limits).writes <==>
      forall x :: x in more ==> Abs(x - Followed(limits).last) <= HYSTERESIS
    ensures |Followed(limits + more).writes| >= |Followed(limits).writes|
    ensures Followed(limits + more).writes == Followed(limits).writes ==>
      Followed(limits + more).last == Followed(limits).last
    decreases |more|
  {
    if more == [] {
      assert limits + more == limits;
    } else {
      var n := |more| - 1;
      assert (limits + more)[..|limits| + n] == limits + more[..n];
      WriteRepeated(limits, more[..n]);
      assert (limits + more)[|limits| + n] == more[n] && more == more[..n] + [more[n]];
      GrowsOnly(limits, more[..n]);
      var first, middle := Followed(limits).writes, Followed(limits + more[..n]).writes;
      if first != middle {
        assert |first| < |middle| <= |Followed(limits + more).writes|;
        var x :| x in more[..n] && Abs(x - Followed(limits).last) > HYSTERESIS;
        assert x in more;
      } else {
        assert more[n] in more;
        assert forall x :: x in more <==> x in more[..n] || x == more[n];
      }
    }
  }

  lemma {:induction false} GrowsOnly(limits: seq<real>, more: seq<real>)
    ensures Followed(limits).writes <= Followed(limits + more).writes
    decreases |more|
  {
    if more == [] {
      assert limits + more == limits;
    } else {
      var n := |more| - 1;
      assert (limits + more)[..|limits| + n] == limits + more[..n];
      GrowsOnly(limits, more[..n]);
    }
  }

  // ---- The callback ----

  // The BQ2576 behind a bus on which every access may fail; a failed write may have reached it.
  class Charger {
    const rAcSense: real
    const adapterReset: nat                 // the registers after a reset of the chip
    const chargeReset: nat
    var adapterRegister: nat
    var chargeRegister: nat
    var currentPinUsed: bool                // EN_ICHG_PIN
    ghost var faults: nat                   // accesses that failed

    constructor (rAcSense: real, adapterReset: nat, chargeReset: nat)
      ensures this.rAcSense == rAcSense && this.adapterReset == adapterReset && this.chargeReset == chargeReset
      ensures adapterRegister == adapterReset && chargeRegister == chargeReset && faults == 0
    {
      this.rAcSense, this.adapterReset, this.chargeReset := rAcSense, adapterReset, chargeReset;
      adapterRegister, chargeRegister, currentPinUsed, faults := adapterReset, chargeReset, true, 0;
    }

    method Access() returns (ok: bool)
      modifies this`faults
      ensures faults == old(faults) + if ok then 0 else 1
    {
      ok := *;
      if !ok {
        faults := faults + 1;
      }
    }

    method SetAdapterCurrent(amps: real) returns (ok: bool)
      modifies this`adapterRegister, this`faults
      ensures ok ==> adapterRegister == AdapterCode(amps, rAcSense)
      ensures adapterRegister == old(adapterRegister) || adapterRegister == AdapterCode(amps, rAcSense)
      ensures rAcSense <= 0.0 ==> !ok && adapterRegister == old(adapterRegister) && faults == old(faults)
      ensures rAcSense > 0.0 ==> faults == old(faults) + if ok then 0 else 1
    {
      if rAcSense <= 0.0 {
        return false;
      }
      var current := Max(amps, CHARGER_MIN);
      var value := (current * 4000.0 * rAcSense).Floor % 0x1_0000 * 4 % 0x1_0000;
      ok := Access();
      var taken: bool := *;
      if ok || taken {
        adapterRegister := value;
      }
    }

    // The pin is set first, and may be so although the current was not written.
    method SetChargingCurrent(amps: real, overwriteHardwareLimit: bool) returns (ok: bool)
      modifies this`chargeRegister, this`currentPinUsed, this`faults
      ensures ok ==> chargeRegister == ChargeCode(amps) && currentPinUsed == !overwriteHardwareLimit
      ensures chargeRegister == old(chargeRegister) || chargeRegister == ChargeCode(amps)
      ensures currentPinUsed == old(currentPinUsed) || currentPinUsed == !overwriteHardwareLimit
      ensures faults == old(faults) + if ok then 0 else 1
    {
      ok := Access();
      if !ok {
        return;
      }
      var taken: bool := *;
      ok := Access();
      if ok || taken {
        currentPinUsed := !overwriteHardwareLimit;
      }
      if !ok {
        return;
      }
      var current := if amps < CHARGER_MIN then CHARGER_MIN else amps;
      var value := (current * 1000.0 / 50.0).Floor % 0x1_0000 * 4 % 0x1_0000;
      ok := Access();
      taken := *;
      if ok || taken {
        chargeRegister := value;
      }
    }

    // Resets the chip, even one that does not identify itself, and waits until that is done.
    method Init(identified: bool) returns (ok: bool)
      modifies this`adapterRegister, this`chargeRegister, this`currentPinUsed, this`faults
      ensures ok ==> identified && adapterRegister == adapterReset && chargeRegister == chargeReset && currentPinUsed
      ensures adapterRegister == old(adapterRegister) || adapterRegister == adapterReset
      ensures chargeRegister == old(chargeRegister) || chargeRegister == chargeReset
      ensures faults >= old(faults) && (identified && faults == old(faults) ==> ok)
    {
      var read := Access();
      var written := Access();
      var taken: bool := *;
      if written || taken {
        adapterRegister, chargeRegister, currentPinUsed := adapterReset, chargeReset, true;
      }
      if !written {
        return false;
      }
      var polled := Access();
      if !polled {
        return false;
      }
      var pfm := Access();
      var adc := Access();
      var watchdog := Access();
      ok := read && identified && pfm && adc;
    }

    // How the power service configures the charger, after start and after any failed access of the
    // monitoring. The adapter current is left at its reset value.
    method Configure(charge: Reading, override: bool, identified: bool) returns (ok: bool)
      modifies this`adapterRegister, this`chargeRegister, this`currentPinUsed, this`faults
      ensures ok ==>
        && identified && adapterRegister == adapterReset && !currentPinUsed
        && chargeRegister == ChargeCode(InitialCharge(charge, override))
      ensures ok && !override ==>
        && Held(chargeRegister) <= 3.9
        && (charge.Value? && 0.0 < charge.amps <= 3.9 ==> chargeRegister == ChargeCode(charge.amps))
        && (charge.Value? && charge.amps > 3.9 ==> chargeRegister == ChargeCode(3.9))
        && (charge.NaN? || charge.amps <= 0.0 ==> chargeRegister == ChargeCode(2.5))
      ensures ok && override ==>
        && (charge.Value? && charge.amps > 0.0 ==> chargeRegister == ChargeCode(charge.amps))
        && (charge.NaN? || charge.amps <= 0.0 ==> chargeRegister == ChargeCode(2.5))
      ensures adapterRegister == old(adapterRegister) || adapterRegister == adapterReset
      ensures faults >= old(faults) && (identified && faults == old(faults) ==> ok)
    {
      InitialChargeHeld(charge);
      hide ChargeCode, Held;
      ok := Init(identified);
      if !ok {
        return;
      }
      var preCharge := Access();
      var amps := if Positive(charge) then charge.amps else DEFAULT_CHARGE_CURRENT;
      if !override {
        amps := Min(MAX_CHARGE_CURRENT, amps);
      }
      var current := SetChargingCurrent(amps, true);
      var voltage := Access();
      var termination := Access();
      var reCharge := Access();
      var temperature := Access();
      ok := preCharge && current && voltage && termination && reCharge && temperature;
    }

    // The monitoring of a configured charger only reads and resets the watchdog. It fails exactly if
    // an access does, but for the read of the fault status, whose failure goes unnoticed.
    method Monitor() returns (ok: bool)
      modifies this`faults
      ensures faults == old(faults) ==> ok
      ensures ok ==> old(faults) <= faults <= old(faults) + 1
      ensures faults >= old(faults)
    {
      var watchdog := Access();
      var chargeCurrent := Access();
      var batteryVoltage := Access();
      var adapterVoltage := Access();
      var adapterCurrent := Access();
      var status := Access();
      if status {
        var faultStatus := Access();
      }
      ok := watchdog && chargeCurrent && batteryVoltage && adapterVoltage && adapterCurrent && status;
    }
  }

  // What the power service's tick finds: the sample, the override of the charge limit, and whether
  // the charger identifies itself.
  datatype Tick = Tick(s: Sample, override: bool, identified: bool)

  class SaboRobot {
    const board: Board
    const charger: Charger
    var configured: bool
    var lastAdapterLimit: real
    var lastChargeLimit: real
    ghost var adapterLimits: seq<real>    // computed by the calls that passed the guards
    ghost var chargeLimits: seq<real>
    ghost var adapterRequests: seq<real>  // asked of the charger by them
    ghost var chargeRequests: seq<real>
    ghost var configuredBy: Tick          // the tick that last tried to configure the charger
    ghost var adapterAsked: bool          // a request was made since then
    ghost var chargeAsked: bool
    ghost var clean: bool                 // no access failed since then

    // The remembered limits and the requests are those that the limits so far call for.
    ghost predicate Valid()
      reads this`lastAdapterLimit, this`lastChargeLimit, this`adapterLimits, this`chargeLimits
      reads this`adapterRequests, this`chargeRequests
    {
      && charger.rAcSense == R_AC_SENSE && |adapterLimits| == |chargeLimits|
      && Followed(adapterLimits) == Trace(lastAdapterLimit, adapterRequests)
      && Copied(chargeLimits) == Trace(lastChargeLimit, chargeRequests)
      && InRange(board, adapterLimits)
      && ChargesInRange(board, chargeLimits)
    }

    // A register holds what the callback remembers.
    ghost predicate AdapterRight() reads this`lastAdapterLimit, charger`adapterRegister {
      charger.adapterRegister == AdapterCode(lastAdapterLimit, R_AC_SENSE)
    }

    ghost predicate ChargeRight() reads this`lastChargeLimit, charger`chargeRegister {
      charger.chargeRegister == ChargeCode(lastChargeLimit)
    }

    // What the registers of a configured charger hold as long as no access fails: what was asked last
    // since it was configured, and until then the reset value and the configured charge current.
    ghost predicate Tracked()
      reads this`configured, this`clean, this`adapterAsked, this`chargeAsked, this`configuredBy, this`lastAdapterLimit
      reads this`lastChargeLimit, charger`adapterRegister, charger`chargeRegister
    {
      AdapterTracked() && ChargeTracked()
    }

    ghost predicate AdapterTracked()
      reads this`configured, this`clean, this`adapterAsked, this`lastAdapterLimit, charger`adapterRegister
    {
      configured && clean ==>
        if adapterAsked then AdapterRight() else charger.adapterRegister == charger.adapterReset
    }

    ghost predicate ChargeTracked()
      reads this`configured, this`clean, this`chargeAsked, this`configuredBy, this`lastChargeLimit, charger`chargeRegister
    {
      configured && clean ==>
        if chargeAsked then ChargeRight()
        else charger.chargeRegister == ChargeCode(InitialCharge(configuredBy.s.charge, configuredBy.override))
    }

    constructor (board: Board, adapterReset: nat, chargeReset: nat)
      ensures Tracked() && Valid() && adapterLimits == [] && this.board == board && fresh(charger) && !configured
    {
      this.board := board;
      charger := new Charger(R_AC_SENSE, adapterReset, chargeReset);
      configured, lastAdapterLimit, lastChargeLimit := false, 0.0, 0.0;
      adapterLimits, chargeLimits, adapterRequests, chargeRequests := [], [], [], [];
      configuredBy, adapterAsked, chargeAsked, clean := Tick(Sample(NaN, NaN, NaN), false, false), false, false, false;
    }

    // While no access fails, a call makes a register right exactly if it asks for a new current or
    // the register was right before.
    method OnPowerManagement(s: Sample)
      requires Valid() && Tracked()
      modifies this`lastAdapterLimit, this`lastChargeLimit, this`adapterLimits, this`chargeLimits
      modifies this`adapterRequests, this`chargeRequests, this`adapterAsked, this`chargeAsked, this`clean, charger
      ensures Valid() && Tracked() && charger.faults >= old(charger.faults)
      ensures clean == (old(clean) && charger.faults == old(charger.faults))
      ensures adapterAsked == (old(adapterAsked) || adapterRequests != old(adapterRequests))
      ensures chargeAsked == (old(chargeAsked) || chargeRequests != old(chargeRequests))
      ensures !Passes(s) ==>
        && adapterLimits == old(adapterLimits) && chargeLimits == old(chargeLimits)
        && lastAdapterLimit == old(lastAdapterLimit) && lastChargeLimit == old(lastChargeLimit)
        && charger.adapterRegister == old(charger.adapterRegister) && charger.chargeRegister == old(charger.chargeRegister)
        && charger.faults == old(charger.faults)
        && AdapterRight() == old(AdapterRight()) && ChargeRight() == old(ChargeRight())
      ensures Passes(s) ==>
        && adapterLimits == old(adapterLimits) + [AdapterLimit(board, s)]
        && chargeLimits == old(chargeLimits) + [ChargeLimit(board, s)]
      ensures Passes(s) && charger.faults == old(charger.faults) ==>
        && (AdapterRight() <==> Abs(AdapterLimit(board, s) - old(lastAdapterLimit)) > HYSTERESIS || old(AdapterRight()))
        && (ChargeRight() <==> ChargeLimit(board, s) != old(lastChargeLimit) || old(ChargeRight()))
      ensures Passes(s) && Abs(AdapterLimit(board, s) - old(lastAdapterLimit)) <= HYSTERESIS ==>
        && adapterRequests == old(adapterRequests) && lastAdapterLimit == old(lastAdapterLimit)
        && charger.adapterRegister == old(charger.adapterRegister)
      ensures Passes(s) && ChargeLimit(board, s) == old(lastChargeLimit) ==>
        && chargeRequests == old(chargeRequests) && lastChargeLimit == old(lastChargeLimit)
        && charger.chargeRegister == old(charger.chargeRegister)
      ensures Passes(s) && Abs(AdapterLimit(board, s) - old(lastAdapterLimit)) > HYSTERESIS ==>
        adapterRequests == old(adapterRequests) + [AdapterLimit(board, s)]
      ensures Passes(s) && ChargeLimit(board, s) != old(lastChargeLimit) ==>
        chargeRequests == old(chargeRequests) + [ChargeLimit(board, s)]
      ensures !Passes(s) ==> adapterRequests == old(adapterRequests) && chargeRequests == old(chargeRequests)
    {
      hide AdapterLimit, ChargeLimit, AdapterCode, ChargeCode, Followed, Copied, Abs, InRange, ChargesInRange,
        InitialCharge;
      if !s.system.Value? || s.system.amps <= 0.0 {
        return;
      }
      if !s.dcdc.Value? || s.dcdc.amps <= 0.0 {
        return;
      }
      LimitsInRange(board, s);
      LimitsMean(board, s);
      var adapterLimit := Max(MIN_ADAPTER_CURRENT, s.system.amps - s.dcdc.amps - SAFETY_RESERVE);
      adapterLimit := Min(adapterLimit, LimitsOf(board).maxAdapter);
      FollowAdapter(adapterLimit);

      var chargeLimit := if Positive(s.charge) then s.charge.amps else DEFAULT_CHARGE_CURRENT;
      chargeLimit := Min(LimitsOf(board).maxCharge, chargeLimit);
      ChargesGrow(board, chargeLimits, chargeLimit);
      FollowCharge(chargeLimit);
    }

    method FollowAdapter(adapterLimit: real)
      requires charger.rAcSense == R_AC_SENSE && Followed(adapterLimits) == Trace(lastAdapterLimit, adapterRequests)
      requires InRange(board, adapterLimits)
      requires MIN_ADAPTER_CURRENT <= adapterLimit <= LimitsOf(board).maxAdapter && AdapterTracked()
      modifies this`adapterLimits, this`adapterRequests, this`lastAdapterLimit, this`adapterAsked, this`clean
      modifies charger`adapterRegister, charger`faults
      ensures AdapterTracked() && clean == (old(clean) && charger.faults == old(charger.faults))
      ensures adapterAsked == (old(adapterAsked) || adapterRequests != old(adapterRequests))
      ensures Followed(adapterLimits) == Trace(lastAdapterLimit, adapterRequests) && InRange(board, adapterLimits)
      ensures adapterLimits == old(adapterLimits) + [adapterLimit] && charger.faults >= old(charger.faults)
      ensures charger.faults == old(charger.faults) ==>
        (AdapterRight() <==> Abs(adapterLimit - old(lastAdapterLimit)) > HYSTERESIS || old(AdapterRight()))
      ensures Abs(adapterLimit - old(lastAdapterLimit)) <= HYSTERESIS ==>
        && adapterRequests == old(adapterRequests) && lastAdapterLimit == old(lastAdapterLimit)
        && charger.adapterRegister == old(charger.adapterRegister)
      ensures Abs(adapterLimit - old(lastAdapterLimit)) > HYSTERESIS ==>
        adapterRequests == old(adapterRequests) + [adapterLimit]
    {
      FollowedNext(adapterLimits, adapterLimit);
      RangeGrows(board, adapterLimits, adapterLimit);
      hide InRange, AdapterCode, Followed;
      if Abs(adapterLimit - lastAdapterLimit) > HYSTERESIS {
        var ok := charger.SetAdapterCurrent(adapterLimit);
        adapterRequests, adapterAsked, clean := adapterRequests + [adapterLimit], true, clean && ok;
        lastAdapterLimit := adapterLimit;
      }
      adapterLimits := adapterLimits + [adapterLimit];
    }

    method FollowCharge(chargeLimit: real)
      requires Copied(chargeLimits) == Trace(lastChargeLimit, chargeRequests) && ChargeTracked()
      modifies this`chargeLimits, this`chargeRequests, this`lastChargeLimit, this`chargeAsked, this`clean
      modifies charger`chargeRegister, charger`currentPinUsed, charger`faults
      ensures Copied(chargeLimits) == Trace(lastChargeLimit, chargeRequests)
      ensures ChargeTracked() && clean == (old(clean) && charger.faults == old(charger.faults))
      ensures chargeAsked == (old(chargeAsked) || chargeRequests != old(chargeRequests))
      ensures chargeLimits == old(chargeLimits) + [chargeLimit] && charger.faults >= old(charger.faults)
      ensures charger.faults == old(charger.faults) ==>
        (ChargeRight() <==> chargeLimit != old(lastChargeLimit) || old(ChargeRight()))
      ensures chargeLimit == old(lastChargeLimit) ==>
        && chargeRequests == old(chargeRequests) && lastChargeLimit == old(lastChargeLimit)
        && charger.chargeRegister == old(charger.chargeRegister)
      ensures chargeLimit != old(lastChargeLimit) ==> chargeRequests == old(chargeRequests) + [chargeLimit]
    {
      CopiedNext(chargeLimits, chargeLimit);
      hide ChargeCode, Copied, InitialCharge;
      if lastChargeLimit != chargeLimit {
        var ok := charger.SetChargingCurrent(chargeLimit, true);
        chargeRequests, chargeAsked, clean := chargeRequests + [chargeLimit], true, clean && ok;
        lastChargeLimit := chargeLimit;
      }
      chargeLimits := chargeLimits + [chargeLimit];
    }

    // One tick of the power service. A charger that is configured anew has its registers set without
    // the callback's knowing: afterwards the adapter register is right exactly if the limit left the
    // hysteresis around the remembered one or the reset value happens to be right, and the charge
    // register exactly if the limit changed or the configured current has the remembered one's code.
    method Update(t: Tick) returns (ghost called: bool, ghost reconfigured: bool)
      requires Valid() && Tracked()
      modifies this, charger
      ensures Valid() && Tracked() && charger.faults >= old(charger.faults)
      ensures configuredBy == (if reconfigured then t else old(configuredBy))
      ensures clean == ((reconfigured || old(clean)) && charger.faults == old(charger.faults))
      ensures adapterAsked == ((!reconfigured && old(adapterAsked)) || adapterRequests != old(adapterRequests))
      ensures chargeAsked == ((!reconfigured && old(chargeAsked)) || chargeRequests != old(chargeRequests))
      ensures reconfigured == !old(configured) && called == configured
      ensures reconfigured && configured ==> t.identified
      ensures charger.faults == old(charger.faults) && (reconfigured ==> t.identified) ==> configured
      ensures called && Passes(t.s) ==>
        && adapterLimits == old(adapterLimits) + [AdapterLimit(board, t.s)]
        && chargeLimits == old(chargeLimits) + [ChargeLimit(board, t.s)]
      ensures !called || !Passes(t.s) ==>
        && adapterLimits == old(adapterLimits) && chargeLimits == old(chargeLimits)
        && lastAdapterLimit == old(lastAdapterLimit) && lastChargeLimit == old(lastChargeLimit)
      ensures called && Passes(t.s) && charger.faults == old(charger.faults) ==>
        var adapterWas := if reconfigured then charger.adapterReset else old(charger.adapterRegister);
        var chargeWas :=
          if reconfigured then ChargeCode(InitialCharge(t.s.charge, t.override)) else old(charger.chargeRegister);
        && (AdapterRight() <==>
              || Abs(AdapterLimit(board, t.s) - old(lastAdapterLimit)) > HYSTERESIS
              || adapterWas == AdapterCode(old(lastAdapterLimit), R_AC_SENSE))
        && (ChargeRight() <==>
              ChargeLimit(board, t.s) != old(lastChargeLimit) || chargeWas == ChargeCode(old(lastChargeLimit)))
      ensures !reconfigured && (!called || !Passes(t.s)) ==>
        charger.adapterRegister == old(charger.adapterRegister) && charger.chargeRegister == old(charger.chargeRegister)
    {
      hide AdapterLimit, ChargeLimit, AdapterCode, ChargeCode, Passes, InitialCharge, Abs, Valid;
      reconfigured := UpdateCharger(t);
      called := configured;
      if configured {
        OnPowerManagement(t.s);
      }
    }

    // The first half of a tick: monitoring, or the configuration of a charger that needs it.
    method UpdateCharger(t: Tick) returns (ghost reconfigured: bool)
      requires Valid() && Tracked()
      modifies this`configured, this`configuredBy, this`adapterAsked, this`chargeAsked, this`clean, charger
      ensures Valid() && Tracked() && charger.faults >= old(charger.faults) && reconfigured == !old(configured)
      ensures configuredBy == (if reconfigured then t else old(configuredBy))
      ensures clean == ((reconfigured || old(clean)) && charger.faults == old(charger.faults))
      ensures adapterAsked == (!reconfigured && old(adapterAsked)) && chargeAsked == (!reconfigured && old(chargeAsked))
      ensures reconfigured && configured ==> t.identified
      ensures charger.faults == old(charger.faults) && (reconfigured ==> t.identified) ==> configured
      ensures reconfigured && configured ==>
        && charger.adapterRegister == charger.adapterReset
        && charger.chargeRegister == ChargeCode(InitialCharge(t.s.charge, t.override))
      ensures !reconfigured ==>
        charger.adapterRegister == old(charger.adapterRegister) && charger.chargeRegister == old(charger.chargeRegister)
    {
      hide AdapterCode, ChargeCode, InitialCharge, Valid;
      reconfigured := !configured;
      if !configured {
        configured := charger.Configure(t.s.charge, t.override, t.identified);
        configuredBy, adapterAsked, chargeAsked := t, false, false;
      } else {
        configured := charger.Monitor();
      }
      clean := (reconfigured || clean) && charger.faults == old(charger.faults);
    }

    // The witness: a charger configured anew while the sample stays the same is asked for nothing. It
    // keeps the adapter's reset value, and whatever charge current it was configured with.
    method SameSampleAfterReset(s: Sample, override: bool)
      requires Valid() && Tracked() && !configured && Passes(s) && adapterLimits != []
      requires Last(adapterLimits) == AdapterLimit(board, s) && Last(chargeLimits) == ChargeLimit(board, s)
      modifies this, charger
      ensures Valid() && Tracked()
      ensures charger.faults == old(charger.faults) ==>
        && configured && adapterRequests == old(adapterRequests) && chargeRequests == old(chargeRequests)
        && charger.adapterRegister == charger.adapterReset
        && charger.chargeRegister == ChargeCode(InitialCharge(s.charge, override))
    {
      GapBounded(adapterLimits);
      CopiesChanges(chargeLimits);
      GapSymmetric(Last(adapterLimits), lastAdapterLimit);
      hide AdapterLimit, ChargeLimit, AdapterCode, ChargeCode, Followed, Copied, InRange, Passes, InitialCharge;
      ghost var reconfigured := UpdateCharger(Tick(s, override, true));
      if configured {
        OnPowerManagement(s);
      }
    }

    // Any series of ticks, with failures and reconfigurations. `called` lists the samples that
    // reached the callback.
    method Run(ticks: seq<Tick>) returns (ghost called: seq<Sample>)
      requires Valid() && Tracked() && adapterLimits == []
      modifies this, charger
      ensures Valid() && Tracked() && adapterLimits == AdapterLimits(board, called)
      ensures |called| <= |ticks| && forall s :: s in called ==> exists t :: t in ticks && t.s == s
      ensures charger.faults == old(charger.faults) && (forall t :: t in ticks ==> t.identified) ==>
        |called| == |ticks| && forall i :: 0 <= i < |ticks| ==> called[i] == ticks[i].s
      ensures InRange(board, adapterRequests)
      ensures ChargesInRange(board, chargeRequests)
      ensures HYSTERESIS * |adapterRequests| as real <= Variation(AdapterLimits(board, called))
      ensures called != [] && Passes(called[|called| - 1]) ==> Served(called[|called| - 1])
    {
      hide Held, AdapterCode, ChargeCode, AdapterLimit, ChargeLimit, Followed, Copied, Variation, InRange,
        ChargesInRange, Passes, InitialCharge, AdapterLimits, Abs, Valid, AdapterTracked, ChargeTracked, Served;
      called := [];
      NoLimits(board);
      var i := 0;
      while i < |ticks|
        invariant 0 <= i <= |ticks| && Valid() && Tracked()
        invariant adapterLimits == AdapterLimits(board, called) && |called| <= i
        invariant forall s :: s in called ==> exists t :: t in ticks && t.s == s
        invariant charger.faults >= old(charger.faults)
        invariant charger.faults == old(charger.faults) && (forall t :: t in ticks ==> t.identified) ==>
          |called| == i && forall j :: 0 <= j < i ==> called[j] == ticks[j].s
        invariant called != [] && Passes(called[|called| - 1]) ==>
          && adapterLimits != [] && Last(adapterLimits) == AdapterLimit(board, called[|called| - 1])
          && chargeLimits != [] && Last(chargeLimits) == ChargeLimit(board, called[|called| - 1])
      {
        ghost var ran, reset;
        ran, reset := Update(ticks[i]);
        if ran {
          LimitsNext(board, called, ticks[i].s);
          called := called + [ticks[i].s];
          assert ticks[i] in ticks;
        }
        i := i + 1;
      }
      Summary();
      if called != [] && Passes(called[|called| - 1]) {
        ServedLast(called[|called| - 1]);
      }
    }

    // What a call that passed the guards leaves: requests near or at the limits; in an adapter
    // register that is right, the margin exactly under its condition; in a charge register that is
    // right, the limit's code.
    ghost predicate Served(s: Sample)
      requires Passes(s)
      reads this, charger
    {
      && adapterRequests != [] && chargeRequests != []
      && Abs(Last(adapterRequests) - AdapterLimit(board, s)) <= HYSTERESIS
      && Last(chargeRequests) == ChargeLimit(board, s)
      && (AdapterRight() ==>
            && CHARGER_MIN <= Held(charger.adapterRegister) <= LimitsOf(board).maxAdapter
            && (Held(charger.adapterRegister) + s.dcdc.amps <= s.system.amps - 0.15
                <==> s.system.amps - s.dcdc.amps - SAFETY_RESERVE >= CHARGER_MIN - HYSTERESIS)
            && (Held(charger.adapterRegister) <= AdapterLimit(board, s) + HYSTERESIS
                <==> AdapterLimit(board, s) >= CHARGER_MIN - HYSTERESIS))
      && (ChargeRight() ==>
            && charger.chargeRegister == ChargeCode(ChargeLimit(board, s))
            && CHARGER_MIN <= Held(charger.chargeRegister) <= LimitsOf(board).maxCharge)
    }

    lemma ServedLast(s: Sample)
      requires Valid() && Passes(s)
      requires adapterLimits != [] && Last(adapterLimits) == AdapterLimit(board, s)
      requires chargeLimits != [] && Last(chargeLimits) == ChargeLimit(board, s)
      ensures Served(s)
    {
      LimitsInRange(board, s);
      Summary();
      MarginKept(board, s, adapterLimits);
      RegisterGap(board, adapterLimits);
      HeldBounds(lastChargeLimit);
      BoardLimitHeld(board, lastChargeLimit);
      GapSymmetric(Last(adapterLimits), lastAdapterLimit);
      hide AdapterLimit, ChargeLimit, AdapterCode, ChargeCode, Held, Followed, Copied, Abs;
    }

    lemma Summary()
      requires Valid()
      ensures InRange(board, adapterRequests)
      ensures ChargesInRange(board, chargeRequests)
      ensures HYSTERESIS * |adapterRequests| as real <= Variation(adapterLimits)
      ensures Abs(Last(adapterLimits) - lastAdapterLimit) <= HYSTERESIS
      ensures lastAdapterLimit == Last(adapterRequests)
      ensures lastChargeLimit == Last(chargeLimits) == Last(chargeRequests)
    {
      WritesAmortised(adapterLimits);
      GapBounded(adapterLimits);
      WritesAreLimits(adapterLimits);
      CopiesChanges(chargeLimits);
      hide Variation, Followed, Copied;
    }
  }

  lemma GapSymmetric(a: real, b: real)
    ensures Abs(a - b) == Abs(b - a)
  {
  }

  // The override of the charge limit, and a configured current of 20 A: the charger holds more than
  // any board's limit.
  lemma OverrideExceeds(board: Board)
    ensures Held(ChargeCode(InitialCharge(Value(20.0), true))) > LimitsOf(board).maxCharge
    ensures ChargeLimit(board, Sample(NaN, NaN, Value(20.0))) == LimitsOf(board).maxCharge
  {
    assert 20.0 * 1000.0 / 50.0 == 400.0;
  }

  lemma FollowedNext(limits: seq<real>, limit: real)
    ensures Followed(limits + [limit]) ==
      var t := Followed(limits);
      if Abs(limit - t.last) > HYSTERESIS then Trace(limit, t.writes + [limit]) else t
  {
    assert (limits + [limit])[..|limits|] == limits;
  }

  lemma CopiedNext(limits: seq<real>, limit: real)
    ensures Copied(limits + [limit]) ==
      var t := Copied(limits);
      if t.last != limit then Trace(limit, t.writes + [limit]) else t
  {
    assert (limits + [limit])[..|limits|] == limits;
  }

  lemma NoLimits(board: Board)
    ensures AdapterLimits(board, []) == []
  {
  }

  lemma LimitsNext(board: Board, samples: seq<Sample>, s: Sample)
    ensures AdapterLimits(board, samples + [s]) ==
      if Passes(s) then AdapterLimits(board, samples) + [AdapterLimit(board, s)] else AdapterLimits(board, samples)
  {
    assert (samples + [s])[..|samples|] == samples;
  }

  // The limits that the calls passing the guards compute.
  function AdapterLimits(board: Board, samples: seq<Sample>): seq<real>
    decreases |samples|
  {
    if samples == [] then []
    else
      var front, s := AdapterLimits(board, samples[..|samples| - 1]), samples[|samples| - 1];
      if Passes(s) then front + [AdapterLimit(board, s)] else front
  }
}
