/** The stateless safety decisions of pb_heater.h. */
module SafetyRules {
  import opened Values

  datatype Fault =
    | NoFault
    | PtcOvertemp
    | ChamberOvertemp
    | ChamberSensor
    | PtcSensor
    | LinkLost
    | PanicOff
    | InhibitedFault
    | Emergency
    | NvsUnreadable

  const PTC_CUTOFF_C := 105.0
  const CHAMBER_MAX_C := 85.0
  const HYSTERESIS_C := 1.0
  const LOCAL_CUT_C := 72.0
  const LOCAL_RESUME_C := 67.0
  const FOLDBACK_BAND_C := 3.0
  const FB_CUT_MIN_C := 90.0
  const FB_CUT_MAX_C := 104.0
  const ABS_MAX_TARGET_C := 70.0
  const MIN_TARGET_C := 30.0
  const COMMS_MIN_MS := 10_000
  const COMMS_MAX_MS := 300_000
  const COOL_RELEASE_DEFAULT_C := 40.0
  const COOL_RELEASE_MIN_C := 30.0
  const COOL_RELEASE_MAX_C := 65.0

  // --- Trip decision ---------------------------------------------------------

  function EvalTrip(ptc: Reading, chamber: Reading, armed: bool, linkExpired: bool): Fault {
    if ptc.Valid? && ptc.c >= PTC_CUTOFF_C then PtcOvertemp
    else if chamber.Valid? && chamber.c >= CHAMBER_MAX_C then ChamberOvertemp
    else if armed && chamber.Invalid? then ChamberSensor
    else if armed && ptc.Invalid? then PtcSensor
    else if armed && linkExpired then LinkLost
    else NoFault
  }

  /** A hazard, listed independently of the order in which the trips are tested. */
  ghost predicate Hazard(f: Fault, ptc: Reading, chamber: Reading, armed: bool, linkExpired: bool) {
    match f
    case PtcOvertemp => ptc.Valid? && ptc.c >= 105.0
    case ChamberOvertemp => chamber.Valid? && chamber.c >= 85.0
    case ChamberSensor => armed && chamber.Invalid?
    case PtcSensor => armed && ptc.Invalid?
    case LinkLost => armed && linkExpired
    case _ => false
  }

  /** Priority of the trips, highest first. */
  function Rank(f: Fault): nat {
    match f
    case PtcOvertemp => 0
    case ChamberOvertemp => 1
    case ChamberSensor => 2
    case PtcSensor => 3
    case LinkLost => 4
    case _ => 5
  }

  /** The trip is the highest-priority hazard present, and there is one exactly when some hazard is. */
  lemma TripIsTopHazard(ptc: Reading, chamber: Reading, armed: bool, linkExpired: bool, f: Fault)
    ensures var t := EvalTrip(ptc, chamber, armed, linkExpired);
            && (t != NoFault ==> Hazard(t, ptc, chamber, armed, linkExpired))
            && (Hazard(f, ptc, chamber, armed, linkExpired) ==> t != NoFault && Rank(t) <= Rank(f))
  {
  }

  // --- Foldback hysteresis ----------------------------------------------------

  function FoldbackThresholds(rrefKohm: int): (real, real) {
    if rrefKohm == 33 then (99.0, 96.0) else (102.0, 99.0)
  }

  function EffectiveFoldback(userCut: real, rrefKohm: int): (real, real) {
    if userCut > 0.0 then (userCut, userCut - FOLDBACK_BAND_C) else FoldbackThresholds(rrefKohm)
  }

  function FoldbackCut(ptc: Reading, previous: bool, cut: real, resume: real): bool {
    if ptc.Invalid? then previous
    else if ptc.c >= cut then true
    else if ptc.c < resume then false
    else previous
  }

  function LocalFoldbackCut(chamber: Reading, previous: bool): bool {
    FoldbackCut(chamber, previous, LOCAL_CUT_C, LOCAL_RESUME_C)
  }

  // --- Boot-time restore of the fault latch -------------------------------------

  function FaultCode(f: Fault): nat {
    match f
    case NoFault => 0
    case PtcOvertemp => 1
    case ChamberOvertemp => 2
    case ChamberSensor => 3
    case PtcSensor => 4
    case LinkLost => 5
    case PanicOff => 6
    case InhibitedFault => 7
    case Emergency => 8
    case NvsUnreadable => 9
  }

  const FAULT_COUNT := 10

  function FaultOfCode(v: nat): Fault
    requires v < FAULT_COUNT
  {
    [NoFault, PtcOvertemp, ChamberOvertemp, ChamberSensor, PtcSensor,
     LinkLost, PanicOff, InhibitedFault, Emergency, NvsUnreadable][v]
  }

  /** Some(code) to come up latched, None to come up clear. */
  function FaultDecide(openOk: bool, nsNotFound: bool, latchReadOk: bool, latchNotFound: bool,
                       latchVal: nat, codeVal: nat): Option<Fault>
  {
    if nsNotFound || latchNotFound then None
    else if !openOk || !latchReadOk then Some(NvsUnreadable)
    else if latchVal != 0 then
      Some(if codeVal < FAULT_COUNT && codeVal != FaultCode(NoFault) then FaultOfCode(codeVal) else Emergency)
    else None
  }

  /** A latch written with a real cause comes back as exactly that cause; a corrupt code still latches. */
  lemma PersistedCauseSurvives(f: Fault, latchVal: nat, corrupt: nat)
    requires latchVal != 0 && f != NoFault && (corrupt == 0 || corrupt >= FAULT_COUNT)
    ensures FaultDecide(true, false, true, false, latchVal, FaultCode(f)) == Some(f)
    ensures FaultDecide(true, false, true, false, latchVal, corrupt) == Some(Emergency)
  {
  }
}
