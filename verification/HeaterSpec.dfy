/** pb_heater.c as transitions on values. Each function is one critical section of the source. */
module HeaterSpec {
  import opened Values
  import opened SafetyRules
  import opened SsrWindow

  datatype ControlMethod = BangBang | Pid

  /** The result of the shared PID step, whose arithmetic is not part of the repository. */
  datatype PidResult = PidFailed | PidOutput(duty: real)

  datatype Status = Ok | InvalidArg | InvalidState | StoreFailed

  // --- The control loop: state that only the control task touches ---------------------

  datatype Loop = Loop(
    on: bool,
    heatIntent: bool,
    fbCut: bool,
    localCut: bool,
    source: Option<bool>,      // Some(external?) once a process variable was selected
    window: Window,
    methodPrev: Option<ControlMethod>)

  /** Everything one pass of the loop reads from shared state and sensors. */
  datatype View = View(
    target: real,
    latched: bool,
    linkExpired: bool,
    control: Float,
    userCut: real,
    rref: int,
    controlMethod: ControlMethod,
    ptc: Reading,
    chamber: Reading,
    pid: PidResult,
    now: int)
  {
    predicate Armed() { target > 0.0 }
    function Trip(): Fault { EvalTrip(ptc, chamber, Armed(), linkExpired) }
    predicate Running() { Trip() == NoFault && !latched && Armed() }
    function Cut(): real { EffectiveFoldback(userCut, rref).0 }
    function Resume(): real { EffectiveFoldback(userCut, rref).1 }
    function Regulated(): real
      requires Running()
    {
      if control.Finite? then control.c else chamber.c
    }
  }

  function Disarmed(l: Loop): Loop {
    Loop(false, false, false, false, None, None, l.methodPrev)
  }

  function PidReset(l: Loop): Loop {
    l.(source := None, window := None)
  }

  function SelectSource(l: Loop, external: bool): Loop {
    if l.source == Some(external) then l else l.(source := Some(external), window := None)
  }

  /** The process variable selected and both soft cuts advanced. */
  function Cuts(l: Loop, v: View): Loop
    requires v.Running()
  {
    var external := v.control.Finite?;
    SelectSource(l, external).(
      localCut := external && LocalFoldbackCut(v.chamber, l.localCut),
      fbCut := FoldbackCut(v.ptc, l.fbCut, v.Cut(), v.Resume()))
  }

  /** A change of method starts both paths from clean history. */
  function Synced(l: Loop, m: ControlMethod): Loop {
    if l.methodPrev == Some(m) then l else PidReset(l).(heatIntent := false, methodPrev := Some(m))
  }

  function DriveSsr(l: Loop, v: View): Loop
    requires v.Running()
  {
    var l2 := Synced(Cuts(l, v), v.controlMethod);
    var cut := l2.localCut || l2.fbCut;
    var reg := v.Regulated();
    match v.controlMethod
    case BangBang =>
      var intent := if reg < v.target - HYSTERESIS_C then true
                    else if reg >= v.target then false
                    else l2.heatIntent;
      l2.(heatIntent := intent, on := intent && !cut)
    case Pid =>
      var duty := if v.pid.PidFailed? || reg >= v.target || cut then 0.0 else v.pid.duty;
      var (w, drive) := WindowOn(l2.window, duty, v.now);
      l2.(window := w, on := drive)
  }

  /** One pass of the loop; a trip only drops the SSR, the latching itself is DoLatch. */
  function Control(l: Loop, v: View): Loop {
    if v.Trip() != NoFault then l.(on := false)
    else if !v.Running() then Disarmed(l)
    else DriveSsr(l, v)
  }

  // --- The fault store -----------------------------------------------------------------

  /** The two fault keys on flash; None is a key (or namespace) that was never written. */
  datatype FaultStore = FaultStore(latch: Option<nat>, code: Option<nat>)
  {
    predicate Latched() { latch.Some? && latch.value != 0 }
  }

  function WriteFault(s: FaultStore, latched: bool, code: Fault, ok: bool): FaultStore {
    if ok then FaultStore(Some(if latched then 1 else 0), Some(FaultCode(code))) else s
  }

  /** How the flash answers the boot-time read. */
  datatype BootRead = ReadsBack(codeReadable: bool) | OpenFails | LatchReadFails

  function Restore(s: FaultStore, read: BootRead): Option<Fault> {
    var nsMissing := s.latch.None? && s.code.None?;
    var open := !read.OpenFails?;
    var keyOk := read.ReadsBack?;
    FaultDecide(open && !nsMissing, open && nsMissing,
                open && keyOk && s.latch.Some?, open && keyOk && s.latch.None?,
                if s.latch.Some? then s.latch.value else 0,
                if keyOk && read.codeReadable && s.code.Some? then s.code.value else 0)
  }

  // --- Shared heater state ----------------------------------------------------------------

  /** The fault latch in RAM, its copy on flash, and the deferred write of that copy. */
  datatype Latch = Latch(
    latched: bool,
    inhibited: bool,
    code: Fault,
    pending: bool,
    retryAt: int,
    store: FaultStore)
  {
    predicate Faulted() { latched || inhibited }
  }

  datatype Settings = Settings(
    maxTarget: real,
    commsMs: int,
    coolRelease: real,
    userCut: real,
    controlMethod: ControlMethod)

  datatype Heater = Heater(
    loop: Loop,
    target: real,
    control: Float,
    lastLink: int,
    latch: Latch,
    settings: Settings)
  {
    predicate HeatMode() { target > 0.0 && !latch.latched }
  }

  ghost predicate InBounds(s: Settings) {
    && MIN_TARGET_C <= s.maxTarget <= ABS_MAX_TARGET_C
    && COMMS_MIN_MS <= s.commsMs <= COMMS_MAX_MS
    && COOL_RELEASE_MIN_C <= s.coolRelease <= COOL_RELEASE_MAX_C
    && (s.userCut == 0.0 || FB_CUT_MIN_C <= s.userCut <= FB_CUT_MAX_C)
  }

  ghost predicate Latching(l: Latch) {
    && (l.pending ==> l.latched)
    && (l.store.Latched() ==> l.latched)
  }

  /** What every transition keeps, whatever settings were stored or sent. */
  ghost predicate Safe(h: Heater) {
    && 0.0 <= h.target <= h.settings.maxTarget
    && (h.latch.Faulted() ==> h.target == 0.0)
    && InBounds(h.settings)
    && Latching(h.latch)
  }

  // --- Commands and settings ------------------------------------------------------------------

  function SetTarget(h: Heater, t: Float): (Heater, Status) {
    if t.NonFinite? then (h, InvalidArg)
    else
      var c := Min(if t.c < 0.0 then 0.0 else t.c, h.settings.maxTarget);
      if h.latch.Faulted() && c > 0.0 then (h, InvalidState) else (h.(target := c), Ok)
  }

  function SetControlChamber(h: Heater, t: Float): Heater {
    h.(control := t)
  }

  function SetMaxTarget(h: Heater, c: Float): (Heater, Status) {
    if c.NonFinite? then (h, InvalidArg)
    else
      var m := Clamp(c.c, MIN_TARGET_C, ABS_MAX_TARGET_C);
      (h.(settings := h.settings.(maxTarget := m), target := Min(h.target, m)), Ok)
  }

  function SetCommsTimeout(h: Heater, ms: nat): Heater {
    h.(settings := h.settings.(commsMs := ClampInt(ms, COMMS_MIN_MS, COMMS_MAX_MS)))
  }

  function SetCoolRelease(h: Heater, c: Float): (Heater, Status) {
    if c.NonFinite? then (h, InvalidArg)
    else (h.(settings := h.settings.(coolRelease := Clamp(c.c, COOL_RELEASE_MIN_C, COOL_RELEASE_MAX_C))), Ok)
  }

  function UserCut(c: real): real {
    if c <= 0.0 then 0.0 else Clamp(c, FB_CUT_MIN_C, FB_CUT_MAX_C)
  }

  function SetFbCut(h: Heater, c: Float): (Heater, Status) {
    if c.NonFinite? then (h, InvalidArg) else (h.(settings := h.settings.(userCut := UserCut(c.c))), Ok)
  }

  function SetMethod(h: Heater, m: ControlMethod): Heater {
    h.(settings := h.settings.(controlMethod := m))
  }

  function NotifyLink(h: Heater, now: int): Heater {
    h.(lastLink := now)
  }

  // --- Fault latch ----------------------------------------------------------------------

  /** The latch itself; only the transition from clear to latched is written to flash. */
  function SetLatch(l: Latch, code: Fault, inhibit: bool, persist: bool, storeOk: bool): Latch {
    var m := l.(latched := true, inhibited := l.inhibited || inhibit, code := code);
    if persist && !l.latched
    then m.(store := WriteFault(l.store, true, code, storeOk), pending := l.pending || !storeOk)
    else m
  }

  function DoLatch(h: Heater, code: Fault, inhibit: bool, drive: bool, persist: bool, storeOk: bool): Heater {
    h.(loop := if drive then h.loop.(on := false) else h.loop,
       target := 0.0, latch := SetLatch(h.latch, code, inhibit, persist, storeOk))
  }

  function EmergencyOff(h: Heater, storeOk: bool): Heater {
    DoLatch(h, Emergency, false, true, true, storeOk)
  }

  function RequestPanicOff(h: Heater): Heater {
    DoLatch(h, PanicOff, false, false, false, false)
  }

  function Inhibit(h: Heater): Heater {
    DoLatch(h, InhibitedFault, true, true, false, false)
  }

  /** First half of a clear: refuse under an inhibit, then clear the flash copy. */
  function ClearStore(h: Heater, storeOk: bool): (Heater, Status) {
    if h.latch.inhibited then (h, InvalidState)
    else (h.(latch := h.latch.(store := WriteFault(h.latch.store, false, NoFault, storeOk))),
          if storeOk then Ok else StoreFailed)
  }

  /** Second half, reached only after the flash copy is clear. */
  function ClearRam(h: Heater): Heater {
    h.(target := 0.0, latch := h.latch.(latched := false, code := NoFault, pending := false))
  }

  /** Deferred persist: throttled to one attempt per 2 s, skipped while the persist lock is busy. */
  function Retry(l: Latch, now: int, lockFree: bool, storeOk: bool): Latch {
    if l.pending && now - l.retryAt >= 2_000_000 && lockFree then
      l.(retryAt := now,
         store := if l.latched then WriteFault(l.store, true, l.code, storeOk) else l.store,
         pending := l.latched && !storeOk)
    else l
  }

  // --- Boot ---------------------------------------------------------------------------------

  function InitHeater(now: int, store: FaultStore): Heater {
    Heater(Loop(false, false, false, false, None, None, None), 0.0, NonFinite, now,
           Latch(false, false, NoFault, false, 0, store),
           Settings(ABS_MAX_TARGET_C, COMMS_MAX_MS, COOL_RELEASE_DEFAULT_C, 0.0, BangBang))
  }

  function OrElse(v: Option<nat>, default: nat): nat {
    if v.Some? then v.value else default
  }

  /** The settings on flash, in their stored units; nothing about them is trusted. */
  datatype Stored = Stored(maxCenti: Option<nat>, commsMs: Option<nat>, coolCenti: Option<nat>,
                           fbCenti: Option<nat>, controlMethod: Option<nat>)

  const NO_SETTINGS := Stored(None, None, None, None, None)

  /** A temperature as it is written to flash. */
  function StoredCenti(c: real): nat {
    (Clamp(c, 0.0, 200.0) * 100.0 + 0.5).Floor
  }

  function Loaded(s: Stored): Settings {
    Settings(Clamp(OrElse(s.maxCenti, 7000) as real / 100.0, MIN_TARGET_C, ABS_MAX_TARGET_C),
             ClampInt(OrElse(s.commsMs, COMMS_MAX_MS), COMMS_MIN_MS, COMMS_MAX_MS),
             Clamp(OrElse(s.coolCenti, 4000) as real / 100.0, COOL_RELEASE_MIN_C, COOL_RELEASE_MAX_C),
             UserCut(OrElse(s.fbCenti, 0) as real / 100.0),
             if s.controlMethod == Some(1) then Pid else BangBang)
  }

  function LoadConfig(h: Heater, s: Stored): Heater {
    h.(settings := Loaded(s), target := Min(h.target, Loaded(s).maxTarget))
  }

  function LoadFault(h: Heater, read: BootRead): Heater {
    match Restore(h.latch.store, read)
    case Some(code) => DoLatch(h, code, false, false, false, false)
    case None => h
  }

  // --- The tick ---------------------------------------------------------------------------

  /** What one heater tick meets outside: the clock, flash outcomes, sensors, board, PID result. */
  datatype Surroundings = Surroundings(
    now: int, lockFree: bool, retryOk: bool, tripOk: bool,
    ptc: Reading, chamber: Reading, rref: int, pid: PidResult)

  function ViewOf(h: Heater, e: Surroundings): View {
    View(h.target, h.latch.latched, e.now - h.lastLink > h.settings.commsMs * 1000, h.control,
         h.settings.userCut, e.rref, h.settings.controlMethod, e.ptc, e.chamber, e.pid, e.now)
  }

  function Tick(h: Heater, e: Surroundings): Heater {
    var h1 := h.(latch := Retry(h.latch, e.now, e.lockFree, e.retryOk));
    var v := ViewOf(h1, e);
    if v.Trip() != NoFault then DoLatch(h1, v.Trip(), false, true, true, e.tripOk)
    else h1.(loop := Control(h1.loop, v))
  }

  // --- What a tick guarantees ------------------------------------------------------------------

  /** Where the element is cut: at the user's temperature if there is one, else at the board's. */
  ghost function ElementCut(userCut: real, rref: int): real {
    if userCut > 0.0 then userCut else if rref == 33 then 99.0 else 102.0
  }

  /** The conditions under which the SSR may be on after a tick. */
  ghost predicate Envelope(h: Heater, e: Surroundings) {
    && !h.latch.Faulted() && 0.0 < h.target <= h.settings.maxTarget
    && e.ptc.Valid? && e.ptc.c < ElementCut(h.settings.userCut, e.rref) <= 104.0
    && e.chamber.Valid? && e.chamber.c < 85.0
    && (if h.control.Finite? then h.control.c < h.target && e.chamber.c < 72.0
        else e.chamber.c < h.target)
    && e.now - h.lastLink <= h.settings.commsMs * 1000
  }

  lemma OnlyInsideEnvelope(h: Heater, e: Surroundings)
    requires Safe(h)
    ensures Safe(Tick(h, e))
    ensures Tick(h, e).loop.on ==> Envelope(Tick(h, e), e)
  {
  }

  /** A tick latches the heater off exactly when some hazard is present, with the cause that ranks highest; a sensor
      that does not answer and a link that expired are hazards only while heat is asked for. Otherwise it leaves the
      target alone. Command inputs and settings are no business of a tick. */
  lemma HazardLatches(h: Heater, e: Surroundings, f: Fault)
    ensures var r, armed, expired := Tick(h, e), h.target > 0.0, e.now - h.lastLink > h.settings.commsMs * 1000;
            && (r.latch.latched <==>
                  || h.latch.latched
                  || (e.ptc.Valid? && e.ptc.c >= 105.0) || (e.chamber.Valid? && e.chamber.c >= 85.0)
                  || (armed && (e.ptc.Invalid? || e.chamber.Invalid? || expired)))
            && (Hazard(f, e.ptc, e.chamber, armed, expired) ==>
                  && Hazard(r.latch.code, e.ptc, e.chamber, armed, expired) && Rank(r.latch.code) <= Rank(f)
                  && r.target == 0.0 && r.loop == h.loop.(on := false))
            && (r.target == h.target || (r.latch.latched && r.target == 0.0))
            && r.latch.inhibited == h.latch.inhibited
            && r.settings == h.settings && r.control == h.control && r.lastLink == h.lastLink
  {
    hide DriveSsr, WriteFault;
  }

  /** A latch that is new and persisted is written as 1 with its cause, if flash takes it, and is owed otherwise; one
      that is not new leaves flash alone. */
  lemma LatchIsWritten(l: Latch, code: Fault, inhibit: bool, persist: bool, storeOk: bool)
    ensures var r := SetLatch(l, code, inhibit, persist, storeOk);
            && r.latched && r.code == code && (r.inhibited <==> l.inhibited || inhibit) && r.retryAt == l.retryAt
            && r.store == (if persist && !l.latched && storeOk
                           then FaultStore(Some(1), Some(FaultCode(code))) else l.store)
            && (r.pending <==> l.pending || (persist && !l.latched && !storeOk))
  {
  }

  /** An owed write is tried at most once every 2 s, and only if nobody else is writing. It pays the debt if flash
      takes it, or if the latch has gone meanwhile. */
  lemma DebtIsRetried(l: Latch, now: int, lockFree: bool, storeOk: bool)
    ensures var r, due := Retry(l, now, lockFree, storeOk), l.pending && now - l.retryAt >= 2_000_000 && lockFree;
            && (!due ==> r == l)
            && (due ==>
                  && r.latched == l.latched && r.inhibited == l.inhibited && r.code == l.code && r.retryAt == now
                  && (r.pending <==> l.latched && !storeOk)
                  && r.store == if l.latched && storeOk then FaultStore(Some(1), Some(FaultCode(l.code))) else l.store)
  {
  }

  /** The heater's own halves of a clear: an inhibit refuses the first; the second leaves nothing of the latch, and no
      target. */
  lemma ClearHalves(h: Heater, storeOk: bool)
    ensures var (r, st) := ClearStore(h, storeOk);
            && (st == InvalidState <==> h.latch.inhibited) && (st == StoreFailed <==> !h.latch.inhibited && !storeOk)
            && (st != Ok ==> r == h)
            && (st == Ok ==> r == h.(latch := h.latch.(store := FaultStore(Some(0), Some(0)))))
    ensures ClearRam(h) == h.(target := 0.0, latch := ClearRam(h).latch)
    ensures var l := ClearRam(h).latch;
            !l.latched && !l.pending && l.code == NoFault && l.inhibited == h.latch.inhibited
  {
  }

  /** A target is refused if it is no number or if it asks a faulted heater for heat; else it is cut to zero and the
      ceiling. */
  lemma TargetAnswers(h: Heater, t: Float)
    requires Safe(h)
    ensures var (r, st) := SetTarget(h, t);
            && (st == InvalidArg <==> t.NonFinite?)
            && (st == InvalidState <==> t.Finite? && t.c > 0.0 && (h.latch.latched || h.latch.inhibited))
            && (st != Ok ==> r == h)
            && (st == Ok ==> r == h.(target := if t.c < 0.0 then 0.0 else Min(t.c, h.settings.maxTarget)))
  {
  }

  lemma SettingsKeepSafe(h: Heater, t: Float, ms: nat, m: ControlMethod)
    requires Safe(h)
    ensures Safe(SetMaxTarget(h, t).0) && Safe(SetCommsTimeout(h, ms)) && Safe(SetCoolRelease(h, t).0)
    ensures Safe(SetFbCut(h, t).0) && Safe(SetMethod(h, m))
  {
  }

  /** Every key written on its own reads back as the setting to the nearest hundredth, and leaves what the other
      keys give alone. */
  lemma WrittenSettingReloads(st: Stored, s: Settings)
    requires InBounds(s)
    ensures var l := Loaded(st.(maxCenti := Some(StoredCenti(s.maxTarget))));
            -0.005 <= l.maxTarget - s.maxTarget <= 0.005 && l == Loaded(st).(maxTarget := l.maxTarget)
    ensures Loaded(st.(commsMs := Some(s.commsMs))) == Loaded(st).(commsMs := s.commsMs)
    ensures var l := Loaded(st.(coolCenti := Some(StoredCenti(s.coolRelease))));
            -0.005 <= l.coolRelease - s.coolRelease <= 0.005 && l == Loaded(st).(coolRelease := l.coolRelease)
    ensures var l := Loaded(st.(fbCenti := Some(StoredCenti(s.userCut))));
            && -0.005 <= l.userCut - s.userCut <= 0.005 && (l.userCut == 0.0 <==> s.userCut == 0.0)
            && l == Loaded(st).(userCut := l.userCut)
    ensures Loaded(st.(controlMethod := Some(if s.controlMethod == Pid then 1 else 0)))
            == Loaded(st).(controlMethod := s.controlMethod)
  {
  }

  lemma LatchingKeepsSafe(h: Heater, code: Fault, inhibit: bool, drive: bool, persist: bool, ok: bool)
    requires Safe(h)
    ensures Safe(DoLatch(h, code, inhibit, drive, persist, ok))
    ensures Safe(ClearStore(h, ok).0)
  {
  }

  lemma BootIsSafe(now: int, store: FaultStore, s: Stored, read: BootRead)
    ensures var h := LoadFault(LoadConfig(InitHeater(now, store), s), read);
            Safe(h) && !h.loop.on && h.target == 0.0 && h.latch.store == store
  {
  }
}
