/** The remembered mode parameters and their write-back to flash. */
module ParamStore {
  import opened Values
  import opened SafetyRules
  import opened HeaterSpec
  import opened PolicySpec
  import opened System
  import opened Authority

  datatype Key = Manual | AutoTgt | AutoBed | DryTgt | DryHrs | FiltTmp | FiltEn

  const KEYS := [Manual, AutoTgt, AutoBed, DryTgt, DryHrs, FiltTmp, FiltEn]

  /** Flash values are unsigned; a key that was never written is absent. */
  type Flash = map<Key, nat>

  function Centi(c: real): nat {
    if c < 0.0 then 0 else (c * 100.0 + 0.5).Floor
  }

  function Degrees(centi: nat): real {
    centi as real / 100.0
  }

  function Encode(p: Params, k: Key): nat {
    match k
    case Manual => Centi(p.manual)
    case AutoTgt => Centi(p.autoTarget)
    case AutoBed => Centi(p.autoBed)
    case DryTgt => Centi(p.dryTarget)
    case DryHrs => p.dryHours
    case FiltTmp => Centi(p.filterTemp)
    case FiltEn => if p.filterEnable then 1 else 0
  }

  // --- Loading -------------------------------------------------------------------------

  function ReadDegrees(f: Flash, k: Key, lo: real, hi: real, default: real): real {
    Clamp(if k in f then Degrees(f[k]) else default, lo, hi)
  }

  /** The parameters a boot with this ceiling reads back. */
  function Load(f: Flash, ceiling: real): Params {
    var top := Clamp(ceiling, MIN_MODE_TARGET_C, ABS_MAX_TARGET_C);
    var stored := if DryHrs in f then (if f[DryHrs] > 255 then 255 else f[DryHrs]) else DEFAULT_PARAMS.dryHours;
    Params(ReadDegrees(f, Manual, MIN_MODE_TARGET_C, top, DEFAULT_PARAMS.manual),
           ReadDegrees(f, AutoTgt, MIN_MODE_TARGET_C, top, DEFAULT_PARAMS.autoTarget),
           ReadDegrees(f, AutoBed, BED_MIN_C, BED_MAX_C, DEFAULT_PARAMS.autoBed),
           ReadDegrees(f, DryTgt, MIN_MODE_TARGET_C, top, DEFAULT_PARAMS.dryTarget),
           if stored == 0 || stored > DRYING_MAX_HOURS then DEFAULT_PARAMS.dryHours else stored,
           ReadDegrees(f, FiltTmp, FILTER_MIN_C, FILTER_MAX_C, DEFAULT_PARAMS.filterTemp),
           if FiltEn in f then f[FiltEn] != 0 else DEFAULT_PARAMS.filterEnable)
  }

  // --- Writing ---------------------------------------------------------------------------

  predicate Differs(p: Params, written: Option<Params>, k: Key) {
    written.None? || Encode(p, k) != Encode(written.value, k)
  }

  /** A committed batch: only the keys that differ from the cached copy. */
  function Batch(f: Flash, p: Params, written: Option<Params>): Flash {
    f + map k | k in KEYS && Differs(p, written, k) :: Encode(p, k)
  }

  /** The simple form: every key, every time. */
  function WriteAll(f: Flash, p: Params): Flash {
    f + map k | k in KEYS :: Encode(p, k)
  }

  // --- The store over time --------------------------------------------------------------------

  /** `draining` is the snapshot the worker took and has not finished writing. The last three fields are history that
      no decision reads: the ceiling in hundredths and the readable keys of the last boot, and the keys written since
      then. */
  datatype Store = Store(params: Params, dirty: bool, flash: Flash, written: Option<Params>, draining: Option<Params>,
                         top: nat, readable: set<Key>, saved: set<Key>)

  datatype Op = Accept(p: Params) | Take | Write(ok: bool) | Restart(top: nat, readable: set<Key>)

  function Do(s: Store, op: Op): Store {
    match op
    case Accept(p) => s.(params := p, dirty := true)
    case Take => if s.dirty && s.draining.None? then s.(dirty := false, draining := Some(s.params)) else s
    case Write(ok) =>
      if s.draining.None? then s
      else
        var p := s.draining.value;
        if forall k <- KEYS :: !Differs(p, s.written, k) then s.(draining := None)
        else if ok then
          s.(flash := Batch(s.flash, p, s.written), written := Some(p), draining := None,
             saved := s.saved + set k | k in KEYS && Differs(p, s.written, k))
        else s.(dirty := true, draining := None)
    case Restart(top, readable) => Boot(s.flash, top, readable)
  }

  /** What of flash a boot can read; a key it cannot read counts as never written. */
  function Seen(f: Flash, readable: set<Key>): Flash {
    map k | k in f && k in readable :: f[k]
  }

  function Boot(f: Flash, top: nat, readable: set<Key>): Store {
    var p := Load(Seen(f, readable), Degrees(top));
    Store(p, false, f, Some(p), None, top, readable, {})
  }

  function After(f: Flash, top: nat, readable: set<Key>, ops: seq<Op>): Store {
    if ops == [] then Boot(f, top, readable) else Do(After(f, top, readable, ops[..|ops| - 1]), ops[|ops| - 1])
  }

  // --- Hundredths ----------------------------------------------------------------------------

  /** The parameters with every temperature rounded to the nearest hundredth. */
  function Hundredths(p: Params): Params {
    Params(Degrees(Centi(p.manual)), Degrees(Centi(p.autoTarget)), Degrees(Centi(p.autoBed)),
           Degrees(Centi(p.dryTarget)), p.dryHours, Degrees(Centi(p.filterTemp)), p.filterEnable)
  }

  lemma HundredthsAreNear(c: real)
    requires c >= 0.0
    ensures -0.005 <= Degrees(Centi(c)) - c <= 0.005
  {
  }

  predicate InRange(p: Params, ceiling: real) {
    && MIN_MODE_TARGET_C <= p.manual <= ceiling && MIN_MODE_TARGET_C <= p.autoTarget <= ceiling
    && BED_MIN_C <= p.autoBed <= BED_MAX_C && MIN_MODE_TARGET_C <= p.dryTarget <= ceiling
    && 1 <= p.dryHours <= DRYING_MAX_HOURS && FILTER_MIN_C <= p.filterTemp <= FILTER_MAX_C
  }

  /** Rounding stays inside bounds that are whole hundredths, and leaves whole hundredths alone. */
  lemma RoundingStaysInside(c: real, lo: nat, hi: nat)
    requires Degrees(lo) <= c <= Degrees(hi)
    ensures Degrees(lo) <= Degrees(Centi(c)) <= Degrees(hi)
  {
    var x := c * 100.0 + 0.5;
    assert Degrees(lo) * 100.0 == lo as real && Degrees(hi) * 100.0 == hi as real;
    assert lo as real <= x < hi as real + 1.0;
    assert lo <= x.Floor <= hi;
  }

  lemma WholeIsKept(n: nat)
    ensures Centi(Degrees(n)) == n
  {
    assert Degrees(n) * 100.0 == n as real;
  }

  // --- Key by key -------------------------------------------------------------------------------

  predicate IsTarget(k: Key) {
    k in {Manual, AutoTgt, DryTgt}
  }

  /** The stored form of a key's default. */
  function Default(k: Key): nat {
    match k
    case Manual => 5000
    case AutoTgt => 6000
    case AutoBed => 10000
    case DryTgt => 6000
    case DryHrs => 12
    case FiltTmp => 3000
    case FiltEn => 0
  }

  function Raw(f: Flash, k: Key): nat {
    if k in f then f[k] else Default(k)
  }

  function ClampNat(n: nat, lo: nat, hi: nat): nat {
    if n < lo then lo else if n > hi then hi else n
  }

  /** What a boot under this ceiling makes of a key, in stored form. */
  function ReadKey(f: Flash, k: Key, top: nat): nat {
    var n := Raw(f, k);
    match k
    case AutoBed => ClampNat(n, 4000, 12000)
    case DryHrs => if n == 0 || n > DRYING_MAX_HOURS then 12 else n
    case FiltTmp => ClampNat(n, 2000, 6000)
    case FiltEn => if n != 0 then 1 else 0
    case _ => ClampNat(n, 3000, top)
  }

  lemma DegreesIsRead(f: Flash, k: Key, lo: nat, hi: nat)
    requires lo <= hi
    ensures var v := ReadDegrees(f, k, Degrees(lo), Degrees(hi), Degrees(Default(k)));
            v == Degrees(ClampNat(Raw(f, k), lo, hi)) && Centi(v) == ClampNat(Raw(f, k), lo, hi)
  {
    WholeIsKept(ClampNat(Raw(f, k), lo, hi));
  }

  /** What a boot loads is in range and whole hundredths, key by key what it reads. */
  lemma LoadIsWhole(f: Flash, top: nat)
    requires 3000 <= top <= 7000
    ensures var p := Load(f, Degrees(top));
            InRange(p, Degrees(top)) && Hundredths(p) == p && forall k :: Encode(p, k) == ReadKey(f, k, top)
  {
    DegreesIsRead(f, Manual, 3000, top);
    DegreesIsRead(f, AutoTgt, 3000, top);
    DegreesIsRead(f, AutoBed, 4000, 12000);
    DegreesIsRead(f, DryTgt, 3000, top);
    DegreesIsRead(f, FiltTmp, 2000, 6000);
    assert Clamp(Degrees(top), MIN_MODE_TARGET_C, ABS_MAX_TARGET_C) == Degrees(top);
    hide Centi, ReadDegrees;
  }

  /** Whole parameters are the same exactly when their keys are. */
  lemma KeysDecide(p: Params, q: Params)
    requires Hundredths(p) == p && Hundredths(q) == q
    ensures p == q <==> forall k <- KEYS :: Encode(p, k) == Encode(q, k)
  {
    KeysAreAll();
    if forall k <- KEYS :: Encode(p, k) == Encode(q, k) {
      SameKeysSameHundredths(p, q);
    }
  }

  lemma KeysAreAll()
    ensures forall k: Key :: k in KEYS
  {
    assert KEYS[0] == Manual && KEYS[1] == AutoTgt && KEYS[2] == AutoBed && KEYS[3] == DryTgt
        && KEYS[4] == DryHrs && KEYS[5] == FiltTmp && KEYS[6] == FiltEn;
    forall k: Key
      ensures k in KEYS
    {
      match k
      case Manual => case AutoTgt => case AutoBed => case DryTgt => case DryHrs => case FiltTmp => case FiltEn =>
    }
  }

  lemma SameKeysSameHundredths(p: Params, w: Params)
    requires forall k <- KEYS :: !Differs(p, Some(w), k)
    ensures Hundredths(p) == Hundredths(w)
  {
    KeysAreAll();
    assert !Differs(p, Some(w), Manual) && !Differs(p, Some(w), AutoTgt) && !Differs(p, Some(w), AutoBed)
        && !Differs(p, Some(w), DryTgt) && !Differs(p, Some(w), DryHrs) && !Differs(p, Some(w), FiltTmp)
        && !Differs(p, Some(w), FiltEn);
    hide Centi;
  }

  /** The parameters to the nearest hundredth, with the targets brought under a ceiling. */
  function Capped(p: Params, top: nat): Params {
    var h := Hundredths(p);
    h.(manual := Min(h.manual, Degrees(top)), autoTarget := Min(h.autoTarget, Degrees(top)),
       dryTarget := Min(h.dryTarget, Degrees(top)))
  }

  function Under(p: Params, k: Key, top: nat): nat {
    if IsTarget(k) && Encode(p, k) > top then top else Encode(p, k)
  }

  lemma MinIsWhole(c: real, top: nat)
    ensures var m := Min(Degrees(Centi(c)), Degrees(top));
            && Centi(m) == (if Centi(c) > top then top else Centi(c)) && Degrees(Centi(m)) == m
  {
    WholeIsKept(Centi(c));
    WholeIsKept(top);
    hide Centi;
  }

  lemma CappedKeys(p: Params, top: nat)
    ensures Hundredths(Capped(p, top)) == Capped(p, top)
    ensures forall k :: Encode(Capped(p, top), k) == Under(p, k, top)
  {
    MinIsWhole(p.manual, top);
    MinIsWhole(p.autoTarget, top);
    MinIsWhole(p.dryTarget, top);
    WholeIsKept(Centi(p.autoBed));
    WholeIsKept(Centi(p.filterTemp));
    hide Centi, Degrees, Min;
  }

  /** In-range parameters fit every key's bounds. */
  lemma EncodeInRange(p: Params, k: Key)
    requires InRange(p, ABS_MAX_TARGET_C)
    ensures (IsTarget(k) ==> 3000 <= Encode(p, k) <= 7000) && (k == AutoBed ==> 4000 <= Encode(p, k) <= 12000)
    ensures (k == FiltTmp ==> 2000 <= Encode(p, k) <= 6000) && (k == DryHrs ==> 1 <= Encode(p, k) <= DRYING_MAX_HOURS)
    ensures k == FiltEn ==> Encode(p, k) <= 1
  {
  }

  lemma CappedInside(p: Params, top: nat)
    requires InRange(p, Degrees(top))
    ensures Capped(p, top) == Hundredths(p)
  {
    RoundingStaysInside(p.manual, 0, top);
    RoundingStaysInside(p.autoTarget, 0, top);
    RoundingStaysInside(p.dryTarget, 0, top);
    hide Centi;
  }

  /** A boot reads parameters back, under its ceiling, exactly when it reads every key so. */
  lemma LoadIsCapped(f: Flash, p: Params, top: nat)
    requires 3000 <= top <= 7000
    ensures Load(f, Degrees(top)) == Capped(p, top) <==> forall k <- KEYS :: ReadKey(f, k, top) == Under(p, k, top)
  {
    LoadIsWhole(f, top);
    CappedKeys(p, top);
    KeysDecide(Load(f, Degrees(top)), Capped(p, top));
    hide Load, Capped, Encode, ReadKey, Under, Hundredths;
  }

  // --- Main results -----------------------------------------------------------------------------

  lemma BatchKey(f: Flash, p: Params, w: Params, k: Key)
    ensures var b := Batch(f, p, Some(w));
            if Differs(p, Some(w), k) then k in b && b[k] == Encode(p, k)
            else (k in b <==> k in f) && (k in f ==> b[k] == f[k])
    ensures var a := WriteAll(f, p); k in a && a[k] == Encode(p, k)
  {
    KeysAreAll();
    hide Encode;
  }

  /** A key on flash that holds the parameter reads back as it, under any ceiling. */
  lemma WrittenKeyReads(f: Flash, p: Params, k: Key, top: nat)
    requires InRange(p, ABS_MAX_TARGET_C) && 3000 <= top && k in f && f[k] == Encode(p, k)
    ensures ReadKey(f, k, top) == Under(p, k, top)
  {
    EncodeInRange(p, k);
    hide Encode;
  }

  lemma SameRawReadsSame(f: Flash, g: Flash, k: Key, top: nat)
    requires Raw(f, k) == Raw(g, k)
    ensures ReadKey(f, k, top) == ReadKey(g, k, top)
  {
  }

  /** Writing every key always loads back, under any ceiling. Writing only the keys that differ from the cached copy
      does so exactly when flash, as it is, reads like that copy for every key it skips. */
  lemma BatchRefinesWriteAll(f: Flash, p: Params, w: Params, top: nat)
    requires 3000 <= top <= 7000 && InRange(p, ABS_MAX_TARGET_C)
    ensures Load(WriteAll(f, p), Degrees(top)) == Capped(p, top)
    ensures Load(Batch(f, p, Some(w)), Degrees(top)) == Load(WriteAll(f, p), Degrees(top)) <==>
            forall k <- KEYS :: Differs(p, Some(w), k) || ReadKey(f, k, top) == Under(w, k, top)
  {
    var b, all := Batch(f, p, Some(w)), WriteAll(f, p);
    forall k
      ensures ReadKey(all, k, top) == Under(p, k, top)
      ensures ReadKey(b, k, top) == if Differs(p, Some(w), k) then Under(p, k, top) else ReadKey(f, k, top)
      ensures !Differs(p, Some(w), k) ==> Under(p, k, top) == Under(w, k, top)
    {
      BatchKey(f, p, w, k);
      WrittenKeyReads(all, p, k, top);
      if Differs(p, Some(w), k) {
        WrittenKeyReads(b, p, k, top);
      } else {
        SameRawReadsSame(b, f, k, top);
      }
      hide Encode, ReadKey, Batch, WriteAll;
    }
    LoadIsCapped(all, p, top);
    LoadIsCapped(b, p, top);
    hide Load, Capped, ReadKey, Under, Differs, Batch, WriteAll;
  }

  /** The cached copy of a key is what was last written since the last boot, or else what that boot made of it. */
  ghost predicate Remembers(s: Store, k: Key)
    requires s.written.Some?
  {
    if k in s.saved then k in s.flash && s.flash[k] == Encode(s.written.value, k)
    else Encode(s.written.value, k) == ReadKey(Seen(s.flash, s.readable), k, s.top)
  }

  ghost predicate StoreInv(s: Store) {
    && 3000 <= s.top <= 7000 && InRange(s.params, ABS_MAX_TARGET_C)
    && s.written.Some? && InRange(s.written.value, ABS_MAX_TARGET_C)
    && (s.draining.Some? ==> InRange(s.draining.value, ABS_MAX_TARGET_C))
    && (!s.dirty ==> Hundredths(s.params) == Hundredths(if s.draining.Some? then s.draining.value else s.written.value))
    && forall k <- KEYS :: Remembers(s, k)
  }

  /** What an operation may bring: accepted parameters within the absolute bounds, a ceiling within its own. */
  predicate Sane(op: Op) {
    match op
    case Accept(p) => InRange(p, ABS_MAX_TARGET_C)
    case Restart(top, _) => 3000 <= top <= 7000
    case _ => true
  }

  lemma BootKeepsStoreInv(f: Flash, top: nat, readable: set<Key>)
    requires 3000 <= top <= 7000
    ensures StoreInv(Boot(f, top, readable))
  {
    LoadIsWhole(Seen(f, readable), top);
    hide Load, Encode, ReadKey, Hundredths;
  }

  lemma CommitStep(s: Store, k: Key)
    requires s.written.Some? && s.draining.Some? && k in KEYS
    requires exists j <- KEYS :: Differs(s.draining.value, s.written, j)
    ensures var p, r := s.draining.value, Do(s, Write(true));
            && r.flash == Batch(s.flash, p, s.written) && r.written == Some(p)
            && r.readable == s.readable && r.top == s.top
            && (k in r.saved <==> k in s.saved || Differs(p, s.written, k))
  {
    hide Differs, Batch;
  }

  lemma CommitRemembers(s: Store, k: Key)
    requires s.written.Some? && s.draining.Some? && k in KEYS && Remembers(s, k)
    requires exists j <- KEYS :: Differs(s.draining.value, s.written, j)
    ensures Remembers(Do(s, Write(true)), k)
  {
    var p, w := s.draining.value, s.written.value;
    var r := Do(s, Write(true));
    CommitStep(s, k);
    BatchKey(s.flash, p, w, k);
    hide Encode, Batch, Do;
    if k !in r.saved {
      SameRawReadsSame(Seen(r.flash, r.readable), Seen(s.flash, s.readable), k, s.top);
    }
    hide ReadKey;
  }

  lemma OpKeepsStoreInv(s: Store, op: Op)
    requires StoreInv(s) && Sane(op)
    ensures StoreInv(Do(s, op))
  {
    hide Load, Hundredths, Batch, InRange, Encode, ReadKey, Boot, Remembers;
    match op
    case Restart(top, readable) => BootKeepsStoreInv(s.flash, top, readable);
    case Write(ok) =>
      if s.draining.Some? {
        if forall k <- KEYS :: !Differs(s.draining.value, s.written, k) {
          SameKeysSameHundredths(s.draining.value, s.written.value);
          SkipRemembers(s);
        } else if ok {
          forall k | k in KEYS
            ensures Remembers(Do(s, op), k)
          {
            CommitRemembers(s, k);
          }
        } else {
          SameStoreRemembers(s, Do(s, op));
        }
      }
    case _ => SameStoreRemembers(s, Do(s, op));
  }

  lemma SameStoreRemembers(s: Store, r: Store)
    requires s.written.Some? && r.written == s.written && r.flash == s.flash
    requires r.saved == s.saved && r.readable == s.readable && r.top == s.top
    ensures forall k :: Remembers(s, k) <==> Remembers(r, k)
  {
    hide Encode, ReadKey;
  }

  lemma SkipRemembers(s: Store)
    requires s.written.Some?
    ensures forall k :: Remembers(s, k) <==> Remembers(s.(draining := None), k)
  {
    SameStoreRemembers(s, s.(draining := None));
  }

  /** Where the cached copy of a key can be trusted for a boot under this ceiling: the key was written since the last
      boot; or that boot read it and did not cut it, or the ceiling has not been raised since; or that boot could not
      read it, and flash reads like the default it took instead. */
  predicate Trusted(s: Store, k: Key, top: nat) {
    || k in s.saved
    || (k in s.readable && (!IsTarget(k) || Raw(s.flash, k) <= s.top || top <= s.top))
    || (k !in s.readable && ReadKey(s.flash, k, top) == ReadKey(map[], k, if top <= s.top then top else s.top))
  }

  lemma TrustedKeyReads(s: Store, k: Key, top: nat)
    requires 3000 <= s.top && 3000 <= top && s.written.Some? && InRange(s.written.value, ABS_MAX_TARGET_C)
    requires Remembers(s, k)
    ensures ReadKey(s.flash, k, top) == Under(s.written.value, k, top) <==> Trusted(s, k, top)
  {
    if k in s.saved {
      WrittenKeyReads(s.flash, s.written.value, k, top);
    } else {
      assert Raw(Seen(s.flash, s.readable), k) == if k in s.readable then Raw(s.flash, k) else Default(k);
    }
    hide Encode;
  }

  /** Over any accepted commands, drains, write failures and boots, each boot with its own ceiling and its own
      unreadable keys: a boot that reads everything gives the last committed parameters, to the nearest hundredth and
      under its ceiling, exactly when the cached copy of every key can be trusted for that ceiling; and the last
      committed parameters are the latest accepted ones whenever the store is clean and idle. */
  lemma {:induction false} ReloadGivesLastCommitted(f: Flash, top: nat, readable: set<Key>, ops: seq<Op>, next: nat)
    requires 3000 <= top <= 7000 && 3000 <= next <= 7000 && forall op <- ops :: Sane(op)
    ensures var s := After(f, top, readable, ops);
            && StoreInv(s)
            && (Load(s.flash, Degrees(next)) == Capped(s.written.value, next) <==>
                  forall k <- KEYS :: Trusted(s, k, next))
            && (!s.dirty && s.draining.None? ==> Capped(s.written.value, next) == Capped(s.params, next))
  {
    StoreInvHolds(f, top, readable, ops);
    var s := After(f, top, readable, ops);
    LoadIsCapped(s.flash, s.written.value, next);
    forall k | k in KEYS
      ensures ReadKey(s.flash, k, next) == Under(s.written.value, k, next) <==> Trusted(s, k, next)
    {
      TrustedKeyReads(s, k, next);
    }
    hide Load, ReadKey, Under, Trusted, Hundredths, InRange, Remembers, After;
  }

  lemma {:induction false} StoreInvHolds(f: Flash, top: nat, readable: set<Key>, ops: seq<Op>)
    requires 3000 <= top <= 7000 && forall op <- ops :: Sane(op)
    ensures StoreInv(After(f, top, readable, ops))
  {
    hide StoreInv, Sane, Do, Boot;
    if ops == [] {
      BootKeepsStoreInv(f, top, readable);
    } else {
      var n := |ops| - 1;
      assert ops[n] in ops && forall op <- ops[..n] :: op in ops;
      StoreInvHolds(f, top, readable, ops[..n]);
      OpKeepsStoreInv(After(f, top, readable, ops[..n]), ops[n]);
    }
  }

  /** So nothing is ever lost while the ceiling is not raised over that of the last boot, if that boot could read
      every key. */
  lemma UnraisedCeilingIsTrusted(s: Store, top: nat)
    requires top <= s.top && forall k <- KEYS :: k in s.readable
    ensures forall k <- KEYS :: Trusted(s, k, top)
  {
    hide ReadKey;
  }

  /** A failed batch leaves flash alone and stays dirty; the next drain that succeeds commits the latest accepted
      values, whatever happened before, and they load back exactly when every key it skips can be trusted. */
  lemma NextDrainCommitsLatest(s: Store, p: Params, top: nat)
    requires StoreInv(s) && InRange(p, ABS_MAX_TARGET_C) && s.draining.Some? && 3000 <= top <= 7000
    ensures var failed := Do(Do(s, Accept(p)), Write(false));
            var drained := Do(Do(failed, Take), Write(true));
            && failed.flash == s.flash && failed.dirty && failed.params == p
            && !drained.dirty && drained.draining.None? && Hundredths(drained.written.value) == Hundredths(p)
            && (Load(drained.flash, Degrees(top)) == Capped(p, top) <==>
                  forall k <- KEYS :: Differs(p, s.written, k) || Trusted(s, k, top))
  {
    var w := s.written.value;
    DrainedStore(s, p);
    hide Do, StoreInv, Capped, Hundredths, InRange, Batch, Load;
    BatchLoads(s, p, top);
  }

  lemma DrainedStore(s: Store, p: Params)
    requires s.written.Some? && s.draining.Some?
    ensures var failed := Do(Do(s, Accept(p)), Write(false));
            var drained := Do(Do(failed, Take), Write(true));
            && failed.flash == s.flash && failed.params == p && failed.dirty
            && !drained.dirty && drained.draining.None? && drained.written.Some?
            && Hundredths(drained.written.value) == Hundredths(p)
            && drained.flash == Batch(s.flash, p, s.written)
  {
    if forall k <- KEYS :: !Differs(p, s.written, k) {
      SameKeysSameHundredths(p, s.written.value);
      SkipIsBatch(s.flash, p, s.written.value);
    }
    hide Hundredths, Batch, Differs;
  }

  lemma BatchLoads(s: Store, p: Params, top: nat)
    requires StoreInv(s) && InRange(p, ABS_MAX_TARGET_C) && 3000 <= top <= 7000
    ensures Load(Batch(s.flash, p, s.written), Degrees(top)) == Capped(p, top) <==>
            forall k <- KEYS :: Differs(p, s.written, k) || Trusted(s, k, top)
  {
    forall k | k in KEYS
      ensures ReadKey(s.flash, k, top) == Under(s.written.value, k, top) <==> Trusted(s, k, top)
    {
      TrustedKeyReads(s, k, top);
    }
    BatchRefinesWriteAll(s.flash, p, s.written.value, top);
    hide Load, ReadKey, Under, Trusted, Hundredths, InRange, Remembers, Batch, Encode, WriteAll, Differs, Capped;
  }

  /** A batch with nothing to write is no batch. */
  lemma SkipIsBatch(f: Flash, p: Params, w: Params)
    requires forall k <- KEYS :: !Differs(p, Some(w), k)
    ensures Batch(f, p, Some(w)) == f
  {
    hide Differs;
  }

  const ALL_KEYS: set<Key> := {Manual, AutoTgt, AutoBed, DryTgt, DryHrs, FiltTmp, FiltEn}

  function SixtyDegrees(): Params {
    DEFAULT_PARAMS.(manual := 60.0)
  }

  /** A raised ceiling loses an accepted value. Flash holds 70 C; a boot under a 60 C ceiling cuts it and caches 60;
      the ceiling goes up and 60 C is accepted; the drain finds nothing to write and reports a clean store; and the
      next boot loads 70 C. */
  lemma RaisedCeilingLosesParams() returns (ops: seq<Op>)
    ensures forall op <- ops :: Sane(op)
    ensures var s := After(map[Manual := 7000], 6000, ALL_KEYS, ops);
            && s.params == SixtyDegrees() && !s.dirty && s.draining.None?
            && Load(s.flash, Degrees(7000)).manual == 70.0
  {
    ops := [Accept(SixtyDegrees()), Take, Write(true)];
    var f: Flash := map[Manual := 7000];
    SkippedDrain(f, 6000, ALL_KEYS, SixtyDegrees());
  }

  /** So does a key that could not be read at boot: its default is cached although flash holds something else. */
  lemma UnreadableKeyLosesParams() returns (ops: seq<Op>)
    ensures forall op <- ops :: Sane(op)
    ensures var s := After(map[Manual := 7000], 7000, {}, ops);
            && s.params == DEFAULT_PARAMS && !s.dirty && s.draining.None?
            && Load(s.flash, Degrees(7000)).manual == 70.0
  {
    ops := [Accept(DEFAULT_PARAMS), Take, Write(true)];
    var f: Flash := map[Manual := 7000];
    SkippedDrain(f, 7000, {}, DEFAULT_PARAMS);
  }

  lemma SkippedDrain(f: Flash, top: nat, readable: set<Key>, p: Params)
    requires forall k <- KEYS :: !Differs(p, Some(Load(Seen(f, readable), Degrees(top))), k)
    ensures var s := After(f, top, readable, [Accept(p), Take, Write(true)]);
            s.params == p && !s.dirty && s.draining.None? && s.flash == f
  {
    hide Load, Differs;
    assert [Accept(p), Take, Write(true)][..2] == [Accept(p), Take];
    assert [Accept(p), Take][..1] == [Accept(p)];
    assert [Accept(p)][..0] == [];
    var s0 := After(f, top, readable, []);
    var s1 := After(f, top, readable, [Accept(p)]);
    var s2 := After(f, top, readable, [Accept(p), Take]);
    assert s1 == Do(s0, Accept(p)) && s2 == Do(s1, Take);
  }

  /** Every step of the device keeps the parameters inside any bound that the ceiling respects, a change of the
      ceiling and a boot that loads parameters inside it included; and every other change of them marks them dirty. */
  lemma StepKeepsParamsInRange(d: Device, s: Step, top: real)
    requires Inv(d) && Enabled(d, s)
    requires d.core.h.settings.maxTarget <= top && InRange(d.core.p.params, top)
    requires s.Reboot? ==> InRange(s.b.params, top)
    ensures var c := Apply(d, s).core;
            InRange(c.p.params, top) && (c.p.params != d.core.p.params && !s.Reboot? ==> c.p.dirty)
  {
    hide Bookkeeping, Deadlines, TickLocked, SetPowerOn, SetButtonPowerOn, SetAuto, StartDrying;
    if HeatCommand(s) {
      CommandKeepsParamsInRange(d, s, top);
    } else if s.TickStep? {
      TickKeepsParams(d.core, s.t);
    }
  }

  lemma CommandKeepsParamsInRange(d: Device, s: Step, top: real)
    requires Inv(d) && Enabled(d, s) && HeatCommand(s)
    requires d.core.h.settings.maxTarget <= top && InRange(d.core.p.params, top)
    ensures var c := Apply(d, s).core;
            InRange(c.p.params, top) && (c.p.params != d.core.p.params ==> c.p.dirty)
  {
    hide Bookkeeping, Deadlines, TickLocked, BootCore;
  }

  /** In every run whose boots load in-range parameters, as every boot does, they stay within the absolute bounds
      whatever happens to the ceiling. */
  lemma {:induction false} RunKeepsParamsInRange(states: seq<Device>, steps: seq<Step>, i: nat)
    requires Run(states, steps) && i < |states| && InRange(states[0].core.p.params, ABS_MAX_TARGET_C)
    requires forall s <- steps :: s.Reboot? ==> InRange(s.b.params, ABS_MAX_TARGET_C)
    ensures InRange(states[i].core.p.params, ABS_MAX_TARGET_C)
  {
    hide Apply, Enabled, BootDevice, InRange;
    if i > 0 {
      RunKeepsParamsInRange(states, steps, i - 1);
      RunKeepsInv(states, steps, i - 1);
      assert steps[i - 1] in steps;
      StepKeepsParamsInRange(states[i - 1], steps[i - 1], ABS_MAX_TARGET_C);
    }
  }

  lemma TickKeepsParams(c: Core, t: TickInput)
    ensures var r := TickLocked(c, t).0; r.p.params == c.p.params && r.h.settings == c.h.settings
  {
    var m := ModeStep(ConsumeClicks(c, t.entry).0, t.entry);
    assert m.c.p.params == c.p.params && m.c.h.settings == c.h.settings;
    hide ModeStep, ConsumeClicks, Control, Retry, SetLatch, PurgeDecide, Filtering;
  }

  // --- The source's own form ------------------------------------------------------------------

  /** The worker's side: the cached copy and the batch loop over the key table. */
  class Writer {
    var flash: Flash
    var written: Params
    var writtenValid: bool

    ghost function Cached(): Option<Params>
      reads this
    {
      if writtenValid then Some(written) else None
    }

    constructor (f: Flash)
      ensures flash == f && Cached() == None
    {
      flash, written, writtenValid := f, DEFAULT_PARAMS, false;
    }

    method NeedsWrite(p: Params) returns (any: bool)
      ensures any <==> exists k <- KEYS :: Differs(p, Cached(), k)
    {
      hide Encode;
      any := !writtenValid;
      var i := 0;
      while i < |KEYS| && !any
        invariant 0 <= i <= |KEYS|
        invariant any <==> !writtenValid || exists j :: 0 <= j < i && Differs(p, Cached(), KEYS[j])
      {
        if Encode(p, KEYS[i]) != Encode(written, KEYS[i]) {
          any := true;
        }
        i := i + 1;
      }
      if !writtenValid {
        assert Differs(p, Cached(), KEYS[0]);
      } else if any {
        ghost var j :| 0 <= j < i && Differs(p, Cached(), KEYS[j]);
        assert KEYS[j] in KEYS;
      }
    }

    ghost function Buffered(p: Params, n: nat): Flash
      requires n <= |KEYS|
      reads this
    {
      map k | k in KEYS[..n] && Differs(p, Cached(), k) :: Encode(p, k)
    }

    method BufferSets(p: Params, setOk: Key -> bool) returns (ok: bool, buffer: Flash)
      ensures ok <==> forall k <- KEYS :: Differs(p, Cached(), k) ==> setOk(k)
      ensures ok ==> buffer == Buffered(p, |KEYS|)
    {
      hide Encode;
      ok, buffer := true, map[];
      var i := 0;
      while i < |KEYS|
        invariant 0 <= i <= |KEYS|
        invariant ok <==> forall j :: 0 <= j < i && Differs(p, Cached(), KEYS[j]) ==> setOk(KEYS[j])
        invariant ok ==> buffer == Buffered(p, i)
      {
        var k := KEYS[i];
        assert KEYS[..i + 1] == KEYS[..i] + [k];
        if !writtenValid || Encode(p, k) != Encode(written, k) {
          if setOk(k) {
            buffer := buffer[k := Encode(p, k)];
          } else {
            ok := false;
          }
        }
        i := i + 1;
      }
    }

    /** One batch. Sets are buffered until the commit, so any failure leaves flash as it was. */
    method PersistParams(p: Params, openOk: bool, setOk: Key -> bool, commitOk: bool) returns (ok: bool)
      modifies this
      ensures var any := exists k <- KEYS :: Differs(p, old(Cached()), k);
              var works := openOk && commitOk && forall k <- KEYS :: Differs(p, old(Cached()), k) ==> setOk(k);
              && ok == (!any || works)
              && flash == (if any && works then Batch(old(flash), p, old(Cached())) else old(flash))
              && Cached() == (if any && works then Some(p) else old(Cached()))
    {
      hide Differs;
      var any := NeedsWrite(p);
      if !any {
        return true;
      }
      if !openOk {
        return false;
      }
      var buffer;
      ok, buffer := BufferSets(p, setOk);
      ok := ok && commitOk;
      if ok {
        assert KEYS[..|KEYS|] == KEYS;
        assert flash + buffer == Batch(flash, p, Cached());
        flash := flash + buffer;
        written, writtenValid := p, true;
      }
    }
  }
}
