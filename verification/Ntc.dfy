/** Thermistor conversion of pb_ntc.c: divider, R/T table, calibration, and what it means for the trips. */
module Ntc {
  import opened Values
  import opened SafetyRules

  const BASE_C := 12
  const SUPPLY_V := 3.3
  const OFFSET_MAX_CENTI := 500
  const RAW_OPEN_MAX := 0xFFD
  const RAW_SHORT_MIN := 0x14

  /** Number of table entries: 12 C to 125 C in whole degrees. */
  const N := 114

  /** The R/T table in kOhm, ten entries a row. */
  function Row(r: nat): seq<real>
    requires r < 12
  {
    if r == 0 then  [198.7, 189.4, 180.7, 172.4, 164.5, 157.0, 149.9, 143.2, 136.8, 130.7]
    else if r == 1 then [124.9, 119.4, 114.2, 109.2, 104.5, 100.0, 95.7, 91.6, 87.8, 84.1]
    else if r == 2 then [80.6, 77.2, 74.0, 70.9, 68.0, 65.3, 62.6, 60.1, 57.7, 55.4]
    else if r == 3 then [53.2, 51.1, 49.1, 47.2, 45.3, 43.6, 41.9, 40.3, 38.8, 37.3]
    else if r == 4 then [35.9, 34.5, 33.2, 32.0, 30.8, 29.7, 28.6, 27.6, 26.6, 25.6]
    else if r == 5 then [24.7, 23.8, 23.0, 22.2, 21.4, 20.6, 19.9, 19.2, 18.6, 17.9]
    else if r == 6 then [17.3, 16.7, 16.2, 15.6, 15.1, 14.6, 14.1, 13.6, 13.2, 12.8]
    else if r == 7 then [12.4, 12.0, 11.6, 11.2, 10.9, 10.5, 10.2, 9.9, 9.6, 9.3]
    else if r == 8 then [9.0, 8.7, 8.4, 8.2, 7.9, 7.7, 7.4, 7.2, 7.0, 6.8]
    else if r == 9 then [6.6, 6.4, 6.2, 6.0, 5.9, 5.7, 5.5, 5.4, 5.2, 5.1]
    else if r == 10 then [4.9, 4.8, 4.7, 4.5, 4.4, 4.3, 4.2, 4.1, 3.9, 3.8]
    else [3.7, 3.6, 3.5, 3.4]
  }

  /** Resistance at (12 + i) C. */
  function Kohm(i: nat): real
    requires i < N
  {
    Row(i / 10)[i % 10]
  }

  lemma UpperRowsDescend(r: nat)
    requires r < 6
    ensures |Row(r)| == 10 && forall k :: 0 <= k < 9 ==> Row(r)[k] > Row(r)[k + 1]
  {
  }

  lemma LowerRowsDescend(r: nat)
    requires 6 <= r < 12
    ensures |Row(r)| == if r < 11 then 10 else 4
    ensures forall k :: 0 <= k < |Row(r)| - 1 ==> Row(r)[k] > Row(r)[k + 1]
  {
  }

  lemma RowDescends(r: nat)
    requires r < 12
    ensures |Row(r)| == if r < 11 then 10 else 4
    ensures forall k :: 0 <= k < |Row(r)| - 1 ==> Row(r)[k] > Row(r)[k + 1]
  {
    hide Row;
    if r < 6 {
      UpperRowsDescend(r);
    } else {
      LowerRowsDescend(r);
    }
  }

  lemma RowsDescend(r: nat)
    requires r < 11
    ensures Row(r)[9] > Row(r + 1)[0]
  {
  }

  lemma KohmDescends(i: nat)
    requires i < N - 1
    ensures Kohm(i) > Kohm(i + 1)
  {
    hide Row;
    RowDescends(i / 10);
    RowDescends((i + 1) / 10);
    if i % 10 == 9 {
      RowsDescend(i / 10);
    }
  }

  lemma {:induction false} KohmOrdered(i: nat, j: nat)
    requires i <= j < N
    ensures Kohm(i) >= Kohm(j) && (i < j ==> Kohm(i) > Kohm(j))
    decreases j - i
  {
    hide Kohm;
    if i < j {
      KohmDescends(j - 1);
      KohmOrdered(i, j - 1);
    }
  }

  // --- Resistance to temperature ------------------------------------------------------------------

  /** r lies between entry i and the next. */
  predicate Between(r: real, i: nat)
    requires i < N - 1
  {
    Kohm(i + 1) <= r <= Kohm(i)
  }

  /** Linear between entries i and i + 1. */
  function Interpolate(r: real, i: nat): real
    requires i < N - 1 && Kohm(i) > Kohm(i + 1)
  {
    (BASE_C + i) as real + (Kohm(i) - r) / (Kohm(i) - Kohm(i + 1))
  }

  /** The table search: the first entry whose segment holds r, clamped at both ends. The source's final
      fall-through would return NaN; the assertion shows it is never reached. */
  method ConvertKohm(r: real) returns (t: real)
    ensures IsReading(r, t)
  {
    hide Kohm;
    if r >= Kohm(0) {
      return BASE_C as real;
    }
    if r <= Kohm(N - 1) {
      return (BASE_C + N - 1) as real;
    }
    for i := 0 to N - 1
      invariant r < Kohm(i)
    {
      KohmDescends(i);
      if r <= Kohm(i) && r >= Kohm(i + 1) {
        return Interpolate(r, i);
      }
    }
    assert false;
  }

  /** What a reading is, without a search: the clamps, or the interpolation of any segment that holds r. */
  ghost predicate IsReading(r: real, t: real) {
    if r >= Kohm(0) then t == 12.0
    else if r <= Kohm(N - 1) then t == 125.0
    else exists i: nat :: i < N - 1 && Kohm(i) > Kohm(i + 1) && Between(r, i) && t == Interpolate(r, i)
  }

  lemma PositiveProduct(f: real, s: real)
    requires f > 0.0 && s > 0.0
    ensures f * s > 0.0
  {
  }

  lemma QuotientOrdered(x: real, y: real, s: real)
    requires x <= y && s > 0.0
    ensures x / s <= y / s
  {
    var f, g := x / s, y / s;
    assert f * s == x && g * s == y;
    assert (f - g) * s == x - y;
    if f > g {
      PositiveProduct(f - g, s);
    }
  }

  /** The interpolation moves from one whole degree to the next as r falls across the segment. */
  lemma InterpolateSpan(r: real, i: nat)
    requires i < N - 1 && Kohm(i) > Kohm(i + 1) && Between(r, i)
    ensures (BASE_C + i) as real <= Interpolate(r, i) <= (BASE_C + i + 1) as real
    ensures r == Kohm(i) ==> Interpolate(r, i) == (BASE_C + i) as real
    ensures r == Kohm(i + 1) ==> Interpolate(r, i) == (BASE_C + i + 1) as real
  {
    hide Kohm;
    var span := Kohm(i) - Kohm(i + 1);
    QuotientOrdered(0.0, Kohm(i) - r, span);
    QuotientOrdered(Kohm(i) - r, span, span);
    assert 0.0 / span == 0.0 && span / span == 1.0;
  }

  lemma InterpolateFalls(a: real, b: real, i: nat)
    requires i < N - 1 && Kohm(i) > Kohm(i + 1) && a <= b
    ensures Interpolate(a, i) >= Interpolate(b, i)
  {
    hide Kohm;
    QuotientOrdered(Kohm(i) - b, Kohm(i) - a, Kohm(i) - Kohm(i + 1));
  }

  /** Every reading lies on the table's range. */
  lemma ReadingInRange(r: real, t: real)
    requires IsReading(r, t)
    ensures 12.0 <= t <= 125.0
  {
    hide Kohm;
    if Kohm(N - 1) < r < Kohm(0) {
      var i: nat :| i < N - 1 && Kohm(i) > Kohm(i + 1) && Between(r, i) && t == Interpolate(r, i);
      InterpolateSpan(r, i);
    }
  }

  /** A reading falls as the resistance rises; so it is also unique. */
  lemma ReadingFalls(a: real, b: real, s: real, t: real)
    requires a <= b && IsReading(a, s) && IsReading(b, t)
    ensures s >= t && (a == b ==> s == t)
  {
    hide Kohm, Interpolate;
    ReadingInRange(a, s);
    ReadingInRange(b, t);
    if Kohm(N - 1) < a < Kohm(0) && Kohm(N - 1) < b < Kohm(0) {
      var i: nat :| i < N - 1 && Kohm(i) > Kohm(i + 1) && Between(a, i) && s == Interpolate(a, i);
      var j: nat :| j < N - 1 && Kohm(j) > Kohm(j + 1) && Between(b, j) && t == Interpolate(b, j);
      SegmentsFall(a, b, i, j);
      if a == b {
        SegmentsFall(b, a, j, i);
      }
    }
  }

  lemma SegmentsFall(a: real, b: real, i: nat, j: nat)
    requires a <= b && i < N - 1 && j < N - 1
    requires Kohm(i) > Kohm(i + 1) && Kohm(j) > Kohm(j + 1) && Between(a, i) && Between(b, j)
    ensures Interpolate(a, i) >= Interpolate(b, j)
  {
    hide Kohm, Interpolate;
    InterpolateSpan(a, i);
    InterpolateSpan(b, j);
    if i == j {
      InterpolateFalls(a, b, i);
    } else if i < j {
      KohmOrdered(i + 1, j);
    }
  }

  /** At a table entry the reading is exactly that entry's temperature. */
  lemma ExactAtTable(i: nat, t: real)
    requires i < N && IsReading(Kohm(i), t)
    ensures t == (BASE_C + i) as real
  {
    hide Kohm;
    KohmOrdered(0, i);
    KohmOrdered(i, N - 1);
    if 0 < i < N - 1 {
      var j: nat :| j < N - 1 && Kohm(j) > Kohm(j + 1) && Between(Kohm(i), j) && t == Interpolate(Kohm(i), j);
      InterpolateSpan(Kohm(i), j);
      if i <= j {
        KohmOrdered(i, j);
      } else {
        KohmOrdered(j + 1, i);
      }
    }
  }

  // --- Voltage to temperature ------------------------------------------------------------------

  /** The low-side divider. */
  function Divider(rref: real, v: real): real
    requires v < SUPPLY_V
  {
    rref * v / (SUPPLY_V - v)
  }

  /** It is balanced at 3.3 V: the sensor drops the pin voltage and the reference drops the rest. */
  lemma DividerBalances(rref: real, v: real)
    requires v < 3.3
    ensures Divider(rref, v) * (3.3 - v) == rref * v
  {
  }

  lemma DividerGrows(r1: real, r2: real, v1: real, v2: real)
    requires 0.0 < r1 <= r2 && 0.0 < v1 <= v2 < SUPPLY_V
    ensures Divider(r1, v1) <= Divider(r2, v2)
  {
    var x, y := Divider(r1, v1), Divider(r2, v2);
    var p, q := SUPPLY_V - v1, SUPPLY_V - v2;
    assert x * p == r1 * v1 && y * q == r2 * v2;
    assert r1 * v1 <= r2 * v2 by {
      assert r2 * v2 - r1 * v1 == r2 * (v2 - v1) + (r2 - r1) * v1;
    }
    assert y >= 0.0 by {
      assert r2 * v2 > 0.0;
      assert y < 0.0 ==> y * q < 0.0;
    }
    assert y * p >= y * q by {
      assert y * p - y * q == y * (v2 - v1);
    }
    assert (y - x) * p >= 0.0;
    assert y - x < 0.0 ==> (y - x) * p < 0.0;
  }

  /** A higher pin voltage never reads hotter. */
  lemma HotterMeansLowerVoltage(rref: real, v1: real, v2: real, t1: real, t2: real)
    requires rref > 0.0 && 0.0 < v1 <= v2 < SUPPLY_V
    requires IsReading(Divider(rref, v1), t1) && IsReading(Divider(rref, v2), t2)
    ensures t1 >= t2
  {
    DividerGrows(rref, rref, v1, v2);
    ReadingFalls(Divider(rref, v1), Divider(rref, v2), t1, t2);
  }

  /** The reference assumed when the strap floats never reads colder than the other one. */
  lemma FloatingStrapReadsWarm(v: real, t33: real, t82: real)
    requires 0.0 < v < SUPPLY_V && IsReading(Divider(33.0, v), t33) && IsReading(Divider(82.0, v), t82)
    ensures t33 >= t82
  {
    DividerGrows(33.0, 82.0, v, v);
    ReadingFalls(Divider(33.0, v), Divider(82.0, v), t33, t82);
  }

  // --- One sample ---------------------------------------------------------------------------------

  datatype Status = StatusOk | Short | Open | Uninit

  function Classify(raw: int, v: real): Status {
    if raw > RAW_OPEN_MAX then Open
    else if raw <= RAW_SHORT_MIN then Short
    else if v <= 0.0 || v >= SUPPLY_V then Open
    else StatusOk
  }

  /** Stored offset, in hundredths, as it is applied. */
  function Offset(storedCenti: int): real {
    ClampInt(storedCenti, -OFFSET_MAX_CENTI, OFFSET_MAX_CENTI) as real / 100.0
  }

  function Volts(mv: int): real {
    mv as real / 1000.0
  }

  /** pb_ntc_read: the two inputs can be swapped, a failed read (None) is no reading, and the ADC code and the
      millivolts tell a short and an open sensor apart. What is left is the converted input plus the offset of the
      channel asked for, whichever input that is. */
  method ReadSample(ch: int, swap: bool, ready: bool, raw: seq<Option<int>>, mv: seq<Option<int>>, rref: real,
                    storedCenti: seq<int>) returns (st: Status, r: Reading)
    requires rref > 0.0 && |raw| == |mv| == |storedCenti| == 2
    ensures r.Valid? <==> st == StatusOk
    ensures var s := if swap then 1 - ch else ch;
            if ch !in {0, 1} || !ready || raw[s].None? || mv[s].None? then st == Uninit
            else
              var code, v := raw[s].value, mv[s].value;
              && (st == Short <==> code <= 20)
              && (st == Open <==> code > 4093 || (code > 20 && (v <= 0 || v >= 3300)))
              && (st == StatusOk <==> 20 < code <= 4093 && 0 < v < 3300)
    ensures st == StatusOk ==>
              var v := mv[if swap then 1 - ch else ch].value as real / 1000.0;
              var offset := ClampInt(storedCenti[ch], -500, 500) as real / 100.0;
              v < 3.3 && IsReading(Divider(rref, v), r.c - offset) && 7.0 <= r.c <= 130.0
  {
    if ch < 0 || ch > 1 {
      return Uninit, Invalid;
    }
    var source := if swap then 1 - ch else ch;
    if !ready || raw[source].None? || mv[source].None? {
      return Uninit, Invalid;
    }
    var v := Volts(mv[source].value);
    st := Classify(raw[source].value, v);
    if st != StatusOk {
      return st, Invalid;
    }
    var t := ConvertKohm(Divider(rref, v));
    ReadingInRange(Divider(rref, v), t);
    r := Valid(t + Offset(storedCenti[ch]));
  }

  /** An element that would read t uncalibrated trips as too hot, under this stored offset and these other readings. */
  predicate ElementTrips(t: real, centi: int, other: Reading, armed: bool, expired: bool) {
    EvalTrip(Valid(t + Offset(centi)), other, armed, expired) == PtcOvertemp
  }

  /** A chamber that would read t uncalibrated trips, or the element beside it does. */
  predicate ChamberTrips(t: real, centi: int, other: Reading, armed: bool, expired: bool) {
    EvalTrip(other, Valid(t + Offset(centi)), armed, expired) in {PtcOvertemp, ChamberOvertemp}
  }

  /** Whatever offset is stored, whatever the other sensor reads (nothing included), armed or not and with the link
      fresh or lost: an uncalibrated element trips exactly from 110 C on, and an uncalibrated chamber exactly from
      90 C on. */
  lemma CalibrationCannotHideHeat(t: real)
    ensures (forall centi, other, armed, expired :: ElementTrips(t, centi, other, armed, expired)) <==> t >= 110.0
    ensures (forall centi, other, armed, expired :: ChamberTrips(t, centi, other, armed, expired)) <==> t >= 90.0
  {
    assert Offset(-500) == -5.0;
    if t < 110.0 {
      assert !ElementTrips(t, -500, Valid(20.0), false, false);
    }
    if t < 90.0 {
      assert !ChamberTrips(t, -500, Valid(20.0), false, false);
    }
  }
}
