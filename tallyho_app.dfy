/**
 * TallyhoApp with the three fields that calibration reads and writes. The widgets, the
 * capture thread and the image pipeline are not modelled: a frame reaches ProcessFrame as the
 * sequence of its contours, sorted left to right, and a button press reaches Calibrate as the
 * entry text together with what `float` makes of it.
 */
module Tallyho {
  import opened Options
  import opened Calibration

  class TallyhoApp {
    var pixelsPerMetric: Option<real>
    var updatePPM: bool
    var calibrationWidth: Option<real>

    ghost function State(): AppState
      reads this
    {
      AppState(pixelsPerMetric, updatePPM, calibrationWidth)
    }

    ghost predicate Valid()
      reads this
    {
      Inv(State())
    }

    constructor ()
      ensures Valid()
      ensures State() == Initial()
      ensures pixelsPerMetric == Some(40.0) && !updatePPM && calibrationWidth == None
    {
      updatePPM := false;
      calibrationWidth := None;
      pixelsPerMetric := Some(DEFAULT_PIXELS_PER_METRIC);
    }

    /**
     * The "Set Calibration" button. Non-empty text that parses stores the width and asks for
     * recalibration on a later frame; empty text, or text `float` rejects, changes nothing.
     */
    method Calibrate(entry: string, parsed: Option<real>) returns (outcome: CalibrateOutcome)
      modifies this
      ensures old(Valid()) ==> Valid()
      ensures (State(), outcome) == CalibrateSpec(old(State()), entry, parsed)
      ensures pixelsPerMetric == old(pixelsPerMetric)
      ensures entry == [] || parsed.None? ==> State() == old(State())
      ensures entry != [] && parsed.Some? ==> calibrationWidth == parsed && updatePPM
    {
      if entry != [] {
        match parsed
        case None =>
          outcome := NotANumber;
        case Some(w) =>
          calibrationWidth := Some(w);
          updatePPM := true;
          outcome := WidthSet(w);
      } else {
        outcome := NothingEntered;
      }
      if old(Valid()) {
        CalibratePreservesInv(old(State()), entry, parsed);
      }
    }

    /**
     * drawOverlay on a frame with contours `cnts`, sorted left to right: a pending request is
     * consumed, and the factor cleared, when there is more than one contour; then every contour
     * of at least the minimum area is measured, the factor being computed from the first of them
     * if none is in force. The invariant guarantees a width wherever one is divided by, and a
     * non-zero factor; the frame itself must not bring a zero width or dB into the computation.
     */
    method ProcessFrame(cnts: seq<Contour>) returns (measurements: seq<Measurement>)
      requires Valid()
      requires CalibrationInputsNonZero(State(), cnts)
      modifies this
      ensures Valid()
      ensures FrameDefined(old(State()), cnts)
      ensures FrameResult(State(), measurements) == Frame(old(State()), cnts)
      ensures |measurements| == |Qualifying(cnts)|
      ensures forall k :: 0 <= k < |measurements| ==>
                pixelsPerMetric.Some? && pixelsPerMetric.value != 0.0 &&
                measurements[k] == Measurement(Qualifying(cnts)[k].dA / pixelsPerMetric.value,
                                               Qualifying(cnts)[k].dB / pixelsPerMetric.value)
    {
      FrameDefinedUnderInv(State(), cnts);
      ConsumePendingRequest(|cnts|);
      measurements := MeasureContours(cnts);
      FramePreservesInv(old(State()), cnts);
      assert cnts[0..] == cnts;
      ScanMeasurements(PendingClear(old(State()), |cnts|).pixelsPerMetric, calibrationWidth, cnts, 0);
    }

    /** The first step of drawOverlay: a pending request is consumed only if there are several contours. */
    method ConsumePendingRequest(count: nat)
      modifies this
      ensures State() == PendingClear(old(State()), count)
      ensures count > 1 && old(updatePPM) ==> pixelsPerMetric == None && !updatePPM
      ensures count <= 1 || !old(updatePPM) ==> State() == old(State())
    {
      if count > 1 {
        if updatePPM {
          pixelsPerMetric := None;
          updatePPM := false;
        }
      }
    }

    /** The `for c in cnts` loop of drawOverlay: it changes only pixelsPerMetric. */
    method MeasureContours(cnts: seq<Contour>) returns (measurements: seq<Measurement>)
      requires DivisionsDefined(pixelsPerMetric, calibrationWidth, cnts, 0)
      modifies this
      ensures updatePPM == old(updatePPM) && calibrationWidth == old(calibrationWidth)
      ensures ScanResult(pixelsPerMetric, measurements) == Scan(old(pixelsPerMetric), calibrationWidth, cnts, 0)
    {
      var width := calibrationWidth;
      ghost var flag := updatePPM;
      ghost var total := Scan(pixelsPerMetric, width, cnts, 0);
      measurements := [];
      var i := 0;
      while i < |cnts|
        invariant 0 <= i <= |cnts|
        invariant updatePPM == flag && calibrationWidth == width
        invariant DivisionsDefined(pixelsPerMetric, width, cnts, i)
        invariant total.pixelsPerMetric == Scan(pixelsPerMetric, width, cnts, i).pixelsPerMetric
        invariant total.measurements == measurements + Scan(pixelsPerMetric, width, cnts, i).measurements
      {
        var c := cnts[i];
        if !(c.area < MIN_AREA) {
          if pixelsPerMetric.None? {
            pixelsPerMetric := Some(c.dB / calibrationWidth.value);
          }
          var dimA := c.dA / pixelsPerMetric.value;
          var dimB := c.dB / pixelsPerMetric.value;
          AppendAssociative(measurements, [Measurement(dimA, dimB)],
                            Scan(pixelsPerMetric, width, cnts, i + 1).measurements);
          measurements := measurements + [Measurement(dimA, dimB)];
        }
        i := i + 1;
      }
    }
  }
}
