/**
 * The calibration state machine of TallyhoApp and the per-contour measurement arithmetic,
 * written as pure functions of the app's three calibration fields. The class in
 * tallyho_app.dfy is proved to follow these functions step by step.
 */
module Calibration {
  import opened Options

  /** Contours whose area is below this many square pixels are treated as noise. */
  const MIN_AREA: real := 100.0

  /** The pixels-per-metric value the app starts with, before any calibration. */
  const DEFAULT_PIXELS_PER_METRIC: real := 40.0

  /**
   * What the vision pipeline yields for one contour: its area, and the distances dA (between
   * the top and bottom edge midpoints of its box) and dB (between the left and right ones).
   */
  datatype Contour = Contour(area: real, dA: real, dB: real)

  /** The size of one object in calibration units: dimA from dA, dimB from dB. */
  datatype Measurement = Measurement(dimA: real, dimB: real)

  /** The three fields of TallyhoApp that take part in calibration. */
  datatype AppState = AppState(pixelsPerMetric: Option<real>, updatePPM: bool, calibrationWidth: Option<real>)

  /** What the contour loop leaves behind: the calibration factor and one measurement per measured contour. */
  datatype ScanResult = ScanResult(pixelsPerMetric: Option<real>, measurements: seq<Measurement>)

  /** The state after one frame and the measurements drawn on it. */
  datatype FrameResult = FrameResult(state: AppState, measurements: seq<Measurement>)

  /** How a press of "Set Calibration" ended. */
  datatype CalibrateOutcome = NothingEntered | WidthSet(width: real) | NotANumber

  function Initial(): AppState
  {
    AppState(Some(DEFAULT_PIXELS_PER_METRIC), false, None)
  }

  /**
   * The state invariant: whenever calibration has to be recomputed, or may soon be because a
   * request is pending, a calibration width is available; and a factor in force is never zero.
   */
  predicate Inv(s: AppState)
  {
    ((s.pixelsPerMetric.None? || s.updatePPM) ==> s.calibrationWidth.Some?) &&
    s.pixelsPerMetric != Some(0.0)
  }

  lemma InitialSatisfiesInv()
    ensures Inv(Initial())
    ensures Initial().pixelsPerMetric == Some(40.0) && !Initial().updatePPM && Initial().calibrationWidth == None
  {
  }

  // ---------------------------------------------------------------------------------------
  // Calibrate

  /**
   * A press of "Set Calibration" with entry text `entry`; `parsed` is what Python's `float`
   * makes of that text, None when it raises.
   */
  function CalibrateSpec(s: AppState, entry: string, parsed: Option<real>): (r: (AppState, CalibrateOutcome))
  {
    if entry == [] then (s, NothingEntered)
    else match parsed
      case None => (s, NotANumber)
      case Some(w) => (s.(calibrationWidth := Some(w), updatePPM := true), WidthSet(w))
  }

  /** What a calibration request does, case by case, and that it never touches pixelsPerMetric. */
  lemma CalibrateEffect(s: AppState, entry: string, parsed: Option<real>)
    ensures CalibrateSpec(s, entry, parsed).0.pixelsPerMetric == s.pixelsPerMetric
    ensures CalibrateSpec(s, entry, parsed).0 == s <==> entry == [] || parsed.None? || (s.updatePPM && s.calibrationWidth == parsed)
    ensures entry != [] && parsed.Some? ==>
              CalibrateSpec(s, entry, parsed).0.calibrationWidth == parsed && CalibrateSpec(s, entry, parsed).0.updatePPM
    ensures CalibrateSpec(s, entry, parsed).1.WidthSet? <==> entry != [] && parsed.Some?
  {
  }

  lemma CalibratePreservesInv(s: AppState, entry: string, parsed: Option<real>)
    requires Inv(s)
    ensures Inv(CalibrateSpec(s, entry, parsed).0)
  {
  }

  // ---------------------------------------------------------------------------------------
  // One frame

  predicate Qualifies(c: Contour)
  {
    !(c.area < MIN_AREA)
  }

  /** The contours the loop measures, in their original order. */
  function Qualifying(cs: seq<Contour>): (q: seq<Contour>)
    ensures |q| <= |cs|
    ensures forall c :: c in q <==> c in cs && Qualifies(c)
  {
    if cs == [] then []
    else if Qualifies(cs[0]) then [cs[0]] + Qualifying(cs[1..])
    else Qualifying(cs[1..])
  }

  lemma {:induction false} QualifyingAppend(a: seq<Contour>, b: seq<Contour>)
    ensures Qualifying(a + b) == Qualifying(a) + Qualifying(b)
  {
    if a == [] {
      assert a + b == b;
    } else {
      assert (a + b)[0] == a[0];
      assert (a + b)[1..] == a[1..] + b;
      QualifyingAppend(a[1..], b);
    }
  }

  lemma QualifyingAt(cs: seq<Contour>, i: nat)
    requires i < |cs|
    ensures Qualifying(cs[i..]) ==
              if Qualifies(cs[i]) then [cs[i]] + Qualifying(cs[i + 1..]) else Qualifying(cs[i + 1..])
  {
    assert cs[i..][0] == cs[i] && cs[i..][1..] == cs[i + 1..];
  }

  /**
   * The divisions of the loop from position `i` on are all defined, that is the loop raises no
   * Python exception: every measured contour finds a non-zero factor in force, and when the
   * factor has to be computed first (`dB / calibrationWidth`) the width is set and non-zero and
   * the result is non-zero.
   */
  predicate DivisionsDefined(ppm: Option<real>, width: Option<real>, cs: seq<Contour>, i: nat)
    requires i <= |cs|
    decreases |cs| - i
  {
    if i == |cs| then true
    else if !Qualifies(cs[i]) then DivisionsDefined(ppm, width, cs, i + 1)
    else match ppm
      case Some(p) => p != 0.0 && DivisionsDefined(ppm, width, cs, i + 1)
      case None =>
        width.Some? && width.value != 0.0 && cs[i].dB != 0.0 &&
        DivisionsDefined(Some(cs[i].dB / width.value), width, cs, i + 1)
  }

  /**
   * In closed form: nothing is measured, or the factor in force at the start is non-zero, or
   * there is none and it is computed from a set, non-zero width and the first measured
   * contour's non-zero dB.
   */
  lemma {:induction false} DivisionsDefinedIff(ppm: Option<real>, width: Option<real>, cs: seq<Contour>, i: nat)
    requires i <= |cs|
    ensures DivisionsDefined(ppm, width, cs, i) <==>
              Qualifying(cs[i..]) == [] ||
              match ppm
              case Some(p) => p != 0.0
              case None => width.Some? && width.value != 0.0 && Qualifying(cs[i..])[0].dB != 0.0
    decreases |cs| - i
  {
    if i == |cs| {
      assert cs[i..] == [];
    } else {
      QualifyingAt(cs, i);
      if !Qualifies(cs[i]) || ppm.Some? {
        DivisionsDefinedIff(ppm, width, cs, i + 1);
      } else if width.Some? && width.value != 0.0 && cs[i].dB != 0.0 {
        DivisionsDefinedIff(Some(cs[i].dB / width.value), width, cs, i + 1);
      }
    }
  }

  /** The `for c in cnts` loop, from position `i` and the factor in force there. */
  function Scan(ppm: Option<real>, width: Option<real>, cs: seq<Contour>, i: nat): ScanResult
    requires i <= |cs| && DivisionsDefined(ppm, width, cs, i)
    decreases |cs| - i
  {
    if i == |cs| then ScanResult(ppm, [])
    else if !Qualifies(cs[i]) then Scan(ppm, width, cs, i + 1)
    else
      var p := if ppm.Some? then ppm.value else cs[i].dB / width.value;
      var rest := Scan(Some(p), width, cs, i + 1);
      ScanResult(rest.pixelsPerMetric, [Measurement(cs[i].dA / p, cs[i].dB / p)] + rest.measurements)
  }

  lemma AppendAssociative<T>(a: seq<T>, b: seq<T>, c: seq<T>)
    ensures a + (b + c) == (a + b) + c
  {
  }

  /**
   * The factor is computed at most once per loop, from the first measured contour, and only
   * when none is in force; a factor in force at the start is kept to the end.
   */
  lemma {:induction false} ScanFactor(ppm: Option<real>, width: Option<real>, cs: seq<Contour>, i: nat)
    requires i <= |cs| && DivisionsDefined(ppm, width, cs, i)
    ensures ppm.Some? || Qualifying(cs[i..]) == [] ==> Scan(ppm, width, cs, i).pixelsPerMetric == ppm
    ensures ppm.None? && Qualifying(cs[i..]) != [] ==>
              width.Some? && width.value != 0.0 &&
              Scan(ppm, width, cs, i).pixelsPerMetric == Some(Qualifying(cs[i..])[0].dB / width.value)
    decreases |cs| - i
  {
    if i == |cs| {
      assert cs[i..] == [];
    } else {
      QualifyingAt(cs, i);
      if !Qualifies(cs[i]) {
        ScanFactor(ppm, width, cs, i + 1);
      } else {
        var p := if ppm.Some? then ppm.value else cs[i].dB / width.value;
        ScanFactor(Some(p), width, cs, i + 1);
      }
    }
  }

  /**
   * The loop measures exactly the qualifying contours, in order, and every measurement of the
   * frame divides by the same non-zero factor: the one in force when the loop ends.
   */
  lemma {:induction false} ScanMeasurements(ppm: Option<real>, width: Option<real>, cs: seq<Contour>, i: nat)
    requires i <= |cs| && DivisionsDefined(ppm, width, cs, i)
    ensures |Scan(ppm, width, cs, i).measurements| == |Qualifying(cs[i..])|
    ensures Qualifying(cs[i..]) != [] ==>
              Scan(ppm, width, cs, i).pixelsPerMetric.Some? && Scan(ppm, width, cs, i).pixelsPerMetric.value != 0.0
    ensures forall k :: 0 <= k < |Qualifying(cs[i..])| ==>
              Scan(ppm, width, cs, i).measurements[k] ==
                Measurement(Qualifying(cs[i..])[k].dA / Scan(ppm, width, cs, i).pixelsPerMetric.value,
                            Qualifying(cs[i..])[k].dB / Scan(ppm, width, cs, i).pixelsPerMetric.value)
    decreases |cs| - i
  {
    if i == |cs| {
      assert cs[i..] == [];
    } else {
      QualifyingAt(cs, i);
      if !Qualifies(cs[i]) {
        ScanMeasurements(ppm, width, cs, i + 1);
      } else {
        var p := if ppm.Some? then ppm.value else cs[i].dB / width.value;
        ScanMeasurements(Some(p), width, cs, i + 1);
        ScanFactor(Some(p), width, cs, i + 1);
      }
    }
  }

  /** Two frames with the same qualifying contours, in the same order, are scanned alike. */
  lemma ScanDependsOnlyOnQualifying(ppm: Option<real>, width: Option<real>, cs: seq<Contour>, ds: seq<Contour>)
    requires Qualifying(cs) == Qualifying(ds)
    requires DivisionsDefined(ppm, width, cs, 0)
    ensures DivisionsDefined(ppm, width, ds, 0)
    ensures Scan(ppm, width, cs, 0) == Scan(ppm, width, ds, 0)
  {
    assert cs[0..] == cs && ds[0..] == ds;
    DivisionsDefinedIff(ppm, width, cs, 0);
    DivisionsDefinedIff(ppm, width, ds, 0);
    ScanFactor(ppm, width, cs, 0);
    ScanFactor(ppm, width, ds, 0);
    ScanMeasurements(ppm, width, cs, 0);
    ScanMeasurements(ppm, width, ds, 0);
  }

  /** Contours below the area threshold, wherever they are, change nothing and are not measured. */
  lemma SmallContoursIgnored(ppm: Option<real>, width: Option<real>, a: seq<Contour>, c: Contour, b: seq<Contour>)
    requires !Qualifies(c)
    requires DivisionsDefined(ppm, width, a + b, 0)
    ensures DivisionsDefined(ppm, width, a + [c] + b, 0)
    ensures Scan(ppm, width, a + [c] + b, 0) == Scan(ppm, width, a + b, 0)
  {
    QualifyingAppend(a, [c]);
    QualifyingAppend(a + [c], b);
    QualifyingAppend(a, b);
    assert Qualifying([c]) == [];
    ScanDependsOnlyOnQualifying(ppm, width, a + b, a + [c] + b);
  }

  /** Clearing of a pending request: only on frames with more than one contour. */
  function PendingClear(s: AppState, count: nat): AppState
  {
    if count > 1 && s.updatePPM then s.(pixelsPerMetric := None, updatePPM := false) else s
  }

  predicate FrameDefined(s: AppState, cs: seq<Contour>)
  {
    DivisionsDefined(PendingClear(s, |cs|).pixelsPerMetric, s.calibrationWidth, cs, 0)
  }

  /** The frame computes the factor: one is needed, and none is in force after the pending clear. */
  predicate ComputesFactor(s: AppState, cs: seq<Contour>)
  {
    Qualifying(cs) != [] && PendingClear(s, |cs|).pixelsPerMetric.None?
  }

  /** What the frame itself must supply: a non-zero width and dB where the factor is computed. */
  predicate CalibrationInputsNonZero(s: AppState, cs: seq<Contour>)
  {
    ComputesFactor(s, cs) ==> s.calibrationWidth != Some(0.0) && Qualifying(cs)[0].dB != 0.0
  }

  /**
   * Under the invariant, the divisions of a frame are defined exactly when the width and the
   * calibrating contour's dB are non-zero: the invariant rules out dividing by a missing width
   * or by a zero factor.
   */
  lemma FrameDefinedUnderInv(s: AppState, cs: seq<Contour>)
    requires Inv(s)
    ensures FrameDefined(s, cs) <==> CalibrationInputsNonZero(s, cs)
  {
    assert cs[0..] == cs;
    DivisionsDefinedIff(PendingClear(s, |cs|).pixelsPerMetric, s.calibrationWidth, cs, 0);
  }

  /** One call of drawOverlay on a frame whose contours, sorted left to right, are `cs`. */
  function Frame(s: AppState, cs: seq<Contour>): FrameResult
    requires FrameDefined(s, cs)
  {
    var c := PendingClear(s, |cs|);
    var r := Scan(c.pixelsPerMetric, c.calibrationWidth, cs, 0);
    FrameResult(c.(pixelsPerMetric := r.pixelsPerMetric), r.measurements)
  }

  /**
   * A frame keeps the width, consumes a pending request exactly when it has more than one
   * contour, and ends with the factor the pending clear and the loop leave: computed from the
   * first measured contour when none is in force, otherwise the one in force.
   */
  lemma FrameEffect(s: AppState, cs: seq<Contour>)
    requires FrameDefined(s, cs)
    ensures Frame(s, cs).state.calibrationWidth == s.calibrationWidth
    ensures Frame(s, cs).state.updatePPM == (s.updatePPM && |cs| <= 1)
    ensures ComputesFactor(s, cs) ==>
              s.calibrationWidth.Some? && s.calibrationWidth.value != 0.0 &&
              Frame(s, cs).state.pixelsPerMetric == Some(Qualifying(cs)[0].dB / s.calibrationWidth.value)
    ensures !ComputesFactor(s, cs) ==> Frame(s, cs).state.pixelsPerMetric == PendingClear(s, |cs|).pixelsPerMetric
    ensures !(|cs| > 1 && s.updatePPM) && s.pixelsPerMetric.Some? ==>
              Frame(s, cs).state == s
  {
    assert cs[0..] == cs;
    ScanFactor(PendingClear(s, |cs|).pixelsPerMetric, s.calibrationWidth, cs, 0);
  }

  /** A calibration request survives frames with at most one contour. */
  lemma RequestSurvivesSingleContourFrames(s: AppState, cs: seq<Contour>)
    requires FrameDefined(s, cs)
    requires |cs| <= 1 && s.updatePPM && s.pixelsPerMetric.Some?
    ensures Frame(s, cs).state == s
  {
    FrameEffect(s, cs);
  }

  /**
   * A frame that computes the factor and leaves no request pending (the request was consumed
   * on it, or there was none) resolves the factor there, and the next frame, whatever its
   * contours, leaves the state alone: it does not resolve again.
   */
  lemma ResolvedOnce(s: AppState, first: seq<Contour>, next: seq<Contour>)
    requires ComputesFactor(s, first) && !PendingClear(s, |first|).updatePPM
    requires FrameDefined(s, first)
    requires FrameDefined(Frame(s, first).state, next)
    ensures Frame(s, first).state.pixelsPerMetric.Some? && !Frame(s, first).state.updatePPM
    ensures Frame(Frame(s, first).state, next).state == Frame(s, first).state
  {
    FrameEffect(s, first);
    FrameEffect(Frame(s, first).state, next);
  }

  /**
   * The exception to ResolvedOnce: a request pending while no factor is in force survives a
   * frame with a single contour, although that frame computes the factor. The next frame with
   * several contours then clears the factor and computes it again, from its own first measured
   * contour.
   */
  lemma ResolvedAgainWhileRequestPending(s: AppState, first: seq<Contour>, next: seq<Contour>)
    requires s.pixelsPerMetric.None? && s.updatePPM
    requires |first| <= 1 && Qualifying(first) != []
    requires FrameDefined(s, first)
    requires |next| > 1 && Qualifying(next) != []
    requires FrameDefined(Frame(s, first).state, next)
    ensures s.calibrationWidth.Some?
    ensures Frame(s, first).state ==
              AppState(Some(Qualifying(first)[0].dB / s.calibrationWidth.value), true, s.calibrationWidth)
    ensures Frame(Frame(s, first).state, next).state ==
              AppState(Some(Qualifying(next)[0].dB / s.calibrationWidth.value), false, s.calibrationWidth)
  {
    FrameEffect(s, first);
    FrameEffect(Frame(s, first).state, next);
  }

  /** The same on numbers: a width of 2 gives the factor 5, and then 6 on the following frame. */
  lemma ResolvedAgainExample()
    ensures FrameDefined(AppState(None, true, Some(2.0)), [Contour(200.0, 10.0, 10.0)])
    ensures Frame(AppState(None, true, Some(2.0)), [Contour(200.0, 10.0, 10.0)]).state == AppState(Some(5.0), true, Some(2.0))
    ensures FrameDefined(AppState(Some(5.0), true, Some(2.0)), [Contour(200.0, 12.0, 12.0), Contour(200.0, 1.0, 1.0)])
    ensures Frame(AppState(Some(5.0), true, Some(2.0)), [Contour(200.0, 12.0, 12.0), Contour(200.0, 1.0, 1.0)]).state
              == AppState(Some(6.0), false, Some(2.0))
  {
    var s := AppState(None, true, Some(2.0));
    var first := [Contour(200.0, 10.0, 10.0)];
    var next := [Contour(200.0, 12.0, 12.0), Contour(200.0, 1.0, 1.0)];
    FrameDefinedUnderInv(s, first);
    FrameDefinedUnderInv(AppState(Some(5.0), true, Some(2.0)), next);
    ResolvedAgainWhileRequestPending(s, first, next);
  }

  /**
   * A contour below the area threshold is not measured, but it still counts toward the
   * "more than one contour" that consumes a pending request. With a request pending and a
   * factor in force, one measured contour alone changes nothing, while the same contour next
   * to a small one clears the factor and computes it anew.
   */
  lemma SmallContourCountsTowardClear(s: AppState, big: Contour, small: Contour)
    requires Inv(s) && s.updatePPM && s.pixelsPerMetric.Some?
    requires Qualifies(big) && !Qualifies(small)
    requires s.calibrationWidth != Some(0.0) && big.dB != 0.0
    ensures FrameDefined(s, [big]) && Frame(s, [big]).state == s
    ensures FrameDefined(s, [big, small]) &&
              Frame(s, [big, small]).state == AppState(Some(big.dB / s.calibrationWidth.value), false, s.calibrationWidth)
  {
    assert Qualifying([big]) == [big];
    assert [big, small] == [big] + [small];
    QualifyingAppend([big], [small]);
    assert Qualifying([small]) == [];
    FrameDefinedUnderInv(s, [big]);
    FrameDefinedUnderInv(s, [big, small]);
    FrameEffect(s, [big]);
    FrameEffect(s, [big, small]);
  }

  /**
   * When calibration is done on a frame, its first measured contour, the one the factor is
   * computed from, measures exactly the calibration width (dimB).
   */
  lemma CalibratingContourMeasuresWidth(s: AppState, cs: seq<Contour>)
    requires FrameDefined(s, cs)
    requires ComputesFactor(s, cs)
    ensures s.calibrationWidth.Some? && |Frame(s, cs).measurements| > 0
    ensures Frame(s, cs).measurements[0].dimB == s.calibrationWidth.value
  {
    assert cs[0..] == cs;
    var c := PendingClear(s, |cs|);
    ScanFactor(c.pixelsPerMetric, c.calibrationWidth, cs, 0);
    ScanMeasurements(c.pixelsPerMetric, c.calibrationWidth, cs, 0);
    var w := s.calibrationWidth.value;
    var dB := Qualifying(cs)[0].dB;
    assert Frame(s, cs).measurements[0].dimB == dB / (dB / w);
    DivideByQuotient(dB, w);
  }

  lemma DivideByQuotient(x: real, y: real)
    requires x != 0.0 && y != 0.0
    ensures x / (x / y) == y
  {
    assert (x / y) * y == x;
  }

  lemma FramePreservesInv(s: AppState, cs: seq<Contour>)
    requires Inv(s)
    requires FrameDefined(s, cs)
    ensures Inv(Frame(s, cs).state)
  {
    FrameEffect(s, cs);
    FrameDefinedUnderInv(s, cs);
  }

  // ---------------------------------------------------------------------------------------
  // Any interleaving of calibration requests and frames

  datatype Event =
    | SetCalibration(entry: string, parsed: Option<real>)
    | NewFrame(contours: seq<Contour>)

  predicate RunDefined(s: AppState, events: seq<Event>)
    decreases |events|
  {
    events == [] ||
    match events[0]
    case SetCalibration(entry, parsed) => RunDefined(CalibrateSpec(s, entry, parsed).0, events[1..])
    case NewFrame(cs) => FrameDefined(s, cs) && RunDefined(Frame(s, cs).state, events[1..])
  }

  function Run(s: AppState, events: seq<Event>): AppState
    requires RunDefined(s, events)
    decreases |events|
  {
    if events == [] then s
    else match events[0]
      case SetCalibration(entry, parsed) => Run(CalibrateSpec(s, entry, parsed).0, events[1..])
      case NewFrame(cs) => Run(Frame(s, cs).state, events[1..])
  }

  /** From the initial state, and along any sequence of presses and frames, Inv holds. */
  lemma {:induction false} InvAlongEveryRun(s: AppState, events: seq<Event>)
    requires Inv(s)
    requires RunDefined(s, events)
    ensures Inv(Run(s, events))
    ensures Run(s, events).pixelsPerMetric.None? ==> Run(s, events).calibrationWidth.Some?
    decreases |events|
  {
    if events != [] {
      match events[0]
      case SetCalibration(entry, parsed) =>
        CalibratePreservesInv(s, entry, parsed);
        InvAlongEveryRun(CalibrateSpec(s, entry, parsed).0, events[1..]);
      case NewFrame(cs) =>
        FramePreservesInv(s, cs);
        InvAlongEveryRun(Frame(s, cs).state, events[1..]);
    }
  }
}
