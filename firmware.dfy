/** The firmware's two global snapshots `ui` and `prev_ui` (src/main.cpp:56-68),
    the MQTT callback that writes `ui` (src/main.cpp:98-123), `setup`'s
    zeroing (src/main.cpp:357-376) and the redraw decision of `loop`
    (src/main.cpp:386-404), with what each screen layer draws from a
    snapshot (src/main.cpp:292-354). */
module Firmware {
  import opened Format
  import opened Buffers
  import opened Telemetry
  import opened Compactor

  // ---------------- what the layers draw ----------------

  /** |x|. */
  function Abs(x: real): (r: real)
    ensures r >= 0.0 && (r == x || r == -x)
  {
    if x < 0.0 then -x else x
  }

  /** `constrain(x, 0, 1)`. */
  function Clamp01(x: real): (r: real)
    ensures 0.0 <= r <= 1.0
    ensures 0.0 <= x <= 1.0 ==> r == x
  {
    if x < 0.0 then 0.0 else if x > 1.0 then 1.0 else x
  }

  /** The sweep of the progress arc in degrees (src/main.cpp:295). */
  function Sweep(progress: real): (deg: real)
    ensures 0.0 <= deg <= 360.0
  {
    Clamp01(progress) * 360.0
  }

  /** C's `round`: halves go away from zero. */
  function Round(x: real): (n: int)
    ensures x >= 0.0 ==> n as real <= x + 0.5 < n as real + 1.0
    ensures x < 0.0 ==> n as real - 1.0 < x - 0.5 <= n as real
  {
    if x >= 0.0 then (x + 0.5).Floor else -((-x + 0.5).Floor)
  }

  /** The percentage in the centre: rounded, then held to 0..100
      (src/main.cpp:302-303). */
  function Pct(progress: real): (n: int)
    ensures 0 <= n <= 100
    ensures 0.0 <= progress <= 1.0 ==> n == Round(progress * 100.0)
  {
    var r := Round(progress * 100.0);
    if r < 0 then 0 else if r > 100 then 100 else r
  }

  /** " · " as the bytes of the source text: a space, the two UTF-8 bytes of
      U+00B7, a space. */
  const Dot: string := [' ', 'Â', '·', ' ']

  /** The three texts of the centre layer (src/main.cpp:300-312): the
      percentage, the compact stage and state, and "layer/total". */
  datatype Centre = Centre(pct: string, line1: string, layers: string)

  function CentreShown(u: UIState): Centre {
    Centre(DecText(Pct(u.progress)) + "%",
           CompactStage(CStr(u.stage)) + Dot + CStr(u.state),
           DecText(u.layerCur) + "/" + DecText(u.layerTot))
  }

  /** The five texts of the badge layer (src/main.cpp:315-354). */
  datatype Badges = Badges(time: string, temps: string, filament: string, speed: string, job: string)

  function BadgesShown(u: UIState): Badges {
    Badges("Time " + CStr(u.timeLeft),
           "Temp " + DecText(u.nozzle) + "/" + DecText(u.bed),
           CStr(u.material) + " " + CStr(u.color),
           "Spd " + DecText(u.speedPct) + "% T" + DecText(u.tray),
           CStr(u.job))
  }

  // ---------------- the redraw decision ----------------

  /** Two progress values more than 0.005 apart. */
  predicate Moved(p: real, q: real) {
    Abs(p - q) > 0.005
  }

  /** `ringDirty`: the progress moved by more than 0.005. */
  predicate RingDirty(u: UIState, prev: UIState) {
    Moved(u.progress, prev.progress)
  }

  /** `centerDirty` as written: the current layer, the stage or the state
      differs (`strcmp` compares the texts up to their NULs). */
  predicate CenterDirty(u: UIState, prev: UIState) {
    u.layerCur != prev.layerCur || CStr(u.stage) != CStr(prev.stage) || CStr(u.state) != CStr(prev.state)
  }

  /** `badgeDirty`: one of the eight badge values differs. */
  predicate BadgeDirty(u: UIState, prev: UIState) {
    CStr(u.timeLeft) != CStr(prev.timeLeft) || u.nozzle != prev.nozzle || u.bed != prev.bed
    || CStr(u.material) != CStr(prev.material) || CStr(u.color) != CStr(prev.color)
    || u.speedPct != prev.speedPct || u.tray != prev.tray || CStr(u.job) != CStr(prev.job)
  }

  /** The centre redraw condition with the two values the centre also draws:
      the total layer count and the rounded percentage. */
  predicate CenterRedrawNeeded(u: UIState, prev: UIState) {
    CenterDirty(u, prev) || u.layerTot != prev.layerTot || Pct(u.progress) != Pct(prev.progress)
  }

  /** Two equal snapshots raise no flag. */
  lemma QuietWhenUnchanged(u: UIState)
    ensures !RingDirty(u, u) && !CenterDirty(u, u) && !BadgeDirty(u, u) && !CenterRedrawNeeded(u, u)
  {
  }

  /** A change to `layer_tot` alone raises none of the three flags. */
  lemma LayerTotAloneIsQuiet(u: UIState, n: Int32)
    ensures var v := u.(layerTot := n);
      !RingDirty(v, u) && !CenterDirty(v, u) && !BadgeDirty(v, u)
  {
  }

  /** The flags read the texts up to their NULs only: snapshots whose
      numbers and texts agree raise the same flags whatever bytes follow the
      NULs. */
  lemma FlagsIgnoreStaleBytes(u: UIState, v: UIState, prev: UIState)
    requires u.progress == v.progress && u.layerCur == v.layerCur && u.layerTot == v.layerTot
    requires u.nozzle == v.nozzle && u.bed == v.bed && u.speedPct == v.speedPct && u.tray == v.tray
    requires CStr(u.stage) == CStr(v.stage) && CStr(u.state) == CStr(v.state)
    requires CStr(u.timeLeft) == CStr(v.timeLeft) && CStr(u.job) == CStr(v.job)
    requires CStr(u.material) == CStr(v.material) && CStr(u.color) == CStr(v.color)
    ensures RingDirty(u, prev) == RingDirty(v, prev)
    ensures CenterDirty(u, prev) == CenterDirty(v, prev) && BadgeDirty(u, prev) == BadgeDirty(v, prev)
    ensures CentreShown(u) == CentreShown(v) && BadgesShown(u) == BadgesShown(v)
  {
  }

  /** The badge layer is redrawn whenever it would look different: a quiet
      `badgeDirty` means the five badge texts are the same. */
  lemma BadgeFlagSound(u: UIState, prev: UIState)
    ensures !BadgeDirty(u, prev) ==> BadgesShown(u) == BadgesShown(prev)
  {
  }

  /** A clamp moves values no further apart. */
  lemma Clamp01Close(a: real, b: real)
    ensures Abs(Clamp01(a) - Clamp01(b)) <= Abs(a - b)
  {
  }

  /** A quiet `ringDirty` leaves the arc of the current progress at most 1.8
      degrees away from the arc of the previous snapshot's progress (which
      need not be the arc last drawn: see `QuietStepsKeepDrawn`). */
  lemma RingFlagBound(u: UIState, prev: UIState)
    ensures !RingDirty(u, prev) ==> Abs(Sweep(u.progress) - Sweep(prev.progress)) <= 1.8
  {
    Clamp01Close(u.progress, prev.progress);
    var d := Clamp01(u.progress) - Clamp01(prev.progress);
    assert Sweep(u.progress) - Sweep(prev.progress) == d * 360.0;
  }

  // ---------------- the arc last drawn ----------------

  /** The progress the ring was last drawn for, after passes of `loop` that
      see the progress values `ps` in turn, as written: each pass compares
      with the previous pass's progress and then forgets it (`prev_ui = ui`). */
  function DrawnAfter(drawn: real, prev: real, ps: seq<real>): real
    decreases |ps|
  {
    if |ps| == 0 then drawn
    else DrawnAfter(if Moved(ps[0], prev) then ps[0] else drawn, ps[0], ps[1..])
  }

  /** Passes whose progress each moves by at most 0.005 from the pass before
      never redraw the ring, however far the progress travels in all. */
  lemma {:induction false} QuietStepsKeepDrawn(drawn: real, prev: real, ps: seq<real>)
    requires |ps| > 0 ==> !Moved(ps[0], prev)
    requires forall i :: 0 < i < |ps| ==> !Moved(ps[i], ps[i - 1])
    ensures DrawnAfter(drawn, prev, ps) == drawn
    decreases |ps|
  {
    if |ps| > 0 {
      QuietStepsKeepDrawn(drawn, ps[0], ps[1..]);
    }
  }

  /** Progress rising by 0.004 a message: 0.004, 0.008, .... */
  function Ramp(n: nat): (ps: seq<real>)
    ensures |ps| == n
    ensures forall i :: 0 <= i < n ==> ps[i] == (i + 1) as real * 0.004
  {
    seq(n, i => (i + 1) as real * 0.004)
  }

  /** As written, a print that reports its progress in steps of 0.004 keeps
      the ring at the arc drawn by `setup` while the progress climbs to 1:
      after n passes the arc shown lags the current one by 1.44 n degrees,
      the whole circle at n = 250. */
  lemma RingLagGrows(n: nat)
    requires 1 <= n <= 250
    ensures DrawnAfter(0.0, 0.0, Ramp(n)) == 0.0
    ensures Sweep(Ramp(n)[n - 1]) - Sweep(0.0) == n as real * 1.44
  {
    var ps := Ramp(n);
    forall i | 0 < i < |ps|
      ensures !Moved(ps[i], ps[i - 1])
    {
      assert ps[i] - ps[i - 1] == 0.004;
    }
    QuietStepsKeepDrawn(0.0, 0.0, ps);
  }

  /** The progress the ring was last drawn for after passes that see `ps`,
      with the corrected flag: each pass compares with the progress last
      drawn rather than with the previous snapshot's. */
  function DrawnAfterCorrected(drawn: real, ps: seq<real>): real
    decreases |ps|
  {
    if |ps| == 0 then drawn
    else DrawnAfterCorrected(if Moved(ps[0], drawn) then ps[0] else drawn, ps[1..])
  }

  /** With the corrected flag, after any passes the arc shown is within 1.8
      degrees of the arc the latest progress calls for. */
  lemma {:induction false} RingTracksCorrected(drawn: real, ps: seq<real>)
    requires |ps| > 0
    ensures Abs(Sweep(ps[|ps| - 1]) - Sweep(DrawnAfterCorrected(drawn, ps))) <= 1.8
    decreases |ps|
  {
    var d := if Moved(ps[0], drawn) then ps[0] else drawn;
    if |ps| == 1 {
      assert DrawnAfterCorrected(drawn, ps) == DrawnAfterCorrected(d, []) == d;
      RingFlagBound(Zero().(progress := ps[0]), Zero().(progress := d));
    } else {
      RingTracksCorrected(d, ps[1..]);
      assert ps[1..][|ps[1..]| - 1] == ps[|ps| - 1];
    }
  }

  /** More progress never draws a shorter arc. */
  lemma SweepMonotone(p: real, q: real)
    ensures p <= q ==> Sweep(p) <= Sweep(q)
  {
  }

  /** Progress 0 to 0.503 in one message marks the ring dirty, and the new
      arc sweeps 181.08 degrees. */
  lemma RingScenario()
    ensures var u := Zero(); var v := u.(progress := 0.503);
      RingDirty(v, u) && Sweep(v.progress) == 181.08
  {
  }

  /** Nozzle 215 and bed 60 read "Temp 215/60" on their badge. */
  lemma TempBadgeScenario()
    ensures BadgesShown(Zero().(nozzle := 215, bed := 60)).temps == "Temp 215/60"
  {
    assert DecText(215) == "215" && DecText(60) == "60";
  }

  /** Stage "heating_bed" with state "Normal" reads "Bed · Normal" on the
      centre's second line. */
  lemma StageLineScenario()
    ensures var z := Zero();
      var u := z.(stage := CopyInto(z.stage, "heating_bed"), state := CopyInto(z.state, "Normal"));
      CentreShown(u).line1 == "Bed" + Dot + "Normal"
  {
    var z := Zero();
    assert NUL !in "heating_bed" && NUL !in "Normal";
    CopyIntoView(z.stage, "heating_bed");
    CopyIntoView(z.state, "Normal");
    var u := z.(stage := CopyInto(z.stage, "heating_bed"), state := CopyInto(z.state, "Normal"));
    assert CStr(u.stage) == "heating_bed" && CStr(u.state) == "Normal";
    HeatingBedIsBed();
  }

  /** As written, `centerDirty` misses two of the values the centre draws: a
      new total layer count, or a new progress, leaves it quiet while the
      centre would read differently. */
  lemma CenterFlagMissesTotalAndPercent()
    ensures var u := Zero(); var v := u.(layerTot := 120);
      !CenterDirty(v, u) && CentreShown(v) != CentreShown(u)
    ensures var u := Zero(); var v := u.(progress := 0.5);
      !CenterDirty(v, u) && RingDirty(v, u) && CentreShown(v) != CentreShown(u)
  {
    var u := Zero();
    assert DecText(0) == "0" && DecText(120) == "120";
    assert CentreShown(u.(layerTot := 120)).layers != CentreShown(u).layers;
    assert Pct(0.5) == 50 && Pct(0.0) == 0;
    assert DecText(50) == "50";
    assert CentreShown(u.(progress := 0.5)).pct != CentreShown(u).pct;
  }

  /** With the two values added, the centre is redrawn whenever it would
      look different. */
  lemma CenterRedrawSound(u: UIState, prev: UIState)
    ensures !CenterRedrawNeeded(u, prev) ==> CentreShown(u) == CentreShown(prev)
  {
  }

  // ---------------- routing one message, arm by arm ----------------

  /** No arm before the `k`-th accepts topic `t`. */
  ghost predicate NoneBefore(t: string, k: nat)
    requires k <= |Branches|
  {
    k == 0 || (NoneBefore(t, k - 1) && !Matches(t, Branches[k - 1]))
  }

  /** Failing every test of arm `k` moves past it. */
  lemma SkipArm(t: string, k: nat)
    requires k < |Branches| && NoneBefore(t, k)
    requires forall j :: 0 <= j < |Branches[k].suffixes| ==> !TopicEndsWith(t, Branches[k].suffixes[j])
    ensures NoneBefore(t, k + 1)
  {
  }

  /** No arm before the `k`-th accepts the topic. */
  lemma {:induction false} NoneBeforeMeans(t: string, k: nat)
    requires k <= |Branches| && NoneBefore(t, k)
    ensures forall j :: 0 <= j < k ==> !Matches(t, Branches[j])
  {
    if k > 0 {
      NoneBeforeMeans(t, k - 1);
    }
  }

  /** Passing a test of arm `k`, after failing all earlier arms, routes the
      message to arm `k`'s field. */
  lemma TakeArm(t: string, k: nat, j: nat)
    requires k < |Branches| && NoneBefore(t, k)
    requires j < |Branches[k].suffixes| && TopicEndsWith(t, Branches[k].suffixes[j])
    ensures Route(t) == Some(Branches[k].field)
  {
    NoneBeforeMeans(t, k);
    var i := FirstArm(t, 0);
    assert Matches(t, Branches[k]);
    assert i == k;
  }

  /** The seven basic arms as the table lists them. */
  lemma BasicArms()
    ensures Branches[0] == Branch(["print_progress/state"], Progress)
    ensures Branches[1] == Branch(["print_status/state"], Status)
    ensures Branches[2] == Branch(["current_stage/state"], Stage)
    ensures Branches[3] == Branch(["current_layer/state"], LayerCur)
    ensures Branches[4] == Branch(["total_layer_count/state", "total_layers/state"], LayerTot)
    ensures Branches[5] == Branch(["remaining_time/state", "time_remaining/state"], TimeLeft)
    ensures Branches[6] == Branch(["print_job/state", "project/state", "file/state"], Job)
  {
  }

  /** The six badge arms as the table lists them. */
  lemma BadgeArms()
    ensures Branches[7] == Branch(["nozzle_temperature/state", "hotend_temp/state"], Nozzle)
    ensures Branches[8] == Branch(["bed_temperature/state", "bed_temp/state"], Bed)
    ensures Branches[9] == Branch(["filament_type/state", "material/state"], Material)
    ensures Branches[10] == Branch(["filament_color/state", "color/state"], Color)
    ensures Branches[11] == Branch(["speed_percentage/state", "print_speed/state"], SpeedPct)
    ensures Branches[12] == Branch(["active_tray/state", "tray/state"], Tray)
  {
  }

  /** The tests of `mqttCB`'s `if`/`else if` chain in the source's order:
      the field of the first arm whose test passes, if any. The seven basic
      arms (src/main.cpp:103-114) are tested here. */
  method TopicField(t: string) returns (f: Option<Field>)
    ensures f == Route(t)
  {
    BasicArms();
    if TopicEndsWith(t, "print_progress/state") {
      TakeArm(t, 0, 0);
      return Some(Progress);
    }
    SkipArm(t, 0);
    if TopicEndsWith(t, "print_status/state") {
      TakeArm(t, 1, 0);
      return Some(Status);
    }
    SkipArm(t, 1);
    if TopicEndsWith(t, "current_stage/state") {
      TakeArm(t, 2, 0);
      return Some(Stage);
    }
    SkipArm(t, 2);
    if TopicEndsWith(t, "current_layer/state") {
      TakeArm(t, 3, 0);
      return Some(LayerCur);
    }
    SkipArm(t, 3);
    if TopicEndsWith(t, "total_layer_count/state") || TopicEndsWith(t, "total_layers/state") {
      TakeArm(t, 4, if TopicEndsWith(t, "total_layer_count/state") then 0 else 1);
      return Some(LayerTot);
    }
    SkipArm(t, 4);
    if TopicEndsWith(t, "remaining_time/state") || TopicEndsWith(t, "time_remaining/state") {
      TakeArm(t, 5, if TopicEndsWith(t, "remaining_time/state") then 0 else 1);
      return Some(TimeLeft);
    }
    SkipArm(t, 5);
    if TopicEndsWith(t, "print_job/state") || TopicEndsWith(t, "project/state") || TopicEndsWith(t, "file/state") {
      TakeArm(t, 6, if TopicEndsWith(t, "print_job/state") then 0
                      else if TopicEndsWith(t, "project/state") then 1 else 2);
      return Some(Job);
    }
    SkipArm(t, 6);
    f := BadgeField(t);
  }

  /** The badge arms of the chain (src/main.cpp:116-122), reached once the
      seven basic arms have all failed. */
  method BadgeField(t: string) returns (f: Option<Field>)
    requires NoneBefore(t, 7)
    ensures f == Route(t)
  {
    BadgeArms();
    if TopicEndsWith(t, "nozzle_temperature/state") || TopicEndsWith(t, "hotend_temp/state") {
      TakeArm(t, 7, if TopicEndsWith(t, "nozzle_temperature/state") then 0 else 1);
      return Some(Nozzle);
    }
    SkipArm(t, 7);
    if TopicEndsWith(t, "bed_temperature/state") || TopicEndsWith(t, "bed_temp/state") {
      TakeArm(t, 8, if TopicEndsWith(t, "bed_temperature/state") then 0 else 1);
      return Some(Bed);
    }
    SkipArm(t, 8);
    if TopicEndsWith(t, "filament_type/state") || TopicEndsWith(t, "material/state") {
      TakeArm(t, 9, if TopicEndsWith(t, "filament_type/state") then 0 else 1);
      return Some(Material);
    }
    SkipArm(t, 9);
    if TopicEndsWith(t, "filament_color/state") || TopicEndsWith(t, "color/state") {
      TakeArm(t, 10, if TopicEndsWith(t, "filament_color/state") then 0 else 1);
      return Some(Color);
    }
    SkipArm(t, 10);
    if TopicEndsWith(t, "speed_percentage/state") || TopicEndsWith(t, "print_speed/state") {
      TakeArm(t, 11, if TopicEndsWith(t, "speed_percentage/state") then 0 else 1);
      return Some(SpeedPct);
    }
    SkipArm(t, 11);
    if TopicEndsWith(t, "active_tray/state") || TopicEndsWith(t, "tray/state") {
      TakeArm(t, 12, if TopicEndsWith(t, "active_tray/state") then 0 else 1);
      return Some(Tray);
    }
    SkipArm(t, 12);
    NoneBeforeMeans(t, |Branches|);
    return None;
  }

  // ---------------- the two snapshots ----------------

  /** `ui`, written by the MQTT callback, and `prev_ui`, the snapshot the
      previous pass of `loop` compared with; beside them, as ghost state,
      the progress the ring was last drawn for. */
  class Display {
    var ui: UIState
    var prevUi: UIState
    /** The progress the ring was last drawn for. */
    ghost var drawn: real

    /** Both snapshots have their buffers at full capacity, each holding a
        NUL, so that `strcmp` and `print` stay inside them. */
    predicate Valid()
      reads this
    {
      WellFormed(ui) && Terminated(ui) && WellFormed(prevUi) && Terminated(prevUi)
    }

    /** `setup`'s part in the state: both records zeroed, then `prev_ui = ui`
        (src/main.cpp:368-375). */
    constructor Setup()
      ensures Valid()
      ensures ui == Zero() && prevUi == ui && drawn == ui.progress
    {
      ui := Zero();
      prevUi := Zero();
      drawn := Zero().progress;
      prevUi := ui;
    }

    /** `mqttCB`: the chain's tests pick the arm (`TopicField`), and that
        arm's statement writes its one field of `ui`. */
    method MqttCB(t: string, p: Payload)
      requires Valid()
      modifies this
      ensures Valid()
      ensures ui == Dispatch(old(ui), t, p)
      ensures prevUi == old(prevUi) && drawn == old(drawn)
    {
      var f := TopicField(t);
      match f
      case None =>
      case Some(Progress) => ui := ui.(progress := NormProgress(p.asReal));
      case Some(Status) => ui := ui.(state := CopyInto(ui.state, p.text));
      case Some(Stage) => ui := ui.(stage := CopyInto(ui.stage, p.text));
      case Some(LayerCur) => ui := ui.(layerCur := p.asInt);
      case Some(LayerTot) => ui := ui.(layerTot := p.asInt);
      case Some(TimeLeft) =>
        var m := p.asInt;
        var buf := ClockText(m);
        ui := ui.(timeLeft := CopyInto(ui.timeLeft, buf));
      case Some(Job) => ui := ui.(job := CopyInto(ui.job, p.text));
      case Some(Nozzle) => ui := ui.(nozzle := p.rounded);
      case Some(Bed) => ui := ui.(bed := p.rounded);
      case Some(Material) => ui := ui.(material := CopyInto(ui.material, p.text));
      case Some(Color) => ui := ui.(color := CopyInto(ui.color, p.text));
      case Some(SpeedPct) => ui := ui.(speedPct := p.asInt);
      case Some(Tray) => ui := ui.(tray := p.asInt);
    }

    /** One pass of `loop` after the messages of `mqtt.loop()` have been
        handled: the three redraw flags against the previous snapshot, the
        ring redrawn when its flag is raised, then `prev_ui = ui` whatever
        the flags were. */
    method Loop() returns (ringDirty: bool, centerDirty: bool, badgeDirty: bool)
      requires Valid()
      modifies this
      ensures Valid()
      ensures ringDirty == RingDirty(old(ui), old(prevUi))
      ensures centerDirty == CenterDirty(old(ui), old(prevUi))
      ensures badgeDirty == BadgeDirty(old(ui), old(prevUi))
      ensures ui == old(ui) && prevUi == ui
      ensures drawn == DrawnAfter(old(drawn), old(prevUi).progress, [old(ui).progress])
    {
      ringDirty := Abs(ui.progress - prevUi.progress) > 0.005;
      centerDirty := ui.layerCur != prevUi.layerCur
                     || CStr(ui.stage) != CStr(prevUi.stage)
                     || CStr(ui.state) != CStr(prevUi.state);
      badgeDirty := CStr(ui.timeLeft) != CStr(prevUi.timeLeft)
                    || ui.nozzle != prevUi.nozzle
                    || ui.bed != prevUi.bed
                    || CStr(ui.material) != CStr(prevUi.material)
                    || CStr(ui.color) != CStr(prevUi.color)
                    || ui.speedPct != prevUi.speedPct
                    || ui.tray != prevUi.tray
                    || CStr(ui.job) != CStr(prevUi.job);
      if ringDirty {
        drawn := ui.progress;
      }
      prevUi := ui;
    }
  }
}
