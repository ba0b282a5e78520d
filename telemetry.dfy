/** The telemetry record the display keeps (`UIState`, src/main.cpp:56-68) and
    the routing of one MQTT message to one of its fields (`mqttCB`,
    src/main.cpp:98-123). */
module Telemetry {
  import opened Format
  import opened Buffers

  datatype Option<T> = None | Some(value: T)

  // ---------------- the record ----------------

  /** Capacities of the character buffers of `UIState`. */
  const StageCap := 48
  const StateCap := 16
  const TimeCap := 12
  const MaterialCap := 16
  const ColorCap := 16
  const JobCap := 24

  /** One snapshot of what the display shows. Character buffers are kept
      whole, bytes after the terminating NUL included; `progress` is a real
      standing for the C `float`. */
  datatype UIState = UIState(
    progress: real,
    stage: seq<char>,
    state: seq<char>,
    layerCur: Int32,
    layerTot: Int32,
    timeLeft: seq<char>,
    nozzle: Int32,
    bed: Int32,
    material: seq<char>,
    color: seq<char>,
    speedPct: Int32,
    tray: Int32,
    job: seq<char>)

  /** Every buffer has its declared capacity. */
  predicate WellFormed(u: UIState) {
    |u.stage| == StageCap && |u.state| == StateCap && |u.timeLeft| == TimeCap
    && |u.material| == MaterialCap && |u.color| == ColorCap && |u.job| == JobCap
  }

  /** Every buffer holds a NUL. */
  predicate Terminated(u: UIState) {
    NUL in u.stage && NUL in u.state && NUL in u.timeLeft
    && NUL in u.material && NUL in u.color && NUL in u.job
  }

  function Zeros(n: nat): (r: seq<char>)
    ensures |r| == n && forall i :: 0 <= i < n ==> r[i] == NUL
    ensures n > 0 ==> NUL in r
  {
    var r := seq(n, _ => NUL);
    assert n > 0 ==> r[0] == NUL;
    r
  }

  /** The record after `memset(&ui, 0, sizeof(ui))` (src/main.cpp:368-369):
      well formed, every number zero and every text empty. */
  function Zero(): (u: UIState)
    ensures WellFormed(u) && Terminated(u)
    ensures u.progress == 0.0 && u.layerCur == 0 && u.layerTot == 0
    ensures u.nozzle == 0 && u.bed == 0 && u.speedPct == 0 && u.tray == 0
    ensures CStr(u.stage) == [] && CStr(u.state) == [] && CStr(u.timeLeft) == []
    ensures CStr(u.material) == [] && CStr(u.color) == [] && CStr(u.job) == []
  {
    UIState(0.0, Zeros(StageCap), Zeros(StateCap), 0, 0, Zeros(TimeCap), 0, 0,
            Zeros(MaterialCap), Zeros(ColorCap), 0, 0, Zeros(JobCap))
  }

  // ---------------- one message ----------------

  /** The payload of one message: its bytes, and what the Arduino parsers
      make of them (`toInt()`, `toFloat()` and `(int)roundf(toFloat())`),
      which are not part of this model. */
  datatype Payload = Payload(text: seq<char>, asInt: Int32, asReal: real, rounded: Int32)

  /** `normProgress` (src/main.cpp:86-91): a value above 1.001 is read as a
      percentage, and the result is clamped to [0, 1]. */
  function NormProgress(v: real): (r: real)
    ensures 0.0 <= r <= 1.0
    ensures 0.0 <= v <= 1.0 ==> r == v
    ensures 1.001 < v <= 100.0 ==> r == v / 100.0
    ensures v < 0.0 || 1.0 < v <= 1.001 || 100.0 < v ==> r == (if v < 0.0 then 0.0 else 1.0)
  {
    var w := if v > 1.001 then v / 100.0 else v;
    if w < 0.0 then 0.0 else if w > 1.0 then 1.0 else w
  }

  /** `topicEndsWith` (src/main.cpp:92-96): a suffix longer than the topic
      never matches; otherwise the last |suffix| bytes are compared, here
      from the last byte backwards. */
  function TopicEndsWith(t: string, suffix: string): (r: bool)
    ensures |suffix| > |t| ==> !r
    decreases |suffix|
  {
    if |suffix| > |t| then false
    else if |suffix| == 0 then true
    else t[|t| - 1] == suffix[|suffix| - 1] && TopicEndsWith(t[..|t| - 1], suffix[..|suffix| - 1])
  }

  /** The test is `memcmp` of the topic's last |suffix| bytes with the
      suffix. */
  lemma {:induction false} TopicEndsWithBytes(t: string, suffix: string)
    ensures TopicEndsWith(t, suffix) <==> |suffix| <= |t| && t[|t| - |suffix|..] == suffix
    decreases |suffix|
  {
    if 0 < |suffix| <= |t| {
      var t', s' := t[..|t| - 1], suffix[..|suffix| - 1];
      TopicEndsWithBytes(t', s');
      assert t[|t| - |suffix|..] == t'[|t'| - |s'|..] + [t[|t| - 1]];
      assert suffix == s' + [suffix[|suffix| - 1]];
    }
  }

  /** `topicEndsWith` holds exactly when the topic is something followed by
      the suffix. */
  lemma TopicEndsWithMeans(t: string, suffix: string)
    ensures TopicEndsWith(t, suffix) <==> exists p :: t == p + suffix
  {
    TopicEndsWithBytes(t, suffix);
    if |suffix| <= |t| {
      var p := t[..|t| - |suffix|];
      assert t[|t| - |suffix|..] == suffix ==> t == p + suffix;
      assert forall q :: t == q + suffix ==> t[|t| - |suffix|..] == suffix;
    }
  }

  // ---------------- routing ----------------

  /** The fields a message can set. */
  datatype Field = Progress | Status | Stage | LayerCur | LayerTot | TimeLeft | Job
                 | Nozzle | Bed | Material | Color | SpeedPct | Tray

  /** One arm of the `if`/`else if` chain: the topic suffixes it accepts
      (joined by `||`) and the field it sets. */
  datatype Branch = Branch(suffixes: seq<string>, field: Field)

  /** The arms of `mqttCB` in the order they are tested (src/main.cpp:103-122). */
  const Branches: seq<Branch> := [
    Branch(["print_progress/state"], Progress),
    Branch(["print_status/state"], Status),
    Branch(["current_stage/state"], Stage),
    Branch(["current_layer/state"], LayerCur),
    Branch(["total_layer_count/state", "total_layers/state"], LayerTot),
    Branch(["remaining_time/state", "time_remaining/state"], TimeLeft),
    Branch(["print_job/state", "project/state", "file/state"], Job),
    Branch(["nozzle_temperature/state", "hotend_temp/state"], Nozzle),
    Branch(["bed_temperature/state", "bed_temp/state"], Bed),
    Branch(["filament_type/state", "material/state"], Material),
    Branch(["filament_color/state", "color/state"], Color),
    Branch(["speed_percentage/state", "print_speed/state"], SpeedPct),
    Branch(["active_tray/state", "tray/state"], Tray)
  ]

  /** The topic ends with one of the arm's suffixes. */
  predicate Matches(t: string, b: Branch) {
    exists j :: 0 <= j < |b.suffixes| && TopicEndsWith(t, b.suffixes[j])
  }

  /** The index of the first arm at or after `from` that accepts `t`, or
      |Branches| if none does. */
  function FirstArm(t: string, from: nat): (i: nat)
    requires from <= |Branches|
    ensures from <= i <= |Branches|
    ensures i < |Branches| ==> Matches(t, Branches[i])
    ensures forall j :: from <= j < i ==> !Matches(t, Branches[j])
    decreases |Branches| - from
  {
    if from == |Branches| || Matches(t, Branches[from]) then from
    else FirstArm(t, from + 1)
  }

  /** The field a message on topic `t` sets, if any: the field of the first
      arm that accepts the topic, and none when no arm does. */
  function Route(t: string): (r: Option<Field>)
    ensures r.None? <==> forall i :: 0 <= i < |Branches| ==> !Matches(t, Branches[i])
    ensures r.Some? ==>
      exists i :: 0 <= i < |Branches| && Matches(t, Branches[i]) && Branches[i].field == r.value
                   && forall j :: 0 <= j < i ==> !Matches(t, Branches[j])
  {
    var i := FirstArm(t, 0);
    if i < |Branches| then Some(Branches[i].field) else None
  }

  /** The value written to field `f` by a message with payload `p`. */
  function Apply(u: UIState, f: Field, p: Payload): (r: UIState)
    ensures WellFormed(u) ==> WellFormed(r)
    ensures WellFormed(u) && Terminated(u) ==> Terminated(r)
    ensures AgreeExcept(u, r, f)
  {
    match f
    case Progress => u.(progress := NormProgress(p.asReal))
    case Status => u.(state := CopyInto(u.state, p.text))
    case Stage => u.(stage := CopyInto(u.stage, p.text))
    case LayerCur => u.(layerCur := p.asInt)
    case LayerTot => u.(layerTot := p.asInt)
    case TimeLeft => u.(timeLeft := CopyInto(u.timeLeft, ClockText(p.asInt)))
    case Job => u.(job := CopyInto(u.job, p.text))
    case Nozzle => u.(nozzle := p.rounded)
    case Bed => u.(bed := p.rounded)
    case Material => u.(material := CopyInto(u.material, p.text))
    case Color => u.(color := CopyInto(u.color, p.text))
    case SpeedPct => u.(speedPct := p.asInt)
    case Tray => u.(tray := p.asInt)
  }

  /** `u` and `v` agree on every field other than `f`. */
  predicate AgreeExcept(u: UIState, v: UIState, f: Field) {
    (f == Progress || u.progress == v.progress)
    && (f == Status || u.state == v.state)
    && (f == Stage || u.stage == v.stage)
    && (f == LayerCur || u.layerCur == v.layerCur)
    && (f == LayerTot || u.layerTot == v.layerTot)
    && (f == TimeLeft || u.timeLeft == v.timeLeft)
    && (f == Job || u.job == v.job)
    && (f == Nozzle || u.nozzle == v.nozzle)
    && (f == Bed || u.bed == v.bed)
    && (f == Material || u.material == v.material)
    && (f == Color || u.color == v.color)
    && (f == SpeedPct || u.speedPct == v.speedPct)
    && (f == Tray || u.tray == v.tray)
  }

  /** The record after one message: a topic no arm accepts changes nothing;
      otherwise only the field of the first accepting arm may change, and
      the record stays well formed. */
  function Dispatch(u: UIState, t: string, p: Payload): (r: UIState)
    ensures WellFormed(u) ==> WellFormed(r)
    ensures WellFormed(u) && Terminated(u) ==> Terminated(r)
    ensures Route(t).None? ==> r == u
    ensures Route(t).Some? ==> AgreeExcept(u, r, Route(t).value)
  {
    match Route(t)
    case None => u
    case Some(f) => Apply(u, f, p)
  }

  /** What each field reads back after a message routed to it: the clamped
      progress, the payload's numbers, the remaining-time text, and the
      payload text cut to the buffer (up to a NUL inside the payload). */
  lemma ApplyReadsBack(u: UIState, f: Field, p: Payload)
    requires WellFormed(u)
    ensures f == Progress ==> Apply(u, f, p).progress == NormProgress(p.asReal)
    ensures f == LayerCur ==> Apply(u, f, p).layerCur == p.asInt
    ensures f == LayerTot ==> Apply(u, f, p).layerTot == p.asInt
    ensures f == Nozzle ==> Apply(u, f, p).nozzle == p.rounded
    ensures f == Bed ==> Apply(u, f, p).bed == p.rounded
    ensures f == SpeedPct ==> Apply(u, f, p).speedPct == p.asInt
    ensures f == Tray ==> Apply(u, f, p).tray == p.asInt
    ensures f == TimeLeft ==> CStr(Apply(u, f, p).timeLeft) == ClockText(p.asInt)
    ensures f == Status ==> CStr(Apply(u, f, p).state) == CStr(p.text[..CopyLen(StateCap, p.text)])
    ensures f == Stage ==> CStr(Apply(u, f, p).stage) == CStr(p.text[..CopyLen(StageCap, p.text)])
    ensures f == Job ==> CStr(Apply(u, f, p).job) == CStr(p.text[..CopyLen(JobCap, p.text)])
    ensures f == Material ==> CStr(Apply(u, f, p).material) == CStr(p.text[..CopyLen(MaterialCap, p.text)])
    ensures f == Color ==> CStr(Apply(u, f, p).color) == CStr(p.text[..CopyLen(ColorCap, p.text)])
  {
    match f
    case TimeLeft => CopyIntoView(u.timeLeft, ClockText(p.asInt));
    case Status => CopyIntoView(u.state, p.text);
    case Stage => CopyIntoView(u.stage, p.text);
    case Job => CopyIntoView(u.job, p.text);
    case Material => CopyIntoView(u.material, p.text);
    case Color => CopyIntoView(u.color, p.text);
    case _ =>
  }

  // ---------------- the remaining-time arm ----------------

  /** Two suffixes of one topic agree from the end: if they differ `i`
      characters from the end, the topic cannot end with both. */
  lemma NotBoth(t: string, a: string, b: string, i: nat)
    requires TopicEndsWith(t, a) && i < |a| && i < |b| && a[|a| - 1 - i] != b[|b| - 1 - i]
    ensures !TopicEndsWith(t, b)
  {
    TopicEndsWithBytes(t, a);
    TopicEndsWithBytes(t, b);
    if |b| <= |t| {
      assert t[|t| - 1 - i] == a[|a| - 1 - i];
      assert t[|t| - |b|..][|b| - 1 - i] == t[|t| - 1 - i];
    }
  }

  /** A topic ending in "remaining_time/state" or "time_remaining/state" is
      accepted by none of the six arms before the remaining-time arm, so it
      sets the remaining time. */
  lemma RemainingTimeRoute(t: string)
    requires TopicEndsWith(t, "remaining_time/state") || TopicEndsWith(t, "time_remaining/state")
    ensures Route(t) == Some(TimeLeft)
  {
    if TopicEndsWith(t, "remaining_time/state") {
      var s := "remaining_time/state";
      NotBoth(t, s, "print_progress/state", 6);
      NotBoth(t, s, "print_status/state", 6);
      NotBoth(t, s, "current_stage/state", 7);
      NotBoth(t, s, "current_layer/state", 6);
      NotBoth(t, s, "total_layer_count/state", 6);
      NotBoth(t, s, "total_layers/state", 6);
      assert Branches[5].suffixes[0] == s;
    } else {
      var s := "time_remaining/state";
      NotBoth(t, s, "print_progress/state", 6);
      NotBoth(t, s, "print_status/state", 6);
      NotBoth(t, s, "current_stage/state", 6);
      NotBoth(t, s, "current_layer/state", 6);
      NotBoth(t, s, "total_layer_count/state", 6);
      NotBoth(t, s, "total_layers/state", 6);
      assert Branches[5].suffixes[1] == s;
    }
    ArmsUpToTime(t);
  }

  /** Stepping through the first six arms of the chain. */
  lemma ArmsUpToTime(t: string)
    requires !TopicEndsWith(t, "print_progress/state") && !TopicEndsWith(t, "print_status/state")
    requires !TopicEndsWith(t, "current_stage/state") && !TopicEndsWith(t, "current_layer/state")
    requires !TopicEndsWith(t, "total_layer_count/state") && !TopicEndsWith(t, "total_layers/state")
    requires Matches(t, Branches[5])
    ensures FirstArm(t, 0) == 5
  {
    assert FirstArm(t, 5) == 5;
    assert Branches[4].suffixes == ["total_layer_count/state", "total_layers/state"];
    assert FirstArm(t, 4) == 5;
    assert FirstArm(t, 3) == 5;
    assert FirstArm(t, 2) == 5;
    assert FirstArm(t, 1) == 5;
  }

  /** A remaining time of 0 to 5999 minutes is shown as two-digit hours, a
      colon and two-digit minutes (src/main.cpp:108-112). */
  lemma RemainingTimeShown(u: UIState, t: string, p: Payload)
    requires WellFormed(u)
    requires TopicEndsWith(t, "remaining_time/state") || TopicEndsWith(t, "time_remaining/state")
    requires 0 <= p.asInt < 6000
    ensures var m := p.asInt;
      CStr(Dispatch(u, t, p).timeLeft)
        == [DigitChar(m / 60 / 10), DigitChar(m / 60 % 10), ':', DigitChar(m % 60 / 10), DigitChar(m % 60 % 10)]
  {
    RemainingTimeRoute(t);
    ApplyReadsBack(u, TimeLeft, p);
    ClockTextHoursMinutes(p.asInt);
  }
}
