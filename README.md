# Round printer-status display: a Dafny model

This project models the core of `src/main.cpp`, the firmware of a round
240×240 display that shows a Bambu 3D printer's status. The printer reports
its status over MQTT. The model covers the following:

- **The telemetry record** (`UIState`) and its fixed-capacity character
  buffers. Writes to a buffer truncate silently (`copyTo`), and the texts are
  read up to their NUL (`strcmp`, `print`).
- **The MQTT callback** `mqttCB`. It routes a topic by its suffix
  (`topicEndsWith`) to exactly one field, the first arm that matches. It also
  formats the remaining minutes as `"%02d:%02d"` into a 12-byte buffer.
- **The label compactor** behind the centre line: `strReplaceAll`,
  `snakeToTitleWords`, `compressTerms` and `makeCompactStage`.
- **The auto-fit renderer** `drawFitTextCentered`. It tries text size 2, then
  size 1, then cuts characters before a trailing `"..."`.
- **What each screen layer draws** from a snapshot, and the redraw decision
  of `loop`. Three dirty flags compare `ui` with `prev_ui`, then `prev_ui = ui`.
- **The reconnect pacing** of `ensureWiFi` and `ensureMQTT`.

The modules follow the program's parts:

| module | file | holds |
|---|---|---|
| `Text` | `text.dfy` | characters, substring search and `ReplaceAll`, the reference for `strReplaceAll` |
| `Buffers` | `buffers.dfy` | NUL-terminated buffers: `CStr` (the text a buffer holds) and `CopyTo` |
| `Format` | `format.dfy` | C's truncating `/` and `%`, decimal text, the `"%02d:%02d"` clock text |
| `Compactor` | `compactor.dfy` | the title-casing, abbreviation and prefix steps of the stage label |
| `Telemetry` | `telemetry.dfy` | `UIState`, the routing table of `mqttCB`, and the update of one field |
| `AutoFit` | `autofit.dfy` | `drawFitTextCentered` and its specification |
| `Firmware` | `firmware.dfy` | the two global snapshots (class `Display`), the callback and `loop`'s dirty check, and what each layer draws |
| `Retry` | `retry.dfy` | the WiFi and MQTT retry intervals and next-attempt times (class `Backoff`) |

How the code is modelled:

- **Routing.** The routing of a topic is specified once, as the 13-arm table
  `Telemetry.Branches`, with `Route` picking the first arm that matches. The
  callback `Firmware.Display.MqttCB` runs the source's `if … else if` chain.
  The chain is split as the source's own comments split it: `TopicField`
  holds the basic arms and `BadgeField` the badge arms. Both are proved to
  return `Route(t)`. The callback then updates exactly that one field, and
  that update is proved equal to `Telemetry.Dispatch`.
- **`topicEndsWith`** is a byte-by-byte comparison from the end.
  `TopicEndsWithBytes` proves it equal to the `memcmp` of the last
  `strlen(suffix)` bytes.
- **Value code becomes functions.** Functions such as `TitleWords`,
  `ReplaceAll`, `Compressed` and `Choose` are the specifications. The loops of
  the source are methods proved against them.
- **Display-library measurement is a parameter.** `getTextBounds` becomes
  `measure: (string, nat) -> Bounds`, so every property of the auto-fit
  renderer holds for any font.
- **Payload parsing is an input.** The callback's payload is parsed by
  Arduino `String` routines that are not part of this model. Their results
  are the fields of `Payload`: the text, `toInt()`, `toFloat()`, and
  `roundf(toFloat())` as an integer.
- **The code's behaviour at these edges:**
  - The remaining-time text is `"HH:MM"` only for 0 to 5999 minutes. The
    model also gives the longer and negative forms the code produces, for
    example `"-35791394:-"` for the most negative `int`.
  - Layer counts, temperatures and the other integers are whatever `toInt()`
    gives, negative values included.
  - Title-casing upper-cases a character only when it is a letter at the
    start of the text or right after a space. In `"_3d"` the `d` stays
    lower-case.
- **`loop` and drawing keep the code as written.** `Display.Loop`,
  `DrawFitTextCentered` and `CenterDirty` compute exactly what the code
  computes, findings included. The corrected versions sit beside them with
  the intended properties proved (see "## Findings").
- **Specification functions.** The redraw flags `RingDirty`, `CenterDirty`,
  `BadgeDirty` and `CenterRedrawNeeded` (src/main.cpp:386-398), the layer
  texts `CentreShown` (src/main.cpp:300-312) and `BadgesShown`
  (src/main.cpp:315-354), and the auto-fit choice `Choose` and its placement
  `Fit` (src/main.cpp:233-251) are plain definitions. What they promise is
  stated by the lemmas about them in the table below. So are the tables
  `SourceRules` and `Rules` (src/main.cpp:188-203), `Prefixes`
  (src/main.cpp:212-215) and the routing table `Branches`
  (src/main.cpp:103-122).
- **The stage label follows the source's table.** The label the centre
  layer draws (`CompactStage`, computed by the method `MakeCompactStage`)
  applies the abbreviation table in source order (`SourceRules`), so
  "bed_leveling" reads "BedLvling". `CompactStageCorrected` applies the
  table with "Bed Leveling" ahead of "Bed Level" (`Rules`) and reads
  "BedLvl" (see "## Findings").

## Model

| member | source | states |
|---|---|---|
| Text.Lower | src/main.cpp:177 | `toLowerCase`: each character becomes its `tolower` (upper-case letters lowered, everything else kept), same length, no upper-case letter left |
| Text.IndexOf | src/main.cpp:168 | `indexOf(from, idx)` returns -1 or a position at or after `idx` where the pattern occurs |
| Text.IndexOfIsFirst | src/main.cpp:168 | the position found is the first occurrence at or after the start; -1 means there is none |
| Text.ReplaceAll | src/main.cpp:165-173 | replacing a phrase by one no longer never lengthens the text |
| Text.CopyUntil | src/main.cpp:168-169 | text before the first occurrence passes through unchanged |
| Text.ReplaceAtFirst | src/main.cpp:169-170 | at the first occurrence the phrase is replaced, and scanning resumes after the inserted text |
| Text.ReplaceAllIdentity | src/main.cpp:166-172 | an empty `from`, an absent `from`, or `from == to` (the "Birdeye" rule) leaves the text unchanged |
| Text.ReplaceAllShrinks | src/main.cpp:169 | one occurrence of a longer phrase replaced by a shorter one makes the text strictly shorter |
| Text.StrReplaceAll | src/main.cpp:165-173 | the loop terminates for every input, including `to` containing `from`, and returns `ReplaceAll(s, from, to)` |
| Compactor.Spaced | src/main.cpp:178 | the underscore-to-space pass keeps the length |
| Compactor.Capitalised | src/main.cpp:179-183 | the capitalising pass keeps the length |
| Compactor.TitleWords | src/main.cpp:176-185 | `snakeToTitleWords` keeps the length |
| Compactor.TitleWordsShape | src/main.cpp:176-185 | no `_` is left; a letter is upper-case exactly at position 0 or after a space; lower-cased, each character is the lower-cased input with `_` as space |
| Compactor.SnakeToTitleWords | src/main.cpp:176-185 | the three loops compute `TitleWords(s)` |
| Compactor.ApplyRules | src/main.cpp:204 | rules that never lengthen give a result no longer than the input |
| Compactor.DoubleSpaceSearch | src/main.cpp:205 | `indexOf("  ") == -1` exactly when no two spaces are adjacent |
| Compactor.CollapseSpaces | src/main.cpp:205 | the `while` over double spaces gives `Squeeze(s)`: every run of spaces becomes one space and the other characters stay in order; no double space is left and the text does not lengthen |
| Compactor.SqueezePairs | src/main.cpp:205 | one pass of `strReplaceAll("  ", " ")` leaves the squeezed text unchanged, so repeating it until no double space is found reaches `Squeeze` |
| Compactor.SqueezeNoDouble | src/main.cpp:205 | a text without a double space is its own squeeze, so the loop stops exactly at the squeezed text |
| Compactor.Compressed | src/main.cpp:188-207 | the table pass then the collapse: no double space, and never longer than the input for a shortening table |
| Compactor.CompressTerms | src/main.cpp:188-207 | returns `Compressed(s, rules)`, with no double space, and no longer than `s` for a shortening table |
| Compactor.ApplyRulesAbsent | src/main.cpp:204 | a text containing none of the phrases is left unchanged by the rules |
| Compactor.ApplyRulesAppend | src/main.cpp:204 | the rules apply one after another, so a table splits into consecutive parts |
| Compactor.CompressedIdentity | src/main.cpp:188-207 | compressing an already-compact text (no phrase, no double space) returns it unchanged |
| Compactor.RulesShorten | src/main.cpp:189-203 | no row of the table (in source or corrected order) is longer than its phrase |
| Compactor.FirstPrefix | src/main.cpp:217-220 | the prefix found matches at position 0, and no earlier prefix in the list does |
| Compactor.StripPrefix | src/main.cpp:213-220 | the first prefix in list order that matches at position 0 is removed (the loop breaks on it), and the text is unchanged when none matches |
| Compactor.MakeCompactStage | src/main.cpp:210-225 | returns `CompactStage(raw)`, computed with the table in source order, with no double space and no longer than `raw` |
| Compactor.CompactStage | src/main.cpp:210-225 | the label as written (table in source order) has no double space and is never longer than the raw stage |
| Compactor.CompactStageCorrected | src/main.cpp:197 | the label with "Bed Leveling" tried before "Bed Level": no double space, never longer than the raw stage |
| Compactor.HeatingBedIsBed | src/main.cpp:210-225 | `"heating_bed"` compacts to `"Bed"`, with the table in source order and in corrected order |
| Compactor.BedKept | src/main.cpp:198 | `"Bed"` passes both orders of the table unchanged |
| Compactor.SourceRulesMangleBedLeveling | src/main.cpp:197 | with the table in source order, `"Bed Leveling"` becomes `"BedLvling"` |
| Compactor.RulesShortenBedLeveling | src/main.cpp:197 | with "Bed Leveling" first, `"Bed Leveling"` becomes `"BedLvl"` |
| Compactor.BedLevelingLabel | src/main.cpp:197 | the stage `bed_leveling` is shown as `"BedLvling"` as written, and as `"BedLvl"` with the corrected order |
| Buffers.CStr | src/main.cpp:387-398 | the text of a buffer is its prefix before the first NUL, holds no NUL, and is followed by a NUL if shorter than the buffer |
| Buffers.CStrStopsAtNul | src/main.cpp:84 | whatever follows a NUL is not part of the text |
| Buffers.CopyLen | src/main.cpp:81-82 | the bytes copied are the whole string or `cap - 1`, whichever is fewer |
| Buffers.CopyInto | src/main.cpp:79-85 | `copyTo`: a zero-capacity buffer is unchanged; otherwise the copied bytes, then a NUL, then the old bytes |
| Buffers.CopyIntoView | src/main.cpp:79-85 | after `copyTo` the buffer reads as the string truncated to `cap - 1`, and as the string itself when it fits |
| Buffers.CopyTo | src/main.cpp:79-85 | the `memcpy` plus terminator on an array produce `CopyInto` of the old contents |
| Format.TruncDiv | src/main.cpp:110 | C's `/`: rounds toward zero for either sign of the dividend |
| Format.TruncMod | src/main.cpp:110 | C's `%`: `a == b*(a/b) + a%b`, with the remainder taking the dividend's sign |
| Format.Digits | src/main.cpp:110 | the decimal digits of a number, without leading zeros |
| Format.DigitsValue | src/main.cpp:110 | the digits read back as the number |
| Format.DecText | src/main.cpp:310 | `%d` / `String(int)`: the digits, with a `-` for negative numbers |
| Format.Pad2 | src/main.cpp:110 | `%02d`: zero-padded to two digits for 0..9, otherwise plain `%d` |
| Format.ClockText | src/main.cpp:109-111 | the remaining-time text has at most 11 characters and no NUL |
| Format.ClockTextHoursMinutes | src/main.cpp:108-112 | for 0 ≤ m < 6000 the text is HH:MM, two digits each |
| Format.ClockTextLongHours | src/main.cpp:109-111 | from 100 hours on, the hours take as many digits as they need |
| Format.DigitsBelow | src/main.cpp:110 | a number below 10^k has at most k digits, which bounds what fits in the 12-byte buffer |
| Format.ClockTextMostNegative | src/main.cpp:109-111 | `INT_MIN` minutes give `"-35791394:-"`, cut off by the 12-byte buffer |
| Telemetry.Zeros | src/main.cpp:368 | a zeroed buffer of the given capacity |
| Telemetry.Zero | src/main.cpp:368-369 | `memset` to zero: every number 0, every text empty, every buffer at its capacity and NUL-terminated |
| Telemetry.NormProgress | src/main.cpp:86-91 | the result lies in [0,1]; a fraction is kept, and a percentage above 1.001 is divided by 100 |
| Telemetry.TopicEndsWith | src/main.cpp:92-96 | a suffix longer than the topic never matches |
| Telemetry.TopicEndsWithBytes | src/main.cpp:92-96 | true exactly when the suffix fits and equals the topic's last bytes (the `memcmp`) |
| Telemetry.TopicEndsWithMeans | src/main.cpp:92-96 | true exactly when the topic is some text followed by the suffix |
| Telemetry.NotBoth | src/main.cpp:103-122 | a topic cannot end with two suffixes that differ at the same distance from the end |
| Telemetry.FirstArm | src/main.cpp:103-122 | the arm chosen matches the topic, and no earlier arm does |
| Telemetry.Route | src/main.cpp:103-122 | no field exactly when no arm matches; otherwise the field of the first matching arm |
| Telemetry.Apply | src/main.cpp:103-122 | an arm's update keeps the buffers well formed and terminated and changes no other field |
| Telemetry.Dispatch | src/main.cpp:98-123 | an unmatched topic leaves the record unchanged; a matched one changes at most the routed field |
| Telemetry.ApplyReadsBack | src/main.cpp:103-122 | after each arm, its field reads back as the parsed payload (normalised, rounded, or the truncated text) |
| Telemetry.RemainingTimeRoute | src/main.cpp:108 | both remaining-time suffixes route to `time_left`, since no earlier arm can match |
| Telemetry.ArmsUpToTime | src/main.cpp:103-108 | when none of the first five arms match, the time arm is the first to match |
| Telemetry.RemainingTimeShown | src/main.cpp:108-112 | on either remaining-time suffix (`remaining_time/state` or `time_remaining/state`), a remaining time of 0..5999 minutes is stored as HH:MM |
| AutoFit.Shortened | src/main.cpp:240-245 | the first `j` characters followed by `"..."` |
| AutoFit.FitSize | src/main.cpp:233-238 | size is 2 when the text fits at size 2, otherwise 1 |
| AutoFit.LongestFit | src/main.cpp:239-247 | the longest shortening that fits at size 1; every longer one is too wide |
| AutoFit.Place | src/main.cpp:249-251 | the printed text and size are those chosen |
| AutoFit.DrawFitTextCentered | src/main.cpp:228-253 | the size loop and the truncation loop print and place exactly `Fit`, the as-written specification |
| AutoFit.TruncateToFit | src/main.cpp:239-247 | the `do … while` loop ends with the text and box `Choose` picks for a text too wide at both sizes |
| AutoFit.TruncationChoice | src/main.cpp:239-247 | stopping at the first shortening that fits, or at "..." when one character no longer fits, is the longest-fit choice |
| AutoFit.FitSizeRule | src/main.cpp:233-238 | the size is 1 or 2, and 1 exactly when the text is too wide at size 2 |
| AutoFit.FitTextShape | src/main.cpp:239-247 | the text is the input, `"..."`, or a proper prefix plus `"..."`; it is changed only when too wide at both sizes, and then at size 1 |
| AutoFit.FitFits | src/main.cpp:233-252 | unless the bare `"..."` is printed, the printed text fits in `maxWidth` and is centred on its own box |
| AutoFit.FitKeepsLongest | src/main.cpp:239-247 | every longer prefix would not fit, and `"..."` appears only when one character before it does not fit |
| AutoFit.StaleEllipsisBounds | src/main.cpp:239-251 | as written, the bare `"..."` is centred with the box of another string |
| AutoFit.ChooseCentred | src/main.cpp:249-251 | the same choice of text and size, with the box of the text actually printed |
| AutoFit.FitCentred | src/main.cpp:249-252 | the same text and size as `Fit`, centred on the box of the printed text, and equal to `Fit` whenever that is not `"..."` |
| Firmware.Abs | src/main.cpp:386 | `fabs`: the magnitude, non-negative |
| Firmware.Clamp01 | src/main.cpp:295 | `constrain(x, 0, 1)` lies in [0,1] and keeps values already there |
| Firmware.Sweep | src/main.cpp:295 | the arc sweeps 0 to 360 degrees |
| Firmware.Round | src/main.cpp:302 | `round`: the nearest integer, halves away from zero |
| Firmware.Pct | src/main.cpp:302-303 | the percentage is 0..100 and is the rounded `progress*100` for progress in [0,1] |
| Firmware.QuietWhenUnchanged | src/main.cpp:386-398 | identical snapshots raise no flag |
| Firmware.LayerTotAloneIsQuiet | src/main.cpp:386-398 | a change of `layer_tot` alone raises none of the three flags |
| Firmware.FlagsIgnoreStaleBytes | src/main.cpp:386-398 | the flags and the drawn texts depend only on the buffers' texts, not on bytes after the NUL |
| Firmware.BadgeFlagSound | src/main.cpp:391-398 | a quiet `badgeDirty` means all five footer texts are unchanged |
| Firmware.Clamp01Close | src/main.cpp:295 | clamping never moves two values further apart |
| Firmware.RingFlagBound | src/main.cpp:386 | a quiet `ringDirty` keeps the current arc within 1.8 degrees of the previous snapshot's arc (which need not be the arc last drawn) |
| Firmware.QuietStepsKeepDrawn | src/main.cpp:386-404 | as written, passes whose progress moves by at most 0.005 each never redraw the ring, however far the progress travels in all |
| Firmware.RingLagGrows | src/main.cpp:386-404 | as written, progress rising 0.004 per message leaves the ring at the arc `setup` drew, lagging by 1.44·n degrees after n passes, the whole circle at n = 250 |
| Firmware.RingTracksCorrected | src/main.cpp:386-399 | with the ring flag compared against the progress last drawn, after any passes the arc shown is within 1.8 degrees of the latest progress's arc |
| Firmware.SweepMonotone | src/main.cpp:295 | more progress never draws a shorter arc |
| Firmware.RingScenario | src/main.cpp:386 | progress 0 to 0.503 marks the ring dirty and sweeps 181.08 degrees |
| Firmware.TempBadgeScenario | src/main.cpp:330-334 | nozzle 215 and bed 60 read `"Temp 215/60"` |
| Firmware.StageLineScenario | src/main.cpp:306-307 | stage `heating_bed` with state `Normal` reads `"Bed · Normal"` |
| Firmware.CenterFlagMissesTotalAndPercent | src/main.cpp:387-389 | as written, a new total layer count or a new progress leaves `centerDirty` false although the centre text changes |
| Firmware.CenterRedrawSound | src/main.cpp:300-312 | with `layer_tot` and the percentage added, a quiet flag means the centre texts are unchanged |
| Firmware.TakeArm | src/main.cpp:103-122 | the first arm whose suffix the topic ends with decides the route |
| Firmware.BasicArms | src/main.cpp:103-113 | the first seven arms of the table are the source's suffixes and fields |
| Firmware.BadgeArms | src/main.cpp:117-122 | the six badge arms are the source's suffixes and fields |
| Firmware.TopicField | src/main.cpp:103-115 | the basic `if … else if` chain, continued by the badge chain, returns `Route(t)` |
| Firmware.BadgeField | src/main.cpp:116-122 | when no basic arm matched, the badge chain returns `Route(t)` |
| Firmware.Display.Setup | src/main.cpp:368-375 | both snapshots start zeroed and equal, and the ring is drawn for progress 0 |
| Firmware.Display.MqttCB | src/main.cpp:98-123 | one message changes `ui` as `Dispatch` does, keeps it well formed and terminated, and leaves `prev_ui` alone |
| Firmware.Display.Loop | src/main.cpp:386-404 | the three flags are `RingDirty`, `CenterDirty` (as written) and `BadgeDirty` of the snapshots; the ring is redrawn for `ui` exactly when its flag is raised (one step of `DrawnAfter`); `ui` is unchanged and `prev_ui` becomes `ui` |
| Retry.WifiSchedule | src/main.cpp:129-130 | after k attempts the WiFi interval is min(1000·k, 5000) |
| Retry.MqttSchedule | src/main.cpp:142-143 | after k failed connects the MQTT interval is min(1000·2^(k-1), 30000) |
| Retry.MqttNoWrap | src/main.cpp:143 | from any interval up to 30000 the 16-bit doubling never wraps, and the interval stays within 1000..30000 |
| Retry.MqttWrapOutsideReach | src/main.cpp:143 | the 16-bit store would wrap 40000 to 14464, a value the firmware never holds |
| Retry.NextWifiRetry | src/main.cpp:129-130 | the WiFi interval is at least 1000, never shrinks, grows by at most 1000, and grows exactly while below 5000 |
| Retry.NextMqttRetry | src/main.cpp:142-143 | the MQTT interval is 1000 on the first attempt, never above 30000, and never shrinks from a reachable value |
| Retry.Deadline | src/main.cpp:131-144 | `now + interval` in `unsigned long`: the sum, or the sum less 2^32 when it passes the top of the clock |
| Retry.Backoff.constructor | src/main.cpp:74-77 | all four pacing globals start at zero |
| Retry.Backoff.EnsureWiFi | src/main.cpp:125-134 | attempts exactly when disconnected and due; then the interval grows and the next-attempt time moves, reachable intervals stay reachable, and MQTT state is untouched |
| Retry.Backoff.EnsureMqtt | src/main.cpp:136-160 | attempts exactly when disconnected, WiFi is up and due; the deadline uses the grown interval, which resets to 1000 on success; WiFi state is untouched |

## Left out

- The network: `WiFi.begin`, `mqtt.connect`, `subscribe`, `setServer` (and its `inited` latch) and `mqtt.loop` are not modelled. Link status and connect outcome are parameters of `Backoff`. Each delivered message is one call of `MqttCB`.
- Payload parsing (`String::toInt`, `String::toFloat`, `roundf`) is not part of this model. Its results are the fields of `Payload`.
- Telemetry.NormProgress: computes with exact reals in place of `float`, so single-precision rounding of `1.001f`, `100.0f` and the division is not modelled.
- Firmware.RingFlagBound: bounds the distance to the previous snapshot's arc only. Since `prev_ui = ui` runs on every pass (src/main.cpp:404), the arc last drawn can lag the current one without bound (see "## Findings", `RingLagGrows`). The 0.005 threshold and the arc are exact reals, not `float`, so float rounding of `fabs` and `* 360.0f` is not modelled.
- Pixels: `fillThickArc` (src/main.cpp:271-290), `fillRoundRect`, `fillCircle`, `fillRect`, colours and the hardware setup (src/main.cpp:357-366) are left out. Only the texts each layer draws, and where `drawFitTextCentered` places its cursor, are modelled.
- `drawCenteredText` (src/main.cpp:256-263) is left out. It is the fixed-size centring that `Place` models for `drawFitTextCentered`.
- AutoFit.DrawFitTextCentered: `getTextBounds` is a parameter returning non-negative width and height. Its `bx`/`by` outputs are ignored, and the `uint16_t` range of `bw`/`bh` is not modelled.
- Characters: `String` bytes are Dafny characters. The UTF-8 `·` is its two bytes as two characters (`Dot`). `isalpha`/`toupper`/`tolower` are the ASCII ones.
- The `"%d/%d"` layer text is `DecText` of both numbers. That it always fits the 24-byte buffer of src/main.cpp:310 (at most 23 characters) is not proved.
- Retry.Backoff.EnsureWiFi: `millis()` is a parameter, and the `unsigned long` deadline wraps modulo 2^32 (`Deadline`). The comparison `now < next_try` across a clock wrap is taken as written, with no further property proved.
- Firmware.Display.MqttCB: the field updates are whole-record updates of the `UIState` value inside `Display`. Aliasing of `ui` by other code is not modelled.

## Findings

| source | as written | input that shows it | evidently intended | confidence | as-written member | corrected member |
|---|---|---|---|---|---|---|
| src/main.cpp:197 | "Bed Level" is tried before "Bed Leveling", so the longer phrase is never seen whole | stage `bed_leveling` is shown as `BedLvling` | the longer phrase first, giving `BedLvl` | high; not executed | Compactor.SourceRulesMangleBedLeveling | Compactor.RulesShortenBedLeveling |
| src/main.cpp:242,251 | when only `"..."` remains, the cursor is centred with the box last measured for a different string | monospace 6 px per character, text `abcd`, `maxWidth` 20, centre 120: x is 108, while `"..."` is 18 px wide and calls for 111 | centre `"..."` on its own box | medium (reachable only for `maxWidth` below the width of one character plus `"..."`; the firmware's callers pass 180 and 200); not executed | AutoFit.StaleEllipsisBounds | AutoFit.FitCentred |
| src/main.cpp:387-389 | `centerDirty` omits `layer_tot` and the percentage, both drawn by the centre layer (src/main.cpp:302-311) | `layer_tot` 0 to 120 with nothing else changed; or progress 0 to 0.5, which redraws only the ring | also compare `layer_tot` and the rounded percentage | high for `layer_tot`; medium for the percentage, since a percentage change usually comes with a ring redraw but not a centre redraw; not executed | Firmware.CenterFlagMissesTotalAndPercent | Firmware.CenterRedrawSound |
| src/main.cpp:386,404 | `ringDirty` compares with `prev_ui`, which is overwritten on every pass whether or not the ring was redrawn, so small steps add up unseen | progress 0.004, then 0.008, ..., one message per pass: no pass redraws the ring, and after 250 passes the progress is 1 while the ring still shows 0 | compare with the progress the ring was last drawn for | medium (reporters that send progress in whole percent step by 0.01 and always redraw); not executed | Firmware.RingLagGrows | Firmware.RingTracksCorrected |
