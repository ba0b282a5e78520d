/** The stage-label compactor of src/main.cpp: `snakeToTitleWords`,
    `compressTerms` and `makeCompactStage` turn a raw machine stage id such as
    "heating_bed" into the short label drawn in the centre of the dial. */
module Compactor {
  import opened Text

  // ---------------- snake_case to title words ----------------

  /** Underscores become spaces. */
  function Spaced(s: string): (r: string)
    ensures |r| == |s|
  {
    seq(|s|, i requires 0 <= i < |s| => if s[i] == '_' then ' ' else s[i])
  }

  /** A letter at index 0 or right after a space is upper-cased. */
  function Capitalised(u: string): (r: string)
    ensures |r| == |u|
  {
    seq(|u|, i requires 0 <= i < |u| =>
      if (i == 0 || u[i - 1] == ' ') && IsAlpha(u[i]) then ToUpper(u[i]) else u[i])
  }

  /** What `snakeToTitleWords` returns. */
  function TitleWords(s: string): (r: string)
    ensures |r| == |s|
  {
    Capitalised(Spaced(Lower(s)))
  }

  /** The result of `snakeToTitleWords` holds no underscore, has every letter
      upper-case exactly when it starts a word (index 0 or right after a
      space), and otherwise keeps the input's characters up to case. */
  lemma TitleWordsShape(s: string)
    ensures '_' !in TitleWords(s)
    ensures forall i :: 0 <= i < |s| && IsAlpha(TitleWords(s)[i]) ==>
              (IsUpper(TitleWords(s)[i]) <==> (i == 0 || TitleWords(s)[i - 1] == ' '))
    ensures forall i :: 0 <= i < |s| ==>
              ToLower(TitleWords(s)[i]) == (if s[i] == '_' then ' ' else ToLower(s[i]))
  {
    var l := Lower(s);
    var u := Spaced(l);
    var r := TitleWords(s);
    forall i | 0 <= i < |s|
      ensures r[i] != '_'
      ensures r[i] == ' ' <==> u[i] == ' '
      ensures IsAlpha(r[i]) ==> (IsUpper(r[i]) <==> (i == 0 || u[i - 1] == ' '))
      ensures ToLower(r[i]) == (if s[i] == '_' then ' ' else ToLower(s[i]))
    {
      assert l[i] == ToLower(s[i]);
      assert l[i] == '_' <==> s[i] == '_';
      assert u[i] == (if l[i] == '_' then ' ' else l[i]);
      assert !IsUpper(u[i]);
    }
  }

  /** `snakeToTitleWords` (src/main.cpp:176-185): lower-case, then one pass
      turning '_' into ' ', then one pass with the `cap` flag that is true at
      the start and after each space. */
  method SnakeToTitleWords(s: string) returns (r: string)
    ensures r == TitleWords(s)
  {
    ghost var lowered := Lower(s);
    ghost var u := Spaced(lowered);
    r := Lower(s);
    for i := 0 to |r|
      invariant |r| == |s|
      invariant forall j :: 0 <= j < i ==> r[j] == u[j]
      invariant forall j :: i <= j < |r| ==> r[j] == lowered[j]
    {
      if r[i] == '_' {
        r := r[i := ' '];
      }
    }
    assert r == u;
    var cap := true;
    for i := 0 to |r|
      invariant |r| == |s|
      invariant cap <==> (i == 0 || u[i - 1] == ' ')
      invariant forall j :: 0 <= j < i ==> r[j] == Capitalised(u)[j]
      invariant forall j :: i <= j < |r| ==> r[j] == u[j]
    {
      if cap && IsAlpha(r[i]) {
        r := r[i := ToUpper(r[i])];
      }
      cap := r[i] == ' ';
    }
  }

  // ---------------- term compression ----------------

  /** One row of the abbreviation table: every `phrase` becomes `short`. */
  datatype Rule = Rule(phrase: string, short: string)

  /** The rows of the abbreviation table before the two bed-levelling rows
      (src/main.cpp:190-196). */
  const HeadRules: seq<Rule> := [
    Rule("Temperature", "Temp"), Rule("Calibration", "Calib"), Rule("Calibrating", "Calib"),
    Rule("Absolute Accuracy", "Abs Acc"), Rule("Accuracy", "Acc"),
    Rule("Identifying", "ID"), Rule("Identification", "ID"),
    Rule("Checking", "Check"), Rule("Inspection", "Inspect"), Rule("Inspecting", "Inspect"),
    Rule("Extrusion", "Extr"), Rule("Extruder", "Extr"),
    Rule("Chamber", "Chbr"), Rule("Platform", "Plate"), Rule("Build Plate", "Plate"),
    Rule("Filament", "Fil"), Rule("Nozzle", "Noz")
  ]

  /** The two bed-levelling rows (src/main.cpp:197). */
  const BedLevel := Rule("Bed Level", "BedLvl")
  const BedLeveling := Rule("Bed Leveling", "BedLvl")

  /** The rows after them (src/main.cpp:198-202). */
  const TailRules: seq<Rule> := [
    Rule("Cooling", "Cool"), Rule("Heating", "Heat"), Rule("Heated Bed", "Bed"),
    Rule("Homing", "Home"), Rule("Laser", "Laser"),
    Rule("Skipped Step", "Skip Step"), Rule("First Layer", "1st Layer"),
    Rule("User Gcode", "User Gcode"), Rule("Quick Release", "Quick Rel"),
    Rule("Bird Eye", "Birdeye"), Rule("Birdeye", "Birdeye")
  ]

  /** The abbreviation table of `compressTerms` in the order the source lists it
      (src/main.cpp:189-203). "Bed Level" precedes "Bed Leveling", so the longer
      phrase can never be seen whole; see `SourceRulesMangleBedLeveling`. */
  const SourceRules: seq<Rule> := HeadRules + [BedLevel, BedLeveling] + TailRules

  /** The same table with "Bed Leveling" checked before its prefix "Bed Level",
      as the longest-phrase-first ordering of the table intends. */
  const Rules: seq<Rule> := HeadRules + [BedLeveling, BedLevel] + TailRules

  /** No rule makes the text longer (true of both tables). */
  predicate Shortening(rules: seq<Rule>) {
    forall i :: 0 <= i < |rules| ==> |rules[i].short| <= |rules[i].phrase|
  }

  /** Every rule of the table applied in order, each with `strReplaceAll`. */
  function ApplyRules(s: string, rules: seq<Rule>): (r: string)
    ensures Shortening(rules) ==> |r| <= |s|
  {
    if |rules| == 0 then s
    else
      var last := rules[|rules| - 1];
      ReplaceAll(ApplyRules(s, rules[..|rules| - 1]), last.phrase, last.short)
  }

  /** No two consecutive spaces. */
  predicate NoDoubleSpace(s: string) {
    forall i :: 0 <= i < |s| - 1 ==> !(s[i] == ' ' && s[i + 1] == ' ')
  }

  /** A double space at `i` is an occurrence of "  " at `i`. */
  lemma DoubleSpaceAt(s: string, i: nat)
    requires i + 1 < |s|
    ensures At(s, "  ", i) <==> s[i] == ' ' && s[i + 1] == ' '
  {
    assert s[i..i + 2][0] == s[i] && s[i..i + 2][1] == s[i + 1];
    if s[i] == ' ' && s[i + 1] == ' ' {
      assert s[i..i + 2] == "  ";
    }
  }

  /** `indexOf("  ")` finds nothing exactly when there is no double space. */
  lemma DoubleSpaceSearch(s: string)
    ensures IndexOf(s, "  ", 0) == -1 <==> NoDoubleSpace(s)
  {
    IndexOfIsFirst(s, "  ", 0);
    forall i | 0 <= i < |s| - 1
      ensures !(s[i] == ' ' && s[i + 1] == ' ') || IndexOf(s, "  ", 0) != -1
    {
      DoubleSpaceAt(s, i);
    }
    var r := IndexOf(s, "  ", 0);
    if r != -1 {
      DoubleSpaceAt(s, r);
    }
  }

  /** Every run of spaces shortened to a single space, every other
      character kept in order. */
  function Squeeze(s: string): string
    decreases |s|
  {
    if |s| == 0 then []
    else if |s| > 1 && s[0] == ' ' && s[1] == ' ' then Squeeze(s[1..])
    else [s[0]] + Squeeze(s[1..])
  }

  /** Squeezing keeps the first character. */
  lemma {:induction false} SqueezeHead(s: string)
    requires |s| > 0
    ensures |Squeeze(s)| > 0 && Squeeze(s)[0] == s[0]
    decreases |s|
  {
    if |s| > 1 && s[0] == ' ' && s[1] == ' ' {
      SqueezeHead(s[1..]);
    }
  }

  /** A space in front of `x` merges with a space that starts `x`. */
  lemma SqueezeSpace(x: string)
    ensures Squeeze(" " + x) == if |x| > 0 && x[0] == ' ' then Squeeze(x) else " " + Squeeze(x)
  {
    assert (" " + x)[1..] == x;
  }

  /** Replacing double spaces keeps whether the text starts with a space. */
  lemma PairsHead(t: string)
    requires |t| > 0
    ensures |ReplaceAll(t, "  ", " ")| > 0 && (ReplaceAll(t, "  ", " ")[0] == ' ' <==> t[0] == ' ')
  {
    if |t| > 1 {
      DoubleSpaceAt(t, 0);
    }
  }

  /** One pass of `strReplaceAll(s, "  ", " ")` does not change the squeezed text. */
  lemma {:induction false} SqueezePairs(s: string)
    ensures Squeeze(ReplaceAll(s, "  ", " ")) == Squeeze(s)
    decreases |s|
  {
    if |s| == 0 {
      return;
    }
    if |s| > 1 {
      DoubleSpaceAt(s, 0);
    }
    var rest := ReplaceAll(s[1..], "  ", " ");
    if At(s, "  ", 0) {
      var tail := s[2..];
      SqueezePairs(tail);
      assert s[1..] == " " + tail;
      SqueezeSpace(tail);
      SqueezeSpace(ReplaceAll(tail, "  ", " "));
      if |tail| > 0 {
        PairsHead(tail);
      }
    } else {
      SqueezePairs(s[1..]);
      assert ReplaceAll(s, "  ", " ") == [s[0]] + rest;
      if s[0] == ' ' {
        assert [s[0]] + rest == " " + rest;
        SqueezeSpace(rest);
        if |s| > 1 {
          PairsHead(s[1..]);
        }
      } else {
        assert ([s[0]] + rest)[1..] == rest;
      }
    }
  }

  /** A text with no double space is already squeezed. */
  lemma {:induction false} SqueezeNoDouble(s: string)
    requires NoDoubleSpace(s)
    ensures Squeeze(s) == s
    decreases |s|
  {
    if |s| > 0 {
      assert NoDoubleSpace(s[1..]) by {
        forall i | 0 <= i < |s[1..]| - 1
          ensures !(s[1..][i] == ' ' && s[1..][i + 1] == ' ')
        {
          assert s[1..][i] == s[i + 1] && s[1..][i + 1] == s[i + 2];
        }
      }
      SqueezeNoDouble(s[1..]);
    }
  }

  /** What the `while (s.indexOf("  ") >= 0)` loop of `compressTerms` leaves:
      every run of spaces collapsed to one, so no double space is left and the
      text is no longer than before. */
  function CollapseSpaces(s: string): (r: string)
    ensures r == Squeeze(s)
    ensures NoDoubleSpace(r) && |r| <= |s|
    decreases |s|
  {
    var i := IndexOf(s, "  ", 0);
    if i >= 0 then
      ReplaceAllShrinks(s, "  ", " ", i);
      SqueezePairs(s);
      CollapseSpaces(ReplaceAll(s, "  ", " "))
    else
      DoubleSpaceSearch(s);
      SqueezeNoDouble(s);
      s
  }

  /** What `compressTerms` returns for a given abbreviation table. */
  function Compressed(s: string, rules: seq<Rule>): (r: string)
    ensures NoDoubleSpace(r)
    ensures Shortening(rules) ==> |r| <= |s|
  {
    CollapseSpaces(ApplyRules(s, rules))
  }

  /** `compressTerms` (src/main.cpp:188-207): the table pass, then repeated
      collapsing of double spaces. Its result has no double space and, for a
      shortening table, is never longer than its input. */
  method CompressTerms(s: string, rules: seq<Rule>) returns (r: string)
    ensures r == Compressed(s, rules)
    ensures NoDoubleSpace(r)
    ensures Shortening(rules) ==> |r| <= |s|
  {
    r := s;
    for i := 0 to |rules|
      invariant r == ApplyRules(s, rules[..i])
    {
      assert rules[..i + 1][..i] == rules[..i];
      r := StrReplaceAll(r, rules[i].phrase, rules[i].short);
    }
    assert rules[..|rules|] == rules;
    while IndexOf(r, "  ", 0) >= 0
      invariant CollapseSpaces(r) == Compressed(s, rules)
      decreases |r|
    {
      ReplaceAllShrinks(r, "  ", " ", IndexOf(r, "  ", 0));
      r := StrReplaceAll(r, "  ", " ");
    }
  }

  /** Applying rules none of whose phrases occurs changes nothing. */
  lemma {:induction false} ApplyRulesAbsent(s: string, rules: seq<Rule>)
    requires forall i, k: nat :: 0 <= i < |rules| ==> !At(s, rules[i].phrase, k)
    ensures ApplyRules(s, rules) == s
  {
    if |rules| > 0 {
      ApplyRulesAbsent(s, rules[..|rules| - 1]);
      ReplaceAllIdentity(s, rules[|rules| - 1].phrase, rules[|rules| - 1].short);
    }
  }

  /** Applying two tables one after the other is applying their concatenation. */
  lemma {:induction false} ApplyRulesAppend(s: string, a: seq<Rule>, b: seq<Rule>)
    ensures ApplyRules(s, a + b) == ApplyRules(ApplyRules(s, a), b)
    decreases |b|
  {
    if |b| == 0 {
      assert a + b == a;
    } else {
      var n := |b| - 1;
      ApplyRulesAppend(s, a, b[..n]);
      assert (a + b)[..|a + b| - 1] == a + b[..n];
    }
  }

  /** `compressTerms` leaves alone a label that holds no phrase of the table
      and no double space: compressing is idempotent on such labels. */
  lemma CompressedIdentity(s: string, rules: seq<Rule>)
    requires forall i, k: nat :: 0 <= i < |rules| ==> !At(s, rules[i].phrase, k)
    requires NoDoubleSpace(s)
    ensures Compressed(s, rules) == s
  {
    ApplyRulesAbsent(s, rules);
    DoubleSpaceSearch(s);
  }

  // ---------------- prefix stripping and the whole label ----------------

  /** The status-phase prefixes `makeCompactStage` strips, in the order tried. */
  const Prefixes: seq<string> := [
    "paused_", "calibrating_", "calibrate_",
    "checking_", "check_", "heating_", "cooling_", "heatbed_", "heated_"
  ]

  /** The index of the first prefix `s` starts with, or |Prefixes| if none. */
  function FirstPrefix(s: string, from: nat): (i: nat)
    requires from <= |Prefixes|
    ensures from <= i <= |Prefixes|
    ensures i < |Prefixes| ==> At(s, Prefixes[i], 0)
    ensures forall j :: from <= j < i ==> !At(s, Prefixes[j], 0)
    decreases |Prefixes| - from
  {
    if from == |Prefixes| || At(s, Prefixes[from], 0) then from
    else FirstPrefix(s, from + 1)
  }

  /** `s` without the first prefix of the list that it starts with, if any:
      at most one prefix is removed. */
  function StripPrefix(s: string): (r: string)
    ensures r == s || exists i :: 0 <= i < |Prefixes| && At(s, Prefixes[i], 0) && s == Prefixes[i] + r
    ensures FirstPrefix(s, 0) == |Prefixes| ==> r == s
    ensures FirstPrefix(s, 0) < |Prefixes| ==> s == Prefixes[FirstPrefix(s, 0)] + r
  {
    var i := FirstPrefix(s, 0);
    if i < |Prefixes| then
      assert s == Prefixes[i] + s[|Prefixes[i]|..];
      s[|Prefixes[i]|..]
    else s
  }

  /** The label `makeCompactStage` returns, with the table in source order. */
  function CompactStage(raw: string): (r: string)
    ensures NoDoubleSpace(r) && |r| <= |raw|
  {
    RulesShorten();
    Compressed(TitleWords(StripPrefix(Lower(raw))), SourceRules)
  }

  /** The same label with "Bed Leveling" checked before "Bed Level". */
  function CompactStageCorrected(raw: string): (r: string)
    ensures NoDoubleSpace(r) && |r| <= |raw|
  {
    RulesShorten();
    Compressed(TitleWords(StripPrefix(Lower(raw))), Rules)
  }

  /** `makeCompactStage` (src/main.cpp:210-225): lower-case, strip the first
      matching prefix (the loop breaks on it), title-case, compress. */
  method MakeCompactStage(raw: string) returns (r: string)
    ensures r == CompactStage(raw)
    ensures NoDoubleSpace(r)
    ensures |r| <= |raw|
  {
    var s := Lower(raw);
    ghost var lowered := s;
    for i := 0 to |Prefixes|
      invariant s == lowered
      invariant forall j :: 0 <= j < i ==> !At(lowered, Prefixes[j], 0)
    {
      if At(s, Prefixes[i], 0) {
        assert FirstPrefix(lowered, 0) == i;
        s := s[|Prefixes[i]|..];
        break;
      }
    }
    assert s == StripPrefix(lowered);
    s := SnakeToTitleWords(s);
    RulesShorten();
    r := CompressTerms(s, SourceRules);
  }

  /** Both tables only ever shorten the text. */
  lemma RulesShorten()
    ensures Shortening(SourceRules) && Shortening(Rules)
  {
  }

  // ---------------- worked labels ----------------

  /** A character that differs from `p`'s at position `i` rules out `p` at `k`. */
  lemma NotAtByChar(s: string, p: string, k: nat, i: nat)
    requires i < |p| && k + i < |s| && s[k + i] != p[i]
    ensures !At(s, p, k)
  {
    if k + |p| <= |s| {
      assert s[k..k + |p|][i] == s[k + i];
    }
  }

  /** Every character of `s` is one of `alphabet`'s. */
  predicate Within(s: string, alphabet: string) {
    forall j :: 0 <= j < |s| ==> s[j] in alphabet
  }

  /** A phrase holding a character outside the alphabet of `s` occurs nowhere in `s`. */
  lemma AbsentOutside(s: string, alphabet: string, p: string, j: nat)
    requires Within(s, alphabet) && j < |p| && p[j] !in alphabet
    ensures forall k: nat :: !At(s, p, k)
  {
    AbsentByChar(s, p, p[j]);
  }

  // Each phrase of the head rows holds a character that no label spelled with
  // the letters of "Bed Leveling" has; likewise the tail rows and "BedLvling".
  // The rows are taken three at a time, each by its own case, which keeps
  // every proof small.
  lemma HeadRowsAbsent0(s: string)
    requires Within(s, "Bed Leveling")
    ensures forall i, k: nat :: 0 <= i < 3 ==> !At(s, HeadRules[i].phrase, k)
  {
    forall i | 0 <= i < 3
      ensures forall k: nat :: !At(s, HeadRules[i].phrase, k)
    {
      if i == 0 { AbsentOutside(s, "Bed Leveling", HeadRules[i].phrase, 0); }
      else if i == 1 { AbsentOutside(s, "Bed Leveling", HeadRules[i].phrase, 0); }
      else { AbsentOutside(s, "Bed Leveling", HeadRules[i].phrase, 0); }
    }
  }

  lemma HeadRowsAbsent3(s: string)
    requires Within(s, "Bed Leveling")
    ensures forall i, k: nat :: 3 <= i < 6 ==> !At(s, HeadRules[i].phrase, k)
  {
    forall i | 3 <= i < 6
      ensures forall k: nat :: !At(s, HeadRules[i].phrase, k)
    {
      if i == 3 { AbsentOutside(s, "Bed Leveling", HeadRules[i].phrase, 0); }
      else if i == 4 { AbsentOutside(s, "Bed Leveling", HeadRules[i].phrase, 0); }
      else { AbsentOutside(s, "Bed Leveling", HeadRules[i].phrase, 0); }
    }
  }

  lemma HeadRowsAbsent6(s: string)
    requires Within(s, "Bed Leveling")
    ensures forall i, k: nat :: 6 <= i < 9 ==> !At(s, HeadRules[i].phrase, k)
  {
    forall i | 6 <= i < 9
      ensures forall k: nat :: !At(s, HeadRules[i].phrase, k)
    {
      if i == 6 { AbsentOutside(s, "Bed Leveling", HeadRules[i].phrase, 0); }
      else if i == 7 { AbsentOutside(s, "Bed Leveling", HeadRules[i].phrase, 0); }
      else { AbsentOutside(s, "Bed Leveling", HeadRules[i].phrase, 0); }
    }
  }

  lemma HeadRowsAbsent9(s: string)
    requires Within(s, "Bed Leveling")
    ensures forall i, k: nat :: 9 <= i < 12 ==> !At(s, HeadRules[i].phrase, k)
  {
    forall i | 9 <= i < 12
      ensures forall k: nat :: !At(s, HeadRules[i].phrase, k)
    {
      if i == 9 { AbsentOutside(s, "Bed Leveling", HeadRules[i].phrase, 0); }
      else if i == 10 { AbsentOutside(s, "Bed Leveling", HeadRules[i].phrase, 0); }
      else { AbsentOutside(s, "Bed Leveling", HeadRules[i].phrase, 0); }
    }
  }

  lemma HeadRowsAbsent12(s: string)
    requires Within(s, "Bed Leveling")
    ensures forall i, k: nat :: 12 <= i < 15 ==> !At(s, HeadRules[i].phrase, k)
  {
    forall i | 12 <= i < 15
      ensures forall k: nat :: !At(s, HeadRules[i].phrase, k)
    {
      if i == 12 { AbsentOutside(s, "Bed Leveling", HeadRules[i].phrase, 0); }
      else if i == 13 { AbsentOutside(s, "Bed Leveling", HeadRules[i].phrase, 0); }
      else { AbsentOutside(s, "Bed Leveling", HeadRules[i].phrase, 1); }
    }
  }

  lemma HeadRowsAbsent15(s: string)
    requires Within(s, "Bed Leveling")
    ensures forall i, k: nat :: 15 <= i < 17 ==> !At(s, HeadRules[i].phrase, k)
  {
    forall i | 15 <= i < 17
      ensures forall k: nat :: !At(s, HeadRules[i].phrase, k)
    {
      if i == 15 { AbsentOutside(s, "Bed Leveling", HeadRules[i].phrase, 0); }
      else { AbsentOutside(s, "Bed Leveling", HeadRules[i].phrase, 0); }
    }
  }

  lemma TailRowsAbsent0(s: string)
    requires Within(s, "BedLvling")
    ensures forall i, k: nat :: 0 <= i < 3 ==> !At(s, TailRules[i].phrase, k)
  {
    forall i | 0 <= i < 3
      ensures forall k: nat :: !At(s, TailRules[i].phrase, k)
    {
      if i == 0 { AbsentOutside(s, "BedLvling", TailRules[i].phrase, 0); }
      else if i == 1 { AbsentOutside(s, "BedLvling", TailRules[i].phrase, 0); }
      else { AbsentOutside(s, "BedLvling", TailRules[i].phrase, 0); }
    }
  }

  lemma TailRowsAbsent3(s: string)
    requires Within(s, "BedLvling")
    ensures forall i, k: nat :: 3 <= i < 6 ==> !At(s, TailRules[i].phrase, k)
  {
    forall i | 3 <= i < 6
      ensures forall k: nat :: !At(s, TailRules[i].phrase, k)
    {
      if i == 3 { AbsentOutside(s, "BedLvling", TailRules[i].phrase, 0); }
      else if i == 4 { AbsentOutside(s, "BedLvling", TailRules[i].phrase, 1); }
      else { AbsentOutside(s, "BedLvling", TailRules[i].phrase, 0); }
    }
  }

  lemma TailRowsAbsent6(s: string)
    requires Within(s, "BedLvling")
    ensures forall i, k: nat :: 6 <= i < 9 ==> !At(s, TailRules[i].phrase, k)
  {
    forall i | 6 <= i < 9
      ensures forall k: nat :: !At(s, TailRules[i].phrase, k)
    {
      if i == 6 { AbsentOutside(s, "BedLvling", TailRules[i].phrase, 0); }
      else if i == 7 { AbsentOutside(s, "BedLvling", TailRules[i].phrase, 0); }
      else { AbsentOutside(s, "BedLvling", TailRules[i].phrase, 0); }
    }
  }

  lemma TailRowsAbsent9(s: string)
    requires Within(s, "BedLvling")
    ensures forall i, k: nat :: 9 <= i < 11 ==> !At(s, TailRules[i].phrase, k)
  {
    forall i | 9 <= i < 11
      ensures forall k: nat :: !At(s, TailRules[i].phrase, k)
    {
      if i == 9 { AbsentOutside(s, "BedLvling", TailRules[i].phrase, 2); }
      else { AbsentOutside(s, "BedLvling", TailRules[i].phrase, 2); }
    }
  }

  /** The head rows leave alone every label spelled with the letters of "Bed Leveling". */
  lemma HeadRulesKeep(s: string)
    requires Within(s, "Bed Leveling")
    ensures ApplyRules(s, HeadRules) == s
  {
    HeadRowsAbsent0(s);
    HeadRowsAbsent3(s);
    HeadRowsAbsent6(s);
    HeadRowsAbsent9(s);
    HeadRowsAbsent12(s);
    HeadRowsAbsent15(s);
    ApplyRulesAbsent(s, HeadRules);
  }

  /** The tail rows leave alone every label spelled with the letters of "BedLvling". */
  lemma TailRulesKeep(s: string)
    requires Within(s, "BedLvling")
    ensures ApplyRules(s, TailRules) == s
  {
    TailRowsAbsent0(s);
    TailRowsAbsent3(s);
    TailRowsAbsent6(s);
    TailRowsAbsent9(s);
    ApplyRulesAbsent(s, TailRules);
  }

  /** A two-row table is two replacements in order. */
  lemma ApplyTwo(s: string, a: Rule, b: Rule)
    ensures ApplyRules(s, [a, b]) == ReplaceAll(ReplaceAll(s, a.phrase, a.short), b.phrase, b.short)
  {
    assert [a, b][..1] == [a];
    assert [a][..0] == [];
    assert ApplyRules(s, [a]) == ReplaceAll(s, a.phrase, a.short);
  }

  /** A table made of the head rows, two middle rows and the tail rows. */
  lemma ApplyThreeParts(s: string, mid: seq<Rule>)
    ensures ApplyRules(s, HeadRules + mid + TailRules)
         == ApplyRules(ApplyRules(ApplyRules(s, HeadRules), mid), TailRules)
  {
    ApplyRulesAppend(s, HeadRules + mid, TailRules);
    ApplyRulesAppend(s, HeadRules, mid);
  }

  /** A label without spaces is left alone by the space collapser. */
  lemma CollapseNoSpace(s: string)
    requires ' ' !in s
    ensures CollapseSpaces(s) == s
  {
    DoubleSpaceSearch(s);
  }

  /** The spelled-out example of the compactor: "heating_bed" loses the
      "heating_" prefix (the sixth in the list, after five that do not match)
      and the rest is title-cased to "Bed", which no rule shortens. */
  lemma HeatingBedIsBed()
    ensures CompactStage("heating_bed") == "Bed"
    ensures CompactStageCorrected("heating_bed") == "Bed"
  {
    HeatingPrefixStripped();
    assert TitleWords("bed") == "Bed";
    BedKept();
  }

  /** "heating_bed" is already lower-case and only its sixth prefix matches. */
  lemma HeatingPrefixStripped()
    ensures StripPrefix(Lower("heating_bed")) == "bed"
  {
    var raw := "heating_bed";
    HeatingLower();
    HeatingFirstPrefix();
    assert raw[8..] == "bed";
  }

  lemma HeatingLower()
    ensures Lower("heating_bed") == "heating_bed"
  {
  }

  lemma HeatingFirstPrefix()
    ensures FirstPrefix("heating_bed", 0) == 5
  {
    var raw := "heating_bed";
    NotAtByChar(raw, Prefixes[0], 0, 0);
    NotAtByChar(raw, Prefixes[1], 0, 0);
    NotAtByChar(raw, Prefixes[2], 0, 0);
    NotAtByChar(raw, Prefixes[3], 0, 0);
    NotAtByChar(raw, Prefixes[4], 0, 0);
    assert raw[..8] == Prefixes[5];
  }

  /** "Bed" holds no phrase of the table, in either order. */
  lemma BedKept()
    ensures Compressed("Bed", SourceRules) == "Bed"
    ensures Compressed("Bed", Rules) == "Bed"
  {
    var s := "Bed";
    HeadRulesKeep(s);
    AbsentByChar(s, BedLeveling.phrase, ' ');
    ReplaceAllIdentity(s, BedLeveling.phrase, BedLeveling.short);
    AbsentByChar(s, BedLevel.phrase, ' ');
    ReplaceAllIdentity(s, BedLevel.phrase, BedLevel.short);
    TailRulesKeep(s);
    CollapseNoSpace(s);
    ApplyThreeParts(s, [BedLevel, BedLeveling]);
    ApplyTwo(s, BedLevel, BedLeveling);
    ApplyThreeParts(s, [BedLeveling, BedLevel]);
    ApplyTwo(s, BedLeveling, BedLevel);
  }

  /** With the table as the source orders it, the stage words "Bed Leveling"
      come out as "BedLvling": the row for "Bed Level" rewrites the front of
      the phrase, and the row for "Bed Leveling" never finds it. */
  lemma SourceRulesMangleBedLeveling()
    ensures Compressed("Bed Leveling", SourceRules) == "BedLvling"
  {
    var s, t := "Bed Leveling", "BedLvling";
    ApplyThreeParts(s, [BedLevel, BedLeveling]);
    WithinSelf(s);
    HeadRulesKeep(s);
    SourceMiddleRows();
    WithinSelf(t);
    TailRulesKeep(t);
    CollapseNoSpace(t);
  }

  /** The stage id "bed_leveling" as drawn: "BedLvling" with the table in
      source order, "BedLvl" with the corrected order. */
  lemma BedLevelingLabel()
    ensures CompactStage("bed_leveling") == "BedLvling"
    ensures CompactStageCorrected("bed_leveling") == "BedLvl"
  {
    BedLevelingWords();
    SourceRulesMangleBedLeveling();
    RulesShortenBedLeveling();
  }

  /** "bed_leveling" matches no prefix and title-cases to "Bed Leveling". */
  lemma BedLevelingWords()
    ensures TitleWords(StripPrefix(Lower("bed_leveling"))) == "Bed Leveling"
  {
    BedLevelingLower();
    BedLevelingNoPrefix();
    BedLevelingTitle();
  }

  lemma BedLevelingLower()
    ensures Lower("bed_leveling") == "bed_leveling"
  {
  }

  lemma BedLevelingNoPrefix()
    ensures FirstPrefix("bed_leveling", 0) == |Prefixes|
  {
    var raw := "bed_leveling";
    forall i | 0 <= i < |Prefixes|
      ensures !At(raw, Prefixes[i], 0)
    {
      NotAtByChar(raw, Prefixes[i], 0, 0);
    }
  }

  lemma BedLevelingTitle()
    ensures TitleWords("bed_leveling") == "Bed Leveling"
  {
    BedLevelingLower();
    BedLevelingSpaced();
    BedLevelingCaps();
  }

  lemma BedLevelingSpaced()
    ensures Spaced("bed_leveling") == "bed leveling"
  {
  }

  lemma BedLevelingCaps()
    ensures Capitalised("bed leveling") == "Bed Leveling"
  {
  }

  /** Every string is spelled with its own letters. */
  lemma WithinSelf(s: string)
    ensures Within(s, s)
  {
  }

  /** The two middle rows in the source's order, on "Bed Leveling". */
  lemma SourceMiddleRows()
    ensures ApplyRules("Bed Leveling", [BedLevel, BedLeveling]) == "BedLvling"
  {
    var s, t := "Bed Leveling", "BedLvling";
    BedLevelRowOnBedLeveling();
    AbsentByChar(t, BedLeveling.phrase, ' ');
    ReplaceAllIdentity(t, BedLeveling.phrase, BedLeveling.short);
    ApplyTwo(s, BedLevel, BedLeveling);
  }

  /** The "Bed Level" row turns "Bed Leveling" into "BedLvling". */
  lemma BedLevelRowOnBedLeveling()
    ensures ReplaceAll("Bed Leveling", BedLevel.phrase, BedLevel.short) == "BedLvling"
  {
    var s := "Bed Leveling";
    assert At(s, BedLevel.phrase, 0);
    ReplaceAtFirst(s, BedLevel.phrase, BedLevel.short, 0);
    AbsentByChar(s[9..], BedLevel.phrase, 'B');
    ReplaceAllIdentity(s[9..], BedLevel.phrase, BedLevel.short);
  }

  /** With "Bed Leveling" checked first, the phrase is abbreviated whole. */
  lemma RulesShortenBedLeveling()
    ensures Compressed("Bed Leveling", Rules) == "BedLvl"
  {
    var s, t := "Bed Leveling", "BedLvl";
    ApplyThreeParts(s, [BedLeveling, BedLevel]);
    WithinSelf(s);
    HeadRulesKeep(s);
    CorrectedMiddleRows();
    TailRulesKeep(t);
    CollapseNoSpace(t);
  }

  /** The two middle rows in the corrected order, on "Bed Leveling". */
  lemma CorrectedMiddleRows()
    ensures ApplyRules("Bed Leveling", [BedLeveling, BedLevel]) == "BedLvl"
  {
    var s, t := "Bed Leveling", "BedLvl";
    assert At(s, BedLeveling.phrase, 0);
    ReplaceAtFirst(s, BedLeveling.phrase, BedLeveling.short, 0);
    assert ReplaceAll(s, BedLeveling.phrase, BedLeveling.short) == t;
    AbsentByChar(t, BedLevel.phrase, ' ');
    ReplaceAllIdentity(t, BedLevel.phrase, BedLevel.short);
    ApplyTwo(s, BedLeveling, BedLevel);
  }
}
