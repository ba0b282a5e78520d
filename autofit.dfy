/** `drawFitTextCentered` (src/main.cpp:228-253): draw a line centred at
    (cx, cy) within `maxWidth` pixels, first at text size 2, then at size 1,
    then at size 1 with characters removed before a trailing "...". The
    display library's `getTextBounds` is the parameter `measure`, giving the
    bounding box of a string at a text size. */
module AutoFit {

  /** Width and height of a string's bounding box, in pixels. */
  datatype Bounds = Bounds(w: nat, h: nat)

  /** What is printed and where the cursor is set. */
  datatype Placed = Placed(text: string, size: nat, x: int, y: int)

  /** The text chosen, its size, and the box the cursor is computed from. */
  datatype Choice = Choice(text: string, size: nat, bounds: Bounds)

  const Ellipsis := "..."

  /** The first `j` characters of `s` followed by "...". */
  function Shortened(s: string, j: nat): (r: string)
    requires j <= |s|
    ensures |r| == j + 3 && r[..j] == s[..j] && r[j..] == Ellipsis
  {
    s[..j] + Ellipsis
  }

  /** The text size the first loop settles on: 2 if the text fits at size 2,
      otherwise 1. */
  function FitSize(s: string, maxWidth: int, measure: (string, nat) -> Bounds): (size: nat)
    ensures size == 1 || size == 2
    ensures size == 2 <==> measure(s, 2).w <= maxWidth
  {
    if measure(s, 2).w <= maxWidth then 2 else 1
  }

  /** The longest `j` in 1..k with `Shortened(s, j)` fitting at size 1, or 0
      if there is none: the truncation loop tries k, k-1, ... and stops at
      the first that fits. */
  function LongestFit(s: string, maxWidth: int, measure: (string, nat) -> Bounds, k: nat): (j: nat)
    requires k <= |s|
    ensures j <= k
    ensures j > 0 ==> measure(Shortened(s, j), 1).w <= maxWidth
    ensures forall i :: j < i <= k ==> measure(Shortened(s, i), 1).w > maxWidth
  {
    if k == 0 then 0
    else if measure(Shortened(s, k), 1).w <= maxWidth then k
    else LongestFit(s, maxWidth, measure, k - 1)
  }

  /** The source's choice of text, size and cursor box. When even one
      character before "..." does not fit, "..." is printed with the box last
      measured: that of the one-character form if the input has at least two
      characters, otherwise that of the input itself. "..." is never measured. */
  function Choose(s: string, maxWidth: int, measure: (string, nat) -> Bounds): Choice {
    var size := FitSize(s, maxWidth, measure);
    var b := measure(s, size);
    if b.w <= maxWidth then Choice(s, size, b)
    else
      var j := LongestFit(s, maxWidth, measure, if |s| == 0 then 0 else |s| - 1);
      if j > 0 then Choice(Shortened(s, j), 1, measure(Shortened(s, j), 1))
      else if |s| >= 2 then Choice(Ellipsis, 1, measure(Shortened(s, 1), 1))
      else Choice(Ellipsis, 1, b)
  }

  /** `setCursor(cx - bw/2, cy + bh/2)`. */
  function Place(c: Choice, cx: int, cy: int): (p: Placed)
    ensures p.text == c.text && p.size == c.size
  {
    Placed(c.text, c.size, cx - c.bounds.w / 2, cy + c.bounds.h / 2)
  }

  /** What `drawFitTextCentered` prints, and where. */
  function Fit(s: string, cx: int, cy: int, maxWidth: int, measure: (string, nat) -> Bounds): Placed {
    Place(Choose(s, maxWidth, measure), cx, cy)
  }

  /** `drawFitTextCentered` with its two loops: the `for (;;)` that lowers
      the size, and the `do ... while (bw > maxWidth)` that removes the
      character before "..." and measures again. */
  method DrawFitTextCentered(sIn: string, cx: int, cy: int, maxWidth: int, measure: (string, nat) -> Bounds)
    returns (p: Placed)
    ensures p == Fit(sIn, cx, cy, maxWidth, measure)
  {
    var s := sIn;
    var size: nat := 2;
    var b := Bounds(0, 0);
    while true
      invariant size == 2 || (size == 1 && measure(sIn, 2).w > maxWidth)
      decreases size
    {
      b := measure(s, size);
      if b.w <= maxWidth || size <= 1 {
        break;
      }
      size := size - 1;
    }
    assert size == FitSize(sIn, maxWidth, measure) && b == measure(sIn, size);
    if b.w > maxWidth {
      s, b := TruncateToFit(sIn, maxWidth, measure);
    }
    assert Choose(sIn, maxWidth, measure) == Choice(s, size, b);
    p := Placed(s, size, cx - b.w / 2, cy + b.h / 2);
  }

  /** The `do ... while (bw > maxWidth)` loop of `drawFitTextCentered`, run
      when the text is too wide at both sizes: it removes the character
      before "..." and measures again until the text fits or only "..."
      would be left. */
  method TruncateToFit(sIn: string, maxWidth: int, measure: (string, nat) -> Bounds)
    returns (s: string, b: Bounds)
    requires measure(sIn, 2).w > maxWidth && measure(sIn, 1).w > maxWidth
    ensures Choose(sIn, maxWidth, measure) == Choice(s, 1, b)
  {
    s, b := sIn, measure(sIn, 1);
    var t := s + Ellipsis;
    var k: nat := |sIn|;
    while true
      invariant k <= |sIn| && t == Shortened(sIn, k)
      invariant |sIn| >= 1 ==> k >= 1
      invariant k == |sIn| ==> s == sIn && b == measure(sIn, 1)
      invariant k < |sIn| ==> s == t && b == measure(t, 1)
      invariant b.w > maxWidth
      invariant forall i :: k <= i < |sIn| ==> measure(Shortened(sIn, i), 1).w > maxWidth
      decreases k
    {
      if |t| <= 4 {
        s := Ellipsis;
        break;
      }
      ShortenedStep(sIn, k);
      t := t[..|t| - 4] + t[|t| - 3..];
      k := k - 1;
      b := measure(t, 1);
      s := t;
      if !(b.w > maxWidth) {
        break;
      }
    }
    TruncationChoice(sIn, maxWidth, measure, s, k, b);
  }

  /** Removing the character before "..." shortens by one. */
  lemma ShortenedStep(s: string, k: nat)
    requires 1 <= k <= |s|
    ensures var t := Shortened(s, k); t[..|t| - 4] + t[|t| - 3..] == Shortened(s, k - 1)
  {
    var t := Shortened(s, k);
    assert t[..|t| - 4] == s[..k - 1];
  }

  /** Where the truncation loop stops is the source's choice: the longest
      shortening that fits, or "..." with the box last measured. */
  lemma TruncationChoice(sIn: string, maxWidth: int, measure: (string, nat) -> Bounds, s: string, k: nat, b: Bounds)
    requires measure(sIn, 2).w > maxWidth && measure(sIn, 1).w > maxWidth
    requires k <= |sIn| && (|sIn| >= 1 ==> k >= 1)
    requires forall i :: k < i < |sIn| ==> measure(Shortened(sIn, i), 1).w > maxWidth
    requires s != Ellipsis ==> k < |sIn| && s == Shortened(sIn, k) && b == measure(s, 1) && b.w <= maxWidth
    requires s == Ellipsis ==> k <= 1 && b.w > maxWidth
                               && (k == |sIn| ==> b == measure(sIn, 1))
                               && (k < |sIn| ==> b == measure(Shortened(sIn, k), 1))
    ensures Choose(sIn, maxWidth, measure) == Choice(s, 1, b)
  {
    var j := LongestFit(sIn, maxWidth, measure, if |sIn| == 0 then 0 else |sIn| - 1);
    if s != Ellipsis {
      assert j == k;
    } else if |sIn| >= 2 {
      assert j == 0 && k == 1;
    } else {
      assert j == 0 && k == |sIn|;
    }
  }

  // ---------------- what the choice guarantees ----------------

  /** The size is 1 or 2, and it drops to 1 exactly when the text is wider
      than `maxWidth` at size 2. */
  lemma FitSizeRule(s: string, cx: int, cy: int, maxWidth: int, measure: (string, nat) -> Bounds)
    ensures var p := Fit(s, cx, cy, maxWidth, measure);
      (p.size == 1 || p.size == 2) && (p.size == 1 <==> measure(s, 2).w > maxWidth)
  {
  }

  /** The printed text is the input, "...", or a proper non-empty prefix of
      the input followed by "..."; the input is cut only when it is too wide
      at both sizes, and then at size 1. */
  lemma FitTextShape(s: string, cx: int, cy: int, maxWidth: int, measure: (string, nat) -> Bounds)
    ensures var p := Fit(s, cx, cy, maxWidth, measure);
      p.text == s || p.text == Ellipsis || exists j :: 1 <= j < |s| && p.text == Shortened(s, j)
    ensures var p := Fit(s, cx, cy, maxWidth, measure);
      p.text != s ==> p.size == 1 && measure(s, 2).w > maxWidth && measure(s, 1).w > maxWidth
  {
    var c := Choose(s, maxWidth, measure);
    if c.text != s && c.text != Ellipsis {
      var j := LongestFit(s, maxWidth, measure, |s| - 1);
      assert 1 <= j < |s| && c.text == Shortened(s, j);
    }
  }

  /** Whatever is printed other than the "..." fallback fits in `maxWidth` at
      the size printed, and the cursor centres it. */
  lemma FitFits(s: string, cx: int, cy: int, maxWidth: int, measure: (string, nat) -> Bounds)
    ensures var p := Fit(s, cx, cy, maxWidth, measure);
      p.text != Ellipsis ==>
        measure(p.text, p.size).w <= maxWidth
        && p.x == cx - measure(p.text, p.size).w / 2 && p.y == cy + measure(p.text, p.size).h / 2
  {
  }

  /** The cut keeps as much of the input as fits: every longer prefix
      followed by "..." is too wide, and "..." alone is printed only when no
      prefix of one character or more fits. */
  lemma FitKeepsLongest(s: string, cx: int, cy: int, maxWidth: int, measure: (string, nat) -> Bounds, j: nat)
    requires 1 <= j < |s|
    requires measure(s, 1).w > maxWidth && measure(s, 2).w > maxWidth
    ensures var p := Fit(s, cx, cy, maxWidth, measure);
      p.text == Shortened(s, j) ==> forall i :: j < i < |s| ==> measure(Shortened(s, i), 1).w > maxWidth
    ensures var p := Fit(s, cx, cy, maxWidth, measure);
      p.text == Ellipsis ==> measure(Shortened(s, j), 1).w > maxWidth
  {
    var k := LongestFit(s, maxWidth, measure, |s| - 1);
    var c := Choose(s, maxWidth, measure);
    if c.text == Shortened(s, j) && k > 0 {
      assert |Shortened(s, j)| == j + 3 && |Shortened(s, k)| == k + 3;
    }
  }

  // ---------------- the "..." fallback ----------------

  /** A fixed-pitch font of 6 by 8 pixels per character at size 1, as the
      display library's built-in font. */
  function Mono(s: string, size: nat): Bounds {
    Bounds(6 * |s| * size, 8 * size)
  }

  /** With that font, "abcd" in 20 pixels falls back to "...", 18 pixels
      wide, yet the cursor is placed from the 24-pixel box of "a...": the
      text lands at x = cx - 12 instead of cx - 9. */
  lemma StaleEllipsisBounds()
    ensures Fit("abcd", 120, 120, 20, Mono) == Placed(Ellipsis, 1, 108, 124)
    ensures Mono(Ellipsis, 1).w / 2 == 9
  {
    var s := "abcd";
    assert Shortened(s, 3) == "abc..." && Shortened(s, 2) == "ab..." && Shortened(s, 1) == "a...";
    assert LongestFit(s, 20, Mono, 3) == 0;
  }

  /** The fallback as intended: the box the cursor is computed from is that
      of the text actually printed. */
  function ChooseCentred(s: string, maxWidth: int, measure: (string, nat) -> Bounds): (c: Choice)
    ensures c.text == Choose(s, maxWidth, measure).text && c.size == Choose(s, maxWidth, measure).size
    ensures c.bounds == measure(c.text, c.size)
  {
    var c := Choose(s, maxWidth, measure);
    c.(bounds := measure(c.text, c.size))
  }

  /** Placement with the box re-measured: the same text and size as the
      source, always centred on (cx, cy), and the same cursor as the source
      whenever the "..." fallback is not taken. */
  function FitCentred(s: string, cx: int, cy: int, maxWidth: int, measure: (string, nat) -> Bounds): (p: Placed)
    ensures p.text == Fit(s, cx, cy, maxWidth, measure).text && p.size == Fit(s, cx, cy, maxWidth, measure).size
    ensures p.x == cx - measure(p.text, p.size).w / 2 && p.y == cy + measure(p.text, p.size).h / 2
    ensures p.text != Ellipsis ==> p == Fit(s, cx, cy, maxWidth, measure)
  {
    Place(ChooseCentred(s, maxWidth, measure), cx, cy)
  }
}
