/**
 * What TextObject.buildStrip computes, as functions: the string is split on
 * '\n', every line is walked character by character with integer cursors
 * accumulatedX and accumulatedY, and each character becomes one quad, pushed
 * separated when accumulatedX is 0 and continuing the run otherwise.
 *
 * The walk is stated over the per-character metrics (glyph, scaled size and
 * truncated scaled width) so that its lemmas need no real arithmetic;
 * CharMetrics says how buildStrip obtains them. The second half gives an
 * independent description of the same geometry (quad j of line i sits at the
 * line's offset and after the widths of the characters before it) and proves
 * that the two agree.
 */
module TextLayout {
  import opened Strips
  import JavaStrings

  /** The character laid out in place of one the font lacks. */
  const FallbackChar: char := '0'

  /** The character whose height gives the generic line height. */
  const ReferenceChar: char := ' '

  /** The font has the two glyphs layout looks up unconditionally. */
  predicate FontReady(font: Font) {
    ReferenceChar in font && FallbackChar in font
  }

  /** Where and how large a text object is drawn. */
  datatype Style = Style(px: real, py: real, scale: real, ySpacing: int)

  /** Java's (int) cast of a float: truncation toward zero. */
  function Trunc(r: real): (n: int)
    ensures r >= 0.0 ==> n as real <= r < n as real + 1.0
    ensures r < 0.0 ==> n as real - 1.0 < r <= n as real
  {
    if r >= 0.0 then r.Floor else -((-r).Floor)
  }

  /** The outcome of looking a character up, substitution included. */
  datatype GlyphLookup = Found(glyph: Glyph) | Fallback(glyph: Glyph, missing: char)

  /** The glyph map lookup with the fallback to '0' for a missing character. */
  function LookupGlyph(font: Font, c: char): (r: GlyphLookup)
    requires FallbackChar in font
    ensures r.Found? <==> c in font
    ensures r.glyph in font.Values
    ensures r.Found? ==> r.glyph == font[c]
    ensures r.Fallback? ==> r.missing == c && r.glyph == font[FallbackChar]
  {
    if c in font then Found(font[c]) else Fallback(font[FallbackChar], c)
  }

  /** What one character contributes: its glyph, its scaled size, and how far it moves accumulatedX. */
  datatype Metrics = Metrics(glyph: Glyph, w: real, h: real, advance: int)

  /** A width and a height. */
  datatype Size = Size(x: real, y: real)

  /** new Vec2(glyph.width, glyph.height).mul(scale). */
  function ScaledSize(g: Glyph, scale: real): Size {
    Size(g.width * scale, g.height * scale)
  }

  /** The metrics buildStrip uses: size = glyph size * scale, advance = (int) size.x. */
  function CharMetrics(font: Font, scale: real, c: char): Metrics
    requires FallbackChar in font
  {
    var g := LookupGlyph(font, c).glyph;
    var size := ScaledSize(g, scale);
    Metrics(g, size.x, size.y, Trunc(size.x))
  }

  /** The per-character metrics of a font at a scale. */
  function Measure(font: Font, scale: real): char -> Metrics
    requires FallbackChar in font
  {
    c => CharMetrics(font, scale, c)
  }

  /** genericHeight: the scaled height of the space glyph, truncated. */
  function GenericHeight(font: Font, scale: real): int
    requires ReferenceChar in font
  {
    Trunc(font[ReferenceChar].height * scale)
  }

  /** genericHeight + ySpacing: how far accumulatedY moves per line. */
  function LineStep(font: Font, st: Style): int
    requires FontReady(font)
  {
    GenericHeight(font, st.scale) + st.ySpacing
  }

  /** Strip contents and accumulatedX while a line is walked. */
  datatype LineCursor = LineCursor(runs: Runs, accX: int)

  /** The quad of character c with the cursors at accX and lineY. */
  function MakeQuad(m: char -> Metrics, px: real, accX: int, lineY: real, c: char): Quad {
    Quad(px + accX as real, lineY, m(c).w, m(c).h, m(c).glyph)
  }

  /** One step of the inner loop: push the character's quad (separated iff accumulatedX is 0), then advance accumulatedX. */
  function PlaceChar(m: char -> Metrics, px: real, lineY: real, cur: LineCursor, c: char): (next: LineCursor)
    ensures Flatten(next.runs) == Flatten(cur.runs) + [MakeQuad(m, px, cur.accX, lineY, c)]
    ensures cur.accX == 0 ==> |next.runs| == |cur.runs| + 1
    ensures cur.accX != 0 && cur.runs != [] ==> |next.runs| == |cur.runs|
    ensures next.accX == cur.accX + m(c).advance
  {
    var q := MakeQuad(m, px, cur.accX, lineY, c);
    LineCursor(if cur.accX == 0 then PushSeparatedQuad(cur.runs, q) else PushQuad(cur.runs, q),
               cur.accX + m(c).advance)
  }

  /** The inner loop over the characters of line, from strip runs0 and accumulatedX = 0. */
  function LayoutChars(m: char -> Metrics, px: real, lineY: real, runs0: Runs, line: string): LineCursor {
    if line == [] then LineCursor(runs0, 0)
    else PlaceChar(m, px, lineY, LayoutChars(m, px, lineY, runs0, line[..|line| - 1]), line[|line| - 1])
  }

  /** Strip contents and accumulatedY while the lines are walked. */
  datatype TextCursor = TextCursor(runs: Runs, accY: int)

  /** One step of the outer loop; an empty line only moves accumulatedY. */
  function PlaceLine(m: char -> Metrics, px: real, py: real, step: int, cur: TextCursor, line: string): TextCursor {
    if line == [] then TextCursor(cur.runs, cur.accY + step)
    else TextCursor(LayoutChars(m, px, py + cur.accY as real, cur.runs, line).runs, cur.accY + step)
  }

  /** The outer loop over the given lines, from an empty strip and accumulatedY = 0. */
  function LayoutLines(m: char -> Metrics, px: real, py: real, step: int, lines: seq<string>): TextCursor {
    if lines == [] then TextCursor([], 0)
    else PlaceLine(m, px, py, step, LayoutLines(m, px, py, step, lines[..|lines| - 1]), lines[|lines| - 1])
  }

  /** An empty line only moves the cursor down a line. */
  lemma PlaceEmptyLine(m: char -> Metrics, px: real, py: real, step: int, runs: Runs, accY: int)
    ensures PlaceLine(m, px, py, step, TextCursor(runs, accY), []) == TextCursor(runs, accY + step)
  {
  }

  /** A non-empty line is laid out at the cursor's height and then moves the cursor down. */
  lemma PlaceTextLine(m: char -> Metrics, px: real, py: real, step: int, runs: Runs, accY: int,
                      line: string, lineY: real, placed: LineCursor)
    requires line != [] && lineY == py + accY as real
    requires placed == LayoutChars(m, px, lineY, runs, line)
    ensures PlaceLine(m, px, py, step, TextCursor(runs, accY), line) == TextCursor(placed.runs, accY + step)
  {
  }

  /** One more character of the line is one more inner-loop step. */
  lemma LayoutCharsSnoc(m: char -> Metrics, px: real, lineY: real, runs0: Runs, line: string, j: nat)
    requires j < |line|
    ensures LayoutChars(m, px, lineY, runs0, line[..j + 1])
            == PlaceChar(m, px, lineY, LayoutChars(m, px, lineY, runs0, line[..j]), line[j])
  {
    assert line[..j + 1][..j] == line[..j];
  }

  /** One more line is one more outer-loop step. */
  lemma LayoutLinesSnoc(m: char -> Metrics, px: real, py: real, step: int, lines: seq<string>, i: nat)
    requires i < |lines|
    ensures LayoutLines(m, px, py, step, lines[..i + 1])
            == PlaceLine(m, px, py, step, LayoutLines(m, px, py, step, lines[..i]), lines[i])
  {
    assert lines[..i + 1][..i] == lines[..i];
  }

  /** The lines buildStrip walks: string.split("\n"). */
  function Lines(str: string): seq<string> {
    JavaStrings.Split(str, "\n")
  }

  /** The strip a rebuild produces. */
  function Layout(font: Font, str: string, st: Style): Runs
    requires FontReady(font)
  {
    LayoutLines(Measure(font, st.scale), st.px, st.py, LineStep(font, st), Lines(str)).runs
  }

  // ---------------------------------------------------------------------
  // Reference description of the same geometry.

  /** Sum of the advances of the characters of s. */
  function LineWidth(m: char -> Metrics, s: string): int {
    if s == [] then 0 else LineWidth(m, s[..|s| - 1]) + m(s[|s| - 1]).advance
  }

  /** Quad j of a line whose top is lineY: its left edge lies after the widths of line[..j]. */
  function QuadAt(m: char -> Metrics, px: real, lineY: real, line: string, j: nat): Quad
    requires j < |line|
  {
    var mc := m(line[j]);
    Quad(px + LineWidth(m, line[..j]) as real, lineY, mc.w, mc.h, mc.glyph)
  }

  /** All quads of a line, one per character. */
  function LineQuads(m: char -> Metrics, px: real, lineY: real, line: string): (qs: seq<Quad>)
    ensures |qs| == |line|
    ensures forall j :: 0 <= j < |line| ==> qs[j] == QuadAt(m, px, lineY, line, j)
  {
    seq(|line|, j requires 0 <= j < |line| => QuadAt(m, px, lineY, line, j))
  }

  /** How far line i lies below the first: every earlier line, empty or not, adds one step. */
  function LineOffset(step: int, i: nat): int {
    if i == 0 then 0 else LineOffset(step, i - 1) + step
  }

  /** Line i lies i steps below the first. */
  lemma {:induction false} LineOffsetIsProduct(step: int, i: nat)
    ensures LineOffset(step, i) == i * step
  {
    if i > 0 {
      LineOffsetIsProduct(step, i - 1);
      assert (i - 1) * step + step == i * step;
    }
  }

  /** Top of line i. */
  function LineTop(py: real, step: int, i: nat): real {
    py + LineOffset(step, i) as real
  }

  /** The quads of every line, lines in order. */
  function TextQuads(m: char -> Metrics, px: real, py: real, step: int, lines: seq<string>): seq<Quad> {
    if lines == [] then []
    else TextQuads(m, px, py, step, lines[..|lines| - 1])
         + LineQuads(m, px, LineTop(py, step, |lines| - 1), lines[|lines| - 1])
  }

  function NonEmptyCount(lines: seq<string>): nat {
    if lines == [] then 0
    else NonEmptyCount(lines[..|lines| - 1]) + (if lines[|lines| - 1] == [] then 0 else 1)
  }

  /** One run per non-empty line, holding that line's quads. */
  function LineRuns(m: char -> Metrics, px: real, py: real, step: int, lines: seq<string>): (r: Runs)
    ensures |r| == NonEmptyCount(lines)
    ensures NoEmptyRun(r)
  {
    if lines == [] then []
    else
      var last := lines[|lines| - 1];
      LineRuns(m, px, py, step, lines[..|lines| - 1])
      + (if last == [] then [] else [LineQuads(m, px, LineTop(py, step, |lines| - 1), last)])
  }

  /** Every character moves accumulatedX forward by at least one pixel. */
  ghost predicate Wide(m: char -> Metrics) {
    forall c :: m(c).advance >= 1
  }

  /** Every glyph of the font is at least one pixel wide at this scale. */
  predicate WideGlyphs(font: Font, scale: real) {
    forall c :: c in font ==> Trunc(font[c].width * scale) >= 1
  }

  // ---------------------------------------------------------------------
  // The loop-shaped definition agrees with the reference one.

  lemma {:induction false} LineQuadsSnoc(m: char -> Metrics, px: real, lineY: real, line: string)
    requires line != []
    ensures LineQuads(m, px, lineY, line)
            == LineQuads(m, px, lineY, line[..|line| - 1]) + [QuadAt(m, px, lineY, line, |line| - 1)]
  {
    var init := line[..|line| - 1];
    var a := LineQuads(m, px, lineY, line);
    var b := LineQuads(m, px, lineY, init) + [QuadAt(m, px, lineY, line, |line| - 1)];
    forall j | 0 <= j < |init| ensures a[j] == b[j] {
      assert init[..j] == line[..j];
    }
  }

  /** Walking a line adds exactly its quads, in order, and leaves accumulatedX at the line's width. */
  lemma {:induction false} LayoutCharsQuads(m: char -> Metrics, px: real, lineY: real, runs0: Runs, line: string)
    ensures Flatten(LayoutChars(m, px, lineY, runs0, line).runs) == Flatten(runs0) + LineQuads(m, px, lineY, line)
    ensures LayoutChars(m, px, lineY, runs0, line).accX == LineWidth(m, line)
    decreases |line|
  {
    if line != [] {
      var init := line[..|line| - 1];
      LayoutCharsQuads(m, px, lineY, runs0, init);
      LineQuadsSnoc(m, px, lineY, line);
    }
  }

  /** accumulatedY after the outer loop: every line, empty or not, adds one step. */
  lemma {:induction false} LayoutLinesAccY(m: char -> Metrics, px: real, py: real, step: int, lines: seq<string>)
    ensures LayoutLines(m, px, py, step, lines).accY == LineOffset(step, |lines|)
    decreases |lines|
  {
    if lines != [] {
      LayoutLinesAccY(m, px, py, step, lines[..|lines| - 1]);
    }
  }

  /** One step of the outer loop appends the line's quads at the cursor's height. */
  lemma PlaceLineQuads(m: char -> Metrics, px: real, py: real, step: int, cur: TextCursor, line: string)
    ensures Flatten(PlaceLine(m, px, py, step, cur, line).runs)
            == Flatten(cur.runs) + LineQuads(m, px, py + cur.accY as real, line)
  {
    var lineY := py + cur.accY as real;
    if line == [] {
      assert LineQuads(m, px, lineY, line) == [];
      assert Flatten(cur.runs) + [] == Flatten(cur.runs);
    } else {
      assert PlaceLine(m, px, py, step, cur, line).runs == LayoutChars(m, px, lineY, cur.runs, line).runs;
      LayoutCharsQuads(m, px, lineY, cur.runs, line);
    }
  }

  /** Walking the lines yields every line's quads at that line's top; accumulatedY ends at lines * step. */
  lemma {:induction false} LayoutLinesQuads(m: char -> Metrics, px: real, py: real, step: int, lines: seq<string>)
    ensures Flatten(LayoutLines(m, px, py, step, lines).runs) == TextQuads(m, px, py, step, lines)
    ensures LayoutLines(m, px, py, step, lines).accY == LineOffset(step, |lines|)
    decreases |lines|
  {
    LayoutLinesAccY(m, px, py, step, lines);
    if lines != [] {
      var n := |lines|;
      var init, last := lines[..n - 1], lines[n - 1];
      var cur := LayoutLines(m, px, py, step, init);
      LayoutLinesQuads(m, px, py, step, init);
      PlaceLineQuads(m, px, py, step, cur, last);
      assert LayoutLines(m, px, py, step, lines) == PlaceLine(m, px, py, step, cur, last);
      assert LineTop(py, step, n - 1) == py + cur.accY as real;
    }
  }

  lemma {:induction false} WideLineWidth(m: char -> Metrics, s: string)
    requires Wide(m)
    ensures LineWidth(m, s) >= |s|
    decreases |s|
  {
    if s != [] {
      WideLineWidth(m, s[..|s| - 1]);
      assert m(s[|s| - 1]).advance >= 1;
    }
  }

  /** With every advance at least 1, a non-empty line becomes exactly one new run: its first quad separated, the rest continuous. */
  lemma {:induction false} WideLayoutChars(m: char -> Metrics, px: real, lineY: real, runs0: Runs, line: string)
    requires Wide(m)
    requires line != []
    ensures LayoutChars(m, px, lineY, runs0, line).runs == runs0 + [LineQuads(m, px, lineY, line)]
    decreases |line|
  {
    var init := line[..|line| - 1];
    LineQuadsSnoc(m, px, lineY, line);
    if init == [] {
      var c := line[0];
      assert LayoutChars(m, px, lineY, runs0, init) == LineCursor(runs0, 0);
      assert LayoutChars(m, px, lineY, runs0, line).runs == runs0 + [[MakeQuad(m, px, 0, lineY, c)]];
      assert line[..0] == [];
      assert QuadAt(m, px, lineY, line, 0) == MakeQuad(m, px, 0, lineY, c);
      assert LineQuads(m, px, lineY, line) == [MakeQuad(m, px, 0, lineY, c)];
    } else {
      WideLayoutChars(m, px, lineY, runs0, init);
      LayoutCharsQuads(m, px, lineY, runs0, init);
      WideLineWidth(m, init);
      var prev := runs0 + [LineQuads(m, px, lineY, init)];
      assert prev[..|prev| - 1] == runs0;
    }
  }

  /** With every advance at least 1, one step of the outer loop adds one run for a non-empty line and none for an empty one. */
  lemma WidePlaceLine(m: char -> Metrics, px: real, py: real, step: int, cur: TextCursor, line: string, lineY: real)
    requires Wide(m) && lineY == py + cur.accY as real
    ensures PlaceLine(m, px, py, step, cur, line).runs
            == cur.runs + (if line == [] then [] else [LineQuads(m, px, lineY, line)])
  {
    if line != [] {
      WideLayoutChars(m, px, lineY, cur.runs, line);
    } else {
      assert cur.runs + [] == cur.runs;
    }
  }

  lemma {:induction false} WideLayoutLines(m: char -> Metrics, px: real, py: real, step: int, lines: seq<string>)
    requires Wide(m)
    ensures LayoutLines(m, px, py, step, lines).runs == LineRuns(m, px, py, step, lines)
    decreases |lines|
  {
    if lines != [] {
      var n := |lines|;
      var init, last := lines[..n - 1], lines[n - 1];
      var top := LineTop(py, step, n - 1);
      var added := if last == [] then [] else [LineQuads(m, px, top, last)];
      assert LayoutLines(m, px, py, step, lines).runs == LayoutLines(m, px, py, step, init).runs + added by {
        var cur := LayoutLines(m, px, py, step, init);
        LayoutLinesAccY(m, px, py, step, init);
        WidePlaceLine(m, px, py, step, cur, last, top);
      }
      assert LineRuns(m, px, py, step, lines) == LineRuns(m, px, py, step, init) + added;
      WideLayoutLines(m, px, py, step, init);
    }
  }

  lemma WideChar(font: Font, scale: real, c: char)
    requires FallbackChar in font
    requires WideGlyphs(font, scale)
    ensures CharMetrics(font, scale, c).advance >= 1
  {
    if c in font {
      assert Trunc(font[c].width * scale) >= 1;
    } else {
      assert Trunc(font[FallbackChar].width * scale) >= 1;
    }
  }

  /** Glyphs at least one pixel wide give advances of at least one, the '0' substitute included. */
  lemma WideMeasure(font: Font, scale: real)
    requires FallbackChar in font
    requires WideGlyphs(font, scale)
    ensures Wide(Measure(font, scale))
  {
    forall c ensures Measure(font, scale)(c).advance >= 1 {
      WideChar(font, scale, c);
    }
  }

  // ---------------------------------------------------------------------
  // The results for buildStrip itself.

  /**
   * Whatever the glyph widths: the rebuilt strip holds, in order, one quad per
   * character of each line of string.split("\n"); the quad of character j of
   * line i has its top-left at (px + advances of the line's first j characters,
   * py + i * (genericHeight + ySpacing)), the glyph's size times the scale, and
   * the '0' glyph when the font lacks the character.
   */
  lemma LayoutQuads(font: Font, str: string, st: Style)
    requires FontReady(font)
    ensures Flatten(Layout(font, str, st))
            == TextQuads(Measure(font, st.scale), st.px, st.py, LineStep(font, st), Lines(str))
  {
    LayoutLinesQuads(Measure(font, st.scale), st.px, st.py, LineStep(font, st), Lines(str));
  }

  /**
   * With every glyph at least one pixel wide after scaling, the rebuilt strip
   * has exactly one run per non-empty line, and that run is the line's quads.
   */
  lemma WideLayout(font: Font, str: string, st: Style)
    requires FontReady(font)
    requires WideGlyphs(font, st.scale)
    ensures Layout(font, str, st) == LineRuns(Measure(font, st.scale), st.px, st.py, LineStep(font, st), Lines(str))
    ensures |Layout(font, str, st)| == NonEmptyCount(Lines(str))
  {
    WideMeasure(font, st.scale);
    WideLayoutLines(Measure(font, st.scale), st.px, st.py, LineStep(font, st), Lines(str));
  }

  // ---------------------------------------------------------------------
  // When a rebuilt strip is empty.

  /** Number of characters over all lines. */
  function TotalChars(lines: seq<string>): nat {
    if lines == [] then 0 else TotalChars(lines[..|lines| - 1]) + |lines[|lines| - 1]|
  }

  lemma {:induction false} TotalCharsZero(lines: seq<string>)
    ensures TotalChars(lines) == 0 <==> forall i :: 0 <= i < |lines| ==> lines[i] == []
    decreases |lines|
  {
    if lines != [] {
      var init := lines[..|lines| - 1];
      TotalCharsZero(init);
      forall i | 0 <= i < |init| ensures init[i] == lines[i] { }
    }
  }

  lemma {:induction false} TextQuadsLength(m: char -> Metrics, px: real, py: real, step: int, lines: seq<string>)
    ensures |TextQuads(m, px, py, step, lines)| == TotalChars(lines)
    decreases |lines|
  {
    if lines != [] {
      TextQuadsLength(m, px, py, step, lines[..|lines| - 1]);
    }
  }

  lemma {:induction false} LayoutCharsNoEmptyRun(m: char -> Metrics, px: real, lineY: real, runs0: Runs, line: string)
    requires NoEmptyRun(runs0)
    ensures NoEmptyRun(LayoutChars(m, px, lineY, runs0, line).runs)
    decreases |line|
  {
    if line != [] {
      var cur := LayoutChars(m, px, lineY, runs0, line[..|line| - 1]);
      LayoutCharsNoEmptyRun(m, px, lineY, runs0, line[..|line| - 1]);
      var q := MakeQuad(m, px, cur.accX, lineY, line[|line| - 1]);
      if cur.accX == 0 {
        assert NoEmptyRun(PushSeparatedQuad(cur.runs, q));
      } else {
        assert NoEmptyRun(PushQuad(cur.runs, q));
      }
    }
  }

  lemma {:induction false} LayoutLinesNoEmptyRun(m: char -> Metrics, px: real, py: real, step: int, lines: seq<string>)
    ensures NoEmptyRun(LayoutLines(m, px, py, step, lines).runs)
    decreases |lines|
  {
    if lines != [] {
      var cur := LayoutLines(m, px, py, step, lines[..|lines| - 1]);
      LayoutLinesNoEmptyRun(m, px, py, step, lines[..|lines| - 1]);
      var last := lines[|lines| - 1];
      if last != [] {
        LayoutCharsNoEmptyRun(m, px, py + cur.accY as real, cur.runs, last);
      }
    }
  }

  /**
   * Every run of a rebuilt strip holds a quad, and the strip is empty exactly
   * when every line of string.split("\n") is empty (whatever the glyph widths:
   * the first character of a line always starts a run).
   */
  lemma LayoutEmptyIff(font: Font, str: string, st: Style)
    requires FontReady(font)
    ensures NoEmptyRun(Layout(font, str, st))
    ensures Layout(font, str, st) == [] <==> forall i :: 0 <= i < |Lines(str)| ==> Lines(str)[i] == []
  {
    var m := Measure(font, st.scale);
    var step := LineStep(font, st);
    var lines := Lines(str);
    LayoutLinesNoEmptyRun(m, st.px, st.py, step, lines);
    LayoutQuads(font, str, st);
    TextQuadsLength(m, st.px, st.py, step, lines);
    TotalCharsZero(lines);
    EmptyIffNoQuads(Layout(font, str, st));
  }
}
