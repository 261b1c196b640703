/**
 * The strip builder that text geometry is accumulated in, seen at the level
 * the text renderer uses it: an ordered list of triangle-strip runs, each run a
 * non-empty list of textured quads. A "separated" push starts a new run (the
 * builder bridges runs with degenerate triangles); a plain push continues the
 * current run.
 */
module Strips {

  /** Pixel size of a glyph and its region in the font atlas. */
  datatype Glyph = Glyph(width: real, height: real, texLeft: real, texTop: real, texWidth: real, texHeight: real)

  /** A loaded font's glyph map. */
  type Font = map<char, Glyph>

  /** A textured rectangle: top-left corner, size, and the glyph it shows. */
  datatype Quad = Quad(x: real, y: real, w: real, h: real, glyph: Glyph)

  type Run = seq<Quad>

  /** Contents of a strip builder, run by run. */
  type Runs = seq<Run>

  /** Every quad in the strip, in the order it was pushed. */
  function Flatten(runs: Runs): seq<Quad> {
    if runs == [] then [] else Flatten(runs[..|runs| - 1]) + runs[|runs| - 1]
  }

  /** Number of quads held. */
  function QuadCount(runs: Runs): nat {
    |Flatten(runs)|
  }

  /** No run is empty: every run holds at least one quad. */
  predicate NoEmptyRun(runs: Runs) {
    forall k :: 0 <= k < |runs| ==> runs[k] != []
  }

  /** pushSeparatedQuad: the quad starts a run of its own after every earlier run. */
  function PushSeparatedQuad(runs: Runs, q: Quad): (r: Runs)
    ensures Flatten(r) == Flatten(runs) + [q]
    ensures |r| == |runs| + 1 && r[..|runs|] == runs && r[|runs|] == [q]
    ensures NoEmptyRun(runs) ==> NoEmptyRun(r)
  {
    assert (runs + [[q]])[..|runs|] == runs;
    runs + [[q]]
  }

  /**
   * pushQuad: the quad continues the current run; with no run yet it
   * behaves as a separated push.
   */
  function PushQuad(runs: Runs, q: Quad): (r: Runs)
    ensures Flatten(r) == Flatten(runs) + [q]
    ensures runs == [] ==> r == [[q]]
    ensures runs != [] ==> |r| == |runs| && r[..|runs| - 1] == runs[..|runs| - 1]
                           && r[|runs| - 1] == runs[|runs| - 1] + [q]
    ensures NoEmptyRun(runs) ==> NoEmptyRun(r)
  {
    if runs == [] then [[q]]
    else
      var init := runs[..|runs| - 1];
      var r := init + [runs[|runs| - 1] + [q]];
      assert r[..|r| - 1] == init;
      assert runs == init + [runs[|runs| - 1]];
      r
  }

  lemma {:induction false} FlattenAppend(a: Runs, b: Runs)
    ensures Flatten(a + b) == Flatten(a) + Flatten(b)
    decreases |b|
  {
    if b == [] {
      assert a + b == a;
    } else {
      var b' := b[..|b| - 1];
      assert (a + b)[..|a + b| - 1] == a + b';
      FlattenAppend(a, b');
    }
  }

  /**
   * pushRawSeparatedVertices: a finished strip appended after the current one,
   * its first run separated from the last run already held.
   */
  function PushRawSeparatedVertices(runs: Runs, verts: Runs): (r: Runs)
    ensures Flatten(r) == Flatten(runs) + Flatten(verts)
    ensures |r| == |runs| + |verts|
    ensures r[..|runs|] == runs && r[|runs|..] == verts
    ensures NoEmptyRun(runs) && NoEmptyRun(verts) ==> NoEmptyRun(r)
  {
    FlattenAppend(runs, verts);
    runs + verts
  }

  /** A strip with no empty run is empty exactly when it holds no quad. */
  lemma {:induction false} EmptyIffNoQuads(runs: Runs)
    requires NoEmptyRun(runs)
    ensures runs == [] <==> QuadCount(runs) == 0
  {
    if runs != [] {
      assert runs[|runs| - 1] != [];
      assert |Flatten(runs)| >= |runs[|runs| - 1]|;
    }
  }
}
