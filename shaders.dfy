/**
 * The non-GL logic of the shader helper: the stage-name <-> GL-constant
 * mapping, reading a stage from a file extension, the splitter that cuts one
 * source file into several shaders at "//---" marker lines, and the
 * bookkeeping of a shader program (generated once, linked once, uniform
 * locations memoised).
 *
 * The GL driver is not modelled: what glCreateShader, glCompileShader,
 * glCreateProgram, glLinkProgram and glGetUniformLocation answer is passed in.
 */
module Shaders {
  import opened Wrappers
  import opened JavaStrings
  import opened Seqs

  const GL_FRAGMENT_SHADER: int := 0x8B30
  const GL_VERTEX_SHADER: int := 0x8B31
  const GL_GEOMETRY_SHADER: int := 0x8DD9
  const GL_TESS_EVALUATION_SHADER: int := 0x8E87
  const GL_TESS_CONTROL_SHADER: int := 0x8E88

  /** The five programmable stages, as a reference table for the two switches below. */
  datatype Stage = Vertex | TessControl | TessEvaluation | Geometry | Fragment

  /** The file extension (and marker name) of each stage. */
  function Extension(st: Stage): string {
    match st
    case Vertex => "vert"
    case TessControl => "tesc"
    case TessEvaluation => "tese"
    case Geometry => "geom"
    case Fragment => "frag"
  }

  function GlConstant(st: Stage): int {
    match st
    case Vertex => GL_VERTEX_SHADER
    case TessControl => GL_TESS_CONTROL_SHADER
    case TessEvaluation => GL_TESS_EVALUATION_SHADER
    case Geometry => GL_GEOMETRY_SHADER
    case Fragment => GL_FRAGMENT_SHADER
  }

  function DisplayName(st: Stage): string {
    match st
    case Vertex => "VERTEX"
    case TessControl => "TESS_CONTROL"
    case TessEvaluation => "TESS_EVALUATION"
    case Geometry => "GEOMETRY"
    case Fragment => "FRAGMENT"
  }

  /** The five stages have five different constants, none of them -1. */
  lemma GlConstantsDistinct(a: Stage, b: Stage)
    ensures GlConstant(a) == GlConstant(b) ==> a == b
    ensures GlConstant(a) != -1
  {
  }

  /** getShaderType(String): the GL constant of a stage name, -1 for anything else. */
  function ShaderType(name: string): int {
    if name == "vert" then GL_VERTEX_SHADER
    else if name == "tesc" then GL_TESS_CONTROL_SHADER
    else if name == "tese" then GL_TESS_EVALUATION_SHADER
    else if name == "geom" then GL_GEOMETRY_SHADER
    else if name == "frag" then GL_FRAGMENT_SHADER
    else -1
  }

  /** getShaderTypeString: the display name of a GL stage constant, "UNKNOWN" for anything else. */
  function ShaderTypeString(shaderType: int): string {
    if shaderType == GL_VERTEX_SHADER then "VERTEX"
    else if shaderType == GL_TESS_CONTROL_SHADER then "TESS_CONTROL"
    else if shaderType == GL_TESS_EVALUATION_SHADER then "TESS_EVALUATION"
    else if shaderType == GL_GEOMETRY_SHADER then "GEOMETRY"
    else if shaderType == GL_FRAGMENT_SHADER then "FRAGMENT"
    else "UNKNOWN"
  }

  /** A name maps to a stage's constant exactly when it is that stage's extension. */
  lemma ShaderTypeMatchesTable(name: string, st: Stage)
    ensures ShaderType(name) == GlConstant(st) <==> name == Extension(st)
  {
  }

  /** Every name that is no stage's extension maps to -1, and only those. */
  lemma ShaderTypeUnknown(name: string)
    ensures ShaderType(name) == -1 <==> forall st: Stage :: name != Extension(st)
  {
    if ShaderType(name) != -1 {
      var st :| name == Extension(st) by {
        if name == "vert" { assert name == Extension(Vertex); }
        else if name == "tesc" { assert name == Extension(TessControl); }
        else if name == "tese" { assert name == Extension(TessEvaluation); }
        else if name == "geom" { assert name == Extension(Geometry); }
        else { assert name == Extension(Fragment); }
      }
    }
  }

  /** A constant gets a stage's display name exactly when it is that stage's constant. */
  lemma ShaderTypeStringMatchesTable(shaderType: int, st: Stage)
    ensures ShaderTypeString(shaderType) == DisplayName(st) <==> shaderType == GlConstant(st)
  {
  }

  /** "UNKNOWN" is given to exactly the values that are no stage's constant. */
  lemma ShaderTypeStringUnknown(shaderType: int)
    ensures ShaderTypeString(shaderType) == "UNKNOWN" <==> forall st: Stage :: shaderType != GlConstant(st)
  {
    if ShaderTypeString(shaderType) != "UNKNOWN" {
      var st :| shaderType == GlConstant(st) by {
        if shaderType == GL_VERTEX_SHADER { assert shaderType == GlConstant(Vertex); }
        else if shaderType == GL_TESS_CONTROL_SHADER { assert shaderType == GlConstant(TessControl); }
        else if shaderType == GL_TESS_EVALUATION_SHADER { assert shaderType == GlConstant(TessEvaluation); }
        else if shaderType == GL_GEOMETRY_SHADER { assert shaderType == GlConstant(Geometry); }
        else { assert shaderType == GlConstant(Fragment); }
      }
    }
  }

  /** getShaderTypeString undoes getShaderType: a stage's extension comes back as its display name, anything else as "UNKNOWN". */
  lemma ShaderTypeStringInverts(name: string)
    ensures forall st: Stage :: name == Extension(st) ==> ShaderTypeString(ShaderType(name)) == DisplayName(st)
    ensures ShaderTypeString(ShaderType(name)) == "UNKNOWN" <==> ShaderType(name) == -1
  {
  }

  // ---------------------------------------------------------------------------
  // The stage of a shader file, from its extension

  /**
   * getShaderType(File): the name split on "." and the last piece read as a
   * stage name. A name made only of dots splits into no pieces, and the
   * lookup of the last piece throws; that outcome is None.
   */
  function FileShaderType(fileName: string): Option<int> {
    var parts := Split(fileName, ".");
    if parts == [] then None else Some(ShaderType(parts[|parts| - 1]))
  }

  /** A file "stem.ext" gets the stage of its extension, whatever the stem holds. */
  lemma FileShaderTypeExtension(stem: string, ext: string)
    requires ext != "" && '.' !in ext
    ensures FileShaderType(stem + "." + ext) == Some(ShaderType(ext))
  {
    assert stem + "." + ext == stem + ['.'] + ext;
    SplitAllSuffix(stem, '.', ext);
    var all := SplitAll(stem + "." + ext, ".");
    assert |all| >= 2 && all[|all| - 1] == ext;
    assert Split(stem + "." + ext, ".") == all;
  }

  /** A name without a dot is read as a stage name as a whole. */
  lemma FileShaderTypeNoDot(fileName: string)
    requires '.' !in fileName
    ensures FileShaderType(fileName) == Some(ShaderType(fileName))
  {
    SplitAllNoLead(fileName, ".");
  }

  /** The lookup throws exactly on a non-empty name made of dots alone. */
  lemma FileShaderTypeThrows(fileName: string)
    ensures FileShaderType(fileName) == None <==>
              fileName != "" && forall i :: 0 <= i < |fileName| ==> fileName[i] == '.'
  {
    var all := SplitAll(fileName, ".");
    SplitSpec(fileName, ".");
    if Split(fileName, ".") == [] {
      SplitAllJoin(fileName, ".");
      JoinOfEmpties(all, '.');
    }
    if fileName != "" && forall i :: 0 <= i < |fileName| ==> fileName[i] == '.' {
      SplitAllOfDelimiters(fileName, '.');
      DropTrailingEmptyAllEmpty(all);
    }
  }

  // ---------------------------------------------------------------------------
  // Splitting one source file into several shaders

  const MARKER: string := "//---"

  /** A line that starts a new shader section. */
  predicate IsMarker(line: string) {
    StartsWith(line, MARKER)
  }

  /**
   * The stage a marker line names: spaces removed, lower-cased, split on the
   * marker and the second piece looked up. When there is no second piece
   * (nothing after the marker) the lookup throws; that outcome is None.
   */
  function MarkerStage(line: string): Option<int> {
    var parts := Split(Lower(RemoveSpaces(line)), MARKER);
    if |parts| < 2 then None else Some(ShaderType(parts[1]))
  }

  /** Removing spaces and lower-casing leave the marker itself alone. */
  lemma MarkerCleaned(rest: string)
    ensures Lower(RemoveSpaces(MARKER + rest)) == MARKER + Lower(RemoveSpaces(rest))
  {
    var r := RemoveSpaces(rest);
    RemoveSpacesAppend(MARKER, rest);
    MarkerIsClean();
    LowerAppend(MARKER, r);
  }

  /** The marker has no space and no capital. */
  lemma MarkerIsClean()
    ensures RemoveSpaces(MARKER) == MARKER && Lower(MARKER) == MARKER
  {
    assert ' ' !in MARKER;
    RemoveSpacesNoSpace(MARKER);
    assert forall i :: 0 <= i < |MARKER| ==> !IsUpper(MARKER[i]);
    LowerIdempotent(MARKER);
  }

  /**
   * A marker names the stage written after it, read without spaces and in
   * lower case, up to the next marker if there is one (so a trailing
   * comment makes the name unknown, -1); a marker followed by nothing but
   * spaces and markers names none, and the lookup throws.
   */
  lemma MarkerStageName(rest: string)
    ensures var name := Lower(RemoveSpaces(rest));
            var pieces := SplitAll(name, MARKER);
            MarkerStage(MARKER + rest)
              == if forall k :: 0 <= k < |pieces| ==> pieces[k] == "" then None else Some(ShaderType(pieces[0]))
    ensures var name := Lower(RemoveSpaces(rest));
            !Contains(name, MARKER) ==>
              MarkerStage(MARKER + rest) == if name == "" then None else Some(ShaderType(name))
  {
    MarkerCleaned(rest);
    SplitAfterMarker(Lower(RemoveSpaces(rest)));
  }

  /**
   * Splitting the marker followed by a name gives an empty piece and then the
   * text up to the name's first marker, or nothing at all when the name holds
   * nothing but markers; a name without a marker comes back whole.
   */
  lemma SplitAfterMarker(name: string)
    ensures var r, pieces := Split(MARKER + name, MARKER), SplitAll(name, MARKER);
            && ((forall k :: 0 <= k < |pieces| ==> pieces[k] == "") ==> r == [])
            && ((exists k :: 0 <= k < |pieces| && pieces[k] != "") ==> |r| >= 2 && r[0] == "" && r[1] == pieces[0])
            && (!Contains(name, MARKER) ==> r == if name == "" then [] else ["", name])
  {
    var pieces := SplitAll(name, MARKER);
    var all := [""] + pieces;
    SplitAllLeading(name, MARKER);
    assert SplitAll(MARKER + name, MARKER) == all;
    assert Split(MARKER + name, MARKER) == DropTrailingEmpty(all);
    if forall k :: 0 <= k < |pieces| ==> pieces[k] == "" {
      DropTrailingEmptyAllEmpty(all);
    } else {
      var k :| 0 <= k < |pieces| && pieces[k] != "";
      DropTrailingEmptySpec(all);
      assert all[k + 1] != "";
    }
    if !Contains(name, MARKER) {
      SplitAllNoMatch(name, MARKER);
    }
  }

  /** One emitted shader: its source text and its GL stage constant (-1 before any marker). */
  datatype Section = Section(code: string, stage: int)

  /** The splitter's variables after some lines: emitted sections, the pending text, its stage, and whether a marker threw. */
  datatype ScanState = ScanState(emitted: seq<Section>, pending: string, stage: int, failed: bool)

  /**
   * One line of attachShaderMulti's loop. A marker emits the pending text
   * when it is non-empty and then starts a new section of the stage it
   * names; a marker that names none throws, ending the scan. Any other line
   * is added to the pending text after a newline.
   */
  function Step(st: ScanState, line: string): ScanState {
    if st.failed then st
    else if IsMarker(line) then
      var emitted := if st.pending != "" then st.emitted + [Section(st.pending, st.stage)] else st.emitted;
      match MarkerStage(line)
      case None => ScanState(emitted, st.pending, st.stage, true)
      case Some(t) => ScanState(emitted, "", t, false)
    else ScanState(st.emitted, st.pending + "\n" + line, st.stage, false)
  }

  /** The splitter's variables after reading all of `lines`. */
  function Scan(lines: seq<string>): ScanState {
    if lines == [] then ScanState([], "", -1, false)
    else Step(Scan(lines[..|lines| - 1]), lines[|lines| - 1])
  }

  lemma ScanSnoc(lines: seq<string>, i: nat)
    requires i < |lines|
    ensures Scan(lines[..i + 1]) == Step(Scan(lines[..i]), lines[i])
  {
    assert lines[..i + 1][..i] == lines[..i];
  }

  /** Once a marker has thrown, no later line changes anything. */
  lemma {:induction false} ScanFailedStays(lines: seq<string>, i: nat)
    requires i <= |lines| && Scan(lines[..i]).failed
    ensures Scan(lines) == Scan(lines[..i])
    decreases |lines| - i
  {
    if i == |lines| {
      assert lines[..i] == lines;
    } else {
      ScanSnoc(lines, i);
      ScanFailedStays(lines, i + 1);
    }
  }

  /** What the splitter attaches, in order, and whether it got to the end of the file. */
  datatype SplitResult = SplitResult(sections: seq<Section>, complete: bool)

  /** The sections of a file: those emitted at markers, then (unless a marker threw) the final one, always. */
  function SplitShaderFile(lines: seq<string>): SplitResult {
    var st := Scan(lines);
    if st.failed then SplitResult(st.emitted, false)
    else SplitResult(st.emitted + [Section(st.pending, st.stage)], true)
  }

  /** Each line with a newline in front of it, all glued together (how shader text is read from a file). */
  function NewlinePrefixed(lines: seq<string>): string {
    if lines == [] then "" else NewlinePrefixed(lines[..|lines| - 1]) + "\n" + lines[|lines| - 1]
  }

  /** The lines that are not markers, in order. */
  function NonMarkers(lines: seq<string>): (r: seq<string>)
    ensures forall k :: 0 <= k < |r| ==> !IsMarker(r[k])
  {
    if lines == [] then []
    else NonMarkers(lines[..|lines| - 1]) + (if IsMarker(lines[|lines| - 1]) then [] else [lines[|lines| - 1]])
  }

  /** The shader text of a multi-shader file: its non-marker lines, newline-prefixed. */
  function Body(lines: seq<string>): string {
    NewlinePrefixed(NonMarkers(lines))
  }

  /** The text of all sections, glued in order. */
  function Code(sections: seq<Section>): string {
    if sections == [] then "" else Code(sections[..|sections| - 1]) + sections[|sections| - 1].code
  }

  lemma CodeSnoc(sections: seq<Section>, s: Section)
    ensures Code(sections + [s]) == Code(sections) + s.code
  {
    assert (sections + [s])[..|sections|] == sections;
  }

  lemma NewlinePrefixedSnoc(lines: seq<string>, line: string)
    ensures NewlinePrefixed(lines + [line]) == NewlinePrefixed(lines) + "\n" + line
  {
    assert (lines + [line])[..|lines|] == lines;
  }

  /** Before a marker throws, the emitted text followed by the pending text is exactly the body read so far. */
  lemma {:induction false} ScanKeepsText(lines: seq<string>)
    ensures !Scan(lines).failed ==> Code(Scan(lines).emitted) + Scan(lines).pending == Body(lines)
  {
    if lines != [] {
      var init, line := lines[..|lines| - 1], lines[|lines| - 1];
      ScanKeepsText(init);
      var st := Scan(init);
      assert Scan(lines) == Step(st, line);
      if !st.failed {
        if IsMarker(line) {
          assert NonMarkers(lines) == NonMarkers(init);
          var emitted := if st.pending != "" then st.emitted + [Section(st.pending, st.stage)] else st.emitted;
          if st.pending != "" {
            CodeSnoc(st.emitted, Section(st.pending, st.stage));
          }
          assert Code(emitted) == Code(st.emitted) + st.pending;
          if MarkerStage(line).Some? {
            assert Scan(lines) == ScanState(emitted, "", MarkerStage(line).value, false);
            assert Code(emitted) + "" == Code(emitted);
          }
        } else {
          assert NonMarkers(lines) == NonMarkers(init) + [line];
          NewlinePrefixedSnoc(NonMarkers(init), line);
          assert Scan(lines) == ScanState(st.emitted, st.pending + "\n" + line, st.stage, false);
        }
      }
    }
  }

  /** No emitted section is empty: the pending text is emitted at a marker only when it holds something. */
  lemma {:induction false} ScanEmitsNonEmpty(lines: seq<string>)
    ensures forall k :: 0 <= k < |Scan(lines).emitted| ==> Scan(lines).emitted[k].code != ""
  {
    if lines != [] {
      ScanEmitsNonEmpty(lines[..|lines| - 1]);
    }
  }

  /** A marker naming no stage among the lines read is exactly what makes the scan throw. */
  lemma {:induction false} ScanFailsIff(lines: seq<string>)
    ensures Scan(lines).failed <==>
              exists k :: 0 <= k < |lines| && IsMarker(lines[k]) && MarkerStage(lines[k]).None?
  {
    if lines != [] {
      var init := lines[..|lines| - 1];
      ScanFailsIff(init);
      if exists k :: 0 <= k < |init| && IsMarker(init[k]) && MarkerStage(init[k]).None? {
        var k :| 0 <= k < |init| && IsMarker(init[k]) && MarkerStage(init[k]).None?;
        assert lines[k] == init[k];
      } else {
        forall k | 0 <= k < |init| ensures !(IsMarker(lines[k]) && MarkerStage(lines[k]).None?) {
          assert lines[k] == init[k];
        }
      }
    }
  }

  /** A file with no marker line is one section of unknown stage (-1) holding every line. */
  lemma {:induction false} ScanWithoutMarkers(lines: seq<string>)
    requires forall k :: 0 <= k < |lines| ==> !IsMarker(lines[k])
    ensures Scan(lines) == ScanState([], NewlinePrefixed(lines), -1, false)
  {
    if lines != [] {
      var init := lines[..|lines| - 1];
      ScanWithoutMarkers(init);
    }
  }

  /** A run of lines between markers and the stage it is compiled as. */
  datatype Group = Group(stage: int, body: seq<string>)

  /**
   * A reference description of how a file falls apart: the lines before the
   * first marker form a group of unknown stage (-1), and every marker starts a
   * new group of the stage it names; any other line joins the current group.
   * (A marker that names nothing gets -1 here; the splitter throws there.)
   */
  function Groups(lines: seq<string>): (gs: seq<Group>)
    ensures |gs| >= 1 && gs[0].stage == -1
  {
    if lines == [] then [Group(-1, [])]
    else
      var gs, line := Groups(lines[..|lines| - 1]), lines[|lines| - 1];
      if IsMarker(line) then gs + [Group(if MarkerStage(line).Some? then MarkerStage(line).value else -1, [])]
      else gs[..|gs| - 1] + [Group(gs[|gs| - 1].stage, gs[|gs| - 1].body + [line])]
  }

  /** The section a group becomes: its lines, each after a newline, and its stage. */
  function AsSection(g: Group): Section {
    Section(NewlinePrefixed(g.body), g.stage)
  }

  /** The sections of the groups that hold at least one line, in order. */
  function Kept(gs: seq<Group>): seq<Section> {
    if gs == [] then []
    else Kept(gs[..|gs| - 1]) + (if gs[|gs| - 1].body != [] then [AsSection(gs[|gs| - 1])] else [])
  }

  lemma NewlinePrefixedEmpty(lines: seq<string>)
    ensures NewlinePrefixed(lines) == "" <==> lines == []
  {
  }

  /**
   * Before a marker throws, the splitter's variables are the groups read so
   * far: the sections emitted are the non-empty groups but the last, and the
   * pending text and stage are the last group's.
   */
  lemma {:induction false} ScanGroups(lines: seq<string>)
    ensures var st, gs := Scan(lines), Groups(lines);
            !st.failed ==>
              && st.emitted == Kept(gs[..|gs| - 1])
              && st.pending == NewlinePrefixed(gs[|gs| - 1].body)
              && st.stage == gs[|gs| - 1].stage
  {
    if lines != [] {
      var init, line := lines[..|lines| - 1], lines[|lines| - 1];
      ScanGroups(init);
      var st, gs := Scan(init), Groups(init);
      var g := gs[|gs| - 1];
      assert Scan(lines) == Step(st, line);
      if !st.failed {
        if IsMarker(line) {
          assert gs == gs[..|gs| - 1] + [g];
          NewlinePrefixedEmpty(g.body);
          assert Kept(gs) == Kept(gs[..|gs| - 1]) + (if g.body != [] then [AsSection(g)] else []);
          assert Groups(lines)[..|Groups(lines)| - 1] == gs;
        } else {
          var gs' := Groups(lines);
          assert gs' == gs[..|gs| - 1] + [Group(g.stage, g.body + [line])];
          assert gs'[..|gs'| - 1] == gs[..|gs| - 1];
          NewlinePrefixedSnoc(g.body, line);
        }
      }
    }
  }

  /** One more group adds its section when it holds a line. */
  lemma KeptSnoc(gs: seq<Group>, g: Group)
    ensures Kept(gs + [g]) == Kept(gs) + (if g.body != [] then [AsSection(g)] else [])
  {
    assert (gs + [g])[..|gs|] == gs;
  }

  /**
   * When a marker throws, what was attached is the non-empty groups read
   * before that marker, the pending one included.
   */
  lemma SplitShaderFileThrows(lines: seq<string>, j: nat)
    requires j < |lines| && IsMarker(lines[j]) && MarkerStage(lines[j]).None?
    requires forall k :: 0 <= k < j && IsMarker(lines[k]) ==> MarkerStage(lines[k]).Some?
    ensures SplitShaderFile(lines) == SplitResult(Kept(Groups(lines[..j])), false)
  {
    var pre := lines[..j];
    ScanFailsIff(pre);
    assert !Scan(pre).failed by {
      forall k | 0 <= k < |pre| && IsMarker(pre[k]) ensures MarkerStage(pre[k]).Some? {
        assert pre[k] == lines[k];
      }
    }
    ScanGroups(pre);
    ScanSnoc(lines, j);
    var gs := Groups(pre);
    var g := gs[|gs| - 1];
    assert gs == gs[..|gs| - 1] + [g];
    KeptSnoc(gs[..|gs| - 1], g);
    NewlinePrefixedEmpty(g.body);
    ScanFailedStays(lines, j + 1);
  }

  /**
   * The properties of the splitter: when no marker throws, the sections
   * glued together are exactly the non-marker lines, each after a newline;
   * every section but the final one is non-empty; the scan is complete
   * exactly when every marker names something; and then the sections are
   * the groups that hold a line, each with the stage of the marker that
   * opened it (-1 before the first), followed by the last group, always.
   */
  lemma SplitShaderFileSpec(lines: seq<string>)
    ensures var r := SplitShaderFile(lines);
            && (r.complete ==> Code(r.sections) == Body(lines))
            && (forall k :: 0 <= k < |r.sections| && (k < |r.sections| - 1 || !r.complete) ==> r.sections[k].code != "")
            && (r.complete <==> forall k :: 0 <= k < |lines| && IsMarker(lines[k]) ==> MarkerStage(lines[k]).Some?)
            && (r.complete ==> |r.sections| >= 1)
            && (r.complete ==>
                  var gs := Groups(lines);
                  r.sections == Kept(gs[..|gs| - 1]) + [AsSection(gs[|gs| - 1])])
  {
    var st := Scan(lines);
    ScanKeepsText(lines);
    ScanEmitsNonEmpty(lines);
    ScanFailsIff(lines);
    ScanGroups(lines);
    if !st.failed {
      CodeSnoc(st.emitted, Section(st.pending, st.stage));
    }
  }

  /** Without markers the whole file is a single shader of unknown stage. */
  lemma SplitShaderFileWithoutMarkers(lines: seq<string>)
    requires forall k :: 0 <= k < |lines| ==> !IsMarker(lines[k])
    ensures SplitShaderFile(lines) == SplitResult([Section(NewlinePrefixed(lines), -1)], true)
  {
    ScanWithoutMarkers(lines);
  }

  // ---------------------------------------------------------------------------
  // The program object

  /** An attached shader: its GL id, its stage constant and the file it came from. */
  datatype Shader = Shader(id: int, shaderType: int, fileName: string)

  /** The driver's answers: the id glCreateShader hands out for a source and whether it compiles. */
  datatype Driver = Driver(shaderId: (string, int) -> int, compiles: (string, int) -> bool)

  /** The records a program that exists keeps for a list of sections: one per section that compiles, in order. */
  function Accepted(sections: seq<Section>, fileName: string, driver: Driver): seq<Shader> {
    if sections == [] then []
    else
      var s := sections[|sections| - 1];
      Accepted(sections[..|sections| - 1], fileName, driver)
        + (if driver.compiles(s.code, s.stage) then [Shader(driver.shaderId(s.code, s.stage), s.stage, fileName)] else [])
  }

  /** A single section is kept exactly when it compiles. */
  lemma AcceptedOne(s: Section, fileName: string, driver: Driver)
    ensures Accepted([s], fileName, driver)
            == if driver.compiles(s.code, s.stage) then [Shader(driver.shaderId(s.code, s.stage), s.stage, fileName)] else []
  {
    assert [s][..0] == [];
  }

  lemma AcceptedSnoc(sections: seq<Section>, s: Section, fileName: string, driver: Driver)
    ensures Accepted(sections + [s], fileName, driver)
            == Accepted(sections, fileName, driver) + Accepted([s], fileName, driver)
  {
    assert (sections + [s])[..|sections|] == sections;
  }

  /** Every accepted record is the record of a compiling section, and no more records than sections are made. */
  lemma {:induction false} AcceptedFromCompiling(sections: seq<Section>, fileName: string, driver: Driver)
    ensures |Accepted(sections, fileName, driver)| <= |sections|
    ensures forall r :: r in Accepted(sections, fileName, driver) ==>
              exists s :: s in sections && driver.compiles(s.code, s.stage)
                          && r == Shader(driver.shaderId(s.code, s.stage), s.stage, fileName)
  {
    if sections != [] {
      var init := sections[..|sections| - 1];
      AcceptedFromCompiling(init, fileName, driver);
      forall r | r in Accepted(sections, fileName, driver)
        ensures exists s :: s in sections && driver.compiles(s.code, s.stage)
                            && r == Shader(driver.shaderId(s.code, s.stage), s.stage, fileName)
      {
        if r in Accepted(init, fileName, driver) {
          var s :| s in init && driver.compiles(s.code, s.stage)
                   && r == Shader(driver.shaderId(s.code, s.stage), s.stage, fileName);
          assert s in sections;
        } else {
          assert sections[|sections| - 1] in sections;
        }
      }
    }
  }

  /** How glLinkProgram was reached: not at all (already linked), never (no program: the call throws), or with its result. */
  datatype LinkOutcome = AlreadyLinked | NoProgram | LinkFailed | LinkSucceeded

  class ShaderHelper {
    var uniformCache: map<string, int>
    var attachedShaders: seq<Shader>
    /** The program id; None until genProgram. */
    var program: Option<int>
    var linked: bool
    /** How often glLinkProgram has been called. */
    ghost var linkCalls: nat
    /** Every name glGetUniformLocation has been asked for, in order. */
    ghost var queried: seq<string>

    /**
     * Links happen at most once, the cache holds exactly the names asked of
     * the driver, each asked once, and nothing is asked before a program exists.
     */
    ghost predicate Valid()
      reads this
    {
      && linkCalls <= (if linked then 1 else 0)
      && Distinct(queried)
      && (forall n :: n in uniformCache <==> n in queried)
      && (program.None? ==> queried == [])
    }

    constructor()
      ensures Valid()
      ensures uniformCache == map[] && attachedShaders == [] && program == None && !linked
      ensures linkCalls == 0 && queried == []
    {
      uniformCache := map[];
      attachedShaders := [];
      program := None;
      linked := false;
      linkCalls := 0;
      queried := [];
    }

    /** A program exists and its creation did not fail. */
    predicate HasProgram()
      reads this`program
    {
      program.Some? && program.value >= 0
    }

    /** genProgram: creates the program once; later calls keep the first id. */
    method GenProgram(created: int)
      modifies this`program
      ensures old(Valid()) ==> Valid()
      ensures old(program).Some? ==> program == old(program)
      ensures old(program).None? ==> program == Some(created)
    {
      if program.Some? {
        return;
      }
      program := Some(created);
    }

    /**
     * attachShader(String, int, File): with a program that exists and a
     * source that compiles, exactly one record is appended; otherwise none.
     */
    method AttachShader(code: string, shaderType: int, fileName: string, driver: Driver)
      modifies this`attachedShaders
      ensures attachedShaders == old(attachedShaders) + Attached([Section(code, shaderType)], fileName, driver)
    {
      AcceptedOne(Section(code, shaderType), fileName, driver);
      if !HasProgram() {
        return;
      }
      var shader := driver.shaderId(code, shaderType);
      if !driver.compiles(code, shaderType) {
        return;
      }
      attachedShaders := attachedShaders + [Shader(shader, shaderType, fileName)];
    }

    /**
     * attachShader(File): the stage comes from the file name; a file that is
     * not a shader is skipped, and a name of dots alone throws before
     * anything happens. Otherwise the file's lines, each after a newline, are
     * attached as one shader.
     */
    method AttachShaderFile(fileName: string, lines: seq<string>, driver: Driver) returns (thrown: bool)
      modifies this`attachedShaders
      ensures thrown <==> FileShaderType(fileName).None?
      ensures FileShaderType(fileName).None? || FileShaderType(fileName).value < 0 ==>
                attachedShaders == old(attachedShaders)
      ensures FileShaderType(fileName).Some? && FileShaderType(fileName).value >= 0 ==>
                attachedShaders == old(attachedShaders)
                  + Attached([Section(NewlinePrefixed(lines), FileShaderType(fileName).value)], fileName, driver)
    {
      var shaderType := FileShaderType(fileName);
      if shaderType.None? {
        return true;
      }
      if shaderType.value < 0 {
        return false;
      }
      var contents := "";
      var i := 0;
      while i < |lines|
        invariant 0 <= i <= |lines|
        invariant contents == NewlinePrefixed(lines[..i])
        invariant attachedShaders == old(attachedShaders)
      {
        assert NewlinePrefixed(lines[..i + 1]) == contents + "\n" + lines[i] by {
          NewlinePrefixedSnoc(lines[..i], lines[i]);
          assert lines[..i + 1] == lines[..i] + [lines[i]];
        }
        contents := contents + "\n" + lines[i];
        i := i + 1;
      }
      assert lines[..i] == lines;
      AttachShader(contents, shaderType.value, fileName, driver);
      thrown := false;
    }

    /** What the program keeps of a list of sections: the compiling ones when it exists, nothing otherwise. */
    function Attached(sections: seq<Section>, fileName: string, driver: Driver): seq<Shader>
      reads this`program
    {
      if HasProgram() then Accepted(sections, fileName, driver) else []
    }

    /**
     * One pass of attachShaderMulti's loop: a marker attaches the non-empty
     * pending text and reads the next stage (or throws); any other line is
     * added to the pending text. The splitter's new variables are Step's.
     */
    method AttachLine(line: string, pending: string, currentShaderType: int, fileName: string, driver: Driver,
                      ghost emitted: seq<Section>, ghost base: seq<Shader>)
        returns (pending': string, currentShaderType': int, thrown: bool, ghost emitted': seq<Section>)
      requires attachedShaders == base + Attached(emitted, fileName, driver)
      modifies this`attachedShaders
      ensures Step(ScanState(emitted, pending, currentShaderType, false), line)
              == ScanState(emitted', pending', currentShaderType', thrown)
      ensures attachedShaders == base + Attached(emitted', fileName, driver)
    {
      emitted' := emitted;
      if StartsWith(line, MARKER) {
        if pending != "" {
          AttachShader(pending, currentShaderType, fileName, driver);
          AcceptedSnoc(emitted, Section(pending, currentShaderType), fileName, driver);
          emitted' := emitted + [Section(pending, currentShaderType)];
        }
        var stage := MarkerStage(line);
        if stage.None? {
          return pending, currentShaderType, true, emitted';
        }
        return "", stage.value, false, emitted';
      }
      return pending + "\n" + line, currentShaderType, false, emitted';
    }

    /**
     * attachShaderMulti, after the file has been read into lines: attaches
     * the sections of SplitShaderFile in order, and reports whether it got to
     * the end (a marker naming no stage throws after emitting what was pending).
     */
    method AttachShaderMulti(lines: seq<string>, fileName: string, driver: Driver) returns (complete: bool)
      modifies this`attachedShaders
      ensures complete == SplitShaderFile(lines).complete
      ensures attachedShaders == old(attachedShaders) + Attached(SplitShaderFile(lines).sections, fileName, driver)
    {
      var currentShaderType := -1;
      var pending := "";
      ghost var emitted: seq<Section> := [];
      var i := 0;
      while i < |lines|
        invariant 0 <= i <= |lines|
        invariant Scan(lines[..i]) == ScanState(emitted, pending, currentShaderType, false)
        invariant attachedShaders == old(attachedShaders) + Attached(emitted, fileName, driver)
      {
        ScanSnoc(lines, i);
        var thrown;
        pending, currentShaderType, thrown, emitted :=
          AttachLine(lines[i], pending, currentShaderType, fileName, driver, emitted, old(attachedShaders));
        if thrown {
          ScanFailedStays(lines, i + 1);
          return false;
        }
        i := i + 1;
      }
      assert lines[..i] == lines;
      AttachShader(pending, currentShaderType, fileName, driver);
      AcceptedSnoc(emitted, Section(pending, currentShaderType), fileName, driver);
      complete := true;
    }

    /**
     * linkProgram: marks the program linked before linking, so the link is
     * attempted at most once whatever its result. With no program the call
     * throws after the mark.
     */
    method LinkProgram(linkSucceeds: bool) returns (outcome: LinkOutcome)
      requires Valid()
      modifies this`linked, this`linkCalls
      ensures Valid() && linked
      ensures old(linked) ==> outcome == AlreadyLinked && linkCalls == old(linkCalls)
      ensures !old(linked) && program.None? ==> outcome == NoProgram && linkCalls == old(linkCalls)
      ensures !old(linked) && program.Some? ==>
                linkCalls == old(linkCalls) + 1 && outcome == (if linkSucceeds then LinkSucceeded else LinkFailed)
    {
      if linked {
        return AlreadyLinked;
      }
      linked := true;
      if program.None? {
        return NoProgram;
      }
      linkCalls := linkCalls + 1;
      outcome := if linkSucceeds then LinkSucceeded else LinkFailed;
    }

    /**
     * getUniformLocation: -1 before linking; otherwise the cached location,
     * asking the driver (whose answer is `driverLocation`) only for a name
     * not asked before. Linked without a program (linkProgram threw after
     * setting the flag), asking the driver unboxes the missing program and
     * throws, leaving the cache as it was.
     */
    method GetUniformLocation(name: string, driverLocation: int) returns (location: int, thrown: bool)
      requires Valid()
      modifies this`uniformCache, this`queried
      ensures Valid()
      ensures thrown <==> linked && name !in old(uniformCache) && program.None?
      ensures thrown ==> uniformCache == old(uniformCache) && queried == old(queried)
      ensures !linked ==> location == -1 && uniformCache == old(uniformCache) && queried == old(queried)
      ensures linked && name in old(uniformCache) ==>
                location == old(uniformCache)[name] && uniformCache == old(uniformCache) && queried == old(queried)
      ensures linked && name !in old(uniformCache) && program.Some? ==>
                location == driverLocation && uniformCache == old(uniformCache)[name := driverLocation]
                && queried == old(queried) + [name]
    {
      if !linked {
        return -1, false;
      }
      if name !in uniformCache {
        if program.None? {
          return -1, true;
        }
        uniformCache := uniformCache[name := driverLocation];
        queried := queried + [name];
      }
      location, thrown := uniformCache[name], false;
    }

    /**
     * uniformMatrix4f: a matrix without exactly 16 entries is rejected;
     * otherwise the location it is sent to, unless the lookup throws.
     */
    method UniformMatrix4f(name: string, matrix: seq<real>, driverLocation: int) returns (sentTo: Option<int>, thrown: bool)
      requires Valid()
      modifies this`uniformCache, this`queried
      ensures Valid()
      ensures |matrix| != 16 ==> sentTo == None && !thrown && uniformCache == old(uniformCache) && queried == old(queried)
      ensures thrown <==> |matrix| == 16 && linked && name !in old(uniformCache) && program.None?
      ensures thrown ==> sentTo == None && uniformCache == old(uniformCache) && queried == old(queried)
      ensures |matrix| == 16 && !linked ==> sentTo == Some(-1) && uniformCache == old(uniformCache)
      ensures |matrix| == 16 && linked && !thrown ==>
                && uniformCache == old(uniformCache)[name := if name in old(uniformCache) then old(uniformCache)[name] else driverLocation]
                && sentTo == Some(uniformCache[name])
    {
      if |matrix| != 4 * 4 {
        return None, false;
      }
      var location;
      location, thrown := GetUniformLocation(name, driverLocation);
      sentTo := if thrown then None else Some(location);
    }
  }
}
