/**
 * TextRenderer and its nested TextObject: each text object caches its own
 * strip behind `hasChanged`, and the renderer caches the concatenation of the
 * strips behind `hasBeenModified`. Every setter that really changes a text
 * object marks both levels dirty, so a clean renderer always holds the strips
 * of its current objects.
 *
 * The font registry is a map from font id to glyph map and Constants.EPSILON
 * is a parameter; the GPU side (vertex array, vertex buffer, draw call) is
 * reduced to the strip last uploaded and whether a draw call is issued.
 */
module TextRendering {
  import opened Strips
  import opened TextLayout
  import opened Seqs

  /** A position; only its identity and its coordinates matter here. */
  class Vec2 {
    const x: real
    const y: real

    constructor (x: real, y: real)
      ensures this.x == x && this.y == y
    {
      this.x := x;
      this.y := y;
    }
  }

  /** The font registry: loaded fonts by id. */
  type Fonts = map<int, Font>

  /** The registry has a usable font under this id. */
  predicate FontLoaded(fonts: Fonts, id: int) {
    id in fonts && FontReady(fonts[id])
  }

  /** What a text object's strip is built from: its string, its font id and its style. */
  datatype TextSpec = TextSpec(str: string, fontId: int, style: Style)

  /** The strip buildStrip lays out for these fields. */
  function Built(fonts: Fonts, t: TextSpec): Runs
    requires FontLoaded(fonts, t.fontId)
  {
    Layout(fonts[t.fontId], t.str, t.style)
  }

  /** One step of buildStrip's inner loop, with the glyph looked up (or substituted by '0') as the loop does. */
  lemma PlaceCharWith(font: Font, scale: real, px: real, lineY: real, runs: Runs, accX: int, c: char, glyph: Glyph)
    requires FallbackChar in font
    requires glyph == (if c in font then font[c] else font[FallbackChar])
    ensures var size := ScaledSize(glyph, scale);
            var q := Quad(px + accX as real, lineY, size.x, size.y, glyph);
            PlaceChar(Measure(font, scale), px, lineY, LineCursor(runs, accX), c)
            == LineCursor(if accX == 0 then PushSeparatedQuad(runs, q) else PushQuad(runs, q), accX + Trunc(size.x))
  {
    var size := ScaledSize(glyph, scale);
    assert Measure(font, scale)(c) == Metrics(glyph, size.x, size.y, Trunc(size.x));
  }

  class TextObject {
    var parent: TextRenderer?
    var scale: real
    var ySpacing: int
    var loadedFontId: int
    var str: string
    var pos: Vec2
    /** The strip builder's contents: the vertices of the last rebuild. */
    var strip: Runs
    var hasChanged: bool

    /** A new object has no parent, the default scale 1 and spacing 5, and is dirty. */
    constructor (loadedFontId: int, s: string, pos: Vec2)
      ensures this.loadedFontId == loadedFontId && str == s && this.pos == pos
      ensures scale == 1.0 && ySpacing == 5
      ensures parent == null && hasChanged && strip == []
    {
      this.loadedFontId := loadedFontId;
      str := s;
      this.pos := pos;
      scale := 1.0;
      ySpacing := 5;
      parent := null;
      strip := [];
      hasChanged := true;
    }

    constructor WithStyle(loadedFontId: int, s: string, pos: Vec2, scale: real, ySpacing: int)
      ensures this.loadedFontId == loadedFontId && str == s && this.pos == pos
      ensures this.scale == scale && this.ySpacing == ySpacing
      ensures parent == null && hasChanged && strip == []
    {
      this.loadedFontId := loadedFontId;
      str := s;
      this.pos := pos;
      this.scale := scale;
      this.ySpacing := ySpacing;
      parent := null;
      strip := [];
      hasChanged := true;
    }

    function CurrentStyle(): Style
      reads this`pos, this`scale, this`ySpacing
    {
      Style(pos.x, pos.y, scale, ySpacing)
    }

    /** The renderer that a change must mark, if any. */
    function ParentSet(): set<TextRenderer>
      reads this
    {
      if parent == null then {} else {parent}
    }

    /** The fields the strip is built from. */
    function Spec(): TextSpec
      reads this`str, this`loadedFontId, this`pos, this`scale, this`ySpacing
    {
      TextSpec(str, loadedFontId, CurrentStyle())
    }

    /** A clean object's strip is the layout of its current fields. */
    ghost predicate CacheValid(fonts: Fonts)
      reads this`hasChanged, this`strip, this`str, this`loadedFontId, this`pos, this`scale, this`ySpacing
    {
      !hasChanged ==> FontLoaded(fonts, loadedFontId) && strip == Built(fonts, Spec())
    }

    method AddParent(p: TextRenderer)
      requires parent == null
      modifies this`parent
      ensures parent == p
    {
      parent := p;
    }

    method RemoveParent()
      requires parent != null
      modifies this`parent
      ensures parent == null
    {
      parent := null;
    }

    /**
     * The inner loop of buildStrip: pushes one quad per character of line,
     * separated while accumulatedX is 0 and continuing the run afterwards, and
     * returns the final accumulatedX.
     */
    method PushLine(font: Font, scale: real, px: real, lineY: real, line: string) returns (accumulatedX: int)
      requires FallbackChar in font
      modifies this`strip
      ensures LineCursor(strip, accumulatedX) == LayoutChars(Measure(font, scale), px, lineY, old(strip), line)
    {
      ghost var m := Measure(font, scale);
      ghost var runs0 := strip;
      accumulatedX := 0;
      var j := 0;
      while j < |line|
        invariant 0 <= j <= |line|
        invariant LineCursor(strip, accumulatedX) == LayoutChars(m, px, lineY, runs0, line[..j])
      {
        LayoutCharsSnoc(m, px, lineY, runs0, line, j);
        var c := line[j];
        if c !in font {
          c := FallbackChar;
        }
        var glyph := font[c];
        PlaceCharWith(font, scale, px, lineY, strip, accumulatedX, line[j], glyph);
        var size := ScaledSize(glyph, scale);
        var quad := Quad(px + accumulatedX as real, lineY, size.x, size.y, glyph);
        if accumulatedX == 0 {
          strip := PushSeparatedQuad(strip, quad);
        } else {
          strip := PushQuad(strip, quad);
        }
        accumulatedX := accumulatedX + Trunc(size.x);
        j := j + 1;
      }
      assert line[..j] == line;
    }

    /**
     * Returns the cached strip when nothing changed since the last rebuild;
     * otherwise lays the string out again with the font the id names. A
     * rebuild yields the layout of the current fields, and so does the cache
     * while CacheValid holds.
     */
    method BuildStrip(fonts: Fonts) returns (verts: Runs)
      requires hasChanged ==> FontLoaded(fonts, loadedFontId)
      modifies this`strip, this`hasChanged
      ensures verts == strip && !hasChanged
      ensures !old(hasChanged) ==> strip == old(strip)
      ensures old(hasChanged) ==> FontLoaded(fonts, loadedFontId) && verts == Built(fonts, Spec())
      ensures old(CacheValid(fonts)) ==> CacheValid(fonts) && verts == Built(fonts, Spec())
    {
      if !hasChanged {
        return strip;
      }
      strip := [];
      var font := fonts[loadedFontId];
      var px, py, sc, spacing := pos.x, pos.y, scale, ySpacing;
      var genericHeight := GenericHeight(font, sc);
      ghost var m := Measure(font, sc);
      ghost var step := LineStep(font, CurrentStyle());
      assert step == genericHeight + spacing;
      var lines := Lines(str);
      var accumulatedY := 0;
      var i := 0;
      while i < |lines|
        invariant 0 <= i <= |lines|
        invariant TextCursor(strip, accumulatedY) == LayoutLines(m, px, py, step, lines[..i])
      {
        LayoutLinesSnoc(m, px, py, step, lines, i);
        var line := lines[i];
        if line == [] {
          PlaceEmptyLine(m, px, py, step, strip, accumulatedY);
          accumulatedY := accumulatedY + genericHeight + spacing;
          i := i + 1;
          continue;
        }
        var lineY := py + accumulatedY as real;
        ghost var runs0 := strip;
        var accumulatedX := PushLine(font, sc, px, lineY, line);
        PlaceTextLine(m, px, py, step, runs0, accumulatedY, line, lineY, LineCursor(strip, accumulatedX));
        accumulatedY := accumulatedY + genericHeight + spacing;
        i := i + 1;
      }
      assert lines[..i] == lines;
      hasChanged := false;
      verts := strip;
    }

    /** Setting a different string marks this object and its renderer dirty; the same string changes nothing. */
    method SetString(newString: string, ghost fonts: Fonts, ghost epsilon: real)
      modifies this`str, this`hasChanged, ParentSet()`hasBeenModified
      ensures str == newString
      ensures hasChanged == (old(hasChanged) || newString != old(str))
      ensures parent != null ==> parent.hasBeenModified == (old(parent.hasBeenModified) || newString != old(str))
      ensures old(CacheValid(fonts)) ==> CacheValid(fonts)
      ensures parent != null && old(parent.Fresh(fonts, epsilon)) ==> parent.Fresh(fonts, epsilon)
    {
      if newString != str {
        str := newString;
        hasChanged := true;
        if parent != null {
          parent.hasBeenModified := true;
        }
      }
    }

    /** Positions are compared by identity: a different Vec2 object marks dirty even with equal coordinates. */
    method SetPos(newPos: Vec2, ghost fonts: Fonts, ghost epsilon: real)
      modifies this`pos, this`hasChanged, ParentSet()`hasBeenModified
      ensures pos == newPos
      ensures hasChanged == (old(hasChanged) || newPos != old(pos))
      ensures parent != null ==> parent.hasBeenModified == (old(parent.hasBeenModified) || newPos != old(pos))
      ensures old(CacheValid(fonts)) ==> CacheValid(fonts)
      ensures parent != null && old(parent.Fresh(fonts, epsilon)) ==> parent.Fresh(fonts, epsilon)
    {
      if newPos != pos {
        pos := newPos;
        hasChanged := true;
        if parent != null {
          parent.hasBeenModified := true;
        }
      }
    }

    method SetFontId(newFontId: int, ghost fonts: Fonts, ghost epsilon: real)
      modifies this`loadedFontId, this`hasChanged, ParentSet()`hasBeenModified
      ensures loadedFontId == newFontId
      ensures hasChanged == (old(hasChanged) || newFontId != old(loadedFontId))
      ensures parent != null ==> parent.hasBeenModified == (old(parent.hasBeenModified) || newFontId != old(loadedFontId))
      ensures old(CacheValid(fonts)) ==> CacheValid(fonts)
      ensures parent != null && old(parent.Fresh(fonts, epsilon)) ==> parent.Fresh(fonts, epsilon)
    {
      if newFontId != loadedFontId {
        loadedFontId := newFontId;
        hasChanged := true;
        if parent != null {
          parent.hasBeenModified := true;
        }
      }
    }

    method SetScale(newScale: real, ghost fonts: Fonts, ghost epsilon: real)
      modifies this`scale, this`hasChanged, ParentSet()`hasBeenModified
      ensures scale == newScale
      ensures hasChanged == (old(hasChanged) || newScale != old(scale))
      ensures parent != null ==> parent.hasBeenModified == (old(parent.hasBeenModified) || newScale != old(scale))
      ensures old(CacheValid(fonts)) ==> CacheValid(fonts)
      ensures parent != null && old(parent.Fresh(fonts, epsilon)) ==> parent.Fresh(fonts, epsilon)
    {
      if newScale != scale {
        scale := newScale;
        hasChanged := true;
        if parent != null {
          parent.hasBeenModified := true;
        }
      }
    }

    method SetYSpacing(newYSpacing: int, ghost fonts: Fonts, ghost epsilon: real)
      modifies this`ySpacing, this`hasChanged, ParentSet()`hasBeenModified
      ensures ySpacing == newYSpacing
      ensures hasChanged == (old(hasChanged) || newYSpacing != old(ySpacing))
      ensures parent != null ==> parent.hasBeenModified == (old(parent.hasBeenModified) || newYSpacing != old(ySpacing))
      ensures old(CacheValid(fonts)) ==> CacheValid(fonts)
      ensures parent != null && old(parent.Fresh(fonts, epsilon)) ==> parent.Fresh(fonts, epsilon)
    {
      if newYSpacing != ySpacing {
        ySpacing := newYSpacing;
        hasChanged := true;
        if parent != null {
          parent.hasBeenModified := true;
        }
      }
    }
  }

  /** Objects with an empty string or a scale below epsilon are skipped. */
  predicate Eligible(t: TextSpec, epsilon: real) {
    t.str != [] && !(t.style.scale < epsilon)
  }

  /** The build inputs of every listed object, in list order. */
  ghost function Specs(objs: seq<TextObject>): (r: seq<TextSpec>)
    reads objs
    ensures |r| == |objs|
  {
    seq(|objs|, k requires 0 <= k < |objs| reads objs => objs[k].Spec())
  }

  /** Every object that would be built has its font loaded. */
  predicate AllReady(fonts: Fonts, epsilon: real, specs: seq<TextSpec>) {
    forall k :: 0 <= k < |specs| && Eligible(specs[k], epsilon) ==> FontLoaded(fonts, specs[k].fontId)
  }

  /** What buildBuffer assembles: the strips of the eligible objects, in list order, each appended as separated runs. */
  function Aggregate(fonts: Fonts, epsilon: real, specs: seq<TextSpec>): Runs
    requires AllReady(fonts, epsilon, specs)
  {
    if specs == [] then []
    else
      var t := specs[|specs| - 1];
      var init := Aggregate(fonts, epsilon, specs[..|specs| - 1]);
      if Eligible(t, epsilon) then PushRawSeparatedVertices(init, Built(fonts, t)) else init
  }

  /** One more object of the list is one more step of buildBuffer's loop. */
  lemma AggregateSnoc(fonts: Fonts, epsilon: real, specs: seq<TextSpec>, i: nat)
    requires i < |specs| && AllReady(fonts, epsilon, specs)
    ensures AllReady(fonts, epsilon, specs[..i]) && AllReady(fonts, epsilon, specs[..i + 1])
    ensures Aggregate(fonts, epsilon, specs[..i + 1])
            == if Eligible(specs[i], epsilon)
               then PushRawSeparatedVertices(Aggregate(fonts, epsilon, specs[..i]), Built(fonts, specs[i]))
               else Aggregate(fonts, epsilon, specs[..i])
  {
    assert specs[..i + 1][..i] == specs[..i];
  }

  /** Some line of string.split("\n") is non-empty. */
  predicate HasVisibleLine(str: string) {
    exists i :: 0 <= i < |Lines(str)| && Lines(str)[i] != []
  }

  /** The object is drawn something: it is not skipped and has a non-empty line. */
  predicate Visible(t: TextSpec, epsilon: real) {
    Eligible(t, epsilon) && HasVisibleLine(t.str)
  }

  /**
   * The assembled strip holds a quad exactly when some eligible object has a
   * non-empty line.
   */
  lemma {:induction false} AggregateQuads(fonts: Fonts, epsilon: real, specs: seq<TextSpec>)
    requires AllReady(fonts, epsilon, specs)
    ensures QuadCount(Aggregate(fonts, epsilon, specs)) > 0 <==> exists k :: 0 <= k < |specs| && Visible(specs[k], epsilon)
    decreases |specs|
  {
    if specs != [] {
      var n := |specs|;
      var t := specs[n - 1];
      var init := specs[..n - 1];
      AggregateQuads(fonts, epsilon, init);
      if Eligible(t, epsilon) {
        LayoutEmptyIff(fonts[t.fontId], t.str, t.style);
        EmptyIffNoQuads(Built(fonts, t));
      }
      if exists k :: 0 <= k < n - 1 && Visible(init[k], epsilon) {
        var k :| 0 <= k < n - 1 && Visible(init[k], epsilon);
        assert specs[k] == init[k];
      }
      if exists k :: 0 <= k < n && Visible(specs[k], epsilon) {
        var k :| 0 <= k < n && Visible(specs[k], epsilon);
        if k < n - 1 {
          assert init[k] == specs[k];
        }
      }
    }
  }

  class TextRenderer {
    var textObjects: seq<TextObject>
    /** The renderer's strip builder. */
    var aggregate: Runs
    /** What the vertex buffer last received. */
    ghost var uploaded: Runs
    /** How often the vertex buffer has been filled. */
    ghost var uploads: nat
    var hasBeenModified: bool

    /** A renderer after setupBufferObjects: no objects, an empty strip, clean. */
    constructor ()
      ensures textObjects == [] && aggregate == [] && uploaded == [] && uploads == 0 && !hasBeenModified
    {
      textObjects := [];
      aggregate := [];
      uploaded := [];
      uploads := 0;
      hasBeenModified := false;
    }

    /** Single ownership: every listed object names this renderer as its parent, and none is listed twice. */
    ghost predicate Valid()
      reads this, textObjects`parent
    {
      Distinct(textObjects) && forall k :: 0 <= k < |textObjects| ==> textObjects[k].parent == this
    }

    /** A clean renderer's strip is the concatenation of its objects' current strips, and it is what the buffer holds. */
    ghost predicate Fresh(fonts: Fonts, epsilon: real)
      reads this, textObjects
    {
      !hasBeenModified ==>
        && AllReady(fonts, epsilon, Specs(textObjects))
        && aggregate == Aggregate(fonts, epsilon, Specs(textObjects))
        && uploaded == aggregate
    }

    method PushTextObject(to: TextObject)
      requires to.parent == null
      requires Valid()
      modifies this`textObjects, this`hasBeenModified, to`parent
      ensures to.parent == this
      ensures textObjects == old(textObjects) + [to]
      ensures hasBeenModified
      ensures Valid()
    {
      to.AddParent(this);
      textObjects := textObjects + [to];
      hasBeenModified := true;
    }

    /**
     * Unparents the object and drops its first occurrence from the list. An
     * object owned by another renderer is unparented all the same and this
     * list is left as it was.
     */
    method RemoveTextObject(to: TextObject)
      requires to.parent != null
      requires Valid()
      modifies this`textObjects, this`hasBeenModified, to`parent
      ensures to.parent == null
      ensures textObjects == RemoveFirst(old(textObjects), to)
      ensures old(to.parent) != this ==> textObjects == old(textObjects)
      ensures to !in textObjects
      ensures hasBeenModified
      ensures Valid()
    {
      ghost var before := textObjects;
      to.RemoveParent();
      textObjects := RemoveFirst(textObjects, to);
      hasBeenModified := true;
      RemoveFirstDistinct(before, to);
      assert to !in before ==> textObjects == before by { RemoveFirstAt(before, to); }
      forall k | 0 <= k < |textObjects| ensures textObjects[k].parent == this {
        assert textObjects[k] in before && textObjects[k] != to;
      }
    }

    /** Unparents every listed object, then empties the list. */
    method ClearAllTextObjects()
      requires Valid()
      modifies this`textObjects, this`hasBeenModified, textObjects`parent
      ensures forall o :: o in old(textObjects) ==> o.parent == null
      ensures textObjects == []
      ensures hasBeenModified
      ensures Valid()
    {
      var i := 0;
      while i < |textObjects|
        invariant 0 <= i <= |textObjects|
        invariant forall k :: 0 <= k < i ==> textObjects[k].parent == null
        invariant forall k :: i <= k < |textObjects| ==> textObjects[k].parent == this
        modifies textObjects`parent
      {
        textObjects[i].RemoveParent();
        i := i + 1;
      }
      textObjects := [];
      hasBeenModified := true;
    }

    /**
     * Rebuilds the strip from the objects: skipped objects are not touched,
     * the others are rebuilt if dirty and appended in list order; the result
     * is uploaded and the renderer is clean.
     */
    method BuildBuffer(fonts: Fonts, epsilon: real)
      requires AllReady(fonts, epsilon, Specs(textObjects))
      requires forall k :: 0 <= k < |textObjects| ==> textObjects[k].CacheValid(fonts)
      modifies this`aggregate, this`uploaded, this`uploads, this`hasBeenModified, textObjects`strip, textObjects`hasChanged
      ensures Specs(textObjects) == old(Specs(textObjects))
      ensures aggregate == Aggregate(fonts, epsilon, Specs(textObjects))
      ensures uploaded == aggregate && uploads == old(uploads) + 1 && !hasBeenModified
      ensures forall k :: 0 <= k < |textObjects| ==> textObjects[k].CacheValid(fonts)
    {
      ghost var specs := Specs(textObjects);
      aggregate := [];
      var i := 0;
      while i < |textObjects|
        invariant 0 <= i <= |textObjects|
        invariant Specs(textObjects) == specs
        invariant aggregate == Aggregate(fonts, epsilon, specs[..i])
        invariant forall k :: 0 <= k < |textObjects| ==> textObjects[k].CacheValid(fonts)
        invariant uploads == old(uploads)
      {
        AppendObject(fonts, epsilon, textObjects, i, specs);
        i := i + 1;
      }
      assert specs[..i] == specs;
      uploaded := aggregate;
      uploads := uploads + 1;
      hasBeenModified := false;
    }

    /**
     * The body of buildBuffer's loop for the object at index i: skipped when
     * its string is empty or its scale is below epsilon, otherwise rebuilt if
     * dirty and appended to the strip as separated runs.
     */
    method AppendObject(fonts: Fonts, epsilon: real, objs: seq<TextObject>, i: nat, ghost specs: seq<TextSpec>)
      requires i < |objs| && Specs(objs) == specs && AllReady(fonts, epsilon, specs)
      requires aggregate == Aggregate(fonts, epsilon, specs[..i])
      requires forall k :: 0 <= k < |objs| ==> objs[k].CacheValid(fonts)
      modifies this`aggregate, {objs[i]}`strip, {objs[i]}`hasChanged
      ensures Specs(objs) == specs
      ensures aggregate == Aggregate(fonts, epsilon, specs[..i + 1])
      ensures forall k :: 0 <= k < |objs| ==> objs[k].CacheValid(fonts)
      ensures !Eligible(specs[i], epsilon) ==> unchanged(objs[i])
      ensures Eligible(specs[i], epsilon) ==>
                FontLoaded(fonts, specs[i].fontId) && !objs[i].hasChanged && objs[i].strip == Built(fonts, specs[i])
    {
      AggregateSnoc(fonts, epsilon, specs, i);
      var to := objs[i];
      if to.str == [] || to.scale < epsilon {
        return;
      }
      label BeforeBuild:
      var verts := to.BuildStrip(fonts);
      forall k | 0 <= k < |objs|
        ensures Specs(objs)[k] == specs[k]
      {
        assert objs[k].Spec() == old@BeforeBuild(objs[k].Spec());
      }
      forall k | 0 <= k < |objs| && objs[k] != to
        ensures objs[k].CacheValid(fonts)
      {
        assert old@BeforeBuild(objs[k].CacheValid(fonts));
      }
      aggregate := PushRawSeparatedVertices(aggregate, verts);
    }

    /**
     * Rebuilds and re-uploads only when modified, exactly once then; a
     * clean renderer leaves the buffer alone. Afterwards the buffer holds the
     * concatenation of the objects' strips, and a draw call is issued exactly
     * when it holds a quad, that is when some eligible object has a non-empty
     * line.
     */
    method Draw(fonts: Fonts, epsilon: real) returns (drawn: bool)
      requires Fresh(fonts, epsilon)
      requires AllReady(fonts, epsilon, Specs(textObjects))
      requires forall k :: 0 <= k < |textObjects| ==> textObjects[k].CacheValid(fonts)
      modifies this`aggregate, this`uploaded, this`uploads, this`hasBeenModified, textObjects`strip, textObjects`hasChanged
      ensures !hasBeenModified && Fresh(fonts, epsilon)
      ensures aggregate == Aggregate(fonts, epsilon, Specs(textObjects))
      ensures uploaded == aggregate
      ensures !old(hasBeenModified) ==>
                && aggregate == old(aggregate) && uploaded == old(uploaded) && uploads == old(uploads)
                && unchanged(textObjects`strip, textObjects`hasChanged)
      ensures old(hasBeenModified) ==> uploads == old(uploads) + 1
      ensures forall k :: 0 <= k < |textObjects| ==> textObjects[k].CacheValid(fonts)
      ensures drawn <==> QuadCount(aggregate) > 0
      ensures drawn <==> exists k :: 0 <= k < |textObjects| && Visible(textObjects[k].Spec(), epsilon)
    {
      if hasBeenModified {
        BuildBuffer(fonts, epsilon);
      }
      AggregateQuads(fonts, epsilon, Specs(textObjects));
      forall k | 0 <= k < |textObjects| ensures Specs(textObjects)[k] == textObjects[k].Spec() { }
      drawn := QuadCount(aggregate) > 0;
    }
  }
}
