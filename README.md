# java-lwjgl-boilerplate rendering core, modelled in Dafny

This project models the parts of the boilerplate's rendering layer that are
logic, not OpenGL calls, and proves what they promise.

- **Text renderer** (`TextRenderer` and its nested `TextObject`):
  - Each text object caches the triangle strip of its string behind `hasChanged`.
  - The renderer caches the concatenation of those strips behind `hasBeenModified`.
  - Every setter that really changes a field marks both levels dirty.
  - `buildStrip` lays a string out line by line, with integer cursors `accumulatedX` and `accumulatedY`.
- **Shader helper** (`ShaderHelper`):
  - The mapping between stage names and GL constants.
  - Reading a file's stage from its extension.
  - The splitter that cuts a multi-shader file at `//---` marker lines.
  - The program bookkeeping: the program is generated once and linked once, and uniform locations are cached.
- **Texture** (`Texture`):
  - The loop that repacks ARGB ints into the RGBA byte buffer that is uploaded.
  - The sorted list of bound texture slots that `bind` keeps and sends to the shader.

The modules are:

- `Wrappers`: the `Option` type.
- `JavaStrings`: `String.split` with a literal pattern, `startsWith`, `replace(" ", "")`, and an ASCII `toLowerCase`.
- `Strips`: the strip builder seen as runs of quads.
- `TextLayout`: what `buildStrip` computes, plus an independent reference description of the same geometry.
- `Seqs`: `ArrayList.remove(Object)`.
- `TextRendering`: the classes `Vec2`, `TextObject` and `TextRenderer`.
- `Shaders`: the shader helper.
- `Textures`: the repacking and the slot bookkeeping.

Things the model does not see are passed in as parameters:

- The font registry is a map from font id to glyph map.
- `Constants.EPSILON` is the parameter `epsilon`.
- GL results are passed in: shader ids, compile and link status, the program id and uniform locations.

The model keeps two edge cases of the code:

- `string.split("\n")` drops trailing empty lines, so they do not advance `accumulatedY`.
- A marker line whose stage name is empty throws.

## Model

| member | source | states |
|---|---|---|
| JavaStrings.Split | src/rendering/text/TextRenderer.java:58 | `String.split` with a literal pattern and limit 0; its meaning is given by SplitSpec, SplitAllJoin and DropTrailingEmptySpec |
| JavaStrings.SplitAll | src/rendering/text/TextRenderer.java:58 | cutting at every occurrence of the pattern gives at least one piece |
| JavaStrings.SplitAllJoin | src/rendering/text/TextRenderer.java:58 | gluing the pieces back with the pattern between them gives the original string |
| JavaStrings.SplitSpec | src/rendering/text/TextRenderer.java:58 | `split` keeps a prefix of all the pieces and drops only trailing empty ones; with no match it returns the string itself |
| JavaStrings.SplitOnCharHasNoDelimiter | src/rendering/text/TextRenderer.java:58 | no line of `split("\n")` contains a newline |
| JavaStrings.DropTrailingEmptySpec | src/rendering/text/TextRenderer.java:58 | what is dropped is a suffix of empty strings, and the result does not end in one |
| JavaStrings.SplitAllSuffix | src/rendering/ShaderHelper.java:175-176 | appending `.ext`, where ext has no dot, adds exactly ext as the last piece |
| JavaStrings.RemoveSpaces | src/rendering/ShaderHelper.java:94 | the result has no space, and every other character occurs in it as often as in the input; a one-character string is dropped when it is a space and kept otherwise |
| JavaStrings.RemoveSpacesAppend | src/rendering/ShaderHelper.java:94 | removing spaces works piece by piece, so with the one-character case the characters that stay keep their order |
| JavaStrings.Lower | src/rendering/ShaderHelper.java:94 | the length is kept, no ASCII capital is left, each capital becomes its small letter, and every other character stays where it was |
| JavaStrings.LowerIdempotent | src/rendering/ShaderHelper.java:94 | lower-casing twice is lower-casing once, and a string is left alone exactly when it has no capital |
| JavaStrings.SplitAllNoMatch | src/rendering/ShaderHelper.java:95 | a string in which the pattern does not occur is not cut |
| JavaStrings.SplitAllOfDelimiters | src/rendering/ShaderHelper.java:175 | a string of n dots splits into n + 1 empty pieces |
| JavaStrings.DropTrailingEmptyAllEmpty | src/rendering/ShaderHelper.java:175 | when every piece is empty, `split` returns no piece at all |
| Strips.PushSeparatedQuad | src/rendering/text/TextRenderer.java:79 | the quad is appended to the strip's quads and starts a run of its own |
| Strips.PushQuad | src/rendering/text/TextRenderer.java:80 | the quad is appended to the strip's quads and continues the last run (or starts one when there is none) |
| Strips.PushRawSeparatedVertices | src/rendering/text/TextRenderer.java:164 | the old runs are kept as they were and the appended strip's runs follow them unchanged, so its first run is separated from the last old one; the quads follow the existing ones, and no run becomes empty |
| Strips.EmptyIffNoQuads | src/rendering/text/TextRenderer.java:175 | a strip without empty runs is empty exactly when it holds no quad, so a float count > 0 means a quad |
| TextLayout.Trunc | src/rendering/text/TextRenderer.java:82 | the `(int)` cast truncates toward zero |
| TextLayout.LookupGlyph | src/rendering/text/TextRenderer.java:68-73 | a character in the font is drawn with its own glyph; a missing one, and only a missing one, with the `'0'` glyph |
| TextLayout.PlaceChar | src/rendering/text/TextRenderer.java:75-82 | one quad is pushed at `(pos.x + accumulatedX, lineY)`; it is separated (a new run) exactly when accumulatedX is 0 |
| TextLayout.LayoutChars | src/rendering/text/TextRenderer.java:66-83 | buildStrip's inner loop over the characters of one line; LayoutCharsQuads and WideLayoutChars give its meaning |
| TextLayout.LayoutLines | src/rendering/text/TextRenderer.java:57-85 | buildStrip's outer loop over the split lines; LayoutLinesQuads, LayoutLinesAccY, WideLayoutLines and LayoutLinesNoEmptyRun give its meaning |
| TextLayout.Layout | src/rendering/text/TextRenderer.java:54-85 | the strip buildStrip rebuilds from a string, a font and a style; LayoutQuads, WideLayout and LayoutEmptyIff give its meaning |
| TextLayout.LayoutCharsQuads | src/rendering/text/TextRenderer.java:66-83 | walking a line appends exactly that line's quads in order, and accumulatedX ends at the line's width |
| TextLayout.LayoutLinesQuads | src/rendering/text/TextRenderer.java:57-85 | the rebuilt strip holds every line's quads at that line's top, and every line (empty or not) moves accumulatedY by one step |
| TextLayout.LayoutLinesAccY | src/rendering/text/TextRenderer.java:57-85 | after the outer loop accumulatedY is the sum of one step per line, empty lines included |
| TextLayout.LineOffsetIsProduct | src/rendering/text/TextRenderer.java:60-84 | line i lies i * (genericHeight + ySpacing) below the first |
| TextLayout.WideLayoutChars | src/rendering/text/TextRenderer.java:66-83 | with every advance at least 1, a non-empty line becomes exactly one new run holding its quads |
| TextLayout.WideLayoutLines | src/rendering/text/TextRenderer.java:57-85 | with every advance at least 1, the strip is one run per non-empty line |
| TextLayout.WideMeasure | src/rendering/text/TextRenderer.java:68-82 | glyphs at least one pixel wide after scaling give advances of at least 1, the `'0'` substitute included |
| TextLayout.LayoutQuads | src/rendering/text/TextRenderer.java:54-85 | for buildStrip's inputs, the strip holds one quad per character at the position the reference geometry gives |
| TextLayout.WideLayout | src/rendering/text/TextRenderer.java:67-83 | for buildStrip's inputs with glyphs at least 1 pixel wide: one separated run per non-empty line, one quad per character |
| TextLayout.LayoutEmptyIff | src/rendering/text/TextRenderer.java:58-85 | a rebuilt strip has no empty run, and it is empty exactly when every line of the split is empty |
| TextLayout.TotalCharsZero | src/rendering/text/TextRenderer.java:58-67 | the lines hold no character exactly when every line is empty |
| TextLayout.TextQuadsLength | src/rendering/text/TextRenderer.java:67-83 | the reference geometry has one quad per character |
| TextLayout.LayoutLinesNoEmptyRun | src/rendering/text/TextRenderer.java:57-85 | walking the lines never leaves an empty run |
| Seqs.RemoveFirst | src/rendering/text/TextRenderer.java:192 | `ArrayList.remove(Object)`; its meaning is given by RemoveFirstAt, RemoveFirstMultiset and RemoveFirstDistinct |
| Seqs.IndexOf | src/rendering/text/TextRenderer.java:192 | the index of the first occurrence |
| Seqs.RemoveFirstAt | src/rendering/text/TextRenderer.java:192 | `remove(Object)` drops the first occurrence, and nothing when the element is absent |
| Seqs.RemoveFirstMultiset | src/rendering/text/TextRenderer.java:192 | removal takes out exactly one copy of a present element |
| Seqs.RemoveFirstDistinct | src/rendering/text/TextRenderer.java:192 | on a list without repeats the element is gone afterwards, and nothing new appears |
| TextRendering.Vec2.constructor | src/rendering/text/TextRenderer.java:74-75 | a position with the given coordinates |
| TextRendering.TextObject.constructor | src/rendering/text/TextRenderer.java:15-36 | a new object has no parent, scale 1, spacing 5 and is dirty |
| TextRendering.TextObject.WithStyle | src/rendering/text/TextRenderer.java:26-30 | as the plain constructor, with the given scale and spacing |
| TextRendering.TextObject.AddParent | src/rendering/text/TextRenderer.java:38-41 | an unparented object gets the parent |
| TextRendering.TextObject.RemoveParent | src/rendering/text/TextRenderer.java:43-46 | a parented object loses its parent |
| TextRendering.TextObject.PushLine | src/rendering/text/TextRenderer.java:64-83 | the inner loop leaves the strip and accumulatedX exactly as the layout of the line says |
| TextRendering.TextObject.BuildStrip | src/rendering/text/TextRenderer.java:48-89 | a clean object returns its cached strip unchanged; a dirty one is rebuilt to the layout of its current fields and becomes clean |
| TextRendering.TextObject.SetString | src/rendering/text/TextRenderer.java:96-102 | an equal string changes nothing; a different one is stored and marks the object and its parent (if any) dirty |
| TextRendering.TextObject.SetPos | src/rendering/text/TextRenderer.java:105-111 | as SetString, comparing positions by identity |
| TextRendering.TextObject.SetFontId | src/rendering/text/TextRenderer.java:114-120 | as SetString, for the font id |
| TextRendering.TextObject.SetScale | src/rendering/text/TextRenderer.java:123-129 | as SetString, for the scale |
| TextRendering.TextObject.SetYSpacing | src/rendering/text/TextRenderer.java:132-138 | as SetString, for the line spacing |
| TextRendering.Aggregate | src/rendering/text/TextRenderer.java:159-165 | the strip buildBuffer assembles from the objects' build inputs; AggregateSnoc and AggregateQuads give its meaning |
| TextRendering.AggregateSnoc | src/rendering/text/TextRenderer.java:162-165 | one more object is one more loop step: appended when it qualifies, skipped otherwise |
| TextRendering.AggregateQuads | src/rendering/text/TextRenderer.java:159-177 | the assembled strip holds a quad exactly when some object with a non-empty string, scale >= epsilon and a non-empty line exists |
| TextRendering.TextRenderer.constructor | src/rendering/text/TextRenderer.java:141-157 | no objects, an empty strip, not modified |
| TextRendering.TextRenderer.PushTextObject | src/rendering/text/TextRenderer.java:184-188 | an unparented object is parented, appended and the renderer marked modified; single ownership is kept |
| TextRendering.TextRenderer.RemoveTextObject | src/rendering/text/TextRenderer.java:190-194 | the object is unparented, its first occurrence removed, the renderer marked modified; an object of another renderer leaves the list as it was |
| TextRendering.TextRenderer.ClearAllTextObjects | src/rendering/text/TextRenderer.java:196-200 | every listed object is unparented, the list emptied and the renderer marked modified |
| TextRendering.TextRenderer.AppendObject | src/rendering/text/TextRenderer.java:162-165 | one loop step: a skipped object is left untouched; any other ends clean, holding the layout of its fields, and that strip is appended as separated runs |
| TextRendering.TextRenderer.BuildBuffer | src/rendering/text/TextRenderer.java:159-170 | the buffer is filled once more, with the concatenation, in list order, of the strips of the objects with a non-empty string and scale >= epsilon; the renderer is clean |
| TextRendering.TextRenderer.Draw | src/rendering/text/TextRenderer.java:172-178 | a clean renderer leaves the buffer and every cached strip alone and uploads nothing; a modified one uploads exactly once; either way the buffer then holds the concatenation of the objects' strips, the renderer is clean, and a draw call is issued exactly when some qualifying object has a non-empty line |
| Shaders.ShaderType | src/rendering/ShaderHelper.java:179-188 | `getShaderType(String)`; ShaderTypeMatchesTable and ShaderTypeUnknown give its meaning |
| Shaders.ShaderTypeString | src/rendering/ShaderHelper.java:190-199 | `getShaderTypeString`; ShaderTypeStringMatchesTable, ShaderTypeStringUnknown and ShaderTypeStringInverts give its meaning |
| Shaders.GlConstantsDistinct | src/rendering/ShaderHelper.java:181-185 | the five stage constants are distinct and none is -1 |
| Shaders.ShaderTypeMatchesTable | src/rendering/ShaderHelper.java:179-188 | a name maps to a stage's constant exactly when it is that stage's extension |
| Shaders.ShaderTypeUnknown | src/rendering/ShaderHelper.java:179-188 | every other name maps to -1, and only those |
| Shaders.ShaderTypeStringMatchesTable | src/rendering/ShaderHelper.java:190-199 | a constant gets a stage's display name exactly when it is that stage's constant |
| Shaders.ShaderTypeStringUnknown | src/rendering/ShaderHelper.java:190-199 | "UNKNOWN" is given to exactly the non-stage values |
| Shaders.ShaderTypeStringInverts | src/rendering/ShaderHelper.java:179-199 | getShaderTypeString undoes getShaderType: an extension comes back as its display name, anything else as "UNKNOWN" |
| Shaders.FileShaderType | src/rendering/ShaderHelper.java:173-177 | `getShaderType(File)`, None for the throw; FileShaderTypeExtension, FileShaderTypeNoDot and FileShaderTypeThrows give its meaning |
| Shaders.FileShaderTypeExtension | src/rendering/ShaderHelper.java:174-177 | a file "stem.ext" gets the stage of its extension, whatever the stem |
| Shaders.FileShaderTypeNoDot | src/rendering/ShaderHelper.java:174-177 | a name without a dot is looked up as a whole |
| Shaders.FileShaderTypeThrows | src/rendering/ShaderHelper.java:175-176 | the lookup throws exactly for a non-empty name made of dots alone |
| Shaders.MarkerStage | src/rendering/ShaderHelper.java:94-95 | the stage a marker line names, None for the throw; MarkerStageName gives its meaning |
| Shaders.MarkerCleaned | src/rendering/ShaderHelper.java:94 | removing spaces and lower-casing leave the `//---` marker itself alone |
| Shaders.SplitAfterMarker | src/rendering/ShaderHelper.java:95 | the marker followed by a name gives "" and then the name's text up to its own first marker; no piece at all when the name holds nothing but markers; a name without a marker comes back whole |
| Shaders.MarkerStageName | src/rendering/ShaderHelper.java:94-95 | a marker names the stage written after it, read without spaces and in lower case, up to a further marker; trailing text such as a comment makes the name unknown (-1); nothing but spaces and markers after it means the lookup throws |
| Shaders.Step | src/rendering/ShaderHelper.java:87-100 | one pass of attachShaderMulti's loop over the splitter's variables |
| Shaders.Scan | src/rendering/ShaderHelper.java:84-101 | the splitter's variables after the lines read; ScanFailedStays, ScanKeepsText, ScanEmitsNonEmpty, ScanFailsIff and ScanGroups give its meaning |
| Shaders.SplitShaderFile | src/rendering/ShaderHelper.java:78-104 | the sections attachShaderMulti attaches and whether it completes; SplitShaderFileSpec, SplitShaderFileThrows and SplitShaderFileWithoutMarkers give its meaning |
| Shaders.ScanFailedStays | src/rendering/ShaderHelper.java:95 | once a marker has thrown, no later line changes anything |
| Shaders.ScanKeepsText | src/rendering/ShaderHelper.java:84-101 | until a marker throws, emitted text followed by pending text is exactly the newline-prefixed non-marker lines |
| Shaders.ScanEmitsNonEmpty | src/rendering/ShaderHelper.java:89-91 | a section is emitted at a marker only when it is non-empty |
| Shaders.ScanFailsIff | src/rendering/ShaderHelper.java:87-95 | the scan throws exactly when some marker line names nothing |
| Shaders.ScanWithoutMarkers | src/rendering/ShaderHelper.java:84-101 | without markers nothing is emitted before the end and the stage stays -1 |
| Shaders.Groups | src/rendering/ShaderHelper.java:78-98 | a reference grouping of the lines: the first group has stage -1, and each marker opens a group of the stage it names |
| Shaders.ScanGroups | src/rendering/ShaderHelper.java:78-101 | until a marker throws, the splitter has emitted the non-empty groups but the last, and holds the last group's text and stage |
| Shaders.SplitShaderFileSpec | src/rendering/ShaderHelper.java:78-104 | for a complete split, the emitted sections glued together are exactly the newline-prefixed non-marker lines and the final section is always emitted; every section except the final one is non-empty; the split is complete exactly when every marker names something; a complete split is the groups holding a line, each with the stage of the marker that opened it (-1 before the first), then the last group |
| Shaders.SplitShaderFileThrows | src/rendering/ShaderHelper.java:87-95 | when the first marker naming nothing throws, the sections attached are the non-empty groups before it, with their stages |
| Shaders.SplitShaderFileWithoutMarkers | src/rendering/ShaderHelper.java:84-104 | a file without markers is one section of stage -1 |
| Shaders.Accepted | src/rendering/ShaderHelper.java:135-155 | the records attachShader keeps for a list of sections when a program exists; AcceptedOne and AcceptedFromCompiling give its meaning |
| Shaders.AcceptedOne | src/rendering/ShaderHelper.java:148-154 | a single source is kept exactly when it compiles |
| Shaders.AcceptedFromCompiling | src/rendering/ShaderHelper.java:148-154 | every attached record comes from a compiling section, and there are no more records than sections |
| Shaders.ShaderHelper.constructor | src/rendering/ShaderHelper.java:36-40 | empty cache, no shaders, no program, not linked |
| Shaders.ShaderHelper.GenProgram | src/rendering/ShaderHelper.java:49-55 | idempotent: once a program exists later calls keep it; the helper's invariant is kept |
| Shaders.ShaderHelper.AttachShader | src/rendering/ShaderHelper.java:135-155 | nothing is appended when there is no valid program or compilation fails; otherwise exactly one record |
| Shaders.ShaderHelper.AttachShaderFile | src/rendering/ShaderHelper.java:114-133 | a name made of dots alone throws and a file whose extension is not a stage is skipped, both attaching nothing; otherwise its newline-prefixed lines are attached as one shader of its extension's stage |
| Shaders.ShaderHelper.AttachLine | src/rendering/ShaderHelper.java:85-100 | one pass of the splitter's loop does what Step says and attaches what it emits |
| Shaders.ShaderHelper.AttachShaderMulti | src/rendering/ShaderHelper.java:77-108 | the records appended are those of the compiling sections of the split, in order, and the call completes exactly when the split does |
| Shaders.ShaderHelper.LinkProgram | src/rendering/ShaderHelper.java:158-171 | linked is set before linking, so glLinkProgram is called at most once whatever its result |
| Shaders.ShaderHelper.GetUniformLocation | src/rendering/ShaderHelper.java:210-221 | -1 before linking; a cached name gets its cached location; a new name is asked of the driver once and cached; linked without a program (the link threw), asking the driver throws and the cache is unchanged |
| Shaders.ShaderHelper.UniformMatrix4f | src/rendering/ShaderHelper.java:235-241 | a matrix without exactly 16 entries is rejected and changes nothing; otherwise it goes to the uniform's location, unless that lookup throws |
| Textures.Rgba | src/rendering/Texture.java:57-60 | four bytes per pixel |
| Textures.RgbaDeterminesPixel | src/rendering/Texture.java:57-60 | the bytes R = bits 16-23, G = 8-15, B = 0-7, A = 24-31 give back the pixel |
| Textures.RgbaOfArgb | src/rendering/Texture.java:57-60 | every choice of four bytes is written for exactly one pixel |
| Textures.Packed | src/rendering/Texture.java:53 | the buffer holds exactly 4 bytes per pixel |
| Textures.PackedOffset | src/rendering/Texture.java:54-61 | pixel k occupies bytes 4k to 4k+3 |
| Textures.PixelOffset | src/rendering/Texture.java:54-56 | pixel (x, y) is written at byte offset 4 * (y * width + x) |
| Textures.UnpackedPacked | src/rendering/Texture.java:50-62 | reading the buffer back four bytes at a time gives the image: nothing is lost or reordered |
| Textures.RowMajorInBounds | src/rendering/Texture.java:54-56 | a row-major index stays inside the image |
| Textures.RowInBounds | src/rendering/Texture.java:54-55 | row y ends where row y + 1 starts |
| Textures.PutPixel | src/rendering/Texture.java:57-60 | the four puts append the pixel's RGBA bytes at the buffer's position |
| Textures.RepackRow | src/rendering/Texture.java:55-61 | the inner loop appends the row's pixels in order |
| Textures.Repack | src/rendering/Texture.java:50-62 | a new buffer of width * height * 4 bytes holding every pixel's RGBA bytes in row-major order |
| Textures.Texture.FromImage | src/rendering/Texture.java:44-64 | the uploaded bytes are the repacked image |
| Textures.SortedTail | src/rendering/Texture.java:116 | the tail of a sorted list is sorted and bounded below by its head |
| Textures.SortedUnique | src/rendering/Texture.java:116 | two sorted lists with the same elements are equal, so the sort result is determined |
| Textures.Insert | src/rendering/Texture.java:115-116 | one more element, and the elements are the old ones plus the new one |
| Textures.InsertMultiset | src/rendering/Texture.java:115 | adding puts in exactly one copy |
| Textures.InsertSorted | src/rendering/Texture.java:116 | adding to a sorted list and sorting keeps it sorted |
| Textures.InsertIsSort | src/rendering/Texture.java:115-116 | "add, then sort" on a sorted list is insertion |
| Textures.RemoveAt | src/rendering/Texture.java:111 | `remove(int)` takes the element at that index out |
| Textures.RemoveAtSorted | src/rendering/Texture.java:111 | removing by index keeps a sorted list sorted |
| Textures.BindSlots | src/rendering/Texture.java:107-116 | bind's slot list as written, None for the throw; BindSlotsSpec and BindSlotsRemovesByIndex give its meaning |
| Textures.BindSlotsSpec | src/rendering/Texture.java:108-116 | bind throws only for a bound slot that is not a valid index; otherwise the list is sorted, holds slot, and gains slot (after losing the element at index slot when slot was bound) |
| Textures.BindSlotsRemovesByIndex | src/rendering/Texture.java:109-111 | rebinding 1 in [1, 2] gives [1, 1]; rebinding 5 in [5] throws |
| Textures.InsertDistinct | src/rendering/Texture.java:115-116 | adding a new value to a list without repeats makes none |
| Textures.RemoveFirstSorted | src/rendering/Texture.java:111 | removing by value keeps a sorted list sorted |
| Textures.DistinctCountsOnce | src/rendering/Texture.java:109-116 | in a list without repeats every value occurs at most once |
| Textures.BindSlotsByValue | src/rendering/Texture.java:109-116 | bind's slot list with removal by value; BindSlotsByValueSpec gives its meaning |
| Textures.BindSlotsByValueSpec | src/rendering/Texture.java:109-116 | removal by value never throws and keeps the list sorted and free of repeats, each slot occurring exactly once; the bound slots become the old ones plus slot |
| Textures.TextureSlots.constructor | src/rendering/Texture.java:29 | the slot list starts empty, hence sorted |
| Textures.Texture.Bind | src/rendering/Texture.java:107-119 | the list changes as BindSlots says and stays sorted; the texture goes to unit slot + 1 and the bound slots plus one are sent; when the removal throws nothing changes |

## Left out

- `src/Main.java` and `src/game/Window.java`: they are thread, timing and GLFW window code.
- Every OpenGL call and its effect on the GPU is left out:
  - their results are parameters: the `Driver` answers, the `created` program id, `linkSucceeds` and `driverLocation`;
  - `Renderer.bindShader`, `Renderer.bindBuffer` and `Renderer.draw` are not recorded;
  - `glUniform*` sends are not recorded, except as the location `UniformMatrix4f` returns and the values in `BindCall`.
- File and image I/O is left out: `Scanner`, `File`, `stbi_load`, `MemoryUtil.memAlloc`/`memFree` and `ByteBuffer.flip`.
  - A file is given as its lines, or as its pixels.
  - The `FileNotFoundException` paths and `loadImageFromFilePath` are not modelled.
  - `Texture(String)`, `createTexture`, `setupTextureDefaults` and `unbind` are not modelled.
  - A shader record keeps the file name, not the absolute path.
- These `ShaderHelper` methods only compose or forward modelled operations and are left out:
  - `attachShadersInDir`, `attachShaders` and `autoInitializeShadersMulti`;
  - `bind`, `unbind`, `getProgram` and `Shader.toString`;
  - `uniformResolutionData`, and `uniform1i`, `uniform1iv`, `uniform1f`, `uniform2f`.
- `Logging` side effects are left out.
- `TextObject.setString(String, Object...)` is left out, because it formats with `String.format`.
- The `TextObject` getters and `getTextObjects` are left out.
- `setupBufferObjects`, `setAdditionalVerts` and the vertex layout are left out.
- `StripBuilder2f` is modelled as runs of quads, not as a float array.
  - Degenerate bridging vertices and vertex counts are not modelled.
  - "float count > 0" is read as "holds a quad".
- Floats are modelled as reals. NaN, rounding and float comparison are not modelled. The `(int)` casts are explicit truncations.
- A `Vec2` is a class with constant coordinates. Mutating a position in place is not modelled; `setPos` compares positions by identity, as the source does.
- Java `int` overflow is not modelled. This covers `width * height * 4` in the texture constructor and the cursor sums in `buildStrip`.
- Java's arithmetic shift is not modelled: the pixel is a `bv32` with logical shifts, which give the same bytes because every shift is masked with `0xFF`.
- The font registry (`FontManager`) is a map from id to glyph map. Fonts with a space and a `'0'` glyph are assumed; `getLoadedFont` failing is not modelled.
- TextRendering.TextObject.AddParent: the Java `assert` on the old parent is a precondition. With assertions disabled, Java would overwrite a parent silently, and that is not modelled.
- TextRendering.TextObject.RemoveParent: the Java `assert` on the old parent is a precondition, as for AddParent.
- TextRendering.TextRenderer.BuildBuffer: requires every listed object to satisfy `CacheValid`, which says a clean object's cached strip is the layout of its fields.
  - Every constructor establishes it, because a new object is dirty, and every setter keeps it.
  - It also requires the font of every object that is built to be loaded. Otherwise the Java code would fail on a missing font.
- TextRendering.TextRenderer.Draw: the same two requirements as BuildBuffer.
- TextRendering.TextObject.PushLine and TextRendering.TextRenderer.AppendObject are the bodies of `buildStrip`'s inner loop and `buildBuffer`'s loop, written as methods of their own.
- Shaders.ShaderHelper.AttachLine is the body of `attachShaderMulti`'s loop, written as a method of its own. A `continue` in that loop is a return from the helper.
- Shaders.Driver gives shader ids and compile results as functions of the source and stage. Fresh ids from one `glCreateShader` call to the next are not modelled.
- TextRendering.TextObject.PushLine: a Dafny `char` is a Unicode scalar value, while `toCharArray` yields UTF-16 code units. A character outside the Basic Multilingual Plane is one quad here; in Java it is two lone surrogates, each missing from the glyph map, so two `'0'` quads.
- TextRendering.TextObject.BuildStrip: the same code-point reading of the string, through `PushLine` and `TextLayout.LayoutChars`.
- TextLayout.LayoutChars and the reference `TextLayout.TextQuads`: the same code-point reading of a line.
- JavaStrings.Lower: folds ASCII capitals only. Java's `toLowerCase()` folds all of Unicode by locale and can change the length. A marker name with non-ASCII letters can therefore be read differently from Java; the five stage names themselves are ASCII.
- Shaders.ShaderHelper.GetUniformLocation: `bind()` forwards to `Renderer.bindShader`, which is not part of this model, so a throw there is not modelled. The throw that is modelled is the unboxing of a missing program when the driver is asked.
- Textures.Texture.Bind keeps the remove-by-index behaviour of the source. The corrected removal by value is a separate function, `BindSlotsByValue`.

## Findings

| source | as written | input that shows it | evidently intended | confidence | as-written member | corrected member |
|---|---|---|---|---|---|---|
| src/rendering/Texture.java:109-111 | `boundSlots.remove(slot)` with an `int` argument calls `ArrayList.remove(int index)`, which removes the element at index `slot` | `boundSlots = [1, 2]`, `bind(1)`: the list becomes `[1, 1]` and slot 2 is lost. `boundSlots = [5]`, `bind(5)`: `IndexOutOfBoundsException` | remove the value `slot` (`remove(Integer.valueOf(slot))`), so the list keeps each bound slot once | high; not executed | Textures.BindSlotsRemovesByIndex | Textures.BindSlotsByValueSpec |
