/**
 * The two pieces of texture handling that are not GL calls: turning the ARGB
 * ints of an image into the RGBA byte buffer that is uploaded, and the list
 * of bound texture slots that bind keeps sorted and sends to the shader.
 */
module Textures {
  import opened Wrappers
  import opened Seqs

  /** Bytes per pixel of the uploaded buffer. */
  const BPP: nat := 4

  // ---------------------------------------------------------------------------
  // ARGB ints to RGBA bytes

  /** The four bytes written for one ARGB pixel: red, green, blue, then alpha. */
  function Rgba(pixel: bv32): (bytes: seq<bv8>)
    ensures |bytes| == BPP
  {
    [((pixel >> 16) & 0xFF) as bv8, ((pixel >> 8) & 0xFF) as bv8, (pixel & 0xFF) as bv8, ((pixel >> 24) & 0xFF) as bv8]
  }

  /** The ARGB pixel that four RGBA bytes describe. */
  function Argb(bytes: seq<bv8>): bv32
    requires |bytes| == BPP
  {
    (bytes[3] as bv32 << 24) | (bytes[0] as bv32 << 16) | (bytes[1] as bv32 << 8) | bytes[2] as bv32
  }

  /** The four bytes determine the pixel they were made from. */
  lemma RgbaDeterminesPixel(pixel: bv32)
    ensures Argb(Rgba(pixel)) == pixel
  {
  }

  /** Every choice of four bytes is written for exactly one pixel. */
  lemma RgbaOfArgb(bytes: seq<bv8>)
    requires |bytes| == BPP
    ensures Rgba(Argb(bytes)) == bytes
  {
  }

  /** The whole buffer for a row-major list of pixels: each pixel's four bytes, in order. */
  function Packed(pixels: seq<bv32>): (bytes: seq<bv8>)
    ensures |bytes| == BPP * |pixels|
  {
    if pixels == [] then [] else Packed(pixels[..|pixels| - 1]) + Rgba(pixels[|pixels| - 1])
  }

  lemma PackedSnoc(pixels: seq<bv32>, i: nat)
    requires i < |pixels|
    ensures Packed(pixels[..i + 1]) == Packed(pixels[..i]) + Rgba(pixels[i])
  {
    assert pixels[..i + 1][..i] == pixels[..i];
  }

  /** Pixel k of the list occupies bytes 4k .. 4k+3 of the buffer. */
  lemma {:induction false} PackedOffset(pixels: seq<bv32>, k: nat)
    requires k < |pixels|
    ensures Packed(pixels)[BPP * k..BPP * k + BPP] == Rgba(pixels[k])
    decreases |pixels|
  {
    var init := pixels[..|pixels| - 1];
    if k < |init| {
      PackedOffset(init, k);
      assert Packed(pixels)[..BPP * |init|] == Packed(init);
    }
  }

  /** The pixel at column x of row y is written at byte offset 4 * (y * width + x). */
  lemma PixelOffset(pixels: seq<bv32>, width: nat, height: nat, y: nat, x: nat)
    requires |pixels| == width * height && y < height && x < width
    ensures y * width + x < |pixels|
    ensures Packed(pixels)[BPP * (y * width + x)..BPP * (y * width + x) + BPP] == Rgba(pixels[y * width + x])
  {
    RowMajorInBounds(width, height, y, x);
    PackedOffset(pixels, y * width + x);
  }

  /** Reads a buffer back as ARGB pixels, four bytes at a time. */
  function Unpacked(bytes: seq<bv8>): seq<bv32>
    requires |bytes| % BPP == 0
  {
    if bytes == [] then []
    else Unpacked(bytes[..|bytes| - BPP]) + [Argb(bytes[|bytes| - BPP..])]
  }

  /** Reading the buffer back gives the image: the repacking loses nothing and reorders nothing. */
  lemma {:induction false} UnpackedPacked(pixels: seq<bv32>)
    ensures Unpacked(Packed(pixels)) == pixels
    decreases |pixels|
  {
    if pixels != [] {
      var init := pixels[..|pixels| - 1];
      var bytes := Packed(pixels);
      assert bytes[..|bytes| - BPP] == Packed(init);
      assert bytes[|bytes| - BPP..] == Rgba(pixels[|pixels| - 1]);
      UnpackedPacked(init);
      RgbaDeterminesPixel(pixels[|pixels| - 1]);
    }
  }

  /** A row-major index stays inside the image. */
  lemma RowMajorInBounds(width: nat, height: nat, y: nat, x: nat)
    requires y < height && x < width
    ensures y * width + x < width * height
    ensures y * width + x + 1 <= (y + 1) * width
  {
    assert (y + 1) * width <= height * width by {
      assert y + 1 <= height;
    }
  }

  /** The four buffer.put calls of one pixel, at the buffer's position `pos`. */
  method PutPixel(buffer: array<bv8>, pos: nat, pixel: bv32)
    requires pos + BPP <= buffer.Length
    modifies buffer
    ensures buffer[..pos + BPP] == old(buffer[..pos]) + Rgba(pixel)
    ensures buffer[pos + BPP..] == old(buffer[pos + BPP..])
  {
    buffer[pos] := ((pixel >> 16) & 0xFF) as bv8;
    buffer[pos + 1] := ((pixel >> 8) & 0xFF) as bv8;
    buffer[pos + 2] := (pixel & 0xFF) as bv8;
    buffer[pos + 3] := ((pixel >> 24) & 0xFF) as bv8;
  }

  /** The inner loop for row y: the row's pixels, left to right, appended at the buffer's position. */
  method RepackRow(pixels: array<bv32>, buffer: array<bv8>, width: nat, height: nat, y: nat, pos0: nat)
      returns (pos: nat)
    requires pixels.Length == width * height && buffer.Length == width * height * BPP && y < height
    requires y * width + width <= width * height
    requires pos0 == BPP * (y * width)
    requires buffer[..pos0] == Packed(pixels[..y * width])
    modifies buffer
    ensures pos == BPP * (y * width + width)
    ensures buffer[..pos] == Packed(pixels[..y * width + width])
  {
    var start := y * width;
    pos := pos0;
    var x := 0;
    while x < width
      invariant 0 <= x <= width
      invariant pos == BPP * (start + x)
      invariant buffer[..pos] == Packed(pixels[..start + x])
    {
      var pixel := pixels[start + x];
      PackedSnoc(pixels[..], start + x);
      assert pixels[..][..start + x + 1] == pixels[..start + x + 1];
      assert pixels[..][..start + x] == pixels[..start + x];
      PutPixel(buffer, pos, pixel);
      pos := pos + BPP;
      x := x + 1;
    }
  }

  /**
   * The repacking loop of Texture(BufferedImage): rows top to bottom, each
   * row left to right, four bytes per pixel appended to the buffer.
   */
  method Repack(pixels: array<bv32>, width: nat, height: nat) returns (buffer: array<bv8>)
    requires pixels.Length == width * height
    ensures fresh(buffer)
    ensures buffer.Length == width * height * BPP
    ensures buffer[..] == Packed(pixels[..])
  {
    buffer := new bv8[width * height * BPP];
    var pos := 0;
    var y := 0;
    while y < height
      invariant 0 <= y <= height
      invariant y * width <= width * height
      invariant pos == BPP * (y * width)
      invariant buffer[..pos] == Packed(pixels[..y * width])
    {
      RowInBounds(width, height, y);
      pos := RepackRow(pixels, buffer, width, height, y, pos);
      y := y + 1;
    }
    assert pixels[..y * width] == pixels[..];
    assert buffer[..] == buffer[..pos];
  }

  /** Row y ends where row y + 1 starts, inside the image. */
  lemma RowInBounds(width: nat, height: nat, y: nat)
    requires y < height
    ensures y * width + width == (y + 1) * width <= width * height
  {
    assert (y + 1) * width <= height * width by {
      assert y + 1 <= height;
    }
  }

  // ---------------------------------------------------------------------------
  // Bound texture slots

  predicate Sorted(s: seq<int>) {
    forall i, j :: 0 <= i < j < |s| ==> s[i] <= s[j]
  }

  lemma SortedTail(s: seq<int>)
    requires Sorted(s) && s != []
    ensures Sorted(s[1..])
    ensures forall v :: v in s ==> s[0] <= v
  {
    forall i, j | 0 <= i < j < |s[1..]| ensures s[1..][i] <= s[1..][j] {
      assert s[1..][i] == s[i + 1] && s[1..][j] == s[j + 1];
    }
  }

  /** Two sorted lists with the same elements start with the same (least) element. */
  lemma SortedSameHead(a: seq<int>, b: seq<int>)
    requires Sorted(a) && Sorted(b) && multiset(a) == multiset(b) && a != []
    ensures b != [] && a[0] == b[0]
  {
    assert a[0] in multiset(b);
    assert b[0] in multiset(a);
    SortedTail(a);
    SortedTail(b);
  }

  /** Taking the same first element off two lists with the same elements leaves lists with the same elements. */
  lemma SameTailMultiset(a: seq<int>, b: seq<int>)
    requires a != [] && b != [] && a[0] == b[0] && multiset(a) == multiset(b)
    ensures multiset(a[1..]) == multiset(b[1..])
  {
    assert a == [a[0]] + a[1..] && b == [b[0]] + b[1..];
    assert multiset(a) == multiset{a[0]} + multiset(a[1..]);
    assert multiset(b) == multiset{b[0]} + multiset(b[1..]);
    forall v ensures multiset(a[1..])[v] == multiset(b[1..])[v] {
      assert multiset(a)[v] == multiset{a[0]}[v] + multiset(a[1..])[v];
      assert multiset(b)[v] == multiset{b[0]}[v] + multiset(b[1..])[v];
    }
  }

  /** Two sorted lists with the same elements are the same list, so "sorted" pins down what a sort returns. */
  lemma {:induction false} SortedUnique(a: seq<int>, b: seq<int>)
    requires Sorted(a) && Sorted(b) && multiset(a) == multiset(b)
    ensures a == b
    decreases |a|
  {
    if a == [] {
      assert |multiset(b)| == 0;
    } else {
      SortedSameHead(a, b);
      SortedTail(a);
      SortedTail(b);
      SameTailMultiset(a, b);
      SortedUnique(a[1..], b[1..]);
      assert a == [a[0]] + a[1..] && b == [b[0]] + b[1..];
    }
  }

  /** Adding x to a sorted list and sorting it again. */
  function Insert(s: seq<int>, x: int): (r: seq<int>)
    ensures |r| == |s| + 1
    ensures r[0] == x || (s != [] && r[0] == s[0])
    ensures forall v :: v in r <==> v in s || v == x
  {
    if s == [] || x < s[0] then [x] + s else [s[0]] + Insert(s[1..], x)
  }

  /** Insertion adds exactly one copy of x. */
  lemma {:induction false} InsertMultiset(s: seq<int>, x: int)
    ensures multiset(Insert(s, x)) == multiset(s) + multiset{x}
    decreases |s|
  {
    if s == [] || x < s[0] {
      assert Insert(s, x) == [x] + s;
    } else {
      var t := Insert(s[1..], x);
      InsertMultiset(s[1..], x);
      assert Insert(s, x) == [s[0]] + t;
      assert s == [s[0]] + s[1..];
      assert multiset([s[0]] + t) == multiset{s[0]} + multiset(t);
      assert multiset(s) == multiset{s[0]} + multiset(s[1..]);
    }
  }

  /** Insertion into a sorted list keeps it sorted. */
  lemma {:induction false} InsertSorted(s: seq<int>, x: int)
    requires Sorted(s)
    ensures Sorted(Insert(s, x))
    decreases |s|
  {
    if s != [] && !(x < s[0]) {
      var t := Insert(s[1..], x);
      InsertSorted(s[1..], x);
      assert s[0] <= t[0];
      var r := Insert(s, x);
      assert r == [s[0]] + t;
      forall i, j | 0 <= i < j < |r| ensures r[i] <= r[j] {
        if i > 0 {
          assert r[i] == t[i - 1] && r[j] == t[j - 1];
        } else {
          assert t[0] <= t[j - 1];
        }
      }
    }
  }

  /** In a list without repeats every value occurs at most once. */
  lemma {:induction false} DistinctCountsOnce(s: seq<int>, v: int)
    requires Distinct(s)
    ensures multiset(s)[v] <= 1
    decreases |s|
  {
    if s != [] {
      DistinctTail(s);
      DistinctCountsOnce(s[1..], v);
      assert s == [s[0]] + s[1..];
    }
  }

  /** Adding a new value to a list without repeats makes none. */
  lemma {:induction false} InsertDistinct(s: seq<int>, x: int)
    requires Distinct(s) && x !in s
    ensures Distinct(Insert(s, x))
    decreases |s|
  {
    if s != [] && !(x < s[0]) {
      var t := Insert(s[1..], x);
      DistinctTail(s);
      assert x !in s[1..] by { assert s == [s[0]] + s[1..]; }
      InsertDistinct(s[1..], x);
      assert s[0] !in t;
      DistinctCons(s[0], t);
      assert Insert(s, x) == [s[0]] + t;
    }
  }

  /** Insertion is what "add, then sort" gives on a sorted list. */
  lemma InsertIsSort(s: seq<int>, x: int, sorted: seq<int>)
    requires Sorted(s) && Sorted(sorted) && multiset(sorted) == multiset(s + [x])
    ensures sorted == Insert(s, x)
  {
    InsertSorted(s, x);
    InsertMultiset(s, x);
    SortedUnique(sorted, Insert(s, x));
  }

  /** ArrayList.remove(int): drops the element at an index. */
  function RemoveAt(s: seq<int>, index: nat): (r: seq<int>)
    requires index < |s|
    ensures multiset(r) == multiset(s) - multiset{s[index]}
  {
    assert s == s[..index] + [s[index]] + s[index + 1..];
    s[..index] + s[index + 1..]
  }

  lemma RemoveAtSorted(s: seq<int>, index: nat)
    requires index < |s| && Sorted(s)
    ensures Sorted(RemoveAt(s, index))
  {
    var r := RemoveAt(s, index);
    forall i, j | 0 <= i < j < |r| ensures r[i] <= r[j] {
      assert r[i] == (if i < index then s[i] else s[i + 1]);
      assert r[j] == (if j < index then s[j] else s[j + 1]);
    }
  }

  /**
   * The list after bind(slot), as written: a slot already in the list makes
   * it drop the element at INDEX slot (None when there is no such index, as
   * the call throws); then slot is added and the list sorted.
   */
  function BindSlots(boundSlots: seq<int>, slot: int): Option<seq<int>> {
    if slot in boundSlots then
      if 0 <= slot < |boundSlots| then Some(Insert(RemoveAt(boundSlots, slot), slot)) else None
    else Some(Insert(boundSlots, slot))
  }

  /** The unit numbers sent to the shader: every bound slot plus one. */
  function UnitsOf(boundSlots: seq<int>): seq<int> {
    seq(|boundSlots|, k requires 0 <= k < |boundSlots| => boundSlots[k] + 1)
  }

  /**
   * What bind promises about the list, as written: it throws only for a bound
   * slot that is not a valid index; otherwise the result is sorted, holds slot,
   * and has the old elements with one element added (slot) and, when slot
   * was already bound, the one at index slot taken away.
   */
  lemma BindSlotsSpec(boundSlots: seq<int>, slot: int)
    requires Sorted(boundSlots)
    ensures BindSlots(boundSlots, slot).None? <==> slot in boundSlots && !(0 <= slot < |boundSlots|)
    ensures BindSlots(boundSlots, slot).Some? ==>
              var r := BindSlots(boundSlots, slot).value;
              && Sorted(r) && slot in r
              && (slot !in boundSlots ==> multiset(r) == multiset(boundSlots) + multiset{slot})
              && (slot in boundSlots ==>
                    multiset(r) == multiset(boundSlots) - multiset{boundSlots[slot]} + multiset{slot})
  {
    if slot in boundSlots && 0 <= slot < |boundSlots| {
      RemoveAtSorted(boundSlots, slot);
      InsertSorted(RemoveAt(boundSlots, slot), slot);
      InsertMultiset(RemoveAt(boundSlots, slot), slot);
    } else if slot !in boundSlots {
      InsertSorted(boundSlots, slot);
      InsertMultiset(boundSlots, slot);
    }
  }

  /**
   * Rebinding slot 1 of [1, 2] drops the element at index 1 (the 2) and keeps
   * the old 1, so slot 1 ends up listed twice and slot 2 is lost; rebinding
   * slot 5 of [5] throws, as there is no index 5.
   */
  lemma BindSlotsRemovesByIndex()
    ensures BindSlots([1, 2], 1) == Some([1, 1])
    ensures BindSlots([5], 5) == None
  {
    assert 1 in [1, 2];
    assert [1, 2][..1] == [1] && [1, 2][2..] == [];
    assert RemoveAt([1, 2], 1) == [1];
    assert Insert([], 1) == [1];
    assert Insert([1], 1) == [1] + Insert([1][1..], 1);
    assert [1][1..] == [];
    assert Insert(RemoveAt([1, 2], 1), 1) == [1, 1];
    assert 5 in [5];
  }

  /** bind as evidently intended: an already bound slot is taken out by value before it is added again. */
  function BindSlotsByValue(boundSlots: seq<int>, slot: int): seq<int> {
    Insert(RemoveFirst(boundSlots, slot), slot)
  }

  /** Removing one element from a sorted list leaves it sorted. */
  lemma RemoveFirstSorted(s: seq<int>, x: int)
    requires Sorted(s)
    ensures Sorted(RemoveFirst(s, x))
  {
    RemoveFirstAt(s, x);
    if x in s {
      RemoveAtSorted(s, IndexOf(s, x));
    }
  }

  /**
   * Removing by value never throws, keeps the list sorted and free of
   * repeats, and the bound slots afterwards are the old ones plus slot.
   */
  lemma BindSlotsByValueSpec(boundSlots: seq<int>, slot: int)
    requires Sorted(boundSlots) && Distinct(boundSlots)
    ensures var r := BindSlotsByValue(boundSlots, slot);
            && Sorted(r) && Distinct(r)
            && (forall v :: v in r <==> v in boundSlots || v == slot)
            && (forall v :: v in r ==> multiset(r)[v] == 1)
  {
    var removed := RemoveFirst(boundSlots, slot);
    RemoveFirstSorted(boundSlots, slot);
    RemoveFirstDistinct(boundSlots, slot);
    RemoveFirstMultiset(boundSlots, slot);
    forall v | v in boundSlots && v != slot ensures v in removed {
      assert v in multiset(boundSlots);
      assert multiset(removed)[v] == multiset(boundSlots)[v];
    }
    InsertSorted(removed, slot);
    InsertDistinct(removed, slot);
    var r := BindSlotsByValue(boundSlots, slot);
    forall v | v in r ensures multiset(r)[v] == 1 {
      DistinctCountsOnce(r, v);
    }
  }

  /** The arguments of glBindTextureUnit and of the "textures" uniform that one bind sends. */
  datatype BindCall = BindCall(unit: int, texId: int, units: seq<int>)

  /** The static list of bound slots, shared by every texture; kept sorted by bind. */
  class TextureSlots {
    var boundSlots: seq<int>

    ghost predicate Valid()
      reads this
    {
      Sorted(boundSlots)
    }

    constructor()
      ensures Valid() && boundSlots == []
    {
      boundSlots := [];
    }
  }

  class Texture {
    /** The id glGenTextures handed out. */
    const texId: int
    const width: nat
    const height: nat
    /** The bytes given to glTexImage2D. */
    ghost const uploaded: seq<bv8>

    /** Texture(BufferedImage), with the image's ARGB pixels (row-major) and the new texture's id. */
    constructor FromImage(pixels: array<bv32>, width: nat, height: nat, texId: int)
      requires pixels.Length == width * height
      ensures this.width == width && this.height == height && this.texId == texId
      ensures uploaded == Packed(pixels[..]) && |uploaded| == width * height * BPP
    {
      var buffer := Repack(pixels, width, height);
      this.width := width;
      this.height := height;
      this.texId := texId;
      this.uploaded := buffer[..];
    }

    /**
     * bind: the slot list as BindSlots says, the texture bound to unit
     * slot + 1, and every bound slot plus one sent to the shader. When the
     * removal throws nothing changes and nothing is sent.
     */
    method Bind(slot: int, slots: TextureSlots) returns (call: Option<BindCall>)
      requires slots.Valid()
      modifies slots
      ensures slots.Valid()
      ensures BindSlots(old(slots.boundSlots), slot).None? ==>
                call == None && slots.boundSlots == old(slots.boundSlots)
      ensures BindSlots(old(slots.boundSlots), slot).Some? ==>
                && slots.boundSlots == BindSlots(old(slots.boundSlots), slot).value
                && call == Some(BindCall(slot + 1, texId, UnitsOf(slots.boundSlots)))
    {
      BindSlotsSpec(slots.boundSlots, slot);
      if slot in slots.boundSlots {
        if !(0 <= slot < |slots.boundSlots|) {
          return None;
        }
        slots.boundSlots := RemoveAt(slots.boundSlots, slot);
      }
      slots.boundSlots := Insert(slots.boundSlots, slot);
      call := Some(BindCall(slot + 1, texId, UnitsOf(slots.boundSlots)));
    }
  }
}
