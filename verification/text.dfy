/** Text meshes and the text renderer of framework/src/text.cpp: a text mesh is a buffer of
    quad vertices, six per glyph; the renderer keeps its instances grouped by font texture
    so that drawing activates each font once.  Font textures are known by their addresses
    (0 is `nullptr`); coordinates are copied, never computed with, and are modelled as
    reals.  The glyph buffer is modelled by the vertices it holds, its byte image being the
    business of the byte-vector model. */
module Text {
  import Bytes
  import Mesh

  datatype Vec2 = Vec2(x: real, y: real)

  /** `QuadVertexData`. */
  datatype QuadVertex = QuadVertex(pos: Vec2, uv: Vec2)

  /** `TextMeshGlyph`: the corners of a glyph on screen and in the font atlas. */
  datatype TextMeshGlyph = TextMeshGlyph(posMin: Vec2, posMax: Vec2, uvMin: Vec2, uvMax: Vec2)

  /** The corner of a glyph on the right (`right`) or left, top (`top`) or bottom: its
      position and the matching atlas position. */
  function Corner(g: TextMeshGlyph, right: bool, top: bool): QuadVertex
  {
    QuadVertex(Vec2(if right then g.posMax.x else g.posMin.x, if top then g.posMax.y else g.posMin.y),
               Vec2(if right then g.uvMax.x else g.uvMin.x, if top then g.uvMax.y else g.uvMin.y))
  }

  /** The six vertices `addGlyph` appends: the triangles (v1, v3, v2) and (v1, v4, v3) over
      the corners v1 = min, v2 = (min x, max y), v3 = max and v4 = (max x, min y). */
  function GlyphVertices(g: TextMeshGlyph): (vs: seq<QuadVertex>)
    ensures |vs| == 6
  {
    var v1 := QuadVertex(Vec2(g.posMin.x, g.posMin.y), Vec2(g.uvMin.x, g.uvMin.y));
    var v2 := QuadVertex(Vec2(g.posMin.x, g.posMax.y), Vec2(g.uvMin.x, g.uvMax.y));
    var v3 := QuadVertex(Vec2(g.posMax.x, g.posMax.y), Vec2(g.uvMax.x, g.uvMax.y));
    var v4 := QuadVertex(Vec2(g.posMax.x, g.posMin.y), Vec2(g.uvMax.x, g.uvMin.y));
    [v1, v3, v2, v1, v4, v3]
  }

  /** Twice the signed area of a triangle of positions. */
  function Area2(a: Vec2, b: Vec2, c: Vec2): real
  {
    (b.x - a.x) * (c.y - a.y) - (b.y - a.y) * (c.x - a.x)
  }

  /** The six vertices are two triangles that share the diagonal from the minimum to the
      maximum corner, use all four corners with each position paired with the matching atlas
      corner, wind the same way, and together cover the glyph's rectangle. */
  lemma GlyphQuad(g: TextMeshGlyph)
    ensures var vs := GlyphVertices(g);
      vs[0] == vs[3] == Corner(g, false, false) && vs[1] == vs[5] == Corner(g, true, true) &&
      vs[2] == Corner(g, false, true) && vs[4] == Corner(g, true, false)
    ensures var vs := GlyphVertices(g);
      var w, h := g.posMax.x - g.posMin.x, g.posMax.y - g.posMin.y;
      Area2(vs[0].pos, vs[1].pos, vs[2].pos) == w * h &&
      Area2(vs[3].pos, vs[4].pos, vs[5].pos) == w * h
  {
  }

  /** `TextMesh`: the vertices of its glyph buffer. */
  class TextMesh {
    var vertices: seq<QuadVertex>

    /** `create`: an empty glyph buffer. */
    constructor ()
      ensures vertices == []
    {
      vertices := [];
    }

    /** `addGlyph`: six more vertices, two triangles over the glyph's corners. */
    method AddGlyph(g: TextMeshGlyph)
      modifies this
      ensures vertices == old(vertices) + GlyphVertices(g)
      ensures |vertices| == |old(vertices)| + 6
    {
      vertices := vertices + GlyphVertices(g);
    }

    /** `clear` as written: it calls `clearInstances` on a buffer that was never flagged as
        instanced, so the glyphs stay. */
    method Clear()
      modifies this
      ensures vertices == old(vertices)
    {
    }

    /** `clear` as evidently intended: the glyph buffer is emptied. */
    method ClearFixed()
      modifies this
      ensures vertices == []
    {
      vertices := [];
    }

    /** The mesh as an instance holds it: a copy. */
    function Copy(): seq<QuadVertex>
      reads this
    {
      vertices
    }
  }

  /** The glyph buffer `TextMesh::create` builds is not flagged as instanced, so
      `clearInstances` leaves whatever bytes it holds in place. */
  lemma ClearInstancesKeepsGlyphs(itemSize: int, raw: seq<Bytes.byte>)
    ensures Mesh.Run(Mesh.TextMeshCalls(itemSize)).Some?
    ensures |Mesh.Run(Mesh.TextMeshCalls(itemSize)).value.building.buffers| == 1
    ensures var b := Mesh.Run(Mesh.TextMeshCalls(itemSize)).value.building.buffers[0];
      Mesh.Emptied(b.(data := Mesh.ByteData(raw, itemSize)), false) == b.(data := Mesh.ByteData(raw, itemSize))
  {
    Mesh.TextMeshLayout(itemSize);
  }

  /** `TextMeshInstance`: a copy of a text mesh, where and how large to draw it, and its font
      texture's address. */
  datatype TextMeshInstance = TextMeshInstance(font: int, mesh: seq<QuadVertex>,
                                               textSize: real, textPosition: Vec2)

  /** The instances are in descending order of font address. */
  predicate Descending(instances: seq<TextMeshInstance>)
  {
    forall i, j :: 0 <= i < j < |instances| ==> instances[i].font >= instances[j].font
  }

  /** `std::upper_bound` with the comparison `font > instance.font`: the position just past
      every instance whose font address is at least `font`. */
  function UpperBound(instances: seq<TextMeshInstance>, font: int): (k: nat)
    requires Descending(instances)
    ensures k <= |instances|
    ensures forall i :: 0 <= i < k ==> instances[i].font >= font
    ensures forall i :: k <= i < |instances| ==> instances[i].font < font
  {
    if instances == [] || instances[0].font < font then 0
    else 1 + UpperBound(instances[1..], font)
  }

  /** The instances of one font, in order. */
  function OfFont(instances: seq<TextMeshInstance>, font: int): seq<TextMeshInstance>
  {
    if instances == [] then []
    else
      var last := instances[|instances| - 1];
      OfFont(instances[..|instances| - 1], font) + (if last.font == font then [last] else [])
  }

  lemma {:induction false} OfFontAppend(a: seq<TextMeshInstance>, b: seq<TextMeshInstance>, font: int)
    ensures OfFont(a + b, font) == OfFont(a, font) + OfFont(b, font)
  {
    if b == [] {
      assert a + b == a;
    } else {
      var n := |b| - 1;
      assert (a + b)[..|a + b| - 1] == a + b[..n];
      OfFontAppend(a, b[..n], font);
    }
  }

  lemma {:induction false} OfFontNone(instances: seq<TextMeshInstance>, font: int)
    requires forall i :: 0 <= i < |instances| ==> instances[i].font != font
    ensures OfFont(instances, font) == []
  {
    if instances != [] {
      OfFontNone(instances[..|instances| - 1], font);
    }
  }

  /** The instances after `addString` of `inst`. */
  function Inserted(instances: seq<TextMeshInstance>, inst: TextMeshInstance): seq<TextMeshInstance>
    requires Descending(instances)
  {
    var k := UpperBound(instances, inst.font);
    instances[..k] + [inst] + instances[k..]
  }

  /** Inserting keeps the instances in descending font order and adds exactly `inst`. */
  lemma InsertedDescending(instances: seq<TextMeshInstance>, inst: TextMeshInstance)
    requires Descending(instances)
    ensures Descending(Inserted(instances, inst))
    ensures multiset(Inserted(instances, inst)) == multiset(instances) + multiset{inst}
  {
    InsertAtSplit(instances, UpperBound(instances, inst.font), inst);
  }

  /** Putting `x` at position `k` of a descending sequence, after every font at least its own
      and before every font below it, keeps the sequence descending and adds exactly `x`. */
  lemma InsertAtSplit(s: seq<TextMeshInstance>, k: int, x: TextMeshInstance)
    requires Descending(s) && 0 <= k <= |s|
    requires forall i :: 0 <= i < k ==> s[i].font >= x.font
    requires forall i :: k <= i < |s| ==> s[i].font < x.font
    ensures Descending(s[..k] + [x] + s[k..])
    ensures multiset(s[..k] + [x] + s[k..]) == multiset(s) + multiset{x}
  {
    var r := s[..k] + [x] + s[k..];
    forall i, j | 0 <= i < j < |r|
      ensures r[i].font >= r[j].font
    {
      InsertAtIndex(s, k, x, i);
      InsertAtIndex(s, k, x, j);
    }
    InsertAtMultiset(s, k, x);
  }

  lemma InsertAtIndex(s: seq<TextMeshInstance>, k: int, x: TextMeshInstance, i: int)
    requires 0 <= k <= |s| && 0 <= i <= |s|
    ensures (s[..k] + [x] + s[k..])[i] == if i < k then s[i] else if i == k then x else s[i - 1]
  {
  }

  lemma InsertAtMultiset(s: seq<TextMeshInstance>, k: int, x: TextMeshInstance)
    requires 0 <= k <= |s|
    ensures multiset(s[..k] + [x] + s[k..]) == multiset(s) + multiset{x}
  {
    assert s == s[..k] + s[k..];
  }

  /** Inserting puts `inst` last among the instances of its font and leaves every other
      font's instances as they were. */
  lemma InsertedOfFont(instances: seq<TextMeshInstance>, inst: TextMeshInstance, f: int)
    requires Descending(instances)
    ensures OfFont(Inserted(instances, inst), f) ==
      OfFont(instances, f) + (if f == inst.font then [inst] else [])
  {
    var k := UpperBound(instances, inst.font);
    var a, b := instances[..k], instances[k..];
    assert instances == a + b;
    SplitOfFont(a, inst, b, f);
  }

  /** Of `a + [x] + b`, where every font in `b` differs from `x`'s, the instances of one font
      are those of `a + b` with `x` added last when the font is `x`'s. */
  lemma SplitOfFont(a: seq<TextMeshInstance>, x: TextMeshInstance, b: seq<TextMeshInstance>, f: int)
    requires forall i :: 0 <= i < |b| ==> b[i].font < x.font
    ensures OfFont(a + [x] + b, f) == OfFont(a + b, f) + (if f == x.font then [x] else [])
  {
    OfFontAppend(a + [x], b, f);
    OfFontAppend(a, [x], f);
    OfFontAppend(a, b, f);
    assert [x][..0] == [];
    if f == x.font {
      OfFontNone(b, f);
    }
  }

  /** The fonts the draw loop activates, starting with no active font: a font is activated
      whenever it differs from the active one. */
  function Activations(instances: seq<TextMeshInstance>): seq<int>
  {
    if instances == [] then []
    else
      var n := |instances| - 1;
      var active := if n == 0 then 0 else instances[n - 1].font;
      Activations(instances[..n]) + (if instances[n].font != active then [instances[n].font] else [])
  }

  /** With no null font, the draw loop activates exactly the fonts of the instances, the
      last one activated being the last instance's. */
  lemma {:induction false} ActivationsFonts(instances: seq<TextMeshInstance>)
    requires forall i :: 0 <= i < |instances| ==> instances[i].font > 0
    ensures forall f :: f in Activations(instances) <==>
      exists i :: 0 <= i < |instances| && instances[i].font == f
    ensures instances != [] ==>
      |Activations(instances)| > 0 &&
      Activations(instances)[|Activations(instances)| - 1] == instances[|instances| - 1].font
  {
    if instances != [] {
      var n := |instances| - 1;
      var init := instances[..n];
      assert forall i :: 0 <= i < n ==> init[i] == instances[i];
      ActivationsFonts(init);
      var a := Activations(instances);
      forall f ensures f in a <==> exists i :: 0 <= i < |instances| && instances[i].font == f
      {
        if exists i :: 0 <= i < |instances| && instances[i].font == f {
          var i :| 0 <= i < |instances| && instances[i].font == f;
          if i < n { assert init[i].font == f; }
          else if n > 0 && instances[n].font == instances[n - 1].font {
            assert init[n - 1].font == f;
          }
        }
      }
    }
  }

  /** With the instances in descending font order and no null font, the draw loop activates
      the fonts in strictly descending order, hence each font once. */
  lemma {:induction false} ActivationsDescending(instances: seq<TextMeshInstance>)
    requires Descending(instances)
    requires forall i :: 0 <= i < |instances| ==> instances[i].font > 0
    ensures var a := Activations(instances);
      forall i, j :: 0 <= i < j < |a| ==> a[i] > a[j]
  {
    if instances != [] {
      var n := |instances| - 1;
      var init := instances[..n];
      assert forall i :: 0 <= i < n ==> init[i] == instances[i];
      ActivationsDescending(init);
      if n > 0 {
        ActivationsFonts(init);
        var a0 := Activations(init);
        var last := |a0| - 1;
        assert forall k :: 0 <= k < last ==> a0[k] > a0[last];
        assert instances[n].font <= instances[n - 1].font;
      }
    }
  }

  /** The font-switching part of the draw loop: the fonts it activates, in order. */
  method DrawFonts(instances: seq<TextMeshInstance>) returns (activated: seq<int>)
    requires forall i :: 0 <= i < |instances| ==> instances[i].font > 0
    ensures activated == Activations(instances)
  {
    activated := [];
    var font := 0;
    var i := 0;
    while i < |instances|
      invariant 0 <= i <= |instances|
      invariant activated == Activations(instances[..i])
      invariant font == if i == 0 then 0 else instances[i - 1].font
    {
      assert instances[..i + 1][..i] == instances[..i];
      if font != instances[i].font {
        font := instances[i].font;
        activated := activated + [font];
      }
      i := i + 1;
    }
    assert instances[..i] == instances;
  }

  /** `TextRenderer`: its instances, kept in descending font order. */
  class TextRenderer {
    var instances: seq<TextMeshInstance>

    predicate Valid()
      reads this
    {
      Descending(instances)
    }

    constructor ()
      ensures instances == [] && Valid()
    {
      instances := [];
    }

    /** `addString`: a copy of `mesh` is inserted after every instance whose font address is
        at least `font`'s, so the instances stay in descending font order and the new one
        comes last among those of its font. */
    method AddString(textPosition: Vec2, textSize: real, font: int, mesh: TextMesh)
      requires Valid()
      modifies this
      ensures Valid()
      ensures instances == Inserted(old(instances), TextMeshInstance(font, mesh.Copy(), textSize, textPosition))
    {
      var inst := TextMeshInstance(font, mesh.vertices, textSize, textPosition);
      InsertedDescending(instances, inst);
      var k := UpperBound(instances, font);
      instances := instances[..k] + [inst] + instances[k..];
    }

    /** The font switching of `draw`: each font is activated once, in descending address
        order. */
    method Draw() returns (activated: seq<int>)
      requires Valid() && forall i :: 0 <= i < |instances| ==> instances[i].font > 0
      ensures activated == Activations(instances)
      ensures forall i, j :: 0 <= i < j < |activated| ==> activated[i] > activated[j]
    {
      activated := DrawFonts(instances);
      ActivationsDescending(instances);
    }

    /** `clear`: no instance is left. */
    method Clear()
      modifies this
      ensures instances == [] && Valid()
    {
      instances := [];
    }
  }
}
