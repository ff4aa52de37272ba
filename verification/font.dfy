/** src/font.cpp: glyph and kerning lookup in a generated font, the splitting of a string into
    lines of glyphs that `createTextMesh` does before laying them out, the string and config
    hashes, and `FontTextMeshCache`, which keeps each text mesh alive for two `clear`s after
    its last use.  A C string is the sequence of its `char` values before the terminating
    NUL; glyph metrics are `real`; glyph positions, alignment and the GPU upload of the mesh
    are not part of this model. */
module Font {
  import opened Wrappers
  import opened Bytes

  // Character values `createTextMesh` and `getGlyph` test for.
  const Tab: int := 9
  const Newline: int := 10
  const CarriageReturn: int := 13
  const Space: int := 32
  const QuestionMark: int := 63

  datatype Vec2 = Vec2(x: real, y: real)

  const Origin := Vec2(0.0, 0.0)

  /** `FontGlyph`: the glyph's index in the font, its advance and its quad in the font's
      units and in the atlas. */
  datatype FontGlyph = FontGlyph(index: int, advance: real, posMin: Vec2, posMax: Vec2, uvMin: Vec2, uvMax: Vec2)

  /** `FontGlyph glyph = {}`. */
  const EmptyGlyph := FontGlyph(0, 0.0, Origin, Origin, Origin, Origin)

  /** The lookup part of `FontGenerationOutput`: glyphs by code point and kerning advances by
      pair of glyph indices. */
  datatype FontData = FontData(glyphs: map<int, FontGlyph>, kerning: map<(int, int), real>)

  /** `FontGenerationOutput::getGlyph`: the stored glyph when `c` has one; otherwise an empty
      glyph, marked with index -1 when there is no '?' glyph either. */
  function GetGlyph(data: FontData, c: int): (g: FontGlyph)
    ensures c in data.glyphs ==> g == data.glyphs[c]
    ensures c !in data.glyphs ==> g == EmptyGlyph.(index := g.index)
    ensures c !in data.glyphs ==> (g.index == -1 <==> QuestionMark !in data.glyphs)
  {
    if c in data.glyphs then data.glyphs[c]
    else if QuestionMark in data.glyphs then EmptyGlyph
    else EmptyGlyph.(index := -1)
  }

  /** As written, a missing character with a '?' glyph present gets the empty glyph, not the
      '?' glyph: the fallback is looked up and then dropped. */
  lemma MissingGlyphDropsFallback(data: FontData, c: int)
    requires c !in data.glyphs && QuestionMark in data.glyphs
    requires data.glyphs[QuestionMark] != EmptyGlyph
    ensures GetGlyph(data, c) != data.glyphs[QuestionMark]
  {
  }

  /** The lookup with the '?' glyph standing in for a missing character. */
  function GetGlyphOrFallback(data: FontData, c: int): (g: FontGlyph)
    ensures c in data.glyphs ==> g == data.glyphs[c]
    ensures c !in data.glyphs && QuestionMark in data.glyphs ==> g == data.glyphs[QuestionMark]
    ensures c !in data.glyphs && QuestionMark !in data.glyphs ==> g.index == -1
  {
    if c in data.glyphs then data.glyphs[c]
    else if QuestionMark in data.glyphs then data.glyphs[QuestionMark]
    else EmptyGlyph.(index := -1)
  }

  /** The fallback changes nothing about which characters fail: both lookups answer index -1
      for exactly the same characters, unless a stored glyph itself has index -1. */
  lemma FallbackFailsAlike(data: FontData, c: int)
    requires forall k :: k in data.glyphs ==> data.glyphs[k].index != -1
    ensures GetGlyph(data, c).index == -1 <==> GetGlyphOrFallback(data, c).index == -1
    ensures GetGlyph(data, c).index == -1 <==> c !in data.glyphs && QuestionMark !in data.glyphs
  {
  }

  /** `Font::getKerning`: the kerning advance of the glyph pair when both characters have
      glyphs and the pair is in the table, 0 otherwise. */
  function GetKerning(data: FontData, c1: int, c2: int): (k: real)
    ensures c1 in data.glyphs && c2 in data.glyphs &&
            (data.glyphs[c1].index, data.glyphs[c2].index) in data.kerning ==>
              k == data.kerning[(data.glyphs[c1].index, data.glyphs[c2].index)]
    ensures k != 0.0 ==> c1 in data.glyphs && c2 in data.glyphs &&
                         (data.glyphs[c1].index, data.glyphs[c2].index) in data.kerning
  {
    if c1 in data.glyphs && c2 in data.glyphs then
      var pair := (data.glyphs[c1].index, data.glyphs[c2].index);
      if pair in data.kerning then data.kerning[pair] else 0.0
    else 0.0
  }

  // ---------------------------------------------------------------------------------------
  // Line splitting in `createTextMesh`

  /** Characters that only move the cursor or are ignored. */
  predicate Drawable(c: int)
  {
    c != CarriageReturn && c != Newline && c != Space && c != Tab
  }

  /** A character `createTextMesh` throws on: drawn, and without a glyph or a '?'. */
  predicate Missing(data: FontData, c: int)
  {
    Drawable(c) && GetGlyph(data, c).index == -1
  }

  /** The throw of `createTextMesh` for a missing character. */
  datatype LayoutError = MissingGlyph(c: int)

  /** The lines after one more character: '\r', ' ' and '\t' add no glyph, '\n' starts a new
      line, any other character adds its glyph to the current line. */
  function LayoutChar(data: FontData, lines: seq<seq<FontGlyph>>, c: int): (r: Result<seq<seq<FontGlyph>>, LayoutError>)
    requires |lines| >= 1
    ensures r.Err? <==> Missing(data, c)
    ensures r.Ok? ==> |r.value| >= 1
  {
    if c == Newline then Ok(lines + [[]])
    else if !Drawable(c) then Ok(lines)
    else
      var g := GetGlyph(data, c);
      if g.index == -1 then Err(MissingGlyph(c))
      else Ok(lines[..|lines| - 1] + [lines[|lines| - 1] + [g]])
  }

  /** The glyphs of `s`, line by line, or the first missing character. */
  function Layout(data: FontData, s: seq<int>): (r: Result<seq<seq<FontGlyph>>, LayoutError>)
    ensures r.Ok? ==> |r.value| >= 1
  {
    if s == [] then Ok([[]])
    else
      match Layout(data, s[..|s| - 1])
      case Err(e) => Err(e)
      case Ok(lines) => LayoutChar(data, lines, s[|s| - 1])
  }

  /** The number of occurrences of `c` in `s`. */
  function CountOf(s: seq<int>, c: int): nat
  {
    if s == [] then 0 else CountOf(s[..|s| - 1], c) + (if s[|s| - 1] == c then 1 else 0)
  }

  /** The glyphs of the drawn characters of `s`, in order. */
  function Drawn(data: FontData, s: seq<int>): seq<FontGlyph>
  {
    if s == [] then []
    else Drawn(data, s[..|s| - 1]) + (if Drawable(s[|s| - 1]) then [GetGlyph(data, s[|s| - 1])] else [])
  }

  /** A laid-out string has one line more than it has newlines, and its lines hold the glyphs
      of its drawn characters, in order. */
  lemma {:induction false} LayoutShape(data: FontData, s: seq<int>)
    requires Layout(data, s).Ok?
    ensures |Layout(data, s).value| == CountOf(s, Newline) + 1
    ensures Concat(Layout(data, s).value) == Drawn(data, s)
  {
    if s != [] {
      var p := s[..|s| - 1];
      var c := s[|s| - 1];
      LayoutShape(data, p);
      var lines := Layout(data, p).value;
      var n := |lines|;
      if c == Newline {
        assert (lines + [[]])[..n] == lines;
      } else if Drawable(c) {
        var next := lines[..n - 1] + [lines[n - 1] + [GetGlyph(data, c)]];
        assert next[..n - 1] == lines[..n - 1];
      }
    }
  }

  /** `createTextMesh` throws exactly when some drawn character is missing. */
  lemma {:induction false} LayoutFails(data: FontData, s: seq<int>)
    ensures Layout(data, s).Err? <==> exists i :: 0 <= i < |s| && Missing(data, s[i])
  {
    if s != [] {
      var p := s[..|s| - 1];
      LayoutFails(data, p);
      if exists i :: 0 <= i < |p| && Missing(data, p[i]) {
        var i :| 0 <= i < |p| && Missing(data, p[i]);
        assert s[i] == p[i];
      }
      if exists i :: 0 <= i < |s| && Missing(data, s[i]) {
        var i :| 0 <= i < |s| && Missing(data, s[i]);
        if i < |p| {
          assert p[i] == s[i];
        }
      }
    }
  }

  /** Once a prefix has thrown, the whole string throws the same. */
  lemma {:induction false} LayoutErrPersists(data: FontData, s: seq<int>, k: int)
    requires 0 <= k <= |s| && Layout(data, s[..k]).Err?
    ensures Layout(data, s) == Layout(data, s[..k])
    decreases |s| - k
  {
    if k < |s| {
      assert s[..k + 1][..k] == s[..k];
      LayoutErrPersists(data, s, k + 1);
    } else {
      assert s[..k] == s;
    }
  }

  /** The character loop of `createTextMesh`: the glyphs of each line, split at '\n'. */
  method CreateTextLines(data: FontData, s: seq<int>) returns (r: Result<seq<seq<FontGlyph>>, LayoutError>)
    ensures r == Layout(data, s)
  {
    var lines: seq<seq<FontGlyph>> := [];
    var line: seq<FontGlyph> := [];
    assert s[..0] == [] && Layout(data, s[..0]) == Ok([[]]);
    assert lines + [line] == [[]];
    for i := 0 to |s|
      invariant Layout(data, s[..i]) == Ok(lines + [line])
    {
      assert s[..i + 1][..i] == s[..i];
      var c := s[i];
      assert (lines + [line])[..|lines|] == lines;
      if c == CarriageReturn {
      } else if c == Newline {
        lines := lines + [line];
        line := [];
      } else if c == Space || c == Tab {
      } else {
        var current := GetGlyph(data, c);
        if current.index == -1 {
          LayoutErrPersists(data, s, i + 1);
          return Err(MissingGlyph(c));
        }
        line := line + [current];
      }
    }
    lines := lines + [line];
    assert s[..|s|] == s;
    r := Ok(lines);
  }

  // ---------------------------------------------------------------------------------------
  // Hashes, in `size_t`

  const HashModulus: int := 0x1_0000_0000_0000_0000

  function Pow31(n: nat): (p: int)
    ensures p >= 1
  {
    if n == 0 then 1 else 31 * Pow31(n - 1)
  }

  /** The base-31 polynomial of `s`, its first character the most significant. */
  function PolySum(s: seq<int>): int
  {
    if s == [] then 0 else s[0] * Pow31(|s| - 1) + PolySum(s[1..])
  }

  /** One more character shifts the polynomial by one place. */
  lemma {:induction false} PolySumSnoc(s: seq<int>, c: int)
    ensures PolySum(s + [c]) == 31 * PolySum(s) + c
  {
    if s == [] {
      assert [c][1..] == [];
    } else {
      assert (s + [c])[1..] == s[1..] + [c];
      PolySumSnoc(s[1..], c);
      assert s[0] * Pow31(|s|) == 31 * (s[0] * Pow31(|s| - 1));
    }
  }

  /** Reducing modulo 2^64 before a multiply-add step gives the same residue. */
  lemma ModStep(a: int, c: int)
    ensures (c + (a % HashModulus) * 31) % HashModulus == (c + a * 31) % HashModulus
  {
    var m := HashModulus;
    var q, r := a / m, a % m;
    var x := c + r * 31;
    var y := c + a * 31;
    assert a * 31 == (q * 31) * m + r * 31;
    assert y == x + (q * 31) * m;
    assert x == (x / m) * m + x % m;
    assert y == (x / m + q * 31) * m + x % m;
    Arith.DivUnique(y, m, x / m + q * 31, x % m);
  }

  /** `hash_string`: the base-31 polynomial of the string's characters modulo 2^64. */
  method HashString(s: seq<int>) returns (h: int)
    ensures h == PolySum(s) % HashModulus
  {
    h := 0;
    for i := 0 to |s|
      invariant h == PolySum(s[..i]) % HashModulus
    {
      assert s[..i + 1] == s[..i] + [s[i]];
      PolySumSnoc(s[..i], s[i]);
      ModStep(PolySum(s[..i]), s[i]);
      h := (s[i] + h * 31) % HashModulus;
    }
    assert s[..|s|] == s;
  }

  /** `TextMeshGenerationConfig`: the two alignments, and the line height scale as the
      integer `(size_t)(lineHeightScale * 1000.f)` that the hash uses. */
  datatype TextConfig = TextConfig(alignX: int, alignY: int, scaledLineHeight: int)

  /** `hash_config`: three multiply-add steps. */
  function HashConfig(config: TextConfig): int
  {
    var r1 := (config.alignX + 0 * 31) % HashModulus;
    var r2 := (config.alignY + r1 * 31) % HashModulus;
    (config.scaledLineHeight + r2 * 31) % HashModulus
  }

  /** `hash_config` is the base-31 polynomial of the config's three numbers. */
  lemma HashConfigIsPolynomial(config: TextConfig)
    ensures HashConfig(config) == PolySum([config.alignX, config.alignY, config.scaledLineHeight]) % HashModulus
  {
    var a, b, c := config.alignX, config.alignY, config.scaledLineHeight;
    PolySumSnoc([], a);
    assert [a] == [] + [a];
    PolySumSnoc([a], b);
    assert [a, b] == [a] + [b];
    PolySumSnoc([a, b], c);
    assert [a, b, c] == [a, b] + [c];
    ModStep(a, b);
    ModStep(31 * a + b, c);
  }

  /** `hash_combine`: `hash1 + 31 * hash2` in `size_t`. */
  function HashCombine(h1: int, h2: int): (h: int)
    ensures 0 <= h < HashModulus
  {
    (h1 + h2 * 31) % HashModulus
  }

  /** The key of a text mesh in the cache. */
  function CacheKey(text: seq<int>, config: TextConfig): int
  {
    HashCombine(PolySum(text) % HashModulus, HashConfig(config))
  }

  // ---------------------------------------------------------------------------------------
  // FontTextMeshCache

  /** A text mesh, identified by what it was made from. */
  datatype TextMesh = TextMesh(text: seq<int>, config: TextConfig, lines: seq<seq<FontGlyph>>)

  datatype CacheEntry = CacheEntry(mesh: TextMesh, keepAliveFrameCount: int)

  datatype CacheOutcome = CacheOutcome(mesh: Result<TextMesh, LayoutError>, strings: map<int, CacheEntry>)

  /** `getOrCreateTextMesh`: on a key hit the cached mesh, on a miss a new mesh, which is
      stored; either way the key's entry is kept alive for two more `clear`s.  A throwing
      `createTextMesh` leaves the cache as it was. */
  function CacheGet(strings: map<int, CacheEntry>, text: seq<int>, config: TextConfig, data: FontData): (r: CacheOutcome)
    ensures var key := CacheKey(text, config);
            r.mesh.Ok? ==> key in r.strings && r.strings[key] == CacheEntry(r.mesh.value, 2)
    ensures r.mesh.Err? ==> r.strings == strings && CacheKey(text, config) !in strings
    ensures r.mesh.Ok? ==> r.strings.Keys == strings.Keys + {CacheKey(text, config)}
    ensures forall k :: k in strings && k != CacheKey(text, config) ==> r.strings[k] == strings[k]
    ensures CacheKey(text, config) in strings ==> r.mesh == Ok(strings[CacheKey(text, config)].mesh)
    ensures CacheKey(text, config) !in strings ==>
              r.mesh == (match Layout(data, text)
                         case Ok(lines) => Ok(TextMesh(text, config, lines))
                         case Err(e) => Err(e))
  {
    var key := CacheKey(text, config);
    if key in strings then
      CacheOutcome(Ok(strings[key].mesh), strings[key := strings[key].(keepAliveFrameCount := 2)])
    else
      match Layout(data, text)
      case Err(e) => CacheOutcome(Err(e), strings)
      case Ok(lines) =>
        var mesh := TextMesh(text, config, lines);
        CacheOutcome(Ok(mesh), strings[key := CacheEntry(mesh, 2)])
  }

  /** The cache keys meshes by hash alone, so two texts whose hashes collide share an entry:
      "Aa" and "BB" have the same base-31 hash, and asking for "BB" after "Aa" returns the
      mesh of "Aa". */
  lemma CollidingTextsShareMesh(config: TextConfig, data: FontData)
    ensures CacheKey([65, 97], config) == CacheKey([66, 66], config)
    ensures var first := CacheGet(map[], [65, 97], config, data);
            first.mesh.Ok? ==>
              CacheGet(first.strings, [66, 66], config, data).mesh == first.mesh &&
              first.mesh.value.text != [66, 66]
  {
    assert PolySum([65, 97]) == 65 * 31 + 97 by {
      assert [65, 97][1..] == [97];
    }
    assert PolySum([66, 66]) == 66 * 31 + 66 by {
      assert [66, 66][1..] == [66];
    }
  }

  /** The hash key leaves the font out, so a text asked for in one font and then in another
      gets the mesh laid out in the first. */
  lemma OtherFontSharesMesh(text: seq<int>, config: TextConfig, a: FontData, b: FontData)
    ensures var first := CacheGet(map[], text, config, a);
            first.mesh.Ok? ==>
              CacheGet(first.strings, text, config, b).mesh == first.mesh &&
              Layout(a, text) == Ok(first.mesh.value.lines)
  {
  }

  /** A cache keyed by the text, the config and the font themselves. */
  type TextKey = (seq<int>, TextConfig, FontData)

  /** Every entry holds the mesh of its own key: that text and config, laid out in that
      font. */
  predicate EntriesMatchKeys(strings: map<TextKey, CacheEntry>)
  {
    forall key :: key in strings ==>
      strings[key].mesh.text == key.0 && strings[key].mesh.config == key.1 &&
      Layout(key.2, key.0) == Ok(strings[key].mesh.lines)
  }

  datatype KeyedOutcome = KeyedOutcome(mesh: Result<TextMesh, LayoutError>, strings: map<TextKey, CacheEntry>)

  /** `getOrCreateTextMesh` keyed by text, config and font. */
  function CacheGetByText(strings: map<TextKey, CacheEntry>, text: seq<int>, config: TextConfig, data: FontData): (r: KeyedOutcome)
    requires EntriesMatchKeys(strings)
    ensures EntriesMatchKeys(r.strings)
    ensures r.mesh.Ok? ==> r.mesh.value.text == text && r.mesh.value.config == config &&
                           Layout(data, text) == Ok(r.mesh.value.lines)
    ensures r.mesh.Err? ==> r.strings == strings && Layout(data, text).Err?
    ensures r.mesh.Ok? ==> (text, config, data) in r.strings && r.strings[(text, config, data)].keepAliveFrameCount == 2
    ensures (text, config, data) in strings ==> r.mesh == Ok(strings[(text, config, data)].mesh)
  {
    var key := (text, config, data);
    if key in strings then
      KeyedOutcome(Ok(strings[key].mesh), strings[key := strings[key].(keepAliveFrameCount := 2)])
    else
      match Layout(data, text)
      case Err(e) => KeyedOutcome(Err(e), strings)
      case Ok(lines) =>
        var mesh := TextMesh(text, config, lines);
        KeyedOutcome(Ok(mesh), strings[key := CacheEntry(mesh, 2)])
  }

  /** The entries `clear` keeps: every count one lower, those at zero or below gone. */
  function Decayed(strings: map<int, CacheEntry>): (r: map<int, CacheEntry>)
    ensures forall k :: k in r <==> k in strings && strings[k].keepAliveFrameCount > 1
    ensures forall k :: k in r ==> r[k] == strings[k].(keepAliveFrameCount := strings[k].keepAliveFrameCount - 1)
  {
    map k | k in strings && strings[k].keepAliveFrameCount - 1 > 0 ::
      strings[k].(keepAliveFrameCount := strings[k].keepAliveFrameCount - 1)
  }

  /** An entry last used at count 2 survives one `clear` and is gone after the second. */
  lemma TwoClearsEvict(strings: map<int, CacheEntry>, key: int)
    requires key in strings && strings[key].keepAliveFrameCount == 2
    ensures key in Decayed(strings) && key !in Decayed(Decayed(strings))
  {
  }

  /** The entries while `clear` walks the cache: the keys still to visit as they were, the
      visited ones decayed. */
  function PartlyDecayed(strings: map<int, CacheEntry>, todo: seq<int>): map<int, CacheEntry>
  {
    map k | k in strings && (k in todo || strings[k].keepAliveFrameCount - 1 > 0) ::
      if k in todo then strings[k] else strings[k].(keepAliveFrameCount := strings[k].keepAliveFrameCount - 1)
  }

  /** `order` lists each key of the map once: the unordered map's iteration order, which the
      model leaves open. */
  ghost predicate IsKeyOrder(strings: map<int, CacheEntry>, order: seq<int>)
  {
    (forall k :: k in strings <==> k in order) &&
    (forall i, j :: 0 <= i < j < |order| ==> order[i] != order[j])
  }

  /** One visit of the erase loop: the entry one frame older, erased at zero or below. */
  function DecayOne(strings: map<int, CacheEntry>, k: int): map<int, CacheEntry>
    requires k in strings
  {
    var e := strings[k].(keepAliveFrameCount := strings[k].keepAliveFrameCount - 1);
    if e.keepAliveFrameCount <= 0 then strings - {k} else strings[k := e]
  }

  /** Visiting the next key in `order` moves it from the unvisited keys to the visited ones. */
  lemma DecayStep(strings: map<int, CacheEntry>, order: seq<int>, i: int)
    requires IsKeyOrder(strings, order) && 0 <= i < |order|
    ensures order[i] in PartlyDecayed(strings, order[i..])
    ensures DecayOne(PartlyDecayed(strings, order[i..]), order[i]) == PartlyDecayed(strings, order[i + 1..])
  {
    var k := order[i];
    var todo, rest := order[i..], order[i + 1..];
    assert todo[0] == k;
    assert forall x :: x in rest <==> x in todo && x != k by {
      forall x | x in todo && x != k ensures x in rest {
        var j :| 0 <= j < |todo| && todo[j] == x;
        assert j != 0;
        assert rest[j - 1] == x;
      }
      forall x | x in rest ensures x != k {
        var j :| 0 <= j < |rest| && rest[j] == x;
        assert order[i + 1 + j] == x;
      }
    }
  }

  /** Before the loop nothing is visited; after it, everything is. */
  lemma DecayBounds(strings: map<int, CacheEntry>, order: seq<int>)
    requires IsKeyOrder(strings, order)
    ensures PartlyDecayed(strings, order[0..]) == strings
    ensures PartlyDecayed(strings, order[|order|..]) == Decayed(strings)
  {
    assert order[0..] == order;
    assert order[|order|..] == [];
    assert forall k :: k in strings ==> k in order;
  }

  /** The erase loop of `clear`, visiting the keys in `order`. */
  method DecayEntries(strings: map<int, CacheEntry>, order: seq<int>) returns (r: map<int, CacheEntry>)
    requires IsKeyOrder(strings, order)
    ensures r == Decayed(strings)
  {
    r := strings;
    DecayBounds(strings, order);
    for i := 0 to |order|
      invariant r == PartlyDecayed(strings, order[i..])
    {
      DecayStep(strings, order, i);
      var k := order[i];
      var e := r[k].(keepAliveFrameCount := r[k].keepAliveFrameCount - 1);
      if e.keepAliveFrameCount <= 0 {
        r := r - {k};
      } else {
        r := r[k := e];
      }
    }
  }

  /** `FontTextMeshCache`: text meshes by key. */
  class FontTextMeshCache {
    var strings: map<int, CacheEntry>

    constructor ()
      ensures strings == map[]
    {
      strings := map[];
    }

    /** `getOrCreateTextMesh`. */
    method GetOrCreateTextMesh(text: seq<int>, config: TextConfig, data: FontData) returns (r: Result<TextMesh, LayoutError>)
      modifies this
      ensures CacheOutcome(r, strings) == CacheGet(old(strings), text, config, data)
      ensures CacheKey(text, config) in old(strings) ==> r == Ok(old(strings)[CacheKey(text, config)].mesh)
      ensures r.Ok? && CacheKey(text, config) !in old(strings) ==> r.value.text == text && r.value.config == config
    {
      var textHash := HashString(text);
      var key := HashCombine(textHash, HashConfig(config));
      if key !in strings {
        var lines := CreateTextLines(data, text);
        if lines.Err? {
          return Err(lines.error);
        }
        strings := strings[key := CacheEntry(TextMesh(text, config, lines.value), 0)];
      }
      strings := strings[key := strings[key].(keepAliveFrameCount := 2)];
      r := Ok(strings[key].mesh);
    }

    /** `clear`: one frame older; entries at zero or below are erased.  `order` is the
        map's iteration order. */
    method Clear(order: seq<int>)
      requires IsKeyOrder(strings, order)
      modifies this
      ensures strings == Decayed(old(strings))
    {
      strings := DecayEntries(strings, order);
    }

    /** `forceClear`: every entry erased (freeing the meshes on the GPU is not modelled). */
    method ForceClear()
      modifies this
      ensures strings == map[]
    {
      strings := map[];
    }
  }

  // ---------------------------------------------------------------------------------------
  // Font settings

  /** `FontGenerationInput`; `filepath` is `None` for a null path. */
  datatype FontGenerationInput = FontGenerationInput(filepath: Option<string>, generationScale: real, linePaddingTop: real, linePaddingBottom: real)

  /** The settings of a `Font` before generation.  The generated data comes from a backend
      this model does not see. */
  class Font {
    var characterPaddingX: real
    var characterPaddingY: real
    var linePaddingTop: real
    var linePaddingBottom: real
    var tabSpaceCount: int
    var input: FontGenerationInput

    constructor ()
      ensures characterPaddingX == 0.0 && characterPaddingY == 0.0
      ensures linePaddingTop == 0.0 && linePaddingBottom == 0.0 && tabSpaceCount == 4
      ensures input == FontGenerationInput(None, 0.0, 0.0, 0.0)
    {
      characterPaddingX := 0.0;
      characterPaddingY := 0.0;
      linePaddingTop := 0.0;
      linePaddingBottom := 0.0;
      tabSpaceCount := 4;
      input := FontGenerationInput(None, 0.0, 0.0, 0.0);
    }

    /** `source`. */
    method Source(filepath: string)
      modifies this
      ensures input == old(input).(filepath := Some(filepath))
      ensures characterPaddingX == old(characterPaddingX) && characterPaddingY == old(characterPaddingY)
      ensures linePaddingTop == old(linePaddingTop) && linePaddingBottom == old(linePaddingBottom)
      ensures tabSpaceCount == old(tabSpaceCount)
    {
      input := input.(filepath := Some(filepath));
    }

    /** `scale`. */
    method Scale(generationScale: real)
      modifies this
      ensures input == old(input).(generationScale := generationScale)
      ensures characterPaddingX == old(characterPaddingX) && characterPaddingY == old(characterPaddingY)
      ensures linePaddingTop == old(linePaddingTop) && linePaddingBottom == old(linePaddingBottom)
      ensures tabSpaceCount == old(tabSpaceCount)
    {
      input := input.(generationScale := generationScale);
    }

    /** `linePadding` as written: it copies the font's own padding fields into the input,
        and its arguments are never read. */
    method LinePadding(paddingTop: real, paddingBottom: real)
      modifies this
      ensures input == old(input).(linePaddingTop := linePaddingTop, linePaddingBottom := linePaddingBottom)
      ensures characterPaddingX == old(characterPaddingX) && characterPaddingY == old(characterPaddingY)
      ensures linePaddingTop == old(linePaddingTop) && linePaddingBottom == old(linePaddingBottom)
      ensures tabSpaceCount == old(tabSpaceCount)
    {
      input := input.(linePaddingTop := linePaddingTop, linePaddingBottom := linePaddingBottom);
    }

    /** `linePadding` storing its arguments in the input. */
    method SetLinePadding(paddingTop: real, paddingBottom: real)
      modifies this
      ensures input == old(input).(linePaddingTop := paddingTop, linePaddingBottom := paddingBottom)
      ensures characterPaddingX == old(characterPaddingX) && characterPaddingY == old(characterPaddingY)
      ensures linePaddingTop == old(linePaddingTop) && linePaddingBottom == old(linePaddingBottom)
      ensures tabSpaceCount == old(tabSpaceCount)
    {
      input := input.(linePaddingTop := paddingTop, linePaddingBottom := paddingBottom);
    }

    /** `characterPadding`. */
    method CharacterPadding(paddingX: real, paddingY: real)
      modifies this
      ensures characterPaddingX == paddingX && characterPaddingY == paddingY
      ensures input == old(input) && tabSpaceCount == old(tabSpaceCount)
      ensures linePaddingTop == old(linePaddingTop) && linePaddingBottom == old(linePaddingBottom)
    {
      characterPaddingX, characterPaddingY := paddingX, paddingY;
    }
  }

  /** The Tetris sketch's `.linePadding(0, 4)` on a new font: the bottom padding the
      generator receives stays 0. */
  method LinePaddingLost() returns (top: real, bottom: real)
    ensures top == 0.0 && bottom == 0.0
  {
    var font := new Font();
    font.LinePadding(0.0, 4.0);
    top, bottom := font.input.linePaddingTop, font.input.linePaddingBottom;
  }

  /** The same call with the padding stored: the generator receives 0 and 4. */
  method LinePaddingKept() returns (top: real, bottom: real)
    ensures top == 0.0 && bottom == 4.0
  {
    var font := new Font();
    font.SetLinePadding(0.0, 4.0);
    top, bottom := font.input.linePaddingTop, font.input.linePaddingBottom;
  }
}
