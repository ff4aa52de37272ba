/** framework/src/texture.cpp: the lookup tables from lith's texture enums to OpenGL names
    and sizes, and the `Texture` object's CPU-side state (format, size, channel count and the
    pixel buffer) with its pixel addressing.  OpenGL names are modelled by a datatype of their
    symbolic names; the GL calls of `upload`, `download`, `free` and `activate` are not part
    of this model.  An enum is held as its integer value, since a C++ enum variable may hold
    any value cast to it. */
module Texture {
  import opened Wrappers
  import opened Arith
  import opened Bytes

  // `TextureFormat` of framework/include/lith/texture.h; it starts at 1.
  const FormatR: int := 1
  const FormatRg: int := 2
  const FormatRgb: int := 3
  const FormatRgba: int := 4
  const FormatDepth: int := 5
  const FormatInt: int := 6
  const FormatFloat: int := 7

  // `TextureFilter` and `TextureWrap`; both start at 0.
  const FilterNearest: int := 0
  const FilterLinear: int := 1
  const WrapClamp: int := 0
  const WrapRepeat: int := 1

  /** The named values of `TextureFormat`. */
  predicate IsFormat(format: int)
  {
    FormatR <= format <= FormatFloat
  }

  /** The OpenGL names the tables produce. */
  datatype GlEnum =
    | GlNone
    | GlRed | GlRg | GlRgb | GlRgba | GlDepthComponent | GlRgbaInteger
    | GlR8 | GlRg8 | GlRgb8 | GlRgba8 | GlDepthComponent32 | GlRgba32i | GlRgba32f
    | GlUnsignedByte | GlInt | GlFloat
    | GlNearest | GlLinear
    | GlClampToEdge | GlRepeat

  /** The `throw nullptr` of a table given a value outside its enum. */
  datatype MapError = Unmapped(code: int)

  /** `getTextureFormat`: the pixel transfer format; the one table that answers `GL_NONE`
      instead of throwing for a value outside the enum. */
  function TransferFormat(format: int): (e: GlEnum)
    ensures e == GlNone <==> !IsFormat(format)
  {
    if format == FormatR then GlRed
    else if format == FormatRg then GlRg
    else if format == FormatRgb then GlRgb
    else if format == FormatRgba then GlRgba
    else if format == FormatDepth then GlDepthComponent
    else if format == FormatInt then GlRgbaInteger
    else if format == FormatFloat then GlRgba
    else GlNone
  }

  /** `getTextureFormatInternal`: the sized internal format. */
  function InternalFormat(format: int): (r: Result<GlEnum, MapError>)
    ensures r.Err? <==> !IsFormat(format)
    ensures r.Err? ==> r.error == Unmapped(format)
  {
    if format == FormatR then Ok(GlR8)
    else if format == FormatRg then Ok(GlRg8)
    else if format == FormatRgb then Ok(GlRgb8)
    else if format == FormatRgba then Ok(GlRgba8)
    else if format == FormatDepth then Ok(GlDepthComponent32)
    else if format == FormatInt then Ok(GlRgba32i)
    else if format == FormatFloat then Ok(GlRgba32f)
    else Err(Unmapped(format))
  }

  /** `getTextureChannelType`: the type of one component. */
  function ChannelType(format: int): (r: Result<GlEnum, MapError>)
    ensures r.Err? <==> !IsFormat(format)
    ensures r.Ok? ==> (r.value == GlUnsignedByte <==> format <= FormatRgba)
  {
    if FormatR <= format <= FormatRgba then Ok(GlUnsignedByte)
    else if format == FormatDepth then Ok(GlFloat)
    else if format == FormatInt then Ok(GlInt)
    else if format == FormatFloat then Ok(GlFloat)
    else Err(Unmapped(format))
  }

  /** `getTextureFilter`. */
  function FilterGl(filter: int): (r: Result<GlEnum, MapError>)
    ensures r.Ok? <==> filter == FilterNearest || filter == FilterLinear
    ensures r.Ok? ==> (r.value == GlNearest || r.value == GlLinear)
  {
    if filter == FilterNearest then Ok(GlNearest)
    else if filter == FilterLinear then Ok(GlLinear)
    else Err(Unmapped(filter))
  }

  /** `getTextureWrap`. */
  function WrapGl(wrap: int): (r: Result<GlEnum, MapError>)
    ensures r.Ok? <==> wrap == WrapClamp || wrap == WrapRepeat
    ensures r.Ok? ==> (r.value == GlClampToEdge || r.value == GlRepeat)
  {
    if wrap == WrapClamp then Ok(GlClampToEdge)
    else if wrap == WrapRepeat then Ok(GlRepeat)
    else Err(Unmapped(wrap))
  }

  /** `getChannelCount`: one channel per colour component for the 8-bit formats, a single
      channel for depth, integer and float. */
  function ChannelCount(format: int): (r: Result<int, MapError>)
    ensures r.Ok? <==> IsFormat(format)
    ensures r.Ok? ==> 1 <= r.value <= 4
  {
    if FormatR <= format <= FormatRgba then Ok(format)
    else if FormatDepth <= format <= FormatFloat then Ok(1)
    else Err(Unmapped(format))
  }

  /** `getChannelSize`: bytes per channel. */
  function ChannelSize(format: int): (r: Result<int, MapError>)
    ensures r.Ok? <==> IsFormat(format)
    ensures r.Ok? ==> (r.value == 1 <==> format <= FormatRgba) && (r.value == 4 <==> format >= FormatDepth)
  {
    if FormatR <= format <= FormatRgba then Ok(1)
    else if FormatDepth <= format <= FormatFloat then Ok(4)
    else Err(Unmapped(format))
  }

  /** `getPixelStride`: bytes per pixel, channel count times channel size; it throws where
      either table throws. */
  function PixelStride(format: int): (r: Result<int, MapError>)
    ensures r.Ok? <==> IsFormat(format)
    ensures r.Ok? ==> 1 <= r.value <= 4
    ensures r.Ok? && format <= FormatRgba ==> r.value == ChannelCount(format).value
    ensures r.Ok? && format >= FormatDepth ==> r.value == 4
  {
    match ChannelCount(format)
    case Err(e) => Err(e)
    case Ok(count) =>
      match ChannelSize(format)
      case Err(e) => Err(e)
      case Ok(size) => Ok(count * size)
  }

  /** Since the enum starts at 1, a channel count `c` of 1 to 4 cast to a format gives back
      `c` as its channel count: what `source(filepath)` relies on when it stores the image's
      channel count as the format. */
  lemma ChannelCountOfCast(c: int)
    requires 1 <= c <= 4
    ensures ChannelCount(c) == Ok(c) && PixelStride(c) == Ok(c)
  {
  }

  /** Every format but one has its own transfer format: RGBA and float share `GL_RGBA`, and
      the internal formats tell all of them apart. */
  lemma FormatNamesDistinct(f: int, g: int)
    requires IsFormat(f) && IsFormat(g) && f != g
    ensures InternalFormat(f) != InternalFormat(g)
    ensures TransferFormat(f) == TransferFormat(g) <==> {f, g} == {FormatRgba, FormatFloat}
  {
  }

  // ---------------------------------------------------------------------------------------
  // The pixel size the upload describes

  /** Components per pixel of an OpenGL pixel transfer format; 0 for other names. */
  function Components(e: GlEnum): nat
  {
    match e
    case GlRed => 1
    case GlRg => 2
    case GlRgb => 3
    case GlRgba => 4
    case GlDepthComponent => 1
    case GlRgbaInteger => 4
    case _ => 0
  }

  /** Bytes per component of an OpenGL component type; 0 for other names. */
  function TypeBytes(e: GlEnum): nat
  {
    match e
    case GlUnsignedByte => 1
    case GlInt => 4
    case GlFloat => 4
    case _ => 0
  }

  /** The bytes per pixel that `upload` tells `glTexImage2D` to read from the buffer: the
      components of `getTextureFormat` times the size of `getTextureChannelType`. */
  function UploadStride(format: int): (n: nat)
    requires IsFormat(format)
    ensures 1 <= n <= 16
  {
    Components(TransferFormat(format)) * TypeBytes(ChannelType(format).value)
  }

  /** For the 8-bit and depth formats the upload reads exactly one pixel stride per pixel. */
  lemma UploadMatchesStride(format: int)
    requires FormatR <= format <= FormatDepth
    ensures UploadStride(format) == PixelStride(format).value
  {
  }

  /** The integer and float formats as written: `source(format, w, h)` allocates 4 bytes per
      pixel (one 4-byte channel), but the upload describes four 4-byte components, so it
      reads four times the buffer. */
  lemma WideFormatsOverread(format: int)
    requires format == FormatInt || format == FormatFloat
    ensures PixelStride(format) == Ok(4) && UploadStride(format) == 16
  {
  }

  /** The channel count that matches the RGBA internal formats of the integer and float
      textures: four channels. */
  function CorrectedChannelCount(format: int): (r: Result<int, MapError>)
    ensures r.Ok? <==> IsFormat(format)
    ensures r.Ok? && format != FormatInt && format != FormatFloat ==> r == ChannelCount(format)
  {
    if format == FormatInt || format == FormatFloat then Ok(4) else ChannelCount(format)
  }

  /** The pixel stride from the corrected channel count. */
  function CorrectedPixelStride(format: int): (r: Result<int, MapError>)
    ensures r.Ok? <==> IsFormat(format)
  {
    match CorrectedChannelCount(format)
    case Err(e) => Err(e)
    case Ok(count) =>
      match ChannelSize(format)
      case Err(e) => Err(e)
      case Ok(size) => Ok(count * size)
  }

  /** With four channels for the integer and float formats, every format's buffer holds
      exactly what its upload reads. */
  lemma CorrectedStrideMatchesUpload(format: int)
    requires IsFormat(format)
    ensures CorrectedPixelStride(format).Ok? && UploadStride(format) == CorrectedPixelStride(format).value
  {
  }

  // ---------------------------------------------------------------------------------------
  // Pixel addressing

  /** The byte size `source` allocates: `width * height * getPixelStride(format)`. */
  function BufferSize(format: int, width: int, height: int): int
    requires IsFormat(format)
  {
    width * height * PixelStride(format).value
  }

  /** `inbounds(x, y)`. */
  predicate InRect(x: int, y: int, width: int, height: int)
  {
    x >= 0 && x < width && y >= 0 && y < height
  }

  /** `index(x, y)`: the offset of pixel `(x, y)`, rows of `width` pixels one after the
      other, `channelCount` entries per pixel. */
  function PixelIndex(x: int, y: int, width: int, channelCount: int): int
  {
    (x + y * width) * channelCount
  }

  /** The row-major pixel number of an in-bounds pixel lies below `width * height`. */
  lemma PixelNumberBelow(x: int, y: int, width: int, height: int)
    requires InRect(x, y, width, height)
    ensures 0 <= x + y * width < width * height
  {
    MulNonNeg(y, width);
    MulLe(y + 1, height, width);
    MulSucc(y, width);
  }

  /** The channels of every in-bounds pixel of a buffer that `source` sized lie inside it. */
  lemma PixelInBuffer(format: int, width: int, height: int, x: int, y: int)
    requires IsFormat(format) && InRect(x, y, width, height)
    ensures var cc := ChannelCount(format).value;
            0 <= PixelIndex(x, y, width, cc) && PixelIndex(x, y, width, cc) + cc <= BufferSize(format, width, height)
  {
    var cc := ChannelCount(format).value;
    var p := x + y * width;
    PixelNumberBelow(x, y, width, height);
    MulNonNeg(p, cc);
    MulSucc(p, cc);
    MulLe(p + 1, width * height, cc);
    MulLe(cc, PixelStride(format).value, width * height);
    assert width * height * PixelStride(format).value == PixelStride(format).value * (width * height);
    assert cc * (width * height) == (width * height) * cc;
  }

  /** For the 8-bit formats, whose pixels are `channelCount` bytes wide, the bytes of distinct
      in-bounds pixels never overlap. */
  lemma PixelIndexSeparated(format: int, width: int, height: int, x1: int, y1: int, x2: int, y2: int)
    requires IsFormat(format) && format <= FormatRgba
    requires InRect(x1, y1, width, height) && InRect(x2, y2, width, height) && (x1, y1) != (x2, y2)
    ensures var cc, stride := ChannelCount(format).value, PixelStride(format).value;
            PixelIndex(x1, y1, width, cc) + stride <= PixelIndex(x2, y2, width, cc) ||
            PixelIndex(x2, y2, width, cc) + stride <= PixelIndex(x1, y1, width, cc)
  {
    OffsetsSeparated(width, height, ChannelCount(format).value, x1, y1, x2, y2);
  }

  /** For Depth, Int and Float, whose channels are 4 bytes wide, `index` still steps by the
      channel count, so the bytes of neighbouring pixels overlap. */
  lemma WidePixelsOverlap(format: int, width: int)
    requires IsFormat(format) && format >= FormatDepth && width >= 2
    ensures var cc := ChannelCount(format).value;
            PixelIndex(0, 0, width, cc) < PixelIndex(1, 0, width, cc) < PixelIndex(0, 0, width, cc) + PixelStride(format).value
  {
  }

  /** Distinct in-bounds pixels get offsets at least `cc` apart. */
  lemma OffsetsSeparated(width: int, height: int, cc: int, x1: int, y1: int, x2: int, y2: int)
    requires 0 < cc && InRect(x1, y1, width, height) && InRect(x2, y2, width, height)
    requires (x1, y1) != (x2, y2)
    ensures PixelIndex(x1, y1, width, cc) + cc <= PixelIndex(x2, y2, width, cc) ||
            PixelIndex(x2, y2, width, cc) + cc <= PixelIndex(x1, y1, width, cc)
  {
    var p1, p2 := x1 + y1 * width, x2 + y2 * width;
    if y1 < y2 {
      MulLe(y1 + 1, y2, width);
      MulSucc(y1, width);
    } else if y2 < y1 {
      MulLe(y2 + 1, y1, width);
      MulSucc(y2, width);
    }
    assert p1 != p2;
    if p1 < p2 {
      MulLe(p1 + 1, p2, cc);
      MulSucc(p1, cc);
    } else {
      MulLe(p2 + 1, p1, cc);
      MulSucc(p2, cc);
    }
  }

  /** What `lithLoadImage` returns: the decoded image, read from a file this model does not
      see. */
  datatype ImageData = ImageData(channels: int, width: int, height: int, buffer: Option<seq<byte>>)

  /** `Texture`'s CPU-side state.  `data` is `None` for a null buffer. */
  class Texture {
    var data: Option<seq<byte>>
    var width: int
    var height: int
    var channelCount: int
    var format: int
    var minFilter: int
    var magFilter: int
    var sWrap: int
    var tWrap: int

    /** An empty RGBA texture with linear filtering and clamped wrapping. */
    constructor ()
      ensures data == None && width == 0 && height == 0 && channelCount == 0
      ensures format == FormatRgba
      ensures minFilter == FilterLinear && magFilter == FilterLinear
      ensures sWrap == WrapClamp && tWrap == WrapClamp
    {
      data := None;
      width := 0;
      height := 0;
      channelCount := 0;
      format := FormatRgba;
      minFilter := FilterLinear;
      magFilter := FilterLinear;
      sWrap := WrapClamp;
      tWrap := WrapClamp;
    }

    /** `source(filepath)` given the loaded image: the format is the channel count cast to
        the enum. */
    method SourceImage(img: ImageData)
      modifies this
      ensures format == img.channels && channelCount == img.channels
      ensures width == img.width && height == img.height && data == img.buffer
      ensures minFilter == old(minFilter) && magFilter == old(magFilter)
      ensures sWrap == old(sWrap) && tWrap == old(tWrap)
    {
      format := img.channels;
      width := img.width;
      height := img.height;
      channelCount := img.channels;
      data := img.buffer;
    }

    /** `source(format, width, height)`: a zero-filled buffer of `width * height` pixels.
        The stride is looked up first, so an unmapped format throws with nothing changed.
        `mallocOk` is whether `malloc` succeeds; a negative size is a huge unsigned request,
        which fails. */
    method SourceBlank(format: int, width: int, height: int, mallocOk: bool) returns (r: Result<(), MapError>)
      modifies this
      ensures !IsFormat(format) ==> r == Err(Unmapped(format)) && unchanged(this)
      ensures IsFormat(format) ==>
                r.Ok? && this.format == format && this.width == width && this.height == height &&
                this.channelCount == ChannelCount(format).value &&
                data == (if mallocOk && 0 <= BufferSize(format, width, height)
                         then Some(Zeros(BufferSize(format, width, height))) else None) &&
                minFilter == old(minFilter) && magFilter == old(magFilter) &&
                sWrap == old(sWrap) && tWrap == old(tWrap)
    {
      var stride := PixelStride(format);
      if stride.Err? {
        return Err(stride.error);
      }
      var size := width * height * stride.value;
      this.format := format;
      this.width := width;
      this.height := height;
      this.channelCount := ChannelCount(format).value;
      if mallocOk && 0 <= size {
        data := Some(Zeros(size));
      } else {
        data := None;
      }
      r := Ok(());
    }

    /** `source(data, format, width, height)`: a copy of the first `width * height` pixels of
        `pixels`, which the caller must provide. */
    method SourceCopy(pixels: seq<byte>, format: int, width: int, height: int, mallocOk: bool)
      returns (r: Result<(), MapError>)
      requires IsFormat(format) && mallocOk && 0 <= BufferSize(format, width, height) ==>
                 BufferSize(format, width, height) <= |pixels|
      modifies this
      ensures !IsFormat(format) ==> r == Err(Unmapped(format)) && unchanged(this)
      ensures IsFormat(format) ==>
                r.Ok? && this.format == format && this.width == width && this.height == height &&
                this.channelCount == ChannelCount(format).value &&
                data == (if mallocOk && 0 <= BufferSize(format, width, height)
                         then Some(pixels[..BufferSize(format, width, height)]) else None) &&
                minFilter == old(minFilter) && magFilter == old(magFilter) &&
                sWrap == old(sWrap) && tWrap == old(tWrap)
    {
      var stride := PixelStride(format);
      if stride.Err? {
        return Err(stride.error);
      }
      var size := width * height * stride.value;
      this.format := format;
      this.width := width;
      this.height := height;
      this.channelCount := ChannelCount(format).value;
      if mallocOk && 0 <= size {
        data := Some(pixels[..size]);
      } else {
        data := None;
      }
      r := Ok(());
    }

    /** `filter(min, mag)`. */
    method SetFilter(min: int, mag: int)
      modifies this
      ensures minFilter == min && magFilter == mag
      ensures data == old(data) && width == old(width) && height == old(height)
      ensures channelCount == old(channelCount) && format == old(format)
      ensures sWrap == old(sWrap) && tWrap == old(tWrap)
    {
      minFilter, magFilter := min, mag;
    }

    /** `filter(filter)`: the same filter both ways. */
    method SetFilterBoth(filter: int)
      modifies this
      ensures minFilter == filter && magFilter == filter
      ensures data == old(data) && width == old(width) && height == old(height)
      ensures channelCount == old(channelCount) && format == old(format)
      ensures sWrap == old(sWrap) && tWrap == old(tWrap)
    {
      SetFilter(filter, filter);
    }

    /** `wrap(s, t)`. */
    method SetWrap(s: int, t: int)
      modifies this
      ensures sWrap == s && tWrap == t
      ensures data == old(data) && width == old(width) && height == old(height)
      ensures channelCount == old(channelCount) && format == old(format)
      ensures minFilter == old(minFilter) && magFilter == old(magFilter)
    {
      sWrap, tWrap := s, t;
    }

    /** `wrap(wrap)`: the same wrapping on both axes. */
    method SetWrapBoth(wrap: int)
      modifies this
      ensures sWrap == wrap && tWrap == wrap
      ensures data == old(data) && width == old(width) && height == old(height)
      ensures channelCount == old(channelCount) && format == old(format)
      ensures minFilter == old(minFilter) && magFilter == old(magFilter)
    {
      SetWrap(wrap, wrap);
    }

    /** `inbounds(x)`: a column of the texture. */
    predicate InBoundsX(x: int)
      reads this
    {
      x >= 0 && x < width
    }

    /** `inbounds(x, y)`. */
    predicate InBounds(x: int, y: int)
      reads this
    {
      InRect(x, y, width, height)
    }

    /** `index(x)`: the offset of pixel `x` of the first row. */
    function IndexX(x: int): int
      reads this
    {
      x * channelCount
    }

    /** `index(x, y)`. */
    function Index(x: int, y: int): int
      reads this
    {
      PixelIndex(x, y, width, channelCount)
    }

    /** After `source(format, w, h)`, every in-bounds pixel's channels lie inside the buffer,
        and on the first row the one- and two-coordinate forms agree. */
    lemma IndexInData(x: int, y: int)
      requires IsFormat(format) && channelCount == ChannelCount(format).value
      requires data.Some? && |data.value| == BufferSize(format, width, height)
      requires InBounds(x, y)
      ensures InBoundsX(x) && 0 <= Index(x, y) && Index(x, y) + channelCount <= |data.value|
      ensures y == 0 ==> Index(x, y) == IndexX(x)
    {
      PixelInBuffer(format, width, height, x, y);
    }
  }
}
