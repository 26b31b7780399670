/** The image record of src/lib/context.ts (and its older twin
    lib/context.ts) and `createImage`, the one operation of those files that
    is not platform I/O. */
module Context {
  import opened Numbers
  import opened Wrappers
  import opened Color

  /** One element of a `Uint8ClampedArray`. */
  type Byte = x: int | 0 <= x < 256

  /** `ContextImageData`: row-major RGBA bytes, four per pixel. */
  datatype Image = Image(width: int, height: int, data: array<Byte>)

  /** The shape every image of the engine has: non-negative dimensions and
      exactly four bytes per pixel. */
  predicate Valid(img: Image)
  {
    img.width >= 0 && img.height >= 0 && img.data.Length == img.width * img.height * 4
  }

  /** A store into a `Uint8ClampedArray` clamps the value into `[0, 255]`. */
  function ToByte(v: int): (b: Byte)
    ensures 0 <= v <= 255 ==> b == v
  {
    ClampInt(0, 255, v)
  }

  /** Channel `k` (0 red, 1 green, 2 blue, 3 alpha) of a colour. */
  function Channel(c: RGBA, k: int): int
  {
    if k == 0 then c.r else if k == 1 then c.g else if k == 2 then c.b else c.a
  }

  /** The bytes of a fresh `n`-pixel image: all zero, or every pixel set to
      the colour. */
  function Filled(n: int, color: Option<RGBA>): (d: seq<Byte>)
    requires n >= 0
    ensures |d| == n * 4
  {
    seq(n * 4, k requires 0 <= k < n * 4 => if color.None? then 0 else ToByte(Channel(color.value, k % 4)))
  }

  /** Without a colour every byte is 0; with a byte colour every pixel's four
      bytes are exactly `(r, g, b, a)`. */
  lemma FilledPixels(n: int, color: Option<RGBA>)
    requires n >= 0
    ensures color.None? ==> forall k :: 0 <= k < n * 4 ==> Filled(n, color)[k] == 0
    ensures color.Some? && IsByteColor(color.value) ==>
      forall i :: 0 <= i < n ==>
        Filled(n, color)[i * 4..i * 4 + 4] == [color.value.r, color.value.g, color.value.b, color.value.a]
  {
    if color.Some? && IsByteColor(color.value) {
      var c := color.value;
      forall i | 0 <= i < n
        ensures Filled(n, color)[i * 4..i * 4 + 4] == [c.r, c.g, c.b, c.a]
      {
        var d := Filled(n, color);
        assert d[i * 4] == c.r && d[i * 4 + 1] == c.g && d[i * 4 + 2] == c.b && d[i * 4 + 3] == c.a;
      }
    }
  }

  /** One pass of `createImage`'s fill loop: the four bytes at offset `o`. */
  method SetPixel(data: array<Byte>, o: int, c: RGBA)
    requires 0 <= o && o + 4 <= data.Length && o % 4 == 0
    modifies data
    ensures forall k :: 0 <= k < data.Length ==>
      data[k] == if o <= k < o + 4 then ToByte(Channel(c, k % 4)) else old(data[k])
  {
    data[o + 0] := ToByte(c.r);
    data[o + 1] := ToByte(c.g);
    data[o + 2] := ToByte(c.b);
    data[o + 3] := ToByte(c.a);
  }

  /** `dest.set(src)`: the bytes of `src` copied to the start of `dest`, which
      must be long enough; the rest of `dest` keeps its value. */
  method Set(dest: array<Byte>, src: array<Byte>)
    requires src.Length <= dest.Length
    modifies dest
    ensures dest[..] == old(src[..]) + old(dest[src.Length..])
  {
    ghost var d0, s0 := dest[..], src[..];
    forall k | 0 <= k < src.Length {
      dest[k] := src[k];
    }
    assert dest[..] == s0 + d0[src.Length..];
  }

  /** `createImage(width, height, color?)`: dimensions that are not positive
      are rejected before anything is allocated; otherwise a fresh buffer of
      `width * height * 4` bytes, filled pixel by pixel when a colour is
      given. */
  method CreateImage(width: int, height: int, color: Option<RGBA>) returns (r: Result<Image>)
    ensures r.Err? <==> width <= 0 || height <= 0
    ensures r.Ok? ==> && r.value.width == width && r.value.height == height
                      && Valid(r.value) && fresh(r.value.data)
                      && r.value.data[..] == Filled(width * height, color)
  {
    if width <= 0 {
      return Err("Expected `width` to be positive");
    }
    if height <= 0 {
      return Err("Expected `height` to be positive");
    }
    var data := new Byte[width * height * 4](_ => 0);
    if color.Some? {
      var c := color.value;
      for i := 0 to width * height
        invariant forall k :: 0 <= k < data.Length ==>
          data[k] == if k < i * 4 then ToByte(Channel(c, k % 4)) else 0
      {
        SetPixel(data, i * 4, c);
      }
    }
    assert data[..] == Filled(width * height, color);
    return Ok(Image(width, height, data));
  }
}
