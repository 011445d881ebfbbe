/** The runtime estimate of a texture's GPU memory footprint: a mip-chain size
    scaled by the cube face count, the array/volume depth and the MSAA sample
    count (Runtime/RuntimeTextureUtils.cs). The engine's mip-chain size
    functions are parameters. */
module RuntimeTextureUtils {
  import opened Numerics

  /** The engine's texture dimension enumeration. */
  datatype TextureDimension = Unknown | None | Any | Tex2D | Tex3D | Cube | Tex2DArray | CubeArray

  /** The concrete class of a texture object, with the members the size rule reads. */
  datatype TextureClass =
    | Texture2DClass
    | Texture2DArrayClass(depth: Int32)
    | Texture3DClass(depth: Int32)
    | CubemapClass
    | CubemapArrayClass(cubemapCount: Int32)
    | RenderTextureClass(volumeDepth: Int32, antiAliasing: Int32)
    | OtherTextureClass

  /** An opaque engine pixel format. */
  type GraphicsFormat = nat

  datatype Texture = Texture(
    name: string,
    dimension: TextureDimension,
    cls: TextureClass,
    width: Int32,
    height: Int32,
    graphicsFormat: GraphicsFormat,
    mipmapCount: Int32)

  /** The engine's size of a 2D mip chain: width, height, format, mip count. */
  type MipChain2D = (Int32, Int32, GraphicsFormat, Int32) -> Int64

  /** The engine's size of a 3D mip chain: width, height, depth, format, mip count. */
  type MipChain3D = (Int32, Int32, Int32, GraphicsFormat, Int32) -> Int64

  /** The depth multiplier chosen from the texture's concrete class: the layer
      count of the classes that carry one, and a single layer otherwise. */
  function DepthOf(t: Texture): (d: Int32)
    ensures t.cls.Texture2DClass? || t.cls.CubemapClass? || t.cls.OtherTextureClass? ==> d == 1
    ensures t.cls.Texture2DArrayClass? || t.cls.Texture3DClass? ==> d == t.cls.depth
    ensures t.cls.CubemapArrayClass? ==> d == t.cls.cubemapCount
    ensures t.cls.RenderTextureClass? ==> d == t.cls.volumeDepth
  {
    match t.cls
    case Texture2DArrayClass(depth) => depth
    case Texture3DClass(depth) => depth
    case CubemapArrayClass(count) => count
    case RenderTextureClass(volumeDepth, _) => volumeDepth
    case _ => 1
  }

  /** The MSAA factor: one per sample plus one for the resolve target. Only a
      multisampled render texture has a factor other than 1, and no texture has
      factor 0, even where `antiAliasing + 1` wraps. */
  function MsaaOf(t: Texture): (m: Int32)
    ensures m == 1 <==> !(t.cls.RenderTextureClass? && t.cls.antiAliasing > 1)
    ensures t.cls.RenderTextureClass? && 1 < t.cls.antiAliasing < MaxInt32 ==> m == t.cls.antiAliasing + 1
    ensures m != 0
  {
    match t.cls
    case RenderTextureClass(_, antiAliasing) =>
      if antiAliasing > 1 then Wrap32(antiAliasing + 1) else 1
    case _ => 1
  }

  predicate IsCube(d: TextureDimension) {
    d == Cube || d == CubeArray
  }

  predicate IsLayered2D(d: TextureDimension) {
    d == Tex2D || d == Cube || d == Tex2DArray || d == CubeArray
  }

  /** The footprint in exact arithmetic, as one closed formula per dimension:
      2D-like dimensions scale the 2D chain by faces, depth and samples; a volume
      folds its depth into the 3D chain and scales only by samples. */
  function TextureByteSize(t: Texture, chain2D: MipChain2D, chain3D: MipChain3D): (r: int)
    ensures IsCube(t.dimension) ==> r % 6 == 0
    ensures !IsLayered2D(t.dimension) && t.dimension != Tex3D ==> r == 0
  {
    if IsLayered2D(t.dimension) then
      var b := chain2D(t.width, t.height, t.graphicsFormat, t.mipmapCount);
      MulAssoc4(b, if IsCube(t.dimension) then 6 else 1, DepthOf(t), MsaaOf(t));
      b * (if IsCube(t.dimension) then 6 else 1) * DepthOf(t) * MsaaOf(t)
    else if t.dimension == Tex3D then
      chain3D(t.width, t.height, DepthOf(t), t.graphicsFormat, t.mipmapCount) * MsaaOf(t)
    else
      0
  }

  /** The size rule run step by step on 64-bit locals, as the source does: the
      result is the closed formula wrapped to a `long`. */
  method GetRuntimeMemorySize(texture: Texture, chain2D: MipChain2D, chain3D: MipChain3D)
    returns (byteSize: Int64)
    ensures byteSize == Wrap64(TextureByteSize(texture, chain2D, chain3D))
    ensures InInt64(TextureByteSize(texture, chain2D, chain3D)) ==>
              byteSize == TextureByteSize(texture, chain2D, chain3D)
  {
    var dimension := texture.dimension;
    byteSize := 0;
    var depth: Int32 := 1;
    var msaa: Int32 := 1;

    match texture.cls {
      case Texture2DArrayClass(d) => depth := d;
      case Texture3DClass(d) => depth := d;
      case CubemapArrayClass(count) => depth := count;
      case RenderTextureClass(volumeDepth, antiAliasing) =>
        depth := volumeDepth;
        if antiAliasing > 1 {
          msaa := Wrap32(antiAliasing + 1);
        }
      case _ =>
    }
    assert depth == DepthOf(texture) && msaa == MsaaOf(texture);

    if IsLayered2D(dimension) {
      byteSize := chain2D(texture.width, texture.height, texture.graphicsFormat, texture.mipmapCount);
    }
    if dimension == Tex3D {
      byteSize := chain3D(texture.width, texture.height, depth, texture.graphicsFormat, texture.mipmapCount);
      depth := 1;
    }
    ghost var exact: int := byteSize;
    assert byteSize == Wrap64(exact);
    if IsCube(dimension) {
      Wrap64Mul(exact, 6);
      byteSize := Wrap64(byteSize * 6);
      exact := exact * 6;
    }
    Wrap64Mul(exact, depth);
    byteSize := Wrap64(byteSize * depth);
    exact := exact * depth;
    Wrap64Mul(exact, msaa);
    byteSize := Wrap64(byteSize * msaa);
    exact := exact * msaa;
    assert exact == TextureByteSize(texture, chain2D, chain3D);
  }

  /** A cube (or cube array) costs exactly six times the same texture viewed as
      a 2D texture (or 2D array) with the same depth and sample count. */
  lemma CubeIsSixFaces(t: Texture, chain2D: MipChain2D, chain3D: MipChain3D)
    requires IsCube(t.dimension)
    ensures TextureByteSize(t, chain2D, chain3D)
         == 6 * TextureByteSize(t.(dimension := if t.dimension == Cube then Tex2D else Tex2DArray), chain2D, chain3D)
  {
    var flat := t.(dimension := if t.dimension == Cube then Tex2D else Tex2DArray);
    var b := chain2D(t.width, t.height, t.graphicsFormat, t.mipmapCount);
    assert TextureByteSize(flat, chain2D, chain3D) == b * 1 * DepthOf(t) * MsaaOf(t);
    assert TextureByteSize(t, chain2D, chain3D) == b * 6 * DepthOf(t) * MsaaOf(t);
    assert b * 6 * DepthOf(t) * MsaaOf(t) == 6 * (b * DepthOf(t) * MsaaOf(t)) by {
      MulAssoc4(b, 6, DepthOf(t), MsaaOf(t));
    }
  }

  lemma MulAssoc4(a: int, b: int, c: int, d: int)
    ensures a * b * c * d == b * (a * c * d)
  {
  }

  /** A multisampled render texture costs `antiAliasing + 1` times the same
      render texture without MSAA, whatever its dimension. */
  lemma MsaaAddsResolveTarget(t: Texture, chain2D: MipChain2D, chain3D: MipChain3D)
    requires t.cls.RenderTextureClass? && 1 < t.cls.antiAliasing < MaxInt32
    ensures TextureByteSize(t, chain2D, chain3D)
         == (t.cls.antiAliasing + 1) * TextureByteSize(t.(cls := t.cls.(antiAliasing := 1)), chain2D, chain3D)
  {
    var single := t.(cls := t.cls.(antiAliasing := 1));
    var n := t.cls.antiAliasing + 1;
    assert MsaaOf(t) == n && MsaaOf(single) == 1 && DepthOf(single) == DepthOf(t);
    if IsLayered2D(t.dimension) {
      var b := chain2D(t.width, t.height, t.graphicsFormat, t.mipmapCount);
      var f := if IsCube(t.dimension) then 6 else 1;
      assert b * f * DepthOf(t) * n == n * (b * f * DepthOf(t) * 1);
    } else if t.dimension == Tex3D {
      var b := chain3D(t.width, t.height, DepthOf(t), t.graphicsFormat, t.mipmapCount);
      assert b * n == n * (b * 1);
    }
  }

  /** A 2D array costs its depth times one slice; a cube array its cubemap count
      times one cube. Volumes are the exception (see VolumeDepthOnce). */
  lemma ArrayScalesByDepth(t: Texture, chain2D: MipChain2D, chain3D: MipChain3D)
    requires IsLayered2D(t.dimension)
    requires t.cls.Texture2DArrayClass? || t.cls.CubemapArrayClass?
    ensures TextureByteSize(t, chain2D, chain3D)
         == DepthOf(t) * TextureByteSize(t.(cls := Texture2DClass), chain2D, chain3D)
  {
    var one := t.(cls := Texture2DClass);
    var b := chain2D(t.width, t.height, t.graphicsFormat, t.mipmapCount);
    var f := if IsCube(t.dimension) then 6 else 1;
    assert DepthOf(one) == 1 && MsaaOf(one) == 1 && MsaaOf(t) == 1;
    assert b * f * DepthOf(t) * 1 == DepthOf(t) * (b * f * 1 * 1);
  }

  /** A volume's depth goes into the 3D chain and is not multiplied in again:
      two volumes that differ only in their class, with the same sample count and
      the same 3D chain size, cost the same whatever their depths. */
  lemma VolumeDepthOnce(t: Texture, u: Texture, chain2D: MipChain2D, chain3D: MipChain3D)
    requires t.dimension == Tex3D && u == t.(cls := u.cls)
    requires MsaaOf(u) == MsaaOf(t)
    requires chain3D(t.width, t.height, DepthOf(t), t.graphicsFormat, t.mipmapCount)
          == chain3D(t.width, t.height, DepthOf(u), t.graphicsFormat, t.mipmapCount)
    ensures TextureByteSize(t, chain2D, chain3D) == TextureByteSize(u, chain2D, chain3D)
  {
  }

  /** Non-negative chain sizes, depth and sample count give a non-negative size;
      dimensions other than the six handled ones give 0. */
  lemma SizeNonNegative(t: Texture, chain2D: MipChain2D, chain3D: MipChain3D)
    requires chain2D(t.width, t.height, t.graphicsFormat, t.mipmapCount) >= 0
    requires chain3D(t.width, t.height, DepthOf(t), t.graphicsFormat, t.mipmapCount) >= 0
    requires DepthOf(t) >= 0
    requires t.cls.RenderTextureClass? ==> 0 <= t.cls.antiAliasing < MaxInt32
    ensures TextureByteSize(t, chain2D, chain3D) >= 0
    ensures !IsLayered2D(t.dimension) && t.dimension != Tex3D ==> TextureByteSize(t, chain2D, chain3D) == 0
  {
    var m := MsaaOf(t);
    assert m >= 1;
    if IsLayered2D(t.dimension) {
      var b := chain2D(t.width, t.height, t.graphicsFormat, t.mipmapCount);
      var f := if IsCube(t.dimension) then 6 else 1;
      MulMonotone(0, b, f);
      MulMonotone(0, b * f, DepthOf(t));
      MulMonotone(0, b * f * DepthOf(t), m);
    } else if t.dimension == Tex3D {
      MulMonotone(0, chain3D(t.width, t.height, DepthOf(t), t.graphicsFormat, t.mipmapCount), m);
    }
  }
}
