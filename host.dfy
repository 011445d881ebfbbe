/** What the debugger reads from the host program through reflection: objects,
    their instance fields with declared types, attributes and current values,
    and their methods. Reflection itself is not modelled; its answers are data. */
module Host {
  import opened Wrappers
  import opened Numerics
  import RuntimeTextureUtils

  /** One element of a GPU buffer, as read back to the host. Its layout is opaque. */
  datatype Element = Element(raw: seq<bv8>)

  /** The contents of a GPU buffer; its `count` is a C# `int`. */
  type BufferContents = s: seq<Element> | |s| <= 0x7FFF_FFFF

  /** The declared type of a field, as far as the debugger distinguishes it.
      `TextureType` stands for `Texture` and every subclass of it. */
  datatype FieldType =
    | GraphicsBufferType
    | ComputeBufferType
    | TextureType(fullName: string)
    | OtherType(fullName: string)

  /** The current value of a field. `Null` is a null reference. */
  datatype GpuValue =
    | Null
    | GraphicsBufferValue(stride: Int32, contents: BufferContents)
    | ComputeBufferValue(stride: Int32, contents: BufferContents)
    | TextureValue(texture: RuntimeTextureUtils.Texture)
    | OtherValue

  /** A record type named as a buffer's element format. */
  datatype TypeDesc = TypeDesc(name: string, isPrimitive: bool, publicFields: seq<string>)

  datatype FieldInfo = FieldInfo(
    name: string,
    fieldType: FieldType,
    debugAs: Option<TypeDesc>,     // the buffer-format attribute and its format type
    debug: bool,                   // the texture attribute
    value: GpuValue)

  datatype MethodInfo = MethodInfo(
    name: string,
    routine: Option<Option<string>>)  // the debug-routine attribute and its description

  /** An object of the host program. Reference equality is the host's. */
  class HostObject {
    const typeName: string
    const fields: seq<FieldInfo>
    const methods: seq<MethodInfo>

    constructor (typeName: string, fields: seq<FieldInfo>, methods: seq<MethodInfo>)
      ensures this.typeName == typeName && this.fields == fields && this.methods == methods
    {
      this.typeName := typeName;
      this.fields := fields;
      this.methods := methods;
    }
  }

  /** The host exceptions the core can raise. */
  datatype Exception = NullReferenceException | OverflowException

  datatype Outcome = Completed | Threw(exception: Exception)
}
