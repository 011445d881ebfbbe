# GPU Object Debugger — a Dafny model of its core

GPUDebugger is a Unity editor tool for inspecting the GPU resources an object
owns. Objects are registered for inspection. The debugger window then lists
each registered object's attributed buffers, textures and debug routines. It
reads a buffer back into a snapshot that it shows one page at a time. It also
reports how much GPU memory the object's buffer and texture fields hold. This
project models four parts of that tool and proves properties of each.

- `RuntimeTextureUtils` (`runtime_texture_utils.dfy`) is the runtime estimate
  of a texture's footprint. It scales a mip-chain size by the cube face count,
  the array or volume depth and the MSAA sample count. `GetRuntimeMemorySize`
  runs the source's steps on 64-bit locals. It is proved equal to the closed
  per-dimension formula `TextureByteSize`, wrapped to a `long` the way C#'s
  unchecked `*=` wraps.
- `GPUMemoryUtils` (`gpu_memory_utils.dfy`) builds the memory report.
  `CollectEntries` yields one entry for each non-null buffer or texture field,
  with the source's nested loops. The entries are then sorted in place on an
  array, largest first. The total is a checked sum that throws
  `OverflowException` as LINQ's `Sum` over `long` does. The rows come last: a
  "Total" row, then one row per entry with its share of the total.
- `GPUObjectDebugger` (`gpu_object_debugger.dfy`) is the static
  tracked-object registry. It is a `Tracker` class whose list only changes in
  editor builds. `TrackedObjectList` is its read-only view. `StopTracking`
  removes entries through `Without`, and lemmas about removal sit beside it.
- `GPUObjectDebuggerWindow` (`gpu_object_debugger_window.dfy`) is the window's
  state, a `Window` class:
  - `ShowObject` rebuilds the buffer, texture and routine lists and recomputes
    the report;
  - `LoadBufferData` copies a buffer into a fresh array snapshot;
  - `DrawBufferData` shows one page of the snapshot and applies the
    Previous/Next/Close button pressed in that draw.

  `Valid` holds for every reachable window state: the page always lies within
  the snapshot.

Three further modules support them. `Numerics` (`numerics.dfy`) holds the
32/64-bit integer ranges and two's-complement wrapping. `Host` (`host.dfy`)
describes the reflection answers as data: a `HostObject` with its fields, their
declared types, attributes and current values, and its methods. `Wrappers`
(`wrappers.dfy`) holds `Option` and `Result`.

Three behaviours of the code are kept as written:
- The code has no guard for a zero total. It divides 0 by 0.0, which prints
  NaN, and the model keeps that unguarded share as `Fraction(0, 0)`.
- The code sorts with `List.Sort`, which is not stable, so the model fixes no
  order among equal sizes.
- The code never clamps the page. It only moves the page behind guarded
  buttons, and the model proves that this keeps the page in range.

## Model

| member | source | states |
|---|---|---|
| Numerics.Wrap64 | Runtime/RuntimeTextureUtils.cs:39-41 | the `long` result of an unchecked operation differs from the exact value by a multiple of 2^64, and equals it when it fits |
| Numerics.Wrap32 | Runtime/RuntimeTextureUtils.cs:25 | the `int` result of `antiAliasing + 1` differs from the exact sum by a multiple of 2^32, and equals it when it fits |
| RuntimeTextureUtils.DepthOf | Runtime/RuntimeTextureUtils.cs:13-21 | the depth is the layer count of array, volume, cube-array and render textures (`volumeDepth`), and 1 for a plain 2D texture, a cubemap or any other class |
| RuntimeTextureUtils.MsaaOf | Runtime/RuntimeTextureUtils.cs:14-26 | the factor is 1 exactly when the texture is not a render texture with `antiAliasing` above 1; otherwise it is `antiAliasing + 1` when that fits an `int`; it is never 0 |
| RuntimeTextureUtils.TextureByteSize | Runtime/RuntimeTextureUtils.cs:29-41 | a cube or cube array's size is a multiple of six; dimensions other than the 2D-like ones and Tex3D have size 0 |
| Numerics.Wrap64Mul | Runtime/RuntimeTextureUtils.cs:39-41 | multiplying an already-wrapped `long` and wrapping again gives the wrap of the exact product, so the chain of `*=` is one wrap of the whole product |
| RuntimeTextureUtils.GetRuntimeMemorySize | Runtime/RuntimeTextureUtils.cs:9-45 | the step-by-step size is the closed formula (2D-like: chain × 6 for cubes × depth × samples; volume: 3D chain with its depth × samples; other dimensions 0) wrapped to a `long`, and exactly the formula when it fits |
| RuntimeTextureUtils.CubeIsSixFaces | Runtime/RuntimeTextureUtils.cs:29-39 | a cube or cube array costs exactly six times the same texture viewed as a 2D texture or 2D array |
| RuntimeTextureUtils.MsaaAddsResolveTarget | Runtime/RuntimeTextureUtils.cs:19-27 | a render texture with `antiAliasing` a > 1 costs (a + 1) times the same texture without MSAA, in every dimension |
| RuntimeTextureUtils.ArrayScalesByDepth | Runtime/RuntimeTextureUtils.cs:16-40 | a 2D array or cube array costs its depth (cubemap count) times a single slice |
| RuntimeTextureUtils.VolumeDepthOnce | Runtime/RuntimeTextureUtils.cs:34-41 | two volumes that differ only in their class, with the same sample count and the same 3D chain size, cost the same whatever their depths: the depth enters only through the 3D chain and is not multiplied in again |
| RuntimeTextureUtils.SizeNonNegative | Runtime/RuntimeTextureUtils.cs:29-41 | non-negative chain sizes and depth give a non-negative size; dimensions other than the six handled ones give 0 |
| GPUMemoryUtils.BufferByteSize | Editor/GPUMemoryUtils.cs:32 | `(long)stride * count` of two 32-bit operands stays within 2^62 in magnitude, so it never overflows, and is non-negative for a non-negative stride |
| GPUMemoryUtils.FieldEntries | Editor/GPUMemoryUtils.cs:28-47 | a field yields exactly one entry when its declared type is GraphicsBuffer, ComputeBuffer or a Texture type and its value is a non-null object of that kind, otherwise none |
| GPUMemoryUtils.ScanObject | Editor/GPUMemoryUtils.cs:23-48 | the field loop for one object yields the object's entries in field order |
| GPUMemoryUtils.CollectEntries | Editor/GPUMemoryUtils.cs:18-49 | the nested loops yield the entries of all objects in order, skipping null objects |
| GPUMemoryUtils.NullObjectSkipped | Editor/GPUMemoryUtils.cs:21 | inserting a null object anywhere changes nothing in the collected entries |
| GPUMemoryUtils.CollectedAppend | Editor/GPUMemoryUtils.cs:19-49 | the entries of two object lists put together are the entries of each, concatenated |
| GPUMemoryUtils.FieldEntryInObject | Editor/GPUMemoryUtils.cs:26-47 | every reported field's entry is among its object's entries |
| GPUMemoryUtils.ObjectInCollected | Editor/GPUMemoryUtils.cs:19-49 | every entry of a non-null object is among the collected entries |
| GPUMemoryUtils.FieldIsCollected | Editor/GPUMemoryUtils.cs:28-45 | each reported buffer appears as `Type.field` with stride × count bytes, each reported texture as `Type.field (FieldType)` with the editor's estimate |
| GPUMemoryUtils.ObjectSize | Editor/GPUMemoryUtils.cs:26-48 | an object yields as many entries as it has reported fields |
| GPUMemoryUtils.CollectedSize | Editor/GPUMemoryUtils.cs:18-49 | the number of entries is the number of reported fields over all non-null objects |
| GPUMemoryUtils.SortBySizeDescending | Editor/GPUMemoryUtils.cs:51 | the entries end sorted by byte count, largest first, and are a permutation of the entries before |
| GPUMemoryUtils.IndexOfLargest | Editor/GPUMemoryUtils.cs:51 | finds a position holding the largest count from a given position on |
| GPUMemoryUtils.CheckedSum | Editor/GPUMemoryUtils.cs:55 | the checked `long` sum succeeds exactly when every running sum fits, then equals the exact sum; otherwise it throws OverflowException |
| GPUMemoryUtils.SumRemove | Editor/GPUMemoryUtils.cs:55 | the sum is any one entry's count plus the sum of the others |
| GPUMemoryUtils.SumPermutation | Editor/GPUMemoryUtils.cs:51-55 | the exact total does not depend on the order the sort leaves |
| GPUMemoryUtils.PrefixSumBounds | Editor/GPUMemoryUtils.cs:55 | with non-negative counts every running sum lies between 0 and the total |
| GPUMemoryUtils.NonNegativeSumFits | Editor/GPUMemoryUtils.cs:55 | with non-negative counts the checked sum throws exactly when the exact total exceeds `long.MaxValue` |
| GPUMemoryUtils.TotalCoversEntry | Editor/GPUMemoryUtils.cs:55-60 | with non-negative counts no entry exceeds the total |
| GPUMemoryUtils.BuildRows | Editor/GPUMemoryUtils.cs:53-61 | the rows are "Total" at 100 % followed by one row per sorted entry, in order, each with the share count / total |
| GPUMemoryUtils.GetGPUMemoryUsage | Editor/GPUMemoryUtils.cs:15-63 | a success is a report of the collected entries (Total row = exact sum, entry rows a permutation of the entries, sorted largest first, shares of the total); a failure is OverflowException; with non-negative sizes it succeeds exactly when the total fits in a `long` |
| GPUMemoryUtils.TotalRowDominates | Editor/GPUMemoryUtils.cs:55-61 | with non-negative sizes no entry row shows more bytes than the Total row |
| GPUObjectDebugger.Tracker.constructor | Runtime/GPUObjectDebugger.cs:24 | the registry starts empty |
| GPUObjectDebugger.Tracker.StartTracking | Runtime/GPUObjectDebugger.cs:28-33 | in the editor, appends an entry named after the object's type (no duplicate check) and throws NullReferenceException for a null object; elsewhere changes nothing |
| GPUObjectDebugger.Tracker.StartTrackingAs | Runtime/GPUObjectDebugger.cs:35-40 | in the editor, appends an entry with the given name (null allowed); elsewhere changes nothing |
| GPUObjectDebugger.Tracker.StopTracking | Runtime/GPUObjectDebugger.cs:42-47 | in the editor, removes every entry referring to the object and keeps the rest in order; elsewhere changes nothing |
| GPUObjectDebugger.Without | Runtime/GPUObjectDebugger.cs:45 | removal never makes the list longer and keeps only entries the list held |
| GPUObjectDebugger.WithoutRemovesAll | Runtime/GPUObjectDebugger.cs:45 | after removal no entry refers to the object |
| GPUObjectDebugger.WithoutKeepsOthers | Runtime/GPUObjectDebugger.cs:45 | every entry referring to another object is kept, as often as it occurred |
| GPUObjectDebugger.WithoutAppend | Runtime/GPUObjectDebugger.cs:45 | removal from a concatenation is the concatenation of the removals (order kept) |
| GPUObjectDebugger.WithoutIdempotent | Runtime/GPUObjectDebugger.cs:45 | stopping twice is the same as stopping once |
| GPUObjectDebugger.WithoutAbsent | Runtime/GPUObjectDebugger.cs:45 | stopping an object nobody tracks changes nothing |
| GPUObjectDebugger.TrackTwiceThenStop | Runtime/GPUObjectDebugger.cs:28-47 | registering an object twice and stopping it once leaves what stopping alone would: every entry for the object gone, the others as they were |
| GPUObjectDebuggerWindow.MaxPage | Editor/GPUObjectDebuggerWindow.cs:333 | the page count is the least number of pages of `pageSize` covering the snapshot, and 0 only for an empty one |
| GPUObjectDebuggerWindow.VisibleRange | Editor/GPUObjectDebuggerWindow.cs:337-338 | on a page in range the shown items lie inside the snapshot, are at most `pageSize`, and are exactly `pageSize` on every page but the last |
| GPUObjectDebuggerWindow.EveryItemHasAPage | Editor/GPUObjectDebuggerWindow.cs:333-390 | every item of the snapshot is shown on page `i / pageSize`, which the buttons can reach |
| GPUObjectDebuggerWindow.PagesAreContiguous | Editor/GPUObjectDebuggerWindow.cs:337-338 | each page starts where the previous one ends |
| GPUObjectDebuggerWindow.Window.constructor | Editor/GPUObjectDebuggerWindow.cs:34-51 | a new window has no snapshot, page 0, page size 100, empty lists and no report |
| GPUObjectDebuggerWindow.Window.LoadBufferData | Editor/GPUObjectDebuggerWindow.cs:280-305 | a graphics or compute buffer is copied into a fresh array of its element count, with its element type; any other value keeps the old snapshot; the page returns to 0 either way |
| GPUObjectDebuggerWindow.Window.DrawBufferData | Editor/GPUObjectDebuggerWindow.cs:329-396 | without a snapshot nothing happens; otherwise the current page's items, caption and total are shown, Previous moves back only above page 0, Next moves on only below the last page, Close drops the snapshot, and the page stays in range |
| GPUObjectDebuggerWindow.BufferEntriesOf | Editor/GPUObjectDebuggerWindow.cs:83-92 | only fields with the buffer-format attribute and a buffer type are listed, with the attribute's format type |
| GPUObjectDebuggerWindow.TextureEntryFor | Editor/GPUObjectDebuggerWindow.cs:97-98 | the entry shows the field's texture, under the texture's name, or under the field's name when the texture's name is empty |
| GPUObjectDebuggerWindow.TextureEntriesOf | Editor/GPUObjectDebuggerWindow.cs:94-104 | every listed texture entry is the entry of some attributed field holding a texture, and there are no more entries than fields |
| GPUObjectDebuggerWindow.RoutinesOf | Editor/GPUObjectDebuggerWindow.cs:106-118 | only methods with the debug-routine attribute are listed, with their name and the attribute's description |
| GPUObjectDebuggerWindow.BufferFieldListed | Editor/GPUObjectDebuggerWindow.cs:83-92 | every attributed buffer field is listed |
| GPUObjectDebuggerWindow.TextureFieldListed | Editor/GPUObjectDebuggerWindow.cs:94-104 | every attributed texture field is listed |
| GPUObjectDebuggerWindow.RoutineListed | Editor/GPUObjectDebuggerWindow.cs:106-118 | every attributed method is listed |
| GPUObjectDebuggerWindow.FirstNullTexture | Editor/GPUObjectDebuggerWindow.cs:94-98 | the field scan gets exactly as far as the first attributed texture field holding null |
| GPUObjectDebuggerWindow.ScanFields | Editor/GPUObjectDebuggerWindow.cs:79-105 | the field loop lists the buffer and texture entries of the fields before the first null attributed texture, and completes exactly when there is none |
| GPUObjectDebuggerWindow.ScanMethods | Editor/GPUObjectDebuggerWindow.cs:106-118 | the method loop lists every attributed method in order |
| GPUObjectDebuggerWindow.Window.RebuildEntryLists | Editor/GPUObjectDebuggerWindow.cs:72-118 | the tab returns to 0 and the three lists are rebuilt; a null attributed texture stops the rebuild with the routine list empty |
| GPUObjectDebuggerWindow.Window.RefreshMemoryUsage | Editor/GPUObjectDebuggerWindow.cs:120 | the memory report becomes the object's report, or the call throws OverflowException and keeps the previous report |
| GPUObjectDebuggerWindow.Window.ShowObject | Editor/GPUObjectDebuggerWindow.cs:65-121 | the window shows the given entry; a null object throws; otherwise the lists are rebuilt, then the report is recomputed; the snapshot and page are untouched |
| GPUObjectDebuggerWindow.Window.ShowHostObject | Editor/GPUObjectDebuggerWindow.cs:60-63 | a null object throws and leaves every window field as it was; otherwise the object is shown under its type name with exactly the effects of ShowObject: lists rebuilt up to the first null attributed texture, then the report recomputed, snapshot and page untouched |

## Left out

- Reflection is not modelled. An object's fields, declared types, attribute
  values and current field values are data fixed when the object is built.
- All drawing is left out, including `OnGUI`, the tabs, scroll views, the
  culling of off-screen rows, `DisplayField` and the vector fields. A draw is
  reduced to what the buffer view shows and the one button pressed.
- Byte counts are shown in MB and shares as percentages, both floating-point
  formatting. The model keeps the exact byte count and the share as a fraction.
- The engine's `GraphicsFormatUtility.ComputeMipChainSize` and the editor's
  `EditorTextureUtils.GetRuntimeMemorySize` are host functions. They are
  parameters, and EditorTextureUtils is not part of this model.
- `GetData` reads back GPU memory. The read-back contents are part of the
  buffer value.
- Runtime/StructuredBuffer.cs, Runtime/StructuredBufferExtensions.cs and
  Runtime/Attributes.cs are not part of this model. The attributes appear only
  as the data they carry.
- `DrawTexture`, the texture preview and `ShowWindow` are editor UI.
- Running a debug routine by reflection is not modelled, because it calls
  arbitrary host code.
- GPUDebugObject is a value, because nothing in the core writes it after
  construction. A null `GPUDebugObject` passed to `ShowObject` is therefore not
  modelled; in the source that sets the window's entry to null and then throws.
- `StopTracking` compares references. Boxed value types, which never compare
  equal, are not modelled.
- GPUObjectDebuggerWindow.MaxPage: `Mathf.CeilToInt` over a `float` quotient is
  modelled as an exact integer ceiling. Float rounding of very large snapshots
  is not modelled.
- GPUObjectDebuggerWindow.TextureEntriesOf: a texture whose name is null is not
  modelled, because strings are never null here. An empty name is handled as in
  the source.
- GPUMemoryUtils.SortBySizeDescending: this selection sort stands in for the
  unstable `List.Sort`. The contract fixes no order among equal counts, which is
  as much as the source promises.
- GPUMemoryUtils.GetGPUMemoryUsage: when some size is negative, the contract
  leaves the overflow condition unstated and says only that a failure is
  OverflowException, because real buffer and texture sizes are never negative.
- RuntimeTextureUtils.MsaaOf: `antiAliasing + 1` wraps at 32 bits as C# `int`
  addition does. The lemmas assume a sample count below `int.MaxValue`.
