/** The state of the debugger window (Editor/GPUObjectDebuggerWindow.cs): the
    lists `ShowObject` rebuilds from an object's attributed fields and methods,
    and the buffer viewer's snapshot with its page-by-page navigation. Drawing
    itself is not modelled; a draw is reduced to what it shows and to the one
    button the user pressed. */
module GPUObjectDebuggerWindow {
  import opened Wrappers
  import opened Numerics
  import opened Host
  import RuntimeTextureUtils
  import GPUMemoryUtils
  import opened GPUObjectDebugger

  datatype BufferEntry = BufferEntry(target: HostObject, field: FieldInfo, formatType: TypeDesc)

  datatype RoutineEntry = RoutineEntry(name: string, description: Option<string>, methodInfo: MethodInfo)

  datatype TextureEntry = TextureEntry(name: string, texture: RuntimeTextureUtils.Texture)

  /** The button of the buffer view pressed during one draw, if any. */
  datatype Click = NoClick | PreviousClick | NextClick | CloseClick

  /** What one draw of the buffer view shows: the items at positions
      `[start, end)` of the snapshot, the "Page n/m" caption, the item total and
      the fields shown per item. */
  datatype PageView = PageView(start: int, end: int, items: seq<Element>, pageNumber: int, maxPage: int,
                               totalItems: int, fieldCount: int)

  datatype Range = Range(start: int, end: int)

  const DefaultPageSize: int := 100

  // ---------------------------------------------------------------------------
  // Paging arithmetic

  /** The number of pages: `length / pageSize` rounded up. */
  function MaxPage(length: nat, pageSize: nat): (m: nat)
    requires pageSize > 0
    ensures length <= m * pageSize
    ensures m > 0 ==> (m - 1) * pageSize < length
    ensures m == 0 <==> length == 0
  {
    var m := (length + pageSize - 1) / pageSize;
    DivBounds(length + pageSize - 1, pageSize);
    m
  }

  lemma DivBounds(a: nat, d: nat)
    requires d > 0
    ensures (a / d) * d <= a < (a / d) * d + d
  {
  }

  /** The last page the Next button can reach; 0 for an empty snapshot. */
  function LastPage(length: nat, pageSize: nat): nat
    requires pageSize > 0
  {
    if MaxPage(length, pageSize) == 0 then 0 else MaxPage(length, pageSize) - 1
  }

  predicate PageInRange(page: int, length: nat, pageSize: nat)
    requires pageSize > 0
  {
    0 <= page <= LastPage(length, pageSize)
  }

  /** The items a page shows: from `page * pageSize`, at most `pageSize` of
      them, never past the end. On a page in range the window lies inside the
      snapshot and is full unless it is the last one. */
  function VisibleRange(page: int, length: nat, pageSize: nat): (r: Range)
    requires pageSize > 0
    ensures PageInRange(page, length, pageSize) ==>
              0 <= r.start <= r.end <= length && r.end - r.start <= pageSize
    ensures PageInRange(page, length, pageSize) && page < LastPage(length, pageSize) ==>
              r.end - r.start == pageSize
    ensures length == 0 && PageInRange(page, length, pageSize) ==> r.start == r.end == 0
  {
    var start := page * pageSize;
    var end := if start + pageSize < length then start + pageSize else length;
    if PageInRange(page, length, pageSize) then
      PageStartInside(page, length, pageSize);
      Range(start, end)
    else
      Range(start, end)
  }

  lemma PageStartInside(page: int, length: nat, pageSize: nat)
    requires pageSize > 0 && PageInRange(page, length, pageSize)
    ensures 0 <= page * pageSize <= length
    ensures length > 0 ==> page * pageSize < length
    ensures page < LastPage(length, pageSize) ==> page * pageSize + pageSize <= length
  {
    var m := MaxPage(length, pageSize);
    if length > 0 {
      MulMonotone(page, m - 1, pageSize);
      assert page * pageSize <= (m - 1) * pageSize;
      if page < m - 1 {
        MulMonotone(page + 1, m - 1, pageSize);
        assert (page + 1) * pageSize <= (m - 1) * pageSize;
      }
    }
  }

  /** Paging reaches every item: item `i` is shown on page `i / pageSize`, and
      that page is one the buttons can reach. */
  lemma EveryItemHasAPage(length: nat, pageSize: nat, i: nat)
    requires pageSize > 0 && i < length
    ensures PageInRange(i / pageSize, length, pageSize)
    ensures VisibleRange(i / pageSize, length, pageSize).start <= i < VisibleRange(i / pageSize, length, pageSize).end
  {
    var p := i / pageSize;
    var m := MaxPage(length, pageSize);
    DivBounds(i, pageSize);
    assert p * pageSize <= i < p * pageSize + pageSize;
    MulCancelLess(p, m, pageSize);
  }

  lemma MulCancelLess(x: nat, y: nat, z: nat)
    requires z > 0 && x * z < y * z
    ensures x < y
  {
    if x >= y {
      MulMonotone(y, x, z);
    }
  }

  /** Consecutive pages tile the snapshot: each starts where the previous one ends. */
  lemma PagesAreContiguous(page: nat, length: nat, pageSize: nat)
    requires pageSize > 0 && page < LastPage(length, pageSize)
    ensures VisibleRange(page, length, pageSize).end == VisibleRange(page + 1, length, pageSize).start
  {
    PageStartInside(page, length, pageSize);
    assert (page + 1) * pageSize == page * pageSize + pageSize;
  }

  /** The fields each item shows: one for a primitive element type, otherwise
      one per public field of the element type. */
  function FieldCount(isPrimitive: bool, fields: seq<string>): nat {
    if isPrimitive then 1 else |fields|
  }

  // ---------------------------------------------------------------------------
  // The lists ShowObject rebuilds

  /** A field the buffer viewer lists: it carries the buffer-format attribute
      and is declared as a graphics or compute buffer. */
  predicate IsBufferField(f: FieldInfo) {
    f.debugAs.Some? && (f.fieldType == GraphicsBufferType || f.fieldType == ComputeBufferType)
  }

  /** A field the texture viewer lists: it carries the texture attribute and is
      declared as a texture type. */
  predicate IsTextureField(f: FieldInfo) {
    f.debug && f.fieldType.TextureType?
  }

  /** A listed texture field holding null: reading its name throws. */
  predicate IsNullTextureField(f: FieldInfo) {
    IsTextureField(f) && !f.value.TextureValue?
  }

  function BufferEntriesOf(obj: HostObject, fields: seq<FieldInfo>): (r: seq<BufferEntry>)
    ensures |r| <= |fields|
    ensures forall e | e in r ::
              e.target == obj && IsBufferField(e.field) && e.field in fields && e.formatType == e.field.debugAs.value
  {
    if fields == [] then []
    else
      var f := fields[|fields| - 1];
      BufferEntriesOf(obj, fields[..|fields| - 1])
        + (if IsBufferField(f) then [BufferEntry(obj, f, f.debugAs.value)] else [])
  }

  /** The name a texture is listed under: its own name, or the field's when it has none. */
  function TextureEntryFor(f: FieldInfo): (e: TextureEntry)
    requires f.value.TextureValue?
    ensures e.texture == f.value.texture
    ensures f.value.texture.name == "" ==> e.name == f.name
    ensures f.value.texture.name != "" ==> e.name == f.value.texture.name
  {
    var t := f.value.texture;
    TextureEntry(if t.name == "" then f.name else t.name, t)
  }

  function TextureEntriesOf(fields: seq<FieldInfo>): (r: seq<TextureEntry>)
    requires forall k | 0 <= k < |fields| :: !IsNullTextureField(fields[k])
    ensures |r| <= |fields|
    ensures forall e | e in r ::
              exists f | f in fields :: IsTextureField(f) && f.value.TextureValue? && e == TextureEntryFor(f)
  {
    if fields == [] then []
    else
      var f := fields[|fields| - 1];
      var front := fields[..|fields| - 1];
      assert !IsNullTextureField(fields[|fields| - 1]);
      var r := TextureEntriesOf(front) + (if IsTextureField(f) then [TextureEntryFor(f)] else []);
      assert forall g | g in front :: g in fields;
      r
  }

  function RoutinesOf(methods: seq<MethodInfo>): (r: seq<RoutineEntry>)
    ensures |r| <= |methods|
    ensures forall e | e in r ::
              e.methodInfo in methods && e.methodInfo.routine.Some? && e.name == e.methodInfo.name
              && e.description == e.methodInfo.routine.value
  {
    if methods == [] then []
    else
      var m := methods[|methods| - 1];
      RoutinesOf(methods[..|methods| - 1])
        + (if m.routine.Some? then [RoutineEntry(m.name, m.routine.value, m)] else [])
  }

  /** Every attributed buffer field is listed, with the format type its
      attribute names. */
  lemma {:induction false} BufferFieldListed(obj: HostObject, fields: seq<FieldInfo>, i: nat)
    requires i < |fields| && IsBufferField(fields[i])
    ensures BufferEntry(obj, fields[i], fields[i].debugAs.value) in BufferEntriesOf(obj, fields)
  {
    var n := |fields| - 1;
    if i < n {
      BufferFieldListed(obj, fields[..n], i);
    }
  }

  /** Every attributed texture field is listed, under the name TextureEntryFor gives it. */
  lemma {:induction false} TextureFieldListed(fields: seq<FieldInfo>, i: nat)
    requires forall k | 0 <= k < |fields| :: !IsNullTextureField(fields[k])
    requires i < |fields| && IsTextureField(fields[i])
    ensures !IsNullTextureField(fields[i]) && TextureEntryFor(fields[i]) in TextureEntriesOf(fields)
  {
    var n := |fields| - 1;
    assert !IsNullTextureField(fields[i]);
    if i < n {
      assert forall k | 0 <= k < n :: fields[..n][k] == fields[k];
      TextureFieldListed(fields[..n], i);
    }
  }

  /** Every method carrying the debug-routine attribute is listed. */
  lemma {:induction false} RoutineListed(methods: seq<MethodInfo>, i: nat)
    requires i < |methods| && methods[i].routine.Some?
    ensures RoutineEntry(methods[i].name, methods[i].routine.value, methods[i]) in RoutinesOf(methods)
  {
    var n := |methods| - 1;
    if i < n {
      RoutineListed(methods[..n], i);
    }
  }

  /** The position of the first listed texture field holding null, or the
      number of fields when there is none: how far the field scan gets. */
  function FirstNullTexture(fields: seq<FieldInfo>): (k: nat)
    ensures k <= |fields|
    ensures forall q | 0 <= q < k :: !IsNullTextureField(fields[q])
    ensures k < |fields| ==> IsNullTextureField(fields[k])
  {
    if fields == [] then 0
    else if IsNullTextureField(fields[0]) then 0
    else
      var k := 1 + FirstNullTexture(fields[1..]);
      assert forall q | 1 <= q < k :: fields[q] == fields[1..][q - 1];
      k
  }

  /** The field scan of `ShowObject`: in field order, a listed buffer field
      adds a buffer entry and a listed texture field a texture entry, until a
      listed texture field holding null stops the scan (`scanned` false). */
  method ScanFields(obj: HostObject) returns (buffers: seq<BufferEntry>, textures: seq<TextureEntry>, scanned: bool)
    ensures var k := FirstNullTexture(obj.fields);
            && buffers == BufferEntriesOf(obj, obj.fields[..k])
            && textures == TextureEntriesOf(obj.fields[..k])
            && (scanned <==> k == |obj.fields|)
  {
    var fields := obj.fields;
    ghost var k := FirstNullTexture(fields);
    buffers, textures := [], [];
    for j := 0 to |fields|
      invariant j <= k
      invariant buffers == BufferEntriesOf(obj, fields[..j])
      invariant textures == TextureEntriesOf(fields[..j])
    {
      assert fields[..j + 1][..j] == fields[..j];
      var field := fields[j];
      if field.debugAs.Some? && (field.fieldType == GraphicsBufferType || field.fieldType == ComputeBufferType) {
        buffers := buffers + [BufferEntry(obj, field, field.debugAs.value)];
      }
      if field.debug && field.fieldType.TextureType? {
        if !field.value.TextureValue? {
          return buffers, textures, false;
        }
        var texture := field.value.texture;
        var name := if texture.name == "" then field.name else texture.name;
        textures := textures + [TextureEntry(name, texture)];
      }
    }
    assert fields[..|fields|] == fields;
    scanned := true;
  }

  /** The method scan of `ShowObject`: every method carrying the debug-routine
      attribute, in order, with its description. */
  method ScanMethods(methods: seq<MethodInfo>) returns (routines: seq<RoutineEntry>)
    ensures routines == RoutinesOf(methods)
  {
    routines := [];
    for j := 0 to |methods|
      invariant routines == RoutinesOf(methods[..j])
    {
      assert methods[..j + 1][..j] == methods[..j];
      var m := methods[j];
      if m.routine.Some? {
        routines := routines + [RoutineEntry(m.name, m.routine.value, m)];
      }
    }
    assert methods[..|methods|] == methods;
  }

  // ---------------------------------------------------------------------------
  // The window

  class Window {
    var selectedTab: int
    var bufferEntries: seq<BufferEntry>
    var methodEntries: seq<RoutineEntry>
    var textureEntries: seq<TextureEntry>
    var debugObject: Option<GPUDebugObject>

    var bufferType: Option<TypeDesc>
    var isBufferPrimitive: bool
    var bufferTypeFields: seq<string>
    var bufferData: array?<Element>
    var page: int
    const pageSize: int
    var memoryUsage: Option<seq<GPUMemoryUtils.ReportRow>>

    /** The page stays within the loaded snapshot, and a snapshot always comes
        with the element type it was loaded as. */
    ghost predicate Valid()
      reads this
    {
      && pageSize > 0
      && page >= 0
      && (bufferData != null ==>
            && PageInRange(page, bufferData.Length, pageSize)
            && bufferType.Some?
            && isBufferPrimitive == bufferType.value.isPrimitive
            && bufferTypeFields == bufferType.value.publicFields)
    }

    constructor ()
      ensures Valid()
      ensures pageSize == DefaultPageSize && page == 0 && bufferData == null && selectedTab == 0
      ensures bufferEntries == [] && methodEntries == [] && textureEntries == []
      ensures debugObject == None && memoryUsage == None
    {
      selectedTab := 0;
      bufferEntries := [];
      methodEntries := [];
      textureEntries := [];
      debugObject := None;
      bufferType := None;
      isBufferPrimitive := false;
      bufferTypeFields := [];
      bufferData := null;
      page := 0;
      pageSize := DefaultPageSize;
      memoryUsage := None;
    }

    /** Reads the entry's buffer back into a fresh snapshot of `count` elements
        of the entry's format type. The page returns to 0 even when the field
        holds no buffer, in which case the snapshot is kept. */
    method LoadBufferData(entry: BufferEntry)
      requires Valid()
      modifies this
      ensures Valid()
      ensures page == 0
      ensures var v := entry.field.value;
              if v.GraphicsBufferValue? || v.ComputeBufferValue? then
                && bufferData != null && fresh(bufferData) && bufferData[..] == v.contents
                && bufferType == Some(entry.formatType)
              else
                bufferData == old(bufferData) && bufferType == old(bufferType)
                && isBufferPrimitive == old(isBufferPrimitive) && bufferTypeFields == old(bufferTypeFields)
      ensures selectedTab == old(selectedTab) && debugObject == old(debugObject) && memoryUsage == old(memoryUsage)
      ensures bufferEntries == old(bufferEntries) && textureEntries == old(textureEntries)
      ensures methodEntries == old(methodEntries)
    {
      var bufferAsObject := entry.field.value;
      if bufferAsObject.GraphicsBufferValue? {
        var contents := bufferAsObject.contents;
        bufferData := new Element[|contents|](i requires 0 <= i < |contents| => contents[i]);
        bufferType := Some(entry.formatType);
        bufferTypeFields := entry.formatType.publicFields;
        isBufferPrimitive := entry.formatType.isPrimitive;
      } else if bufferAsObject.ComputeBufferValue? {
        var contents := bufferAsObject.contents;
        bufferData := new Element[|contents|](i requires 0 <= i < |contents| => contents[i]);
        bufferType := Some(entry.formatType);
        bufferTypeFields := entry.formatType.publicFields;
        isBufferPrimitive := entry.formatType.isPrimitive;
      }
      page := 0;
    }

    /** One draw of the buffer view: nothing without a snapshot; otherwise the
        current page is shown, then the pressed button acts. Previous moves back
        only from a page above 0, Next moves on only below the last page, Close
        drops the snapshot. */
    method DrawBufferData(click: Click) returns (view: Option<PageView>)
      requires Valid()
      modifies this
      ensures Valid()
      ensures old(bufferData) == null ==> view == None && bufferData == null && page == old(page)
      ensures old(bufferData) != null ==>
                var length := old(bufferData).Length;
                var maxPage := MaxPage(length, pageSize);
                var r := VisibleRange(old(page), length, pageSize);
                && view == Some(PageView(r.start, r.end, old(bufferData[..])[r.start..r.end], old(page) + 1, maxPage, length,
                                         FieldCount(isBufferPrimitive, bufferTypeFields)))
                && page == (if click == PreviousClick && old(page) > 0 then old(page) - 1
                            else if click == NextClick && old(page) < maxPage - 1 then old(page) + 1
                            else old(page))
                && bufferData == (if click == CloseClick then null else old(bufferData))
      ensures bufferType == old(bufferType) && isBufferPrimitive == old(isBufferPrimitive)
      ensures bufferTypeFields == old(bufferTypeFields)
      ensures selectedTab == old(selectedTab) && debugObject == old(debugObject) && memoryUsage == old(memoryUsage)
      ensures bufferEntries == old(bufferEntries) && textureEntries == old(textureEntries)
      ensures methodEntries == old(methodEntries)
    {
      if bufferData == null {
        return None;
      }
      var length := bufferData.Length;
      var maxPage: int := MaxPage(length, pageSize);
      var fieldCount := FieldCount(isBufferPrimitive, bufferTypeFields);
      var start := page * pageSize;
      var end := if start + pageSize < length then start + pageSize else length;
      assert Range(start, end) == VisibleRange(page, length, pageSize);
      view := Some(PageView(start, end, bufferData[start..end], page + 1, maxPage, length, fieldCount));

      if click == PreviousClick && page > 0 {
        page := page - 1;
      }
      if click == NextClick && page < maxPage - 1 {
        page := page + 1;
      }
      if click == CloseClick {
        bufferData := null;
      }
    }

    /** Empties the three lists and rebuilds them from `obj`, returning the tab
        to the buffer viewer. A listed texture field holding null stops the
        field scan (`scanned` false) and leaves the routine list empty. */
    method RebuildEntryLists(obj: HostObject) returns (scanned: bool)
      requires Valid()
      modifies this
      ensures Valid()
      ensures var fields := obj.fields;
              var k := FirstNullTexture(fields);
              && (scanned <==> k == |fields|)
              && selectedTab == 0
              && bufferEntries == BufferEntriesOf(obj, fields[..k])
              && textureEntries == TextureEntriesOf(fields[..k])
              && methodEntries == (if scanned then RoutinesOf(obj.methods) else [])
      ensures debugObject == old(debugObject) && memoryUsage == old(memoryUsage)
      ensures bufferData == old(bufferData) && page == old(page) && bufferType == old(bufferType)
      ensures isBufferPrimitive == old(isBufferPrimitive) && bufferTypeFields == old(bufferTypeFields)
    {
      var buffers, textures;
      buffers, textures, scanned := ScanFields(obj);
      var routines: seq<RoutineEntry> := [];
      if scanned {
        routines := ScanMethods(obj.methods);
      }
      selectedTab := 0;
      bufferEntries, textureEntries, methodEntries := buffers, textures, routines;
    }

    /** Recomputes the memory tab's report for `obj` alone. An overflowing total
        throws and keeps the previous report. */
    method RefreshMemoryUsage(obj: HostObject, textureSize: GPUMemoryUtils.TextureSize) returns (outcome: Outcome)
      requires Valid()
      modifies this
      ensures Valid()
      ensures outcome == Completed || outcome == Threw(OverflowException)
      ensures outcome == Completed ==>
                memoryUsage.Some? && GPUMemoryUtils.IsReportOf(memoryUsage.value, GPUMemoryUtils.Collected([obj], textureSize))
      ensures outcome.Threw? ==> memoryUsage == old(memoryUsage)
      ensures selectedTab == old(selectedTab) && debugObject == old(debugObject)
      ensures bufferEntries == old(bufferEntries) && textureEntries == old(textureEntries)
      ensures methodEntries == old(methodEntries)
      ensures bufferData == old(bufferData) && page == old(page) && bufferType == old(bufferType)
      ensures isBufferPrimitive == old(isBufferPrimitive) && bufferTypeFields == old(bufferTypeFields)
    {
      var usage := GPUMemoryUtils.GetGPUMemoryUsage([obj], textureSize);
      if usage.Failure? {
        return Threw(usage.error);
      }
      memoryUsage := Some(usage.value);
      outcome := Completed;
    }

    /** Opens `d` in the window: the tab returns to the buffer viewer, the three
        lists are emptied and rebuilt from the object's attributed fields and
        methods, and the memory report is recomputed. A null object, or a listed
        texture field holding null, throws part-way; an overflowing memory total
        throws at the end, leaving the previous report. The buffer snapshot and
        its page are left as they are. */
    method ShowObject(d: GPUDebugObject, textureSize: GPUMemoryUtils.TextureSize) returns (outcome: Outcome)
      requires Valid()
      modifies this
      ensures Valid()
      ensures debugObject == Some(d)
      ensures bufferData == old(bufferData) && page == old(page) && bufferType == old(bufferType)
      ensures isBufferPrimitive == old(isBufferPrimitive) && bufferTypeFields == old(bufferTypeFields)
      ensures d.obj == null ==>
                && outcome == Threw(NullReferenceException)
                && selectedTab == old(selectedTab) && memoryUsage == old(memoryUsage)
                && bufferEntries == old(bufferEntries) && textureEntries == old(textureEntries)
                && methodEntries == old(methodEntries)
      ensures d.obj != null ==>
                var fields := d.obj.fields;
                var k := FirstNullTexture(fields);
                && selectedTab == 0
                && bufferEntries == BufferEntriesOf(d.obj, fields[..k])
                && textureEntries == TextureEntriesOf(fields[..k])
                && (k < |fields| ==>
                      outcome == Threw(NullReferenceException) && methodEntries == [] && memoryUsage == old(memoryUsage))
                && (k == |fields| ==>
                      && methodEntries == RoutinesOf(d.obj.methods)
                      && (outcome == Completed || outcome == Threw(OverflowException))
                      && (outcome == Completed ==>
                            memoryUsage.Some? && GPUMemoryUtils.IsReportOf(memoryUsage.value, GPUMemoryUtils.Collected([d.obj], textureSize)))
                      && (outcome.Threw? ==> memoryUsage == old(memoryUsage)))
    {
      debugObject := Some(d);
      var obj := d.obj;
      if obj == null {
        return Threw(NullReferenceException);
      }
      var scanned := RebuildEntryLists(obj);
      if !scanned {
        return Threw(NullReferenceException);
      }
      outcome := RefreshMemoryUsage(obj, textureSize);
    }

    /** Opens a bare object under its type name; a null object throws before
        the window changes. */
    method ShowHostObject(obj: HostObject?, textureSize: GPUMemoryUtils.TextureSize) returns (outcome: Outcome)
      requires Valid()
      modifies this
      ensures Valid()
      ensures obj == null ==>
                && outcome == Threw(NullReferenceException) && debugObject == old(debugObject)
                && selectedTab == old(selectedTab) && memoryUsage == old(memoryUsage)
                && bufferEntries == old(bufferEntries) && textureEntries == old(textureEntries)
                && methodEntries == old(methodEntries)
      ensures bufferData == old(bufferData) && page == old(page) && bufferType == old(bufferType)
      ensures isBufferPrimitive == old(isBufferPrimitive) && bufferTypeFields == old(bufferTypeFields)
      ensures obj != null ==> debugObject == Some(DebugObjectFor(obj))
      ensures obj != null ==>
                var fields := obj.fields;
                var k := FirstNullTexture(fields);
                && selectedTab == 0
                && bufferEntries == BufferEntriesOf(obj, fields[..k])
                && textureEntries == TextureEntriesOf(fields[..k])
                && (k < |fields| ==>
                      outcome == Threw(NullReferenceException) && methodEntries == [] && memoryUsage == old(memoryUsage))
                && (k == |fields| ==>
                      && methodEntries == RoutinesOf(obj.methods)
                      && (outcome == Completed || outcome == Threw(OverflowException))
                      && (outcome == Completed ==>
                            memoryUsage.Some? && GPUMemoryUtils.IsReportOf(memoryUsage.value, GPUMemoryUtils.Collected([obj], textureSize)))
                      && (outcome.Threw? ==> memoryUsage == old(memoryUsage)))
    {
      if obj == null {
        return Threw(NullReferenceException);
      }
      outcome := ShowObject(DebugObjectFor(obj), textureSize);
    }
  }
}
