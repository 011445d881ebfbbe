/** The memory-usage report of the debugger window (Editor/GPUMemoryUtils.cs):
    one entry per non-null buffer or texture field of the given objects, sorted
    by size (largest first) and headed by a "Total" row. */
module GPUMemoryUtils {
  import opened Wrappers
  import opened Numerics
  import opened Host
  import RuntimeTextureUtils

  /** The editor's texture memory estimate, a host function the report calls. */
  type TextureSize = RuntimeTextureUtils.Texture -> Int64

  /** A collected entry: a label and a byte count held in a `long`. */
  datatype Entry = Entry(name: string, count: Int64)

  /** A row's share of the total, `part / whole * 100` percent; the Total row
      always reads 100 %. Nothing guards a zero whole. */
  datatype Share = Hundred | Fraction(part: int, whole: int)

  datatype ReportRow = ReportRow(name: string, bytes: Int64, share: Share)

  // ---------------------------------------------------------------------------
  // Entry collection

  /** `stride * count` computed in 64 bits from two 32-bit operands: the product
      stays within 2^62 in magnitude, so it never overflows a `long`. */
  function BufferByteSize(stride: Int32, count: nat): (bytes: Int64)
    requires count <= MaxInt32
    ensures -0x4000_0000_0000_0000 <= bytes <= 0x4000_0000_0000_0000
    ensures stride >= 0 ==> bytes >= 0
  {
    ProductBound(stride, count);
    stride * count
  }

  lemma ProductBound(a: int, b: int)
    requires -0x8000_0000 <= a <= 0x7FFF_FFFF && 0 <= b <= 0x7FFF_FFFF
    ensures -0x4000_0000_0000_0000 <= a * b <= 0x4000_0000_0000_0000
    ensures a >= 0 ==> a * b >= 0
  {
    var c := 0x8000_0000;
    var m := if a >= 0 then a else -a;
    MulMonotone(m, c, b);
    MulMonotone(b, c, c);
    assert c * c == 0x4000_0000_0000_0000;
    assert m * b <= c * c;
    assert a * b == m * b || a * b == -(m * b);
    assert a >= 0 ==> a * b == m * b;
  }

  /** Whether a field yields an entry: its declared type is a buffer or texture
      type and its current value is a non-null object of that type. */
  predicate Reported(f: FieldInfo) {
    match f.fieldType
    case GraphicsBufferType => f.value.GraphicsBufferValue?
    case ComputeBufferType => f.value.ComputeBufferValue?
    case TextureType(_) => f.value.TextureValue?
    case OtherType(_) => false
  }

  /** The entries one field of an object of type `typeName` contributes. */
  function FieldEntries(typeName: string, f: FieldInfo, textureSize: TextureSize): (r: seq<Entry>)
    ensures |r| == if Reported(f) then 1 else 0
  {
    match f.fieldType
    case GraphicsBufferType =>
      if f.value.GraphicsBufferValue? then
        [Entry(typeName + "." + f.name, BufferByteSize(f.value.stride, |f.value.contents|))]
      else []
    case ComputeBufferType =>
      if f.value.ComputeBufferValue? then
        [Entry(typeName + "." + f.name, BufferByteSize(f.value.stride, |f.value.contents|))]
      else []
    case TextureType(fullName) =>
      if f.value.TextureValue? then
        [Entry(typeName + "." + f.name + " (" + fullName + ")", textureSize(f.value.texture))]
      else []
    case OtherType(_) => []
  }

  /** The entries of the fields, in field order. */
  function ObjectEntries(typeName: string, fields: seq<FieldInfo>, textureSize: TextureSize): seq<Entry>
  {
    if fields == [] then []
    else ObjectEntries(typeName, fields[..|fields| - 1], textureSize)
         + FieldEntries(typeName, fields[|fields| - 1], textureSize)
  }

  /** The entries of the objects, in object order; a null object contributes none. */
  function Collected(objects: seq<HostObject?>, textureSize: TextureSize): seq<Entry>
  {
    if objects == [] then []
    else
      var o := objects[|objects| - 1];
      Collected(objects[..|objects| - 1], textureSize)
        + (if o == null then [] else ObjectEntries(o.typeName, o.fields, textureSize))
  }

  /** Scans every field of every non-null object and appends its entry. */
  method CollectEntries(objects: seq<HostObject?>, textureSize: TextureSize) returns (entries: seq<Entry>)
    ensures entries == Collected(objects, textureSize)
  {
    entries := [];
    for i := 0 to |objects|
      invariant entries == Collected(objects[..i], textureSize)
    {
      assert objects[..i + 1][..i] == objects[..i];
      CollectedLast(objects[..i + 1], textureSize);
      var obj := objects[i];
      if obj == null {
        continue;
      }
      var found := ScanObject(obj, textureSize);
      entries := entries + found;
    }
    assert objects[..|objects|] == objects;
  }

  /** The field loop for one object: an entry per reported field, in field order. */
  method ScanObject(obj: HostObject, textureSize: TextureSize) returns (found: seq<Entry>)
    ensures found == ObjectEntries(obj.typeName, obj.fields, textureSize)
  {
    found := [];
    var fields := obj.fields;
    for j := 0 to |fields|
      invariant found == ObjectEntries(obj.typeName, fields[..j], textureSize)
    {
      assert fields[..j + 1][..j] == fields[..j];
      ObjectEntriesLast(obj.typeName, fields[..j + 1], textureSize);
      var field := fields[j];
      var value := field.value;
      if field.fieldType == GraphicsBufferType {
        if value.GraphicsBufferValue? {
          found := found + [Entry(obj.typeName + "." + field.name, BufferByteSize(value.stride, |value.contents|))];
        }
      } else if field.fieldType == ComputeBufferType {
        if value.ComputeBufferValue? {
          found := found + [Entry(obj.typeName + "." + field.name, BufferByteSize(value.stride, |value.contents|))];
        }
      } else if field.fieldType.TextureType? {
        if value.TextureValue? {
          found := found + [Entry(obj.typeName + "." + field.name + " (" + field.fieldType.fullName + ")",
                                  textureSize(value.texture))];
        }
      }
    }
    assert fields[..|fields|] == fields;
  }

  // ---------------------------------------------------------------------------
  // Sorting

  predicate SortedBySizeDescending(s: seq<Entry>) {
    forall i, j | 0 <= i < j < |s| :: s[i].count >= s[j].count
  }

  /** Sorts the entries in place, largest count first. Ties end in no
      particular order. */
  method SortBySizeDescending(a: array<Entry>)
    modifies a
    ensures SortedBySizeDescending(a[..])
    ensures multiset(a[..]) == old(multiset(a[..]))
  {
    for i := 0 to a.Length
      invariant forall p, q | 0 <= p < q < i :: a[p].count >= a[q].count
      invariant forall p, q | 0 <= p < i <= q < a.Length :: a[p].count >= a[q].count
      invariant multiset(a[..]) == old(multiset(a[..]))
    {
      var m := IndexOfLargest(a, i);
      Swap(a, i, m);
    }
  }

  /** The position of a largest count in `a[from..]`. */
  method IndexOfLargest(a: array<Entry>, from: nat) returns (m: nat)
    requires from < a.Length
    ensures from <= m < a.Length
    ensures forall q | from <= q < a.Length :: a[m].count >= a[q].count
  {
    m := from;
    for j := from + 1 to a.Length
      invariant from <= m < j
      invariant forall q | from <= q < j :: a[m].count >= a[q].count
    {
      if a[j].count > a[m].count {
        m := j;
      }
    }
  }

  method Swap(a: array<Entry>, i: nat, j: nat)
    requires i < a.Length && j < a.Length
    modifies a
    ensures a[i] == old(a[j]) && a[j] == old(a[i])
    ensures forall k | 0 <= k < a.Length && k != i && k != j :: a[k] == old(a[k])
    ensures multiset(a[..]) == old(multiset(a[..]))
  {
    a[i], a[j] := a[j], a[i];
  }

  // ---------------------------------------------------------------------------
  // Total

  /** The exact sum of the entry counts. */
  function Sum(s: seq<Entry>): int {
    if s == [] then 0 else Sum(s[..|s| - 1]) + s[|s| - 1].count
  }

  /** Every running sum from the left fits in a `long`: the condition under which
      the checked 64-bit sum does not throw. */
  predicate PrefixSumsFit(s: seq<Entry>) {
    forall k | 0 <= k <= |s| :: InInt64(Sum(s[..k]))
  }

  predicate AllNonNegative(s: seq<Entry>) {
    forall i | 0 <= i < |s| :: s[i].count >= 0
  }

  /** The host's checked 64-bit sum over a sequence of `long`s: it throws an
      overflow exception as soon as a running sum leaves the `long` range. */
  method CheckedSum(entries: seq<Entry>) returns (total: Result<Int64, Exception>)
    ensures total.Success? <==> PrefixSumsFit(entries)
    ensures total.Success? ==> total.value == Sum(entries)
    ensures total.Failure? ==> total.error == OverflowException
  {
    var sum: Int64 := 0;
    assert entries[..0] == [];
    for i := 0 to |entries|
      invariant sum == Sum(entries[..i])
      invariant forall k | 0 <= k <= i :: InInt64(Sum(entries[..k]))
    {
      assert entries[..i + 1][..i] == entries[..i];
      var next := sum + entries[i].count;
      if !InInt64(next) {
        assert !InInt64(Sum(entries[..i + 1]));
        return Failure(OverflowException);
      }
      sum := next;
    }
    assert entries[..|entries|] == entries;
    total := Success(sum);
  }

  /** Removing one entry takes exactly its count off the sum. */
  lemma {:induction false} SumRemove(s: seq<Entry>, k: nat)
    requires k < |s|
    ensures Sum(s) == s[k].count + Sum(s[..k] + s[k + 1..])
  {
    var n := |s| - 1;
    if k == n {
      assert s[..k] + s[k + 1..] == s[..n];
    } else {
      var t := s[..n];
      var u := t[..k] + t[k + 1..];
      SumRemove(t, k);
      assert t[k] == s[k];
      assert s[..k] + s[k + 1..] == u + [s[n]] by {
        assert s[..k] == t[..k];
        assert s[k + 1..] == t[k + 1..] + [s[n]];
      }
      SumAppendOne(u, s[n]);
    }
  }

  lemma SumAppendOne(u: seq<Entry>, x: Entry)
    ensures Sum(u + [x]) == Sum(u) + x.count
  {
    assert (u + [x])[..|u|] == u;
  }

  /** The sum does not depend on the order of the entries. */
  lemma {:induction false} SumPermutation(a: seq<Entry>, b: seq<Entry>)
    requires multiset(a) == multiset(b)
    ensures Sum(a) == Sum(b)
  {
    if a == [] {
      assert |b| == |multiset(b)| == 0;
    } else {
      var n := |a| - 1;
      var x := a[n];
      assert x in multiset(b);
      var k :| 0 <= k < |b| && b[k] == x;
      RemoveAtMultiset(a, n);
      assert a[..n] + a[n + 1..] == a[..n];
      RemoveAtMultiset(b, k);
      SumPermutation(a[..n], b[..k] + b[k + 1..]);
      SumRemove(b, k);
    }
  }

  lemma RemoveAtMultiset(s: seq<Entry>, k: nat)
    requires k < |s|
    ensures multiset(s[..k] + s[k + 1..]) == multiset(s) - multiset{s[k]}
  {
    assert s == s[..k] + [s[k]] + s[k + 1..];
  }

  /** With non-negative counts the running sums grow: each lies between 0 and the total. */
  lemma {:induction false} PrefixSumBounds(s: seq<Entry>, k: nat)
    requires AllNonNegative(s) && k <= |s|
    ensures 0 <= Sum(s[..k]) <= Sum(s)
  {
    if k < |s| {
      var n := |s| - 1;
      assert s[..n][..k] == s[..k];
      PrefixSumBounds(s[..n], k);
      PrefixSumBounds(s[..n], n);
      assert s[..n][..n] == s[..n];
    } else {
      assert s[..k] == s;
      if s != [] {
        var n := |s| - 1;
        PrefixSumBounds(s[..n], n);
        assert s[..n][..n] == s[..n];
      }
    }
  }

  /** With non-negative counts the checked sum throws exactly when the total
      exceeds the `long` range, whatever the order of summation. */
  lemma NonNegativeSumFits(s: seq<Entry>)
    requires AllNonNegative(s)
    ensures PrefixSumsFit(s) <==> Sum(s) <= MaxInt64
  {
    assert s[..|s|] == s;
    if Sum(s) <= MaxInt64 {
      forall k | 0 <= k <= |s|
        ensures InInt64(Sum(s[..k]))
      {
        PrefixSumBounds(s, k);
      }
    }
  }

  /** With non-negative counts, the total is at least any single entry. */
  lemma TotalCoversEntry(s: seq<Entry>, k: nat)
    requires AllNonNegative(s) && k < |s|
    ensures s[k].count <= Sum(s)
  {
    SumRemove(s, k);
    var rest := s[..k] + s[k + 1..];
    RemoveAtNonNegative(s, k);
    assert rest[..|rest|] == rest;
    PrefixSumBounds(rest, |rest|);
  }

  lemma RemoveAtNonNegative(s: seq<Entry>, k: nat)
    requires AllNonNegative(s) && k < |s|
    ensures AllNonNegative(s[..k] + s[k + 1..])
  {
    var rest := s[..k] + s[k + 1..];
    forall i | 0 <= i < |rest| ensures rest[i].count >= 0 {
      if i < k { assert rest[i] == s[i]; } else { assert rest[i] == s[i + 1]; }
    }
  }

  // ---------------------------------------------------------------------------
  // The report

  /** The entries the rows after the first display, with their labels and counts. */
  function EntriesOf(rows: seq<ReportRow>): (r: seq<Entry>)
    ensures |r| == |rows|
    ensures forall i | 0 <= i < |rows| :: r[i].name == rows[i].name && r[i].count == rows[i].bytes
  {
    seq(|rows|, i requires 0 <= i < |rows| => Entry(rows[i].name, rows[i].bytes))
  }

  /** `rows` is a report on `entries`: a "Total" row holding their sum at 100 %,
      then the same entries, labels unchanged, largest first, each with its
      share of the total. */
  ghost predicate IsReportOf(rows: seq<ReportRow>, entries: seq<Entry>) {
    && |rows| == |entries| + 1
    && rows[0] == ReportRow("Total", rows[0].bytes, Hundred)
    && rows[0].bytes == Sum(entries)
    && multiset(EntriesOf(rows[1..])) == multiset(entries)
    && SortedBySizeDescending(EntriesOf(rows[1..]))
    && forall i | 1 <= i < |rows| :: rows[i].share == Fraction(rows[i].bytes, rows[0].bytes)
  }

  /** Appends one row per sorted entry after the "Total" row, each with its
      share of the total. */
  method BuildRows(sorted: seq<Entry>, total: Int64) returns (rows: seq<ReportRow>)
    ensures |rows| == |sorted| + 1
    ensures rows[0] == ReportRow("Total", total, Hundred)
    ensures EntriesOf(rows[1..]) == sorted
    ensures forall i | 1 <= i < |rows| :: rows[i].share == Fraction(rows[i].bytes, total)
  {
    rows := [ReportRow("Total", total, Hundred)];
    for i := 0 to |sorted|
      invariant |rows| == i + 1
      invariant rows[0] == ReportRow("Total", total, Hundred)
      invariant forall k | 0 <= k < i ::
                  rows[k + 1] == ReportRow(sorted[k].name, sorted[k].count, Fraction(sorted[k].count, total))
    {
      var entry := sorted[i];
      rows := rows + [ReportRow(entry.name, entry.count, Fraction(entry.count, total))];
    }
  }

  /** Reordering keeps counts non-negative. */
  lemma PermutationNonNegative(a: seq<Entry>, b: seq<Entry>)
    requires multiset(a) == multiset(b) && AllNonNegative(b)
    ensures AllNonNegative(a)
  {
    forall i | 0 <= i < |a| ensures a[i].count >= 0 {
      assert a[i] in multiset(b);
    }
  }

  /** The report on the buffers and textures held by the fields of `objects`.
      Throws an overflow exception when the checked total leaves the `long`
      range; with non-negative sizes that happens exactly when the sum does. */
  method GetGPUMemoryUsage(objects: seq<HostObject?>, textureSize: TextureSize)
    returns (result: Result<seq<ReportRow>, Exception>)
    ensures result.Success? ==> IsReportOf(result.value, Collected(objects, textureSize))
    ensures result.Failure? ==> result.error == OverflowException
    ensures AllNonNegative(Collected(objects, textureSize)) ==>
              (result.Success? <==> Sum(Collected(objects, textureSize)) <= MaxInt64)
  {
    var entries := CollectEntries(objects, textureSize);
    var a := new Entry[|entries|](i requires 0 <= i < |entries| => entries[i]);
    assert a[..] == entries;
    SortBySizeDescending(a);
    var sorted := a[..];
    SumPermutation(sorted, entries);
    if AllNonNegative(entries) {
      PermutationNonNegative(sorted, entries);
      NonNegativeSumFits(sorted);
    }

    var total := CheckedSum(sorted);
    if total.Failure? {
      return Failure(total.error);
    }
    var rows := BuildRows(sorted, total.value);
    result := Success(rows);
  }

  // ---------------------------------------------------------------------------
  // Properties of the report

  /** Collecting over two lists of objects is collecting over each in turn. */
  lemma {:induction false} CollectedAppend(a: seq<HostObject?>, b: seq<HostObject?>, textureSize: TextureSize)
    ensures Collected(a + b, textureSize) == Collected(a, textureSize) + Collected(b, textureSize)
  {
    if b == [] {
      assert a + b == a;
    } else {
      var n := |b| - 1;
      var o := b[n];
      var last := if o == null then [] else ObjectEntries(o.typeName, o.fields, textureSize);
      calc {
        Collected(a + b, textureSize);
        { CollectedLast(a + b, textureSize);
          assert (a + b)[..|a + b| - 1] == a + b[..n]; }
        Collected(a + b[..n], textureSize) + last;
        { CollectedAppend(a, b[..n], textureSize); }
        Collected(a, textureSize) + Collected(b[..n], textureSize) + last;
        { CollectedLast(b, textureSize); }
        Collected(a, textureSize) + Collected(b, textureSize);
      }
    }
  }

  lemma ObjectEntriesLast(typeName: string, fields: seq<FieldInfo>, textureSize: TextureSize)
    requires fields != []
    ensures ObjectEntries(typeName, fields, textureSize)
            == ObjectEntries(typeName, fields[..|fields| - 1], textureSize)
               + FieldEntries(typeName, fields[|fields| - 1], textureSize)
  {
  }

  lemma CollectedLast(objects: seq<HostObject?>, textureSize: TextureSize)
    requires objects != []
    ensures var o := objects[|objects| - 1];
            Collected(objects, textureSize)
            == Collected(objects[..|objects| - 1], textureSize)
               + (if o == null then [] else ObjectEntries(o.typeName, o.fields, textureSize))
  {
  }

  /** A null object contributes no entries, wherever it stands. */
  lemma NullObjectSkipped(a: seq<HostObject?>, b: seq<HostObject?>, textureSize: TextureSize)
    ensures Collected(a + [null] + b, textureSize) == Collected(a + b, textureSize)
  {
    assert Collected([null], textureSize) == [] by {
      CollectedLast([null], textureSize);
      assert [null][..0] == [];
    }
    calc {
      Collected(a + [null] + b, textureSize);
      { CollectedAppend(a + [null], b, textureSize); }
      Collected(a + [null], textureSize) + Collected(b, textureSize);
      { CollectedAppend(a, [null], textureSize); }
      Collected(a, textureSize) + Collected(b, textureSize);
      { CollectedAppend(a, b, textureSize); }
      Collected(a + b, textureSize);
    }
  }

  /** A reported field's entry is among its object's entries. */
  lemma {:induction false} FieldEntryInObject(typeName: string, fields: seq<FieldInfo>, j: nat, textureSize: TextureSize)
    requires j < |fields| && Reported(fields[j])
    ensures FieldEntries(typeName, fields[j], textureSize)[0] in ObjectEntries(typeName, fields, textureSize)
  {
    var n := |fields| - 1;
    if j < n {
      FieldEntryInObject(typeName, fields[..n], j, textureSize);
      assert fields[..n][j] == fields[j];
    }
  }

  /** An object's entries are among the entries collected from any list holding it. */
  lemma {:induction false} ObjectInCollected(objects: seq<HostObject?>, i: nat, e: Entry, textureSize: TextureSize)
    requires i < |objects| && objects[i] != null
    requires e in ObjectEntries(objects[i].typeName, objects[i].fields, textureSize)
    ensures e in Collected(objects, textureSize)
  {
    var n := |objects| - 1;
    var o := objects[n];
    var front := Collected(objects[..n], textureSize);
    var last := if o == null then [] else ObjectEntries(o.typeName, o.fields, textureSize);
    CollectedLast(objects, textureSize);
    assert Collected(objects, textureSize) == front + last;
    if i < n {
      assert objects[..n][i] == objects[i];
      ObjectInCollected(objects[..n], i, e, textureSize);
      assert e in front;
    } else {
      assert e in last;
    }
  }

  /** Every reported field of every non-null object yields its entry in the
      collection: a buffer field is labelled `Type.field` and sized stride times
      count, a texture field is labelled `Type.field (FieldType)` and sized by the
      editor's texture estimate. */
  lemma FieldIsCollected(objects: seq<HostObject?>, i: nat, j: nat, textureSize: TextureSize)
    requires i < |objects| && objects[i] != null && j < |objects[i].fields|
    requires Reported(objects[i].fields[j])
    ensures var o := objects[i];
            var f := o.fields[j];
            match f.value
            case TextureValue(t) => Entry(o.typeName + "." + f.name + " (" + f.fieldType.fullName + ")", textureSize(t)) in Collected(objects, textureSize)
            case GraphicsBufferValue(stride, contents) => Entry(o.typeName + "." + f.name, BufferByteSize(stride, |contents|)) in Collected(objects, textureSize)
            case ComputeBufferValue(stride, contents) => Entry(o.typeName + "." + f.name, BufferByteSize(stride, |contents|)) in Collected(objects, textureSize)
            case _ => false
  {
    var o := objects[i];
    FieldEntryInObject(o.typeName, o.fields, j, textureSize);
    ObjectInCollected(objects, i, FieldEntries(o.typeName, o.fields[j], textureSize)[0], textureSize);
  }

  /** The number of fields that yield an entry. */
  function ReportedCount(fields: seq<FieldInfo>): nat {
    if fields == [] then 0
    else ReportedCount(fields[..|fields| - 1]) + (if Reported(fields[|fields| - 1]) then 1 else 0)
  }

  function ReportedObjectsCount(objects: seq<HostObject?>): nat {
    if objects == [] then 0
    else
      var o := objects[|objects| - 1];
      ReportedObjectsCount(objects[..|objects| - 1]) + (if o == null then 0 else ReportedCount(o.fields))
  }

  /** One entry per reported field of a non-null object, and no other. */
  lemma {:induction false} CollectedSize(objects: seq<HostObject?>, textureSize: TextureSize)
    ensures |Collected(objects, textureSize)| == ReportedObjectsCount(objects)
  {
    if objects != [] {
      var o := objects[|objects| - 1];
      CollectedSize(objects[..|objects| - 1], textureSize);
      if o != null {
        ObjectSize(o.typeName, o.fields, textureSize);
      }
    }
  }

  lemma {:induction false} ObjectSize(typeName: string, fields: seq<FieldInfo>, textureSize: TextureSize)
    ensures |ObjectEntries(typeName, fields, textureSize)| == ReportedCount(fields)
  {
    if fields != [] {
      ObjectSize(typeName, fields[..|fields| - 1], textureSize);
    }
  }

  /** The report has one row more than there are entries, and with non-negative
      sizes the Total row is at least every other row. */
  lemma TotalRowDominates(rows: seq<ReportRow>, entries: seq<Entry>, i: nat)
    requires IsReportOf(rows, entries) && AllNonNegative(entries)
    requires 1 <= i < |rows|
    ensures rows[i].bytes <= rows[0].bytes
  {
    var shown := EntriesOf(rows[1..]);
    assert shown[i - 1] == Entry(rows[i].name, rows[i].bytes);
    assert shown[i - 1] in multiset(entries);
    var k :| 0 <= k < |entries| && entries[k] == shown[i - 1];
    TotalCoversEntry(entries, k);
  }
}
