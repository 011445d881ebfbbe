/** The global list of objects registered for inspection
    (Runtime/GPUObjectDebugger.cs). Registration only takes effect in editor
    builds; elsewhere the calls compile to nothing. */
module GPUObjectDebugger {
  import opened Host

  /** A registered object and the name the window lists it under. Nothing in
      the core writes its fields after construction. */
  datatype GPUDebugObject = GPUDebugObject(name: string, obj: HostObject?)

  /** The one-argument construction: the entry is named after the object's type.
      (The host throws on a null object before constructing anything.) */
  function DebugObjectFor(obj: HostObject): (d: GPUDebugObject)
    ensures d.name == obj.typeName && d.obj == obj
  {
    GPUDebugObject(obj.typeName, obj)
  }

  /** The entries that do not refer to `obj`, in their original order: removal
      never grows the list and never brings in an entry it did not hold. */
  function Without(s: seq<GPUDebugObject>, obj: HostObject?): (r: seq<GPUDebugObject>)
    ensures |r| <= |s|
    ensures forall e | e in r :: e in s
  {
    if s == [] then []
    else
      var front := s[..|s| - 1];
      assert forall e | e in front :: e in s;
      Without(front, obj) + (if s[|s| - 1].obj == obj then [] else [s[|s| - 1]])
  }

  /** The registry behind the static tracked-object list. `unityEditor` is
      whether the build defines the editor symbol. */
  class Tracker {
    const unityEditor: bool
    var trackedObjects: seq<GPUDebugObject>

    /** Outside the editor the list is never written, so it stays empty. */
    ghost predicate Valid()
      reads this
    {
      !unityEditor ==> trackedObjects == []
    }

    constructor (unityEditor: bool)
      ensures Valid()
      ensures this.unityEditor == unityEditor && trackedObjects == []
    {
      this.unityEditor := unityEditor;
      trackedObjects := [];
    }

    /** The read-only view the window lists. */
    function TrackedObjectList(): seq<GPUDebugObject>
      reads this
    {
      trackedObjects
    }

    /** Registers `obj` under its type name, without checking for duplicates.
        A null object makes the host throw before anything is added. */
    method StartTracking(obj: HostObject?) returns (outcome: Outcome)
      requires Valid()
      modifies this
      ensures Valid()
      ensures outcome.Threw? <==> unityEditor && obj == null
      ensures outcome.Threw? ==> outcome.exception == NullReferenceException
      ensures trackedObjects ==
                if unityEditor && obj != null then old(trackedObjects) + [DebugObjectFor(obj)]
                else old(trackedObjects)
    {
      outcome := Completed;
      if unityEditor {
        if obj == null {
          return Threw(NullReferenceException);
        }
        trackedObjects := trackedObjects + [DebugObjectFor(obj)];
      }
    }

    /** Registers `obj` (possibly null) under the given name, without checking
        for duplicates. */
    method StartTrackingAs(obj: HostObject?, name: string)
      requires Valid()
      modifies this
      ensures Valid()
      ensures trackedObjects ==
                if unityEditor then old(trackedObjects) + [GPUDebugObject(name, obj)]
                else old(trackedObjects)
    {
      if unityEditor {
        trackedObjects := trackedObjects + [GPUDebugObject(name, obj)];
      }
    }

    /** Removes every entry whose object is `obj` (by reference). */
    method StopTracking(obj: HostObject?)
      requires Valid()
      modifies this
      ensures Valid()
      ensures trackedObjects ==
                if unityEditor then Without(old(trackedObjects), obj) else old(trackedObjects)
    {
      if unityEditor {
        trackedObjects := Without(trackedObjects, obj);
      }
    }
  }

  // ---------------------------------------------------------------------------
  // Properties of removal

  /** After removal no entry refers to the object. */
  lemma {:induction false} WithoutRemovesAll(s: seq<GPUDebugObject>, obj: HostObject?)
    ensures forall e | e in Without(s, obj) :: e.obj != obj
  {
    if s != [] {
      WithoutRemovesAll(s[..|s| - 1], obj);
    }
  }

  /** Removal keeps every entry that refers to another object, as often as it
      occurred. */
  lemma {:induction false} WithoutKeepsOthers(s: seq<GPUDebugObject>, obj: HostObject?, e: GPUDebugObject)
    requires e.obj != obj
    ensures multiset(Without(s, obj))[e] == multiset(s)[e]
  {
    if s != [] {
      var n := |s| - 1;
      var front, x := s[..n], s[n];
      WithoutKeepsOthers(front, obj, e);
      assert s == front + [x];
      CountAppend(front, [x], e);
      if x.obj == obj {
        assert Without(s, obj) == Without(front, obj);
        assert x != e;
      } else {
        assert Without(s, obj) == Without(front, obj) + [x];
        CountAppend(Without(front, obj), [x], e);
      }
    }
  }

  lemma CountAppend(a: seq<GPUDebugObject>, b: seq<GPUDebugObject>, e: GPUDebugObject)
    ensures multiset(a + b)[e] == multiset(a)[e] + multiset(b)[e]
  {
  }

  /** Removal works entry by entry and keeps the relative order: removing from
      a concatenation is concatenating the removals. */
  lemma {:induction false} WithoutAppend(a: seq<GPUDebugObject>, b: seq<GPUDebugObject>, obj: HostObject?)
    ensures Without(a + b, obj) == Without(a, obj) + Without(b, obj)
  {
    if b == [] {
      assert a + b == a;
    } else {
      var n := |b| - 1;
      assert (a + b)[..|a + b| - 1] == a + b[..n];
      WithoutAppend(a, b[..n], obj);
    }
  }

  /** Removing a second time changes nothing. */
  lemma {:induction false} WithoutIdempotent(s: seq<GPUDebugObject>, obj: HostObject?)
    ensures Without(Without(s, obj), obj) == Without(s, obj)
  {
    if s != [] {
      var n := |s| - 1;
      var last := if s[n].obj == obj then [] else [s[n]];
      WithoutIdempotent(s[..n], obj);
      WithoutAppend(Without(s[..n], obj), last, obj);
      assert Without(last, obj) == last by {
        if last != [] {
          assert last[..0] == [];
        }
      }
    }
  }

  /** Removing an object that no entry refers to changes nothing. */
  lemma {:induction false} WithoutAbsent(s: seq<GPUDebugObject>, obj: HostObject?)
    requires forall i | 0 <= i < |s| :: s[i].obj != obj
    ensures Without(s, obj) == s
  {
    if s != [] {
      var n := |s| - 1;
      WithoutAbsent(s[..n], obj);
      assert s == s[..n] + [s[n]];
    }
  }

  /** Registering the same object twice in the editor lists it twice; stopping
      once removes both entries. */
  method TrackTwiceThenStop(t: Tracker, obj: HostObject)
    requires t.Valid() && t.unityEditor
    modifies t
    ensures t.trackedObjects == Without(old(t.trackedObjects), obj)
  {
    ghost var start := t.trackedObjects;
    var _ := t.StartTracking(obj);
    var _ := t.StartTracking(obj);
    assert t.trackedObjects == start + [DebugObjectFor(obj), DebugObjectFor(obj)];
    t.StopTracking(obj);
    WithoutAppend(start, [DebugObjectFor(obj), DebugObjectFor(obj)], obj);
    assert Without([DebugObjectFor(obj), DebugObjectFor(obj)], obj) == [] by {
      assert [DebugObjectFor(obj), DebugObjectFor(obj)][..1] == [DebugObjectFor(obj)];
      assert [DebugObjectFor(obj)][..0] == [];
    }
  }
}
