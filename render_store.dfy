/** The store that lets the UI side and the web-worker side name the same
    render views and fragments by integer handles. */
module RenderStore {
  import opened Wrappers
  import opened MapUpdates
  import opened RenderApi

  /** A number on the wire, or null. */
  type Handle = Option<int>

  /** The wire form of a group: a plain record of handles. */
  datatype SerializedViewWithFragments = SerializedViewWithFragments(viewRef: Handle, fragmentRefs: seq<Handle>)
  {
    /** The view handle followed by the fragment handles. */
    function Handles(): seq<Handle>
    {
      [viewRef] + fragmentRefs
    }
  }

  /** A view reference on the worker side: it carries nothing but its handle. */
  class WorkerRenderViewRef {
    const refNumber: Handle

    constructor (refNumber: Handle)
      ensures this.refNumber == refNumber
    {
      this.refNumber := refNumber;
    }

    /** `serialize()`: the number this reference was built with. */
    function Serialize(): (r: Handle)
      ensures r == refNumber
    {
      refNumber
    }

    static method Deserialize(ref: Handle) returns (r: WorkerRenderViewRef)
      ensures fresh(r)
      ensures r.Serialize() == ref
    {
      r := new WorkerRenderViewRef(ref);
    }
  }

  /** A fragment reference on the worker side: it carries nothing but its handle. */
  class WorkerRenderFragmentRef {
    const refNumber: Handle

    constructor (refNumber: Handle)
      ensures this.refNumber == refNumber
    {
      this.refNumber := refNumber;
    }

    /** `serialize()`: the number this reference was built with. */
    function Serialize(): (r: Handle)
      ensures r == refNumber
    {
      refNumber
    }

    static method Deserialize(ref: Handle) returns (r: WorkerRenderFragmentRef)
      ensures fresh(r)
      ensures r.Serialize() == ref
    {
      r := new WorkerRenderFragmentRef(ref);
    }
  }

  /** A reference that has a `serialize` method: one of the two worker kinds. */
  predicate IsWorkerRef(o: object?)
  {
    o is WorkerRenderViewRef || o is WorkerRenderFragmentRef
  }

  /** `ref.serialize()` on a worker reference of either kind. */
  function SerializeWorkerRef(o: object?): Handle
    requires IsWorkerRef(o)
  {
    if o is WorkerRenderViewRef then (o as WorkerRenderViewRef).Serialize()
    else (o as WorkerRenderFragmentRef).Serialize()
  }

  /** Every reference of the group is a worker reference (none is null). */
  predicate AllWorkerRefs(view: RenderViewWithFragments)
  {
    forall o | o in view.Refs() :: IsWorkerRef(o)
  }

  /** Worker side of `serializeViewWithFragments`: each reference describes itself. */
  function WorkerWire(view: RenderViewWithFragments): SerializedViewWithFragments
    requires AllWorkerRefs(view)
  {
    SerializedViewWithFragments(
      SerializeWorkerRef(view.viewRef),
      seq(|view.fragmentRefs|, i requires 0 <= i < |view.fragmentRefs| => SerializeWorkerRef(view.fragmentRefs[i])))
  }

  /** UI side of `serializeViewWithFragments`: a `Map.get` per reference, null included. */
  function RegistryWire(byView: map<object?, int>, view: RenderViewWithFragments): SerializedViewWithFragments
  {
    SerializedViewWithFragments(
      Get(byView, view.viewRef),
      seq(|view.fragmentRefs|, i requires 0 <= i < |view.fragmentRefs| => Get(byView, view.fragmentRefs[i])))
  }

  /** `retreive`: null stays null; otherwise the entry, or null when there is none. */
  function Lookup(byIndex: map<int, object?>, ref: Handle): object?
  {
    match ref
    case None => null
    case Some(h) => if h in byIndex then byIndex[h] else null
  }

  /** The wire form of a group stored, or allocated, at `start`: the view at
      `start`, fragment i at `start + 1 + i`. */
  function BlockWire(start: int, fragmentCount: nat): SerializedViewWithFragments
  {
    SerializedViewWithFragments(Some(start), seq(fragmentCount, i => Some(start + 1 + i)))
  }

  /** Each reference of `view` is registered at its position in the block
      starting at `start`, in both directions. */
  ghost predicate StoredIn(byIndex: map<int, object?>, byView: map<object?, int>,
                           view: RenderViewWithFragments, start: int)
  {
    forall i | 0 <= i < |view.Refs()| ::
      Get(byIndex, start + i) == Some(view.Refs()[i]) && Get(byView, view.Refs()[i]) == Some(start + i)
  }

  /** The two maps are exact inverses of one another. */
  ghost predicate Inverse(byIndex: map<int, object?>, byView: map<object?, int>)
  {
    && (forall h | h in byIndex :: Get(byView, byIndex[h]) == Some(h))
    && (forall r | r in byView :: Get(byIndex, byView[r]) == Some(r))
  }

  /** One `store` of `view` at `start` adds exactly the handles of its block
      and its references as keys, and removes none. */
  lemma StoreKeys(byIndex: map<int, object?>, byView: map<object?, int>,
                  view: RenderViewWithFragments, start: int)
    ensures SetAll(byIndex, Block(start, |view.Refs()|), view.Refs()).Keys
            == byIndex.Keys + set h | h in Block(start, |view.Refs()|)
    ensures SetAll(byView, view.Refs(), Block(start, |view.Refs()|)).Keys
            == byView.Keys + set r | r in view.Refs()
  {
    var handles := Block(start, |view.Refs()|);
    SetAllKeys(byIndex, handles, view.Refs());
    SetAllKeys(byView, view.Refs(), handles);
  }

  /** One `store` of `view` at `start` leaves every handle outside its block
      and every reference not in the group as it was. */
  lemma StoreLeavesOthers(byIndex: map<int, object?>, byView: map<object?, int>,
                          view: RenderViewWithFragments, start: int)
    ensures forall h | !(start <= h < start + |view.Refs()|) ::
      Get(SetAll(byIndex, Block(start, |view.Refs()|), view.Refs()), h) == Get(byIndex, h)
    ensures forall r | r !in view.Refs() ::
      Get(SetAll(byView, view.Refs(), Block(start, |view.Refs()|)), r) == Get(byView, r)
  {
    var refs := view.Refs();
    var handles := Block(start, |refs|);
    forall h | !(start <= h < start + |refs|)
      ensures Get(SetAll(byIndex, handles, refs), h) == Get(byIndex, h)
    {
      SetAllOutside(byIndex, handles, refs, h);
    }
    forall r | r !in refs
      ensures Get(SetAll(byView, refs, handles), r) == Get(byView, r)
    {
      SetAllOutside(byView, refs, handles, r);
    }
  }

  /** One `store` of any group leaves each reference at its handle in
      `lookupByIndex`: the handles of a block never repeat, so no write to
      that map is overwritten, even when a reference occurs twice. */
  lemma StoreRegistersByIndex(byIndex: map<int, object?>, view: RenderViewWithFragments, start: int)
    ensures forall i | 0 <= i < |view.Refs()| ::
      Get(SetAll(byIndex, Block(start, |view.Refs()|), view.Refs()), start + i) == Some(view.Refs()[i])
  {
    var refs := view.Refs();
    var handles := Block(start, |refs|);
    assert Distinct(handles);
    forall i | 0 <= i < |refs|
      ensures Get(SetAll(byIndex, handles, refs), start + i) == Some(refs[i])
    {
      SetAllAt(byIndex, handles, refs, i);
    }
  }

  /** One `store` of pairwise distinct references registers each of them at
      its position in the block, in both directions; only `lookupByView`
      needs the references to be distinct, since there a later write to the
      same reference wins. */
  lemma StoreRegisters(byIndex: map<int, object?>, byView: map<object?, int>,
                       view: RenderViewWithFragments, start: int)
    requires Distinct(view.Refs())
    ensures StoredIn(SetAll(byIndex, Block(start, |view.Refs()|), view.Refs()),
                     SetAll(byView, view.Refs(), Block(start, |view.Refs()|)), view, start)
  {
    var refs := view.Refs();
    var handles := Block(start, |refs|);
    StoreRegistersByIndex(byIndex, view, start);
    forall i | 0 <= i < |refs|
      ensures Get(SetAll(byView, refs, handles), refs[i]) == Some(start + i)
    {
      SetAllAt(byView, refs, handles, i);
    }
  }

  /** Everything one `store` of `view` at `start` promises about the maps
      it leaves behind, gathered for the method `Store`. */
  lemma StoreSummary(byIndex: map<int, object?>, byView: map<object?, int>,
                     view: RenderViewWithFragments, start: int)
    ensures var newByIndex := SetAll(byIndex, Block(start, |view.Refs()|), view.Refs());
      var newByView := SetAll(byView, view.Refs(), Block(start, |view.Refs()|));
      && (forall h | !(start <= h < start + |view.Refs()|) :: Get(newByIndex, h) == Get(byIndex, h))
      && (forall r | r !in view.Refs() :: Get(newByView, r) == Get(byView, r))
      && byIndex.Keys <= newByIndex.Keys && byView.Keys <= newByView.Keys
      && (forall i | 0 <= i < |view.Refs()| :: Get(newByIndex, start + i) == Some(view.Refs()[i]))
      && (Distinct(view.Refs()) ==> StoredIn(newByIndex, newByView, view, start))
      && (&& Inverse(byIndex, byView) && Distinct(view.Refs())
          && (forall i | 0 <= i < |view.Refs()| :: start + i !in byIndex && view.Refs()[i] !in byView)
          ==> Inverse(newByIndex, newByView))
  {
    StoreKeys(byIndex, byView, view, start);
    StoreLeavesOthers(byIndex, byView, view, start);
    StoreRegistersByIndex(byIndex, view, start);
    if Distinct(view.Refs()) {
      StoreRegisters(byIndex, byView, view, start);
    }
    if && Inverse(byIndex, byView) && Distinct(view.Refs())
       && (forall i | 0 <= i < |view.Refs()| :: start + i !in byIndex && view.Refs()[i] !in byView)
    {
      StorePreservesInverse(byIndex, byView, view, start);
    }
  }

  class RenderViewWithFragmentsStore {
    var nextIndex: nat
    const onWebWorker: bool
    var lookupByIndex: map<int, object?>
    var lookupByView: map<object?, int>

    /** On the worker the source never creates the two maps. This invariant
        records that by keeping them empty; no operation reads them there. */
    ghost predicate Valid()
      reads this
    {
      onWebWorker ==> lookupByIndex == map[] && lookupByView == map[]
    }

    /** Each reference of `view` is registered at its position from `start`. */
    ghost predicate Stored(view: RenderViewWithFragments, start: int)
      reads this
    {
      StoredIn(lookupByIndex, lookupByView, view, start)
    }

    ghost predicate Bijective()
      reads this
    {
      Inverse(lookupByIndex, lookupByView)
    }

    constructor (onWebWorker: bool)
      ensures Valid()
      ensures this.onWebWorker == onWebWorker && nextIndex == 0
      ensures lookupByIndex == map[] && lookupByView == map[]
    {
      this.onWebWorker := onWebWorker;
      nextIndex := 0;
      lookupByIndex := map[];
      lookupByView := map[];
    }

    /** Mints `fragmentCount + 1` handles: the lowest for the view, the
        rest, ascending, for the fragments in order. */
    method Allocate(fragmentCount: nat) returns (view: RenderViewWithFragments)
      requires Valid()
      modifies this`nextIndex
      ensures Valid()
      ensures nextIndex == old(nextIndex) + fragmentCount + 1
      ensures lookupByIndex == old(lookupByIndex) && lookupByView == old(lookupByView)
      ensures |view.fragmentRefs| == fragmentCount
      ensures view.viewRef is WorkerRenderViewRef && fresh(view.viewRef)
      ensures forall i | 0 <= i < fragmentCount ::
        view.fragmentRefs[i] is WorkerRenderFragmentRef && fresh(view.fragmentRefs[i])
      ensures AllWorkerRefs(view) && WorkerWire(view) == BlockWire(old(nextIndex), fragmentCount)
      ensures Distinct(view.Refs())
    {
      var viewRef := new WorkerRenderViewRef(Some(nextIndex));
      nextIndex := nextIndex + 1;
      var fragmentRefs: array<object?> := new object?[fragmentCount];
      for i := 0 to fragmentCount
        invariant nextIndex == old(nextIndex) + 1 + i
        invariant forall j | 0 <= j < i ::
          && fragmentRefs[j] is WorkerRenderFragmentRef && fresh(fragmentRefs[j])
          && SerializeWorkerRef(fragmentRefs[j]) == Some(old(nextIndex) + 1 + j)
        invariant forall j | 0 <= j < i :: fragmentRefs[j] != viewRef
        invariant forall j, k | 0 <= j < k < i :: fragmentRefs[j] != fragmentRefs[k]
      {
        fragmentRefs[i] := new WorkerRenderFragmentRef(Some(nextIndex));
        nextIndex := nextIndex + 1;
      }
      view := RenderViewWithFragments(viewRef, fragmentRefs[..]);
      assert view.Refs()[0] == viewRef;
      assert forall i | 1 <= i < |view.Refs()| :: view.Refs()[i] == fragmentRefs[i - 1];
    }

    /** Registers the view at `startIndex` and fragment i at
        `startIndex + 1 + i`, in both maps; a later write to the same key wins. */
    method Store(view: RenderViewWithFragments, startIndex: int)
      requires !onWebWorker
      modifies this`lookupByIndex, this`lookupByView
      ensures Valid()
      ensures nextIndex == old(nextIndex)
      ensures lookupByIndex == SetAll(old(lookupByIndex), Block(startIndex, |view.Refs()|), view.Refs())
      ensures lookupByView == SetAll(old(lookupByView), view.Refs(), Block(startIndex, |view.Refs()|))
      ensures forall h | !(startIndex <= h < startIndex + |view.Refs()|) ::
        Get(lookupByIndex, h) == Get(old(lookupByIndex), h)
      ensures forall r | r !in view.Refs() :: Get(lookupByView, r) == Get(old(lookupByView), r)
      ensures old(lookupByIndex).Keys <= lookupByIndex.Keys && old(lookupByView).Keys <= lookupByView.Keys
      ensures forall i | 0 <= i < |view.Refs()| :: Get(lookupByIndex, startIndex + i) == Some(view.Refs()[i])
      ensures Distinct(view.Refs()) ==> Stored(view, startIndex)
      ensures && old(Bijective()) && Distinct(view.Refs())
              && (forall i | 0 <= i < |view.Refs()| ::
                    startIndex + i !in old(lookupByIndex) && view.Refs()[i] !in old(lookupByView))
              ==> Bijective()
    {
      var refs := view.Refs();
      ghost var handles := Block(startIndex, |refs|);
      lookupByIndex := lookupByIndex[startIndex := view.viewRef];
      lookupByView := lookupByView[view.viewRef := startIndex];
      var index := startIndex + 1;
      for i := 0 to |view.fragmentRefs|
        invariant index == startIndex + 1 + i
        invariant lookupByIndex == SetAll(old(lookupByIndex), handles[..i + 1], refs[..i + 1])
        invariant lookupByView == SetAll(old(lookupByView), refs[..i + 1], handles[..i + 1])
      {
        var ref := view.fragmentRefs[i];
        assert refs[i + 1] == ref;
        assert handles[..i + 2][..i + 1] == handles[..i + 1] && handles[i + 1] == index;
        assert refs[..i + 2][..i + 1] == refs[..i + 1] && refs[i + 1] == ref;
        lookupByIndex := lookupByIndex[index := ref];
        lookupByView := lookupByView[ref := index];
        index := index + 1;
      }
      assert handles[..|refs|] == handles && refs[..|refs|] == refs;
      StoreSummary(old(lookupByIndex), old(lookupByView), view, startIndex);
    }

    /** `retreive`: the reference registered under `ref`. */
    function Retrieve(ref: Handle): (r: object?)
      reads this
      requires ref.Some? ==> !onWebWorker
      ensures ref.None? ==> r == null
      ensures ref.Some? ==> (ref.value in lookupByIndex ==> r == lookupByIndex[ref.value])
      ensures ref.Some? ==> (ref.value !in lookupByIndex ==> r == null)
    {
      Lookup(lookupByIndex, ref)
    }

    /** `_serializeRenderFragmentOrViewRef`: null stays null; a worker
        reference gives its own number; on the UI side the registered handle. */
    function SerializeRenderFragmentOrViewRef(ref: object?): (r: Handle)
      reads this
      requires onWebWorker && ref != null ==> IsWorkerRef(ref)
      ensures ref == null ==> r == None
      ensures ref != null && onWebWorker ==> r == SerializeWorkerRef(ref)
      ensures ref != null && !onWebWorker ==> (r.Some? <==> ref in lookupByView)
      ensures ref != null && !onWebWorker && r.Some? ==> lookupByView[ref] == r.value
    {
      if ref == null then None
      else if onWebWorker then SerializeWorkerRef(ref)
      else Get(lookupByView, ref)
    }

    /** `serializeRenderViewRef`: the shared single-reference serializer. */
    function SerializeRenderViewRef(viewRef: object?): (r: Handle)
      reads this
      requires onWebWorker && viewRef != null ==> IsWorkerRef(viewRef)
      ensures viewRef == null ==> r == None
      ensures r == SerializeRenderFragmentOrViewRef(viewRef)
    {
      SerializeRenderFragmentOrViewRef(viewRef)
    }

    /** `serializeRenderFragmentRef`: the shared single-reference serializer. */
    function SerializeRenderFragmentRef(fragmentRef: object?): (r: Handle)
      reads this
      requires onWebWorker && fragmentRef != null ==> IsWorkerRef(fragmentRef)
      ensures fragmentRef == null ==> r == None
      ensures r == SerializeRenderFragmentOrViewRef(fragmentRef)
    {
      SerializeRenderFragmentOrViewRef(fragmentRef)
    }

    /** `deserializeRenderViewRef`: on the worker a new self-describing
        reference, on the UI side the registered one. */
    method DeserializeRenderViewRef(ref: Handle) returns (r: object?)
      ensures ref.None? ==> r == null
      ensures !onWebWorker ==> r == Retrieve(ref)
      ensures onWebWorker && ref.Some? ==>
        r is WorkerRenderViewRef && fresh(r) && SerializeRenderViewRef(r) == ref
    {
      if ref.None? {
        return null;
      }
      if onWebWorker {
        r := WorkerRenderViewRef.Deserialize(ref);
      } else {
        r := Retrieve(ref);
      }
    }

    /** `deserializeRenderFragmentRef`: as `DeserializeRenderViewRef`, for fragments. */
    method DeserializeRenderFragmentRef(ref: Handle) returns (r: object?)
      ensures ref.None? ==> r == null
      ensures !onWebWorker ==> r == Retrieve(ref)
      ensures onWebWorker && ref.Some? ==>
        r is WorkerRenderFragmentRef && fresh(r) && SerializeRenderFragmentRef(r) == ref
    {
      if ref.None? {
        return null;
      }
      if onWebWorker {
        r := WorkerRenderFragmentRef.Deserialize(ref);
      } else {
        r := Retrieve(ref);
      }
    }

    /** `serializeViewWithFragments`: null stays null; otherwise the handle of
        each reference, in order. */
    function SerializeViewWithFragments(view: Option<RenderViewWithFragments>): (r: Option<SerializedViewWithFragments>)
      reads this
      requires onWebWorker && view.Some? ==> AllWorkerRefs(view.value)
      ensures r.Some? <==> view.Some?
      ensures view.Some? ==> |r.value.fragmentRefs| == |view.value.fragmentRefs|
      ensures view.Some? ==> forall i | 0 <= i < |view.value.Refs()| && view.value.Refs()[i] != null ::
        r.value.Handles()[i] == SerializeRenderFragmentOrViewRef(view.value.Refs()[i])
      ensures view.Some? && !onWebWorker ==>
        forall i | 0 <= i < |view.value.Refs()| :: r.value.Handles()[i] == Get(lookupByView, view.value.Refs()[i])
    {
      match view
      case None => None
      case Some(v) => Some(if onWebWorker then WorkerWire(v) else RegistryWire(lookupByView, v))
    }

    /** UI side of `deserializeViewWithFragments`: null stays null; otherwise
        each handle is looked up with `retreive`, in order. */
    function RetrieveViewWithFragments(obj: Option<SerializedViewWithFragments>): (r: Option<RenderViewWithFragments>)
      reads this
      requires !onWebWorker
      ensures r.Some? <==> obj.Some?
      ensures obj.Some? ==> |r.value.fragmentRefs| == |obj.value.fragmentRefs|
      ensures obj.Some? ==> forall i | 0 <= i < |obj.value.Handles()| ::
        r.value.Refs()[i] == Retrieve(obj.value.Handles()[i])
    {
      match obj
      case None => None
      case Some(w) =>
        var byIndex := lookupByIndex;
        var fragments := seq(|w.fragmentRefs|, i requires 0 <= i < |w.fragmentRefs| => Lookup(byIndex, w.fragmentRefs[i]));
        var group := RenderViewWithFragments(Lookup(byIndex, w.viewRef), fragments);
        assert forall i | 1 <= i < |w.Handles()| :: group.Refs()[i] == fragments[i - 1] && w.Handles()[i] == w.fragmentRefs[i - 1];
        Some(group)
    }

    /** `deserializeViewWithFragments`: on the worker, new self-describing
        references that serialize back to exactly `obj`; on the UI side,
        `RetrieveViewWithFragments`. */
    method DeserializeViewWithFragments(obj: Option<SerializedViewWithFragments>) returns (r: Option<RenderViewWithFragments>)
      ensures obj.None? ==> r.None?
      ensures !onWebWorker ==> r == RetrieveViewWithFragments(obj)
      ensures onWebWorker && obj.Some? ==>
        && r.Some? && r.value.viewRef is WorkerRenderViewRef && fresh(r.value.viewRef)
        && |r.value.fragmentRefs| == |obj.value.fragmentRefs|
        && (forall i | 0 <= i < |r.value.fragmentRefs| ::
              r.value.fragmentRefs[i] is WorkerRenderFragmentRef && fresh(r.value.fragmentRefs[i]))
        && AllWorkerRefs(r.value)
        && SerializeViewWithFragments(r) == obj
    {
      if obj.None? {
        return None;
      }
      if !onWebWorker {
        return RetrieveViewWithFragments(obj);
      }
      var w := obj.value;
      var viewRef := WorkerRenderViewRef.Deserialize(w.viewRef);
      var fragments: seq<object?> := [];
      for i := 0 to |w.fragmentRefs|
        invariant |fragments| == i
        invariant forall j | 0 <= j < i ::
          && fragments[j] is WorkerRenderFragmentRef && fresh(fragments[j])
          && SerializeWorkerRef(fragments[j]) == w.fragmentRefs[j]
      {
        var ref := WorkerRenderFragmentRef.Deserialize(w.fragmentRefs[i]);
        fragments := fragments + [ref];
      }
      var group := RenderViewWithFragments(viewRef, fragments);
      assert forall i | 1 <= i < |group.Refs()| :: group.Refs()[i] == fragments[i - 1];
      assert WorkerWire(group).fragmentRefs == w.fragmentRefs;
      r := Some(group);
    }
  }

  /** A store into a block of unused handles, of references not yet
      registered, keeps the two maps inverse to each other. */
  lemma StorePreservesInverse(byIndex: map<int, object?>, byView: map<object?, int>,
                              view: RenderViewWithFragments, start: int)
    requires Inverse(byIndex, byView)
    requires Distinct(view.Refs())
    requires forall i | 0 <= i < |view.Refs()| :: start + i !in byIndex && view.Refs()[i] !in byView
    ensures Inverse(SetAll(byIndex, Block(start, |view.Refs()|), view.Refs()),
                    SetAll(byView, view.Refs(), Block(start, |view.Refs()|)))
  {
    var refs := view.Refs();
    var n := |refs|;
    var handles := Block(start, n);
    var newByIndex := SetAll(byIndex, handles, refs);
    var newByView := SetAll(byView, refs, handles);
    StoreLeavesOthers(byIndex, byView, view, start);
    StoreRegisters(byIndex, byView, view, start);
    forall h | h in newByIndex
      ensures Get(newByView, newByIndex[h]) == Some(h)
    {
      if start <= h < start + n {
        assert Get(newByIndex, start + (h - start)) == Some(refs[h - start]);
      } else {
        assert Get(newByIndex, h) == Get(byIndex, h);
        var r := byIndex[h];
        assert r !in refs;
      }
    }
    forall r | r in newByView
      ensures Get(newByIndex, newByView[r]) == Some(r)
    {
      if r in refs {
        var i :| 0 <= i < n && refs[i] == r;
        assert Get(newByView, refs[i]) == Some(start + i);
      } else {
        assert Get(newByView, r) == Get(byView, r);
        var h := byView[r];
        assert h in byIndex;
        forall k | start <= k < start + n
          ensures k !in byIndex
        {
          var i := k - start;
          assert view.Refs()[i] !in byView;
        }
      }
    }
  }

  /** `store` offers no protection against a group stored twice:
      registering the same references again at another block leaves the
      first view handle pointing at a reference whose handle is now the
      second, so the maps are no longer inverse. */
  lemma StoreTwiceBreaksInverse(byIndex: map<int, object?>, byView: map<object?, int>,
                                view: RenderViewWithFragments, first: int, second: int)
    requires Distinct(view.Refs())
    requires !(second <= first < second + |view.Refs()|)
    ensures var handles1 := Block(first, |view.Refs()|);
      var handles2 := Block(second, |view.Refs()|);
      !Inverse(SetAll(SetAll(byIndex, handles1, view.Refs()), handles2, view.Refs()),
               SetAll(SetAll(byView, view.Refs(), handles1), view.Refs(), handles2))
  {
    var refs := view.Refs();
    var once := SetAll(byIndex, Block(first, |refs|), refs);
    var onceByView := SetAll(byView, refs, Block(first, |refs|));
    StoreRegisters(byIndex, byView, view, first);
    assert Get(once, first + 0) == Some(refs[0]);
    var twice := SetAll(once, Block(second, |refs|), refs);
    var twiceByView := SetAll(onceByView, refs, Block(second, |refs|));
    StoreLeavesOthers(once, onceByView, view, second);
    StoreRegisters(once, onceByView, view, second);
    assert Get(twice, first) == Some(refs[0]);
    assert Get(twiceByView, refs[0]) == Some(second + 0);
    assert first in twice && Get(twiceByView, twice[first]) != Some(first);
  }

  /** A later store into a disjoint block, of other references, leaves an
      earlier group registered where it was. */
  lemma StoredPreserved(byIndex: map<int, object?>, byView: map<object?, int>,
                        earlier: RenderViewWithFragments, earlierStart: int,
                        later: RenderViewWithFragments, laterStart: int)
    requires StoredIn(byIndex, byView, earlier, earlierStart)
    requires earlierStart + |earlier.Refs()| <= laterStart || laterStart + |later.Refs()| <= earlierStart
    requires forall r | r in earlier.Refs() :: r !in later.Refs()
    ensures StoredIn(SetAll(byIndex, Block(laterStart, |later.Refs()|), later.Refs()),
                     SetAll(byView, later.Refs(), Block(laterStart, |later.Refs()|)), earlier, earlierStart)
  {
    StoreLeavesOthers(byIndex, byView, later, laterStart);
    forall i | 0 <= i < |earlier.Refs()|
      ensures Get(SetAll(byIndex, Block(laterStart, |later.Refs()|), later.Refs()), earlierStart + i)
              == Some(earlier.Refs()[i])
      ensures Get(SetAll(byView, later.Refs(), Block(laterStart, |later.Refs()|)), earlier.Refs()[i])
              == Some(earlierStart + i)
    {
      assert earlier.Refs()[i] in earlier.Refs();
    }
  }

  /** On the UI side, a stored group serializes to the block of handles it
      was stored at: the view at `start`, fragment i at `start + 1 + i`. */
  lemma SerializeStored(st: RenderViewWithFragmentsStore, view: RenderViewWithFragments, start: int)
    requires !st.onWebWorker
    requires st.Stored(view, start)
    ensures st.SerializeViewWithFragments(Some(view)) == Some(BlockWire(start, |view.fragmentRefs|))
  {
    var w := RegistryWire(st.lookupByView, view);
    assert Get(st.lookupByView, view.Refs()[0]) == Some(start + 0);
    forall i | 0 <= i < |view.fragmentRefs|
      ensures w.fragmentRefs[i] == Some(start + 1 + i)
    {
      assert view.Refs()[i + 1] == view.fragmentRefs[i];
      assert Get(st.lookupByView, view.Refs()[i + 1]) == Some(start + (i + 1));
    }
    assert w.fragmentRefs == BlockWire(start, |view.fragmentRefs|).fragmentRefs;
  }

  /** On the UI side, deserializing the serialized form of a stored group
      yields the very same references, in the same order. */
  lemma HostRoundTrip(st: RenderViewWithFragmentsStore, view: RenderViewWithFragments, start: int)
    requires !st.onWebWorker
    requires st.Stored(view, start)
    ensures st.RetrieveViewWithFragments(st.SerializeViewWithFragments(Some(view))) == Some(view)
  {
    SerializeStored(st, view, start);
    var w := BlockWire(start, |view.fragmentRefs|);
    var r := st.RetrieveViewWithFragments(Some(w)).value;
    forall i | 0 <= i < |view.Refs()|
      ensures r.Refs()[i] == view.Refs()[i]
    {
      if i == 0 {
        assert w.Handles()[0] == Some(start + 0);
      } else {
        assert w.Handles()[i] == w.fragmentRefs[i - 1] == Some(start + i);
      }
      assert Get(st.lookupByIndex, start + i) == Some(view.Refs()[i]);
    }
    assert r.Refs() == view.Refs();
    assert r.viewRef == r.Refs()[0] && r.fragmentRefs == r.Refs()[1..];
    assert view.viewRef == view.Refs()[0] && view.fragmentRefs == view.Refs()[1..];
  }

  /** On the UI side, a stored non-null reference and its handle map to each
      other through the single-reference operations. */
  lemma StoredRefRoundTrip(st: RenderViewWithFragmentsStore, view: RenderViewWithFragments, start: int, i: nat)
    requires !st.onWebWorker
    requires st.Stored(view, start)
    requires i < |view.Refs()| && view.Refs()[i] != null
    ensures st.SerializeRenderFragmentOrViewRef(view.Refs()[i]) == Some(start + i)
    ensures st.Retrieve(Some(start + i)) == view.Refs()[i]
  {
  }

  /** The first handle of each of successive `allocate` calls with the given
      fragment counts, the counter reading `first` before the first call.
      Each step is `Allocate`'s contract: the view takes the counter's value
      and the counter then advances by the fragment count plus one. */
  function AllocationStarts(first: int, counts: seq<nat>): (starts: seq<int>)
    ensures |starts| == |counts|
    decreases |counts|
  {
    if counts == [] then [] else [first] + AllocationStarts(first + counts[0] + 1, counts[1..])
  }

  lemma {:induction false} AllocationStartsAtLeast(first: int, counts: seq<nat>, j: nat)
    requires j < |counts|
    ensures first <= AllocationStarts(first, counts)[j]
    decreases j
  {
    if j > 0 {
      AllocationStartsAtLeast(first + counts[0] + 1, counts[1..], j - 1);
    }
  }

  /** Successive allocations take strictly increasing, non-overlapping blocks:
      block i ends before block j starts whenever i < j. */
  lemma {:induction false} AllocationsDisjoint(first: int, counts: seq<nat>, i: nat, j: nat)
    requires i < j < |counts|
    ensures AllocationStarts(first, counts)[i] + counts[i] + 1 <= AllocationStarts(first, counts)[j]
    decreases i
  {
    var next := first + counts[0] + 1;
    if i == 0 {
      AllocationStartsAtLeast(next, counts[1..], j - 1);
    } else {
      AllocationsDisjoint(next, counts[1..], i - 1, j - 1);
    }
  }
}
