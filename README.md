# RenderViewWithFragmentsStore, modelled in Dafny

This project models the handle store of Angular 2's web-worker renderer
(`RenderViewWithFragmentsStore`). The store lets the UI context and the
web-worker context name the same render views and fragments by integer
handles, because live object references cannot cross the message channel.

Its parts, and how they are modelled:

- **Counter.** `Allocate` bumps `nextIndex` once for the view and once per
  fragment. It fills a fresh array with new `WorkerRenderFragmentRef`s, as
  the source does.
- **Two-way table.** On the UI side, `lookupByIndex` (handle to reference)
  and `lookupByView` (reference to handle) are `map` fields. `Store` updates
  them in place, in the order the source issues its `Map.set` calls.
  `SetAll` in `map_updates.dfy` is that sequence of writes, where a later
  write to the same key wins.
- **Codec.** Single-reference and group `serialize`/`deserialize`:
  - On the worker, each reference carries its own number (`refNumber`).
    Deserializing constructs new `WorkerRender*Ref` objects, so those
    operations are methods.
  - On the UI side, deserializing is a table lookup, so `Retrieve` and
    `RetrieveViewWithFragments` are functions of the store's state.
- **Mode flag.** `onWebWorker` is a `const` fixed by the constructor.

References are Dafny objects of type `object?`, so map keys compare by
identity and may be null, as with a JavaScript `Map`. A group is the
datatype `RenderViewWithFragments` (a view reference plus a `seq` of fragment
references). Its wire form is `SerializedViewWithFragments` (a nullable view
handle plus a `seq` of nullable handles). Nullable handles are `Option<int>`.

The main results:

- Allocation blocks are consecutive, ascending and never overlap
  (`Allocate`, `AllocationsDisjoint`).
- A store changes no handle outside its block and no reference outside its
  group. It always puts reference i at handle start+i in `lookupByIndex`.
  When the group's references are pairwise distinct, each of them also maps
  back to its handle in `lookupByView` (`Store`, `StoreSummary`). When a
  reference repeats, its later write wins in `lookupByView`.
- A store of pairwise-distinct references not yet registered, into unused
  handles, keeps the two maps inverse to each other
  (`StorePreservesInverse`). Storing the same group again at another block,
  one that does not contain the first view handle, breaks that
  (`StoreTwiceBreaksInverse`).
- Serializing a stored group on the UI side gives exactly its block of
  handles (`SerializeStored`). Deserializing that gives back the same
  objects (`HostRoundTrip`).
- On the worker, deserialize followed by serialize is the identity on every
  wire value, nulls included (`DeserializeViewWithFragments`,
  `DeserializeRenderViewRef`, `DeserializeRenderFragmentRef`).
- An allocated group serializes on the worker to the same block of handles
  that the UI side produces for the group stored there (`Allocate`
  together with `SerializeStored`). So a group that crosses the boundary
  keeps its handles.

Behaviour of the code that the model keeps as written:

- `allocate` does not check the mode.
- `store` does not check that the block is fresh or contiguous.
- On the worker, group deserialization does not propagate null element by
  element. A null handle becomes a worker reference whose `refNumber` is
  null.
- On the worker, group serialization calls `serialize()` on every element.
  It therefore needs non-null worker references, which is a `requires`.
- On the UI side, group serialization looks a null reference up in the map
  instead of short-circuiting it. That is visible only if a null reference
  was ever stored.
- `retreive` and the single-reference deserializers return null both for
  "handle was null" and for "handle never stored". The model keeps that
  conflation: both give `null`.

Files: `wrappers.dfy` (Option), `map_updates.dfy` (successive map writes),
`render_api.dfy` (the group datatype), `render_store.dfy` (the store, the
worker references, the codec and the lemmas).

## Model

| member | source | states |
|---|---|---|
| `RenderStore.RenderViewWithFragmentsStore.constructor` | modules/angular2/src/web-workers/shared/render_view_with_fragments_store.ts:8-19 | the mode is the argument, the counter starts at 0, both maps start empty, and in worker mode they stay empty (`Valid`) |
| `RenderStore.RenderViewWithFragmentsStore.Allocate` | modules/angular2/src/web-workers/shared/render_view_with_fragments_store.ts:21-29 | the view is a fresh worker view ref numbered with the old counter; exactly `fragmentCount` fresh worker fragment refs are numbered old+1 … old+n in order; all refs are distinct; the counter advances by n+1; the maps are untouched |
| `RenderStore.AllocationsDisjoint` | modules/angular2/src/web-workers/shared/render_view_with_fragments_store.ts:21-29 | over successive allocations, block i ends before block j starts for every i < j: the handle ranges are strictly increasing and non-overlapping |
| `RenderStore.RenderViewWithFragmentsStore.Store` | modules/angular2/src/web-workers/shared/render_view_with_fragments_store.ts:31-41 | UI side only. Both maps become the old maps after the writes view→start, fragment i→start+1+i, in that order. Handles outside the block and references outside the group keep their entries. No key is removed. `lookupByIndex[start+i]` is ref i for every group. With distinct refs the group is registered both ways. A bijective table stays bijective when the block's handles and the refs are unregistered and the refs are pairwise distinct. Counter and mode are unchanged |
| `MapUpdates.SetAllKeys` | modules/angular2/src/web-workers/shared/render_view_with_fragments_store.ts:31-41 | the writes add exactly the written keys |
| `MapUpdates.SetAllOutside` | modules/angular2/src/web-workers/shared/render_view_with_fragments_store.ts:31-41 | a key that is not written keeps its entry or its absence |
| `MapUpdates.SetAllAt` | modules/angular2/src/web-workers/shared/render_view_with_fragments_store.ts:31-41 | when no key is written twice, each key holds the value written with it |
| `RenderStore.StoreKeys` | modules/angular2/src/web-workers/shared/render_view_with_fragments_store.ts:31-41 | a store adds exactly the block's handles and the group's references as keys |
| `RenderStore.StoreLeavesOthers` | modules/angular2/src/web-workers/shared/render_view_with_fragments_store.ts:31-41 | a store leaves every handle outside [start, start+n] and every reference outside the group as it was |
| `RenderStore.StoreRegistersByIndex` | modules/angular2/src/web-workers/shared/render_view_with_fragments_store.ts:31-41 | for every group, repeated references included, `lookupByIndex[start+i]` is reference i after a store, because the handles of a block never repeat |
| `RenderStore.StoreRegisters` | modules/angular2/src/web-workers/shared/render_view_with_fragments_store.ts:31-41 | with pairwise distinct refs the group is registered both ways: `lookupByIndex[start+i]` is ref i (which `StoreRegistersByIndex` gives for every group) and `lookupByView[ref i]` is start+i |
| `RenderStore.StoreSummary` | modules/angular2/src/web-workers/shared/render_view_with_fragments_store.ts:31-41 | everything `Store` promises about the maps, stated on the old maps |
| `RenderStore.StorePreservesInverse` | modules/angular2/src/web-workers/shared/render_view_with_fragments_store.ts:31-41 | if the maps were inverse, and the block's handles and the refs are unregistered and distinct, they are inverse after the store |
| `RenderStore.StoreTwiceBreaksInverse` | modules/angular2/src/web-workers/shared/render_view_with_fragments_store.ts:31-41 | storing a group of pairwise-distinct refs again at a second block that does not contain the first view handle leaves the maps not inverse: store does not enforce the bijection |
| `RenderStore.StoredPreserved` | modules/angular2/src/web-workers/shared/render_view_with_fragments_store.ts:31-41 | a later store into a disjoint block, of other references, keeps an earlier group registered where it was |
| `RenderStore.RenderViewWithFragmentsStore.Retrieve` | modules/angular2/src/web-workers/shared/render_view_with_fragments_store.ts:43-48 | null gives null; otherwise exactly the `lookupByIndex` entry, or null when the handle was never stored |
| `RenderStore.RenderViewWithFragmentsStore.SerializeRenderFragmentOrViewRef` | modules/angular2/src/web-workers/shared/render_view_with_fragments_store.ts:82-92 | null gives null; on the worker a ref gives its own number; on the UI side the result is present exactly when the ref is registered, and is its handle |
| `RenderStore.RenderViewWithFragmentsStore.SerializeRenderViewRef` | modules/angular2/src/web-workers/shared/render_view_with_fragments_store.ts:50-52 | null gives null; otherwise it is the shared single-reference serializer `SerializeRenderFragmentOrViewRef` |
| `RenderStore.RenderViewWithFragmentsStore.SerializeRenderFragmentRef` | modules/angular2/src/web-workers/shared/render_view_with_fragments_store.ts:54-56 | null gives null; otherwise it is the shared single-reference serializer `SerializeRenderFragmentOrViewRef` |
| `RenderStore.StoredRefRoundTrip` | modules/angular2/src/web-workers/shared/render_view_with_fragments_store.ts:43-92 | on the UI side a stored non-null ref serializes to its handle and the handle retrieves the ref |
| `RenderStore.RenderViewWithFragmentsStore.DeserializeRenderViewRef` | modules/angular2/src/web-workers/shared/render_view_with_fragments_store.ts:58-68 | null gives null; UI side: `Retrieve`; worker: a fresh worker view ref that serializes back to the handle |
| `RenderStore.RenderViewWithFragmentsStore.DeserializeRenderFragmentRef` | modules/angular2/src/web-workers/shared/render_view_with_fragments_store.ts:70-80 | null gives null; UI side: `Retrieve`; worker: a fresh worker fragment ref that serializes back to the handle |
| `RenderStore.RenderViewWithFragmentsStore.SerializeViewWithFragments` | modules/angular2/src/web-workers/shared/render_view_with_fragments_store.ts:94-110 | null gives null. The fragment count is kept. Handle i comes from reference i by the single-reference serializer (for non-null refs). On the UI side handle i is exactly `lookupByView.get` of reference i, so a null ref gives whatever was stored under null, or null |
| `RenderStore.SerializeStored` | modules/angular2/src/web-workers/shared/render_view_with_fragments_store.ts:104-108 | on the UI side a group stored at `start` serializes to view `start` and fragments start+1 … start+n in order |
| `RenderStore.RenderViewWithFragmentsStore.RetrieveViewWithFragments` | modules/angular2/src/web-workers/shared/render_view_with_fragments_store.ts:125-130 | UI branch of group deserialization: the fragment count is kept and reference i is `Retrieve` of handle i; a null wire value gives null, as the check at lines 113-115 does |
| `RenderStore.RenderViewWithFragmentsStore.DeserializeViewWithFragments` | modules/angular2/src/web-workers/shared/render_view_with_fragments_store.ts:112-131 | null gives null. UI side: `RetrieveViewWithFragments`. Worker: fresh worker refs of the right kinds, one per handle, in order, so that serializing them gives back exactly the input |
| `RenderStore.HostRoundTrip` | modules/angular2/src/web-workers/shared/render_view_with_fragments_store.ts:94-131 | on the UI side, deserializing the serialized form of a stored group gives the identical view ref and fragment refs, in order |
| `RenderStore.WorkerRenderViewRef.constructor` | modules/angular2/src/web-workers/shared/render_view_with_fragments_store.ts:135 | the reference keeps the number it was built with |
| `RenderStore.WorkerRenderViewRef.Serialize` | modules/angular2/src/web-workers/shared/render_view_with_fragments_store.ts:136 | returns the number the reference was built with; `Deserialize` is its inverse |
| `RenderStore.WorkerRenderViewRef.Deserialize` | modules/angular2/src/web-workers/shared/render_view_with_fragments_store.ts:134-139 | a fresh view ref whose `serialize` returns the handle it was given |
| `RenderStore.WorkerRenderFragmentRef.constructor` | modules/angular2/src/web-workers/shared/render_view_with_fragments_store.ts:142 | the reference keeps the number it was built with |
| `RenderStore.WorkerRenderFragmentRef.Serialize` | modules/angular2/src/web-workers/shared/render_view_with_fragments_store.ts:144 | returns the number the reference was built with; `Deserialize` is its inverse |
| `RenderStore.WorkerRenderFragmentRef.Deserialize` | modules/angular2/src/web-workers/shared/render_view_with_fragments_store.ts:141-149 | a fresh fragment ref whose `serialize` returns the handle it was given |

## Left out

- Dependency injection (`@Injectable`, `@Inject(ON_WEBWORKER)`, `angular2/di`): the constructor takes the mode as a plain `bool`.
- `ListWrapper` (`createGrowableSize`, `forEach`, `map`): these are replaced by an array, `for` loops and sequence comprehensions. Nothing is claimed about their internals.
- `RenderViewRef`, `RenderFragmentRef` and `RenderViewWithFragments` from the renderer's API: the references are plain objects and the group is a datatype.
- The message transport and the `StringMap` wire object: the wire form is the datatype `SerializedViewWithFragments`. A wire object whose `fragmentRefs` is itself null is not modelled.
- JavaScript's `null` versus `undefined` (a missing map entry): both are `None`, or `null` for references.
- Worker-side maps: the source never creates them, and touching them would throw. The invariant `Valid` records this by keeping them empty. No operation reads them there. `Store`, and `Retrieve` of a non-null handle, require the UI side.
- Run-time type errors: on the worker the source casts references to worker references and calls `serialize()`. The model requires worker references there, instead of modelling the `TypeError`.
- `Allocate`: a negative `fragmentCount` (JavaScript throws `RangeError` on `new Array(-1)`) is excluded by the `nat` type.
- Handles: JavaScript numbers that are not integers are not modelled.
- Allocate: the counter `nextIndex` is an unbounded `nat`. The source's `_nextIndex++` works on a JavaScript double, which stops advancing at 2^53 (2^53 + 1 === 2^53). Beyond that point handles would repeat. This limit is unreachable in practice and is not modelled.
- AllocationsDisjoint: its strictly increasing, non-overlapping blocks hold for the unbounded counter only, not past the 2^53 limit above.
