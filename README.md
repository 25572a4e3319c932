# FaceEmo FX importer: a Dafny model

This project models the conversion algorithm of the FaceEmo FX importer, a
Unity editor window. The window reads the FX layer of an avatar's animator
controller and turns its any-state transitions into expression branches of a
new FaceEmo mode named "FX".

- `animator.dfy`, module `Animator`: the Unity input as plain datatypes.
  These are layers, any-state transitions, guards (parameter, mode,
  threshold), destination states and their motion. A motion is a blend tree,
  a clip or neither. A clip has an identity and curves of keys.
- `faceemo.dfy`, module `FaceEmo`: the FaceEmo output. It holds hands,
  comparison operators, conditions, branches with their three animation
  slots and two trigger flags, and the `Mode` class. Its branch list is
  appended in place.
- `clip_splitter.dfy`, module `ClipSplitter`: splitting a time-parameter
  clip into a first half (key 1 removed from every curve with at least two
  keys) and a second half (key 0 removed). `TrimCurves` is the per-curve loop
  over a copy of the clip.
- `branch_builder.dfy`, module `BranchBuilder`: `BranchFor`, the branch one
  transition yields (or `None`), and lemmas for each rule of the conversion.
- `pipeline.dfy`, module `Pipeline`: the transitions of all layers, last layer
  first, and the branches they yield with discarded transitions dropped.
- `ordering.dfy`, module `Ordering`: the stable sort by hand (the direction
  is chosen by the first branch) and then by gesture. The sort is proved
  sorted, a permutation and stable. It is also proved to be the only
  sequence with those three properties.
- `split_cache.dfy`, module `SplitCache`: the window's split cache as a
  function of the transitions converted. It is keyed by the identity of the
  source clip, as the editor's dictionary is keyed by the clip object.
  `CacheAfter` is the cache after a sequence of conversions and `NewSplits`
  the clips split on the way. `Logged` ties a cache to the log of the clips
  split so far: each clip was split once, and its pair is the split of the
  clip as it was then.
- `importer.dfy`, module `Importer`: the window class
  `FaceEmoFXImporter`. Its field is the split cache, beside a ghost log of
  the clips split. Its invariant is `SplitCache.Logged` of the two. Its
  methods are `SeparateAnimation`, `CreateBranch`, `CreateBranches` and
  `Run`. Each is proved against the pure definitions above.

Points where the code's behaviour is easy to misread:

- The split cache is a field of the window (`_separatedAnimationCache`,
  Editor/FaceEmoFXImporter.cs:158). It lives as long as the window object,
  so a later run on the same window object reuses the halves split earlier
  (`SplitCache.SecondPassSplitsNothing`). The field is not serialized, so
  the editor starts it empty again whenever it reloads scripts; the model
  covers runs between two such reloads.
- The cache is keyed by the clip object. A clip edited after it was split
  still finds its old pair, and the halves returned are those of the clip
  as it was when first split.
- Only the guard mode `Equals` becomes `ComparisonOperator.Equals`. Every
  other Unity mode (`If`, `IfNot`, `Greater`, `Less`, `NotEqual`) becomes
  `NotEqual` (line 81).
- The first half drops the key at index 1 (line 118). This is the last key
  only for curves of exactly two keys.
- The zero test is on the float threshold, before truncation (lines 78 and
  81). So a threshold of 0.5 is accepted and becomes gesture 0
  (`BranchBuilder.FractionalThresholdYieldsGestureZero`).
- When no transition yields a branch, or a yielded branch has no condition,
  the code dereferences null (lines 53-62). The model makes this the
  precondition `Importer.RunDefined` of `Run`.

The `Hand` enum is taken to be ordered Left before Right, as in its
declaration order (`FaceEmo.HandRank`). Descending order by hand is ascending
order by the negated rank.

## Model

| member | source | states |
|---|---|---|
| `FaceEmo.HandRank` | Editor/FaceEmoFXImporter.cs:55-59 | Left orders before Right; the rank is 0 exactly for Left |
| `FaceEmo.Mode.AppendBranches` | Editor/FaceEmoFXImporter.cs:62-66 | the items are added at the end of the mode's list in order; earlier entries and the display name are unchanged |
| `ClipSplitter.RemoveKey` | Editor/FaceEmoFXImporter.cs:118 | removing key `index` leaves one key fewer: keys before it keep their place, keys after it move down by one |
| `ClipSplitter.TrimmedCurve` | Editor/FaceEmoFXImporter.cs:116-120 | a curve with at least two keys loses one key and keeps those before the removed one; a shorter curve is unchanged |
| `ClipSplitter.TrimCurves` | Editor/FaceEmoFXImporter.cs:114-130 | the copy keeps the clip's curve count; a curve with at least two keys loses exactly key `index`; shorter curves are unchanged |
| `ClipSplitter.Halves` | Editor/FaceEmoFXImporter.cs:111-133 | the halves are the two assets derived from the clip, each with the clip's curve count |
| `ClipSplitter.HalvesCurves` | Editor/FaceEmoFXImporter.cs:111-130 | per curve with at least two keys: the first half is the curve without key 1, the second without key 0, each one key shorter; shorter curves are identical in both halves |
| `ClipSplitter.HalvesOfTwoKeys` | Editor/FaceEmoFXImporter.cs:114-130 | a curve [a, b] becomes [a] in the first half and [b] in the second |
| `ClipSplitter.HalvesDistinct` | Editor/FaceEmoFXImporter.cs:111-133 | the two halves are different assets, and different source clips never share a derived asset |
| `BranchBuilder.HandOf` | Editor/FaceEmoFXImporter.cs:77 | "GestureLeft" names Left, "GestureRight" names Right, and any other parameter names no hand |
| `BranchBuilder.Truncate` | Editor/FaceEmoFXImporter.cs:81 | the gesture is the threshold truncated toward zero |
| `BranchBuilder.OperatorOf` | Editor/FaceEmoFXImporter.cs:81 | the operator is Equals exactly when the guard mode is Equals |
| `BranchBuilder.ConditionOf` | Editor/FaceEmoFXImporter.cs:77-81 | the condition's hand is the hand the guard's parameter names |
| `BranchBuilder.BranchFor` | Editor/FaceEmoFXImporter.cs:71-150 | a yielded branch comes from a transition whose guards are all accepted, and its conditions are those guards' conditions |
| `BranchBuilder.DiscardedIff` | Editor/FaceEmoFXImporter.cs:75-87 | a transition yields no branch exactly when some guard names neither gesture parameter or has threshold 0, or the destination is a blend tree with fewer than two children |
| `BranchBuilder.ConditionsFollowGuards` | Editor/FaceEmoFXImporter.cs:75-82 | an accepted transition has one condition per guard in guard order; hand from the parameter, gesture = truncated threshold, Equals exactly when the mode is Equals |
| `BranchBuilder.FractionalThresholdYieldsGestureZero` | Editor/FaceEmoFXImporter.cs:78-81 | a GestureLeft guard with threshold 0.5 passes the zero test; unless the destination is a blend tree the transition yields a branch, and its one condition is Left, gesture 0 |
| `BranchBuilder.BlendTreeSlots` | Editor/FaceEmoFXImporter.cs:84-97 | a blend tree with at least two children sets Base exactly when child 0 is a clip and Right exactly when child 1 is a clip; Left and both flags stay unset |
| `BranchBuilder.BlendTreeIgnoresLaterChildren` | Editor/FaceEmoFXImporter.cs:89-97 | replacing the children after the second by anything leaves the branch unchanged |
| `BranchBuilder.PlainClipSlots` | Editor/FaceEmoFXImporter.cs:143-146 | a clip without time parameter fills only Base, with that clip; Left, Right and both flags stay unset |
| `BranchBuilder.TimedClipSlots` | Editor/FaceEmoFXImporter.cs:137-141 | a time-parameter clip puts its first half in Base and its second half in Left when some guard is on GestureLeft, else in Right; the left flag equals that choice and the right flag is its negation |
| `BranchBuilder.NoMotionNoAnimation` | Editor/FaceEmoFXImporter.cs:84-149 | a motion that is neither blend tree nor clip gives a branch with its conditions and no animation or flag |
| `Pipeline.Flatten` | Editor/FaceEmoFXImporter.cs:46-49 | the any-state transitions of all layers, the last layer's first, each layer's in declared order (`FlattenOne`, `FlattenAppend`) |
| `Pipeline.Produced` | Editor/FaceEmoFXImporter.cs:50-51 | each transition converted in order, the discarded ones dropped (`ProducedAppend`, `ProducedMembers`) |
| `Pipeline.FlattenOne` | Editor/FaceEmoFXImporter.cs:46-49 | one layer contributes its any-state transitions in declared order |
| `Pipeline.FlattenAppend` | Editor/FaceEmoFXImporter.cs:46-49 | the transitions of later layers come before those of earlier layers |
| `Pipeline.ProducedAppend` | Editor/FaceEmoFXImporter.cs:50-51 | conversion and dropping of discarded transitions keeps the transitions' order, piece by piece |
| `Pipeline.ProducedMembers` | Editor/FaceEmoFXImporter.cs:50-51 | a branch is in the list exactly when some transition converts to it |
| `Pipeline.TwoLayers` | Editor/FaceEmoFXImporter.cs:46-51 | for layers L1, L2 in declared order, L2's branches come before L1's |
| `SplitCache.Logged` | Editor/FaceEmoFXImporter.cs:101-136 | the window invariant: each clip split once, its pair cached under its identity, the pair being the split of the clip as it was then (`LoggedAdd`, `CacheAfterLogged`) |
| `SplitCache.LoggedCount` | Editor/FaceEmoFXImporter.cs:132-135 | a logged cache has one entry per clip split, so the window created two assets per entry |
| `SplitCache.SplitFor` | Editor/FaceEmoFXImporter.cs:101-105 | a conversion splits a clip exactly when the transition is accepted, its destination is a time-parameter clip, and no pair is cached under that clip; the clip split is the destination clip |
| `SplitCache.CacheStep` | Editor/FaceEmoFXImporter.cs:105-135 | a conversion that splits a clip adds one entry, the clip's halves under its identity, which was not cached before; any other conversion leaves the cache unchanged |
| `SplitCache.SplitStep` | Editor/FaceEmoFXImporter.cs:105-135 | a conversion splits at most one clip, the one `SplitFor` names |
| `SplitCache.CacheAfter` | Editor/FaceEmoFXImporter.cs:101-136 | the cache after converting transitions in order, one `CacheStep` each (`CacheAfterKeys`, `CacheAfterKeeps`, `CacheAfterLogged`) |
| `SplitCache.NewSplits` | Editor/FaceEmoFXImporter.cs:101-136 | the clips split while converting transitions in order, one `SplitStep` each (`NewSplitsFresh`, `NewSplitsCached`) |
| `SplitCache.LoggedAdd` | Editor/FaceEmoFXImporter.cs:111-135 | splitting an uncached clip and caching its halves keeps every clip split once, with its pair cached under it |
| `SplitCache.LoggedPairIds` | Editor/FaceEmoFXImporter.cs:105-107 | a cached pair holds the two assets derived from the clip it is cached under |
| `SplitCache.CacheAfterKeys` | Editor/FaceEmoFXImporter.cs:105-135 | converting adds to the cache exactly the identities of the clips it splits |
| `SplitCache.CacheAfterKeeps` | Editor/FaceEmoFXImporter.cs:105-108 | converting keeps every pair cached before, unchanged |
| `SplitCache.NewSplitsFresh` | Editor/FaceEmoFXImporter.cs:105-135 | the clips a sequence of conversions splits are pairwise distinct and none was cached before: each clip is split at most once |
| `SplitCache.NewSplitsCached` | Editor/FaceEmoFXImporter.cs:111-135 | every clip split has its halves in the cache afterwards |
| `SplitCache.CacheAfterLogged` | Editor/FaceEmoFXImporter.cs:101-136 | a cache whose clips were each split once stays so through any sequence of conversions |
| `SplitCache.CacheAfterCovers` | Editor/FaceEmoFXImporter.cs:101-136 | after converting the transitions, every accepted time-parameter clip among them has a cached pair |
| `SplitCache.CoveredSplitsNothing` | Editor/FaceEmoFXImporter.cs:105-108 | when every clip to split already has a pair, converting splits nothing and leaves the cache unchanged |
| `SplitCache.SecondPassSplitsNothing` | Editor/FaceEmoFXImporter.cs:158 | converting the same transitions again on the same window splits no clip and leaves the cache unchanged |
| `SplitCache.CacheAfterAppend` | Editor/FaceEmoFXImporter.cs:101-136 | converting p and then q leaves the cache that converting p + q leaves |
| `SplitCache.NewSplitsAppend` | Editor/FaceEmoFXImporter.cs:101-136 | converting p and then q splits the clips of p + q, in order |
| `SplitCache.PrefixThenAll` | Editor/FaceEmoFXImporter.cs:53-62 | converting a prefix (line 53) and then all transitions (line 62) leaves the cache and splits the clips of one pass over all of them |
| `Ordering.StableSort` | Editor/FaceEmoFXImporter.cs:55-62 | the sorted list is a permutation of its input |
| `Ordering.KeyOf` | Editor/FaceEmoFXImporter.cs:55-62 | the key of a branch: its first condition's hand rank, negated when descending, then its first condition's gesture |
| `Ordering.Ascending` | Editor/FaceEmoFXImporter.cs:53 | the sort is ascending by hand exactly when the first branch's first condition is on the left hand |
| `Ordering.Ordered` | Editor/FaceEmoFXImporter.cs:53-62 | the branches in the importer's order: the stable sort in the direction `Ascending` picks (`OrderedSpec`) |
| `Ordering.StableSortSorted` | Editor/FaceEmoFXImporter.cs:55-62 | the sorted list is ordered by hand, then by gesture ascending |
| `Ordering.StableSortStable` | Editor/FaceEmoFXImporter.cs:55-62 | branches with equal keys keep their input order |
| `Ordering.SortedStableUnique` | Editor/FaceEmoFXImporter.cs:55-62 | two sorted lists with the same branches per key, in the same order, are equal; so the model's sort is the stable OrderBy/ThenBy |
| `Ordering.OrderedSpec` | Editor/FaceEmoFXImporter.cs:53-62 | the importer's order is a permutation sorted in the direction the first branch's first hand decides, stable, and the only such sequence |
| `Ordering.LeftFirstSortsAscending` | Editor/FaceEmoFXImporter.cs:53-62 | hands Left(3), Right(1), Left(2) with a Left first branch sort to Left(2), Left(3), Right(1) |
| `Ordering.RightFirstSortsDescending` | Editor/FaceEmoFXImporter.cs:53-62 | hands Right(1), Left(3), Left(2) with a Right first branch sort to Right(1), Left(2), Left(3) |
| `Importer.FaceEmoFXImporter.constructor` | Editor/FaceEmoFXImporter.cs:158 | a new window starts with an empty split cache and has split no clip |
| `Importer.FaceEmoFXImporter.SeparateAnimation` | Editor/FaceEmoFXImporter.cs:103-136 | the results are the two assets derived from the clip; when a pair is cached under the clip, that pair is returned and nothing is split or cached; otherwise the clip is split once, its halves are returned, and exactly that entry is added |
| `Importer.FaceEmoFXImporter.CreateBranch` | Editor/FaceEmoFXImporter.cs:71-150 | the result is `BranchFor(transition)`; the destination clip is split and cached exactly when it is an accepted time-parameter clip with no cached pair (`SplitCache.SplitFor`); otherwise the cache and the log are unchanged |
| `Importer.FaceEmoFXImporter.CreateBranches` | Editor/FaceEmoFXImporter.cs:46-51 | the list is the branches of the transitions in order with discarded ones dropped; the new cache is `CacheAfter(transitions, old cache)` and the clips split are `NewSplits(transitions, old cache)` |
| `Importer.FaceEmoFXImporter.Run` | Editor/FaceEmoFXImporter.cs:39-69 | the new mode is named "FX" and holds the branches of all layers (last layer first) in the importer's order; the window keeps the cache `CacheAfter` of all transitions, and the clips split are `NewSplits` of them |
| `Importer.RunDefined` | Editor/FaceEmoFXImporter.cs:53-62 | the run completes exactly when some transition yields a branch and every yielded branch has a first condition; otherwise the source dereferences null |
| `Importer.OneTransitionRun` | Editor/FaceEmoFXImporter.cs:39-149 | one layer with one transition (GestureLeft, Equals, 3) to a plain clip C yields exactly one branch: Left, 3, Equals, Base = C |

## Left out

- `ShowWindow`, `OnGUI` and the `DisabledScope` gate (lines 17-37): editor UI. The gate that both inputs are set is implicit: `Run` receives the layers.
- Loading and saving the menu, `AddMode`, `GetMode` and `RegisteredId` (lines 41-44, 68): external FaceEmo persistence. `Run` returns the new mode as a fresh `Mode` object.
- `Instantiate`, `AssetDatabase.CreateAsset`, the asset path and `GUID.Generate` (lines 111-112, 132-133): asset I/O. The two new assets get the identities `FirstHalfOf(id)` and `SecondHalfOf(id)` of the source clip. These identities are unique within one window only, where the split log allows one split per clip. A second window that splits the same clip makes new assets with new GUIDs in the source, but gets the same two identities in the model. A source clip that is itself a half split by an earlier window can also share an identity with a new half.
- `ToFaceEmoAnimation` (lines 163-166): its path-to-GUID lookup is replaced by the clip's identity, which is the animation reference a slot holds.
- Floating point: thresholds are real numbers. Rounding, NaN, infinities and out-of-range casts to `int` are not modelled.
- Keyframe contents (times, values, tangents) and curve bindings: a clip is a sequence of curves, and a curve is a sequence of opaque keys.
- The curves of a clip are its float curves, those `GetCurveBindings` lists (lines 114 and 123). Object-reference curves (sprite swaps and the like) are copied unchanged into both halves by `Instantiate` and are not modelled.
- Script reloads: the split cache is a plain field without `[SerializeField]` (line 158), so a script reload or entering play mode recreates it empty and later runs split clips again. The model keeps one window object whose cache is never reset.
- Numeric values of FaceEmo's `Hand` enum: only the order Left before Right is assumed.
- The null dereference at lines 53-62, when no branch is produced or a branch has no condition: `Run` requires `RunDefined` instead. `Ordering.KeyOf` gives such a branch a placeholder key, which the importer never uses.
- A transition whose guards are all accepted but whose destination is not a state (a sub-state machine or an exit) has a null `destinationState`. The source throws at line 84 and `Run` aborts. The model gives every transition a destination state.
- The identity of a clip object is its `ClipId`. An edit to a clip keeps its identity, which is the key the cache looks up.
- LINQ's deferred evaluation: line 53 converts the transitions up to the first that yields a branch, and line 62 then converts them all. The model converts them all once, eagerly. The branches are the same, because `CreateBranch` yields `BranchFor(transition)` whatever the cache holds. By `SplitCache.PrefixThenAll`, the cache and the clips split are those of one pass.
- `Branch` is modelled as a value that `CreateBranch` updates step by step. The object is not shared while it is built, so its identity is not modelled. Its other FaceEmo settings (eye tracking, blinking and so on) are not touched by the importer and are left out.
- `SeparateAnimation` is a separate method here; in the source it is inline in `CreateBranch` (lines 103-136).
