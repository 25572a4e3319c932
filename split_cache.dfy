/**
 * The window's split cache as a function of the transitions converted: which
 * clips a sequence of conversions splits (each split creates two assets) and
 * what the cache holds afterwards. A clip is split only when no pair is
 * cached under its identity yet.
 */
module SplitCache {
  import opened Wrappers
  import opened Animator
  import opened BranchBuilder
  import ClipSplitter

  /** The cached halves, keyed by the identity of the clip they were split from. */
  type Cache = map<ClipId, (AnimationClip, AnimationClip)>

  /** The identities of the clips in `clips`. */
  function Ids(clips: seq<AnimationClip>): (ids: set<ClipId>)
    ensures forall i | 0 <= i < |clips| :: clips[i].id in ids
    ensures forall id | id in ids :: exists i | 0 <= i < |clips| :: clips[i].id == id
  {
    set i | 0 <= i < |clips| :: clips[i].id
  }

  /** No two clips of `clips` have the same identity. */
  predicate DistinctIds(clips: seq<AnimationClip>) {
    forall i, j | 0 <= i < j < |clips| :: clips[i].id != clips[j].id
  }

  /** Adding one clip adds its identity. */
  lemma IdsAppend(clips: seq<AnimationClip>, clip: AnimationClip)
    ensures Ids(clips + [clip]) == Ids(clips) + {clip.id}
  {
    assert forall i | 0 <= i < |clips| :: (clips + [clip])[i] == clips[i];
    assert (clips + [clip])[|clips|] == clip;
  }

  /** Distinct clips have as many identities as there are clips. */
  lemma {:induction false} IdsCount(clips: seq<AnimationClip>)
    requires DistinctIds(clips)
    ensures |Ids(clips)| == |clips|
  {
    if clips != [] {
      var init, last := clips[..|clips| - 1], clips[|clips| - 1];
      assert clips == init + [last];
      forall i, j | 0 <= i < j < |init| ensures init[i].id != init[j].id {
        assert init[i] == clips[i] && init[j] == clips[j];
      }
      IdsCount(init);
      forall i | 0 <= i < |init| ensures init[i].id != last.id {
        assert init[i] == clips[i];
      }
      assert last.id !in Ids(init);
      IdsAppend(init, last);
      assert |Ids(init) + {last.id}| == |Ids(init)| + 1;
    }
  }

  /**
   * `cache` is the cache of a window that has split exactly `splits`, in
   * order: each clip was split once, its pair is cached under its identity,
   * and the pair is the split of the clip as it was then.
   */
  predicate Logged(cache: Cache, splits: seq<AnimationClip>) {
    && DistinctIds(splits)
    && cache.Keys == Ids(splits)
    && forall i | 0 <= i < |splits| :: cache[splits[i].id] == ClipSplitter.Halves(splits[i])
  }

  /** A logged cache has one entry per clip split, so two assets per entry were created. */
  lemma LoggedCount(cache: Cache, splits: seq<AnimationClip>)
    requires Logged(cache, splits)
    ensures |cache| == |splits|
  {
    IdsCount(splits);
  }

  /** Splitting an uncached clip and caching its halves keeps the cache logged. */
  lemma LoggedAdd(cache: Cache, splits: seq<AnimationClip>, clip: AnimationClip)
    requires Logged(cache, splits)
    requires clip.id !in cache
    ensures Logged(cache[clip.id := ClipSplitter.Halves(clip)], splits + [clip])
  {
    var cache', after := cache[clip.id := ClipSplitter.Halves(clip)], splits + [clip];
    IdsAppend(splits, clip);
    assert cache'.Keys == cache.Keys + {clip.id} == Ids(after);
    forall i | 0 <= i < |splits|
      ensures after[i] == splits[i] && splits[i].id != clip.id
      ensures cache'[after[i].id] == ClipSplitter.Halves(after[i])
    {
      assert splits[i].id in Ids(splits);
    }
    assert after[|splits|] == clip;
    assert cache'[after[|splits|].id] == ClipSplitter.Halves(after[|splits|]);
    forall i, j | 0 <= i < j < |after| ensures after[i].id != after[j].id {
      if j < |splits| {
        assert after[i] == splits[i] && after[j] == splits[j];
      }
    }
  }

  /** A cached pair holds the two assets derived from the clip it is cached under. */
  lemma LoggedPairIds(cache: Cache, splits: seq<AnimationClip>, id: ClipId)
    requires Logged(cache, splits)
    requires id in cache
    ensures cache[id].0.id == FirstHalfOf(id) && cache[id].1.id == SecondHalfOf(id)
  {
    var i :| 0 <= i < |splits| && splits[i].id == id;
  }

  /** The clip converting `t` splits, given the cache: an accepted time-parameter clip that is not cached. */
  function SplitFor(t: AnimatorStateTransition, cache: Cache): (r: Option<AnimationClip>)
    ensures r.Some? <==> SplitsClip(t) && t.destinationState.motion.clip.id !in cache
    ensures r.Some? ==> r.value == t.destinationState.motion.clip
  {
    if SplitsClip(t) && t.destinationState.motion.clip.id !in cache then Some(t.destinationState.motion.clip)
    else None
  }

  /** The cache after converting `t`: the clip it splits, if any, is cached with its halves. */
  function CacheStep(t: AnimatorStateTransition, cache: Cache): (r: Cache)
    ensures SplitFor(t, cache).None? ==> r == cache
    ensures SplitFor(t, cache).Some? ==>
      var clip := SplitFor(t, cache).value;
      clip.id !in cache && r == cache[clip.id := ClipSplitter.Halves(clip)]
  {
    match SplitFor(t, cache)
    case Some(clip) => cache[clip.id := ClipSplitter.Halves(clip)]
    case None => cache
  }

  /** The clips converting `t` splits: none, or its destination clip. */
  function SplitStep(t: AnimatorStateTransition, cache: Cache): (r: seq<AnimationClip>)
    ensures SplitFor(t, cache).None? ==> r == []
    ensures SplitFor(t, cache).Some? ==> r == [SplitFor(t, cache).value]
  {
    match SplitFor(t, cache)
    case Some(clip) => [clip]
    case None => []
  }

  /** The cache after converting the transitions in order, starting from `cache`. */
  function CacheAfter(ts: seq<AnimatorStateTransition>, cache: Cache): (after: Cache) {
    if ts == [] then cache
    else CacheStep(ts[|ts| - 1], CacheAfter(ts[..|ts| - 1], cache))
  }

  /** The clips split while converting the transitions in order, starting from `cache`. */
  function NewSplits(ts: seq<AnimatorStateTransition>, cache: Cache): (split: seq<AnimationClip>) {
    if ts == [] then []
    else
      var init := ts[..|ts| - 1];
      NewSplits(init, cache) + SplitStep(ts[|ts| - 1], CacheAfter(init, cache))
  }

  /** Every accepted time-parameter clip of `ts` has a cached pair. */
  predicate Covers(ts: seq<AnimatorStateTransition>, cache: Cache) {
    forall i | 0 <= i < |ts| :: SplitsClip(ts[i]) ==> ts[i].destinationState.motion.clip.id in cache
  }

  /** One conversion step: the cache and the clips split, after `init` and then `t`. */
  lemma StepAfter(init: seq<AnimatorStateTransition>, t: AnimatorStateTransition, cache: Cache)
    ensures CacheAfter(init + [t], cache) == CacheStep(t, CacheAfter(init, cache))
    ensures NewSplits(init + [t], cache) == NewSplits(init, cache) + SplitStep(t, CacheAfter(init, cache))
  {
    assert (init + [t])[..|init|] == init;
  }

  /** Converting adds to the cache exactly the identities of the clips it splits. */
  lemma {:induction false} CacheAfterKeys(ts: seq<AnimatorStateTransition>, cache: Cache)
    ensures CacheAfter(ts, cache).Keys == cache.Keys + Ids(NewSplits(ts, cache))
    decreases |ts|
  {
    if ts != [] {
      var init, t := ts[..|ts| - 1], ts[|ts| - 1];
      assert ts == init + [t];
      StepAfter(init, t, cache);
      CacheAfterKeys(init, cache);
      var splitBefore := NewSplits(init, cache);
      match SplitFor(t, CacheAfter(init, cache))
      case Some(clip) =>
        IdsAppend(splitBefore, clip);
      case None =>
        assert NewSplits(ts, cache) == splitBefore + [];
        assert splitBefore + [] == splitBefore;
    }
  }

  /** Converting keeps every pair cached before. */
  lemma {:induction false} CacheAfterKeeps(ts: seq<AnimatorStateTransition>, cache: Cache)
    ensures forall id | id in cache :: id in CacheAfter(ts, cache) && CacheAfter(ts, cache)[id] == cache[id]
  {
    if ts != [] {
      var init, t := ts[..|ts| - 1], ts[|ts| - 1];
      assert ts == init + [t];
      StepAfter(init, t, cache);
      CacheAfterKeeps(init, cache);
    }
  }

  /**
   * Each clip is split at most once: the clips split have distinct
   * identities, and none of them was cached before.
   */
  lemma {:induction false} NewSplitsFresh(ts: seq<AnimatorStateTransition>, cache: Cache)
    ensures DistinctIds(NewSplits(ts, cache))
    ensures forall i | 0 <= i < |NewSplits(ts, cache)| :: NewSplits(ts, cache)[i].id !in cache
  {
    if ts != [] {
      var init, t := ts[..|ts| - 1], ts[|ts| - 1];
      assert ts == init + [t];
      StepAfter(init, t, cache);
      NewSplitsFresh(init, cache);
      var before := CacheAfter(init, cache);
      var splitBefore := NewSplits(init, cache);
      if SplitFor(t, before).Some? {
        var clip := SplitFor(t, before).value;
        CacheAfterKeys(init, cache);
        var split := splitBefore + [clip];
        assert NewSplits(ts, cache) == split;
        forall i | 0 <= i < |splitBefore| ensures split[i] == splitBefore[i] && split[i].id != clip.id {
          assert splitBefore[i].id in Ids(splitBefore);
        }
        assert clip.id !in cache;
      } else {
        assert NewSplits(ts, cache) == splitBefore + [];
      }
    }
  }

  /** The halves of every clip split are what the cache holds for it afterwards. */
  lemma {:induction false} NewSplitsCached(ts: seq<AnimatorStateTransition>, cache: Cache)
    ensures forall i | 0 <= i < |NewSplits(ts, cache)| ::
      && NewSplits(ts, cache)[i].id in CacheAfter(ts, cache)
      && CacheAfter(ts, cache)[NewSplits(ts, cache)[i].id] == ClipSplitter.Halves(NewSplits(ts, cache)[i])
  {
    if ts != [] {
      var init, t := ts[..|ts| - 1], ts[|ts| - 1];
      assert ts == init + [t];
      StepAfter(init, t, cache);
      NewSplitsCached(init, cache);
      var before := CacheAfter(init, cache);
      var splitBefore := NewSplits(init, cache);
      if SplitFor(t, before).Some? {
        var clip := SplitFor(t, before).value;
        var split := splitBefore + [clip];
        assert NewSplits(ts, cache) == split;
        forall i | 0 <= i < |splitBefore| ensures split[i] == splitBefore[i] && split[i].id in before {
        }
        assert split[|splitBefore|] == clip;
      } else {
        assert NewSplits(ts, cache) == splitBefore + [];
      }
    }
  }

  /** After converting `ts`, every accepted time-parameter clip of `ts` is cached. */
  lemma {:induction false} CacheAfterCovers(ts: seq<AnimatorStateTransition>, cache: Cache)
    ensures Covers(ts, CacheAfter(ts, cache))
  {
    if ts != [] {
      var init := ts[..|ts| - 1];
      CacheAfterCovers(init, cache);
      CacheAfterKeys(ts, cache);
      CacheAfterKeys(init, cache);
      StepAfter(init, ts[|ts| - 1], cache);
      assert ts == init + [ts[|ts| - 1]];
      var before := CacheAfter(init, cache);
      assert before.Keys <= CacheAfter(ts, cache).Keys;
      forall i | 0 <= i < |ts| && SplitsClip(ts[i])
        ensures ts[i].destinationState.motion.clip.id in CacheAfter(ts, cache)
      {
        if i < |init| {
          assert ts[i] == init[i];
        }
      }
    }
  }

  /** When every clip to split is already cached, converting splits nothing and leaves the cache as it is. */
  lemma {:induction false} CoveredSplitsNothing(ts: seq<AnimatorStateTransition>, cache: Cache)
    requires Covers(ts, cache)
    ensures CacheAfter(ts, cache) == cache
    ensures NewSplits(ts, cache) == []
  {
    if ts != [] {
      var init := ts[..|ts| - 1];
      assert Covers(init, cache) by {
        forall i | 0 <= i < |init| ensures SplitsClip(init[i]) ==> init[i].destinationState.motion.clip.id in cache {
          assert init[i] == ts[i];
        }
      }
      CoveredSplitsNothing(init, cache);
    }
  }

  /**
   * Converting the same transitions again, with the cache the first pass
   * left, splits no clip and leaves the cache unchanged.
   */
  lemma SecondPassSplitsNothing(ts: seq<AnimatorStateTransition>, cache: Cache)
    ensures CacheAfter(ts, CacheAfter(ts, cache)) == CacheAfter(ts, cache)
    ensures NewSplits(ts, CacheAfter(ts, cache)) == []
  {
    CacheAfterCovers(ts, cache);
    CoveredSplitsNothing(ts, CacheAfter(ts, cache));
  }

  /** A logged cache stays logged through any sequence of conversions. */
  lemma {:induction false} CacheAfterLogged(ts: seq<AnimatorStateTransition>, cache: Cache, splits: seq<AnimationClip>)
    requires Logged(cache, splits)
    ensures Logged(CacheAfter(ts, cache), splits + NewSplits(ts, cache))
  {
    if ts == [] {
      assert splits + [] == splits;
    } else {
      var init, t := ts[..|ts| - 1], ts[|ts| - 1];
      assert ts == init + [t];
      StepAfter(init, t, cache);
      CacheAfterLogged(init, cache, splits);
      var before := CacheAfter(init, cache);
      var splitBefore := splits + NewSplits(init, cache);
      var step := SplitStep(t, before);
      assert splits + NewSplits(ts, cache) == splitBefore + step;
      if SplitFor(t, before).Some? {
        LoggedAdd(before, splitBefore, SplitFor(t, before).value);
      } else {
        assert splitBefore + step == splitBefore;
      }
    }
  }

  /** Converting `p` and then `q` leaves the cache that converting `p + q` does. */
  lemma {:induction false} CacheAfterAppend(p: seq<AnimatorStateTransition>, q: seq<AnimatorStateTransition>, cache: Cache)
    ensures CacheAfter(p + q, cache) == CacheAfter(q, CacheAfter(p, cache))
    decreases |q|
  {
    if q == [] {
      assert p + q == p;
    } else {
      var init, t := q[..|q| - 1], q[|q| - 1];
      var mid := CacheAfter(p, cache);
      calc {
        CacheAfter(p + q, cache);
        { assert p + q == (p + init) + [t]; }
        CacheAfter((p + init) + [t], cache);
        { StepAfter(p + init, t, cache); }
        CacheStep(t, CacheAfter(p + init, cache));
        { CacheAfterAppend(p, init, cache); }
        CacheStep(t, CacheAfter(init, mid));
        { StepAfter(init, t, mid); }
        CacheAfter(init + [t], mid);
        { assert init + [t] == q; }
        CacheAfter(q, mid);
      }
    }
  }

  /** Converting `p` and then `q` splits the clips that converting `p + q` does, in order. */
  lemma {:induction false} NewSplitsAppend(p: seq<AnimatorStateTransition>, q: seq<AnimatorStateTransition>, cache: Cache)
    ensures NewSplits(p + q, cache) == NewSplits(p, cache) + NewSplits(q, CacheAfter(p, cache))
    decreases |q|
  {
    var mid := CacheAfter(p, cache);
    if q == [] {
      assert p + q == p;
      assert NewSplits(p, cache) + [] == NewSplits(p, cache);
    } else {
      var init, t := q[..|q| - 1], q[|q| - 1];
      var step := SplitStep(t, CacheAfter(init, mid));
      calc {
        NewSplits(p + q, cache);
        { assert p + q == (p + init) + [t]; }
        NewSplits((p + init) + [t], cache);
        { StepAfter(p + init, t, cache); }
        NewSplits(p + init, cache) + SplitStep(t, CacheAfter(p + init, cache));
        { CacheAfterAppend(p, init, cache); NewSplitsAppend(p, init, cache); }
        (NewSplits(p, cache) + NewSplits(init, mid)) + step;
        NewSplits(p, cache) + (NewSplits(init, mid) + step);
        { StepAfter(init, t, mid); }
        NewSplits(p, cache) + NewSplits(init + [t], mid);
        { assert init + [t] == q; }
        NewSplits(p, cache) + NewSplits(q, mid);
      }
    }
  }

  /**
   * Converting a prefix of `ts` and then all of `ts` leaves the cache, and
   * splits the clips, of converting `ts` once: the second pass over the
   * prefix finds every clip it splits already cached.
   */
  lemma PrefixThenAll(ts: seq<AnimatorStateTransition>, m: nat, cache: Cache)
    requires m <= |ts|
    ensures CacheAfter(ts, CacheAfter(ts[..m], cache)) == CacheAfter(ts, cache)
    ensures NewSplits(ts[..m], cache) + NewSplits(ts, CacheAfter(ts[..m], cache)) == NewSplits(ts, cache)
  {
    var p, q := ts[..m], ts[m..];
    var first := CacheAfter(p, cache);
    assert ts == p + q;
    SecondPassSplitsNothing(p, cache);
    calc {
      CacheAfter(ts, first);
      { CacheAfterAppend(p, q, first); }
      CacheAfter(q, CacheAfter(p, first));
      CacheAfter(q, first);
      { CacheAfterAppend(p, q, cache); }
      CacheAfter(ts, cache);
    }
    calc {
      NewSplits(p, cache) + NewSplits(ts, first);
      { NewSplitsAppend(p, q, first); }
      NewSplits(p, cache) + (NewSplits(p, first) + NewSplits(q, CacheAfter(p, first)));
      { assert NewSplits(p, first) + NewSplits(q, first) == NewSplits(q, first); }
      NewSplits(p, cache) + NewSplits(q, first);
      { NewSplitsAppend(p, q, cache); }
      NewSplits(ts, cache);
    }
  }
}
