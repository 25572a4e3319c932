/**
 * The importer window: it converts the FX layers of an animator controller
 * into the branches of a new mode named "FX". The window keeps the halves of
 * every clip it has split, so each clip is split at most once for as long
 * as the window lives.
 */
module Importer {
  import opened Wrappers
  import opened Animator
  import opened FaceEmo
  import opened BranchBuilder
  import ClipSplitter
  import Ordering
  import Pipeline
  import SplitCache

  /**
   * The run can complete: some transition yields a branch and every branch
   * yielded has a first condition to sort by.
   */
  predicate RunDefined(layers: seq<AnimatorControllerLayer>) {
    var bs := Pipeline.Produced(Pipeline.Flatten(layers));
    bs != [] && Ordering.Keyed(bs)
  }

  class FaceEmoFXImporter {
    /** The halves of each clip split so far, keyed by the clip's identity. */
    var separatedAnimationCache: SplitCache.Cache
    /**
     * The clips split so far, in order, as they were when split. Each split
     * created two new assets.
     */
    ghost var splits: seq<AnimationClip>

    /**
     * Each clip was split at most once: the cache holds one pair per split
     * clip, under that clip's identity, and the pair is the split of the clip
     * as it was then.
     */
    ghost predicate Valid()
      reads this
    {
      SplitCache.Logged(separatedAnimationCache, splits)
    }

    constructor ()
      ensures Valid()
      ensures separatedAnimationCache == map[]
      ensures splits == []
    {
      separatedAnimationCache := map[];
      splits := [];
    }

    /**
     * The two halves of `animation`. When a pair is cached under the clip's
     * identity, that pair is returned and nothing is split. Otherwise the clip
     * is split into two trimmed copies, stored as one new entry.
     */
    method SeparateAnimation(animation: AnimationClip) returns (first: AnimationClip, second: AnimationClip)
      requires Valid()
      modifies this
      ensures Valid()
      ensures first.id == FirstHalfOf(animation.id) && second.id == SecondHalfOf(animation.id)
      ensures animation.id in old(separatedAnimationCache) ==>
        && (first, second) == old(separatedAnimationCache)[animation.id]
        && separatedAnimationCache == old(separatedAnimationCache)
        && splits == old(splits)
      ensures animation.id !in old(separatedAnimationCache) ==>
        && (first, second) == ClipSplitter.Halves(animation)
        && separatedAnimationCache == old(separatedAnimationCache)[animation.id := (first, second)]
        && splits == old(splits) + [animation]
    {
      if animation.id in separatedAnimationCache {
        SplitCache.LoggedPairIds(separatedAnimationCache, splits, animation.id);
        var cache := separatedAnimationCache[animation.id];
        first, second := cache.0, cache.1;
      } else {
        first := ClipSplitter.TrimCurves(animation, 1);
        second := ClipSplitter.TrimCurves(animation, 0);
        // each copy becomes a new asset
        first := first.(id := FirstHalfOf(animation.id));
        second := second.(id := SecondHalfOf(animation.id));
        assert first == ClipSplitter.Halves(animation).0;
        assert second == ClipSplitter.Halves(animation).1;
        SplitCache.LoggedAdd(separatedAnimationCache, splits, animation);
        separatedAnimationCache := separatedAnimationCache[animation.id := (first, second)];
        splits := splits + [animation];
      }
    }

    /**
     * Converts one any-state transition. The result is the branch the
     * transition yields (None when it is discarded). The destination clip is
     * split, and its halves cached, exactly when it is an accepted
     * time-parameter clip with no pair cached under its identity.
     */
    method CreateBranch(transition: AnimatorStateTransition) returns (br: Option<Branch>)
      requires Valid()
      modifies this
      ensures Valid()
      ensures br == BranchFor(transition)
      ensures separatedAnimationCache == SplitCache.CacheStep(transition, old(separatedAnimationCache))
      ensures splits == old(splits) + SplitCache.SplitStep(transition, old(separatedAnimationCache))
    {
      var dest := transition.destinationState;
      var guards := transition.conditions;
      var b := NewBranch;
      var i := 0;
      while i < |guards|
        invariant i <= |guards|
        invariant GuardsAccepted(guards[..i])
        invariant |b.conditions| == i
        invariant forall j | 0 <= j < i :: GuardAccepted(guards[j]) && b.conditions[j] == ConditionOf(guards[j])
        invariant b == NewBranch.(conditions := b.conditions)
      {
        var x := guards[i];
        var hand := HandOf(x.parameter);
        if hand.None? || x.threshold == 0.0 {
          assert !GuardAccepted(guards[i]);
          return None;
        }
        b := b.AddCondition(Condition(hand.value, Truncate(x.threshold), OperatorOf(x.mode)));
        i := i + 1;
      }
      assert b.conditions == ConditionsOf(guards);

      match dest.motion {
        case BlendTree(children) =>
          if |children| < 2 {
            return None;
          }
          if children[0].Some? {
            b := b.SetAnimation(children[0].value.id, Base);
          }
          if children[1].Some? {
            b := b.SetAnimation(children[1].value.id, RightSlot);
          }
        case Clip(animation) =>
          if dest.timeParameterActive {
            var first, second := SeparateAnimation(animation);
            b := b.SetAnimation(first.id, Base);
            var isLeft := AnyLeft(b.conditions);
            b := b.SetAnimation(second.id, if isLeft then LeftSlot else RightSlot);
            b := b.(isLeftTriggerUsed := isLeft, isRightTriggerUsed := !isLeft);
          } else {
            b := b.SetAnimation(animation.id, Base);
          }
        case NoMotion =>
      }
      br := Some(b);
    }

    /**
     * Converts the transitions in order and keeps the branches that are not
     * discarded. The cache and the clips split follow the conversions in
     * order: a clip is split only the first time it is met uncached.
     */
    method CreateBranches(transitions: seq<AnimatorStateTransition>) returns (branches: seq<Branch>)
      requires Valid()
      modifies this
      ensures Valid()
      ensures branches == Pipeline.Produced(transitions)
      ensures separatedAnimationCache == SplitCache.CacheAfter(transitions, old(separatedAnimationCache))
      ensures splits == old(splits) + SplitCache.NewSplits(transitions, old(separatedAnimationCache))
    {
      ghost var cache0, splits0 := separatedAnimationCache, splits;
      branches := [];
      var i := 0;
      while i < |transitions|
        invariant i <= |transitions|
        invariant Valid()
        invariant branches == Pipeline.Produced(transitions[..i])
        invariant separatedAnimationCache == SplitCache.CacheAfter(transitions[..i], cache0)
        invariant splits == splits0 + SplitCache.NewSplits(transitions[..i], cache0)
      {
        var t := transitions[i];
        ghost var done := transitions[..i];
        assert transitions[..i + 1] == done + [t];
        SplitCache.StepAfter(done, t, cache0);
        ghost var step := SplitCache.SplitStep(t, separatedAnimationCache);
        assert splits0 + SplitCache.NewSplits(done + [t], cache0) == splits + step;
        var br := CreateBranch(t);
        if br.Some? {
          branches := branches + [br.value];
        }
        i := i + 1;
      }
      assert transitions[..i] == transitions;
    }

    /**
     * The run: a new mode named "FX" whose branches are the branches of all
     * layers (last layer first), sorted by hand in the direction the first
     * branch decides, then by gesture, stably. The cache is kept for later
     * runs on the same window.
     */
    method Run(layers: seq<AnimatorControllerLayer>) returns (mode: Mode)
      requires Valid()
      requires RunDefined(layers)
      modifies this
      ensures Valid()
      ensures fresh(mode)
      ensures mode.displayName == "FX"
      ensures mode.branches == Ordering.Ordered(Pipeline.Produced(Pipeline.Flatten(layers)))
      ensures separatedAnimationCache ==
        SplitCache.CacheAfter(Pipeline.Flatten(layers), old(separatedAnimationCache))
      ensures splits == old(splits) + SplitCache.NewSplits(Pipeline.Flatten(layers), old(separatedAnimationCache))
    {
      mode := new Mode();
      mode.displayName := "FX";
      var list := CreateBranches(Pipeline.Flatten(layers));
      var sorted := Ordering.Ordered(list);
      mode.AppendBranches(sorted);
    }
  }

  /**
   * One layer with one any-state transition guarded by (GestureLeft, Equals, 3)
   * and leading to a plain clip gives exactly one branch: Left, gesture 3,
   * Equals, with that clip in Base.
   */
  lemma OneTransitionRun(clip: AnimationClip, t: AnimatorStateTransition)
    requires t.conditions == [AnimatorCondition(AnimatorConditionMode.Equals, "GestureLeft", 3.0)]
    requires t.destinationState == AnimatorState(Clip(clip), false)
    ensures RunDefined([AnimatorControllerLayer([t])])
    ensures Ordering.Ordered(Pipeline.Produced(Pipeline.Flatten([AnimatorControllerLayer([t])]))) ==
      [Branch([Condition(Left, 3, ComparisonOperator.Equals)], Some(clip.id), None, None, false, false)]
  {
    var expected := Branch([Condition(Left, 3, ComparisonOperator.Equals)], Some(clip.id), None, None, false, false);
    Pipeline.FlattenOne(AnimatorControllerLayer([t]));
    assert Truncate(3.0) == 3;
    assert GuardsAccepted(t.conditions);
    assert ConditionsOf(t.conditions) == [Condition(Left, 3, ComparisonOperator.Equals)];
    assert BranchFor(t) == Some(expected);
    assert [t][..0] == [];
    assert Pipeline.Produced([t]) == [expected];
    assert Ordering.Ascending([expected]);
    assert [expected][1..] == [];
    assert Ordering.StableSort([expected], true) == [expected];
  }
}
