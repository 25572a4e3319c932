/**
 * What converting one any-state transition yields: no branch when a guard is
 * not a hand-gesture guard or has a zero threshold, or when the destination
 * is a blend tree with fewer than two children; otherwise a branch with one
 * condition per guard and its animation slots filled by the shape of the
 * destination's motion.
 */
module BranchBuilder {
  import opened Wrappers
  import opened Animator
  import opened FaceEmo
  import ClipSplitter

  /** The hand a guard's parameter names, if it names one. */
  function HandOf(parameter: string): (r: Option<Hand>)
    ensures r == Some(Left) <==> parameter == "GestureLeft"
    ensures r == Some(Right) <==> parameter == "GestureRight"
  {
    if parameter == "GestureLeft" then Some(Left)
    else if parameter == "GestureRight" then Some(Right)
    else None
  }

  /** The conversion of a float to an integer: truncation toward zero. */
  function Truncate(x: real): (n: int)
    ensures 0.0 <= x ==> n as real <= x < n as real + 1.0
    ensures x < 0.0 ==> n as real - 1.0 < x <= n as real
  {
    if x >= 0.0 then x.Floor else -((-x).Floor)
  }

  /** Only the Equals mode compares for equality; every other mode becomes NotEqual. */
  function OperatorOf(mode: AnimatorConditionMode): (op: ComparisonOperator)
    ensures op == ComparisonOperator.Equals <==> mode == AnimatorConditionMode.Equals
  {
    if mode == AnimatorConditionMode.Equals then ComparisonOperator.Equals else ComparisonOperator.NotEqual
  }

  /** A guard that can become a condition: it names a hand and its threshold is not 0. */
  predicate GuardAccepted(g: AnimatorCondition) {
    HandOf(g.parameter).Some? && g.threshold != 0.0
  }

  predicate GuardsAccepted(gs: seq<AnimatorCondition>) {
    forall i | 0 <= i < |gs| :: GuardAccepted(gs[i])
  }

  function ConditionOf(g: AnimatorCondition): (cond: Condition)
    requires GuardAccepted(g)
    ensures Some(cond.hand) == HandOf(g.parameter)
  {
    Condition(HandOf(g.parameter).value, Truncate(g.threshold), OperatorOf(g.mode))
  }

  function ConditionsOf(gs: seq<AnimatorCondition>): (conditions: seq<Condition>)
    requires GuardsAccepted(gs)
  {
    seq(|gs|, i requires 0 <= i < |gs| => ConditionOf(gs[i]))
  }

  /** Whether some condition is about the left hand. */
  predicate AnyLeft(conditions: seq<Condition>) {
    exists i | 0 <= i < |conditions| :: conditions[i].hand == Left
  }

  /** The branch for a blend tree: child 0 to Base and child 1 to Right when they are clips. */
  function WithBlendTreeChildren(br: Branch, first: Option<AnimationClip>, second: Option<AnimationClip>): (filled: Branch) {
    var br := if first.Some? then br.SetAnimation(first.value.id, Base) else br;
    if second.Some? then br.SetAnimation(second.value.id, RightSlot) else br
  }

  /** The branch for a time-parameter clip, given the clip's two halves. */
  function WithHalves(br: Branch, halves: (AnimationClip, AnimationClip)): (filled: Branch) {
    var isLeft := AnyLeft(br.conditions);
    br.SetAnimation(halves.0.id, Base)
      .SetAnimation(halves.1.id, if isLeft then LeftSlot else RightSlot)
      .(isLeftTriggerUsed := isLeft, isRightTriggerUsed := !isLeft)
  }

  /** Whether converting `t` splits the destination's clip. */
  predicate SplitsClip(t: AnimatorStateTransition) {
    && GuardsAccepted(t.conditions)
    && t.destinationState.motion.Clip?
    && t.destinationState.timeParameterActive
  }

  /** The branch converting `t` yields, or None when the transition is discarded. */
  function BranchFor(t: AnimatorStateTransition): (r: Option<Branch>)
    ensures r.Some? ==> GuardsAccepted(t.conditions) && r.value.conditions == ConditionsOf(t.conditions)
  {
    if !GuardsAccepted(t.conditions) then None
    else
      var br := NewBranch.(conditions := ConditionsOf(t.conditions));
      var dest := t.destinationState;
      match dest.motion
      case BlendTree(children) =>
        if |children| < 2 then None
        else Some(WithBlendTreeChildren(br, children[0], children[1]))
      case Clip(animation) =>
        if dest.timeParameterActive then Some(WithHalves(br, ClipSplitter.Halves(animation)))
        else Some(br.SetAnimation(animation.id, Base))
      case NoMotion => Some(br)
  }

  /**
   * A transition is discarded exactly when one of its guards names neither
   * gesture parameter or has threshold 0, or its destination is a blend tree
   * with fewer than two children.
   */
  lemma DiscardedIff(t: AnimatorStateTransition)
    ensures BranchFor(t).None? <==>
      || (exists i | 0 <= i < |t.conditions| ::
            || (t.conditions[i].parameter != "GestureLeft" && t.conditions[i].parameter != "GestureRight")
            || t.conditions[i].threshold == 0.0)
      || (t.destinationState.motion.BlendTree? && |t.destinationState.motion.children| < 2)
  {
  }

  /**
   * A produced branch has one condition per guard, in guard order: its hand
   * comes from the parameter, its gesture is the truncated threshold, and its
   * operator is Equals exactly when the guard's mode is Equals.
   */
  lemma ConditionsFollowGuards(t: AnimatorStateTransition, i: nat)
    requires BranchFor(t).Some?
    requires i < |t.conditions|
    ensures |BranchFor(t).value.conditions| == |t.conditions|
    ensures var c, g := BranchFor(t).value.conditions[i], t.conditions[i];
      && (c.hand == Left <==> g.parameter == "GestureLeft")
      && (c.hand == Right <==> g.parameter == "GestureRight")
      && c.handGesture == Truncate(g.threshold)
      && (c.comparisonOperator == ComparisonOperator.Equals <==> g.mode == AnimatorConditionMode.Equals)
  {
  }

  /** A threshold of 0.5 passes the zero test and yields gesture 0. */
  lemma FractionalThresholdYieldsGestureZero(m: AnimatorConditionMode, s: AnimatorState)
    ensures GuardAccepted(AnimatorCondition(m, "GestureLeft", 0.5))
    ensures var t := AnimatorStateTransition([AnimatorCondition(m, "GestureLeft", 0.5)], s);
      && (!s.motion.BlendTree? ==> BranchFor(t).Some?)
      && (BranchFor(t).Some? ==> BranchFor(t).value.conditions == [Condition(Left, 0, OperatorOf(m))])
  {
  }

  /**
   * A blend tree with at least two children sets Base exactly when child 0
   * is a clip and Right exactly when child 1 is a clip; Left and the
   * trigger flags stay unset.
   */
  lemma BlendTreeSlots(t: AnimatorStateTransition)
    requires GuardsAccepted(t.conditions)
    requires t.destinationState.motion.BlendTree? && |t.destinationState.motion.children| >= 2
    ensures BranchFor(t).Some?
    ensures var b, ch := BranchFor(t).value, t.destinationState.motion.children;
      && (b.baseAnimation.Some? <==> ch[0].Some?)
      && (ch[0].Some? ==> b.baseAnimation == Some(ch[0].value.id))
      && (b.rightHandAnimation.Some? <==> ch[1].Some?)
      && (ch[1].Some? ==> b.rightHandAnimation == Some(ch[1].value.id))
      && b.leftHandAnimation.None? && !b.isLeftTriggerUsed && !b.isRightTriggerUsed
  {
  }

  /** Children of a blend tree after the second never affect the branch. */
  lemma BlendTreeIgnoresLaterChildren(t: AnimatorStateTransition, later: seq<Option<AnimationClip>>)
    requires t.destinationState.motion.BlendTree? && |t.destinationState.motion.children| >= 2
    ensures var ch := t.destinationState.motion.children;
      BranchFor(t) == BranchFor(t.(destinationState := t.destinationState.(motion := BlendTree(ch[..2] + later))))
  {
  }

  /** A plain clip fills only the Base slot, with that clip. */
  lemma PlainClipSlots(t: AnimatorStateTransition)
    requires GuardsAccepted(t.conditions)
    requires t.destinationState.motion.Clip? && !t.destinationState.timeParameterActive
    ensures BranchFor(t).Some?
    ensures var b := BranchFor(t).value;
      && b.baseAnimation == Some(t.destinationState.motion.clip.id)
      && b.leftHandAnimation.None? && b.rightHandAnimation.None?
      && !b.isLeftTriggerUsed && !b.isRightTriggerUsed
  {
  }

  /**
   * A time-parameter clip puts its first half in Base and its second half in
   * Left when some guard is on GestureLeft, in Right otherwise; exactly the
   * matching trigger flag is set.
   */
  lemma TimedClipSlots(t: AnimatorStateTransition)
    requires SplitsClip(t)
    ensures BranchFor(t).Some?
    ensures var b, clip := BranchFor(t).value, t.destinationState.motion.clip;
      var isLeft := exists i | 0 <= i < |t.conditions| :: t.conditions[i].parameter == "GestureLeft";
      && b.baseAnimation == Some(FirstHalfOf(clip.id))
      && (isLeft ==> b.leftHandAnimation == Some(SecondHalfOf(clip.id)) && b.rightHandAnimation.None?)
      && (!isLeft ==> b.rightHandAnimation == Some(SecondHalfOf(clip.id)) && b.leftHandAnimation.None?)
      && b.isLeftTriggerUsed == isLeft
      && b.isRightTriggerUsed == !isLeft
  {
    var b := BranchFor(t).value;
    if exists i | 0 <= i < |t.conditions| :: t.conditions[i].parameter == "GestureLeft" {
      var i :| 0 <= i < |t.conditions| && t.conditions[i].parameter == "GestureLeft";
      assert b.conditions[i].hand == Left;
    }
  }

  /** A motion that is neither a blend tree nor a clip gives a branch with conditions and no animation. */
  lemma NoMotionNoAnimation(t: AnimatorStateTransition)
    requires GuardsAccepted(t.conditions) && t.destinationState.motion.NoMotion?
    ensures BranchFor(t).Some?
    ensures var b := BranchFor(t).value;
      && |b.conditions| == |t.conditions|
      && b.baseAnimation.None? && b.leftHandAnimation.None? && b.rightHandAnimation.None?
      && !b.isLeftTriggerUsed && !b.isRightTriggerUsed
  {
  }
}
