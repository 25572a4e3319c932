/**
 * The parts of a Unity animator controller that the importer reads: layers,
 * their any-state transitions, the guards on a transition and the motion of
 * the destination state. Asset storage is not modelled; a clip is identified
 * by a `ClipId` and carries its curves.
 */
module Animator {
  import opened Wrappers

  /** One key of an animation curve. Its contents are never inspected. */
  datatype Keyframe = Keyframe(time: real, value: real)

  /** The keys of one animated property (one curve binding), in order. */
  type Curve = seq<Keyframe>

  /**
   * The identity of a clip asset. The two clips derived from a split are
   * new assets; they are named here after the clip they were split from.
   */
  datatype ClipId =
    | Asset(guid: nat)
    | FirstHalfOf(source: ClipId)
    | SecondHalfOf(source: ClipId)

  /** A clip: its identity and its curves, one per curve binding. */
  datatype AnimationClip = AnimationClip(id: ClipId, curves: seq<Curve>)

  /**
   * The motion of a state. A blend-tree child is `Some(clip)` when its motion
   * is a clip and `None` otherwise (a nested blend tree or no motion).
   * `NoMotion` is a state whose motion is neither a blend tree nor a clip.
   */
  datatype Motion =
    | BlendTree(children: seq<Option<AnimationClip>>)
    | Clip(clip: AnimationClip)
    | NoMotion

  /** Unity's comparison modes for a transition guard. */
  datatype AnimatorConditionMode = If | IfNot | Greater | Less | Equals | NotEqual

  /** A transition guard: the parameter it reads, its mode and its threshold. */
  datatype AnimatorCondition = AnimatorCondition(mode: AnimatorConditionMode, parameter: string, threshold: real)

  datatype AnimatorState = AnimatorState(motion: Motion, timeParameterActive: bool)

  datatype AnimatorStateTransition =
    AnimatorStateTransition(conditions: seq<AnimatorCondition>, destinationState: AnimatorState)

  /** A layer, reduced to the any-state transitions of its state machine. */
  datatype AnimatorControllerLayer = AnimatorControllerLayer(anyStateTransitions: seq<AnimatorStateTransition>)
}
