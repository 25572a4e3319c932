/**
 * The list the importer builds before sorting: the any-state transitions of
 * every layer, layers taken last to first, each layer's transitions in
 * declared order, converted to branches with the discarded ones dropped.
 */
module Pipeline {
  import opened Wrappers
  import opened Animator
  import opened FaceEmo
  import opened BranchBuilder

  /** The any-state transitions of the layers, layers in reverse order. */
  function Flatten(layers: seq<AnimatorControllerLayer>): (transitions: seq<AnimatorStateTransition>) {
    if layers == [] then []
    else Flatten(layers[1..]) + layers[0].anyStateTransitions
  }

  /** The branches the transitions yield, in order, discarded transitions dropped. */
  function Produced(ts: seq<AnimatorStateTransition>): (branches: seq<Branch>) {
    if ts == [] then []
    else
      Produced(ts[..|ts| - 1]) +
      match BranchFor(ts[|ts| - 1])
      case Some(b) => [b]
      case None => []
  }

  /** A single layer contributes its any-state transitions in declared order. */
  lemma FlattenOne(layer: AnimatorControllerLayer)
    ensures Flatten([layer]) == layer.anyStateTransitions
  {
  }

  /** The transitions of later layers come before those of earlier layers. */
  lemma {:induction false} FlattenAppend(a: seq<AnimatorControllerLayer>, b: seq<AnimatorControllerLayer>)
    ensures Flatten(a + b) == Flatten(b) + Flatten(a)
  {
    if a == [] {
      assert a + b == b;
    } else {
      assert (a + b)[1..] == a[1..] + b;
      FlattenAppend(a[1..], b);
    }
  }

  /** Conversion and filtering work transition by transition. */
  lemma {:induction false} ProducedAppend(a: seq<AnimatorStateTransition>, b: seq<AnimatorStateTransition>)
    ensures Produced(a + b) == Produced(a) + Produced(b)
    decreases |b|
  {
    if b == [] {
      assert a + b == a;
    } else {
      assert (a + b)[..|a + b| - 1] == a + b[..|b| - 1];
      ProducedAppend(a, b[..|b| - 1]);
    }
  }

  /** A branch is produced exactly when some transition converts to it. */
  lemma {:induction false} ProducedMembers(ts: seq<AnimatorStateTransition>, b: Branch)
    ensures b in Produced(ts) <==> exists i | 0 <= i < |ts| :: BranchFor(ts[i]) == Some(b)
  {
    if ts != [] {
      var init := ts[..|ts| - 1];
      ProducedMembers(init, b);
      if exists i | 0 <= i < |init| :: BranchFor(init[i]) == Some(b) {
        var i :| 0 <= i < |init| && BranchFor(init[i]) == Some(b);
        assert BranchFor(ts[i]) == Some(b);
      }
      if exists i | 0 <= i < |ts| :: BranchFor(ts[i]) == Some(b) {
        var i :| 0 <= i < |ts| && BranchFor(ts[i]) == Some(b);
        if i < |init| {
          assert BranchFor(init[i]) == Some(b);
        }
      }
    }
  }

  /** Two layers L1, L2 (declared order) yield L2's branches before L1's. */
  lemma TwoLayers(l1: AnimatorControllerLayer, l2: AnimatorControllerLayer)
    ensures Produced(Flatten([l1, l2])) == Produced(l2.anyStateTransitions) + Produced(l1.anyStateTransitions)
  {
    calc {
      Produced(Flatten([l1, l2]));
      { assert [l1, l2] == [l1] + [l2]; FlattenAppend([l1], [l2]); }
      Produced(Flatten([l2]) + Flatten([l1]));
      { FlattenOne(l1); FlattenOne(l2); }
      Produced(l2.anyStateTransitions + l1.anyStateTransitions);
      { ProducedAppend(l2.anyStateTransitions, l1.anyStateTransitions); }
      Produced(l2.anyStateTransitions) + Produced(l1.anyStateTransitions);
    }
  }

}
