/**
 * Splitting a clip that is played with a time parameter into two halves:
 * the first half loses the key at index 1 of every curve that has at least
 * two keys, the second half loses the key at index 0 of every such curve.
 */
module ClipSplitter {
  import opened Animator

  /** The curve with the key at `index` removed (AnimationCurve.RemoveKey). */
  function RemoveKey(c: Curve, index: nat): (r: Curve)
    requires index < |c|
    ensures |r| == |c| - 1
    ensures forall j | 0 <= j < index :: r[j] == c[j]
    ensures forall j | index <= j < |r| :: r[j] == c[j + 1]
  {
    c[..index] + c[index + 1..]
  }

  /** A curve as one half of a split leaves it. */
  function TrimmedCurve(c: Curve, index: nat): (r: Curve)
    requires index <= 1
    ensures |c| >= 2 ==> |r| == |c| - 1 && r[..index] == c[..index]
    ensures |c| < 2 ==> r == c
  {
    if |c| >= 2 then RemoveKey(c, index) else c
  }

  /**
   * The copy of `clip` in which every curve with at least two keys has lost
   * its key at `index`; the copy is written back curve by curve.
   */
  method TrimCurves(clip: AnimationClip, index: nat) returns (copy: AnimationClip)
    requires index <= 1
    ensures copy.id == clip.id
    ensures |copy.curves| == |clip.curves|
    ensures forall j | 0 <= j < |clip.curves| ::
      |clip.curves[j]| >= 2 ==> copy.curves[j] == RemoveKey(clip.curves[j], index)
    ensures forall j | 0 <= j < |clip.curves| ::
      |clip.curves[j]| < 2 ==> copy.curves[j] == clip.curves[j]
  {
    copy := clip;
    var j := 0;
    while j < |copy.curves|
      invariant j <= |copy.curves| == |clip.curves|
      invariant copy.id == clip.id
      invariant forall m | 0 <= m < j :: copy.curves[m] == TrimmedCurve(clip.curves[m], index)
      invariant forall m | j <= m < |clip.curves| :: copy.curves[m] == clip.curves[m]
    {
      var curve := copy.curves[j];
      if |curve| >= 2 {
        curve := RemoveKey(curve, index);
        copy := copy.(curves := copy.curves[j := curve]);
      }
      j := j + 1;
    }
  }

  /**
   * The pair a split produces: the first half drops key 1 and the second
   * half drops key 0 of every curve with at least two keys. Each half is a
   * new asset, identified after its source clip.
   */
  function Halves(clip: AnimationClip): (halves: (AnimationClip, AnimationClip))
    ensures halves.0.id == FirstHalfOf(clip.id) && halves.1.id == SecondHalfOf(clip.id)
    ensures |halves.0.curves| == |halves.1.curves| == |clip.curves|
  {
    (AnimationClip(FirstHalfOf(clip.id), seq(|clip.curves|, j requires 0 <= j < |clip.curves| => TrimmedCurve(clip.curves[j], 1))),
     AnimationClip(SecondHalfOf(clip.id), seq(|clip.curves|, j requires 0 <= j < |clip.curves| => TrimmedCurve(clip.curves[j], 0))))
  }

  /** Both halves keep every curve; a curve with at least two keys loses exactly one. */
  lemma HalvesCurves(clip: AnimationClip, j: nat)
    requires j < |clip.curves|
    ensures |Halves(clip).0.curves| == |Halves(clip).1.curves| == |clip.curves|
    ensures |clip.curves[j]| >= 2 ==>
      && Halves(clip).0.curves[j] == clip.curves[j][..1] + clip.curves[j][2..]
      && Halves(clip).1.curves[j] == clip.curves[j][1..]
      && |Halves(clip).0.curves[j]| == |Halves(clip).1.curves[j]| == |clip.curves[j]| - 1
    ensures |clip.curves[j]| < 2 ==>
      Halves(clip).0.curves[j] == Halves(clip).1.curves[j] == clip.curves[j]
  {
  }

  /** A two-key curve [a, b] splits into [a] and [b]. */
  lemma HalvesOfTwoKeys(clip: AnimationClip, j: nat, a: Keyframe, b: Keyframe)
    requires j < |clip.curves| && clip.curves[j] == [a, b]
    ensures Halves(clip).0.curves[j] == [a]
    ensures Halves(clip).1.curves[j] == [b]
  {
  }

  /**
   * The halves are distinct assets, and two different clips never share a
   * derived asset. This holds by the naming of derived assets alone: the
   * constructors FirstHalfOf and SecondHalfOf are distinct and injective.
   */
  lemma HalvesDistinct(c: AnimationClip, d: AnimationClip)
    ensures Halves(c).0.id != Halves(c).1.id
    ensures Halves(c).0.id != Halves(d).1.id
    ensures c.id != d.id ==> Halves(c).0.id != Halves(d).0.id && Halves(c).1.id != Halves(d).1.id
  {
  }
}
