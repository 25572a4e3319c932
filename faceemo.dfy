/**
 * The parts of the FaceEmo menu that the importer writes: conditions,
 * branches and the mode that receives them.
 */
module FaceEmo {
  import opened Wrappers
  import opened Animator

  datatype Hand = Left | Right

  /** The position of a hand in the enum's declaration order: Left comes before Right. */
  function HandRank(h: Hand): (r: int)
    ensures 0 <= r <= 1
    ensures r == 0 <==> h == Left
  {
    if h == Left then 0 else 1
  }

  datatype ComparisonOperator = Equals | NotEqual

  /** A guard of a branch: which hand, which gesture value, and how to compare. */
  datatype Condition = Condition(hand: Hand, handGesture: int, comparisonOperator: ComparisonOperator)

  /** The animation slots of a branch. */
  datatype BranchAnimationType = Base | LeftSlot | RightSlot

  /**
   * A branch: its conditions in the order they were added, its three
   * animation slots (an animation is referred to by its clip's identity)
   * and the two trigger flags.
   */
  datatype Branch = Branch(
    conditions: seq<Condition>,
    baseAnimation: Option<ClipId>,
    leftHandAnimation: Option<ClipId>,
    rightHandAnimation: Option<ClipId>,
    isLeftTriggerUsed: bool,
    isRightTriggerUsed: bool)
  {
    function AddCondition(c: Condition): (added: Branch) {
      this.(conditions := conditions + [c])
    }

    function SetAnimation(animation: ClipId, slot: BranchAnimationType): (updated: Branch) {
      match slot
      case Base => this.(baseAnimation := Some(animation))
      case LeftSlot => this.(leftHandAnimation := Some(animation))
      case RightSlot => this.(rightHandAnimation := Some(animation))
    }
  }

  /** A freshly constructed branch: no conditions, no animations, no triggers. */
  const NewBranch := Branch([], None, None, None, false, false)

  /** A mode of the menu, with its display name and its ordered list of branches. */
  class Mode {
    var displayName: string
    var branches: seq<Branch>

    constructor ()
      ensures branches == []
    {
      displayName := "";
      branches := [];
    }

    /** Adds the items one by one at the end of the list, in order. */
    method AppendBranches(items: seq<Branch>)
      modifies this
      ensures branches == old(branches) + items
      ensures displayName == old(displayName)
    {
      for i := 0 to |items|
        invariant branches == old(branches) + items[..i]
        invariant displayName == old(displayName)
      {
        branches := branches + [items[i]];
      }
    }
  }
}
