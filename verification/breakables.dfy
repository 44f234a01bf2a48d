/** A scene object whose children the gesture managers destroy one at a time (the
    foot-balance manager's "Chaos" object, the two-hand manager's "BloodCell"). */
module Breakables {
  import opened Engine

  /** `Missing` is an unassigned reference; `Holding` lists the children in
      sibling order, each by an identity. */
  datatype Container = Missing | Holding(children: seq<nat>)

  function ChildCount(c: Container): nat
  {
    match c
    case Missing => 0
    case Holding(children) => |children|
  }

  /** The outcome of one destruction attempt: the container afterwards and the
      sibling index of the destroyed child, if there was one. */
  datatype Removal = Removal(container: Container, removed: Option<nat>)

  /** Destroys the child at a caller-drawn sibling index, the model of
      Random.Range(0, childCount) followed by Destroy. A missing or empty container
      is left alone. */
  function DestroyRandomChild(c: Container, pick: nat): (r: Removal)
    requires ChildCount(c) > 0 ==> pick < ChildCount(c)
    ensures ChildCount(c) == 0 ==> r == Removal(c, None)
    ensures ChildCount(c) > 0 ==>
      && r.removed == Some(pick)
      && pick < ChildCount(c)
      && r.container == Holding(c.children[..pick] + c.children[pick + 1..])
      && ChildCount(r.container) == ChildCount(c) - 1
      && multiset(r.container.children) + multiset{c.children[pick]} == multiset(c.children)
    ensures ChildCount(c) > 0 ==>
      forall i :: 0 <= i < ChildCount(r.container) ==>
        r.container.children[i] == (if i < pick then c.children[i] else c.children[i + 1])
  {
    if ChildCount(c) == 0 then Removal(c, None)
    else
      var rest := c.children[..pick] + c.children[pick + 1..];
      assert c.children == c.children[..pick] + [c.children[pick]] + c.children[pick + 1..];
      Removal(Holding(rest), Some(pick))
  }
}
