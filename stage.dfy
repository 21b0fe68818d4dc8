// The sibling-order table the tutorial index's tree walk stamps: each
// node's order among its siblings ("priority").
module Stage {
  import opened Common

  class Stage {
    /** Sibling order of each node the walk has stamped. */
    var priority: map<NodeId, int>

    constructor ()
      ensures priority == map[]
    {
      priority := map[];
    }

    method SetPriority(n: NodeId, z: int)
      modifies this
      ensures priority == old(priority)[n := z]
    {
      priority := priority[n := z];
    }
  }
}
