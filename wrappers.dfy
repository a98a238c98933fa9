/** Option/Result wrappers and the exceptions the engine can raise. */
module Wrappers {

  datatype Option<+T> = None | Some(value: T)

  /** The Python exceptions the modelled code raises, one constructor per raise site. */
  datatype Error =
    | WrongBorderId        // get_frontier_nodes: ValueError("Wrong border id")
    | OccupiedTarget       // get_dijkstra: ValueError("Can't compute a path to occupied node")
    | UnboundDeltas        // get_direction: possible_deltas read before it is bound (UnboundLocalError)
    | VerticalAssertion    // get_direction: assert len(vertical_deltas) == 1
    | GiveUp               // get_direction: ValueError("Give up on position")
    | ReachabilityWalk     // find_deepest_position: q.not_empty() is not callable (TypeError)
    | MissingTarget        // _targeting_priority: attacking_unit['target'] absent (KeyError)
    | OffensivePlacement   // add_unit: mobile unit off its team's borders (ValueError)
    | DefensivePlacement   // add_unit: structure on the wrong half (ValueError)

  datatype Result<+T> = Ok(value: T) | Err(error: Error)

  datatype Outcome = Pass | Fail(error: Error)
}
