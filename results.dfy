/** Failure values of the graph generator and the graph container.
    The generator reports every failure by raising an exception; here it is an `Err`. */
module Results {

  datatype Option<+T> = None | Some(value: T)

  datatype Error =
    /** base_nodes < 2 */
    | BaseNodesTooSmall
    /** max_edges < 1 */
    | MaxEdgesNotPositive
    /** both or neither of weight_choices and weight_range were given */
    | NotExactlyOneWeightSpec
    /** weight_range with lo > hi */
    | WeightRangeInverted
    /** random.choice on an empty weight_choices list */
    | EmptyWeightChoices
    /** random.sample asked for more destinations than there are candidates */
    | SampleLargerThanPopulation
    /** a path that is empty, or does not start at start or end at end */
    | PathEndpoints
    /** a path step src -> dst that is not an edge */
    | EdgeAbsent(src: nat, dst: nat)
    /** Dijkstra's queue ran empty before end was popped */
    | NotConnected

  datatype Result<+T> = Ok(value: T) | Err(error: Error)
}
