/** The vector collection: points with an integer id and a payload. A payload key a point
    was stored without reads as absent. Vectors and their similarity scores are not part
    of this model. */
module Vectors {
  import opened Wrappers

  datatype Payload = Payload(
    text: Option<string>, doc: Option<string>, chunkIdx: Option<nat>, pageNum: Option<nat>,
    pageRange: Option<seq<nat>>, isMerged: Option<bool>)

  datatype VectorPoint = VectorPoint(id: nat, payload: Payload)
}
