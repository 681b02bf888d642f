/** The records of src/types/index.ts that the modelled logic reads, with instants in milliseconds. */
module Types {
  import opened Wrappers

  /** A task as the list views hold it (`ServiceRequest`). */
  datatype ServiceRequest = ServiceRequest(
    id: string,
    title: string,
    assigneeId: Option<string>,
    createdAt: int,
    completedAt: Option<int>,
    categoryId: Option<string>,
    order: Option<int>)

  datatype Category = Category(id: string, name: string, color: string)

  /** `requests.map(r => r.id)`. */
  function Ids(requests: seq<ServiceRequest>): (ids: seq<string>)
    ensures |ids| == |requests|
    ensures forall i :: 0 <= i < |requests| ==> ids[i] == requests[i].id
  {
    seq(|requests|, i requires 0 <= i < |requests| => requests[i].id)
  }
}
