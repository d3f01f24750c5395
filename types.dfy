/** The record shapes of src/types.ts. Dates and UUIDs are opaque values
    handed in by the caller, so `createdAt` is a number and `id` a string. */
module Types {
  import opened Wrappers

  /** One (level, feature, component) cell a story asks a branch for. */
  datatype Selection = Selection(level: int, feature: int, component: string)

  /** The branch of one selection; `baseBranch` is optional. */
  datatype BranchStatus = BranchStatus(
    created: bool,
    selectedTag: string,
    branchName: string,
    baseBranch: Option<string>)

  datatype Story = Story(
    id: string,
    topic: string,
    issueName: string,
    createdAt: int,
    selections: seq<Selection>,
    branchStatus: seq<BranchStatus>)

  /** The story fields a caller of `addStory` provides. */
  datatype NewStoryInput = NewStoryInput(topic: string, issueName: string, selections: seq<Selection>)

  function Topics(stories: seq<Story>): (r: seq<string>)
    ensures |r| == |stories|
    ensures forall i :: 0 <= i < |r| ==> r[i] == stories[i].topic
  {
    seq(|stories|, i requires 0 <= i < |stories| => stories[i].topic)
  }
}
