/** The story store of src/context/StoryContext.tsx: the list of stories
    and the operations that rewrite it. `crypto.randomUUID()` and
    `new Date()` are parameters of `AddStory`. */
module StoryContext {
  import opened Wrappers
  import opened Strings
  import opened Naming
  import opened Filtering
  import opened Types
  import ContextTag

  // ---------------------------------------------------------------------
  // generateBranchName
  // ---------------------------------------------------------------------

  /** `topic.toLowerCase().replace(/\s+/g, '_')`: a slug has no whitespace
      and no upper-case letter. */
  function Slug(topic: string): (r: string)
    ensures NoSpace(r) && IsLowerCase(r)
  {
    ReplaceSpaceRunsNoSpace(Lower(topic));
    LowerIsLowerCase(topic);
    ReplaceSpaceRunsLowerCase(Lower(topic));
    ReplaceSpaceRuns(Lower(topic))
  }

  /** Slugging a slug changes nothing. */
  lemma SlugIdempotent(topic: string)
    ensures Slug(Slug(topic)) == Slug(topic)
  {
    var s := Slug(topic);
    LowerOfLowerCase(s);
    ReplaceSpaceRunsOfNoSpace(s);
  }

  /** `${level}_${component}_feature${feature}_${slug}`. The level can be
      read back as the first `_`-segment; when the component has no
      underscore, the name splits into the level, the component, the feature
      field and the pieces of the slug. */
  function BranchName(topic: string, level: int, feature: int, component: string): (r: string)
    ensures FirstSegment(r, '_') == IntToString(level)
    ensures '_' !in component ==>
              Split(r, '_') == [IntToString(level), component, "feature" + IntToString(feature)] + Split(Slug(topic), '_')
  {
    var l, n, tail := IntToString(level), IntToString(feature), Slug(topic);
    var f := "feature" + n;
    IntToStringNoUnderscore(level);
    NameParts(l, component, n, tail);
    FirstSegmentConcat(l, component + ['_'] + (f + ['_'] + tail), '_');
    if '_' !in component then
      FeatureFieldNoUnderscore(feature);
      SplitFields(l, component, f, tail);
      l + "_" + component + "_feature" + n + "_" + tail
    else
      l + "_" + component + "_feature" + n + "_" + tail
  }

  /** The generated name of a selection's branch. */
  function SelectionBranch(topic: string, sel: Selection): string
  {
    BranchName(topic, sel.level, sel.feature, sel.component)
  }

  /** The feature field `feature<n>` has no underscore. */
  lemma FeatureFieldNoUnderscore(feature: int)
    ensures '_' !in "feature" + IntToString(feature)
  {
    IntToStringNoUnderscore(feature);
  }

  /** The four fields joined by underscores, grouped from the right. */
  lemma NameParts(l: string, component: string, n: string, tail: string)
    ensures l + "_" + component + "_feature" + n + "_" + tail
            == l + ['_'] + (component + ['_'] + (("feature" + n) + ['_'] + tail))
  {
  }

  /** Three underscore-free fields in front of a tail. */
  lemma SplitFields(a: string, b: string, c: string, tail: string)
    requires '_' !in a && '_' !in b && '_' !in c
    ensures Split(a + ['_'] + (b + ['_'] + (c + ['_'] + tail)), '_') == [a, b, c] + Split(tail, '_')
  {
    var tc := c + ['_'] + tail;
    var tb := b + ['_'] + tc;
    SplitFront(c, tail, '_');
    SplitFront(b, tc, '_');
    SplitFront(a, tb, '_');
    assert [a] + ([b] + ([c] + Split(tail, '_'))) == [a, b, c] + Split(tail, '_');
  }

  // ---------------------------------------------------------------------
  // the stories and their per-branch edits
  // ---------------------------------------------------------------------

  /** What every story built by `addStory` satisfies, and the store keeps:
      one branch status per selection, and no two stories share a topic. */
  ghost predicate StoriesValid(stories: seq<Story>)
  {
    && (forall i :: 0 <= i < |stories| ==> |stories[i].branchStatus| == |stories[i].selections|)
    && (forall i, j :: 0 <= i < j < |stories| ==> stories[i].topic != stories[j].topic)
  }

  /** The five `update...`/`deleteBranch` operations, as one edit of one
      branch status. */
  datatype Edit =
    | SetCreated(status: bool)   // updateBranchStatus
    | SetTag(tag: string)        // updateBranchTag
    | SetName(name: string)      // updateBranchName
    | SetBase(base: string)      // updateBaseBranch
    | Delete                     // deleteBranch

  /** The index is in range for the story (and, for a tag edit, names one of
      its selections). */
  predicate CanEdit(s: Story, idx: int, e: Edit)
  {
    0 <= idx < |s.branchStatus| && (e.SetTag? ==> idx < |s.selections|)
  }

  /** The edited branch status at `idx`. */
  function EditEntry(s: Story, idx: int, e: Edit): BranchStatus
    requires CanEdit(s, idx, e)
  {
    var b := s.branchStatus[idx];
    match e
    case SetCreated(status) => b.(created := status)
    case SetTag(tag) => b.(selectedTag := tag, branchName := SelectionBranch(s.topic, s.selections[idx]))
    case SetName(name) => b.(branchName := name)
    case SetBase(base) => b.(baseBranch := Some(base))
    case Delete => b.(created := false, baseBranch := None)
  }

  /** `{ ...story, branchStatus: newBranchStatus }` with only `idx` replaced. */
  function EditStory(s: Story, idx: int, e: Edit): Story
    requires CanEdit(s, idx, e)
  {
    s.(branchStatus := s.branchStatus[idx := EditEntry(s, idx, e)])
  }

  /** Every story with that id can take the edit. */
  predicate Editable(stories: seq<Story>, id: string, idx: int, e: Edit)
  {
    forall i :: 0 <= i < |stories| && stories[i].id == id ==> CanEdit(stories[i], idx, e)
  }

  /** `prev.map(story => story.id === storyId ? edited : story)`. */
  function EditStories(stories: seq<Story>, id: string, idx: int, e: Edit): (r: seq<Story>)
    requires Editable(stories, id, idx, e)
    ensures |r| == |stories|
  {
    seq(|stories|, i requires 0 <= i < |stories| =>
      if stories[i].id == id then EditStory(stories[i], idx, e) else stories[i])
  }

  /** An edit touches only the stories with that id, and in those only the
      entry at `idx`: the count and order of the stories, every other field
      and every other entry are unchanged. */
  lemma EditOnlyTarget(stories: seq<Story>, id: string, idx: int, e: Edit)
    requires Editable(stories, id, idx, e)
    ensures var r := EditStories(stories, id, idx, e);
            && |r| == |stories|
            && (forall i :: 0 <= i < |r| && stories[i].id != id ==> r[i] == stories[i])
            && (forall i :: 0 <= i < |r| && stories[i].id == id ==>
                  && r[i] == stories[i].(branchStatus := r[i].branchStatus)
                  && |r[i].branchStatus| == |stories[i].branchStatus|
                  && r[i].branchStatus[idx] == EditEntry(stories[i], idx, e)
                  && (forall j :: 0 <= j < |r[i].branchStatus| && j != idx ==>
                        r[i].branchStatus[j] == stories[i].branchStatus[j]))
  {
  }

  /** An edit keeps the store's invariant. */
  lemma EditKeepsValid(stories: seq<Story>, id: string, idx: int, e: Edit)
    requires StoriesValid(stories) && Editable(stories, id, idx, e)
    ensures StoriesValid(EditStories(stories, id, idx, e))
  {
    var r := EditStories(stories, id, idx, e);
    assert forall i :: 0 <= i < |r| ==> r[i].topic == stories[i].topic && r[i].selections == stories[i].selections;
  }

  /** `updateBranchStatus` changes only `created`. */
  lemma SetCreatedEntry(s: Story, idx: int, status: bool)
    requires CanEdit(s, idx, SetCreated(status))
    ensures var b, b' := s.branchStatus[idx], EditEntry(s, idx, SetCreated(status));
            b'.created == status && b'.selectedTag == b.selectedTag
            && b'.branchName == b.branchName && b'.baseBranch == b.baseBranch
  {
  }

  /** `updateBranchTag` sets the tag and regenerates the name from the topic
      and the selection; `created` and the base branch stay. */
  lemma SetTagEntry(s: Story, idx: int, tag: string)
    requires CanEdit(s, idx, SetTag(tag))
    ensures var b, b' := s.branchStatus[idx], EditEntry(s, idx, SetTag(tag));
            var sel := s.selections[idx];
            b'.selectedTag == tag && b'.branchName == BranchName(s.topic, sel.level, sel.feature, sel.component)
            && b'.created == b.created && b'.baseBranch == b.baseBranch
  {
  }

  /** `deleteBranch` clears `created` and the base branch and keeps the tag
      and the name. */
  lemma DeleteEntry(s: Story, idx: int)
    requires CanEdit(s, idx, Delete)
    ensures var b, b' := s.branchStatus[idx], EditEntry(s, idx, Delete);
            !b'.created && b'.baseBranch.None? && b'.selectedTag == b.selectedTag && b'.branchName == b.branchName
  {
  }

  /** A tag edit overrides any name set before it: renaming and then
      re-tagging is the same as re-tagging alone. */
  lemma TagOverridesName(stories: seq<Story>, id: string, idx: int, name: string, tag: string)
    requires Editable(stories, id, idx, SetName(name)) && Editable(stories, id, idx, SetTag(tag))
    ensures Editable(EditStories(stories, id, idx, SetName(name)), id, idx, SetTag(tag))
    ensures EditStories(EditStories(stories, id, idx, SetName(name)), id, idx, SetTag(tag))
            == EditStories(stories, id, idx, SetTag(tag))
  {
    var named := EditStories(stories, id, idx, SetName(name));
    var a := EditStories(named, id, idx, SetTag(tag));
    var b := EditStories(stories, id, idx, SetTag(tag));
    forall i | 0 <= i < |stories| ensures a[i] == b[i] {
      if stories[i].id == id {
        assert a[i].branchStatus == b[i].branchStatus;
      }
    }
  }

  /** The predicate `story => story.id !== storyId`. */
  function OtherId(id: string): Story -> bool
  {
    (s: Story) => s.id != id
  }

  /** `prev.filter(story => story.id !== storyId)`: drops every story with
      the id, keeps every other one, and keeps the order of those it keeps.
      Under `StoriesValid` no story repeats, so this pins the result down. */
  function Remove(stories: seq<Story>, id: string): (r: seq<Story>)
    ensures forall s :: s in r <==> s in stories && s.id != id
    ensures IsSubsequence(r, stories)
  {
    FilterIsSubsequence(stories, OtherId(id));
    Filter(stories, OtherId(id))
  }

  /** Removing stories keeps the store's invariant. */
  lemma RemoveKeepsValid(stories: seq<Story>, id: string)
    requires StoriesValid(stories)
    ensures StoriesValid(Remove(stories, id))
  {
    var r := Remove(stories, id);
    assert forall i :: 0 <= i < |r| ==> r[i] in stories;
    assert NoDuplicates(stories) by {
      forall i, j | 0 <= i < j < |stories| ensures stories[i] != stories[j] {
        assert stories[i].topic != stories[j].topic;
      }
    }
    FilterNoDuplicates(stories, OtherId(id));
    DistinctTopicsOfMembers(stories, r);
  }

  /** Distinct stories drawn from a store with distinct topics have
      distinct topics. */
  lemma DistinctTopicsOfMembers(stories: seq<Story>, r: seq<Story>)
    requires forall i, j :: 0 <= i < j < |stories| ==> stories[i].topic != stories[j].topic
    requires NoDuplicates(r)
    requires forall i :: 0 <= i < |r| ==> r[i] in stories
    ensures forall i, j :: 0 <= i < j < |r| ==> r[i].topic != r[j].topic
  {
    forall i, j | 0 <= i < j < |r| ensures r[i].topic != r[j].topic {
      var i' :| 0 <= i' < |stories| && stories[i'] == r[i];
      var j' :| 0 <= j' < |stories| && stories[j'] == r[j];
      assert r[i] != r[j];
      if i' < j' {
        assert stories[i'].topic != stories[j'].topic;
      } else {
        assert stories[j'].topic != stories[i'].topic;
      }
    }
  }

  // ---------------------------------------------------------------------
  // addStory
  // ---------------------------------------------------------------------

  /** The branch statuses `addStory` creates: one per selection, created,
      all with the same tag and base branch, named from the unique topic. */
  function InitialStatuses(sels: seq<Selection>, topic: string, tag: string, base: string): (r: seq<BranchStatus>)
    ensures |r| == |sels|
  {
    seq(|sels|, i requires 0 <= i < |sels| => BranchStatus(true, tag, SelectionBranch(topic, sels[i]), Some(base)))
  }

  /** Appending a story with a fresh topic and one status per selection
      keeps the store's invariant. */
  lemma AppendKeepsValid(stories: seq<Story>, story: Story)
    requires StoriesValid(stories)
    requires story.topic !in Topics(stories) && |story.branchStatus| == |story.selections|
    ensures StoriesValid(stories + [story])
  {
    var r := stories + [story];
    forall i | 0 <= i < |stories| ensures r[i].topic != story.topic {
      assert Topics(stories)[i] == stories[i].topic;
    }
  }

  /** The stories the store holds. */
  class StoryStore {
    var stories: seq<Story>

    ghost predicate Valid()
      reads this
    {
      StoriesValid(stories)
    }

    constructor()
      ensures stories == [] && Valid()
    {
      stories := [];
    }

    /** `getUniqueTopicName`: `topic` when no story has it, else the first
        free `topic_k`. */
    method UniqueTopicName(topic: string) returns (name: string)
      ensures name !in Topics(stories)
      ensures exists k: nat :: name == Candidate(topic, k)
                && forall j :: 0 <= j < k ==> Candidate(topic, j) in Topics(stories)
    {
      var k;
      name, k := FirstUnused(topic, Topics(stories));
    }

    /** `addStory`: append one story, with a unique topic, the store's stable
        tag and one created branch per selection, based on the part of the
        issue name before its first `_`. */
    method AddStory(input: NewStoryInput, id: string, createdAt: int)
      requires Valid()
      modifies this
      ensures Valid()
      ensures |stories| == |old(stories)| + 1 && stories[..|old(stories)|] == old(stories)
      ensures var s := stories[|old(stories)|];
              && s.id == id && s.createdAt == createdAt
              && s.issueName == input.issueName && s.selections == input.selections
              && s.topic !in Topics(old(stories))
              && (exists k: nat :: s.topic == Candidate(input.topic, k)
                    && forall j :: 0 <= j < k ==> Candidate(input.topic, j) in Topics(old(stories)))
              && s.branchStatus == InitialStatuses(input.selections, s.topic, "v3.0.0", FirstSegment(input.issueName, '_'))
    {
      var baseBranch := FirstSegment(input.issueName, '_');
      ContextTag.BuiltinChoice();
      var stableTag := ContextTag.MostStableTag(ContextTag.BuiltinTags);
      var uniqueTopic := UniqueTopicName(input.topic);
      var story := Story(id, uniqueTopic, input.issueName, createdAt, input.selections,
                         InitialStatuses(input.selections, uniqueTopic, stableTag, baseBranch));
      AppendKeepsValid(stories, story);
      ghost var before := stories;
      stories := stories + [story];
      assert stories[..|before|] == before;
    }

    /** One of the five per-branch operations. */
    method ApplyEdit(id: string, idx: int, e: Edit)
      requires Valid() && Editable(stories, id, idx, e)
      modifies this
      ensures Valid()
      ensures stories == EditStories(old(stories), id, idx, e)
    {
      EditKeepsValid(stories, id, idx, e);
      stories := EditStories(stories, id, idx, e);
    }

    method UpdateBranchStatus(id: string, idx: int, status: bool)
      requires Valid() && Editable(stories, id, idx, SetCreated(status))
      modifies this
      ensures Valid()
      ensures stories == EditStories(old(stories), id, idx, SetCreated(status))
    {
      ApplyEdit(id, idx, SetCreated(status));
    }

    method UpdateBranchTag(id: string, idx: int, tag: string)
      requires Valid() && Editable(stories, id, idx, SetTag(tag))
      modifies this
      ensures Valid()
      ensures stories == EditStories(old(stories), id, idx, SetTag(tag))
    {
      ApplyEdit(id, idx, SetTag(tag));
    }

    method UpdateBranchName(id: string, idx: int, name: string)
      requires Valid() && Editable(stories, id, idx, SetName(name))
      modifies this
      ensures Valid()
      ensures stories == EditStories(old(stories), id, idx, SetName(name))
    {
      ApplyEdit(id, idx, SetName(name));
    }

    method UpdateBaseBranch(id: string, idx: int, base: string)
      requires Valid() && Editable(stories, id, idx, SetBase(base))
      modifies this
      ensures Valid()
      ensures stories == EditStories(old(stories), id, idx, SetBase(base))
    {
      ApplyEdit(id, idx, SetBase(base));
    }

    method DeleteBranch(id: string, idx: int)
      requires Valid() && Editable(stories, id, idx, Delete)
      modifies this
      ensures Valid()
      ensures stories == EditStories(old(stories), id, idx, Delete)
    {
      ApplyEdit(id, idx, Delete);
    }

    /** `removeStory`. */
    method RemoveStory(id: string)
      requires Valid()
      modifies this
      ensures Valid()
      ensures stories == Remove(old(stories), id)
    {
      RemoveKeepsValid(stories, id);
      stories := Remove(stories, id);
    }
  }
}
