/** The story list of src/components/StoryList.tsx: the stories whose topic
    contains the search query, ignoring case. */
module StoryList {
  import opened Strings
  import opened Filtering
  import opened Types

  /** `story.topic.toLowerCase().includes(searchQuery.toLowerCase())`. */
  predicate TopicMatches(story: Story, query: string)
  {
    Contains(Lower(story.topic), Lower(query))
  }

  function Keep(query: string): Story -> bool
  {
    (s: Story) => TopicMatches(s, query)
  }

  /** `filteredStories`: keeps exactly the stories whose topic matches, in
      store order. The store keeps topics distinct, so no story repeats and
      membership and order pin the result down. */
  function FilteredStories(stories: seq<Story>, query: string): (r: seq<Story>)
    ensures forall s :: s in r <==> s in stories && TopicMatches(s, query)
    ensures IsSubsequence(r, stories)
  {
    FilterIsSubsequence(stories, Keep(query));
    Filter(stories, Keep(query))
  }

  /** An empty query lists every story. */
  lemma EmptyQueryShowsAll(stories: seq<Story>)
    ensures FilteredStories(stories, "") == stories
  {
    forall i | 0 <= i < |stories| ensures Keep("")(stories[i]) {
      ContainsEmpty(Lower(stories[i].topic));
    }
    FilterKeepsAll(stories, Keep(""));
  }

  /** Filtering the list again with the same query changes nothing. */
  lemma FilteredStoriesIdempotent(stories: seq<Story>, query: string)
    ensures FilteredStories(FilteredStories(stories, query), query) == FilteredStories(stories, query)
  {
    FilterIdempotent(stories, Keep(query));
  }

  /** The query is matched regardless of case. */
  lemma QueryCaseInsensitive(story: Story, query: string)
    ensures TopicMatches(story, query) <==> TopicMatches(story, Lower(query))
  {
    LowerIdempotent(query);
  }
}
