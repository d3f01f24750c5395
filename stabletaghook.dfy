/** The `useStableTag` hook of src/hooks/useStableTag.ts: a fixed tag list
    that every call sorts in place (highest major first, then lowest patch,
    minor ignored) before returning its front. */
module StableTagHook {
  import opened Strings
  import opened Tags
  import opened Sorting

  /** The numbers the comparator reads out of a tag. Only well-formed tags
      reach it; any other string is given the key 0.0.0. */
  function Key(t: string): Version
  {
    if WellFormed(t) then VersionOf(t) else Version(0, 0, 0)
  }

  /** The comparator `mb[0] - ma[0] || ma[2] - mb[2]`. */
  function Compare(a: string, b: string): int
  {
    var ma, mb := Key(a), Key(b);
    if mb.major - ma.major != 0 then mb.major - ma.major else ma.patch - mb.patch
  }

  /** `a` sorts behind `b`. */
  predicate After(a: string, b: string)
  {
    Compare(a, b) > 0
  }

  lemma AfterIsOrder()
    ensures StrictWeakOrder(After)
  {
  }

  /** The front of the sort is an input tag with the highest major and,
      among tags of that major, the lowest patch. */
  lemma SortFrontBest(tags: seq<string>)
    requires |tags| > 0
    ensures SortSeq(tags, After)[0] in tags
    ensures forall t :: t in tags ==>
              var best := Key(SortSeq(tags, After)[0]);
              Key(t).major <= best.major && (Key(t).major == best.major ==> best.patch <= Key(t).patch)
  {
    AfterIsOrder();
    SortSeqFirst(tags, After);
  }

  /** Two arrangements of the same tags give fronts with the same major and
      patch, so consecutive calls agree on them. */
  lemma SameTagsSameKey(s: seq<string>, t: seq<string>)
    requires |s| > 0 && multiset(s) == multiset(t)
    ensures |t| > 0
    ensures Key(SortSeq(s, After)[0]).major == Key(SortSeq(t, After)[0]).major
    ensures Key(SortSeq(s, After)[0]).patch == Key(SortSeq(t, After)[0]).patch
  {
    assert s[0] in multiset(t);
    SortFrontBest(s);
    SortFrontBest(t);
    var x, y := SortSeq(s, After)[0], SortSeq(t, After)[0];
    assert x in multiset(t) && y in multiset(s);
  }

  /** Sorting the already sorted list again returns the same front: the
      second of two consecutive calls returns the very same tag. */
  lemma SecondCallSameTag(s: seq<string>)
    requires |s| > 0
    ensures SortSeq(SortSeq(s, After), After)[0] == SortSeq(s, After)[0]
  {
    AfterIsOrder();
    SortSeqIdempotent(s, After);
  }

  /** The hook's built-in list. */
  const BuiltinTags: seq<string> := ["v1.0.0", "v2.0.0", "v1.5.0", "v2.5.0", "v1.6.0", "v3.0.0"]

  /** The majors of the built-in tags: only `v3.0.0` has major 3, every
      other tag has a lower one. */
  lemma BuiltinKeys()
    ensures Key("v3.0.0").major == 3
    ensures forall t :: t in BuiltinTags && t != "v3.0.0" ==> Key(t).major < 3
  {
    ShortKey("v3.0.0");
    forall i | 0 <= i < |BuiltinTags| && BuiltinTags[i] != "v3.0.0"
      ensures Key(BuiltinTags[i]).major < 3
    {
      ShortKey(BuiltinTags[i]);
    }
  }

  /** The major of a short tag is its first digit. */
  lemma ShortKey(t: string)
    requires ShortShape(t)
    ensures Key(t).major == (t[1] as int) - ('0' as int)
  {
    ShortTag(t);
  }

  /** However the built-in list has been rearranged by earlier calls, the
      hook returns `v3.0.0`. */
  lemma BuiltinFront(s: seq<string>)
    requires multiset(s) == multiset(BuiltinTags)
    ensures |s| > 0 && SortSeq(s, After)[0] == "v3.0.0"
  {
    assert "v3.0.0" in multiset(s);
    SortFrontBest(s);
    BuiltinKeys();
    var f := SortSeq(s, After)[0];
    assert f in multiset(BuiltinTags);
  }

  /** The hook's closure: the tag array it keeps between calls. */
  class StableTagSource {
    var dummyTags: array<string>

    /** The array always holds the built-in tags, in some order. */
    ghost predicate Valid()
      reads this, dummyTags
    {
      multiset(dummyTags[..]) == multiset(BuiltinTags)
    }

    constructor()
      ensures Valid() && fresh(dummyTags) && dummyTags[..] == BuiltinTags
    {
      var a := ToArray(BuiltinTags);
      dummyTags := a;
    }

    /** `getMostStableTag`: sort the array in place and return its front. */
    method GetMostStableTag() returns (tag: string)
      requires Valid()
      modifies dummyTags
      ensures Valid()
      ensures dummyTags[..] == SortSeq(old(dummyTags[..]), After)
      ensures multiset(dummyTags[..]) == multiset(old(dummyTags[..]))
      ensures dummyTags.Length > 0 && tag == dummyTags[0]
      ensures tag == "v3.0.0"
    {
      ghost var before := dummyTags[..];
      InsertionSort(dummyTags, After);
      BuiltinFront(before);
      tag := dummyTags[0];
    }
  }
}
