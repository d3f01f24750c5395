/** The new-story form of src/pages/NewStory.tsx: its own stable-tag
    resolver, the selection toggle, and the submit validation with the
    unique-branch loop. Alerts become error results; the successful result
    carries what the form hands to `addStory` and the branch it logs. */
module NewStory {
  import opened Wrappers
  import opened Strings
  import opened Tags
  import opened Sorting
  import opened Naming
  import opened Types

  // ---------------------------------------------------------------------
  // getMostStableTag: highest major, then lowest minor, then lowest patch
  // ---------------------------------------------------------------------

  /** The form's comparator. */
  function Compare(a: ParsedTag, b: ParsedTag): int
  {
    if a.major != b.major then b.major - a.major
    else if a.minor != b.minor then a.minor - b.minor
    else a.patch - b.patch
  }

  /** `a` sorts behind `b` under the form's comparator. */
  predicate After(a: ParsedTag, b: ParsedTag)
  {
    Compare(a, b) > 0
  }

  lemma AfterIsOrder()
    ensures StrictWeakOrder(After)
  {
  }

  /** Two parsed tags neither of which sorts behind the other agree on
      major, minor and patch, and otherwise the front one has the higher
      major, or the same major and the lower minor, or the same major and
      minor and the lower patch. */
  lemma NotAfter(a: ParsedTag, b: ParsedTag)
    requires !After(a, b)
    ensures a.major >= b.major
    ensures a.major == b.major ==> a.minor <= b.minor
    ensures a.major == b.major && a.minor == b.minor ==> a.patch <= b.patch
  {
  }

  /** `getMostStableTag` over well-formed tags: `None` for an empty list,
      otherwise the tag first in the sorted order. */
  function MostStableTag(tags: seq<string>): (r: Option<string>)
    requires AllWellFormed(tags)
    ensures r.None? <==> |tags| == 0
  {
    if |tags| == 0 then None
    else Some(SortSeq(ParseAll(tags), After)[0].original)
  }

  /** The chosen tag is one of the inputs; no input has a higher major, none
      with that major has a lower minor, and none with that major and minor
      has a lower patch. */
  lemma MostStableTagBest(tags: seq<string>)
    requires AllWellFormed(tags) && |tags| > 0
    ensures MostStableTag(tags).value in tags
    ensures forall t :: t in tags ==>
              var best := VersionOf(MostStableTag(tags).value);
              var v := VersionOf(t);
              && v.major <= best.major
              && (v.major == best.major ==> best.minor <= v.minor)
              && (v.major == best.major && v.minor == best.minor ==> best.patch <= v.patch)
  {
    var parsed := ParseAll(tags);
    AfterIsOrder();
    SortSeqFirst(parsed, After);
    var first := SortSeq(parsed, After)[0];
    ParseAllMember(tags, first);
    forall t | t in tags
      ensures var best := VersionOf(first.original);
              var v := VersionOf(t);
              && v.major <= best.major
              && (v.major == best.major ==> best.minor <= v.minor)
              && (v.major == best.major && v.minor == best.minor ==> best.patch <= v.patch)
    {
      var i :| 0 <= i < |tags| && tags[i] == t;
      assert parsed[i] in parsed;
      NotAfter(first, parsed[i]);
    }
  }

  // ---------------------------------------------------------------------
  // the tag table
  // ---------------------------------------------------------------------

  /** The form's built-in tag table. */
  const BuiltinTags: map<string, seq<string>> :=
    map["main" := ["v1.0.0", "v1.0.1", "v2.0.0", "v2.0.1"], "dev" := ["v0.1.0", "v0.2.0"]]

  predicate TableWellFormed(table: map<string, seq<string>>)
  {
    forall b :: b in table ==> AllWellFormed(table[b])
  }

  /** `a` is strictly preferred to `b` by the form's order. */
  predicate Better(a: Version, b: Version)
  {
    a.major > b.major
    || (a.major == b.major && (a.minor < b.minor || (a.minor == b.minor && a.patch < b.patch)))
  }

  /** A tag preferred to every other input tag is the one chosen. */
  lemma UniqueBest(tags: seq<string>, target: string)
    requires AllWellFormed(tags) && target in tags
    requires forall i :: 0 <= i < |tags| ==> tags[i] == target || Better(VersionOf(target), VersionOf(tags[i]))
    ensures MostStableTag(tags) == Some(target)
  {
    MostStableTagBest(tags);
    var m := MostStableTag(tags).value;
    var i :| 0 <= i < |tags| && tags[i] == m;
    assert m == target || Better(VersionOf(target), VersionOf(m));
  }

  /** Four single-digit tags `v1.0.0`, `v1.0.1`, `v2.0.0`, `v2.0.1` (as
      characters): the third is chosen. */
  lemma MainLike(tags: seq<string>)
    requires |tags| == 4
    requires ShortShape(tags[0]) && ShortShape(tags[1]) && ShortShape(tags[2]) && ShortShape(tags[3])
    requires tags[0][1] == '1' && tags[1][1] == '1' && tags[2][1] == '2' && tags[3][1] == '2'
    requires tags[0][3] == '0' && tags[1][3] == '0' && tags[2][3] == '0' && tags[3][3] == '0'
    requires tags[0][5] == '0' && tags[1][5] == '1' && tags[2][5] == '0' && tags[3][5] == '1'
    ensures AllWellFormed(tags) && MostStableTag(tags) == Some(tags[2])
  {
    ShortTag(tags[0]);
    ShortTag(tags[1]);
    ShortTag(tags[2]);
    ShortTag(tags[3]);
    assert tags[0] != tags[2] && tags[1] != tags[2] && tags[3] != tags[2];
    UniqueBest(tags, tags[2]);
  }

  /** Two single-digit tags `v0.1.0`, `v0.2.0` (as characters): the first is
      chosen. */
  lemma DevLike(tags: seq<string>)
    requires |tags| == 2 && ShortShape(tags[0]) && ShortShape(tags[1])
    requires tags[0][1] == '0' && tags[1][1] == '0' && tags[0][3] == '1' && tags[1][3] == '2'
    requires tags[0][5] == '0' && tags[1][5] == '0'
    ensures AllWellFormed(tags) && MostStableTag(tags) == Some(tags[0])
  {
    ShortTag(tags[0]);
    ShortTag(tags[1]);
    assert tags[1] != tags[0];
    UniqueBest(tags, tags[0]);
  }

  /** On `main` the form picks `v2.0.0`. */
  lemma MainStableTag()
    ensures AllWellFormed(BuiltinTags["main"])
    ensures MostStableTag(BuiltinTags["main"]) == Some("v2.0.0")
  {
    MainLike(BuiltinTags["main"]);
  }

  /** On `dev` the form picks `v0.1.0`. */
  lemma DevStableTag()
    ensures AllWellFormed(BuiltinTags["dev"])
    ensures MostStableTag(BuiltinTags["dev"]) == Some("v0.1.0")
  {
    DevLike(BuiltinTags["dev"]);
  }

  /** Both built-in tag lists are well-formed. */
  lemma BuiltinTagsWellFormed()
    ensures TableWellFormed(BuiltinTags)
  {
    forall b | b in BuiltinTags ensures AllWellFormed(BuiltinTags[b]) {
      if b == "main" {
        MainStableTag();
      } else {
        DevStableTag();
      }
    }
  }

  // ---------------------------------------------------------------------
  // toggleSelection / isSelected
  // ---------------------------------------------------------------------

  /** `findIndex` of an equal triple: -1 when absent, else the first index. */
  function IndexOf(sels: seq<Selection>, sel: Selection): (i: int)
    ensures i == -1 <==> sel !in sels
    ensures i == -1 || (0 <= i < |sels| && sels[i] == sel && sel !in sels[..i])
    decreases |sels|
  {
    if sels == [] then -1
    else if sels[0] == sel then 0
    else
      var j := IndexOf(sels[1..], sel);
      if j == -1 then -1
      else
        assert sels[..j + 1] == [sels[0]] + sels[1..][..j];
        j + 1
  }

  /** The selection list after clicking `sel`: without its first occurrence
      when present, with it appended otherwise. Either way one copy of `sel`
      leaves or joins the list and nothing else does. */
  function Toggled(sels: seq<Selection>, sel: Selection): (r: seq<Selection>)
    ensures sel in sels ==> multiset(r) == multiset(sels) - multiset{sel}
    ensures sel !in sels ==> multiset(r) == multiset(sels) + multiset{sel}
  {
    var i := IndexOf(sels, sel);
    if i >= 0 then
      assert sels == sels[..i] + [sel] + sels[i + 1..];
      sels[..i] + sels[i + 1..]
    else sels + [sel]
  }

  /** Every triple occurs at most once. */
  predicate Distinct(sels: seq<Selection>)
  {
    forall i, j :: 0 <= i < j < |sels| ==> sels[i] != sels[j]
  }

  /** An absent triple is appended at the end. */
  lemma ToggleAbsent(sels: seq<Selection>, sel: Selection)
    requires sel !in sels
    ensures Toggled(sels, sel) == sels + [sel]
  {
  }

  /** A present triple loses exactly its first occurrence; the rest keep
      their order. */
  lemma TogglePresent(sels: seq<Selection>, sel: Selection)
    requires sel in sels
    ensures exists i :: 0 <= i < |sels| && sels[i] == sel && sel !in sels[..i]
                        && Toggled(sels, sel) == sels[..i] + sels[i + 1..]
  {
    var i := IndexOf(sels, sel);
    assert 0 <= i < |sels| && sels[i] == sel && sel !in sels[..i];
  }

  /** Toggling an absent triple twice restores the list. */
  lemma ToggleTwice(sels: seq<Selection>, sel: Selection)
    requires sel !in sels
    ensures Toggled(Toggled(sels, sel), sel) == sels
  {
    var once := sels + [sel];
    var i := IndexOf(once, sel);
    assert forall k :: 0 <= k < |sels| ==> once[k] == sels[k];
    assert i == |sels|;
    assert once[..i] == sels;
  }

  /** Removing position `i` keeps every element other than the one there. */
  lemma RemoveAtOthers(s: seq<Selection>, i: int, x: Selection)
    requires 0 <= i < |s| && s[i] != x
    ensures x in s[..i] + s[i + 1..] <==> x in s
  {
    var r := s[..i] + s[i + 1..];
    if x in r {
      var k :| 0 <= k < |r| && r[k] == x;
      if k < i { assert s[k] == x; } else { assert s[k + 1] == x; }
    }
    if x in s {
      var k :| 0 <= k < |s| && s[k] == x;
      if k < i { assert r[k] == s[k]; } else { assert r[k - 1] == s[k]; }
    }
  }

  /** Toggling keeps the list free of duplicate triples. */
  lemma ToggleKeepsDistinct(sels: seq<Selection>, sel: Selection)
    requires Distinct(sels)
    ensures Distinct(Toggled(sels, sel))
  {
    var i := IndexOf(sels, sel);
    if i >= 0 {
      var r := sels[..i] + sels[i + 1..];
      forall a, b | 0 <= a < b < |r| ensures r[a] != r[b] {
        var a' := if a < i then a else a + 1;
        var b' := if b < i then b else b + 1;
        assert r[a] == sels[a'] && r[b] == sels[b'];
      }
    } else {
      var r := sels + [sel];
      forall a, b | 0 <= a < b < |r| ensures r[a] != r[b] {
        if b < |sels| { assert r[a] == sels[a] && r[b] == sels[b]; }
        else { assert r[a] == sels[a]; }
      }
    }
  }

  /** Toggling flips whether the clicked triple is selected. */
  lemma ToggleFlipsSelected(sels: seq<Selection>, sel: Selection)
    requires Distinct(sels)
    ensures (sel in Toggled(sels, sel)) <==> sel !in sels
  {
    var i := IndexOf(sels, sel);
    if i >= 0 {
      var r := sels[..i] + sels[i + 1..];
      forall k | 0 <= k < |r| ensures r[k] != sel {
        if k < i { assert r[k] == sels[k]; } else { assert r[k] == sels[k + 1]; }
      }
    }
  }

  /** Toggling leaves every other triple selected or not as it was. */
  lemma ToggleKeepsOthers(sels: seq<Selection>, sel: Selection, other: Selection)
    requires other != sel
    ensures (other in Toggled(sels, sel)) <==> other in sels
  {
    var i := IndexOf(sels, sel);
    if i >= 0 {
      RemoveAtOthers(sels, i, other);
    }
  }

  // ---------------------------------------------------------------------
  // handleSubmit
  // ---------------------------------------------------------------------

  /** The topic pattern `^[^_]+_[^_]+$`: exactly one underscore, with
      something on both sides. */
  predicate TopicShape(topic: string)
  {
    exists i :: 0 < i < |topic| - 1 && UnderscoreAt(topic, i)
  }

  /** The only underscore of `topic` is at `i`. */
  predicate UnderscoreAt(topic: string, i: int)
  {
    0 <= i < |topic| && topic[i] == '_' && '_' !in topic[..i] && '_' !in topic[i + 1..]
  }

  /** A well-shaped topic splits into its two non-empty sides. */
  lemma TopicShapeSplit(topic: string, i: int)
    requires 0 < i < |topic| - 1 && UnderscoreAt(topic, i)
    ensures Split(topic, '_') == [topic[..i], topic[i + 1..]]
  {
    assert topic == topic[..i] + ['_'] + topic[i + 1..];
    SplitConcat(topic[..i], topic[i + 1..], '_');
    SplitNoSep(topic[..i], '_');
    SplitNoSep(topic[i + 1..], '_');
  }

  /** The topic pattern holds exactly when the topic splits on `_` into two
      non-empty pieces. */
  lemma TopicShapeIff(topic: string)
    ensures TopicShape(topic) <==>
            (var parts := Split(topic, '_'); |parts| == 2 && parts[0] != [] && parts[1] != [])
  {
    var parts := Split(topic, '_');
    if TopicShape(topic) {
      var i :| 0 < i < |topic| - 1 && UnderscoreAt(topic, i);
      TopicShapeSplit(topic, i);
    }
    if |parts| == 2 && parts[0] != [] && parts[1] != [] {
      JoinSplit(topic, '_');
      var i := |parts[0]|;
      assert topic == parts[0] + ['_'] + parts[1];
      assert topic[..i] == parts[0] && topic[i + 1..] == parts[1];
      assert UnderscoreAt(topic, i);
    }
  }

  /** The two sides of a well-shaped topic: the new branch and the base
      branch, neither empty nor containing `_`. */
  function Sides(topic: string): (r: (string, string))
    requires TopicShape(topic)
    ensures topic == r.0 + "_" + r.1
    ensures r.0 != [] && r.1 != [] && '_' !in r.0 && '_' !in r.1
  {
    TopicShapeIff(topic);
    JoinSplit(topic, '_');
    var parts := Split(topic, '_');
    assert Join(parts, '_') == parts[0] + ['_'] + parts[1];
    (parts[0], parts[1])
  }

  datatype SubmitError =
    | BadFormat                         // the topic does not match the pattern
    | Incomplete                        // an empty side or no selections: silent return
    | UnknownBaseBranch(base: string)   // the base branch has no tag list
    | NoStableTag                       // the base branch's tag list is empty

  /** What a successful submit produces: the story fields passed on to
      `addStory`, and the branch announced in the log line. */
  datatype Submission = Submission(topic: string, selections: seq<Selection>, branch: string)

  /** The names the unique-branch loop must avoid: the part before the first
      `_` of every existing topic. */
  function TakenBranches(stories: seq<Story>): (r: seq<string>)
    ensures |r| == |stories|
    ensures forall i :: 0 <= i < |r| ==> r[i] == FirstSegment(stories[i].topic, '_') && '_' !in r[i]
  {
    seq(|stories|, i requires 0 <= i < |stories| => FirstSegment(stories[i].topic, '_'))
  }

  /** No existing topic begins with `base_1` before its first `_`. */
  lemma FirstRetryFree(base: string, stories: seq<Story>)
    ensures Candidate(base, 1) !in TakenBranches(stories)
  {
    RetryHasUnderscore(base, 1);
  }

  /** Retried candidates contain `_` and the taken names do not, so the loop
      retries at most once: the unique branch is `newBranch` or
      `newBranch_1`. */
  lemma RetriesAtMostOnce(base: string, stories: seq<Story>, k: nat)
    requires forall j :: 0 <= j < k ==> Candidate(base, j) in TakenBranches(stories)
    ensures k <= 1
  {
    FirstRetryFree(base, stories);
  }

  /** The form's state: the topic box and the ticked selections. */
  class NewStoryForm {
    var topic: string
    var selections: seq<Selection>

    constructor()
      ensures topic == [] && selections == []
    {
      topic := [];
      selections := [];
    }

    method SetTopic(t: string)
      modifies this
      ensures topic == t && selections == old(selections)
    {
      topic := t;
    }

    /** `toggleSelection`. With no duplicate selections, the clicked triple
        flips between selected and not, and every other triple stays as it
        was. */
    method Toggle(sel: Selection)
      modifies this
      ensures selections == Toggled(old(selections), sel)
      ensures topic == old(topic)
      ensures Distinct(old(selections)) ==>
                Distinct(selections)
                && (IsSelected(sel.level, sel.feature, sel.component)
                    <==> !old(IsSelected(sel.level, sel.feature, sel.component)))
      ensures forall o :: o != sel ==>
                (IsSelected(o.level, o.feature, o.component) <==> old(IsSelected(o.level, o.feature, o.component)))
    {
      ghost var before := selections;
      selections := Toggled(selections, sel);
      if Distinct(before) {
        ToggleKeepsDistinct(before, sel);
        ToggleFlipsSelected(before, sel);
      }
      forall o | o != sel
        ensures IsSelected(o.level, o.feature, o.component) <==> o in before
      {
        ToggleKeepsOthers(before, sel, o);
      }
    }

    /** `isSelected`: some selection has the level, the feature and the
        component, which is to say the triple is in the list. */
    predicate IsSelected(level: int, feature: int, component: string): (b: bool)
      reads this
      ensures b <==> Selection(level, feature, component) in selections
    {
      exists i :: 0 <= i < |selections| && selections[i].level == level
                  && selections[i].feature == feature && selections[i].component == component
    }

    /** `handleSubmit` against the stories in the store and a tag table. */
    method Submit(stories: seq<Story>, table: map<string, seq<string>>) returns (r: Result<Submission, SubmitError>)
      requires TableWellFormed(table)
      ensures !TopicShape(topic) <==> r == Err(BadFormat)
      ensures TopicShape(topic) && |selections| == 0 ==> r == Err(Incomplete)
      ensures TopicShape(topic) && |selections| > 0 ==>
                var base := Sides(topic).1;
                && (base !in table <==> r == Err(UnknownBaseBranch(base)))
                && (base in table && table[base] == [] <==> r == Err(NoStableTag))
                && (base in table && table[base] != [] <==> r.Ok?)
      ensures r.Ok? ==>
                && TopicShape(topic) && Sides(topic).1 in table && table[Sides(topic).1] != []
                && var (newBranch, base) := Sides(topic);
                   var taken := TakenBranches(stories);
                   exists k: nat ::
                     && k <= 1
                     && Candidate(newBranch, k) !in taken
                     && (forall j :: 0 <= j < k ==> Candidate(newBranch, j) in taken)
                     && r.value == Submission(
                          Candidate(newBranch, k) + "_" + base,
                          selections,
                          Candidate(newBranch, k) + "_" + MostStableTag(table[base]).value)
    {
      if !TopicShape(topic) {
        return Err(BadFormat);
      }
      TopicShapeIff(topic);
      var parts := Split(topic, '_');
      var newBranch, baseBranch := parts[0], parts[1];
      if newBranch == [] || baseBranch == [] || |selections| == 0 {
        return Err(Incomplete);
      }
      if baseBranch !in table {
        return Err(UnknownBaseBranch(baseBranch));
      }
      var stableTag := MostStableTag(table[baseBranch]);
      if stableTag.None? {
        return Err(NoStableTag);
      }
      var taken := TakenBranches(stories);
      var uniqueBranch, k := FirstUnused(newBranch, taken);
      RetriesAtMostOnce(newBranch, stories, k);
      var finalBranch := uniqueBranch + "_" + stableTag.value;
      var finalTopic := uniqueBranch + "_" + baseBranch;
      r := Ok(Submission(finalTopic, selections, finalBranch));
    }
  }
}
