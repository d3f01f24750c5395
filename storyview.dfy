/** The build rules of the story page, src/pages/StoryView.tsx: the
    expansion of a story's selections with the lower levels they need, the
    level gate, the build queue with its set of built levels and its
    completion step, and the two branch-name helpers. */
module StoryView {
  import opened Wrappers
  import opened Strings
  import opened Sorting
  import opened Types

  // ---------------------------------------------------------------------
  // fullSelections
  // ---------------------------------------------------------------------

  /** One build card: a selection of the story, or a filler standing for a
      lower level the story does not select. */
  datatype Card = Picked(sel: Selection) | Filler(lvl: int)
  {
    function Level(): int
    {
      if Picked? then sel.level else lvl
    }

    function Feature(): int
    {
      if Picked? then sel.feature else 0
    }

    function Component(): string
    {
      if Picked? then sel.component else "AutoGenerated-Level" + IntToString(lvl)
    }

    predicate Autogenerated()
    {
      Filler?
    }
  }

  /** The sort comparator `(a, b) => a.level - b.level`. */
  predicate LevelAfter(a: Selection, b: Selection)
  {
    a.level - b.level > 0
  }

  lemma LevelAfterIsOrder()
    ensures StrictWeakOrder(LevelAfter)
  {
  }

  /** Levels never decrease along `s`. */
  predicate ByLevel(s: seq<Selection>)
  {
    forall i, j :: 0 <= i < j < |s| ==> s[i].level <= s[j].level
  }

  /** The levels the cards cover: the `seenLevels` set. */
  function Levels(full: seq<Card>): set<int>
  {
    set c | c in full :: c.Level()
  }

  ghost predicate StrictlyIncreasing(full: seq<Card>)
  {
    forall i, j :: 0 <= i < j < |full| ==> full[i].Level() < full[j].Level()
  }

  /** `s[k]` is the first selection of `s` at its level. */
  ghost predicate FirstAtLevel(s: seq<Selection>, k: int)
  {
    0 <= k < |s| && forall j :: 0 <= j < k ==> s[j].level != s[k].level
  }

  /** Fillers sit at positive levels that no selection has. */
  ghost predicate FillersFree(full: seq<Card>, sorted: seq<Selection>)
  {
    forall i :: 0 <= i < |full| && full[i].Filler? ==>
      full[i].lvl >= 1 && forall k :: 0 <= k < |sorted| ==> sorted[k].level != full[i].lvl
  }

  /** Every picked card is the first selection at its level. */
  ghost predicate PickedFirst(full: seq<Card>, sorted: seq<Selection>)
  {
    forall i :: 0 <= i < |full| && full[i].Picked? ==>
      exists k :: FirstAtLevel(sorted, k) && sorted[k] == full[i].sel
  }

  /** Every selection's level has a picked card. */
  ghost predicate LevelsPicked(full: seq<Card>, sorted: seq<Selection>)
  {
    forall k :: 0 <= k < |sorted| ==>
      exists i :: 0 <= i < |full| && full[i].Picked? && full[i].Level() == sorted[k].level
  }

  ghost predicate AllPositive(s: seq<Selection>)
  {
    forall k :: 0 <= k < |s| ==> s[k].level >= 1
  }

  /** The card at position `i` has level `i + 1`. */
  ghost predicate Consecutive(full: seq<Card>)
  {
    forall i :: 0 <= i < |full| ==> full[i].Level() == i + 1
  }

  /** What the expansion promises about the cards built from `sorted`. */
  ghost predicate Expansion(full: seq<Card>, sorted: seq<Selection>)
  {
    && StrictlyIncreasing(full)
    && FillersFree(full, sorted)
    && PickedFirst(full, sorted)
    && LevelsPicked(full, sorted)
    && (AllPositive(sorted) ==>
          Consecutive(full) && |full| == (if |sorted| == 0 then 0 else sorted[|sorted| - 1].level))
  }

  /** The fillers for the levels `a` up to `b - 1`, in order. */
  function FillerRun(a: int, b: int): (r: seq<Card>)
    ensures |r| == if a < b then b - a else 0
    ensures forall i :: 0 <= i < |r| ==> r[i] == Filler(a + i)
    decreases b - a
  {
    if a < b then [Filler(a)] + FillerRun(a + 1, b) else []
  }

  /** The state of the expansion: the cards so far cover `seen`, rise
      strictly, stay at or below `top`, and cover every level from 1 to
      `top`. */
  ghost predicate Shape(full: seq<Card>, seen: set<int>, top: int)
  {
    && top >= 0
    && seen == Levels(full)
    && StrictlyIncreasing(full)
    && (forall i :: 0 <= i < |full| ==> full[i].Level() <= top)
    && (forall l :: 1 <= l <= top ==> l in seen)
  }

  /** Pushing a card above everything so far. */
  lemma ShapePush(full: seq<Card>, seen: set<int>, top: int, c: Card)
    requires Shape(full, seen, top)
    requires c.Level() == top + 1
    ensures Shape(full + [c], seen + {c.Level()}, top + 1)
  {
    var r := full + [c];
    assert Levels(r) == Levels(full) + {c.Level()} by {
      assert forall d :: d in r <==> d in full || d == c;
    }
  }

  /** Pushing a new card at a level of at most 0, above everything so far. */
  lemma ShapePushLow(full: seq<Card>, seen: set<int>, top: int, c: Card)
    requires Shape(full, seen, top)
    requires c.Level() <= 0 && forall i :: 0 <= i < |full| ==> full[i].Level() < c.Level()
    ensures Shape(full + [c], seen + {c.Level()}, top)
  {
    var r := full + [c];
    assert Levels(r) == Levels(full) + {c.Level()} by {
      assert forall d :: d in r <==> d in full || d == c;
    }
  }

  /** One more filler at the end of a run. */
  lemma FillerRunSnoc(a: int, b: int)
    requires a <= b
    ensures FillerRun(a, b + 1) == FillerRun(a, b) + [Filler(b)]
  {
  }

  /** The inner `for` loop: push a filler for every level from 1 up to
      `level - 1` that is not yet seen. */
  method PushFillers(full: seq<Card>, seen: set<int>, level: int, ghost top: int)
    returns (full': seq<Card>, seen': set<int>, ghost top': int)
    requires Shape(full, seen, top)
    ensures Shape(full', seen', top')
    ensures full' == full + FillerRun(top + 1, level)
    ensures top' == if level - 1 > top then level - 1 else top
  {
    full', seen', top' := full, seen, top;
    var lvl := 1;
    while lvl < level
      invariant 1 <= lvl && (lvl <= level || lvl == 1)
      invariant Shape(full', seen', top')
      invariant top' == if lvl - 1 > top then lvl - 1 else top
      invariant full' == full + FillerRun(top + 1, lvl)
    {
      if lvl !in seen' {
        assert lvl == top' + 1;
        FillerRunSnoc(top + 1, lvl);
        ShapePush(full', seen', top', Filler(lvl));
        full' := full' + [Filler(lvl)];
        seen' := seen' + {lvl};
        top' := lvl;
      } else {
        SeenBelowTop(full', seen', top');
      }
      lvl := lvl + 1;
    }
  }

  /** The state between two selections of the `forEach`: `k` selections
      done. */
  ghost predicate Step(full: seq<Card>, seen: set<int>, top: int, sorted: seq<Selection>, k: int)
  {
    && 0 <= k <= |sorted|
    && Shape(full, seen, top)
    && (k == 0 ==> full == [] && top == 0)
    && (k > 0 ==> top == if sorted[k - 1].level > 0 then sorted[k - 1].level else 0)
    && (k > 0 ==> forall i :: 0 <= i < |full| ==> full[i].Level() <= sorted[k - 1].level)
    && (forall j :: 0 <= j < k ==> sorted[j].level in seen)
    && FillersFree(full, sorted)
    && PickedFirst(full, sorted)
    && (AllPositive(sorted) ==> Consecutive(full) && |full| == top)
  }

  /** The state after the fillers for `sorted[k]` are pushed. */
  ghost predicate Mid(full: seq<Card>, seen: set<int>, top: int, sorted: seq<Selection>, k: int)
  {
    && 0 <= k < |sorted|
    && Shape(full, seen, top)
    && sorted[k].level - 1 <= top <= (if sorted[k].level > 0 then sorted[k].level else 0)
    && (forall i :: 0 <= i < |full| ==> full[i].Level() <= sorted[k].level)
    && (forall j :: 0 <= j < k ==> sorted[j].level in seen)
    && FillersFree(full, sorted)
    && PickedFirst(full, sorted)
    && (AllPositive(sorted) ==> Consecutive(full) && |full| == top)
  }

  /** The cards old and new: the old ones keep their place and the new ones
      are the run. */
  lemma RunParts(full: seq<Card>, run: seq<Card>, i: int)
    requires 0 <= i < |full + run|
    ensures (full + run)[i] == if i < |full| then full[i] else run[i - |full|]
  {
  }

  /** A filler from the run sits at a level below `sorted[k]` that is not yet
      seen, so no selection has it. */
  lemma RunFillerFree(seen: set<int>, top: int, sorted: seq<Selection>, k: int, l: int)
    requires ByLevel(sorted) && 0 <= k < |sorted|
    requires forall j :: 0 <= j < k ==> sorted[j].level in seen
    requires forall m :: m in seen ==> m <= top
    requires top < l < sorted[k].level
    ensures forall j :: 0 <= j < |sorted| ==> sorted[j].level != l
  {
    forall j | 0 <= j < |sorted| ensures sorted[j].level != l {
      if j < k {
        assert sorted[j].level in seen;
      } else {
        assert sorted[k].level <= sorted[j].level;
      }
    }
  }

  /** The fillers of a run sit at levels no selection has. */
  lemma AppendRunFillersFree(full: seq<Card>, seen: set<int>, top: int, sorted: seq<Selection>, k: int)
    requires ByLevel(sorted) && 0 <= k < |sorted| && 0 <= top && FillersFree(full, sorted)
    requires forall j :: 0 <= j < k ==> sorted[j].level in seen
    requires forall m :: m in seen ==> m <= top
    ensures FillersFree(full + FillerRun(top + 1, sorted[k].level), sorted)
  {
    var run := FillerRun(top + 1, sorted[k].level);
    var full' := full + run;
    forall i | 0 <= i < |full'| && full'[i].Filler?
      ensures full'[i].lvl >= 1 && forall j :: 0 <= j < |sorted| ==> sorted[j].level != full'[i].lvl
    {
      RunParts(full, run, i);
      if i >= |full| {
        RunFillerFree(seen, top, sorted, k, full'[i].lvl);
      }
    }
  }

  /** A run adds no picked card. */
  lemma AppendRunPickedFirst(full: seq<Card>, sorted: seq<Selection>, a: int, b: int)
    requires PickedFirst(full, sorted)
    ensures PickedFirst(full + FillerRun(a, b), sorted)
  {
    var full' := full + FillerRun(a, b);
    forall i | 0 <= i < |full'| && full'[i].Picked?
      ensures exists j :: FirstAtLevel(sorted, j) && sorted[j] == full'[i].sel
    {
      RunParts(full, FillerRun(a, b), i);
    }
  }

  /** A run below `b` keeps every card below `b`. */
  lemma AppendRunBelow(full: seq<Card>, a: int, b: int)
    requires forall i :: 0 <= i < |full| ==> full[i].Level() <= b
    ensures forall i :: 0 <= i < |full + FillerRun(a, b)| ==> (full + FillerRun(a, b))[i].Level() <= b
  {
    forall i | 0 <= i < |full + FillerRun(a, b)| ensures (full + FillerRun(a, b))[i].Level() <= b {
      RunParts(full, FillerRun(a, b), i);
    }
  }

  /** A run that starts at the next level keeps the levels consecutive. */
  lemma AppendRunConsecutive(full: seq<Card>, b: int)
    requires Consecutive(full)
    ensures Consecutive(full + FillerRun(|full| + 1, b))
  {
    var full' := full + FillerRun(|full| + 1, b);
    forall i | 0 <= i < |full'| ensures full'[i].Level() == i + 1 {
      RunParts(full, FillerRun(|full| + 1, b), i);
    }
  }

  /** Every seen level is at most `top`. */
  lemma SeenBelowTop(full: seq<Card>, seen: set<int>, top: int)
    requires Shape(full, seen, top)
    ensures forall m :: m in seen ==> m <= top
  {
    forall m | m in seen ensures m <= top {
      var c :| c in full && c.Level() == m;
    }
  }

  /** Appending cards loses no level. */
  lemma LevelsGrow(full: seq<Card>, more: seq<Card>)
    ensures Levels(full) <= Levels(full + more)
  {
    forall m | m in Levels(full) ensures m in Levels(full + more) {
      var c :| c in full && c.Level() == m;
      assert c in full + more;
    }
  }

  /** Pushing the fillers for `sorted[k]`. */
  lemma FillersStep(full: seq<Card>, seen: set<int>, top: int, sorted: seq<Selection>, k: int,
                    full': seq<Card>, seen': set<int>, top': int)
    requires ByLevel(sorted) && 0 <= k < |sorted| && Step(full, seen, top, sorted, k)
    requires Shape(full', seen', top') && full' == full + FillerRun(top + 1, sorted[k].level)
    requires top' == if sorted[k].level - 1 > top then sorted[k].level - 1 else top
    ensures Mid(full', seen', top', sorted, k)
  {
    var l := sorted[k].level;
    SeenBelowTop(full, seen, top);
    LevelsGrow(full, FillerRun(top + 1, l));
    if k > 0 {
      assert sorted[k - 1].level <= l;
    }
    assert top <= (if l > 0 then l else 0);
    assert seen <= seen';
    AppendRunFillersFree(full, seen, top, sorted, k);
    AppendRunPickedFirst(full, sorted, top + 1, l);
    AppendRunBelow(full, top + 1, l);
    RunConsecutive(full, top, sorted, k, full', top');
  }

  /** With every level at least 1, the fillers for `sorted[k]` continue the
      run of consecutive levels up to the level below it. */
  lemma RunConsecutive(full: seq<Card>, top: int, sorted: seq<Selection>, k: int, full': seq<Card>, top': int)
    requires 0 <= k < |sorted| && 0 <= top <= (if sorted[k].level > 0 then sorted[k].level else 0)
    requires AllPositive(sorted) ==> Consecutive(full) && |full| == top
    requires full' == full + FillerRun(top + 1, sorted[k].level)
    requires top' == if sorted[k].level - 1 > top then sorted[k].level - 1 else top
    ensures AllPositive(sorted) ==> Consecutive(full') && |full'| == top'
  {
    if AllPositive(sorted) {
      AppendRunConsecutive(full, sorted[k].level);
    }
  }

  /** `sorted[k]`'s level was seen already: the selection is dropped. */
  lemma SkipStep(full: seq<Card>, seen: set<int>, top: int, sorted: seq<Selection>, k: int)
    requires Mid(full, seen, top, sorted, k) && sorted[k].level in seen
    ensures Step(full, seen, top, sorted, k + 1)
  {
    var c :| c in full && c.Level() == sorted[k].level;
  }

  /** A picked card for the first selection at its level keeps every picked
      card first at its level. */
  lemma PushPickedFirst(full: seq<Card>, sorted: seq<Selection>, k: int)
    requires PickedFirst(full, sorted) && FirstAtLevel(sorted, k)
    ensures PickedFirst(full + [Picked(sorted[k])], sorted)
  {
    var full' := full + [Picked(sorted[k])];
    forall i | 0 <= i < |full'| && full'[i].Picked?
      ensures exists j :: FirstAtLevel(sorted, j) && sorted[j] == full'[i].sel
    {
      RunParts(full, [Picked(sorted[k])], i);
    }
  }

  /** A picked card adds no filler. */
  lemma PushFillersFree(full: seq<Card>, sorted: seq<Selection>, c: Card)
    requires FillersFree(full, sorted) && c.Picked?
    ensures FillersFree(full + [c], sorted)
  {
    var full' := full + [c];
    forall i | 0 <= i < |full'| && full'[i].Filler?
      ensures full'[i].lvl >= 1 && forall j :: 0 <= j < |sorted| ==> sorted[j].level != full'[i].lvl
    {
      RunParts(full, [c], i);
    }
  }

  /** A card at level `l` keeps every card at or below `l`. */
  lemma PushBelow(full: seq<Card>, c: Card, l: int)
    requires forall i :: 0 <= i < |full| ==> full[i].Level() <= l
    requires c.Level() == l
    ensures forall i :: 0 <= i < |full + [c]| ==> (full + [c])[i].Level() <= l
  {
    forall i | 0 <= i < |full + [c]| ensures (full + [c])[i].Level() <= l {
      RunParts(full, [c], i);
    }
  }

  /** A card at the next level keeps the levels consecutive. */
  lemma PushConsecutive(full: seq<Card>, c: Card)
    requires Consecutive(full) && c.Level() == |full| + 1
    ensures Consecutive(full + [c])
  {
    forall i | 0 <= i < |full + [c]| ensures (full + [c])[i].Level() == i + 1 {
      RunParts(full, [c], i);
    }
  }

  /** `sorted[k]`'s level is new: the selection is pushed. */
  lemma PickStep(full: seq<Card>, seen: set<int>, top: int, sorted: seq<Selection>, k: int)
    requires Mid(full, seen, top, sorted, k) && sorted[k].level !in seen
    ensures var l := sorted[k].level;
            Step(full + [Picked(sorted[k])], seen + {l}, if l > top then l else top, sorted, k + 1)
  {
    var c := Picked(sorted[k]);
    var l := sorted[k].level;
    assert forall i :: 0 <= i < |full| ==> full[i].Level() < l by {
      forall i | 0 <= i < |full| ensures full[i].Level() < l {
        assert full[i] in full;
      }
    }
    if l >= 1 {
      ShapePush(full, seen, top, c);
    } else {
      ShapePushLow(full, seen, top, c);
    }
    assert FirstAtLevel(sorted, k);
    PushPickedFirst(full, sorted, k);
    PushFillersFree(full, sorted, c);
    PushBelow(full, c, l);
    if AllPositive(sorted) {
      PushConsecutive(full, c);
    }
  }

  lemma StepInit(sorted: seq<Selection>)
    ensures Step([], {}, 0, sorted, 0)
  {
    assert Levels([]) == {};
  }

  /** The body of the `forEach` for `sorted[k]`: the fillers below its
      level, then the selection itself unless its level is already seen. */
  method ExpandOne(full: seq<Card>, seen: set<int>, ghost top: int, sorted: seq<Selection>, k: int)
    returns (full': seq<Card>, seen': set<int>, ghost top': int)
    requires ByLevel(sorted) && 0 <= k < |sorted| && Step(full, seen, top, sorted, k)
    ensures Step(full', seen', top', sorted, k + 1)
  {
    var sel := sorted[k];
    var full1, seen1, top1 := PushFillers(full, seen, sel.level, top);
    FillersStep(full, seen, top, sorted, k, full1, seen1, top1);
    if sel.level !in seen1 {
      PickStep(full1, seen1, top1, sorted, k);
      full', seen', top' := full1 + [Picked(sel)], seen1 + {sel.level}, if sel.level > top1 then sel.level else top1;
    } else {
      SkipStep(full1, seen1, top1, sorted, k);
      full', seen', top' := full1, seen1, top1;
    }
  }

  /** The loop of the `forEach` over the sorted selections, with the
      `seenLevels` set it keeps. */
  method ExpandLoop(sorted: seq<Selection>) returns (full: seq<Card>, seen: set<int>, ghost top: int)
    requires ByLevel(sorted)
    ensures Step(full, seen, top, sorted, |sorted|)
  {
    full := [];
    seen := {};
    top := 0;
    StepInit(sorted);
    for k := 0 to |sorted|
      invariant Step(full, seen, top, sorted, k)
    {
      full, seen, top := ExpandOne(full, seen, top, sorted, k);
    }
  }

  /** The `forEach` over the sorted selections: the cards it builds. */
  method ExpandSorted(sorted: seq<Selection>) returns (full: seq<Card>)
    requires ByLevel(sorted)
    ensures Expansion(full, sorted)
  {
    var seen;
    ghost var top;
    full, seen, top := ExpandLoop(sorted);
    ExpansionDone(full, seen, top, sorted);
  }

  /** After the last step the invariant gives the promised expansion. */
  lemma ExpansionDone(full: seq<Card>, seen: set<int>, top: int, sorted: seq<Selection>)
    requires ByLevel(sorted) && Step(full, seen, top, sorted, |sorted|)
    ensures Expansion(full, sorted)
  {
    forall k | 0 <= k < |sorted|
      ensures exists i :: 0 <= i < |full| && full[i].Picked? && full[i].Level() == sorted[k].level
    {
      var c :| c in full && c.Level() == sorted[k].level;
      var i :| 0 <= i < |full| && full[i] == c;
    }
  }

  /** `fullSelections`: sort the selections by level, then expand. The
      expansion fixes the cards uniquely only when every level is at least 1,
      which holds for the levels 1 to 3 that the form offers; for a level of
      0 or below it leaves room for missing or extra fillers. */
  method FullSelections(selections: seq<Selection>) returns (full: seq<Card>)
    ensures Expansion(full, SortSeq(selections, LevelAfter))
  {
    var a := new Selection[|selections|](i requires 0 <= i < |selections| => selections[i]);
    assert a[..] == selections;
    InsertionSort(a, LevelAfter);
    LevelAfterIsOrder();
    SortSeqSorted(selections, LevelAfter);
    assert ByLevel(a[..]) by {
      forall i, j | 0 <= i < j < a.Length ensures a[i].level <= a[j].level {
        assert !LevelAfter(a[..][i], a[..][j]);
      }
    }
    full := ExpandSorted(a[..]);
  }

  /** Sorting keeps exactly the selections it was given. */
  lemma SortedMembers(selections: seq<Selection>)
    ensures forall k :: 0 <= k < |SortSeq(selections, LevelAfter)| ==> SortSeq(selections, LevelAfter)[k] in selections
    ensures forall s :: s in selections ==> s in SortSeq(selections, LevelAfter)
  {
    var sorted := SortSeq(selections, LevelAfter);
    assert multiset(sorted) == multiset(selections);
    forall k | 0 <= k < |sorted| ensures sorted[k] in selections {
      assert sorted[k] in multiset(sorted);
    }
    forall s | s in selections ensures s in sorted {
      assert s in multiset(selections);
    }
  }

  /** The level sort puts the levels in order. */
  lemma SortedByLevel(selections: seq<Selection>)
    ensures ByLevel(SortSeq(selections, LevelAfter))
  {
    var sorted := SortSeq(selections, LevelAfter);
    LevelAfterIsOrder();
    SortSeqSorted(selections, LevelAfter);
    forall i, j | 0 <= i < j < |sorted| ensures sorted[i].level <= sorted[j].level {
      assert !LevelAfter(sorted[i], sorted[j]);
    }
  }

  /** Sorting by level keeps every selection and puts the levels in order,
      so the expansion of a story whose levels are all at least 1 has one
      card per level from 1 to the highest selection level, and no card when
      there is no selection. */
  lemma FullSelectionsLevels(selections: seq<Selection>, full: seq<Card>)
    requires Expansion(full, SortSeq(selections, LevelAfter))
    requires forall s :: s in selections ==> s.level >= 1
    ensures Consecutive(full)
    ensures |full| == HighestLevel(selections)
    ensures forall s :: s in selections ==> s.level <= |full|
  {
    SortedLevels(selections);
  }

  /** The highest level among the selections, read off the end of their
      level sort: 0 when there is no selection, and otherwise the level of
      one of them that none exceeds. */
  function HighestLevel(selections: seq<Selection>): (n: int)
    ensures forall s :: s in selections ==> s.level <= n
    ensures |selections| == 0 ==> n == 0
    ensures |selections| > 0 ==> exists s :: s in selections && s.level == n
  {
    var sorted := SortSeq(selections, LevelAfter);
    SortedMembers(selections);
    SortedByLevel(selections);
    if |sorted| == 0 then 0
    else
      assert sorted[|sorted| - 1] in selections;
      sorted[|sorted| - 1].level
  }

  /** The level sort of selections that are all at least 1: its levels are
      in order and all at least 1, and every selection's level is at most
      the last one. */
  lemma SortedLevels(selections: seq<Selection>)
    requires forall s :: s in selections ==> s.level >= 1
    ensures var sorted := SortSeq(selections, LevelAfter);
            && ByLevel(sorted) && AllPositive(sorted)
            && forall s :: s in selections ==> |sorted| > 0 && s.level <= sorted[|sorted| - 1].level
  {
    var sorted := SortSeq(selections, LevelAfter);
    SortedMembers(selections);
    SortedByLevel(selections);
    forall s | s in selections ensures |sorted| > 0 && s.level <= sorted[|sorted| - 1].level {
      var k :| 0 <= k < |sorted| && sorted[k] == s;
    }
  }

  // ---------------------------------------------------------------------
  // getFormattedBranchName, getBaseBranch
  // ---------------------------------------------------------------------

  /** `feature${feature}_${newBranch}`, where `newBranch` is the part of the
      topic before its first `_`. The name splits back into the feature
      field and the topic's first segment, and nothing else. */
  function FormattedBranchName(topic: string, feature: int): (r: string)
    ensures Split(r, '_') == ["feature" + IntToString(feature), FirstSegment(topic, '_')]
  {
    var f := "feature" + IntToString(feature);
    var b := FirstSegment(topic, '_');
    IntToStringNoUnderscore(feature);
    assert '_' !in f;
    SplitConcat(f, b, '_');
    SplitNoSep(f, '_');
    SplitNoSep(b, '_');
    f + "_" + b
  }

  /** `story.topic.split("/")[1] || "main"`. */
  function BaseBranch(topic: string): (r: string)
    ensures r != [] && '/' !in r
  {
    var parts := Split(topic, '/');
    if |parts| >= 2 && parts[1] != [] then parts[1] else "main"
  }

  /** A topic without `/` (every topic the new-story form produces) has base
      branch `main`. */
  lemma BaseBranchNoSlash(topic: string)
    requires '/' !in topic
    ensures BaseBranch(topic) == "main"
  {
    SplitNoSep(topic, '/');
  }

  /** In `a/b` and in `a/b/rest` the base branch is `b`, or `main` when `b`
      is empty. */
  lemma BaseBranchSecond(a: string, b: string, rest: string)
    requires '/' !in a && '/' !in b
    ensures BaseBranch(a + "/" + b) == if b != [] then b else "main"
    ensures BaseBranch(a + "/" + b + "/" + rest) == if b != [] then b else "main"
  {
    SplitNoSep(a, '/');
    SplitNoSep(b, '/');
    assert a + "/" + b == a + ['/'] + b;
    SplitConcat(a, b, '/');
    assert a + "/" + b + "/" + rest == a + ['/'] + (b + ['/'] + rest);
    SplitConcat(a, b + ['/'] + rest, '/');
    SplitConcat(b, rest, '/');
  }

  // ---------------------------------------------------------------------
  // the level gate and the build queue
  // ---------------------------------------------------------------------

  /** `canBuild`: level 1 is always open; any other level opens once the
      level below it is among the built levels. */
  predicate CanBuild(level: int, builtLevels: set<int>)
  {
    level == 1 || level - 1 in builtLevels
  }

  /** A queued build: the card's fields and a status, unset until the
      completion step writes "Completed". */
  datatype QueueItem = QueueItem(level: int, feature: int, component: string, status: Option<string>)

  /** `item` is for the same (level, component) pair. */
  predicate SameSlot(item: QueueItem, level: int, component: string)
  {
    item.level == level && item.component == component
  }

  /** `isInQueue`: some queued item has the level and the component. */
  predicate InQueue(queue: seq<QueueItem>, level: int, component: string)
  {
    exists i :: 0 <= i < |queue| && SameSlot(queue[i], level, component)
  }

  /** `findIndex` of the first item with the level and component, or -1. */
  function FirstSlot(queue: seq<QueueItem>, level: int, component: string): (idx: int)
    ensures idx == -1 <==> !InQueue(queue, level, component)
    ensures idx != -1 ==> 0 <= idx < |queue| && SameSlot(queue[idx], level, component)
    ensures forall j :: 0 <= j < idx ==> !SameSlot(queue[j], level, component)
    decreases |queue|
  {
    if queue == [] then -1
    else if SameSlot(queue[0], level, component) then 0
    else
      var j := FirstSlot(queue[1..], level, component);
      if j == -1 then
        assert !InQueue(queue, level, component) by {
          forall i | 0 <= i < |queue| ensures !SameSlot(queue[i], level, component) {
            if i > 0 { assert queue[i] == queue[1..][i - 1]; }
          }
        }
        -1
      else
        assert forall i :: 1 <= i <= j ==> queue[i] == queue[1..][i - 1];
        j + 1
  }

  /** The queue after the completion step for (level, component): it keeps
      its length, marks exactly the first matching item "Completed", changes
      nothing else of it, and leaves every other item alone; with no match,
      the queue as it was. */
  function CompleteFirst(queue: seq<QueueItem>, level: int, component: string): (r: seq<QueueItem>)
    ensures |r| == |queue|
    ensures !InQueue(queue, level, component) ==> r == queue
    ensures InQueue(queue, level, component) ==>
              exists k :: 0 <= k < |queue| && SameSlot(queue[k], level, component)
                && (forall j :: 0 <= j < k ==> !SameSlot(queue[j], level, component))
                && r[k] == queue[k].(status := Some("Completed"))
                && (forall j :: 0 <= j < |queue| && j != k ==> r[j] == queue[j])
  {
    var idx := FirstSlot(queue, level, component);
    if idx != -1 then
      assert 0 <= idx < |queue| && SameSlot(queue[idx], level, component);
      queue[idx := queue[idx].(status := Some("Completed"))]
    else queue
  }

  /** Completing keeps every (level, component) pair in the queue, so
      `isInQueue` answers the same before and after. */
  lemma CompleteFirstKeepsSlots(queue: seq<QueueItem>, level: int, component: string, l: int, c: string)
    ensures InQueue(CompleteFirst(queue, level, component), l, c) <==> InQueue(queue, l, c)
  {
    var r := CompleteFirst(queue, level, component);
    assert forall i :: 0 <= i < |queue| ==> SameSlot(r[i], l, c) == SameSlot(queue[i], l, c);
  }

  /** Enqueueing an item unlocks the level above it at once, and keeps
      every level that was open. */
  lemma EnqueueUnlocks(builtLevels: set<int>, item: QueueItem, level: int)
    ensures CanBuild(item.level + 1, builtLevels + {item.level})
    ensures CanBuild(level, builtLevels) ==> CanBuild(level, builtLevels + {item.level})
  {
  }

  /** A level other than 1 whose level below has never been queued stays
      closed. */
  lemma GateClosed(builtLevels: set<int>, level: int)
    requires level != 1 && level - 1 !in builtLevels
    ensures !CanBuild(level, builtLevels)
  {
  }

  /** The page's build state: the queue and the set of built levels. */
  class BuildQueue {
    var queue: seq<QueueItem>
    var builtLevels: set<int>

    /** Every built level is the level of a queued item and vice versa. */
    ghost predicate Valid()
      reads this
    {
      builtLevels == set i | 0 <= i < |queue| :: queue[i].level
    }

    constructor()
      ensures queue == [] && builtLevels == {} && Valid()
    {
      queue := [];
      builtLevels := {};
    }

    /** `handleBuildQueueAdd` up to the timer: append the item, duplicates
        included, and add its level to the built levels. */
    method Enqueue(item: QueueItem)
      requires Valid()
      modifies this
      ensures Valid()
      ensures queue == old(queue) + [item]
      ensures builtLevels == old(builtLevels) + {item.level}
      ensures CanBuild(item.level + 1, builtLevels)
    {
      ghost var before := queue;
      queue := queue + [item];
      builtLevels := builtLevels + {item.level};
      assert forall i :: 0 <= i < |before| ==> queue[i] == before[i];
      assert queue[|before|] == item;
    }

    /** `canBuild`, read against the queue: a level is open when it is 1 or
        some queued item is at the level below it. */
    method CanBuildLevel(level: int) returns (open: bool)
      requires Valid()
      ensures open == CanBuild(level, builtLevels)
      ensures open <==> level == 1 || exists i :: 0 <= i < |queue| && queue[i].level == level - 1
    {
      open := level == 1 || level - 1 in builtLevels;
    }

    /** `isInQueue`: some queued item has the level and the component, and
        then the level is among the built levels and the level above it is
        open. */
    method IsInQueue(level: int, component: string) returns (queued: bool)
      requires Valid()
      ensures queued <==> InQueue(queue, level, component)
      ensures queued ==> level in builtLevels && CanBuild(level + 1, builtLevels)
    {
      queued := exists i :: 0 <= i < |queue| && SameSlot(queue[i], level, component);
      if queued {
        var i :| 0 <= i < |queue| && SameSlot(queue[i], level, component);
        assert queue[i].level in builtLevels;
      }
    }

    /** The `findIndex` the completion step runs over the queue. */
    method FindSlot(level: int, component: string) returns (idx: int)
      ensures idx == FirstSlot(queue, level, component)
    {
      idx := 0;
      while idx < |queue| && !SameSlot(queue[idx], level, component)
        invariant 0 <= idx <= |queue|
        invariant forall j :: 0 <= j < idx ==> !SameSlot(queue[j], level, component)
      {
        idx := idx + 1;
      }
      if idx == |queue| {
        idx := -1;
      }
      FirstSlotUnique(queue, level, component, idx);
    }

    /** The timer's callback, as an explicit step: mark the first item for
        (level, component) "Completed". */
    method Complete(level: int, component: string)
      requires Valid()
      modifies this
      ensures Valid()
      ensures queue == CompleteFirst(old(queue), level, component)
      ensures builtLevels == old(builtLevels)
    {
      var idx := FindSlot(level, component);
      ghost var before := queue;
      if idx != -1 {
        queue := queue[idx := queue[idx].(status := Some("Completed"))];
      }
      assert forall i :: 0 <= i < |queue| ==> queue[i].level == before[i].level;
      assert (set i | 0 <= i < |queue| :: queue[i].level) == (set i | 0 <= i < |before| :: before[i].level);
    }
  }

  /** `FirstSlot` is the only index that is -1 exactly when nothing matches
      and otherwise the first match. */
  lemma FirstSlotUnique(queue: seq<QueueItem>, level: int, component: string, idx: int)
    requires -1 <= idx < |queue|
    requires idx == -1 ==> forall j :: 0 <= j < |queue| ==> !SameSlot(queue[j], level, component)
    requires idx != -1 ==> SameSlot(queue[idx], level, component)
                           && forall j :: 0 <= j < idx ==> !SameSlot(queue[j], level, component)
    ensures idx == FirstSlot(queue, level, component)
  {
  }
}
