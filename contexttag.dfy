/** The story store's own stable-tag resolver, `getMostStableTag` of
    src/context/StoryContext.tsx: keep the tags that fully match
    `v<digits>.<digits>.<digits>`, group them by major in input order, take
    the group of the highest major, sort it by patch and return its front.
    Minor is never consulted, so of two tags that share major and patch the
    earlier one in the input wins (the sort is stable). */
module ContextTag {
  import opened Tags
  import opened Sorting

  /** `tags.map(parseTag).filter(Boolean)`: the parsed records of the
      well-formed tags, in input order. */
  function ParseValid(tags: seq<string>): (r: seq<ParsedTag>)
    ensures forall p :: p in r ==> p.original in tags && WellFormed(p.original) && p == Parsed(p.original)
    ensures forall t :: t in tags && WellFormed(t) ==> Parsed(t) in r
    decreases |tags|
  {
    if tags == [] then []
    else
      assert tags == [tags[0]] + tags[1..];
      (if WellFormed(tags[0]) then [Parsed(tags[0])] else []) + ParseValid(tags[1..])
  }

  /** The majors present among `ps`: the keys of the grouping. */
  function Majors(ps: seq<ParsedTag>): set<nat>
  {
    set p | p in ps :: p.major
  }

  /** The records of `ps` with major `m`, in order: one group. */
  function WithMajor(ps: seq<ParsedTag>, m: nat): (r: seq<ParsedTag>)
    ensures forall p :: p in r <==> p in ps && p.major == m
    decreases |ps|
  {
    if ps == [] then []
    else (if ps[0].major == m then [ps[0]] else []) + WithMajor(ps[1..], m)
  }

  /** The records of `g` with patch `pt`, in order. */
  function WithPatch(g: seq<ParsedTag>, pt: nat): (r: seq<ParsedTag>)
    ensures forall p :: p in r <==> p in g && p.patch == pt
    decreases |g|
  {
    if g == [] then []
    else (if g[0].patch == pt then [g[0]] else []) + WithPatch(g[1..], pt)
  }

  /** Every non-empty finite set of naturals has a greatest element. */
  lemma {:induction false} MaxExists(s: set<nat>)
    requires s != {}
    ensures exists m :: m in s && forall x :: x in s ==> x <= m
    decreases |s|
  {
    var y :| y in s;
    if s != {y} {
      var rest := s - {y};
      MaxExists(rest);
      var m :| m in rest && forall x :: x in rest ==> x <= m;
      var top := if y > m then y else m;
      assert forall x :: x in s ==> x == y || x in rest;
      assert top in s && forall x :: x in s ==> x <= top;
    }
  }

  /** `Math.max(...keys)` of a non-empty key set. */
  function MaxOf(s: set<nat>): (m: nat)
    requires s != {}
    ensures m in s && forall x :: x in s ==> x <= m
  {
    MaxExists(s);
    var m :| m in s && forall x :: x in s ==> x <= m;
    m
  }

  /** The least patch of a non-empty group. */
  function LeastPatch(g: seq<ParsedTag>): (pt: nat)
    requires |g| > 0
    ensures exists i :: 0 <= i < |g| && g[i].patch == pt
    ensures forall p :: p in g ==> pt <= p.patch
    decreases |g|
  {
    if |g| == 1 then g[0].patch
    else
      var rest := LeastPatch(g[1..]);
      assert forall p :: p in g ==> p == g[0] || p in g[1..];
      if g[0].patch <= rest then g[0].patch else rest
  }

  /** The comparator of the group sort. */
  function PatchCompare(a: ParsedTag, b: ParsedTag): int
  {
    a.patch - b.patch
  }

  predicate PatchAfter(a: ParsedTag, b: ParsedTag)
  {
    PatchCompare(a, b) > 0
  }

  lemma PatchAfterIsOrder()
    ensures StrictWeakOrder(PatchAfter)
  {
  }

  predicate HasValid(tags: seq<string>)
  {
    exists i :: 0 <= i < |tags| && WellFormed(tags[i])
  }

  /** Some well-formed tag yields a parsed record, so there is a major. */
  lemma HasValidMajors(tags: seq<string>)
    requires HasValid(tags)
    ensures Majors(ParseValid(tags)) != {}
  {
    var i :| 0 <= i < |tags| && WellFormed(tags[i]);
    assert Parsed(tags[i]) in ParseValid(tags);
    assert Parsed(tags[i]).major in Majors(ParseValid(tags));
  }

  /** The well-formed tags of the highest major, in input order. */
  function TopGroup(tags: seq<string>): (g: seq<ParsedTag>)
    requires HasValid(tags)
    ensures |g| > 0 && Majors(ParseValid(tags)) != {}
    ensures forall p :: p in g ==> p in ParseValid(tags) && p.major == MaxOf(Majors(ParseValid(tags)))
  {
    var ps := ParseValid(tags);
    HasValidMajors(tags);
    var m := MaxOf(Majors(ps));
    var p :| p in ps && p.major == m;
    assert p in WithMajor(ps, m);
    WithMajor(ps, m)
  }

  /** The record the resolver picks, stated without the grouping or the
      sort: among the well-formed tags of the highest major, the first (in
      input order) of those with the least patch. */
  function Choice(tags: seq<string>): (c: ParsedTag)
    requires HasValid(tags)
  {
    var top := TopGroup(tags);
    var i :| 0 <= i < |top| && top[i].patch == LeastPatch(top);
    assert top[i] in WithPatch(top, LeastPatch(top));
    WithPatch(top, LeastPatch(top))[0]
  }

  /** The choice is a well-formed input tag; no well-formed input has a
      higher major, and none with the same major has a lower patch. */
  lemma ChoiceBest(tags: seq<string>)
    requires HasValid(tags)
    ensures Choice(tags).original in tags && WellFormed(Choice(tags).original)
    ensures Choice(tags) == Parsed(Choice(tags).original)
    ensures forall t :: t in tags && WellFormed(t) ==> VersionOf(t).major <= Choice(tags).major
    ensures forall t :: t in tags && WellFormed(t) && VersionOf(t).major == Choice(tags).major ==>
              Choice(tags).patch <= VersionOf(t).patch
  {
    var ps := ParseValid(tags);
    HasValidMajors(tags);
    var m := MaxOf(Majors(ps));
    var top := TopGroup(tags);
    var c := Choice(tags);
    assert c in WithPatch(top, LeastPatch(top));
    assert c in top && c.major == m;
    forall t | t in tags && WellFormed(t) ensures VersionOf(t).major <= m {
      assert Parsed(t) in ps;
      assert Parsed(t).major in Majors(ps);
    }
    forall t | t in tags && WellFormed(t) && VersionOf(t).major == m
      ensures c.patch <= VersionOf(t).patch
    {
      assert Parsed(t) in ps;
      assert Parsed(t) in WithMajor(ps, m);
    }
  }

  /** Concatenation distributes over grouping. */
  lemma {:induction false} WithMajorConcat(a: seq<ParsedTag>, b: seq<ParsedTag>, m: nat)
    ensures WithMajor(a + b, m) == WithMajor(a, m) + WithMajor(b, m)
    decreases |a|
  {
    if a == [] {
      assert a + b == b;
    } else {
      var h := if a[0].major == m then [a[0]] else [];
      var rest := WithMajor(a[1..], m);
      assert (a + b)[0] == a[0] && (a + b)[1..] == a[1..] + b;
      WithMajorConcat(a[1..], b, m);
      calc {
        WithMajor(a + b, m);
        h + WithMajor(a[1..] + b, m);
        h + (rest + WithMajor(b, m));
        (h + rest) + WithMajor(b, m);
      }
    }
  }

  /** Pushing one more record onto the groups. */
  lemma GroupStep(ps: seq<ParsedTag>, i: nat, m: nat)
    requires i < |ps|
    ensures WithMajor(ps[..i + 1], m) == WithMajor(ps[..i], m) + (if ps[i].major == m then [ps[i]] else [])
    ensures Majors(ps[..i + 1]) == Majors(ps[..i]) + {ps[i].major}
  {
    assert ps[..i + 1] == ps[..i] + [ps[i]];
    WithMajorConcat(ps[..i], [ps[i]], m);
    assert forall p :: p in ps[..i + 1] <==> p in ps[..i] || p == ps[i];
  }

  /** The first minimal record of a group under the patch order is the first
      record with the group's least patch. */
  lemma FirstMinimalIsFirstLeast(g: seq<ParsedTag>, k: nat)
    requires FirstMinimalAt(g, k, PatchAfter)
    ensures WithPatch(g, LeastPatch(g))[0] == g[k]
  {
    var lp := LeastPatch(g);
    assert g[k].patch == lp by {
      var i :| 0 <= i < |g| && g[i].patch == lp;
      assert g[i] in g;
    }
    forall j | 0 <= j < k ensures g[j].patch != lp {
      assert !Minimal(g, g[j], PatchAfter);
      var w :| w in g && PatchAfter(g[j], w);
    }
    FirstWithPatch(g, k, lp);
  }

  /** The front of `WithPatch` is the first record with that patch. */
  lemma {:induction false} FirstWithPatch(g: seq<ParsedTag>, k: nat, pt: nat)
    requires k < |g| && g[k].patch == pt
    requires forall j :: 0 <= j < k ==> g[j].patch != pt
    ensures |WithPatch(g, pt)| > 0 && WithPatch(g, pt)[0] == g[k]
    decreases k
  {
    if k > 0 {
      FirstWithPatch(g[1..], k - 1, pt);
    }
  }

  /** The `reduce` callback: push `p` onto the group of its major, starting
      the group when there is none yet. */
  function Push(grouped: map<nat, seq<ParsedTag>>, p: ParsedTag): map<nat, seq<ParsedTag>>
  {
    grouped[p.major := (if p.major in grouped then grouped[p.major] else []) + [p]]
  }

  /** `grouped` holds one group per major of `ps`, each in input order. */
  ghost predicate GroupsOf(grouped: map<nat, seq<ParsedTag>>, ps: seq<ParsedTag>)
  {
    grouped.Keys == Majors(ps) && forall m :: m in grouped ==> grouped[m] == WithMajor(ps, m)
  }

  /** A major that no record has has an empty group. */
  lemma {:induction false} WithMajorAbsent(ps: seq<ParsedTag>, m: nat)
    requires m !in Majors(ps)
    ensures WithMajor(ps, m) == []
    decreases |ps|
  {
    if ps != [] {
      assert ps[0] in ps;
      assert Majors(ps[1..]) <= Majors(ps) by {
        forall q | q in ps[1..] ensures q in ps { }
      }
      WithMajorAbsent(ps[1..], m);
    }
  }

  /** One group after the push. */
  lemma PushGroupAt(grouped: map<nat, seq<ParsedTag>>, ps: seq<ParsedTag>, i: nat, m: nat)
    requires i < |ps| && GroupsOf(grouped, ps[..i]) && m in Push(grouped, ps[i])
    ensures Push(grouped, ps[i])[m] == WithMajor(ps[..i + 1], m)
  {
    GroupStep(ps, i, m);
    if m != ps[i].major {
      assert m in grouped;
    } else if m !in grouped {
      WithMajorAbsent(ps[..i], m);
    }
  }

  lemma PushGroups(grouped: map<nat, seq<ParsedTag>>, ps: seq<ParsedTag>, i: nat)
    requires i < |ps| && GroupsOf(grouped, ps[..i])
    ensures GroupsOf(Push(grouped, ps[i]), ps[..i + 1])
  {
    var next := Push(grouped, ps[i]);
    GroupStep(ps, i, ps[i].major);
    assert next.Keys == grouped.Keys + {ps[i].major};
    forall m | m in next ensures next[m] == WithMajor(ps[..i + 1], m) {
      PushGroupAt(grouped, ps, i, m);
    }
  }

  /** Builds `grouped` the way the `reduce` does. */
  method GroupByMajor(ps: seq<ParsedTag>) returns (grouped: map<nat, seq<ParsedTag>>)
    ensures GroupsOf(grouped, ps)
  {
    grouped := map[];
    var i := 0;
    while i < |ps|
      invariant 0 <= i <= |ps|
      invariant GroupsOf(grouped, ps[..i])
    {
      PushGroups(grouped, ps, i);
      grouped := Push(grouped, ps[i]);
      i := i + 1;
    }
    assert ps[..|ps|] == ps;
  }

  /** Sorting the top group by patch puts the choice in front. */
  lemma SortedTopGroup(tags: seq<string>)
    requires HasValid(tags)
    ensures SortSeq(TopGroup(tags), PatchAfter)[0] == Choice(tags)
  {
    var g := TopGroup(tags);
    PatchAfterIsOrder();
    SortSeqFirstEarliest(g, PatchAfter);
    var k :| FirstMinimalAt(g, k, PatchAfter) && g[k] == SortSeq(g, PatchAfter)[0];
    FirstMinimalIsFirstLeast(g, k);
  }

  /** `getMostStableTag`: the group of the highest major, sorted by patch in
      place, and its front. */
  method MostStableTag(tags: seq<string>) returns (tag: string)
    requires HasValid(tags)
    ensures tag == Choice(tags).original
  {
    var parsed := ParseValid(tags);
    var grouped := GroupByMajor(parsed);
    HasValidMajors(tags);
    var highestMajor := MaxOf(grouped.Keys);
    assert grouped[highestMajor] == TopGroup(tags);
    var group := ToArray(grouped[highestMajor]);
    InsertionSort(group, PatchAfter);
    SortedTopGroup(tags);
    tag := group[0].original;
  }

  /** The store's built-in tag list. */
  const BuiltinTags: seq<string> := ["v1.0.0", "v1.2.0", "v2.0.1", "v2.0.0", "v3.0.0", "v3.1.0"]

  /** `ParseAll` of a non-empty list, one element at a time. */
  lemma ParseAllCons(tags: seq<string>)
    requires |tags| > 0 && AllWellFormed(tags)
    ensures AllWellFormed(tags[1..]) && WellFormed(tags[0])
    ensures ParseAll(tags) == [Parsed(tags[0])] + ParseAll(tags[1..])
  {
    assert WellFormed(tags[0]);
    forall i | 0 <= i < |tags[1..]| ensures WellFormed(tags[1..][i]) {
      assert tags[1..][i] == tags[i + 1];
    }
  }

  /** When every tag is well-formed nothing is dropped. */
  lemma {:induction false} ParseValidAll(tags: seq<string>)
    requires AllWellFormed(tags)
    ensures ParseValid(tags) == ParseAll(tags)
    decreases |tags|
  {
    if tags != [] {
      ParseAllCons(tags);
      ParseValidAll(tags[1..]);
    }
  }

  /** Majors 1, 1, 2, 2, 3, 3: the highest is 3. */
  lemma MaxOfSix(p: seq<ParsedTag>)
    requires |p| == 6 && p[0].major == 1 && p[1].major == 1 && p[2].major == 2 && p[3].major == 2
    requires p[4].major == 3 && p[5].major == 3
    ensures Majors(p) != {} && MaxOf(Majors(p)) == 3
  {
    assert p[4] in p;
    assert 3 in Majors(p);
    forall m | m in Majors(p) ensures m <= 3 {
      var q :| q in p && q.major == m;
      var i :| 0 <= i < 6 && p[i] == q;
    }
    var mx := MaxOf(Majors(p));
    assert 3 <= mx <= 3;
  }

  /** Majors 1, 1, 2, 2, 3, 3: the group of 3 is the last two. */
  lemma GroupOfSix(p: seq<ParsedTag>)
    requires |p| == 6 && p[0].major == 1 && p[1].major == 1 && p[2].major == 2 && p[3].major == 2
    requires p[4].major == 3 && p[5].major == 3
    ensures WithMajor(p, 3) == p[4..]
  {
    var t := p[4..];
    assert t[1..][1..] == [];
    assert WithMajor(t[1..], 3) == t[1..];
    assert WithMajor(t, 3) == t;
    assert p[3..][1..] == t && p[2..][1..] == p[3..];
    assert p[1..][1..] == p[2..];
    assert WithMajor(p[2..], 3) == t;
    assert WithMajor(p, 3) == WithMajor(p[2..], 3);
  }

  /** Two records with patch 0: the first one is chosen. */
  lemma TieOfTwo(g: seq<ParsedTag>)
    requires |g| == 2 && g[0].patch == 0 && g[1].patch == 0
    ensures |WithPatch(g, LeastPatch(g))| > 0 && WithPatch(g, LeastPatch(g))[0] == g[0]
  {
    assert LeastPatch(g) == 0;
  }

  /** Six well-formed tags whose majors run 1, 1, 2, 2, 3, 3 and whose last
      two have patch 0: the fifth is chosen. */
  lemma SixChoice(tags: seq<string>)
    requires |tags| == 6 && AllWellFormed(tags)
    requires VersionOf(tags[0]).major == 1 && VersionOf(tags[1]).major == 1
    requires VersionOf(tags[2]).major == 2 && VersionOf(tags[3]).major == 2
    requires VersionOf(tags[4]).major == 3 && VersionOf(tags[5]).major == 3
    requires VersionOf(tags[4]).patch == 0 && VersionOf(tags[5]).patch == 0
    ensures HasValid(tags) && Choice(tags).original == tags[4]
  {
    assert WellFormed(tags[0]);
    ParseValidAll(tags);
    MaxOfSix(ParseValid(tags));
    GroupOfSix(ParseValid(tags));
    TieOfTwo(TopGroup(tags));
  }

  /** The versions of six single-digit tags, read off their characters. */
  lemma SixVersions(tags: seq<string>)
    requires |tags| == 6
    requires ShortShape(tags[0]) && ShortShape(tags[1]) && ShortShape(tags[2])
    requires ShortShape(tags[3]) && ShortShape(tags[4]) && ShortShape(tags[5])
    ensures AllWellFormed(tags)
    ensures forall j :: 0 <= j < 6 ==> VersionOf(tags[j]).major == (tags[j][1] as int) - ('0' as int)
    ensures VersionOf(tags[4]).patch == (tags[4][5] as int) - ('0' as int)
    ensures VersionOf(tags[5]).patch == (tags[5][5] as int) - ('0' as int)
  {
    ShortTag(tags[0]);
    ShortTag(tags[1]);
    ShortTag(tags[2]);
    ShortTag(tags[3]);
    ShortTag(tags[4]);
    ShortTag(tags[5]);
    forall j | 0 <= j < 6 ensures WellFormed(tags[j]) && VersionOf(tags[j]).major == (tags[j][1] as int) - ('0' as int) {
      ShortTag(tags[j]);
    }
  }

  /** The same, read off the characters of six single-digit tags. */
  lemma SixShortChoice(tags: seq<string>)
    requires |tags| == 6
    requires ShortShape(tags[0]) && ShortShape(tags[1]) && ShortShape(tags[2])
    requires ShortShape(tags[3]) && ShortShape(tags[4]) && ShortShape(tags[5])
    requires tags[0][1] == '1' && tags[1][1] == '1' && tags[2][1] == '2' && tags[3][1] == '2'
    requires tags[4][1] == '3' && tags[5][1] == '3' && tags[4][5] == '0' && tags[5][5] == '0'
    ensures HasValid(tags) && Choice(tags).original == tags[4]
  {
    SixVersions(tags);
    assert VersionOf(tags[0]).major == 1 && VersionOf(tags[1]).major == 1;
    assert VersionOf(tags[2]).major == 2 && VersionOf(tags[3]).major == 2;
    assert VersionOf(tags[4]).major == 3 && VersionOf(tags[5]).major == 3;
    SixChoice(tags);
  }

  /** With the built-in list the resolver answers `v3.0.0`: `v3.0.0` and
      `v3.1.0` tie on major and patch, and the earlier one wins. */
  lemma BuiltinChoice()
    ensures HasValid(BuiltinTags)
    ensures Choice(BuiltinTags).original == "v3.0.0"
  {
    SixShortChoice(BuiltinTags);
  }
}
