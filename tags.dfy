/** Version tags of the form `vMAJOR.MINOR.PATCH` and the anchored parser
    `parseTag` of src/context/StoryContext.tsx. The other two tag resolvers
    read the same three numbers out of well-formed tags. */
module Tags {
  import opened Wrappers
  import opened Strings

  datatype Version = Version(major: nat, minor: nat, patch: nat)

  /** A tag together with its three numbers, the record every resolver
      builds before it sorts. */
  datatype ParsedTag = ParsedTag(major: nat, minor: nat, patch: nat, original: string)

  /** The string `v<a>.<b>.<c>`. */
  function Render(a: string, b: string, c: string): string
  {
    "v" + a + "." + b + "." + c
  }

  /** `parseTag`: the three numbers of a string that matches
      `^v(\d+)\.(\d+)\.(\d+)$` in full, and `None` for any other string. */
  function ParseTag(tag: string): Option<Version>
  {
    if |tag| == 0 || tag[0] != 'v' then None
    else
      var parts := Split(tag[1..], '.');
      if |parts| == 3 && IsDigits(parts[0]) && IsDigits(parts[1]) && IsDigits(parts[2])
      then Some(Version(DigitsValue(parts[0]), DigitsValue(parts[1]), DigitsValue(parts[2])))
      else None
  }

  predicate WellFormed(tag: string)
  {
    ParseTag(tag).Some?
  }

  /** The parsed record of a well-formed tag. */
  function Parsed(tag: string): (p: ParsedTag)
    requires WellFormed(tag)
    ensures p.original == tag
  {
    var v := ParseTag(tag).value;
    ParsedTag(v.major, v.minor, v.patch, tag)
  }

  /** The version of a well-formed tag. */
  function VersionOf(tag: string): Version
    requires WellFormed(tag)
  {
    ParseTag(tag).value
  }

  predicate AllWellFormed(tags: seq<string>)
  {
    forall i :: 0 <= i < |tags| ==> WellFormed(tags[i])
  }

  /** `tags.map(parse)` over tags that are all well-formed. */
  function ParseAll(tags: seq<string>): (r: seq<ParsedTag>)
    requires AllWellFormed(tags)
    ensures |r| == |tags|
    ensures forall i :: 0 <= i < |r| ==>
              r[i].original == tags[i] && r[i].major == VersionOf(tags[i]).major
              && r[i].minor == VersionOf(tags[i]).minor && r[i].patch == VersionOf(tags[i]).patch
  {
    seq(|tags|, i requires 0 <= i < |tags| => Parsed(tags[i]))
  }

  /** A parsed record among `ParseAll(tags)` comes from one of the tags and
      carries that tag's version. */
  lemma ParseAllMember(tags: seq<string>, p: ParsedTag)
    requires AllWellFormed(tags)
    requires p in ParseAll(tags)
    ensures p.original in tags
    ensures VersionOf(p.original) == Version(p.major, p.minor, p.patch)
  {
    var i :| 0 <= i < |ParseAll(tags)| && ParseAll(tags)[i] == p;
  }

  /** The canonical tag of a version. */
  function FormatTag(v: Version): string
  {
    Render(NatToString(v.major), NatToString(v.minor), NatToString(v.patch))
  }

  /** A digit run contains no dot. */
  lemma DigitsNoDot(a: string)
    requires AllDigits(a)
    ensures '.' !in a
  {
    assert forall i :: 0 <= i < |a| ==> IsDigit(a[i]);
  }

  /** Three dot-free pieces joined by dots split back into the pieces. */
  lemma SplitThree(a: string, b: string, c: string)
    requires '.' !in a && '.' !in b && '.' !in c
    ensures Split(a + "." + b + "." + c, '.') == [a, b, c]
  {
    assert a + "." + b + "." + c == a + ['.'] + (b + ['.'] + c);
    SplitConcat(a, b + ['.'] + c, '.');
    SplitConcat(b, c, '.');
    SplitNoSep(a, '.');
    SplitNoSep(b, '.');
    SplitNoSep(c, '.');
  }

  /** Every string of the pattern parses, to the values of its digit runs. */
  lemma ParseTagComplete(a: string, b: string, c: string)
    requires IsDigits(a) && IsDigits(b) && IsDigits(c)
    ensures ParseTag(Render(a, b, c)) == Some(Version(DigitsValue(a), DigitsValue(b), DigitsValue(c)))
  {
    var body := a + "." + b + "." + c;
    assert Render(a, b, c)[1..] == body;
    DigitsNoDot(a);
    DigitsNoDot(b);
    DigitsNoDot(c);
    SplitThree(a, b, c);
  }

  /** Only strings of the pattern parse, and they parse to the values of
      their digit runs. */
  lemma ParseTagSound(tag: string)
    requires ParseTag(tag).Some?
    ensures exists a, b, c ::
              IsDigits(a) && IsDigits(b) && IsDigits(c) && tag == Render(a, b, c)
              && ParseTag(tag).value == Version(DigitsValue(a), DigitsValue(b), DigitsValue(c))
  {
    var parts := Split(tag[1..], '.');
    JoinSplit(tag[1..], '.');
    var a, b, c := parts[0], parts[1], parts[2];
    assert parts[1..][1..] == [c];
    assert Join(parts[1..][1..], '.') == c;
    assert Join(parts[1..], '.') == b + ['.'] + c;
    assert Join(parts, '.') == a + ['.'] + (b + ['.'] + c);
    assert tag == [tag[0]] + tag[1..];
    assert tag == Render(a, b, c);
  }

  /** Formatting a version and parsing the result gives the version back. */
  lemma ParseFormat(v: Version)
    ensures ParseTag(FormatTag(v)) == Some(v)
  {
    ParseTagComplete(NatToString(v.major), NatToString(v.minor), NatToString(v.patch));
  }

  /** A tag with single-digit fields, such as the built-in `v2.0.1`. */
  lemma SingleDigitTag(x: char, y: char, z: char)
    requires IsDigit(x) && IsDigit(y) && IsDigit(z)
    ensures ParseTag(['v', x, '.', y, '.', z])
            == Some(Version((x as int) - ('0' as int), (y as int) - ('0' as int), (z as int) - ('0' as int)))
  {
    assert ['v', x, '.', y, '.', z] == Render([x], [y], [z]);
    ParseTagComplete([x], [y], [z]);
    assert [x][..0] == [];
  }

  /** `v<d>.<d>.<d>` with single digits. */
  predicate ShortShape(t: string)
  {
    |t| == 6 && t[0] == 'v' && t[2] == '.' && t[4] == '.' && IsDigit(t[1]) && IsDigit(t[3]) && IsDigit(t[5])
  }

  /** The same for a tag given as a string. */
  lemma ShortTag(t: string)
    requires ShortShape(t)
    ensures WellFormed(t)
    ensures VersionOf(t) == Version((t[1] as int) - ('0' as int), (t[3] as int) - ('0' as int), (t[5] as int) - ('0' as int))
  {
    assert t == ['v', t[1], '.', t[3], '.', t[5]];
    SingleDigitTag(t[1], t[3], t[5]);
  }
}
