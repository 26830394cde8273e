/**
 * The check that a Javadoc comment carries a required tag (such as `@since`)
 * whose text has the required format.
 *
 * The two regular expressions are abstract: the tag pattern is a function from
 * a line to the named groups of a full match (or None when the line does not
 * match), and the content pattern is a full-match test together with the
 * pattern's source text.
 */
module JavadocTag {
  import opened Wrappers

  /** A Java `int`. */
  newtype int32 = x: int | -0x8000_0000 <= x < 0x8000_0000

  /** Java's `x + 1` on `int`, which wraps from the largest value to the smallest. */
  function Inc(x: int32): (r: int32)
    ensures (r as int - x as int - 1) % 0x1_0000_0000 == 0
  {
    if x == 0x7fff_ffff then -0x8000_0000 else x + 1
  }

  /**
   * The named groups `name` and `cont` of a full match; a group that took no
   * part is None. The tag pattern is assumed to define both groups (Java
   * raises IllegalArgumentException for a group name the pattern lacks).
   */
  datatype Groups = Groups(name: Option<string>, cont: Option<string>)

  /** The tag-search pattern: the groups of a full match of a line, or None. */
  type TagPattern = string -> Option<Groups>

  /** The content pattern: its source text and whether it fully matches a string. */
  datatype Pattern = Pattern(source: string, matches: string -> bool)

  /** One reported violation: a line, a message template and its arguments. */
  datatype Entry = Entry(line: int32, message: string, args: seq<string>)

  const MissingMessage: string := "Missing ''@{0}'' tag in class/interface comment"
  const MismatchMessage: string := "Tag text ''{0}'' does not match the pattern ''{1}''"

  /**
   * Java's Character.isWhitespace: a Unicode space, line or paragraph
   * separator other than the no-break spaces U+00A0, U+2007 and U+202F, or
   * one of U+0009..U+000D and U+001C..U+001F.
   */
  predicate IsWhitespace(c: char)
  {
    var n := c as int;
    (0x09 <= n <= 0x0D) || (0x1C <= n <= 0x20) || n == 0x1680 ||
    (0x2000 <= n <= 0x2006) || (0x2008 <= n <= 0x200A) ||
    n == 0x2028 || n == 0x2029 || n == 0x205F || n == 0x3000
  }

  /** `s.chars().allMatch(Character::isWhitespace)`. */
  function AllWhitespace(s: string): (r: bool)
    ensures r <==> forall i :: 0 <= i < |s| ==> IsWhitespace(s[i])
  {
    s == [] || (IsWhitespace(s[0]) && AllWhitespace(s[1..]))
  }

  /** empty: null, or nothing but whitespace (so the empty string too). */
  predicate Empty(str: Option<string>)
    ensures Empty(str) <==> str.None? || forall i :: 0 <= i < |str.value| ==> IsWhitespace(str.value[i])
  {
    str == None || AllWhitespace(str.value)
  }

  /** tagFound: the line matched and both groups hold a non-whitespace character. */
  predicate TagFound(matcher: Option<Groups>)
    ensures TagFound(matcher) <==>
              matcher.Some? && matcher.value.name.Some? && matcher.value.cont.Some? &&
              (exists i :: 0 <= i < |matcher.value.name.value| && !IsWhitespace(matcher.value.name.value[i])) &&
              (exists i :: 0 <= i < |matcher.value.cont.value| && !IsWhitespace(matcher.value.cont.value[i]))
  {
    matcher.Some? && !Empty(matcher.value.name) && !Empty(matcher.value.cont)
  }

  /** The first line in `pos..end` (both inclusive) where the tag is found. */
  function FindTag(tag: TagPattern, lines: seq<string>, pos: int, end: int): (r: Option<int>)
    requires pos <= end ==> 0 <= pos && end < |lines|
    ensures r.Some? ==>
              pos <= r.value <= end && TagFound(tag(lines[r.value])) &&
              forall q :: pos <= q < r.value ==> !TagFound(tag(lines[q]))
    ensures r.None? ==> forall q :: pos <= q <= end ==> !TagFound(tag(lines[q]))
    decreases end - pos
  {
    if pos > end then None
    else if TagFound(tag(lines[pos])) then Some(pos)
    else FindTag(tag, lines, pos + 1, end)
  }

  /** `pos` is the first line of `start..end` where the tag is found. */
  predicate FirstFound(tag: TagPattern, lines: seq<string>, start: int32, end: int32, pos: int32)
  {
    start <= pos <= end && 0 <= pos as int < |lines| && TagFound(tag(lines[pos])) &&
    forall q :: start <= q < pos && 0 <= q as int < |lines| ==> !TagFound(tag(lines[q]))
  }

  /** What one call of matchTagFormat reports. */
  function Expected(name: string, tag: TagPattern, content: Pattern, lines: seq<string>, start: int32, end: int32): seq<Entry>
    requires start <= end ==> 0 <= start && end as int < |lines|
  {
    match FindTag(tag, lines, start as int, end as int)
    case None => [Entry(Inc(start), MissingMessage, [name])]
    case Some(pos) =>
      var cont := tag(lines[pos]).value.cont.value;
      if content.matches(cont) then []
      else [Entry(Inc(pos as int32), MismatchMessage, [cont, content.source])]
  }

  /**
   * The three outcomes of one check: a single "missing" entry at `start + 1`
   * when no line of `start..end` has the tag; otherwise, for the first line
   * `pos` that has it, a single mismatch entry at `pos + 1` carrying the tag
   * text when the content pattern rejects it, and nothing when it accepts it.
   */
  lemma ExpectedCases(name: string, tag: TagPattern, content: Pattern, lines: seq<string>, start: int32, end: int32)
    requires start <= end ==> 0 <= start && end as int < |lines|
    ensures |Expected(name, tag, content, lines, start, end)| <= 1
    ensures (forall q :: start <= q <= end ==> !TagFound(tag(lines[q]))) <==>
              Expected(name, tag, content, lines, start, end) == [Entry(Inc(start), MissingMessage, [name])]
    ensures forall pos :: FirstFound(tag, lines, start, end, pos) ==>
              var cont := tag(lines[pos]).value.cont.value;
              Expected(name, tag, content, lines, start, end) ==
                if content.matches(cont) then [] else [Entry(Inc(pos), MismatchMessage, [cont, content.source])]
  {
  }

  /** The sink the rule writes to (`Reporter.log`). */
  class Reporter {
    var entries: seq<Entry>

    constructor ()
      ensures entries == []
    {
      entries := [];
    }

    method Log(line: int32, msg: string, args: seq<string>)
      modifies this
      ensures entries == old(entries) + [Entry(line, msg, args)]
    {
      entries := entries + [Entry(line, msg, args)];
    }
  }

  class RequiredJavaDocTag {
    /** Tag name. */
    const name: string
    /** Pattern for searching the tag in a line. */
    const tag: TagPattern
    /** Pattern for checking the tag's text. */
    const content: Pattern
    /** Where violations are written. */
    const reporter: Reporter

    constructor (cname: string, ptag: TagPattern, patt: Pattern, rep: Reporter)
      ensures name == cname && tag == ptag && content == patt && reporter == rep
    {
      name := cname;
      tag := ptag;
      content := patt;
      reporter := rep;
    }

    /**
     * matchTagFormat: finds the first line of `start..end` holding the tag,
     * then reports a missing tag or a tag whose text does not match.
     */
    method MatchTagFormat(lines: array<string>, start: int32, end: int32)
      requires start <= end ==> 0 <= start && end as int < lines.Length
      modifies reporter
      ensures reporter.entries == old(reporter.entries) + Expected(name, tag, content, lines[..], start, end)
    {
      var found: map<int, string> := map[];
      var pos: int := start as int;
      while pos <= end as int
        invariant start as int <= pos
        invariant start <= end ==> pos <= end as int + 1
        invariant found == map[]
        invariant FindTag(tag, lines[..], start as int, end as int) == FindTag(tag, lines[..], pos, end as int)
        decreases end as int - pos
      {
        var line := lines[pos];
        var matcher := tag(line);
        if TagFound(matcher) {
          found := found[pos := matcher.value.cont.value];
          assert FindTag(tag, lines[..], pos, end as int) == Some(pos);
          assert pos in found;
          break;
        }
        pos := pos + 1;
      }
      if found == map[] {
        assert pos > end as int;
        assert FindTag(tag, lines[..], pos, end as int) == None;
        reporter.Log(Inc(start), MissingMessage, [name]);
      } else {
        var items := found;
        while items != map[]
          invariant items == found || items == map[]
          invariant items == found ==> reporter.entries == old(reporter.entries)
          invariant items == map[] ==>
                      reporter.entries == old(reporter.entries) + Expected(name, tag, content, lines[..], start, end)
          decreases |items|
        {
          var key :| key in items;
          if !content.matches(items[key]) {
            reporter.Log(Inc(key as int32), MismatchMessage, [items[key], content.source]);
          }
          items := items - {key};
        }
      }
    }
  }
}
