/** The work-item id grammar (herdr-dashboard/src/pick.rs) and the id a pane label starts with
  * (herdr-dashboard/src/pane_scan.rs). */
module WorkItemId {
  import opened Wrappers
  import opened Text

  predicate IsLower(c: char) {
    'a' <= c <= 'z'
  }

  predicate IsAlnum(c: char) {
    IsLower(c) || '0' <= c <= '9'
  }

  predicate AllAlnum(s: string) {
    forall c :: c in s ==> IsAlnum(c)
  }

  predicate IsValidId(id: string) {
    var segments := Split(id, '-');
    && segments[0] != "" && IsLower(segments[0][0]) && AllAlnum(segments[0])
    && forall k :: 1 <= k < |segments| ==> segments[k] != "" && AllAlnum(segments[k])
  }

  // ---------- the grammar [a-z][a-z0-9]*(-[a-z0-9]+)* ----------

  datatype Regex = Class(chars: char -> bool) | Cat(left: Regex, right: Regex) | Star(body: Regex)

  /** The language of a regular expression; a repetition is a list of words. */
  ghost predicate Matches(r: Regex, s: string)
    decreases r
  {
    match r
    case Class(chars) => |s| == 1 && chars(s[0])
    case Cat(left, right) => exists k :: 0 <= k <= |s| && Matches(left, s[..k]) && Matches(right, s[k..])
    case Star(body) => exists words: seq<string> :: s == Concat(words) && forall w :: w in words ==> Matches(body, w)
  }

  ghost function Concat(words: seq<string>): string {
    if words == [] then "" else words[0] + Concat(words[1..])
  }

  const ALNUM := Class((c: char) => IsAlnum(c))
  const SEGMENT := Cat(Class((c: char) => c == '-'), Cat(ALNUM, Star(ALNUM)))
  const ID_PATTERN := Cat(Cat(Class((c: char) => IsLower(c)), Star(ALNUM)), Star(SEGMENT))

  lemma {:induction false} AlnumStar(s: string)
    ensures Matches(Star(ALNUM), s) <==> AllAlnum(s)
  {
    if AllAlnum(s) {
      var words := Letters(s);
      assert s == Concat(words);
    }
    if Matches(Star(ALNUM), s) {
      var words :| s == Concat(words) && forall w :: w in words ==> Matches(ALNUM, w);
      AlnumWords(words);
    }
  }

  lemma {:induction false} Letters(s: string) returns (words: seq<string>)
    requires AllAlnum(s)
    ensures s == Concat(words) && forall w :: w in words ==> Matches(ALNUM, w)
  {
    words := [];
    if s != "" {
      var rest := Letters(s[1..]);
      words := [[s[0]]] + rest;
      assert words[1..] == rest;
    }
  }

  lemma {:induction false} AlnumWords(words: seq<string>)
    requires forall w :: w in words ==> Matches(ALNUM, w)
    ensures AllAlnum(Concat(words))
  {
    if words != [] {
      AlnumWords(words[1..]);
      assert Matches(ALNUM, words[0]);
    }
  }

  /** A segment of the pattern is a dash and at least one character. */
  lemma SegmentMatches(w: string)
    ensures Matches(SEGMENT, w) <==> |w| >= 2 && w[0] == '-' && AllAlnum(w[1..])
  {
    if Matches(SEGMENT, w) {
      var k :| 0 <= k <= |w| && Matches(SEGMENT.left, w[..k]) && Matches(SEGMENT.right, w[k..]);
      var tail := w[k..];
      var j :| 0 <= j <= |tail| && Matches(ALNUM, tail[..j]) && Matches(Star(ALNUM), tail[j..]);
      AlnumStar(tail[j..]);
      assert tail == w[1..] && tail == [tail[0]] + tail[1..];
    }
    if |w| >= 2 && w[0] == '-' && AllAlnum(w[1..]) {
      var tail := w[1..];
      AlnumStar(tail[1..]);
      assert Matches(ALNUM, tail[..1]) && Matches(Star(ALNUM), tail[1..]);
      assert Matches(SEGMENT.left, w[..1]) && Matches(SEGMENT.right, w[1..]);
    }
  }

  function Undash(words: seq<string>): seq<string> {
    if words == [] then [] else [if words[0] == "" then "" else words[0][1..]] + Undash(words[1..])
  }

  ghost predicate IsSegment(w: string) {
    |w| >= 2 && w[0] == '-' && AllAlnum(w[1..])
  }

  ghost predicate IsHead(s: string) {
    s != "" && IsLower(s[0]) && AllAlnum(s)
  }

  lemma HeadMatches(s: string)
    ensures Matches(ID_PATTERN.left, s) <==> IsHead(s)
  {
    if Matches(ID_PATTERN.left, s) {
      var k :| 0 <= k <= |s| && Matches(ID_PATTERN.left.left, s[..k]) && Matches(Star(ALNUM), s[k..]);
      AlnumStar(s[k..]);
      assert s == [s[0]] + s[1..];
    }
    if IsHead(s) {
      AlnumStar(s[1..]);
      assert Matches(ID_PATTERN.left.left, s[..1]) && Matches(Star(ALNUM), s[1..]);
    }
  }

  /** Joining a head and the words without their dashes gives head and words back. */
  lemma {:induction false} JoinUndashed(head: string, words: seq<string>)
    requires forall k :: 0 <= k < |words| ==> IsSegment(words[k])
    ensures Join([head] + Undash(words), '-') == head + Concat(words)
    ensures |Undash(words)| == |words|
    ensures forall k :: 0 <= k < |words| ==> words[k] != "" && Undash(words)[k] == words[k][1..]
    decreases words
  {
    if words != [] {
      var parts := [head] + Undash(words);
      JoinUndashed(words[0][1..], words[1..]);
      assert parts[1..] == [words[0][1..]] + Undash(words[1..]);
      assert words[0] == ['-'] + words[0][1..];
    }
  }

  lemma {:induction false} Dashed(segments: seq<string>) returns (words: seq<string>)
    requires forall k :: 0 <= k < |segments| ==> segments[k] != "" && AllAlnum(segments[k])
    ensures forall k :: 0 <= k < |words| ==> IsSegment(words[k])
    ensures Undash(words) == segments
  {
    words := [];
    if segments != [] {
      var rest := Dashed(segments[1..]);
      words := [['-'] + segments[0]] + rest;
      assert words[1..] == rest && words[0][1..] == segments[0];
    }
  }

  lemma SegmentWords(words: seq<string>)
    ensures (forall w :: w in words ==> Matches(SEGMENT, w)) <==> (forall k :: 0 <= k < |words| ==> IsSegment(words[k]))
  {
    forall w | w in words ensures Matches(SEGMENT, w) <==> IsSegment(w) {
      SegmentMatches(w);
    }
  }

  lemma ValidIdMatches(id: string)
    requires IsValidId(id)
    ensures Matches(ID_PATTERN, id)
  {
    var segments := Split(id, '-');
    var words := Dashed(segments[1..]);
    JoinUndashed(segments[0], words);
    JoinAfterSplit(id, '-');
    assert [segments[0]] + segments[1..] == segments;
    var k := |segments[0]|;
    assert id[..k] == segments[0] && id[k..] == Concat(words);
    HeadMatches(id[..k]);
    SegmentWords(words);
    assert Matches(ID_PATTERN.right, id[k..]);
  }

  lemma HeadAndSegmentsAreValid(head: string, words: seq<string>)
    requires IsHead(head) && forall k :: 0 <= k < |words| ==> IsSegment(words[k])
    ensures IsValidId(head + Concat(words))
  {
    JoinUndashed(head, words);
    var parts := [head] + Undash(words);
    forall j | 1 <= j < |parts| ensures parts[j] != "" && AllAlnum(parts[j]) {
      assert IsSegment(words[j - 1]);
    }
    forall part | part in parts ensures '-' !in part {
      var j :| 0 <= j < |parts| && parts[j] == part;
      assert AllAlnum(part);
    }
    SplitAfterJoin(parts, '-');
  }

  lemma MatchIsValidId(id: string)
    requires Matches(ID_PATTERN, id)
    ensures IsValidId(id)
  {
    var k :| 0 <= k <= |id| && Matches(ID_PATTERN.left, id[..k]) && Matches(ID_PATTERN.right, id[k..]);
    HeadMatches(id[..k]);
    var words :| id[k..] == Concat(words) && forall w :: w in words ==> Matches(SEGMENT, w);
    SegmentWords(words);
    HeadAndSegmentsAreValid(id[..k], words);
    assert id == id[..k] + id[k..];
  }

  /** The check accepts exactly the words of the pattern. */
  lemma IdGrammar(id: string)
    ensures IsValidId(id) <==> Matches(ID_PATTERN, id)
  {
    if IsValidId(id) {
      ValidIdMatches(id);
    }
    if Matches(ID_PATTERN, id) {
      MatchIsValidId(id);
    }
  }

  // ---------- the id a label starts with ----------

  const RESERVED := "fgos-auto-"
  const LABEL_SEPARATOR := " | "

  /** Everything before the first separator. */
  function Leading(title: string): string {
    if title == "" || LABEL_SEPARATOR <= title then "" else [title[0]] + Leading(title[1..])
  }

  function ExtractTaskId(title: string): Option<string> {
    var leading := Leading(title);
    if RESERVED <= leading || !IsValidId(leading) then None else Some(leading)
  }

  lemma {:induction false} LeadingIsPrefix(title: string)
    ensures var leading := Leading(title); title == leading || leading + LABEL_SEPARATOR <= title
  {
    if title != "" && !(LABEL_SEPARATOR <= title) {
      LeadingIsPrefix(title[1..]);
      assert title == [title[0]] + title[1..];
    }
  }

  lemma {:induction false} LeadingOfPlain(s: string, rest: string)
    requires ' ' !in s
    ensures Leading(s) == s && Leading(s + LABEL_SEPARATOR + rest) == s
  {
    var whole := s + LABEL_SEPARATOR + rest;
    if s == "" {
      assert LABEL_SEPARATOR <= whole;
    } else {
      LeadingOfPlain(s[1..], rest);
      assert whole[1..] == s[1..] + LABEL_SEPARATOR + rest;
      assert whole[0] == s[0] && s == [s[0]] + s[1..];
    }
  }

  lemma ValidIdHasNoSpace(id: string)
    requires IsValidId(id)
    ensures ' ' !in id
  {
    JoinAfterSplit(id, '-');
    var segments := Split(id, '-');
    forall part | part in segments ensures ' ' !in part {
      var k :| 0 <= k < |segments| && segments[k] == part;
      assert k == 0 || k >= 1;
    }
    SpaceNeedsPart(segments);
  }

  lemma {:induction false} SpaceNeedsPart(parts: seq<string>)
    requires forall part :: part in parts ==> ' ' !in part
    ensures ' ' !in Join(parts, '-')
  {
    if |parts| > 1 {
      SpaceNeedsPart(parts[1..]);
    }
  }

  /** A label gives an id exactly when it is a valid, unreserved id, alone or before a separator. */
  lemma ExtractedIdLeadsLabel(title: string, id: string)
    ensures ExtractTaskId(title) == Some(id) <==>
            IsValidId(id) && !(RESERVED <= id) && (title == id || id + LABEL_SEPARATOR <= title)
  {
    LeadingIsPrefix(title);
    if IsValidId(id) && (title == id || id + LABEL_SEPARATOR <= title) {
      ValidIdHasNoSpace(id);
      var rest := if title == id then "" else title[|id| + |LABEL_SEPARATOR|..];
      LeadingOfPlain(id, rest);
      assert title == id || title == id + LABEL_SEPARATOR + rest;
    }
  }
}
