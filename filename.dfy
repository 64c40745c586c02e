/**
 * The filename a featured module's feed summary carries: the first group of
 * `re.search('Filename:</b>(.*?)<br', summary)`, stripped of whitespace.
 * The regular expression is spelled out: the search tries start positions
 * from left to right; at each it needs the literal opening marker, then the
 * lazy group `(.*?)` grows one character at a time (never over a newline,
 * which `.` does not match) until the closing `<br` follows it.
 */
module FilenameExtraction {
  import opened Wrappers
  import opened PyStr

  const Opening: string := "Filename:</b>"
  const Closing: string := "<br"

  predicate OccursAt(s: string, pat: string, i: nat) {
    i + |pat| <= |s| && s[i..i + |pat|] == pat
  }

  /** The lazy group that starts at `k` ends at `j`: `<br` starts at `j`, and
      `s[k..j]` holds neither a newline nor an earlier `<br`. */
  predicate ClosesAt(s: string, k: nat, j: nat) {
    k <= j && OccursAt(s, Closing, j)
    && forall m :: k <= m < j ==> s[m] != '\n' && !OccursAt(s, Closing, m)
  }

  /** The pattern matches at start position `i` with its group ending at `j`. */
  predicate MatchAt(s: string, i: nat, j: nat) {
    OccursAt(s, Opening, i) && ClosesAt(s, i + |Opening|, j)
  }

  ghost predicate NoMatchAt(s: string, i: nat) {
    forall j :: !MatchAt(s, i, j)
  }

  /** The match `re.search` reports: the leftmost start position that matches. */
  ghost predicate FirstMatch(s: string, i: nat, j: nat) {
    MatchAt(s, i, j) && forall i' :: 0 <= i' < i ==> NoMatchAt(s, i')
  }

  /** A match: where the opening marker starts and where the closing `<br` starts. */
  datatype Span = Span(start: nat, end: nat)

  /** Where the lazy group started at `k` ends, if it can end at all. */
  function CloseFrom(s: string, k: nat): (r: Option<nat>)
    decreases |s| - k
    ensures r.Some? ==> k <= r.value && r.value + |Closing| <= |s|
  {
    if OccursAt(s, Closing, k) then Some(k)
    else if k < |s| && s[k] != '\n' then CloseFrom(s, k + 1)
    else None
  }

  /** `CloseFrom` finds the end of the lazy group exactly when there is one. */
  lemma {:induction false} CloseFromCorrect(s: string, k: nat)
    decreases |s| - k
    ensures CloseFrom(s, k).Some? ==> ClosesAt(s, k, CloseFrom(s, k).value)
    ensures CloseFrom(s, k).None? ==> forall j :: !ClosesAt(s, k, j)
  {
    if !OccursAt(s, Closing, k) && k < |s| && s[k] != '\n' {
      CloseFromCorrect(s, k + 1);
      assert forall j :: ClosesAt(s, k, j) ==> ClosesAt(s, k + 1, j);
    }
  }

  /** The search from start position `i` onwards. */
  function SearchFrom(s: string, i: nat): (r: Option<Span>)
    decreases |s| - i
    ensures r.Some? ==> r.value.start + |Opening| <= r.value.end <= |s|
  {
    var close := CloseFrom(s, i + |Opening|);
    if OccursAt(s, Opening, i) && close.Some? then Some(Span(i, close.value))
    else if i < |s| then SearchFrom(s, i + 1)
    else None
  }

  /** No match starts at `i` when the search steps past it. */
  lemma NoMatchWhenSkipped(s: string, i: nat)
    requires !(OccursAt(s, Opening, i) && CloseFrom(s, i + |Opening|).Some?)
    ensures NoMatchAt(s, i)
  {
    CloseFromCorrect(s, i + |Opening|);
  }

  /** A span `SearchFrom` reports is the leftmost match at or after `i`. */
  lemma {:induction false} SearchFromFinds(s: string, i: nat)
    decreases |s| - i
    requires SearchFrom(s, i).Some?
    ensures var span := SearchFrom(s, i).value;
      i <= span.start && MatchAt(s, span.start, span.end)
      && forall i' :: i <= i' < span.start ==> NoMatchAt(s, i')
  {
    if OccursAt(s, Opening, i) && CloseFrom(s, i + |Opening|).Some? {
      CloseFromCorrect(s, i + |Opening|);
    } else {
      NoMatchWhenSkipped(s, i);
      SearchFromFinds(s, i + 1);
    }
  }

  /** When `SearchFrom` reports nothing, nothing matches at or after `i`. */
  lemma {:induction false} SearchFromMisses(s: string, i: nat)
    decreases |s| - i
    requires SearchFrom(s, i).None?
    ensures forall i', j :: i <= i' ==> !MatchAt(s, i', j)
  {
    NoMatchWhenSkipped(s, i);
    if i < |s| {
      SearchFromMisses(s, i + 1);
    }
  }

  /** The filename of a summary, or None where `re.search` finds no match
      (the constructor then fails: subscripting None raises). */
  function ExtractFilename(summary: string): Option<string> {
    match SearchFrom(summary, 0)
    case None => None
    case Some(span) => Some(Strip(summary[span.start + |Opening|..span.end]))
  }

  /** The extracted filename is the stripped text between the opening marker
      of the leftmost match and the nearest `<br` after it; there is none
      exactly when the pattern matches nowhere. */
  lemma ExtractFilenameCorrect(summary: string)
    ensures ExtractFilename(summary).None? <==> forall i, j :: !MatchAt(summary, i, j)
    ensures ExtractFilename(summary).Some? ==>
      exists i: nat, j: nat :: FirstMatch(summary, i, j) && ExtractFilename(summary).value == Strip(summary[i + |Opening|..j])
  {
    match SearchFrom(summary, 0)
    case None =>
      SearchFromMisses(summary, 0);
    case Some(span) =>
      SearchFromFinds(summary, 0);
      assert FirstMatch(summary, span.start, span.end);
  }

  /** The match `ExtractFilename` reads is unique, so the filename is determined. */
  lemma FirstMatchUnique(s: string, i1: nat, j1: nat, i2: nat, j2: nat)
    requires FirstMatch(s, i1, j1) && FirstMatch(s, i2, j2)
    ensures i1 == i2 && j1 == j2
  {
    assert i1 < i2 ==> NoMatchAt(s, i1);
    assert i2 < i1 ==> NoMatchAt(s, i2);
    var k := i1 + |Opening|;
    assert ClosesAt(s, k, j1) && ClosesAt(s, i2 + |Opening|, j2);
    assert j1 < j2 && i1 == i2 ==> !OccursAt(s, Closing, j1);
    assert j2 < j1 && i1 == i2 ==> !OccursAt(s, Closing, j2);
  }
}
