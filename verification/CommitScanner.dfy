/**
 The two patterns that taiga/hooks/event_hooks.py looks for in a lower-cased commit message,
 tg-(\d+) and tg-(\d+) +#([-\w]+), and the left-to-right non-overlapping scan of `finditer`.

 What counts as a digit or a word character is a parameter, since Python's classes range over
 Unicode; the proofs use only that neither a blank nor the letter t is a digit.
 */
module CommitScanner {
  import opened Wrappers

  datatype Classes = Classes(isDigit: char -> bool, isWord: char -> bool)

  predicate Sensible(cc: Classes) {
    !cc.isDigit(' ') && !cc.isDigit('t')
  }

  datatype Pattern = Mention | StatusChange

  datatype Found = Found(start: nat, stop: nat, ref: string, slug: string)

  // -------------------------------------------------------------------------
  // The language of the patterns
  // -------------------------------------------------------------------------

  predicate NonemptyOf(p: char -> bool, s: string) {
    s != "" && forall i :: 0 <= i < |s| ==> p(s[i])
  }

  predicate IsBlank(c: char) { c == ' ' }

  function SlugChar(cc: Classes): char -> bool {
    c => c == '-' || cc.isWord(c)
  }

  /** The word splits into the pattern's pieces with these groups: digits; blanks; dashes and word characters. */
  ghost predicate Spells(cc: Classes, pattern: Pattern, word: string, ref: string, slug: string) {
    ref != "" && (forall i :: 0 <= i < |ref| ==> cc.isDigit(ref[i])) &&
    match pattern
    case Mention => slug == "" && word == "tg-" + ref
    case StatusChange =>
      slug != "" && (forall i :: 0 <= i < |slug| ==> slug[i] == '-' || cc.isWord(slug[i])) &&
      exists gap ::
        gap != "" && (forall i :: 0 <= i < |gap| ==> gap[i] == ' ') && word == "tg-" + ref + gap + "#" + slug
  }

  // -------------------------------------------------------------------------
  // The matcher and the scan
  // -------------------------------------------------------------------------

  function RunEnd(p: char -> bool, text: string, i: nat): (e: nat)
    requires i <= |text|
    ensures i <= e <= |text|
    ensures forall k :: i <= k < e ==> p(text[k])
    ensures e < |text| ==> !p(text[e])
    decreases |text| - i
  {
    if i < |text| && p(text[i]) then RunEnd(p, text, i + 1) else i
  }

  /** The greedy match that starts at position `i`, if there is one. */
  function MatchAt(cc: Classes, pattern: Pattern, text: string, i: nat): (m: Option<Found>)
    ensures m.Some? ==> m.value.start == i && i < m.value.stop <= |text|
  {
    if i + 3 > |text| || text[i..i + 3] != "tg-" then None
    else
      var digits := RunEnd(cc.isDigit, text, i + 3);
      if digits == i + 3 then None
      else
        match pattern
        case Mention => Some(Found(i, digits, text[i + 3..digits], ""))
        case StatusChange =>
          var blanks := RunEnd(IsBlank, text, digits);
          if blanks == digits || blanks == |text| || text[blanks] != '#' then None
          else
            var slug := RunEnd(SlugChar(cc), text, blanks + 1);
            if slug == blanks + 1 then None
            else Some(Found(i, slug, text[i + 3..digits], text[blanks + 1..slug]))
  }

  function FindAll(cc: Classes, pattern: Pattern, text: string, from: nat): seq<Found>
    decreases |text| - from
  {
    if from >= |text| then []
    else
      match MatchAt(cc, pattern, text, from)
      case None => FindAll(cc, pattern, text, from + 1)
      case Some(m) => [m] + FindAll(cc, pattern, text, m.stop)
  }

  function Refs(ms: seq<Found>): (refs: seq<string>)
    ensures |refs| == |ms|
  {
    seq(|ms|, i requires 0 <= i < |ms| => ms[i].ref)
  }

  // -------------------------------------------------------------------------
  // The matcher recognises the language, greedily
  // -------------------------------------------------------------------------

  lemma MatchSpells(cc: Classes, pattern: Pattern, text: string, i: nat)
    requires MatchAt(cc, pattern, text, i).Some?
    ensures var m := MatchAt(cc, pattern, text, i).value; Spells(cc, pattern, text[i..m.stop], m.ref, m.slug)
  {
    var m := MatchAt(cc, pattern, text, i).value;
    var digits := RunEnd(cc.isDigit, text, i + 3);
    assert text[i..digits] == "tg-" + text[i + 3..digits];
    if pattern.StatusChange? {
      var blanks := RunEnd(IsBlank, text, digits);
      var gap := text[digits..blanks];
      assert NonemptyOf(IsBlank, gap);
      assert text[i..m.stop] == text[i..digits] + gap + "#" + m.slug;
    }
  }

  /** Where a piece of the word `text[i..j]` lies in the text. */
  lemma PieceInText(text: string, i: nat, j: nat, before: string, piece: string, after: string)
    requires i <= j <= |text| && text[i..j] == before + piece + after
    ensures
      var at := i + |before|;
      at + |piece| <= j && text[at..at + |piece|] == piece && text[at + |piece|..j] == after
  {
    var word, at := text[i..j], i + |before|;
    forall k | 0 <= k < |piece| ensures text[at + k] == piece[k] {
      assert word[|before| + k] == (before + piece)[|before| + k];
    }
    forall k | 0 <= k < |after| ensures text[at + |piece| + k] == after[k] {
      assert word[|before| + |piece| + k] == after[k];
    }
  }

  lemma RunReaches(p: char -> bool, text: string, i: nat, piece: string)
    requires i + |piece| <= |text| && text[i..i + |piece|] == piece && NonemptyOf(p, piece)
    ensures piece != "" && p(piece[0]) && RunEnd(p, text, i) >= i + |piece| && piece <= text[i..RunEnd(p, text, i)]
    ensures i + |piece| < |text| && !p(text[i + |piece|]) ==> RunEnd(p, text, i) == i + |piece|
  {
    forall k | i <= k < i + |piece| ensures p(text[k]) {
      assert text[k] == piece[k - i];
    }
  }

  /**
   Every word of the language at a position is found there, with its groups: the whole digit run, the longest
   slug.
   */
  lemma SpelledIsMatched(cc: Classes, pattern: Pattern, text: string, i: nat, j: nat, ref: string, slug: string)
    requires Sensible(cc) && i <= j <= |text| && Spells(cc, pattern, text[i..j], ref, slug)
    ensures MatchAt(cc, pattern, text, i).Some?
    ensures
      var m := MatchAt(cc, pattern, text, i).value;
      j <= m.stop && ref <= m.ref && slug <= m.slug && (pattern.StatusChange? ==> ref == m.ref)
  {
    match pattern
    case Mention =>
      PieceInText(text, i, j, "", "tg-", ref);
      PieceInText(text, i, j, "tg-", ref, "");
      RunReaches(cc.isDigit, text, i + 3, ref);
    case StatusChange =>
      var gap :| NonemptyOf(IsBlank, gap) && text[i..j] == "tg-" + ref + gap + "#" + slug;
      StatusWordIsMatched(cc, text, i, j, ref, gap, slug);
  }

  lemma StatusWordIsMatched(cc: Classes, text: string, i: nat, j: nat, ref: string, gap: string, slug: string)
    requires Sensible(cc) && i <= j <= |text| && text[i..j] == "tg-" + ref + gap + "#" + slug
    requires NonemptyOf(cc.isDigit, ref) && NonemptyOf(IsBlank, gap) && NonemptyOf(SlugChar(cc), slug)
    ensures MatchAt(cc, StatusChange, text, i).Some?
    ensures var m := MatchAt(cc, StatusChange, text, i).value; j <= m.stop && ref == m.ref && slug <= m.slug
  {
    var d := i + 3 + |ref|;
    var b := d + |gap|;
    hide RunEnd, NonemptyOf, SlugChar;
    StatusPieces(text, i, j, ref, gap, slug);
    assert text[b] == text[b..b + 1][0] == '#';
    RunReaches(IsBlank, text, d, gap);
    assert text[d] == text[d..b][0] == ' ';
    RunReaches(cc.isDigit, text, i + 3, ref);
    RunReaches(SlugChar(cc), text, b + 1, slug);
  }

  lemma StatusPieces(text: string, i: nat, j: nat, ref: string, gap: string, slug: string)
    requires i <= j <= |text| && text[i..j] == "tg-" + ref + gap + "#" + slug
    ensures
      var d := i + 3 + |ref|;
      var b := d + |gap|;
      b < j && text[i..i + 3] == "tg-" && text[i + 3..d] == ref && text[d..b] == gap &&
      text[b..b + 1] == "#" && text[b + 1..j] == slug
  {
    assert text[i..j] == "" + "tg-" + (ref + gap + "#" + slug);
    PieceInText(text, i, j, "", "tg-", ref + gap + "#" + slug);
    assert text[i..j] == "tg-" + ref + (gap + "#" + slug);
    PieceInText(text, i, j, "tg-", ref, gap + "#" + slug);
    assert text[i..j] == ("tg-" + ref) + gap + ("#" + slug);
    PieceInText(text, i, j, "tg-" + ref, gap, "#" + slug);
    PieceInText(text, i, j, "tg-" + ref + gap, "#", slug);
  }

  // -------------------------------------------------------------------------
  // The scan returns exactly the leftmost non-overlapping matches
  // -------------------------------------------------------------------------

  /** Some word of the language starts here. */
  ghost predicate Starts(cc: Classes, pattern: Pattern, text: string, i: nat) {
    exists j, ref, slug :: i <= j <= |text| && Spells(cc, pattern, text[i..j], ref, slug)
  }

  /**
   Matches in order and apart, each the greedy one at its start, such that every start of a word lies in one of
   them.
   */
  ghost predicate LeftmostMatches(cc: Classes, pattern: Pattern, text: string, from: nat, ms: seq<Found>) {
    (forall k :: 0 <= k < |ms| ==> from <= ms[k].start && MatchAt(cc, pattern, text, ms[k].start) == Some(ms[k])) &&
    (forall k, l :: 0 <= k < l < |ms| ==> ms[k].stop <= ms[l].start) &&
    (forall i: nat :: from <= i && Starts(cc, pattern, text, i) ==> Covered(ms, i))
  }

  ghost predicate Covered(ms: seq<Found>, i: nat) {
    exists k :: 0 <= k < |ms| && ms[k].start <= i < ms[k].stop
  }

  lemma StartsIffMatched(cc: Classes, pattern: Pattern, text: string, i: nat)
    requires Sensible(cc)
    ensures Starts(cc, pattern, text, i) <==> MatchAt(cc, pattern, text, i).Some?
  {
    if Starts(cc, pattern, text, i) {
      var j, ref, slug :| i <= j <= |text| && Spells(cc, pattern, text[i..j], ref, slug);
      SpelledIsMatched(cc, pattern, text, i, j, ref, slug);
    }
    if MatchAt(cc, pattern, text, i).Some? {
      MatchSpells(cc, pattern, text, i);
    }
  }

  lemma {:induction false} FindAllIsLeftmost(cc: Classes, pattern: Pattern, text: string, from: nat)
    requires Sensible(cc)
    ensures LeftmostMatches(cc, pattern, text, from, FindAll(cc, pattern, text, from))
    decreases |text| - from
  {
    hide MatchAt, Starts;
    var ms := FindAll(cc, pattern, text, from);
    if from < |text| {
      match MatchAt(cc, pattern, text, from)
      case None => FindAllIsLeftmost(cc, pattern, text, from + 1);
      case Some(m) => FindAllIsLeftmost(cc, pattern, text, m.stop);
    }
    forall i: nat | from <= i && Starts(cc, pattern, text, i) ensures Covered(ms, i) {
      StartsIffMatched(cc, pattern, text, i);
      if MatchAt(cc, pattern, text, from).Some? {
        var m := MatchAt(cc, pattern, text, from).value;
        if i < m.stop {
          assert ms[0].start <= i < ms[0].stop;
        } else {
          var rest := FindAll(cc, pattern, text, m.stop);
          var k :| 0 <= k < |rest| && rest[k].start <= i < rest[k].stop;
          assert ms[k + 1] == rest[k];
        }
      }
    }
  }

  /** There is only one such list, so the scan is pinned down completely. */
  lemma {:induction false} LeftmostMatchesUnique(
      cc: Classes, pattern: Pattern, text: string, from: nat, ms: seq<Found>, ns: seq<Found>)
    requires Sensible(cc)
    requires LeftmostMatches(cc, pattern, text, from, ms) && LeftmostMatches(cc, pattern, text, from, ns)
    ensures ms == ns
    decreases |ms|
  {
    if ms != [] && ns != [] {
      FirstIsLeftmost(cc, pattern, text, from, ms, ns);
      FirstIsLeftmost(cc, pattern, text, from, ns, ms);
      RestIsLeftmost(cc, pattern, text, from, ms);
      RestIsLeftmost(cc, pattern, text, from, ns);
      LeftmostMatchesUnique(cc, pattern, text, ms[0].stop, ms[1..], ns[1..]);
    } else if ms != [] {
      StartsIffMatched(cc, pattern, text, ms[0].start);
    } else if ns != [] {
      StartsIffMatched(cc, pattern, text, ns[0].start);
    }
  }

  lemma FirstIsLeftmost(cc: Classes, pattern: Pattern, text: string, from: nat, ms: seq<Found>, ns: seq<Found>)
    requires Sensible(cc) && ms != [] && ns != []
    requires LeftmostMatches(cc, pattern, text, from, ms) && LeftmostMatches(cc, pattern, text, from, ns)
    ensures ns[0].start <= ms[0].start
  {
    hide MatchAt, Starts;
    StartsIffMatched(cc, pattern, text, ms[0].start);
    assert Covered(ns, ms[0].start);
  }

  lemma RestIsLeftmost(cc: Classes, pattern: Pattern, text: string, from: nat, ms: seq<Found>)
    requires LeftmostMatches(cc, pattern, text, from, ms) && ms != []
    ensures LeftmostMatches(cc, pattern, text, ms[0].stop, ms[1..])
  {
    hide MatchAt, Starts;
    forall i: nat | ms[0].stop <= i && Starts(cc, pattern, text, i) ensures Covered(ms[1..], i) {
      var k :| 0 <= k < |ms| && ms[k].start <= i < ms[k].stop;
      assert ms[1..][k - 1] == ms[k];
    }
  }

  // -------------------------------------------------------------------------
  // The two passes
  // -------------------------------------------------------------------------

  /** The plain pass returns every occurrence in the text, with its maximal digit run. */
  lemma EveryMentionIsFound(cc: Classes, text: string, i: nat)
    requires Sensible(cc)
    ensures
      Starts(cc, Mention, text, i) <==>
      exists k :: 0 <= k < |FindAll(cc, Mention, text, 0)| && FindAll(cc, Mention, text, 0)[k].start == i
    ensures Starts(cc, Mention, text, i) ==>
      MatchAt(cc, Mention, text, i).Some? && MatchAt(cc, Mention, text, i).value in FindAll(cc, Mention, text, 0)
  {
    var ms := FindAll(cc, Mention, text, 0);
    FindAllIsLeftmost(cc, Mention, text, 0);
    StartsIffMatched(cc, Mention, text, i);
    if Starts(cc, Mention, text, i) {
      assert Covered(ms, i);
      var k :| 0 <= k < |ms| && ms[k].start <= i < ms[k].stop;
      if ms[k].start < i {
        MentionsDoNotOverlap(cc, text, ms[k].start, i);
      }
    } else if k :| 0 <= k < |ms| && ms[k].start == i {
      assert MatchAt(cc, Mention, text, ms[k].start) == Some(ms[k]);
    }
  }

  lemma MentionsDoNotOverlap(cc: Classes, text: string, i: nat, j: nat)
    requires Sensible(cc) && i < j
    requires MatchAt(cc, Mention, text, i).Some? && MatchAt(cc, Mention, text, j).Some?
    ensures MatchAt(cc, Mention, text, i).value.stop <= j
  {
    assert text[i..i + 3] == "tg-" && text[j..j + 3] == "tg-";
    assert text[j] == text[j..j + 3][0] == 't';
    assert text[i + 1] == text[i..i + 3][1] && text[i + 2] == text[i..i + 3][2];
  }

  /** Every reference of the status pass is also a reference of the plain pass. */
  lemma StatusRefsAreMentioned(cc: Classes, text: string, k: nat)
    requires Sensible(cc) && k < |FindAll(cc, StatusChange, text, 0)|
    ensures
      var m := FindAll(cc, StatusChange, text, 0)[k];
      exists l :: 0 <= l < |FindAll(cc, Mention, text, 0)| &&
        FindAll(cc, Mention, text, 0)[l].start == m.start && FindAll(cc, Mention, text, 0)[l].ref == m.ref
  {
    var m := FindAll(cc, StatusChange, text, 0)[k];
    FindAllIsLeftmost(cc, StatusChange, text, 0);
    assert MatchAt(cc, StatusChange, text, m.start) == Some(m);
    var mention := MatchAt(cc, Mention, text, m.start);
    assert mention.Some? && mention.value.ref == m.ref;
    StartsIffMatched(cc, Mention, text, m.start);
    EveryMentionIsFound(cc, text, m.start);
    var ms := FindAll(cc, Mention, text, 0);
    var l :| 0 <= l < |ms| && ms[l] == mention.value;
  }
}
