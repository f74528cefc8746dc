/** The board and card rules of the Kanban issue-tracking provider: which cards are
    reported for a release and how, which lane counts as closed, how a card's
    description and lane are updated, and the reply-code check applied to every
    server reply. The HTTP requests around them are not modelled: the board a
    request would fetch is a parameter, and what would be posted back is the
    updated card. */
module KanbanProvider {
  import opened Wrappers
  import opened JsonValue
  import opened ReplyCodes
  import opened ResponseObject

  // ---------------------------------------------------------------------------
  // The release tag
  // ---------------------------------------------------------------------------

  const ReleaseNumberToken: string := "%RELNO%"

  /** The tag format a new provider starts with. */
  const DefaultReleaseNumberTagFormat: string := "rel-%RELNO%"

  /** String.Replace with a non-empty old value: occurrences are replaced left to
      right without overlapping, and the inserted text is not scanned again. */
  function ReplaceAll(s: string, pattern: string, replacement: string): string
    requires pattern != []
    decreases |s|
  {
    if |s| < |pattern| then s
    else if s[..|pattern|] == pattern then replacement + ReplaceAll(s[|pattern|..], pattern, replacement)
    else [s[0]] + ReplaceAll(s[1..], pattern, replacement)
  }

  /** The pattern occurs in `s` at position `i`. */
  predicate OccursAt(s: string, pattern: string, i: nat) {
    i + |pattern| <= |s| && s[i..i + |pattern|] == pattern
  }

  /** Text without the pattern anywhere is left unchanged. */
  lemma {:induction false} ReplaceAllNoOccurrence(s: string, pattern: string, replacement: string)
    requires pattern != []
    requires forall i: nat :: !OccursAt(s, pattern, i)
    ensures ReplaceAll(s, pattern, replacement) == s
    decreases |s|
  {
    if |s| >= |pattern| {
      assert !OccursAt(s, pattern, 0);
      assert s[0..|pattern|] == s[..|pattern|];
      forall i: nat
        ensures !OccursAt(s[1..], pattern, i)
      {
        assert !OccursAt(s, pattern, i + 1);
        if i + |pattern| <= |s[1..]| {
          assert s[1..][i..i + |pattern|] == s[i + 1..i + 1 + |pattern|];
        }
      }
      ReplaceAllNoOccurrence(s[1..], pattern, replacement);
    }
  }

  /** The first occurrence of the pattern is replaced, and the text after it is
      processed on its own: together with ReplaceAllNoOccurrence this gives every
      occurrence replaced, left to right and without overlapping. */
  lemma {:induction false} ReplaceAllAt(a: string, b: string, pattern: string, replacement: string)
    requires pattern != []
    requires forall i: nat :: i < |a| ==> !OccursAt(a + pattern + b, pattern, i)
    ensures ReplaceAll(a + pattern + b, pattern, replacement) == a + replacement + ReplaceAll(b, pattern, replacement)
    decreases |a|
  {
    var s := a + pattern + b;
    if a == [] {
      assert s == pattern + b;
      assert s[..|pattern|] == pattern;
      assert s[|pattern|..] == b;
    } else {
      assert !OccursAt(s, pattern, 0);
      assert s[0..|pattern|] == s[..|pattern|];
      assert s[1..] == a[1..] + pattern + b;
      forall i: nat | i < |a[1..]|
        ensures !OccursAt(a[1..] + pattern + b, pattern, i)
      {
        assert !OccursAt(s, pattern, i + 1);
        assert s[1..][i..i + |pattern|] == s[i + 1..i + 1 + |pattern|];
      }
      ReplaceAllAt(a[1..], b, pattern, replacement);
      assert [a[0]] + (a[1..] + replacement + ReplaceAll(b, pattern, replacement))
          == a + replacement + ReplaceAll(b, pattern, replacement);
    }
  }

  /** The tag a card must carry to be reported for a release. */
  function ReleaseTag(releaseNumberTagFormat: string, releaseNumber: string): string {
    ReplaceAll(releaseNumberTagFormat, ReleaseNumberToken, releaseNumber)
  }

  /** With the default format the tag is `rel-` followed by the release number,
      whatever that number's text. */
  lemma DefaultReleaseTag(releaseNumber: string)
    ensures ReleaseTag(DefaultReleaseNumberTagFormat, releaseNumber) == "rel-" + releaseNumber
  {
    var f := DefaultReleaseNumberTagFormat;
    var p := ReleaseNumberToken;
    assert f[..7] != p by { assert f[0] != p[0]; }
    assert f[1..][..7] != p by { assert f[1] != p[0]; }
    assert f[2..][..7] != p by { assert f[2] != p[0]; }
    assert f[3..][..7] != p by { assert f[3] != p[0]; }
    assert f[4..][..7] == p;
    assert f[1..][1..] == f[2..] && f[2..][1..] == f[3..] && f[3..][1..] == f[4..];
    assert f[4..][7..] == [];
    calc {
      ReplaceAll(f, p, releaseNumber);
      ['r'] + ReplaceAll(f[1..], p, releaseNumber);
      ['r'] + (['e'] + ReplaceAll(f[2..], p, releaseNumber));
      ['r'] + (['e'] + (['l'] + ReplaceAll(f[3..], p, releaseNumber)));
      ['r'] + (['e'] + (['l'] + (['-'] + ReplaceAll(f[4..], p, releaseNumber))));
      ['r'] + (['e'] + (['l'] + (['-'] + (releaseNumber + ReplaceAll([], p, releaseNumber)))));
      "rel-" + releaseNumber;
    }
  }

  // ---------------------------------------------------------------------------
  // Tags and case-insensitive comparison
  // ---------------------------------------------------------------------------

  /** Upper-case mapping used by the ordinal case-insensitive comparison (ASCII letters). */
  function UpperAscii(c: char): char {
    if 'a' <= c <= 'z' then (c as int - 32) as char else c
  }

  /** Ordinal comparison ignoring case. */
  predicate EqualsIgnoreCase(a: string, b: string) {
    |a| == |b| && forall i :: 0 <= i < |a| ==> UpperAscii(a[i]) == UpperAscii(b[i])
  }

  /** The characters the Tags text is split on. */
  predicate IsTagSeparator(c: char) {
    c == ' ' || c == '\t' || c == '\n' || c == '\r'
  }

  predicate IsWord(t: string) {
    t != [] && forall k :: 0 <= k < |t| ==> !IsTagSeparator(t[k])
  }

  /** String.Split on the separators: the pieces between them, empty pieces included. */
  function SplitPieces(s: string): (r: seq<string>)
    ensures |r| >= 1
  {
    if s == [] then [""]
    else
      var rest := SplitPieces(s[1..]);
      if IsTagSeparator(s[0]) then [""] + rest else [[s[0]] + rest[0]] + rest[1..]
  }

  /** StringSplitOptions.RemoveEmptyEntries. */
  function RemoveEmpty(pieces: seq<string>): seq<string> {
    if pieces == [] then []
    else (if pieces[0] == "" then [] else [pieces[0]]) + RemoveEmpty(pieces[1..])
  }

  /** The tags of a card: its Tags text split on spaces, tabs and line breaks, empty tokens dropped. */
  function Tags(text: string): seq<string> {
    RemoveEmpty(SplitPieces(text))
  }

  lemma {:induction false} PiecesHaveNoSeparator(s: string)
    ensures forall t :: t in SplitPieces(s) ==> forall k :: 0 <= k < |t| ==> !IsTagSeparator(t[k])
  {
    if s != [] {
      PiecesHaveNoSeparator(s[1..]);
      var rest := SplitPieces(s[1..]);
      if !IsTagSeparator(s[0]) {
        var h := [s[0]] + rest[0];
        forall k | 0 <= k < |h|
          ensures !IsTagSeparator(h[k])
        {
          if k > 0 {
            assert h[k] == rest[0][k - 1];
          }
        }
      }
    }
  }

  lemma {:induction false} RemoveEmptySubset(pieces: seq<string>)
    ensures forall t :: t in RemoveEmpty(pieces) ==> t in pieces && t != ""
  {
    if pieces != [] {
      RemoveEmptySubset(pieces[1..]);
    }
  }

  /** Every tag is a non-empty word without separators. */
  lemma TagsAreWords(text: string)
    ensures forall t :: t in Tags(text) ==> IsWord(t)
  {
    PiecesHaveNoSeparator(text);
    RemoveEmptySubset(SplitPieces(text));
  }

  /** A separator starts a new, empty first piece. */
  lemma SplitPiecesAfterSeparator(c: char, s: string)
    requires IsTagSeparator(c)
    ensures SplitPieces([c] + s) == [""] + SplitPieces(s)
  {
    assert ([c] + s)[1..] == s;
  }

  /** Words separated by single spaces. */
  function JoinWithSpaces(words: seq<string>): string {
    if words == [] then ""
    else if |words| == 1 then words[0]
    else words[0] + " " + JoinWithSpaces(words[1..])
  }

  lemma {:induction false} SplitPiecesWordPrefix(w: string, r: string)
    requires forall k :: 0 <= k < |w| ==> !IsTagSeparator(w[k])
    ensures SplitPieces(w + r) == [w + SplitPieces(r)[0]] + SplitPieces(r)[1..]
  {
    if w != [] {
      assert (w + r)[0] == w[0];
      assert (w + r)[1..] == w[1..] + r;
      SplitPiecesWordPrefix(w[1..], r);
      var rest := SplitPieces(w[1..] + r);
      assert !IsTagSeparator(w[0]);
      assert SplitPieces(w + r) == [[w[0]] + rest[0]] + rest[1..];
      assert rest[0] == w[1..] + SplitPieces(r)[0];
      assert rest[1..] == SplitPieces(r)[1..];
      assert [w[0]] + (w[1..] + SplitPieces(r)[0]) == w + SplitPieces(r)[0];
    } else {
      assert w + r == r;
      assert w + SplitPieces(r)[0] == SplitPieces(r)[0];
      assert SplitPieces(r) == [SplitPieces(r)[0]] + SplitPieces(r)[1..];
    }
  }

  lemma {:induction false} SplitPiecesOfJoin(words: seq<string>)
    requires words != []
    requires forall i :: 0 <= i < |words| ==> IsWord(words[i])
    ensures SplitPieces(JoinWithSpaces(words)) == words
  {
    if |words| == 1 {
      SplitPiecesWordPrefix(words[0], "");
      assert words[0] + "" == words[0];
    } else {
      var rest := JoinWithSpaces(words[1..]);
      var r := " " + rest;
      SplitPiecesOfJoin(words[1..]);
      assert r[1..] == rest;
      SplitPiecesAfterSeparator(' ', rest);
      assert SplitPieces(r) == [""] + words[1..];
      SplitPiecesWordPrefix(words[0], r);
      assert words[0] + "" == words[0];
      assert ([""] + words[1..])[1..] == words[1..];
      assert JoinWithSpaces(words) == words[0] + r;
      assert [words[0]] + words[1..] == words;
    }
  }

  lemma {:induction false} RemoveEmptyOfWords(words: seq<string>)
    requires forall i :: 0 <= i < |words| ==> words[i] != ""
    ensures RemoveEmpty(words) == words
  {
    if words != [] {
      RemoveEmptyOfWords(words[1..]);
    }
  }

  /** Splitting undoes writing non-empty, separator-free tags with spaces between them. */
  lemma TagsOfJoin(words: seq<string>)
    requires forall i :: 0 <= i < |words| ==> IsWord(words[i])
    ensures Tags(JoinWithSpaces(words)) == words
  {
    if words != [] {
      SplitPiecesOfJoin(words);
      RemoveEmptyOfWords(words);
    }
  }

  /** A separator in front of the text adds no tag: leading separators and runs of
      separators are skipped. */
  lemma TagsSkipSeparator(c: char, s: string)
    requires IsTagSeparator(c)
    ensures Tags([c] + s) == Tags(s)
  {
    assert ([c] + s)[1..] == s;
    assert SplitPieces([c] + s) == [""] + SplitPieces(s);
    assert ([""] + SplitPieces(s))[1..] == SplitPieces(s);
  }

  /** A word followed by a separator is the first tag, and the rest is split on its own. */
  lemma TagsWordThenSeparator(w: string, c: char, s: string)
    requires IsWord(w) && IsTagSeparator(c)
    ensures Tags(w + [c] + s) == [w] + Tags(s)
  {
    var r := [c] + s;
    SplitPiecesWordPrefix(w, r);
    assert r[1..] == s;
    assert SplitPieces(r) == [""] + SplitPieces(s);
    assert w + [c] + s == w + r;
    assert w + "" == w;
    var pieces := [w] + SplitPieces(s);
    assert SplitPieces(w + r) == pieces;
    assert pieces[1..] == SplitPieces(s);
  }

  /** A lone word, with nothing after it, is the only tag. */
  lemma TagsOfWord(w: string)
    requires IsWord(w)
    ensures Tags(w) == [w]
  {
    SplitPiecesWordPrefix(w, "");
    assert w + "" == w;
    assert SplitPieces(w) == [w];
    assert RemoveEmpty([w]) == [w] + RemoveEmpty([w][1..]);
    assert [w][1..] == [];
  }

  /** Enumerable.Contains with the ordinal case-insensitive comparer. */
  function ContainsIgnoreCase(tags: seq<string>, tag: string): (r: bool)
    ensures r <==> exists i :: 0 <= i < |tags| && EqualsIgnoreCase(tags[i], tag)
  {
    if tags == [] then false
    else EqualsIgnoreCase(tags[0], tag) || ContainsIgnoreCase(tags[1..], tag)
  }

  /** A card is reported when one of its tags equals the release tag, ignoring case;
      a missing or null Tags member counts as no tags. */
  predicate IsReported(tags: Option<string>, releaseTag: string) {
    ContainsIgnoreCase(Tags(tags.GetOr("")), releaseTag)
  }

  /** An empty release tag, or one holding a space, tab or line break, matches no card. */
  lemma UnmatchableReleaseTag(tags: Option<string>, releaseTag: string)
    requires releaseTag == "" || exists k :: 0 <= k < |releaseTag| && IsTagSeparator(releaseTag[k])
    ensures !IsReported(tags, releaseTag)
  {
    var ts := Tags(tags.GetOr(""));
    TagsAreWords(tags.GetOr(""));
    forall i | 0 <= i < |ts|
      ensures !EqualsIgnoreCase(ts[i], releaseTag)
    {
      assert ts[i] in ts;
      if releaseTag != "" && |ts[i]| == |releaseTag| {
        var k :| 0 <= k < |releaseTag| && IsTagSeparator(releaseTag[k]);
        assert UpperAscii(ts[i][k]) != UpperAscii(releaseTag[k]);
      }
    }
  }

  // ---------------------------------------------------------------------------
  // The description
  // ---------------------------------------------------------------------------

  /** The position of the first `c` in `s`. */
  function IndexOf(s: string, c: char): (r: Option<nat>)
    ensures r.Some? ==> r.value < |s| && s[r.value] == c && forall k :: 0 <= k < r.value ==> s[k] != c
    ensures r.None? ==> forall k :: 0 <= k < |s| ==> s[k] != c
  {
    if s == [] then None
    else if s[0] == c then Some(0)
    else match IndexOf(s[1..], c)
      case Some(k) => Some(k + 1)
      case None => None
  }

  /** HtmlRemoverRegex (`<[^>]*>`) replaced by nothing: scanning left to right, each `<`
      that has a `>` after it is removed together with everything up to the first such `>`. */
  function StripTags(s: string): string
    decreases |s|
  {
    if s == [] then []
    else if s[0] == '<' && IndexOf(s[1..], '>').Some? then StripTags(s[IndexOf(s[1..], '>').value + 2..])
    else [s[0]] + StripTags(s[1..])
  }

  /** `a` is `b` with some characters left out, the rest in order. */
  predicate IsSubsequence(a: string, b: string)
    decreases |b|
  {
    a == [] || (b != [] && ((a[0] == b[0] && IsSubsequence(a[1..], b[1..])) || IsSubsequence(a, b[1..])))
  }

  lemma {:induction false} SubsequenceOfSuffix(a: string, b: string, n: nat)
    requires n <= |b|
    requires IsSubsequence(a, b[n..])
    ensures IsSubsequence(a, b)
    decreases n
  {
    if n > 0 {
      assert b[n - 1..][1..] == b[n..];
      SubsequenceOfSuffix(a, b, n - 1);
    }
  }

  /** What is left after stripping is the input with characters removed, the kept ones in order. */
  lemma {:induction false} StripTagsSubsequence(s: string)
    ensures IsSubsequence(StripTags(s), s)
    decreases |s|
  {
    if s != [] {
      if s[0] == '<' && IndexOf(s[1..], '>').Some? {
        var n := IndexOf(s[1..], '>').value + 2;
        StripTagsSubsequence(s[n..]);
        SubsequenceOfSuffix(StripTags(s), s, n);
      } else {
        StripTagsSubsequence(s[1..]);
      }
    }
  }

  /** Every character left after stripping comes from the input. */
  lemma {:induction false} StripTagsChars(s: string)
    ensures forall k :: 0 <= k < |StripTags(s)| ==> StripTags(s)[k] in s
    decreases |s|
  {
    if s != [] {
      if s[0] == '<' && IndexOf(s[1..], '>').Some? {
        var n := IndexOf(s[1..], '>').value + 2;
        StripTagsChars(s[n..]);
        forall k | 0 <= k < |StripTags(s)|
          ensures StripTags(s)[k] in s
        {
          assert StripTags(s)[k] in s[n..];
        }
      } else {
        StripTagsChars(s[1..]);
        forall k | 0 <= k < |StripTags(s)|
          ensures StripTags(s)[k] in s
        {
          if k > 0 {
            assert StripTags(s)[k] == StripTags(s[1..])[k - 1];
            assert StripTags(s)[k] in s[1..];
          }
        }
      }
    }
  }

  /** No `>` follows a `<` anywhere in `r`. */
  predicate NoTagSpan(r: string) {
    forall i, j :: 0 <= i < j < |r| && r[i] == '<' ==> r[j] != '>'
  }

  /** No `<` ... `>` span survives stripping. */
  lemma {:induction false} StripTagsLeavesNoTag(s: string)
    ensures NoTagSpan(StripTags(s))
    decreases |s|
  {
    if s != [] {
      var r := StripTags(s);
      if s[0] == '<' && IndexOf(s[1..], '>').Some? {
        var n := IndexOf(s[1..], '>').value + 2;
        StripTagsLeavesNoTag(s[n..]);
        assert r == StripTags(s[n..]);
      } else {
        var rest := StripTags(s[1..]);
        StripTagsLeavesNoTag(s[1..]);
        assert NoTagSpan(rest);
        StripTagsChars(s[1..]);
        assert r == [s[0]] + rest;
        forall i, j | 0 <= i < j < |r| && r[i] == '<'
          ensures r[j] != '>'
        {
          assert r[j] == rest[j - 1];
          if i == 0 {
            assert s[0] == '<' && IndexOf(s[1..], '>').None?;
            assert rest[j - 1] in s[1..];
            var m :| 0 <= m < |s[1..]| && s[1..][m] == rest[j - 1];
            assert s[1..][m] != '>';
          } else {
            assert r[i] == rest[i - 1];
            assert rest[j - 1] != '>';
          }
        }
      }
    }
  }

  /** Text without `<` is kept as it is. */
  lemma {:induction false} StripTagsPlainText(s: string)
    requires forall k :: 0 <= k < |s| ==> s[k] != '<'
    ensures StripTags(s) == s
    decreases |s|
  {
    if s != [] {
      StripTagsPlainText(s[1..]);
    }
  }

  /** Text before the first `<` is kept as it is, whatever follows it. */
  lemma {:induction false} StripTagsPlainPrefix(a: string, u: string)
    requires forall k :: 0 <= k < |a| ==> a[k] != '<'
    ensures StripTags(a + u) == a + StripTags(u)
    decreases |a|
  {
    if a == [] {
      assert a + u == u;
    } else {
      assert (a + u)[1..] == a[1..] + u;
      StripTagsPlainPrefix(a[1..], u);
      assert [a[0]] + (a[1..] + StripTags(u)) == a + StripTags(u);
    }
  }

  /** Text without `>` is kept as it is: a `<` with no `>` after it opens no span. */
  lemma {:induction false} StripTagsNoClose(t: string)
    requires forall k :: 0 <= k < |t| ==> t[k] != '>'
    ensures StripTags(t) == t
    decreases |t|
  {
    if t != [] {
      assert IndexOf(t[1..], '>').None?;
      StripTagsNoClose(t[1..]);
    }
  }

  /** An unclosed `<` is kept together with everything after it. */
  lemma {:induction false} StripTagsKeepsUnclosed(a: string, t: string)
    requires forall k :: 0 <= k < |a| ==> a[k] != '<'
    requires forall k :: 0 <= k < |t| ==> t[k] != '>'
    ensures StripTags(a + "<" + t) == a + "<" + t
  {
    var u := "<" + t;
    assert forall k :: 1 <= k < |u| ==> u[k] == t[k - 1];
    StripTagsPlainPrefix(a, u);
    StripTagsNoClose(u);
    assert a + "<" + t == a + u;
  }

  /** The first `>` after a leading `<` closes the span. */
  lemma {:induction false} IndexOfClose(t: string, b: string)
    requires forall k :: 0 <= k < |t| ==> t[k] != '>'
    ensures IndexOf(t + ">" + b, '>') == Some(|t|)
  {
    var u := t + ">" + b;
    assert u[|t|] == '>';
    assert forall k :: 0 <= k < |t| ==> u[k] == t[k];
  }

  /** A span at the very start, from `<` to the first `>`, is removed. */
  lemma {:induction false} StripTagsLeadingSpan(t: string, b: string)
    requires forall k :: 0 <= k < |t| ==> t[k] != '>'
    ensures StripTags("<" + t + ">" + b) == StripTags(b)
  {
    var s := "<" + t + ">" + b;
    assert s[1..] == t + ">" + b;
    IndexOfClose(t, b);
    assert s[|t| + 2..] == b;
  }

  /** A span from a `<` to the next `>` is removed, and the text before it is kept. */
  lemma {:induction false} StripTagsRemovesSpan(a: string, t: string, b: string)
    requires forall k :: 0 <= k < |a| ==> a[k] != '<'
    requires forall k :: 0 <= k < |t| ==> t[k] != '>'
    ensures StripTags(a + "<" + t + ">" + b) == a + StripTags(b)
  {
    var u := "<" + t + ">" + b;
    StripTagsPlainPrefix(a, u);
    StripTagsLeadingSpan(t, b);
    assert a + "<" + t + ">" + b == a + u by {
      assert a + "<" + t == a + ("<" + t);
      assert a + ("<" + t) + ">" == a + ("<" + t + ">");
      assert a + ("<" + t + ">") + b == a + u;
    }
  }

  /** The description reported for a card: its Description with tags stripped (a
      missing one is empty), then HTML-decoded; when decoding throws, the stripped text. */
  function DescriptionText(description: Option<string>, htmlDecode: string -> Option<string>): string {
    var stripped := StripTags(description.GetOr(""));
    match htmlDecode(stripped)
    case Some(decoded) => decoded
    case None => stripped
  }

  /** The reported description is what HtmlDecode makes of the stripped text (the
      first clause is just the definition unfolded); when decoding throws, it is the
      stripped text itself, which keeps the description's characters in order and
      holds no tag. */
  lemma DescriptionTextClean(description: Option<string>, htmlDecode: string -> Option<string>)
    ensures htmlDecode(StripTags(description.GetOr(""))).Some? ==>
              DescriptionText(description, htmlDecode) == htmlDecode(StripTags(description.GetOr(""))).value
    ensures htmlDecode(StripTags(description.GetOr(""))).None? ==>
              && NoTagSpan(DescriptionText(description, htmlDecode))
              && IsSubsequence(DescriptionText(description, htmlDecode), description.GetOr(""))
  {
    StripTagsLeavesNoTag(description.GetOr(""));
    StripTagsSubsequence(description.GetOr(""));
  }

  // ---------------------------------------------------------------------------
  // The board
  // ---------------------------------------------------------------------------

  /** A card of the board as the server sends it; the provider updates it in place
      and posts it back. */
  class Card {
    const id: int
    const title: string
    const tags: Option<string>          // the Tags member's text; None when it is missing or null
    var description: Option<string>     // the Description member's text; None when it is missing or null
    var laneId: int

    constructor (id: int, title: string, tags: Option<string>, description: Option<string>, laneId: int)
      ensures this.id == id && this.title == title && this.tags == tags
      ensures this.description == description && this.laneId == laneId
    {
      this.id := id;
      this.title := title;
      this.tags := tags;
      this.description := description;
      this.laneId := laneId;
    }
  }

  /** A lane of the board with its Id, Index, Title and cards. */
  datatype Lane = Lane(id: int, index: int, title: string, cards: seq<Card>)

  /** An issue as reported to the build server. */
  datatype Issue = Issue(id: int, status: string, title: string, description: string, release: string, isClosed: bool)

  /** The position of the lane ordered first by descending Index: the first lane whose
      Index is the largest (the ordering is stable). */
  function LastLanePos(lanes: seq<Lane>): (p: nat)
    requires lanes != []
    ensures p < |lanes|
    ensures forall j :: 0 <= j < |lanes| ==> lanes[j].index <= lanes[p].index
    ensures forall j :: 0 <= j < p ==> lanes[j].index < lanes[p].index
  {
    if |lanes| == 1 then 0
    else
      var q := LastLanePos(lanes[..|lanes| - 1]);
      if lanes[|lanes| - 1].index > lanes[q].index then |lanes| - 1 else q
  }

  /** The Id of the last lane, or 0 for a board without lanes (FirstOrDefault). */
  function LastLaneId(lanes: seq<Lane>): int {
    if lanes == [] then 0 else lanes[LastLanePos(lanes)].id
  }

  /** Every card on the board. */
  function BoardCards(lanes: seq<Lane>): set<Card> {
    set a, b | 0 <= a < |lanes| && 0 <= b < |lanes[a].cards| :: lanes[a].cards[b]
  }

  /** The position of the first card with the given Id within one lane. */
  function FirstCard(cards: seq<Card>, id: int): (r: Option<nat>)
    ensures r.Some? ==> r.value < |cards| && cards[r.value].id == id && forall k :: 0 <= k < r.value ==> cards[k].id != id
    ensures r.None? ==> forall k :: 0 <= k < |cards| ==> cards[k].id != id
  {
    if cards == [] then None
    else if cards[0].id == id then Some(0)
    else match FirstCard(cards[1..], id)
      case Some(k) => Some(k + 1)
      case None => None
  }

  /** A card's place on the board: its lane's position and its position in that lane. */
  datatype CardPos = CardPos(lane: nat, card: nat)

  /** The first card with the given Id, taking the lanes in order and each lane's cards
      in order (SelectMany, then FirstOrDefault). */
  function FindCard(lanes: seq<Lane>, id: int): (r: Option<CardPos>)
    ensures r.Some? ==> && r.value.lane < |lanes| && r.value.card < |lanes[r.value.lane].cards|
                        && lanes[r.value.lane].cards[r.value.card].id == id
    ensures r.Some? ==> forall a, b :: (&& 0 <= a < |lanes| && 0 <= b < |lanes[a].cards|
                                        && (a < r.value.lane || (a == r.value.lane && b < r.value.card)))
                                       ==> lanes[a].cards[b].id != id
    ensures r.None? ==> forall a, b :: 0 <= a < |lanes| && 0 <= b < |lanes[a].cards| ==> lanes[a].cards[b].id != id
  {
    if lanes == [] then None
    else match FirstCard(lanes[0].cards, id)
      case Some(b) => Some(CardPos(0, b))
      case None =>
        assert forall a :: 1 <= a < |lanes| ==> lanes[1..][a - 1] == lanes[a];
        match FindCard(lanes[1..], id)
        case Some(p) => Some(CardPos(p.lane + 1, p.card))
        case None => None
  }

  /** The position of the first lane whose Title equals `status`, ignoring case. */
  function LaneByTitle(lanes: seq<Lane>, status: string): (r: Option<nat>)
    ensures r.Some? ==> r.value < |lanes| && EqualsIgnoreCase(lanes[r.value].title, status)
                        && forall k :: 0 <= k < r.value ==> !EqualsIgnoreCase(lanes[k].title, status)
    ensures r.None? ==> forall k :: 0 <= k < |lanes| ==> !EqualsIgnoreCase(lanes[k].title, status)
  {
    if lanes == [] then None
    else if EqualsIgnoreCase(lanes[0].title, status) then Some(0)
    else match LaneByTitle(lanes[1..], status)
      case Some(k) => Some(k + 1)
      case None => None
  }

  // ---------------------------------------------------------------------------
  // Listing the issues of a release
  // ---------------------------------------------------------------------------

  /** What one listing needs besides the board. */
  datatype Query = Query(releaseTag: string, releaseNumber: string, lastLaneId: int, htmlDecode: string -> Option<string>)

  /** The issue reported for a card: the card's Id and Title, its lane's Title as status,
      the cleaned description, and closed exactly when the lane is the last lane. */
  function CardIssue(lane: Lane, card: Card, q: Query): Issue
    reads card
  {
    Issue(card.id, lane.title, card.title, DescriptionText(card.description, q.htmlDecode),
          q.releaseNumber, lane.id == q.lastLaneId)
  }

  /** `x` is what the listing reports for `card` of `lane`: the card carries the release tag. */
  predicate Reports(lane: Lane, card: Card, q: Query, x: Issue)
    reads card
  {
    IsReported(card.tags, q.releaseTag) && x == CardIssue(lane, card, q)
  }

  /** The issues of a lane's cards that carry the release tag, in card order. */
  function CardsIssues(lane: Lane, cards: seq<Card>, q: Query): seq<Issue>
    reads cards
  {
    if cards == [] then []
    else
      var c := cards[|cards| - 1];
      CardsIssues(lane, cards[..|cards| - 1], q) + (if IsReported(c.tags, q.releaseTag) then [CardIssue(lane, c, q)] else [])
  }

  /** The issues of the whole board, lane by lane. */
  function BoardIssues(lanes: seq<Lane>, q: Query): seq<Issue>
    reads BoardCards(lanes)
  {
    if lanes == [] then []
    else
      var n := |lanes| - 1;
      var l := lanes[n];
      assert forall a :: 0 <= a < n ==> lanes[..n][a] == lanes[a];
      assert forall b :: 0 <= b < |l.cards| ==> l.cards[b] == lanes[n].cards[b];
      BoardIssues(lanes[..n], q) + CardsIssues(l, l.cards, q)
  }

  /** The issues tagged for a release: none when no board is selected; otherwise every
      tagged card of the board, lane after lane and card after card. */
  method GetIssues(categoryIdFilter: seq<string>, lanes: seq<Lane>, releaseNumberTagFormat: string,
                   releaseNumber: string, htmlDecode: string -> Option<string>)
    returns (issues: seq<Issue>)
    ensures categoryIdFilter == [] ==> issues == []
    ensures categoryIdFilter != [] ==>
              issues == BoardIssues(lanes, Query(ReleaseTag(releaseNumberTagFormat, releaseNumber), releaseNumber,
                                                 LastLaneId(lanes), htmlDecode))
  {
    if categoryIdFilter == [] {
      return [];
    }
    var lastLaneId := LastLaneId(lanes);
    var releaseTag := ReleaseTag(releaseNumberTagFormat, releaseNumber);
    ghost var q := Query(releaseTag, releaseNumber, lastLaneId, htmlDecode);
    issues := [];
    for i := 0 to |lanes|
      invariant issues == BoardIssues(lanes[..i], q)
    {
      var lane := lanes[i];
      var status := lane.title;
      var cards := lane.cards;
      for j := 0 to |cards|
        invariant issues == BoardIssues(lanes[..i], q) + CardsIssues(lane, cards[..j], q)
      {
        var card := cards[j];
        var tags := Tags(card.tags.GetOr(""));
        if ContainsIgnoreCase(tags, releaseTag) {
          var descriptionText := DescriptionText(card.description, htmlDecode);
          issues := issues + [Issue(card.id, status, card.title, descriptionText, releaseNumber, lane.id == lastLaneId)];
        }
        assert cards[..j + 1][..j] == cards[..j];
      }
      assert cards[..|cards|] == cards;
      assert lanes[..i + 1][..i] == lanes[..i];
    }
    assert lanes[..|lanes|] == lanes;
  }

  /** Every issue listed for a lane is reported by one of its cards. */
  lemma {:induction false} CardsIssuesSound(lane: Lane, cards: seq<Card>, q: Query, x: Issue)
    requires x in CardsIssues(lane, cards, q)
    ensures exists b :: 0 <= b < |cards| && Reports(lane, cards[b], q, x)
  {
    var n := |cards| - 1;
    var front := cards[..n];
    if x in CardsIssues(lane, front, q) {
      CardsIssuesSound(lane, front, q, x);
      var b :| 0 <= b < n && Reports(lane, front[b], q, x);
      assert front[b] == cards[b];
    } else {
      assert Reports(lane, cards[n], q, x);
    }
  }

  /** Every card of a lane that carries the release tag is listed, as the issue reported for it. */
  lemma {:induction false} CardsIssuesComplete(lane: Lane, cards: seq<Card>, q: Query, b: nat)
    requires b < |cards| && IsReported(cards[b].tags, q.releaseTag)
    ensures CardIssue(lane, cards[b], q) in CardsIssues(lane, cards, q)
  {
    var n := |cards| - 1;
    if b < n {
      var front := cards[..n];
      assert front[b] == cards[b];
      CardsIssuesComplete(lane, front, q, b);
    }
  }

  /** An issue is listed for a lane exactly when some card of the lane carries the
      release tag and the issue is the one reported for that card. */
  lemma CardsIssuesMembers(lane: Lane, cards: seq<Card>, q: Query, x: Issue)
    ensures x in CardsIssues(lane, cards, q) <==> exists b :: 0 <= b < |cards| && Reports(lane, cards[b], q, x)
  {
    if x in CardsIssues(lane, cards, q) {
      CardsIssuesSound(lane, cards, q, x);
    }
    if exists b :: 0 <= b < |cards| && Reports(lane, cards[b], q, x) {
      var b :| 0 <= b < |cards| && Reports(lane, cards[b], q, x);
      CardsIssuesComplete(lane, cards, q, b);
    }
  }

  /** The listing of a lane's cards split into two runs is the listing of the first
      run followed by that of the second: issues follow card order. */
  lemma {:induction false} CardsIssuesConcat(lane: Lane, front: seq<Card>, back: seq<Card>, q: Query)
    ensures CardsIssues(lane, front + back, q) == CardsIssues(lane, front, q) + CardsIssues(lane, back, q)
    decreases |back|
  {
    if back == [] {
      assert front + back == front;
    } else {
      var n := |back| - 1;
      assert (front + back)[..|front + back| - 1] == front + back[..n];
      assert (front + back)[|front + back| - 1] == back[n];
      CardsIssuesConcat(lane, front, back[..n], q);
    }
  }

  /** Every listed issue is reported by some card of some lane. */
  lemma {:induction false} BoardIssuesSound(lanes: seq<Lane>, q: Query, x: Issue)
    requires x in BoardIssues(lanes, q)
    ensures exists a, b :: 0 <= a < |lanes| && 0 <= b < |lanes[a].cards| && Reports(lanes[a], lanes[a].cards[b], q, x)
  {
    var n := |lanes| - 1;
    var front := lanes[..n];
    var l := lanes[n];
    if x in BoardIssues(front, q) {
      BoardIssuesSound(front, q, x);
      var a, b :| 0 <= a < n && 0 <= b < |front[a].cards| && Reports(front[a], front[a].cards[b], q, x);
      assert front[a] == lanes[a];
      assert Reports(lanes[a], lanes[a].cards[b], q, x);
    } else {
      assert x in CardsIssues(l, l.cards, q);
      CardsIssuesSound(l, l.cards, q, x);
      var b :| 0 <= b < |l.cards| && Reports(l, l.cards[b], q, x);
      assert Reports(lanes[n], lanes[n].cards[b], q, x);
    }
  }

  /** Every card of every lane that carries the release tag is listed. */
  lemma {:induction false} BoardIssuesComplete(lanes: seq<Lane>, q: Query, a: nat, b: nat)
    requires a < |lanes| && b < |lanes[a].cards|
    requires IsReported(lanes[a].cards[b].tags, q.releaseTag)
    ensures CardIssue(lanes[a], lanes[a].cards[b], q) in BoardIssues(lanes, q)
  {
    var n := |lanes| - 1;
    var front := lanes[..n];
    var l := lanes[n];
    var x := CardIssue(lanes[a], lanes[a].cards[b], q);
    if a == n {
      CardsIssuesComplete(l, l.cards, q, b);
    } else {
      assert front[a] == lanes[a];
      BoardIssuesComplete(front, q, a, b);
      assert x in BoardIssues(front, q);
    }
  }

  /** The listing of a board split into two runs of lanes is the listing of the first run
      followed by that of the second: issues follow lane order. */
  lemma {:induction false} BoardIssuesConcat(front: seq<Lane>, back: seq<Lane>, q: Query)
    ensures BoardIssues(front + back, q) == BoardIssues(front, q) + BoardIssues(back, q)
    decreases |back|
  {
    if back == [] {
      assert front + back == front;
    } else {
      var n := |back| - 1;
      assert (front + back)[..|front + back| - 1] == front + back[..n];
      assert (front + back)[|front + back| - 1] == back[n];
      BoardIssuesConcat(front, back[..n], q);
    }
  }

  // ---------------------------------------------------------------------------
  // Updating cards
  // ---------------------------------------------------------------------------

  datatype ProviderError =
    | NoCategory                 // no board is selected: the board filter is null or empty
    | LaneNotValid(status: string)
    | CardNotFound(id: int)
    | NoLanes                    // the board has no lanes, so there is no last lane

  /** Appends text to a card's description; empty text changes nothing. */
  method AppendIssueDescription(categoryIdFilter: seq<string>, card: Card, textToAppend: string)
    returns (r: Outcome<ProviderError>)
    modifies card
    ensures textToAppend == "" ==> r == Pass && unchanged(card)
    ensures textToAppend != "" && categoryIdFilter == [] ==> r == Fail(NoCategory) && unchanged(card)
    ensures textToAppend != "" && categoryIdFilter != [] ==>
              && r == Pass
              && card.description == Some(old(card.description).GetOr("") + textToAppend)
              && card.laneId == old(card.laneId)
  {
    if textToAppend == "" {
      return Pass;
    }
    if categoryIdFilter == [] {
      return Fail(NoCategory);
    }
    card.description := Some(card.description.GetOr("") + textToAppend);
    r := Pass;
  }

  /** Moves the first card with the given Id to the first lane titled `newStatus`,
      ignoring case, by setting its LaneId. */
  method ChangeIssueStatus(categoryIdFilter: seq<string>, lanes: seq<Lane>, issueId: int, newStatus: string)
    returns (r: Outcome<ProviderError>)
    modifies BoardCards(lanes)
    ensures categoryIdFilter == [] ==> r == Fail(NoCategory)
    ensures categoryIdFilter != [] && LaneByTitle(lanes, newStatus).None? ==> r == Fail(LaneNotValid(newStatus))
    ensures (categoryIdFilter != [] && LaneByTitle(lanes, newStatus).Some? && FindCard(lanes, issueId).None?)
              ==> r == Fail(CardNotFound(issueId))
    ensures r.Pass? <==> categoryIdFilter != [] && LaneByTitle(lanes, newStatus).Some? && FindCard(lanes, issueId).Some?
    ensures r.Fail? ==> forall a, b :: 0 <= a < |lanes| && 0 <= b < |lanes[a].cards| ==> unchanged(lanes[a].cards[b])
    ensures r.Pass? ==>
              var p := FindCard(lanes, issueId).value;
              var card := lanes[p.lane].cards[p.card];
              && card.laneId == lanes[LaneByTitle(lanes, newStatus).value].id
              && card.description == old(card.description)
              && forall a, b :: 0 <= a < |lanes| && 0 <= b < |lanes[a].cards| && lanes[a].cards[b] != card
                   ==> unchanged(lanes[a].cards[b])
  {
    if categoryIdFilter == [] {
      return Fail(NoCategory);
    }
    var lane := LaneByTitle(lanes, newStatus);
    if lane.None? {
      return Fail(LaneNotValid(newStatus));
    }
    var found := FindCard(lanes, issueId);
    if found.None? {
      return Fail(CardNotFound(issueId));
    }
    var card := lanes[found.value.lane].cards[found.value.card];
    card.laneId := lanes[lane.value].id;
    r := Pass;
  }

  /** Moves the first card with the given Id to the last lane by setting its LaneId. */
  method CloseIssue(categoryIdFilter: seq<string>, lanes: seq<Lane>, issueId: int)
    returns (r: Outcome<ProviderError>)
    modifies BoardCards(lanes)
    ensures categoryIdFilter == [] ==> r == Fail(NoCategory)
    ensures categoryIdFilter != [] && lanes == [] ==> r == Fail(NoLanes)
    ensures categoryIdFilter != [] && lanes != [] && FindCard(lanes, issueId).None? ==> r == Fail(CardNotFound(issueId))
    ensures r.Pass? <==> categoryIdFilter != [] && lanes != [] && FindCard(lanes, issueId).Some?
    ensures r.Fail? ==> forall a, b :: 0 <= a < |lanes| && 0 <= b < |lanes[a].cards| ==> unchanged(lanes[a].cards[b])
    ensures r.Pass? ==>
              var p := FindCard(lanes, issueId).value;
              var card := lanes[p.lane].cards[p.card];
              && card.laneId == LastLaneId(lanes)
              && card.description == old(card.description)
              && forall a, b :: 0 <= a < |lanes| && 0 <= b < |lanes[a].cards| && lanes[a].cards[b] != card
                   ==> unchanged(lanes[a].cards[b])
  {
    if categoryIdFilter == [] {
      return Fail(NoCategory);
    }
    if lanes == [] {
      return Fail(NoLanes);
    }
    var lastLaneId := lanes[LastLanePos(lanes)].id;
    var found := FindCard(lanes, issueId);
    if found.None? {
      return Fail(CardNotFound(issueId));
    }
    var card := lanes[found.value.lane].cards[found.value.card];
    card.laneId := lastLaneId;
    r := Pass;
  }

  // ---------------------------------------------------------------------------
  // The reply-code check applied to every reply
  // ---------------------------------------------------------------------------

  datatype ConnectionError =
    | UnexpectedResponse(cause: DecodeError)   // "Unexpected response: ..."
    | ServerError(message: string)             // "Server responded with error: ..."

  /** The start of the message of a reply with an error code. */
  const ServerErrorPrefix: string := "Server responded with error: "

  /** The four codes accepted as success, compared one by one. */
  predicate IsAcceptedCode(code: int) {
    code == Wire(DataRetrievalSuccess) || code == Wire(DataUpdateSuccess)
      || code == Wire(DataDeleteSuccess) || code == Wire(DataInsertSuccess)
  }

  /** The reply's payload when its code is one of the success members; otherwise an error
      that carries the reply text, or the code when the text is empty. */
  function CheckReply<T>(reply: Envelope<T>): (r: Result<Option<T>, ConnectionError>)
    ensures r.Success? <==> 200 <= reply.replyCode <= 203
    ensures r.Success? ==> r.value == reply.replyData
    ensures r.Failure? && reply.replyText != "" ==> r.error == ServerError(ServerErrorPrefix + reply.replyText)
    ensures r.Failure? && reply.replyText == "" ==> r.error == ServerError(ServerErrorPrefix + CodeText(reply.replyCode))
  {
    if !IsAcceptedCode(reply.replyCode) then
      if reply.replyText != "" then Failure(ServerError(ServerErrorPrefix + reply.replyText))
      else Failure(ServerError(ServerErrorPrefix + CodeText(reply.replyCode)))
    else
      Success(reply.replyData)
  }

  /** The codes the check lets through are exactly the four success members of the enum. */
  lemma CheckReplyAcceptsSuccessMembers<T>(reply: Envelope<T>)
    ensures CheckReply(reply).Success? <==> FromWire(reply.replyCode).Some? && IsSuccess(FromWire(reply.replyCode).value)
  {
    FromWireSuccess(reply.replyCode);
  }

  /** What a request returns once the reply text has been parsed: a reply that cannot
      be decoded is an unexpected response, and a decoded one goes through the reply-code check. */
  function GetResponse<T>(parsed: Value, conv: Conversions<T>): (r: Result<Option<T>, ConnectionError>)
    ensures Decode(parsed, conv).Failure? ==> r == Failure(UnexpectedResponse(Decode(parsed, conv).error))
    ensures r.Success? <==> Decode(parsed, conv).Success? && 200 <= Decode(parsed, conv).value.replyCode <= 203
    ensures r.Success? ==> r.value == Decode(parsed, conv).value.replyData
    ensures Decode(parsed, conv).Success? ==> r == CheckReply(Decode(parsed, conv).value)
    ensures (Decode(parsed, conv).Success? && r.Failure? && Decode(parsed, conv).value.replyText != "")
              ==> r.error == ServerError(ServerErrorPrefix + Decode(parsed, conv).value.replyText)
    ensures (Decode(parsed, conv).Success? && r.Failure? && Decode(parsed, conv).value.replyText == "")
              ==> r.error == ServerError(ServerErrorPrefix + CodeText(Decode(parsed, conv).value.replyCode))
  {
    match Decode(parsed, conv)
    case Failure(e) => Failure(UnexpectedResponse(e))
    case Success(reply) => CheckReply(reply)
  }

  /** Under Insert, Update or Delete success a payload that neither has nor converts to
      the payload type reaches the caller as the default value, not as an error. */
  lemma DefaultPayloadOnOtherSuccessCodes<T>(parsed: Value, conv: Conversions<T>, code: Int32)
    requires 201 <= code <= 203
    requires parsed.Dictionary?
    requires Field(parsed, "ReplyCode").Some? && conv.toInt32(Field(parsed, "ReplyCode").value) == Some(code)
    requires !IsNullOrAbsent(Field(parsed, "ReplyData"))
    requires conv.isData(Field(parsed, "ReplyData").value).None?
    requires conv.changeType(Field(parsed, "ReplyData").value).None?
    ensures GetResponse(parsed, conv) == Success(None)
  {
    MismatchFatalOnlyForRetrievalSuccess(parsed, conv, code);
    var d := Decode(parsed, conv);
    assert d.Success? && d.value.replyData.None?;
    assert d.value.replyCode == code;
  }

  /** `{"ReplyCode":200,"ReplyData":[1,2,3]}` read as a list: the list is returned. */
  lemma EnvelopeSuccessExample<T>(conv: Conversions<T>, list: T)
    requires conv.toInt32(Number("200")) == Some(200)
    requires conv.isData(Enumerable([Number("1"), Number("2"), Number("3")])) == Some(list)
    ensures var parsed := Dictionary([Entry("ReplyCode", Number("200")),
                                      Entry("ReplyData", Enumerable([Number("1"), Number("2"), Number("3")]))]);
            && Decode(parsed, conv) == Success(Envelope(200, "", Some(list)))
            && GetResponse(parsed, conv) == Success(Some(list))
  {
  }

  /** `{"ReplyCode":502,"ReplyText":"bad","ReplyData":"oops"}` read as a list: the payload
      is left at its default without an error, and the request fails with the server's text. */
  lemma EnvelopeToleratedMismatchExample<T>(conv: Conversions<T>)
    requires conv.toInt32(Number("502")) == Some(502)
    requires conv.isData(Str("oops")).None? && conv.changeType(Str("oops")).None?
    ensures var parsed := Dictionary([Entry("ReplyCode", Number("502")), Entry("ReplyText", Str("bad")),
                                      Entry("ReplyData", Str("oops"))]);
            && Decode(parsed, conv) == Success(Envelope(502, "bad", None))
            && GetResponse(parsed, conv) == Failure(ServerError(ServerErrorPrefix + "bad"))
  {
    var parsed := Dictionary([Entry("ReplyCode", Number("502")), Entry("ReplyText", Str("bad")),
                              Entry("ReplyData", Str("oops"))]);
    var reply: Envelope<T> := Envelope(502, "bad", None);
    assert Decode(parsed, conv) == Success(reply);
  }

  /** `{"ReplyCode":200,"ReplyData":"not-a-list"}` read as a list: decoding fails on the
      payload type, and the request fails as an unexpected response. */
  lemma EnvelopeHardFailureExample<T>(conv: Conversions<T>)
    requires conv.toInt32(Number("200")) == Some(200)
    requires conv.isData(Str("not-a-list")).None? && conv.changeType(Str("not-a-list")).None?
    ensures var parsed := Dictionary([Entry("ReplyCode", Number("200")), Entry("ReplyData", Str("not-a-list"))]);
            && Decode(parsed, conv) == Failure(DataTypeMismatch(Str("not-a-list")))
            && GetResponse(parsed, conv) == Failure(UnexpectedResponse(DataTypeMismatch(Str("not-a-list"))))
  {
  }
}
