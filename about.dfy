/** The "about" section's string handling: recognising a YouTube link,
    extracting its 11-character video id with the regular expression
    `^.*(youtu.be\/|v\/|u\/\w\/|embed\/|watch\?v=|&v=)([^#&?]*).*`, building
    the `tel:` link without whitespace, and choosing between the embedded
    video and the image fallback. */
module About {
  import opened Wrappers

  // ---------------------------------------------------------------------------
  // Substrings
  // ---------------------------------------------------------------------------

  predicate StartsWith(s: string, prefix: string) {
    |prefix| <= |s| && s[..|prefix|] == prefix
  }

  /** `sub` occurs in `s` starting at position `i`. */
  predicate OccursAt(s: string, sub: string, i: int) {
    0 <= i && i + |sub| <= |s| && s[i..i + |sub|] == sub
  }

  /** `s.includes(sub)`. */
  function Contains(s: string, sub: string): (r: bool)
    ensures r <==> exists i :: OccursAt(s, sub, i)
    decreases |s|
  {
    if |s| < |sub| then
      assert forall i :: !OccursAt(s, sub, i);
      false
    else if StartsWith(s, sub) then
      assert OccursAt(s, sub, 0);
      true
    else
      var rest := Contains(s[1..], sub);
      assert !OccursAt(s, sub, 0);
      assert forall i :: i >= 1 ==> (OccursAt(s, sub, i) <==> OccursAt(s[1..], sub, i - 1)) by {
        forall i | i >= 1 {
          OccursShift(s, sub, i);
        }
      }
      assert rest ==> OccursAt(s, sub, (var k :| OccursAt(s[1..], sub, k); k) + 1);
      rest
  }

  /** An occurrence at `i >= 1` is an occurrence at `i - 1` of the tail. */
  lemma OccursShift(s: string, sub: string, i: int)
    requires 1 <= i && s != []
    ensures OccursAt(s, sub, i) <==> OccursAt(s[1..], sub, i - 1)
  {
    if i + |sub| <= |s| {
      var t := s[1..];
      var a, b := t[i - 1..i - 1 + |sub|], s[i..i + |sub|];
      forall k | 0 <= k < |sub|
        ensures a[k] == b[k]
      {
        assert a[k] == t[i - 1 + k] == s[i + k];
      }
      assert a == b;
    }
  }

  /** `isYouTubeUrl`. */
  function IsYouTubeUrl(url: string): (r: bool)
    ensures r <==> (exists i :: OccursAt(url, "youtube.com", i)) || (exists i :: OccursAt(url, "youtu.be", i))
  {
    Contains(url, "youtube.com") || Contains(url, "youtu.be")
  }

  // ---------------------------------------------------------------------------
  // Character classes of the regular expression
  // ---------------------------------------------------------------------------

  /** The characters `.` does not match: JavaScript's line terminators. */
  predicate IsLineTerminator(c: char) {
    c == '\n' || c == '\r' || c == '\U{2028}' || c == '\U{2029}'
  }

  /** `\w`. */
  predicate IsWordChar(c: char) {
    ('a' <= c <= 'z') || ('A' <= c <= 'Z') || ('0' <= c <= '9') || c == '_'
  }

  /** The characters that end the id: those `[^#&?]` excludes. */
  predicate IsStop(c: char) {
    c == '#' || c == '&' || c == '?'
  }

  /** `\s`: JavaScript's white space and line terminators. It covers every
      line terminator and no character of `\w` or of the stop set. */
  function IsWhiteSpace(c: char): (r: bool)
    ensures IsLineTerminator(c) ==> r
    ensures r ==> !IsWordChar(c) && !IsStop(c)
  {
    if c < '\U{0080}' then c == ' ' || '\t' <= c <= '\r'
    else (c == '\U{00A0}' || c == '\U{1680}' || ('\U{2000}' <= c <= '\U{200A}') ||
          c == '\U{2028}' || c == '\U{2029}' || c == '\U{202F}' || c == '\U{205F}' ||
          c == '\U{3000}' || c == '\U{FEFF}')
  }

  // ---------------------------------------------------------------------------
  // The video id
  // ---------------------------------------------------------------------------

  /** Position `i` of `s` holds `c`. */
  predicate CharAt(s: string, i: int, c: char) {
    0 <= i < |s| && s[i] == c
  }

  /** The length of the alternative of the marker group that matches at
      position `p`, tried in the order of the regular expression, if any. The
      alternatives begin with different characters, so at most one can match. */
  function MarkerAt(s: string, p: int): (r: Option<nat>)
    requires 0 <= p <= |s|
    ensures r.Some? ==> p + r.value <= |s|
  {
    if p == |s| then None
    else if s[p] == 'y' then
      if CharAt(s, p + 1, 'o') && CharAt(s, p + 2, 'u') && CharAt(s, p + 3, 't') && CharAt(s, p + 4, 'u') &&
         p + 5 < |s| && !IsLineTerminator(s[p + 5]) &&
         CharAt(s, p + 6, 'b') && CharAt(s, p + 7, 'e') && CharAt(s, p + 8, '/')
      then Some(9) else None     // youtu.be/
    else if s[p] == 'v' then
      if CharAt(s, p + 1, '/') then Some(2) else None     // v/
    else if s[p] == 'u' then
      if CharAt(s, p + 1, '/') && p + 2 < |s| && IsWordChar(s[p + 2]) && CharAt(s, p + 3, '/')
      then Some(4) else None     // u/\w/
    else if s[p] == 'e' then
      if CharAt(s, p + 1, 'm') && CharAt(s, p + 2, 'b') && CharAt(s, p + 3, 'e') && CharAt(s, p + 4, 'd') &&
         CharAt(s, p + 5, '/')
      then Some(6) else None     // embed/
    else if s[p] == 'w' then
      if CharAt(s, p + 1, 'a') && CharAt(s, p + 2, 't') && CharAt(s, p + 3, 'c') && CharAt(s, p + 4, 'h') &&
         CharAt(s, p + 5, '?') && CharAt(s, p + 6, 'v') && CharAt(s, p + 7, '=')
      then Some(8) else None     // watch?v=
    else if s[p] == '&' then
      if CharAt(s, p + 1, 'v') && CharAt(s, p + 2, '=') then Some(3) else None     // &v=
    else None
  }

  // Each alternative of the marker group, as the text it matches.

  /** `youtu.be\/`: the `.` matches any character but a line terminator. */
  lemma MarkerYoutuBe(s: string, p: int)
    requires 0 <= p <= |s|
    ensures MarkerAt(s, p) == Some(9) <==>
      p + 9 <= |s| && s[p..p + 5] == "youtu" && !IsLineTerminator(s[p + 5]) && s[p + 6..p + 9] == "be/"
  {
    if p + 9 <= |s| {
      var a, b := s[p..p + 5], s[p + 6..p + 9];
      assert a[0] == s[p] && a[1] == s[p + 1] && a[2] == s[p + 2] && a[3] == s[p + 3] && a[4] == s[p + 4];
      assert b[0] == s[p + 6] && b[1] == s[p + 7] && b[2] == s[p + 8];
    }
  }

  /** `v\/`. */
  lemma MarkerV(s: string, p: int)
    requires 0 <= p <= |s|
    ensures MarkerAt(s, p) == Some(2) <==> p + 2 <= |s| && s[p..p + 2] == "v/"
  {
    if p + 2 <= |s| {
      var a := s[p..p + 2];
      assert a[0] == s[p] && a[1] == s[p + 1];
    }
  }

  /** `u\/\w\/`. */
  lemma MarkerU(s: string, p: int)
    requires 0 <= p <= |s|
    ensures MarkerAt(s, p) == Some(4) <==>
      p + 4 <= |s| && s[p..p + 2] == "u/" && IsWordChar(s[p + 2]) && s[p + 3] == '/'
  {
    if p + 4 <= |s| {
      var a := s[p..p + 2];
      assert a[0] == s[p] && a[1] == s[p + 1];
    }
  }

  /** `embed\/`. */
  lemma MarkerEmbed(s: string, p: int)
    requires 0 <= p <= |s|
    ensures MarkerAt(s, p) == Some(6) <==> p + 6 <= |s| && s[p..p + 6] == "embed/"
  {
    if p + 6 <= |s| {
      var a := s[p..p + 6];
      assert a[0] == s[p] && a[1] == s[p + 1] && a[2] == s[p + 2] && a[3] == s[p + 3] && a[4] == s[p + 4];
      assert a[5] == s[p + 5];
    }
  }

  /** `watch\?v=`. */
  lemma MarkerWatch(s: string, p: int)
    requires 0 <= p <= |s|
    ensures MarkerAt(s, p) == Some(8) <==> p + 8 <= |s| && s[p..p + 8] == "watch?v="
  {
    if p + 8 <= |s| {
      var a := s[p..p + 8];
      assert a[0] == s[p] && a[1] == s[p + 1] && a[2] == s[p + 2] && a[3] == s[p + 3] && a[4] == s[p + 4];
      assert a[5] == s[p + 5] && a[6] == s[p + 6] && a[7] == s[p + 7];
    }
  }

  /** `&v=`. */
  lemma MarkerAmpV(s: string, p: int)
    requires 0 <= p <= |s|
    ensures MarkerAt(s, p) == Some(3) <==> p + 3 <= |s| && s[p..p + 3] == "&v="
  {
    if p + 3 <= |s| {
      var a := s[p..p + 3];
      assert a[0] == s[p] && a[1] == s[p + 1] && a[2] == s[p + 2];
    }
  }

  /** `MarkerAt` matches exactly the six alternatives of the marker group:
      each one's length is returned exactly when its text is at `p`, and no
      other length is ever returned. */
  lemma MarkerAtIsAlternation(s: string, p: int)
    requires 0 <= p <= |s|
    ensures MarkerAt(s, p).Some? ==> MarkerAt(s, p).value in {9, 2, 4, 6, 8, 3}
    ensures MarkerAt(s, p) == Some(9) <==>
      p + 9 <= |s| && s[p..p + 5] == "youtu" && !IsLineTerminator(s[p + 5]) && s[p + 6..p + 9] == "be/"
    ensures MarkerAt(s, p) == Some(2) <==> p + 2 <= |s| && s[p..p + 2] == "v/"
    ensures MarkerAt(s, p) == Some(4) <==>
      p + 4 <= |s| && s[p..p + 2] == "u/" && IsWordChar(s[p + 2]) && s[p + 3] == '/'
    ensures MarkerAt(s, p) == Some(6) <==> p + 6 <= |s| && s[p..p + 6] == "embed/"
    ensures MarkerAt(s, p) == Some(8) <==> p + 8 <= |s| && s[p..p + 8] == "watch?v="
    ensures MarkerAt(s, p) == Some(3) <==> p + 3 <= |s| && s[p..p + 3] == "&v="
  {
    MarkerYoutuBe(s, p);
    MarkerV(s, p);
    MarkerU(s, p);
    MarkerEmbed(s, p);
    MarkerWatch(s, p);
    MarkerAmpV(s, p);
  }

  /** The first line terminator at or after `i`, or the end of `s`. */
  function LineEndFrom(s: string, i: int): (r: int)
    requires 0 <= i <= |s|
    ensures i <= r <= |s|
    decreases |s| - i
  {
    if i == |s| || IsLineTerminator(s[i]) then i else LineEndFrom(s, i + 1)
  }

  /** `LineEndFrom` stops at the first line terminator and at no earlier
      position. */
  lemma {:induction false} LineEndFromIsFirst(s: string, i: int)
    requires 0 <= i <= |s|
    ensures forall k :: i <= k < LineEndFrom(s, i) ==> !IsLineTerminator(s[k])
    ensures LineEndFrom(s, i) < |s| ==> IsLineTerminator(s[LineEndFrom(s, i)])
    decreases |s| - i
  {
    if i < |s| && !IsLineTerminator(s[i]) {
      LineEndFromIsFirst(s, i + 1);
    }
  }

  /** The end of the first line: how far the leading `.*` can reach. */
  function LineEnd(s: string): (r: nat)
    ensures r <= |s|
  {
    LineEndFrom(s, 0)
  }

  /** The rightmost position below `p` where a marker matches. */
  function LastMarkerBefore(s: string, p: int): (r: Option<nat>)
    requires 0 <= p <= |s|
    ensures r.Some? ==> r.value < p
    decreases p
  {
    if p == 0 then None
    else if MarkerAt(s, p - 1).Some? then Some(p - 1)
    else LastMarkerBefore(s, p - 1)
  }

  /** `LastMarkerBefore` finds a marker, no marker lies between it and `p`, and
      it finds none only when no position below `p` has one. */
  lemma {:induction false} LastMarkerBeforeIsRightmost(s: string, p: int)
    requires 0 <= p <= |s|
    ensures LastMarkerBefore(s, p).Some? ==> MarkerAt(s, LastMarkerBefore(s, p).value).Some?
    ensures LastMarkerBefore(s, p).Some? ==>
      forall q :: LastMarkerBefore(s, p).value < q < p ==> MarkerAt(s, q).None?
    ensures LastMarkerBefore(s, p).None? ==> forall q :: 0 <= q < p ==> MarkerAt(s, q).None?
    decreases p
  {
    if p > 0 && MarkerAt(s, p - 1).None? {
      LastMarkerBeforeIsRightmost(s, p - 1);
    }
  }

  /** The longest run of characters other than `#`, `&` and `?` starting at
      `from`: what the greedy `([^#&?]*)` captures there. */
  function Run(s: string, from: int): (r: string)
    requires 0 <= from <= |s|
    ensures from + |r| <= |s|
    decreases |s| - from
  {
    if from == |s| || IsStop(s[from]) then [] else [s[from]] + Run(s, from + 1)
  }

  /** The run is the part of `s` after `from`, holds no stop character, and
      ends at a stop character or at the end of `s`. */
  lemma {:induction false} RunIsMaximal(s: string, from: int)
    requires 0 <= from <= |s|
    ensures Run(s, from) == s[from..from + |Run(s, from)|]
    ensures forall i :: 0 <= i < |Run(s, from)| ==> !IsStop(Run(s, from)[i])
    ensures from + |Run(s, from)| == |s| || IsStop(s[from + |Run(s, from)|])
    decreases |s| - from
  {
    if from < |s| && !IsStop(s[from]) {
      RunIsMaximal(s, from + 1);
      var rest := Run(s, from + 1);
      assert s[from..from + 1 + |rest|] == [s[from]] + s[from + 1..from + 1 + |rest|];
    }
  }

  /** `getYouTubeVideoId`: the id after the rightmost marker in the first line,
      or None when no marker matches or the id is not 11 characters long. */
  function VideoId(url: string): (r: Option<string>)
    ensures r.Some? ==> |r.value| == 11
  {
    match LastMarkerBefore(url, LineEnd(url))
    case None => None
    case Some(p) =>
      if MarkerAt(url, p).Some? then
        var id := Run(url, p + MarkerAt(url, p).value);
        if |id| == 11 then Some(id) else None
      else None
  }

  /** The leading `.*` can end at `q`: no line terminator before it. */
  predicate InFirstLine(s: string, q: int) {
    0 <= q <= |s| && forall i :: 0 <= i < q ==> !IsLineTerminator(s[i])
  }

  /** How the regular expression matches `s` with the marker group at `p`
      and the id group equal to `id`: `.*` is greedy, so no marker matches
      further right within the first line, and `[^#&?]*` is greedy, so the id
      stops only at a stop character or the end of the string. */
  ghost predicate RegexMatch(s: string, p: int, id: string) {
    InFirstLine(s, p) && MarkerAt(s, p).Some? &&
    (forall q :: p < q && InFirstLine(s, q) ==> MarkerAt(s, q).None?) &&
    var m := p + MarkerAt(s, p).value;
    m + |id| <= |s| && s[m..m + |id|] == id &&
    (forall i :: 0 <= i < |id| ==> !IsStop(id[i])) &&
    (m + |id| == |s| || IsStop(s[m + |id|]))
  }

  /** A position in the first line is below `LineEnd`, or at it. */
  lemma FirstLineBelowEnd(s: string, q: int)
    requires InFirstLine(s, q)
    ensures q <= LineEnd(s)
  {
    LineEndFromIsFirst(s, 0);
  }

  /** A marker never starts at a line terminator, so none starts at `LineEnd`. */
  lemma NoMarkerAtLineEnd(s: string)
    ensures MarkerAt(s, LineEnd(s)).None?
  {
    LineEndFromIsFirst(s, 0);
  }

  /** The run capturing the id is determined by where it starts. */
  lemma {:induction false} RunIsUnique(s: string, from: int, id: string)
    requires 0 <= from && from + |id| <= |s| && s[from..from + |id|] == id
    requires forall i :: 0 <= i < |id| ==> !IsStop(id[i])
    requires from + |id| == |s| || IsStop(s[from + |id|])
    ensures Run(s, from) == id
    decreases |id|
  {
    if id != [] {
      assert s[from] == id[0];
      assert s[from + 1..from + |id|] == id[1..];
      RunIsUnique(s, from + 1, id[1..]);
    }
  }

  /** A non-null id comes from a match of the regular expression. */
  lemma {:induction false} VideoIdIsMatch(url: string)
    requires VideoId(url).Some?
    ensures exists p :: RegexMatch(url, p, VideoId(url).value)
  {
    var e := LineEnd(url);
    LineEndFromIsFirst(url, 0);
    LastMarkerBeforeIsRightmost(url, e);
    var p := LastMarkerBefore(url, e).value;
    forall q | p < q && InFirstLine(url, q)
      ensures MarkerAt(url, q).None?
    {
      FirstLineBelowEnd(url, q);
      if q == e { NoMarkerAtLineEnd(url); }
    }
    RunIsMaximal(url, p + MarkerAt(url, p).value);
    assert RegexMatch(url, p, VideoId(url).value);
  }

  /** Every match of the regular expression whose id has 11 characters is found. */
  lemma {:induction false} MatchIsVideoId(url: string, p: int, id: string)
    requires RegexMatch(url, p, id) && |id| == 11
    ensures VideoId(url) == Some(id)
  {
    var e := LineEnd(url);
    LineEndFromIsFirst(url, 0);
    FirstLineBelowEnd(url, p);
    if p == e { NoMarkerAtLineEnd(url); }
    LastMarkerBeforeIsRightmost(url, e);
    var found := LastMarkerBefore(url, e);
    assert found.Some?;
    var p' := found.value;
    assert InFirstLine(url, p');
    assert p' == p;
    RunIsUnique(url, p + MarkerAt(url, p).value, id);
  }

  /** When no marker matches in the first line the regular expression fails and
      the result is null. */
  lemma {:induction false} NoMarkerNoId(url: string)
    requires forall q :: InFirstLine(url, q) ==> MarkerAt(url, q).None?
    ensures VideoId(url).None?
  {
    var e := LineEnd(url);
    LineEndFromIsFirst(url, 0);
    var found := LastMarkerBefore(url, e);
    if found.Some? {
      assert InFirstLine(url, found.value);
    }
  }

  // ---------------------------------------------------------------------------
  // The phone link and the media choice
  // ---------------------------------------------------------------------------

  /** `s.replace(/\s/g, '')` on the part of `s` from position `i` on. */
  function StripFrom(s: string, i: int): (r: string)
    requires 0 <= i <= |s|
    ensures |r| <= |s| - i
    decreases |s| - i
  {
    if i == |s| then []
    else if IsWhiteSpace(s[i]) then StripFrom(s, i + 1)
    else [s[i]] + StripFrom(s, i + 1)
  }

  /** `phoneNumber.replace(/\s/g, '')`. */
  function StripWhiteSpace(s: string): (r: string)
    ensures |r| <= |s|
  {
    StripFrom(s, 0)
  }

  lemma {:induction false} StripFromCounts(s: string, i: int, c: char)
    requires 0 <= i <= |s|
    ensures multiset(StripFrom(s, i))[c] == if IsWhiteSpace(c) then 0 else multiset(s[i..])[c]
    decreases |s| - i
  {
    if i < |s| {
      StripFromCounts(s, i + 1, c);
      assert s[i..] == [s[i]] + s[i + 1..];
    }
  }

  /** Stripping removes every white-space character and keeps every other one,
      as often as it occurs. */
  lemma StripKeepsOthers(s: string, c: char)
    ensures multiset(StripWhiteSpace(s))[c] == if IsWhiteSpace(c) then 0 else multiset(s)[c]
  {
    StripFromCounts(s, 0, c);
    assert s[0..] == s;
  }

  lemma {:induction false} StripFromClean(s: string, i: int)
    requires 0 <= i <= |s|
    ensures forall k :: 0 <= k < |StripFrom(s, i)| ==> !IsWhiteSpace(StripFrom(s, i)[k])
    decreases |s| - i
  {
    if i < |s| {
      StripFromClean(s, i + 1);
    }
  }

  /** No white space is left after stripping. */
  lemma StripLeavesNoWhiteSpace(s: string)
    ensures forall k :: 0 <= k < |StripWhiteSpace(s)| ==> !IsWhiteSpace(StripWhiteSpace(s)[k])
  {
    StripFromClean(s, 0);
  }

  lemma {:induction false} StripFromShift(a: string, b: string, j: int)
    requires 0 <= j <= |b|
    ensures StripFrom(a + b, |a| + j) == StripFrom(b, j)
    decreases |b| - j
  {
    if j < |b| {
      assert (a + b)[|a| + j] == b[j];
      StripFromShift(a, b, j + 1);
    }
  }

  lemma {:induction false} StripFromConcat(a: string, b: string, i: int)
    requires 0 <= i <= |a|
    ensures StripFrom(a + b, i) == StripFrom(a, i) + StripFrom(b, 0)
    decreases |a| - i
  {
    if i == |a| {
      StripFromShift(a, b, 0);
    } else {
      assert (a + b)[i] == a[i];
      StripFromConcat(a, b, i + 1);
    }
  }

  /** Stripping keeps the order: it distributes over concatenation. */
  lemma StripConcat(a: string, b: string)
    ensures StripWhiteSpace(a + b) == StripWhiteSpace(a) + StripWhiteSpace(b)
  {
    StripFromConcat(a, b, 0);
  }

  lemma {:induction false} StripFromNoWhiteSpace(s: string, i: int)
    requires 0 <= i <= |s|
    requires forall k :: i <= k < |s| ==> !IsWhiteSpace(s[k])
    ensures StripFrom(s, i) == s[i..]
    decreases |s| - i
  {
    if i < |s| {
      StripFromNoWhiteSpace(s, i + 1);
      assert s[i..] == [s[i]] + s[i + 1..];
    }
  }

  /** A string without white space is left as it is. */
  lemma StripNoWhiteSpace(s: string)
    requires forall i :: 0 <= i < |s| ==> !IsWhiteSpace(s[i])
    ensures StripWhiteSpace(s) == s
  {
    StripFromNoWhiteSpace(s, 0);
    assert s[0..] == s;
  }

  /** The link target of the phone number. */
  function TelHref(phoneNumber: string): (r: string)
    ensures StartsWith(r, "tel:")
    ensures |r| <= 4 + |phoneNumber|
  {
    "tel:" + StripWhiteSpace(phoneNumber)
  }

  /** After "tel:" the link holds no white space, and every other character of
      the phone number as often as the number does. */
  lemma TelHrefDialsDigits(phoneNumber: string)
    ensures forall k :: 4 <= k < |TelHref(phoneNumber)| ==> !IsWhiteSpace(TelHref(phoneNumber)[k])
    ensures forall c :: !IsWhiteSpace(c) ==> multiset(TelHref(phoneNumber)[4..])[c] == multiset(phoneNumber)[c]
  {
    var digits := StripWhiteSpace(phoneNumber);
    StripLeavesNoWhiteSpace(phoneNumber);
    assert TelHref(phoneNumber)[4..] == digits;
    forall c | !IsWhiteSpace(c)
      ensures multiset(TelHref(phoneNumber)[4..])[c] == multiset(phoneNumber)[c]
    {
      StripKeepsOthers(phoneNumber, c);
    }
  }

  /** The URL of the embedded player for a video id. */
  function EmbedSrc(videoId: string): (r: string)
    ensures StartsWith(r, "https://www.youtube.com/embed/")
    ensures |r| == |videoId| + 53 && r[30..30 + |videoId|] == videoId
  {
    "https://www.youtube.com/embed/" + videoId + "?rel=0&modestbranding=1"
  }

  /** What the secondary media slot renders. */
  datatype Media = Player(src: string) | Picture(src: string)

  /** `videoId`: computed only for a YouTube link. */
  function VideoIdFor(secondaryMedia: string): (r: Option<string>)
    ensures r.Some? ==>
      IsYouTubeUrl(secondaryMedia) && |r.value| == 11 && exists p :: RegexMatch(secondaryMedia, p, r.value)
    ensures forall p, id :: IsYouTubeUrl(secondaryMedia) && RegexMatch(secondaryMedia, p, id) && |id| == 11 ==>
      r == Some(id)
  {
    if IsYouTubeUrl(secondaryMedia) then
      var id := VideoId(secondaryMedia);
      assert id.Some? ==> exists p :: RegexMatch(secondaryMedia, p, id.value) by {
        if id.Some? { VideoIdIsMatch(secondaryMedia); }
      }
      assert forall p, id' :: RegexMatch(secondaryMedia, p, id') && |id'| == 11 ==> id == Some(id') by {
        forall p, id' | RegexMatch(secondaryMedia, p, id') && |id'| == 11 {
          MatchIsVideoId(secondaryMedia, p, id');
        }
      }
      id
    else
      None
  }

  /** The player is rendered exactly for a YouTube link with an id; anything
      else falls back to the image with the media string as its source. */
  function SecondaryMedia(secondaryMedia: string): (r: Media)
    ensures r.Player? ==> exists p, id ::
      IsYouTubeUrl(secondaryMedia) && RegexMatch(secondaryMedia, p, id) && |id| == 11 && r.src == EmbedSrc(id)
    ensures (exists p, id :: IsYouTubeUrl(secondaryMedia) && RegexMatch(secondaryMedia, p, id) && |id| == 11) ==>
      r.Player?
    ensures r.Picture? ==> r.src == secondaryMedia
  {
    var isVideo := IsYouTubeUrl(secondaryMedia);
    var videoId := VideoIdFor(secondaryMedia);
    if isVideo && videoId.Some? then Player(EmbedSrc(videoId.value)) else Picture(secondaryMedia)
  }

  const DefaultPhoneNumber: string := "+1 2233 44556 77"
  const DefaultSecondaryMedia: string := "https://youtu.be/" + "kRCH8kD1GD0" + "?si=MN-xp3NEBRS2fLtD"

  /** The default phone number stripped in two parts, split before its
      second space. */
  lemma DefaultPhoneHead()
    ensures StripWhiteSpace("+1 2233") == "+12233"
  {
  }

  lemma DefaultPhoneTail()
    ensures StripWhiteSpace(" 44556 77") == "4455677"
  {
  }

  /** The default phone number dials "+122334455677". */
  lemma DefaultTelHref()
    ensures TelHref(DefaultPhoneNumber) == "tel:+122334455677"
  {
    var head, tail := "+1 2233", " 44556 77";
    assert DefaultPhoneNumber == head + tail;
    StripConcat(head, tail);
    DefaultPhoneHead();
    DefaultPhoneTail();
    var digits := StripWhiteSpace(DefaultPhoneNumber);
    assert digits == "+12233" + "4455677";
    assert "tel:" + digits == "tel:+122334455677";
  }

  /** The default media has no line terminator. The steps unfold
      `LineEndFrom` one position at a time from the end; without them the
      solver does not find the 48 unfoldings needed. */
  lemma DefaultLineEnd()
    ensures LineEnd(DefaultSecondaryMedia) == |DefaultSecondaryMedia| == 48
  {
    assert LineEndFrom(DefaultSecondaryMedia, 48) == 48;
    assert LineEndFrom(DefaultSecondaryMedia, 47) == 48;
    assert LineEndFrom(DefaultSecondaryMedia, 46) == 48;
    assert LineEndFrom(DefaultSecondaryMedia, 45) == 48;
    assert LineEndFrom(DefaultSecondaryMedia, 44) == 48;
    assert LineEndFrom(DefaultSecondaryMedia, 43) == 48;
    assert LineEndFrom(DefaultSecondaryMedia, 42) == 48;
    assert LineEndFrom(DefaultSecondaryMedia, 41) == 48;
    assert LineEndFrom(DefaultSecondaryMedia, 40) == 48;
    assert LineEndFrom(DefaultSecondaryMedia, 39) == 48;
    assert LineEndFrom(DefaultSecondaryMedia, 38) == 48;
    assert LineEndFrom(DefaultSecondaryMedia, 37) == 48;
    assert LineEndFrom(DefaultSecondaryMedia, 36) == 48;
    assert LineEndFrom(DefaultSecondaryMedia, 35) == 48;
    assert LineEndFrom(DefaultSecondaryMedia, 34) == 48;
    assert LineEndFrom(DefaultSecondaryMedia, 33) == 48;
    assert LineEndFrom(DefaultSecondaryMedia, 32) == 48;
    assert LineEndFrom(DefaultSecondaryMedia, 31) == 48;
    assert LineEndFrom(DefaultSecondaryMedia, 30) == 48;
    assert LineEndFrom(DefaultSecondaryMedia, 29) == 48;
    assert LineEndFrom(DefaultSecondaryMedia, 28) == 48;
    assert LineEndFrom(DefaultSecondaryMedia, 27) == 48;
    assert LineEndFrom(DefaultSecondaryMedia, 26) == 48;
    assert LineEndFrom(DefaultSecondaryMedia, 25) == 48;
    assert LineEndFrom(DefaultSecondaryMedia, 24) == 48;
    assert LineEndFrom(DefaultSecondaryMedia, 23) == 48;
    assert LineEndFrom(DefaultSecondaryMedia, 22) == 48;
    assert LineEndFrom(DefaultSecondaryMedia, 21) == 48;
    assert LineEndFrom(DefaultSecondaryMedia, 20) == 48;
    assert LineEndFrom(DefaultSecondaryMedia, 19) == 48;
    assert LineEndFrom(DefaultSecondaryMedia, 18) == 48;
    assert LineEndFrom(DefaultSecondaryMedia, 17) == 48;
    assert LineEndFrom(DefaultSecondaryMedia, 16) == 48;
    assert LineEndFrom(DefaultSecondaryMedia, 15) == 48;
    assert LineEndFrom(DefaultSecondaryMedia, 14) == 48;
    assert LineEndFrom(DefaultSecondaryMedia, 13) == 48;
    assert LineEndFrom(DefaultSecondaryMedia, 12) == 48;
    assert LineEndFrom(DefaultSecondaryMedia, 11) == 48;
    assert LineEndFrom(DefaultSecondaryMedia, 10) == 48;
    assert LineEndFrom(DefaultSecondaryMedia, 9) == 48;
    assert LineEndFrom(DefaultSecondaryMedia, 8) == 48;
    assert LineEndFrom(DefaultSecondaryMedia, 7) == 48;
    assert LineEndFrom(DefaultSecondaryMedia, 6) == 48;
    assert LineEndFrom(DefaultSecondaryMedia, 5) == 48;
    assert LineEndFrom(DefaultSecondaryMedia, 4) == 48;
    assert LineEndFrom(DefaultSecondaryMedia, 3) == 48;
    assert LineEndFrom(DefaultSecondaryMedia, 2) == 48;
    assert LineEndFrom(DefaultSecondaryMedia, 1) == 48;
    assert LineEndFrom(DefaultSecondaryMedia, 0) == 48;
  }

  // No marker starts at positions 9 to 47 of the default media: eight stretches,
  // each small enough for the solver to unfold `LastMarkerBefore` cheaply.

  lemma DefaultNoMarkerBelow48()
    ensures LastMarkerBefore(DefaultSecondaryMedia, 48) == LastMarkerBefore(DefaultSecondaryMedia, 43)
  {
  }

  lemma DefaultNoMarkerBelow43()
    ensures LastMarkerBefore(DefaultSecondaryMedia, 43) == LastMarkerBefore(DefaultSecondaryMedia, 38)
  {
  }

  lemma DefaultNoMarkerBelow38()
    ensures LastMarkerBefore(DefaultSecondaryMedia, 38) == LastMarkerBefore(DefaultSecondaryMedia, 33)
  {
  }

  lemma DefaultNoMarkerBelow33()
    ensures LastMarkerBefore(DefaultSecondaryMedia, 33) == LastMarkerBefore(DefaultSecondaryMedia, 28)
  {
  }

  lemma DefaultNoMarkerBelow28()
    ensures LastMarkerBefore(DefaultSecondaryMedia, 28) == LastMarkerBefore(DefaultSecondaryMedia, 23)
  {
  }

  lemma DefaultNoMarkerBelow23()
    ensures LastMarkerBefore(DefaultSecondaryMedia, 23) == LastMarkerBefore(DefaultSecondaryMedia, 18)
  {
  }

  lemma DefaultNoMarkerBelow18()
    ensures LastMarkerBefore(DefaultSecondaryMedia, 18) == LastMarkerBefore(DefaultSecondaryMedia, 13)
  {
  }

  lemma DefaultNoMarkerBelow13()
    ensures LastMarkerBefore(DefaultSecondaryMedia, 13) == LastMarkerBefore(DefaultSecondaryMedia, 9)
  {
  }

  /** The only marker of the default media is "youtu.be/" at position 8. */
  lemma DefaultMarker()
    ensures LastMarkerBefore(DefaultSecondaryMedia, 48) == Some(8)
  {
    DefaultNoMarkerBelow48();
    DefaultNoMarkerBelow43();
    DefaultNoMarkerBelow38();
    DefaultNoMarkerBelow33();
    DefaultNoMarkerBelow28();
    DefaultNoMarkerBelow23();
    DefaultNoMarkerBelow18();
    DefaultNoMarkerBelow13();
    assert LastMarkerBefore(DefaultSecondaryMedia, 9) == Some(8);
  }

  /** The id run of the default media stops at the '?' at position 28. */
  lemma DefaultRun()
    ensures Run(DefaultSecondaryMedia, 17) == "kRCH8kD1GD0"
  {
    var id := "kRCH8kD1GD0";
    assert DefaultSecondaryMedia[17..28] == id;
    assert forall i :: 0 <= i < 11 ==> !IsStop(id[i]);
    RunIsUnique(DefaultSecondaryMedia, 17, id);
  }

  /** The default media is a YouTube link whose id is "kRCH8kD1GD0", so the
      player is shown. */
  lemma DefaultMediaIsPlayer()
    ensures IsYouTubeUrl(DefaultSecondaryMedia)
    ensures VideoId(DefaultSecondaryMedia) == Some("kRCH8kD1GD0")
    ensures SecondaryMedia(DefaultSecondaryMedia) == Player(EmbedSrc("kRCH8kD1GD0"))
  {
    assert OccursAt(DefaultSecondaryMedia, "youtu.be", 8);
    DefaultLineEnd();
    DefaultMarker();
    assert MarkerAt(DefaultSecondaryMedia, 8) == Some(9);
    DefaultRun();
  }
}
