/**
 The email shape test of the candidate form, `re.match(r"[^@]+@[^@]+\.[^@]+", email)`.
 `re.match` anchors at the start only, so the address matches when some prefix has the
 shape "local part, '@', domain part, '.', suffix" with no '@' in any of the three parts.
 */
module Email {
  import opened Base
  import opened Text

  /** No '@' between positions `lo` (inclusive) and `hi` (exclusive). */
  ghost predicate NoAt(s: string, lo: int, hi: int)
    requires 0 <= lo <= hi <= |s|
  {
    forall k :: lo <= k < hi ==> s[k] != '@'
  }

  /** The regular expression matches `s[..end]` with the '@' at `at` and the '.' at `dot`:
      `s[..at]` is the local part, `s[at+1..dot]` the domain and `s[dot+1..end]` the suffix,
      each non-empty and free of '@'. */
  ghost predicate ShapedAt(s: string, at: int, dot: int, end: int) {
    0 < at && at + 1 < dot && dot + 1 < end <= |s|
    && s[at] == '@' && s[dot] == '.'
    && NoAt(s, 0, at) && NoAt(s, at + 1, dot) && NoAt(s, dot + 1, end)
  }

  /** The regular expression matches a prefix of `s`. */
  ghost predicate Shaped(s: string) {
    exists at, dot, end :: ShapedAt(s, at, dot, end)
  }

  /** A '.' with at least one character on each side. */
  function HasInnerDot(seg: string): (r: bool)
    ensures r <==> exists d :: 0 < d < |seg| - 1 && seg[d] == '.'
  {
    |seg| >= 3 && '.' in seg[1..|seg| - 1]
  }

  /** The text after the first '@' up to the next '@' (or the end). */
  function DomainSegment(t: string): (r: string)
    ensures r <= t && '@' !in r
    ensures r != t ==> t[|r|] == '@'
  {
    match FirstIndexOf(t, '@')
    case None => t
    case Some(j) => t[..j]
  }

  /** The match as the regular-expression engine decides it: the local part must run up to the
      first '@', and the domain and suffix must fit in the '@'-free stretch after it. */
  function Matches(s: string): (b: bool)
    ensures b ==> |s| > 0 && s[0] != '@' && '@' in s
  {
    match FirstIndexOf(s, '@')
    case None => false
    case Some(at) => at > 0 && HasInnerDot(DomainSegment(s[at + 1..]))
  }

  /** An address that the executable test accepts has the shape of a match. */
  lemma MatchesShaped(s: string)
    requires Matches(s)
    ensures Shaped(s)
  {
    var at := FirstIndexOf(s, '@').value;
    var seg := DomainSegment(s[at + 1..]);
    var d :| 0 < d < |seg| - 1 && seg[d] == '.';
    var dot, end := at + 1 + d, at + 1 + |seg|;
    assert s[dot] == seg[d];
    BeforeFirstAt(s);
    SegmentHasNoAt(s, at);
    assert ShapedAt(s, at, dot, end);
  }

  /** No '@' precedes the first one. */
  lemma BeforeFirstAt(s: string)
    requires FirstIndexOf(s, '@').Some?
    ensures NoAt(s, 0, FirstIndexOf(s, '@').value)
  {
    var at := FirstIndexOf(s, '@').value;
    forall k | 0 <= k < at ensures s[k] != '@' { assert s[k] == s[..at][k]; }
  }

  /** The stretch after position `at` up to the next '@' holds no '@'. */
  lemma SegmentHasNoAt(s: string, at: nat)
    requires at < |s|
    ensures at + 1 + |DomainSegment(s[at + 1..])| <= |s|
    ensures NoAt(s, at + 1, at + 1 + |DomainSegment(s[at + 1..])|)
  {
    var seg := DomainSegment(s[at + 1..]);
    forall k | at + 1 <= k < at + 1 + |seg| ensures s[k] != '@' { assert s[k] == seg[k - at - 1]; }
  }

  /** The '@' of any match is the first '@' of the address. */
  lemma ShapedAtFirstAt(s: string, at: int, dot: int, end: int)
    requires ShapedAt(s, at, dot, end)
    ensures FirstIndexOf(s, '@') == Some(at)
  {
    var first := FirstIndexOf(s, '@');
    assert s[at] == '@';
  }

  /** The '@'-free stretch after the first '@' reaches past the suffix of any match. */
  lemma ShapedAtSegment(s: string, at: int, dot: int, end: int)
    requires ShapedAt(s, at, dot, end)
    ensures |DomainSegment(s[at + 1..])| >= end - at - 1
  {
    var t := s[at + 1..];
    var seg := DomainSegment(t);
    if |seg| < end - at - 1 {
      assert false;
    }
  }

  lemma ShapedMatches(s: string, at: int, dot: int, end: int)
    requires ShapedAt(s, at, dot, end)
    ensures Matches(s)
  {
    ShapedAtFirstAt(s, at, dot, end);
    ShapedAtSegment(s, at, dot, end);
    var seg := DomainSegment(s[at + 1..]);
    assert seg[dot - at - 1] == s[at + 1..][dot - at - 1] == s[dot];
  }

  /** The executable test accepts exactly the addresses of the shape. */
  lemma MatchesIffShaped(s: string)
    ensures Matches(s) <==> Shaped(s)
  {
    if Matches(s) {
      MatchesShaped(s);
    }
    if Shaped(s) {
      var at, dot, end :| ShapedAt(s, at, dot, end);
      ShapedMatches(s, at, dot, end);
    }
  }
}
