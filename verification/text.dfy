/**
 Python string helpers used throughout the source: `str.strip`, the blank test
 `not s.strip()`, `str.isdigit`, `str.split(sep)` and the comma-list idiom
 `[p.strip() for p in s.split(",") if p.strip()]`.
 */
module Text {
  import opened Base

  /** Python's `str.isspace` for one code point: the characters `str.strip()` removes. */
  predicate IsSpace(c: char) {
    || c == ' '
    || ('\t' <= c <= '\r')
    || ('\U{1c}' <= c <= '\U{1f}')
    || c == '\U{85}' || c == '\U{a0}' || c == '\U{1680}'
    || ('\U{2000}' <= c <= '\U{200a}')
    || c == '\U{2028}' || c == '\U{2029}' || c == '\U{202f}' || c == '\U{205f}' || c == '\U{3000}'
  }

  /** `not s.strip()`: the string holds whitespace only. */
  predicate IsBlank(s: string) {
    forall k :: 0 <= k < |s| ==> IsSpace(s[k])
  }

  /** `s.lstrip()`: drop leading whitespace. */
  function TrimStart(s: string): (r: string) {
    if |s| > 0 && IsSpace(s[0]) then TrimStart(s[1..]) else s
  }

  /** `s.rstrip()`: drop trailing whitespace. */
  function TrimEnd(s: string): (r: string) {
    if |s| > 0 && IsSpace(s[|s| - 1]) then TrimEnd(s[..|s| - 1]) else s
  }

  /** `s.strip()`. */
  function Strip(s: string): (r: string) {
    TrimEnd(TrimStart(s))
  }

  /** `s.lstrip()` is the longest suffix of `s` that does not start with whitespace. */
  lemma {:induction false} TrimStartShape(s: string)
    ensures var r := TrimStart(s);
            |r| <= |s| && r == s[|s| - |r|..] && IsBlank(s[..|s| - |r|]) && (r == [] || !IsSpace(r[0]))
  {
    if |s| > 0 && IsSpace(s[0]) {
      TrimStartShape(s[1..]);
      var r := TrimStart(s);
      assert s[1..][..|s| - 1 - |r|] == s[1..|s| - |r|];
      assert forall k :: 0 < k < |s| - |r| ==> s[k] == s[1..|s| - |r|][k - 1];
    }
  }

  /** `s.rstrip()` is the longest prefix of `s` that does not end with whitespace. */
  lemma {:induction false} TrimEndShape(s: string)
    ensures var r := TrimEnd(s);
            |r| <= |s| && r == s[..|r|] && IsBlank(s[|r|..]) && (r == [] || !IsSpace(r[|r| - 1]))
  {
    if |s| > 0 && IsSpace(s[|s| - 1]) {
      TrimEndShape(s[..|s| - 1]);
      var r := TrimEnd(s);
      assert s[..|s| - 1][|r|..] == s[|r|..|s| - 1];
      assert forall k :: |r| <= k < |s| - 1 ==> s[k] == s[|r|..|s| - 1][k - |r|];
    }
  }

  /** A string that neither starts nor ends with whitespace is its own `strip()`. */
  lemma StripUntrimmed(s: string)
    requires s == [] || (!IsSpace(s[0]) && !IsSpace(s[|s| - 1]))
    ensures Strip(s) == s
  {
  }

  /** `s.strip()` removes whitespace only, from both ends, and leaves a contiguous middle part
      that neither starts nor ends with whitespace. */
  lemma StripShape(s: string) returns (i: nat, j: nat)
    ensures i <= j <= |s| && Strip(s) == s[i..j]
    ensures IsBlank(s[..i]) && IsBlank(s[j..])
    ensures Strip(s) == [] || (!IsSpace(Strip(s)[0]) && !IsSpace(Strip(s)[|Strip(s)| - 1]))
  {
    var t := TrimStart(s);
    TrimStartShape(s);
    TrimEndShape(t);
    i := |s| - |t|;
    var r := TrimEnd(t);
    j := i + |r|;
    assert s[i..j] == t[..|r|];
    assert s[j..] == t[|r|..];
  }

  /** The blank test `not s.strip()` holds exactly when the string is whitespace only. */
  lemma StripEmptyIffBlank(s: string)
    ensures Strip(s) == [] <==> IsBlank(s)
  {
    var i, j := StripShape(s);
    if Strip(s) == [] {
      forall k | 0 <= k < |s| ensures IsSpace(s[k]) {
        if k < i { assert s[k] == s[..i][k]; } else { assert s[k] == s[j..][k - j]; }
      }
    } else {
      assert !IsSpace(s[i]);
    }
  }

  /** Stripping twice is stripping once. */
  lemma StripIdempotent(s: string)
    ensures Strip(Strip(s)) == Strip(s)
  {
    var r := Strip(s);
    if r != [] {
      var i, j := StripShape(s);
      StripUntrimmed(r);
    }
  }

  /** The result of `s.strip()` is blank only when it is empty. */
  lemma StrippedBlankIsEmpty(s: string)
    ensures IsBlank(Strip(s)) <==> Strip(s) == []
  {
    StripEmptyIffBlank(s);
    StripIdempotent(s);
    StripEmptyIffBlank(Strip(s));
  }

  /** `s.isdigit()`, restricted to the ASCII digits: non-empty and every character in '0'..'9'. */
  predicate IsDigits(s: string) {
    |s| > 0 && forall k :: 0 <= k < |s| ==> '0' <= s[k] <= '9'
  }

  /** `s.index(c)` without the exception: the position of the first occurrence of `c`. */
  function FirstIndexOf(s: string, c: char): (r: Option<nat>)
    ensures r.Some? ==> r.value < |s| && s[r.value] == c && c !in s[..r.value]
    ensures r.None? <==> c !in s
  {
    if |s| == 0 then None
    else if s[0] == c then Some(0)
    else match FirstIndexOf(s[1..], c)
      case None => None
      case Some(k) => Some(k + 1)
  }

  /** `s.rindex(c)` without the exception: the position of the last occurrence of `c`. */
  function LastIndexOf(s: string, c: char): (r: Option<nat>)
    ensures r.Some? ==> r.value < |s| && s[r.value] == c && c !in s[r.value + 1..]
    ensures r.None? <==> c !in s
  {
    if |s| == 0 then None
    else if s[|s| - 1] == c then Some(|s| - 1)
    else LastIndexOf(s[..|s| - 1], c)
  }

  /** `s.split(sep)` for a one-character separator: the pieces between separators, always at least one. */
  function Split(s: string, sep: char): (r: seq<string>)
    ensures |r| >= 1
    ensures forall k :: 0 <= k < |r| ==> sep !in r[k]
  {
    if |s| == 0 then [[]]
    else
      var rest := Split(s[1..], sep);
      if s[0] == sep then [[]] + rest
      else [[s[0]] + rest[0]] + rest[1..]
  }

  /** `sep.join(ps)`. */
  function Join(ps: seq<string>, sep: char): (r: string) {
    if |ps| == 0 then []
    else if |ps| == 1 then ps[0]
    else ps[0] + [sep] + Join(ps[1..], sep)
  }

  /** Joining the pieces of a split gives the original string back. */
  lemma {:induction false} JoinSplit(s: string, sep: char)
    ensures Join(Split(s, sep), sep) == s
  {
    if |s| > 0 {
      var rest := Split(s[1..], sep);
      JoinSplit(s[1..], sep);
      if s[0] == sep {
        assert Split(s, sep) == [[]] + rest;
      } else {
        var r := Split(s, sep);
        assert r == [[s[0]] + rest[0]] + rest[1..];
        if |rest| == 1 {
          assert r == [[s[0]] + rest[0]];
        } else {
          assert r[1..] == rest[1..];
        }
      }
    }
  }

  /** Splitting a join of separator-free pieces gives the pieces back. */
  lemma {:induction false} SplitJoin(ps: seq<string>, sep: char)
    requires |ps| >= 1
    requires forall k :: 0 <= k < |ps| ==> sep !in ps[k]
    ensures Split(Join(ps, sep), sep) == ps
  {
    if |ps| == 1 {
      SplitNoSep(ps[0], sep);
    } else {
      SplitJoin(ps[1..], sep);
      SplitPrefix(ps[0], Join(ps[1..], sep), sep);
      assert [ps[0]] + ps[1..] == ps;
    }
  }

  /** A string without the separator splits into itself. */
  lemma {:induction false} SplitNoSep(s: string, sep: char)
    requires sep !in s
    ensures Split(s, sep) == [s]
  {
    if |s| > 0 {
      SplitNoSep(s[1..], sep);
      assert [s[0]] + s[1..] == s;
    }
  }

  /** Splitting `p + sep + t` for a separator-free `p` yields `p` followed by the pieces of `t`. */
  lemma {:induction false} SplitPrefix(p: string, t: string, sep: char)
    requires sep !in p
    ensures Split(p + [sep] + t, sep) == [p] + Split(t, sep)
  {
    if |p| == 0 {
      assert p + [sep] + t == [sep] + t;
      assert ([sep] + t)[1..] == t;
    } else {
      var s := p + [sep] + t;
      assert s[1..] == p[1..] + [sep] + t;
      SplitPrefix(p[1..], t, sep);
      assert [p[0]] + p[1..] == p;
    }
  }

  /** `[p.strip() for p in ps if p.strip()]`. */
  function StripNonBlank(ps: seq<string>): (r: seq<string>)
    ensures |r| <= |ps|
  {
    if |ps| == 0 then []
    else if IsBlank(ps[0]) then StripNonBlank(ps[1..])
    else [Strip(ps[0])] + StripNonBlank(ps[1..])
  }

  /** Some non-blank piece of `ps` strips to `x`. */
  ghost predicate Contributes(ps: seq<string>, x: string) {
    exists k :: 0 <= k < |ps| && !IsBlank(ps[k]) && Strip(ps[k]) == x
  }

  lemma ContributesCons(ps: seq<string>, x: string)
    requires |ps| > 0
    ensures Contributes(ps, x) <==> (!IsBlank(ps[0]) && Strip(ps[0]) == x) || Contributes(ps[1..], x)
  {
    if Contributes(ps, x) {
      var k :| 0 <= k < |ps| && !IsBlank(ps[k]) && Strip(ps[k]) == x;
      if k > 0 { assert ps[1..][k - 1] == ps[k]; }
    }
    if Contributes(ps[1..], x) {
      var k :| 0 <= k < |ps[1..]| && !IsBlank(ps[1..][k]) && Strip(ps[1..][k]) == x;
      assert ps[k + 1] == ps[1..][k];
    }
  }

  /** Every entry of the comprehension is a stripped, non-empty piece. */
  lemma {:induction false} StripNonBlankEntries(ps: seq<string>)
    ensures forall x :: x in StripNonBlank(ps) ==> x != [] && Strip(x) == x
  {
    if |ps| > 0 {
      StripNonBlankEntries(ps[1..]);
      StripEmptyIffBlank(ps[0]);
      StripIdempotent(ps[0]);
    }
  }

  /** `x` is an entry of the comprehension exactly when some non-blank piece strips to it. */
  lemma {:induction false} StripNonBlankMembers(ps: seq<string>, x: string)
    ensures x in StripNonBlank(ps) <==> Contributes(ps, x)
  {
    if |ps| > 0 {
      StripNonBlankMembers(ps[1..], x);
      ContributesCons(ps, x);
    }
  }

  /** A character that no piece holds is in no entry of the comprehension either. */
  lemma {:induction false} StripNonBlankAvoids(ps: seq<string>, c: char)
    requires forall k :: 0 <= k < |ps| ==> c !in ps[k]
    ensures forall k :: 0 <= k < |StripNonBlank(ps)| ==> c !in StripNonBlank(ps)[k]
  {
    if |ps| > 0 {
      StripNonBlankAvoids(ps[1..], c);
      StripInfix(ps[0]);
    }
  }

  /** The comma-list parser: split on ',', strip every piece and keep the non-empty ones, in order. */
  function CommaList(s: string): (r: seq<string>)
    ensures forall k :: 0 <= k < |r| ==> r[k] != [] && Strip(r[k]) == r[k] && ',' !in r[k]
  {
    var ps := Split(s, ',');
    StripNonBlankEntries(ps);
    StripNonBlankAvoids(ps, ',');
    var r := StripNonBlank(ps);
    assert forall k :: 0 <= k < |r| ==> r[k] in r;
    r
  }

  /** Whatever `strip` keeps was already in the string. */
  lemma StripInfix(s: string)
    ensures forall c :: c in Strip(s) ==> c in s
  {
    var i, j := StripShape(s);
    forall c | c in Strip(s) ensures c in s {
      var k :| 0 <= k < |Strip(s)| && Strip(s)[k] == c;
      assert s[i + k] == c;
    }
  }

  /** The comma list of a comma-joined sequence of comma-free pieces is the stripped non-blank pieces. */
  lemma CommaListOfJoin(ps: seq<string>)
    requires |ps| >= 1
    requires forall k :: 0 <= k < |ps| ==> ',' !in ps[k]
    ensures CommaList(Join(ps, ',')) == StripNonBlank(ps)
  {
    SplitJoin(ps, ',');
  }

  /** A list whose entries are already stripped and non-empty passes the comprehension unchanged. */
  lemma {:induction false} StripNonBlankKeepsClean(ps: seq<string>)
    requires forall k :: 0 <= k < |ps| ==> ps[k] != [] && Strip(ps[k]) == ps[k]
    ensures StripNonBlank(ps) == ps
  {
    if |ps| > 0 {
      StripEmptyIffBlank(ps[0]);
      StripNonBlankKeepsClean(ps[1..]);
      assert [ps[0]] + ps[1..] == ps;
    }
  }

  /** Joining a parsed comma list with commas and parsing it again gives the same list. */
  lemma CommaListIdempotent(s: string)
    ensures CommaList(Join(CommaList(s), ',')) == CommaList(s)
  {
    var r := CommaList(s);
    if |r| == 0 {
      assert Split(Join(r, ','), ',') == [[]];
      assert IsBlank([]);
    } else {
      CommaListOfJoin(r);
      StripNonBlankKeepsClean(r);
    }
  }
}
