/** The tag-matching routines of ocr_utils.py: `normalize_name`,
    `extract_nicktags` and `find_best_nicktag`, with the similarity ratio of
    `fuzzy_match` passed in as a predicate. Characters are classified as
    Python classifies them, for the Latin-1 range; see README. */
module NickTags {
  import opened LeagueTypes

  // ---------------------------------------------------------------- characters

  /** Python's `str.isspace`, which is also what `\s` matches in a `str` pattern. */
  predicate IsSpace(c: char)
  {
    || ('\t' <= c <= '\r') || ('\U{1C}' <= c <= ' ') || c == '\U{85}' || c == '\U{A0}'
    || c == '\U{1680}' || ('\U{2000}' <= c <= '\U{200A}') || c == '\U{2028}' || c == '\U{2029}'
    || c == '\U{202F}' || c == '\U{205F}' || c == '\U{3000}'
  }

  /** An upper-case letter that `str.lower` maps one code point up by 0x20. */
  predicate IsUpper(c: char)
  {
    ('A' <= c <= 'Z') || ('\U{C0}' <= c <= '\U{DE}' && c != '\U{D7}')
  }

  /** `str.lower` on one character. */
  function LowerChar(c: char): (r: char)
    ensures !IsUpper(r)
    ensures IsSpace(r) <==> IsSpace(c)
    ensures !IsUpper(c) ==> r == c
  {
    if IsUpper(c) then (c as int + 0x20) as char else c
  }

  /** What `\w` matches: letters, digits (including the numeric signs of
      Latin-1) and the underscore. */
  predicate IsWordChar(c: char)
  {
    || ('a' <= c <= 'z') || ('A' <= c <= 'Z') || ('0' <= c <= '9') || c == '_'
    || c == '\U{AA}' || c == '\U{B2}' || c == '\U{B3}' || c == '\U{B5}' || c == '\U{B9}' || c == '\U{BA}'
    || ('\U{BC}' <= c <= '\U{BE}') || ('\U{C0}' <= c <= '\U{D6}') || ('\U{D8}' <= c <= '\U{F6}')
    || ('\U{F8}' <= c <= '\U{FF}')
  }

  /** What the class `[\w\.\-]` matches. */
  predicate IsTagChar(c: char)
  {
    IsWordChar(c) || c == '.' || c == '-'
  }

  /** No tag character is whitespace. */
  lemma TagCharNotSpace(c: char)
    requires IsTagChar(c)
    ensures !IsSpace(c)
  {
  }

  // ------------------------------------------------------------ normalize_name

  /** `lstrip()`: drops the leading whitespace. */
  function StripLeft(s: string): (r: string)
    ensures |r| <= |s| && r == s[|s| - |r|..]
    ensures forall k :: 0 <= k < |s| - |r| ==> IsSpace(s[k])
    ensures r == [] || !IsSpace(r[0])
    decreases |s|
  {
    if s != [] && IsSpace(s[0]) then StripLeft(s[1..]) else s
  }

  /** `rstrip()`: drops the trailing whitespace. */
  function StripRight(s: string): (r: string)
    ensures |r| <= |s| && r == s[..|r|]
    ensures forall k :: |r| <= k < |s| ==> IsSpace(s[k])
    ensures r == [] || !IsSpace(r[|r| - 1])
    decreases |s|
  {
    if s != [] && IsSpace(s[|s| - 1]) then StripRight(s[..|s| - 1]) else s
  }

  /** `strip()`: neither end of the result is whitespace, and only
      whitespace was removed. */
  function Strip(s: string): (r: string)
    ensures r == [] || (!IsSpace(r[0]) && !IsSpace(r[|r| - 1]))
    ensures |s| > 0 && !IsSpace(s[0]) && !IsSpace(s[|s| - 1]) ==> r == s
  {
    StripRight(StripLeft(s))
  }

  /** `strip()` keeps no more than the string, and leaves nothing exactly
      when the string is all whitespace. */
  lemma StripEmpty(s: string)
    ensures |Strip(s)| <= |s|
    ensures Strip(s) == [] <==> forall k :: 0 <= k < |s| ==> IsSpace(s[k])
  {
    var l := StripLeft(s);
    if Strip(s) == [] {
      assert l == [];
    }
  }

  /** `lower()`. */
  function Lower(s: string): (r: string)
    ensures |r| == |s|
    ensures forall k :: 0 <= k < |s| ==> r[k] == LowerChar(s[k])
  {
    seq(|s|, k requires 0 <= k < |s| => LowerChar(s[k]))
  }

  /** Every whitespace character is a plain space and no two are adjacent. */
  predicate SpacesCollapsed(t: string)
    decreases |t|
  {
    t == [] ||
    (&& (IsSpace(t[0]) ==> t[0] == ' ' && (|t| > 1 ==> !IsSpace(t[1])))
     && SpacesCollapsed(t[1..]))
  }

  /** `re.sub(r'\s+', ' ', s)`: each maximal whitespace run becomes one
      space; every other character is kept. */
  function Collapse(s: string): (r: string)
    ensures |r| <= |s| && (r == [] <==> s == [])
    ensures s != [] ==> (IsSpace(r[0]) <==> IsSpace(s[0]))
    ensures s != [] ==> (IsSpace(r[|r| - 1]) <==> IsSpace(s[|s| - 1]))
    decreases |s|
  {
    if s == [] then []
    else if IsSpace(s[0]) then
      var rest := StripLeft(s[1..]);
      assert rest != [] ==> rest[|rest| - 1] == s[|s| - 1];
      [' '] + Collapse(rest)
    else [s[0]] + Collapse(s[1..])
  }

  /** A character in front of a collapsed string keeps it collapsed unless
      it is whitespace other than a plain space, or whitespace before more. */
  lemma ConsCollapsed(h: char, c: string)
    requires SpacesCollapsed(c)
    requires IsSpace(h) ==> h == ' ' && (c == [] || !IsSpace(c[0]))
    ensures SpacesCollapsed([h] + c)
  {
    assert ([h] + c)[1..] == c;
  }

  /** After collapsing, every whitespace character is a single plain space. */
  lemma {:induction false} CollapseSpaces(s: string)
    ensures SpacesCollapsed(Collapse(s))
    decreases |s|
  {
    if s != [] {
      if IsSpace(s[0]) {
        var rest := StripLeft(s[1..]);
        CollapseSpaces(rest);
        ConsCollapsed(' ', Collapse(rest));
      } else {
        CollapseSpaces(s[1..]);
        ConsCollapsed(s[0], Collapse(s[1..]));
      }
    }
  }

  /** No character of `s` is an upper-case letter. */
  predicate NoUpper(s: string)
  {
    forall k :: 0 <= k < |s| ==> !IsUpper(s[k])
  }

  /** A suffix of a string without upper-case letters has none. */
  lemma SuffixNoUpper(s: string, j: nat)
    requires NoUpper(s) && j <= |s|
    ensures NoUpper(s[j..])
  {
    assert forall k :: 0 <= k < |s| - j ==> s[j..][k] == s[j + k];
  }

  /** A character that is not upper-case in front of a string without
      upper-case letters. */
  lemma ConsNoUpper(h: char, c: string)
    requires !IsUpper(h) && NoUpper(c)
    ensures NoUpper([h] + c)
  {
    assert forall k :: 1 <= k < |c| + 1 ==> ([h] + c)[k] == c[k - 1];
  }

  /** Collapsing a string without upper-case letters introduces none. */
  lemma {:induction false} CollapseKeepsLower(s: string)
    requires NoUpper(s)
    ensures NoUpper(Collapse(s))
    decreases |s|
  {
    if s != [] {
      SuffixNoUpper(s, 1);
      var tail := s[1..];
      if IsSpace(s[0]) {
        var rest := StripLeft(tail);
        SuffixNoUpper(tail, |tail| - |rest|);
        CollapseKeepsLower(rest);
        ConsNoUpper(' ', Collapse(rest));
      } else {
        CollapseKeepsLower(tail);
        ConsNoUpper(s[0], Collapse(tail));
      }
    }
  }

  /** `normalize_name`: strip, lower-case, collapse whitespace runs. */
  function Normalize(s: string): (r: string)
    ensures |r| <= |s|
  {
    Collapse(Lower(Strip(s)))
  }

  /** `normalize_name` gives the empty string exactly for a name made only
      of whitespace. */
  lemma NormalizeEmpty(s: string)
    ensures Normalize(s) == [] <==> forall k :: 0 <= k < |s| ==> IsSpace(s[k])
  {
    StripEmpty(s);
  }

  /** The strings `normalize_name` returns: lower-case, no whitespace at
      either end, and single plain spaces inside. */
  predicate NormalForm(t: string)
  {
    && NoUpper(t)
    && SpacesCollapsed(t)
    && (t == [] || (!IsSpace(t[0]) && !IsSpace(t[|t| - 1])))
  }

  /** Collapsing a string whose spaces are already collapsed changes nothing. */
  lemma {:induction false} CollapseFixpoint(t: string)
    requires SpacesCollapsed(t)
    ensures Collapse(t) == t
    decreases |t|
  {
    if t != [] {
      var tail := t[1..];
      CollapseFixpoint(tail);
      if IsSpace(t[0]) {
        assert StripLeft(tail) == tail;
      }
      assert t == [t[0]] + tail;
    }
  }

  /** `normalize_name` always returns a string in normal form. */
  lemma NormalizeIsNormal(s: string)
    ensures NormalForm(Normalize(s))
  {
    var st := Strip(s);
    LowerKeepsEnds(st);
    CollapseIsNormal(Lower(st));
  }

  /** Collapsing a lower-case string with no whitespace at either end gives
      a string in normal form. */
  lemma CollapseIsNormal(t: string)
    requires NoUpper(t)
    requires t == [] || (!IsSpace(t[0]) && !IsSpace(t[|t| - 1]))
    ensures NormalForm(Collapse(t))
  {
    CollapseSpaces(t);
    CollapseKeepsLower(t);
  }

  /** Lower-casing leaves no upper-case letter and keeps whether each end is
      whitespace. */
  lemma LowerKeepsEnds(t: string)
    ensures NoUpper(Lower(t))
    ensures t != [] ==> (IsSpace(Lower(t)[0]) <==> IsSpace(t[0]))
    ensures t != [] ==> (IsSpace(Lower(t)[|t| - 1]) <==> IsSpace(t[|t| - 1]))
  {
  }

  /** A string in normal form is its own normalization. */
  lemma NormalFormIsFixpoint(t: string)
    requires NormalForm(t)
    ensures Normalize(t) == t
  {
    assert Strip(t) == t;
    assert Lower(t) == t;
    CollapseFixpoint(t);
  }

  /** `normalize_name` is idempotent. */
  lemma NormalizeIdempotent(s: string)
    ensures Normalize(Normalize(s)) == Normalize(s)
  {
    NormalizeIsNormal(s);
    NormalFormIsFixpoint(Normalize(s));
  }

  // ---------------------------------------------------------- extract_nicktags

  /** The length of the run of characters satisfying `p` that starts at `i`. */
  function Run(s: string, i: nat, p: char -> bool): (n: nat)
    requires i <= |s|
    ensures i + n <= |s|
    ensures forall k :: i <= k < i + n ==> p(s[k])
    ensures i + n == |s| || !p(s[i + n])
    decreases |s| - i
  {
    if i < |s| && p(s[i]) then 1 + Run(s, i + 1, p) else 0
  }

  /** One match of `#\w+\s+([\w\.\-]+)`: the position of the `#`, and the
      bounds of the captured tag. */
  datatype Span = Span(hash: nat, start: nat, end: nat)

  /** The match of the pattern at position `i`, if there is one. The three
      classes `\w`, `\s` and `[\w\.\-]` are tried greedily; since `\w` and
      `\s`, and `\s` and the tag class, share no character, no shorter run
      could let the pattern match, so the greedy match is the only one. */
  function MatchAt(s: string, i: nat): (r: Option<Span>)
    requires i <= |s|
    ensures r.Some? ==> r.value.hash == i && i + 1 < r.value.start < r.value.end <= |s|
  {
    if i < |s| && s[i] == '#' then
      var w := Run(s, i + 1, IsWordChar);
      if w == 0 then None
      else
        var j := i + 1 + w;
        var sp := Run(s, j, IsSpace);
        if sp == 0 then None
        else
          var g := j + sp;
          var t := Run(s, g, IsTagChar);
          if t == 0 then None else Some(Span(i, g, g + t))
    else None
  }

  /** A match is a `#`, a run of word characters, a run of whitespace, and
      the longest run of tag characters after it. */
  lemma MatchShape(s: string, i: nat)
    requires i <= |s| && MatchAt(s, i).Some?
    ensures var m := MatchAt(s, i).value;
      && s[i] == '#' && IsWordChar(s[i + 1]) && IsSpace(s[m.start - 1])
      && (forall k :: i + 1 <= k < m.start ==> IsWordChar(s[k]) || IsSpace(s[k]))
      && (forall k :: m.start <= k < m.end ==> IsTagChar(s[k]))
      && (m.end == |s| || !IsTagChar(s[m.end]))
  {
  }

  /** A search function over the positions `0 .. n` of a text: a match it
      finds at `h` starts there and ends after it, inside the text. */
  ghost predicate Advances(n: nat, find: nat -> Option<Span>)
  {
    forall h: nat :: h <= n && find(h).Some? ==> h == find(h).value.hash < find(h).value.start < find(h).value.end <= n
  }

  /** The loop of `findall`, from position `i`: try the pattern at each
      position in turn; after a match, resume where it ended. */
  function FindAll(n: nat, i: nat, find: nat -> Option<Span>): (r: seq<Span>)
    requires i <= n && Advances(n, find)
    ensures forall k :: 0 <= k < |r| ==> i <= r[k].hash < r[k].start < r[k].end <= n
    decreases n - i
  {
    if i == n then []
    else match find(i)
      case None => FindAll(n, i + 1, find)
      case Some(m) => [m] + FindAll(n, m.end, find)
  }

  /** Every span `findall` reports is what the search finds at its `#`. */
  lemma {:induction false} FindAllFound(n: nat, i: nat, find: nat -> Option<Span>, k: nat)
    requires i <= n && Advances(n, find) && k < |FindAll(n, i, find)|
    ensures find(FindAll(n, i, find)[k].hash) == Some(FindAll(n, i, find)[k])
    decreases n - i
  {
    if i < n {
      match find(i)
      case None => FindAllFound(n, i + 1, find, k);
      case Some(m) =>
        if k > 0 {
          FindAllFound(n, m.end, find, k - 1);
        }
    }
  }

  /** The matches do not overlap: each search resumes after the previous
      match, so the next `#` comes no earlier than where that match ended. */
  lemma {:induction false} FindAllOrdered(n: nat, i: nat, find: nat -> Option<Span>, k: nat)
    requires i <= n && Advances(n, find) && k + 1 < |FindAll(n, i, find)|
    ensures FindAll(n, i, find)[k].end <= FindAll(n, i, find)[k + 1].hash
    decreases n - i
  {
    if i < n {
      match find(i)
      case None => FindAllOrdered(n, i + 1, find, k);
      case Some(m) =>
        if k > 0 {
          FindAllOrdered(n, m.end, find, k - 1);
        }
    }
  }

  /** When `findall` reports nothing, the search finds nothing anywhere
      from `i` on. */
  lemma {:induction false} FindAllNone(n: nat, i: nat, find: nat -> Option<Span>)
    requires i <= n && Advances(n, find) && FindAll(n, i, find) == []
    ensures forall h :: i <= h <= n ==> find(h).None?
    decreases n - i
  {
    if i < n {
      assert find(i).None?;
      FindAllNone(n, i + 1, find);
    }
  }

  /** The pattern tried at each position of `s`. */
  function Matcher(s: string): (find: nat -> Option<Span>)
    ensures Advances(|s|, find)
  {
    (h: nat) => if h <= |s| then MatchAt(s, h) else None
  }

  /** `pattern.findall(text)`: the spans of the matches, left to right. */
  function Scan(s: string): (r: seq<Span>)
    ensures forall k :: 0 <= k < |r| ==> r[k].hash < r[k].start < r[k].end <= |s|
  {
    FindAll(|s|, 0, Matcher(s))
  }

  /** `extract_nicktags`: the captured tags, each stripped. */
  function ExtractNicktags(text: string): (r: seq<string>)
    ensures |r| == |Scan(text)|
  {
    var spans := Scan(text);
    seq(|spans|, k requires 0 <= k < |spans| => Strip(text[spans[k].start..spans[k].end]))
  }

  /** The `k`-th extracted tag is the text its match captured (stripping
      changes nothing): non-empty, made of word characters, dots and hyphens,
      and right after a `#word` token and whitespace. */
  lemma ExtractedTag(text: string, k: nat)
    requires k < |Scan(text)|
    ensures var m := Scan(text)[k];
      && MatchAt(text, m.hash) == Some(m)
      && text[m.hash] == '#' && IsWordChar(text[m.hash + 1]) && IsSpace(text[m.start - 1])
      && (forall j :: m.start <= j < m.end ==> IsTagChar(text[j]))
      && ExtractNicktags(text)[k] == text[m.start..m.end]
  {
    var m := Scan(text)[k];
    FindAllFound(|text|, 0, Matcher(text), k);
    assert Matcher(text)(m.hash) == MatchAt(text, m.hash);
    CapturedTag(text, m.hash);
    StripTag(text, m.start, m.end);
  }

  /** Consecutive extracted tags come from non-overlapping matches, in the
      order they appear in the text. */
  lemma ExtractedInOrder(text: string, k: nat)
    requires k + 1 < |Scan(text)|
    ensures Scan(text)[k].end <= Scan(text)[k + 1].hash
  {
    FindAllOrdered(|text|, 0, Matcher(text), k);
  }

  /** `extract_nicktags` returns nothing exactly when the pattern matches at
      no position of the text. */
  lemma NoTagsNoMatch(text: string)
    ensures ExtractNicktags(text) == [] <==> forall h :: 0 <= h <= |text| ==> MatchAt(text, h).None?
  {
    var find := Matcher(text);
    if ExtractNicktags(text) == [] {
      FindAllNone(|text|, 0, find);
      forall h | 0 <= h <= |text|
        ensures MatchAt(text, h).None?
      {
        assert find(h) == MatchAt(text, h);
      }
    } else {
      FindAllFound(|text|, 0, find, 0);
      assert find(Scan(text)[0].hash) == MatchAt(text, Scan(text)[0].hash);
    }
  }

  /** The text a match captures is a non-empty run of tag characters, after
      a `#word` token and whitespace. */
  lemma CapturedTag(text: string, h: nat)
    requires h <= |text| && MatchAt(text, h).Some?
    ensures var m := MatchAt(text, h).value;
      && m.end - m.start > 0
      && (forall j :: m.start <= j < m.end ==> IsTagChar(text[j]))
      && text[h] == '#' && IsWordChar(text[h + 1]) && IsSpace(text[m.start - 1])
  {
    MatchShape(text, h);
  }

  /** Stripping a non-empty run of tag characters changes nothing. */
  lemma StripTag(text: string, start: nat, end: nat)
    requires start < end <= |text| && forall j :: start <= j < end ==> IsTagChar(text[j])
    ensures Strip(text[start..end]) == text[start..end]
  {
    TagCharNotSpace(text[start]);
    TagCharNotSpace(text[end - 1]);
  }

  // --------------------------------------------------------- find_best_nicktag

  /** Python's `needle in hay` on strings: some contiguous part of `hay` is
      `needle` (the empty string is in every string). */
  predicate Contains(hay: string, needle: string)
    decreases |hay|
  {
    (|needle| <= |hay| && hay[..|needle|] == needle) || (hay != [] && Contains(hay[1..], needle))
  }

  /** `needle` occurs in `hay` at position `k`. */
  predicate OccursAt(hay: string, needle: string, k: int)
  {
    0 <= k && k + |needle| <= |hay| && hay[k..k + |needle|] == needle
  }

  /** `Contains` is substring search. */
  lemma {:induction false} ContainsIsSubstring(hay: string, needle: string)
    ensures Contains(hay, needle) <==> exists k :: OccursAt(hay, needle, k)
    decreases |hay|
  {
    if hay == [] {
      if Contains(hay, needle) {
        assert OccursAt(hay, needle, 0);
      }
      if exists k :: OccursAt(hay, needle, k) {
        var k :| OccursAt(hay, needle, k);
        assert needle == [] && hay[..0] == needle;
      }
    } else {
      ContainsIsSubstring(hay[1..], needle);
      if Contains(hay, needle) {
        if |needle| <= |hay| && hay[..|needle|] == needle {
          assert OccursAt(hay, needle, 0);
        } else {
          var k :| OccursAt(hay[1..], needle, k);
          assert hay[k + 1..k + 1 + |needle|] == hay[1..][k..k + |needle|];
          assert OccursAt(hay, needle, k + 1);
        }
      }
      if exists k :: OccursAt(hay, needle, k) {
        var k :| OccursAt(hay, needle, k);
        if k > 0 {
          assert hay[1..][k - 1..k - 1 + |needle|] == hay[k..k + |needle|];
          assert OccursAt(hay[1..], needle, k - 1);
        } else {
          assert hay[..|needle|] == hay[k..k + |needle|];
        }
      }
    }
  }

  /** `fuzzy_match` with the ratio test as the predicate `similar`. */
  function FuzzyMatch(similar: (string, string) -> bool, a: string, b: string): bool
  {
    similar(Normalize(a), Normalize(b))
  }

  /** The fuzzy tier compares names that are already normalized, so the
      second normalization inside `fuzzy_match` changes nothing. */
  lemma FuzzyOnNormalized(similar: (string, string) -> bool, a: string, b: string)
    ensures FuzzyMatch(similar, Normalize(a), Normalize(b)) == similar(Normalize(a), Normalize(b))
  {
    NormalizeIdempotent(a);
    NormalizeIdempotent(b);
  }

  /** The position of the first element satisfying `p`. */
  function FirstIndex(tags: seq<string>, p: string -> bool, i: nat): (r: Option<nat>)
    requires i <= |tags|
    ensures r.Some? ==> i <= r.value < |tags| && p(tags[r.value])
    ensures r.Some? ==> forall k :: i <= k < r.value ==> !p(tags[k])
    ensures r.None? <==> forall k :: i <= k < |tags| ==> !p(tags[k])
    decreases |tags| - i
  {
    if i == |tags| then None else if p(tags[i]) then Some(i) else FirstIndex(tags, p, i + 1)
  }

  /** Three search loops, each returning the first element that passes its
      test, each tried only when the ones before it found nothing. */
  function FirstByTiers(tags: seq<string>, p1: string -> bool, p2: string -> bool, p3: string -> bool)
    : (r: Option<string>)
    ensures r.Some? ==> r.value in tags
    ensures tags == [] ==> r.None?
  {
    match FirstIndex(tags, p1, 0)
    case Some(k) => Some(tags[k])
    case None =>
      match FirstIndex(tags, p2, 0)
      case Some(k) => Some(tags[k])
      case None =>
        match FirstIndex(tags, p3, 0)
        case Some(k) => Some(tags[k])
        case None => None
  }

  /** The first element passing the first test is the result. */
  lemma FirstTierWins(tags: seq<string>, p1: string -> bool, p2: string -> bool, p3: string -> bool, k: nat)
    requires k < |tags| && p1(tags[k])
    requires forall j :: 0 <= j < k ==> !p1(tags[j])
    ensures FirstByTiers(tags, p1, p2, p3) == Some(tags[k])
  {
    assert FirstIndex(tags, p1, 0).Some?;
  }

  /** When no element passes the first test, the first one passing the
      second is the result. */
  lemma SecondTierWins(tags: seq<string>, p1: string -> bool, p2: string -> bool, p3: string -> bool, k: nat)
    requires forall j :: 0 <= j < |tags| ==> !p1(tags[j])
    requires k < |tags| && p2(tags[k])
    requires forall j :: 0 <= j < k ==> !p2(tags[j])
    ensures FirstByTiers(tags, p1, p2, p3) == Some(tags[k])
  {
    assert FirstIndex(tags, p1, 0).None?;
    assert FirstIndex(tags, p2, 0).Some?;
  }

  /** A result passing neither of the first two tests passes the third, and
      then no element passes either of the first two. */
  lemma ThirdTierLastResort(tags: seq<string>, p1: string -> bool, p2: string -> bool, p3: string -> bool)
    requires FirstByTiers(tags, p1, p2, p3).Some?
    requires !p1(FirstByTiers(tags, p1, p2, p3).value) && !p2(FirstByTiers(tags, p1, p2, p3).value)
    ensures p3(FirstByTiers(tags, p1, p2, p3).value)
    ensures forall j :: 0 <= j < |tags| ==> !p1(tags[j]) && !p2(tags[j])
  {
    var e := FirstIndex(tags, p1, 0);
    var c := FirstIndex(tags, p2, 0);
    if e.None? && c.None? {
      assert FirstIndex(tags, p3, 0).Some?;
    }
  }

  /** There is no result exactly when no element passes any test. */
  lemma NoTierNoResult(tags: seq<string>, p1: string -> bool, p2: string -> bool, p3: string -> bool)
    ensures FirstByTiers(tags, p1, p2, p3).None? <==>
      forall j :: 0 <= j < |tags| ==> !p1(tags[j]) && !p2(tags[j]) && !p3(tags[j])
  {
    var e := FirstIndex(tags, p1, 0);
    var c := FirstIndex(tags, p2, 0);
    var f := FirstIndex(tags, p3, 0);
  }

  /** The first tier: the normalized tag equals one of the normalized names. */
  predicate ExactTier(tag: string, name: string, display: string)
  {
    Normalize(tag) == name || Normalize(tag) == display
  }

  /** The second tier: either normalized name is in the normalized tag, or
      the normalized tag is in either normalized name. */
  predicate ContainTier(tag: string, name: string, display: string)
  {
    var t := Normalize(tag);
    Contains(t, name) || Contains(t, display) || Contains(name, t) || Contains(display, t)
  }

  /** The third tier: the tag is similar to either name. */
  predicate FuzzyTier(similar: (string, string) -> bool, tag: string, name: string, display: string)
  {
    FuzzyMatch(similar, Normalize(tag), name) || FuzzyMatch(similar, Normalize(tag), display)
  }

  /** `find_best_nicktag`: the first tag that matches exactly; failing that,
      the first that matches by containment; failing that, the first that
      matches fuzzily; failing all three, none. Both names are normalized
      first. */
  function FindBestNicktag(tags: seq<string>, discordName: string, discordDisplay: string,
                           similar: (string, string) -> bool): (r: Option<string>)
    ensures r.Some? ==> r.value in tags
    ensures tags == [] ==> r.None?
  {
    var n := Normalize(discordName);
    var d := Normalize(discordDisplay);
    FirstByTiers(tags, t => ExactTier(t, n, d), t => ContainTier(t, n, d), t => FuzzyTier(similar, t, n, d))
  }

  /** An exact match wins over every other tier, and the first exact match
      in list order is the one returned. */
  lemma ExactTierFirst(tags: seq<string>, discordName: string, discordDisplay: string,
                       similar: (string, string) -> bool, k: nat)
    requires k < |tags|
    requires ExactTier(tags[k], Normalize(discordName), Normalize(discordDisplay))
    requires forall j :: 0 <= j < k ==> !ExactTier(tags[j], Normalize(discordName), Normalize(discordDisplay))
    ensures FindBestNicktag(tags, discordName, discordDisplay, similar) == Some(tags[k])
  {
    var n := Normalize(discordName);
    var d := Normalize(discordDisplay);
    FirstTierWins(tags, t => ExactTier(t, n, d), t => ContainTier(t, n, d), t => FuzzyTier(similar, t, n, d), k);
  }

  /** With no exact match, the first tag matching by containment is
      returned. */
  lemma ContainTierFirst(tags: seq<string>, discordName: string, discordDisplay: string,
                         similar: (string, string) -> bool, k: nat)
    requires forall j :: 0 <= j < |tags| ==> !ExactTier(tags[j], Normalize(discordName), Normalize(discordDisplay))
    requires k < |tags| && ContainTier(tags[k], Normalize(discordName), Normalize(discordDisplay))
    requires forall j :: 0 <= j < k ==> !ContainTier(tags[j], Normalize(discordName), Normalize(discordDisplay))
    ensures FindBestNicktag(tags, discordName, discordDisplay, similar) == Some(tags[k])
  {
    var n := Normalize(discordName);
    var d := Normalize(discordDisplay);
    SecondTierWins(tags, t => ExactTier(t, n, d), t => ContainTier(t, n, d), t => FuzzyTier(similar, t, n, d), k);
  }

  /** A fuzzy match is returned only when no tag matches exactly or by
      containment. */
  lemma FuzzyTierOnlyAsLastResort(tags: seq<string>, discordName: string, discordDisplay: string,
                                  similar: (string, string) -> bool)
    requires FindBestNicktag(tags, discordName, discordDisplay, similar).Some?
    requires !ExactTier(FindBestNicktag(tags, discordName, discordDisplay, similar).value,
                        Normalize(discordName), Normalize(discordDisplay))
    requires !ContainTier(FindBestNicktag(tags, discordName, discordDisplay, similar).value,
                          Normalize(discordName), Normalize(discordDisplay))
    ensures FuzzyTier(similar, FindBestNicktag(tags, discordName, discordDisplay, similar).value,
                      Normalize(discordName), Normalize(discordDisplay))
    ensures forall j :: 0 <= j < |tags| ==>
      && !ExactTier(tags[j], Normalize(discordName), Normalize(discordDisplay))
      && !ContainTier(tags[j], Normalize(discordName), Normalize(discordDisplay))
  {
    var n := Normalize(discordName);
    var d := Normalize(discordDisplay);
    ThirdTierLastResort(tags, t => ExactTier(t, n, d), t => ContainTier(t, n, d), t => FuzzyTier(similar, t, n, d));
  }

  /** No tag is chosen exactly when no tag matches in any tier. */
  lemma NoneWhenNoTierMatches(tags: seq<string>, discordName: string, discordDisplay: string,
                              similar: (string, string) -> bool)
    ensures FindBestNicktag(tags, discordName, discordDisplay, similar).None? <==>
      forall j :: 0 <= j < |tags| ==>
        && !ExactTier(tags[j], Normalize(discordName), Normalize(discordDisplay))
        && !ContainTier(tags[j], Normalize(discordName), Normalize(discordDisplay))
        && !FuzzyTier(similar, tags[j], Normalize(discordName), Normalize(discordDisplay))
  {
    var n := Normalize(discordName);
    var d := Normalize(discordDisplay);
    NoTierNoResult(tags, t => ExactTier(t, n, d), t => ContainTier(t, n, d), t => FuzzyTier(similar, t, n, d));
  }
}
