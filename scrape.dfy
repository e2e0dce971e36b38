/**
 The page-scraping step of `expand_with_allorigins_proxy` (app.py:87-97).
 Both regular expressions there have the shape

     <OPEN [^>]* ATTR [^>]* KEY ([^"]*) " [^>]* >

 searched case-insensitively: `<link ... rel="canonical" ... href="…"` and
 `<meta ... property="og:url" ... content="…"`. This module matches that shape
 by hand, in the order Python's backtracking matcher tries the alternatives:
 the leftmost start first; at that start the longest first `[^>]*` (so the
 rightmost ATTR), then the longest second `[^>]*` (so the rightmost KEY).
 The captured value then runs to the next `"`, and some `>` must follow it.
 */
module Scrape {
  import opened Wrappers
  import opened Text

  /** The three literals of one tag pattern, lower-case (matched case-insensitively). */
  datatype TagPattern = TagPattern(open: string, attr: string, key: string)

  /** `<link[^>]*rel="canonical"[^>]*href="([^"]*)"[^>]*>` (app.py:90). */
  const Canonical: TagPattern := TagPattern("<link", "rel=\"canonical\"", "href=\"")

  /** `<meta[^>]*property="og:url"[^>]*content="([^"]*)"[^>]*>` (app.py:95). */
  const OgUrl: TagPattern := TagPattern("<meta", "property=\"og:url\"", "content=\"")

  /** For a value starting at `c`, the index of the `"` that closes `([^"]*)"`,
      provided the trailing `[^>]*>` can match after it. */
  function ValueEnd(s: string, c: nat): (q: Option<nat>)
    requires c <= |s|
    ensures q.Some? ==> c <= q.value < |s| && s[q.value] == '"' && NoneOf(s, c, q.value, '"')
    ensures q.Some? ==> !NoneOf(s, q.value + 1, |s|, '>')
    ensures q.None? ==> NoneOf(s, c, |s|, '"') || exists e: nat :: c <= e < |s| && s[e] == '"' && NoneOf(s, c, e, '"') && NoneOf(s, e + 1, |s|, '>')
  {
    match IndexOf(s, '"', c)
    case None => None
    case Some(e) => if IndexOf(s, '>', e + 1).Some? then Some(e) else None
  }

  /** The pattern matches `s` with OPEN at `i`, ATTR at `r` and KEY at `h`. */
  predicate TagMatch(s: string, p: TagPattern, i: nat, r: nat, h: nat) {
    && FoldStartsAt(s, i, p.open)
    && NoneOf(s, i + |p.open|, r, '>')
    && FoldStartsAt(s, r, p.attr)
    && NoneOf(s, r + |p.attr|, h, '>')
    && FoldStartsAt(s, h, p.key)
    && ValueEnd(s, h + |p.key|).Some?
  }

  /** `match.group(1)` for a match whose KEY is at `h`. */
  function Capture(s: string, p: TagPattern, h: nat): (v: string)
    requires h + |p.key| <= |s| && ValueEnd(s, h + |p.key|).Some?
    ensures forall k :: 0 <= k < |v| ==> v[k] != '"'
  {
    s[h + |p.key|..ValueEnd(s, h + |p.key|).value]
  }

  /** The pattern matches `s` somewhere. */
  ghost predicate Matches(s: string, p: TagPattern) {
    exists i: nat, r: nat, h: nat :: TagMatch(s, p, i, r, h)
  }

  /** `(i, r, h)` is the match `re.search` reports: no match starts before `i`;
      at `i` no match has its ATTR after `r`; at `(i, r)` none has its KEY after `h`. */
  ghost predicate Preferred(s: string, p: TagPattern, i: nat, r: nat, h: nat) {
    && TagMatch(s, p, i, r, h)
    && (forall i': nat, r': nat, h': nat :: i' < i ==> !TagMatch(s, p, i', r', h'))
    && (forall r': nat, h': nat :: r < r' ==> !TagMatch(s, p, i, r', h'))
    && (forall h': nat :: h < h' ==> !TagMatch(s, p, i, r, h'))
  }

  /** The greatest KEY position `<= h` completing a match with OPEN at `i` and ATTR at `r`. */
  function LastKey(s: string, p: TagPattern, i: nat, r: nat, h: nat): (res: Option<nat>)
    ensures res.Some? ==> res.value <= h && TagMatch(s, p, i, r, res.value)
    ensures res.Some? ==> forall h': nat :: res.value < h' <= h ==> !TagMatch(s, p, i, r, h')
    ensures res.None? ==> forall h': nat :: h' <= h ==> !TagMatch(s, p, i, r, h')
    decreases h
  {
    if TagMatch(s, p, i, r, h) then Some(h)
    else if h == 0 then None
    else LastKey(s, p, i, r, h - 1)
  }

  /** The greatest ATTR position `<= r` completing a match with OPEN at `i`,
      with the greatest KEY position for it. */
  function LastAttr(s: string, p: TagPattern, i: nat, r: nat): (res: Option<(nat, nat)>)
    ensures res.Some? ==> res.value.0 <= r && TagMatch(s, p, i, res.value.0, res.value.1)
    ensures res.Some? ==> forall h': nat :: res.value.1 < h' ==> !TagMatch(s, p, i, res.value.0, h')
    ensures res.Some? ==> forall r': nat, h': nat :: res.value.0 < r' <= r ==> !TagMatch(s, p, i, r', h')
    ensures res.None? ==> forall r': nat, h': nat :: r' <= r ==> !TagMatch(s, p, i, r', h')
    decreases r
  {
    match LastKey(s, p, i, r, |s|)
    case Some(h) => Some((r, h))
    case None => if r == 0 then None else LastAttr(s, p, i, r - 1)
  }

  /** The least OPEN position `>= i` at which the pattern matches, with the
      ATTR and KEY positions the matcher settles on there. */
  function FirstOpen(s: string, p: TagPattern, i: nat): (res: Option<(nat, nat, nat)>)
    requires i <= |s|
    ensures res.Some? ==> i <= res.value.0 && TagMatch(s, p, res.value.0, res.value.1, res.value.2)
    ensures res.Some? ==> forall i': nat, r': nat, h': nat :: i <= i' < res.value.0 ==> !TagMatch(s, p, i', r', h')
    ensures res.Some? ==> forall r': nat, h': nat :: res.value.1 < r' ==> !TagMatch(s, p, res.value.0, r', h')
    ensures res.Some? ==> forall h': nat :: res.value.2 < h' ==> !TagMatch(s, p, res.value.0, res.value.1, h')
    ensures res.None? ==> forall i': nat, r': nat, h': nat :: i <= i' ==> !TagMatch(s, p, i', r', h')
    decreases |s| - i
  {
    match LastAttr(s, p, i, |s|)
    case Some((r, h)) => Some((i, r, h))
    case None => if i == |s| then None else FirstOpen(s, p, i + 1)
  }

  /** `re.search(pattern, s, re.IGNORECASE)` followed by `.group(1)`: present
      exactly when the pattern matches; a value never holds a `"`. */
  function Search(s: string, p: TagPattern): (res: Option<string>)
    ensures res.Some? <==> Matches(s, p)
    ensures res.Some? ==> forall k :: 0 <= k < |res.value| ==> res.value[k] != '"'
  {
    match FirstOpen(s, p, 0)
    case Some((i, r, h)) => Some(Capture(s, p, h))
    case None => None
  }

  /** Whenever the pattern matches, some match is the preferred one. */
  lemma PreferredExists(s: string, p: TagPattern)
    requires Matches(s, p)
    ensures exists i: nat, r: nat, h: nat :: Preferred(s, p, i, r, h)
  {
    var t := FirstOpen(s, p, 0);
    assert t.Some?;
    assert Preferred(s, p, t.value.0, t.value.1, t.value.2);
  }

  /** The preferred match is unique. */
  lemma PreferredUnique(s: string, p: TagPattern, i1: nat, r1: nat, h1: nat, i2: nat, r2: nat, h2: nat)
    requires Preferred(s, p, i1, r1, h1) && Preferred(s, p, i2, r2, h2)
    ensures i1 == i2 && r1 == r2 && h1 == h2
  {
  }

  /** The scrape step: a value exactly when the page has a canonical link or
      an `og:url` meta tag; a value found never holds a `"`. */
  function Scrape(content: string): (res: Option<string>)
    ensures res.Some? <==> Matches(content, Canonical) || Matches(content, OgUrl)
    ensures res.Some? ==> forall k :: 0 <= k < |res.value| ==> res.value[k] != '"'
  {
    match Search(content, Canonical)
    case Some(v) => Some(v)
    case None => Search(content, OgUrl)
  }

  /** The value `re.search` reports is the preferred match's capture. */
  lemma SearchIs(s: string, p: TagPattern, i: nat, r: nat, h: nat)
    requires Preferred(s, p, i, r, h)
    ensures Search(s, p) == Some(Capture(s, p, h))
  {
    var t := FirstOpen(s, p, 0);
    assert t.Some?;
    var (i', r', h') := t.value;
    assert !(i' < i) && !(i < i');
    assert !(r' < r) && !(r < r');
    assert !(h' < h) && !(h < h');
  }

  /** A page with a canonical link yields that link's `href`, even when an
      `og:url` tag is present too. */
  lemma ScrapeCanonical(content: string, i: nat, r: nat, h: nat)
    requires Preferred(content, Canonical, i, r, h)
    ensures Scrape(content) == Some(Capture(content, Canonical, h))
  {
    SearchIs(content, Canonical, i, r, h);
  }

  /** A page without a canonical link yields its `og:url` tag's `content`. */
  lemma ScrapeOgUrl(content: string, i: nat, r: nat, h: nat)
    requires !Matches(content, Canonical) && Preferred(content, OgUrl, i, r, h)
    ensures Scrape(content) == Some(Capture(content, OgUrl, h))
  {
    SearchIs(content, OgUrl, i, r, h);
  }
}
