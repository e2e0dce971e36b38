/**
 The short-link classifier `is_short_url` (app.py:11-19): a URL needs
 expansion when one of four literal patterns occurs anywhere in it, compared
 case-insensitively (`re.search(pattern, url, re.IGNORECASE)`).
 */
module ShortLink {
  import opened Text

  /** The four patterns, with their escaped dots read as literal dots. */
  const ShortPatterns: seq<string> := ["shope.ee", "s.shopee.", ".shp.ee", "shopee.link"]

  /** `any(re.search(p, url, re.IGNORECASE) for p in pats)`. */
  function AnyFound(url: string, pats: seq<string>): (r: bool)
    ensures r <==> exists k: nat, j: nat :: k < |pats| && FoldStartsAt(url, j, pats[k])
  {
    if pats == [] then false
    else if FoldFindFrom(url, pats[0], 0) then true
    else
      var r := AnyFound(url, pats[1..]);
      assert forall k: nat, j: nat :: 0 < k < |pats| && FoldStartsAt(url, j, pats[k]) ==> FoldStartsAt(url, j, pats[1..][k - 1]);
      r
  }

  /** `is_short_url`: true exactly when one of the short-link patterns occurs
      in `url` at some index, letters compared case-insensitively. */
  function IsShortUrl(url: string): (r: bool)
    ensures r <==> exists k: nat, j: nat :: k < |ShortPatterns| && FoldStartsAt(url, j, ShortPatterns[k])
  {
    AnyFound(url, ShortPatterns)
  }

  /** On ASCII input the classifier is "lower-case the URL and look for one of
      the four patterns". */
  lemma {:induction false} ShortUrlByLowercase(url: string)
    requires IsAscii(url)
    ensures IsShortUrl(url) <==> exists k: nat :: k < |ShortPatterns| && Contains(Lower(url), ShortPatterns[k])
  {
    forall k: nat, j: nat | k < |ShortPatterns|
      ensures FoldStartsAt(url, j, ShortPatterns[k]) <==> StartsAt(Lower(url), j, ShortPatterns[k])
    {
      assert IsLowerLiteral(ShortPatterns[k]);
      FoldStartsAtAscii(url, j, ShortPatterns[k]);
    }
  }

  /** The short domains a user pastes are recognised, whatever their case. */
  lemma ShortDomainsRecognised()
    ensures IsShortUrl("https://S.SHOPEE.co.th/abc")
    ensures IsShortUrl("https://th.shp.ee/xyz")
    ensures IsShortUrl("http://shope.ee/1")
  {
    assert FoldStartsAt("https://S.SHOPEE.co.th/abc", 8, ShortPatterns[1]);
    assert FoldStartsAt("https://th.shp.ee/xyz", 10, ShortPatterns[2]);
    assert FoldStartsAt("http://shope.ee/1", 7, ShortPatterns[0]);
  }
}
