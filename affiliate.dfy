/**
 The link generator in `main` (app.py:227-264): reject a blank URL or a blank
 affiliate tag, expand the stripped URL, extract the product identifiers and
 write the affiliate link `https://DOMAIN/product/SHOP/ITEM?utm_medium=affiliates&utm_source=TAG`.
 The form, the clipboard, the progress display and the pauses around these
 steps are not modelled; the three `st.error` exits are the three errors.
 */
module Affiliate {
  import opened Wrappers
  import opened Text
  import opened ShortLink
  import opened Resolution
  import opened Product
  import opened ProductLink

  /** Why no link was generated: the URL is blank, the tag is blank, or no
      pattern of the table matches the expanded URL. */
  datatype LinkError = BlankUrl | BlankTag | NoProductInfo

  /** The affiliate id the form hard-codes (app.py:202). */
  const AffiliateId: string := "an_15310390250"

  /** What app.py:264 puts between the product URL and the tag. */
  const Query: string := "?utm_medium=affiliates&utm_source="

  /** `affiliate_link` of app.py:263-264, for a stripped tag. */
  function FormatLink(info: ProductInfo, tag: string): (link: string)
    ensures |link| == |ProductUrl(info.domain, info.shopId, info.itemId)| + |Query| + |tag|
  {
    ProductUrl(info.domain, info.shopId, info.itemId) + Query + tag
  }

  /** The outcome of pressing a generate button with `url` in the field, the
      tag `tag`, and the strategies `ss` for the expansion of the stripped URL. */
  function Pipeline(url: string, tag: string, ss: seq<Strategy>): (r: Result<string, LinkError>) {
    if Strip(url) == [] then Err(BlankUrl)
    else if Strip(tag) == [] then Err(BlankTag)
    else
      match ExtractProductInfo(Expand(Strip(url), ss))
      case None => Err(NoProductInfo)
      case Some(info) => Ok(FormatLink(info, Strip(tag)))
  }

  /** The handler of app.py:225-264 with the four strategies' outcomes for the
      stripped URL as parameters (`proxyPage` is the page the proxy fetched,
      if any). It also returns how many strategies were called and the lines
      the chain logged. The guards run before any strategy is called. */
  method GenerateLink(url: string, tag: string, redirect: Outcome, unshorten: Outcome, longurl: Outcome, proxyPage: Option<string>)
    returns (result: Result<string, LinkError>, invoked: nat, log: seq<string>)
    ensures var ss := Strategies(redirect, unshorten, longurl, ProxyOutcome(proxyPage));
            && result == Pipeline(url, tag, ss)
            && (IsBlank(url) || IsBlank(tag) ==> invoked == 0 && log == [])
            && (!IsBlank(url) && !IsBlank(tag) ==>
                  invoked == Invoked(Strip(url), ss) && log == FailureLog(ss[..invoked]))
  {
    StripEmptyIffBlank(url);
    StripEmptyIffBlank(tag);
    var u := Strip(url);
    if u == [] {
      return Err(BlankUrl), 0, [];
    }
    var t := Strip(tag);
    if t == [] {
      return Err(BlankTag), 0, [];
    }
    var ss := Strategies(redirect, unshorten, longurl, ProxyOutcome(proxyPage));
    var expanded;
    expanded, invoked, log := ExpandShortUrl(u, ss);
    var info := ExtractProductInfo(expanded);
    if info.None? {
      return Err(NoProductInfo), invoked, log;
    }
    result := Ok(FormatLink(info.value, t));
  }

  // ---------------------------------------------------------------------------
  // Properties of the pipeline

  /** The guards: a blank URL is reported first, then a blank tag; any other
      input passes them. */
  lemma GuardsRejectBlank(url: string, tag: string, ss: seq<Strategy>)
    ensures Pipeline(url, tag, ss) == Err(BlankUrl) <==> IsBlank(url)
    ensures Pipeline(url, tag, ss) == Err(BlankTag) <==> !IsBlank(url) && IsBlank(tag)
    ensures Pipeline(url, tag, ss) == Err(NoProductInfo) <==>
              !IsBlank(url) && !IsBlank(tag) && ExtractProductInfo(Expand(Strip(url), ss)).None?
  {
    StripEmptyIffBlank(url);
    StripEmptyIffBlank(tag);
  }

  /** The hard-coded affiliate id is never blank, so the tag guard never fires
      in the application as written. */
  lemma AffiliateIdNotBlank()
    ensures !IsBlank(AffiliateId) && Strip(AffiliateId) == AffiliateId
  {
    assert !IsSpace(AffiliateId[0]);
    StripUnpadded(AffiliateId);
  }

  /** A string neither starting nor ending with whitespace is its own strip. */
  lemma StripUnpadded(s: string)
    requires s != [] && !IsSpace(s[0]) && !IsSpace(s[|s| - 1])
    ensures Strip(s) == s
  {
    assert SkipSpaces(s, 0) == 0;
    assert TrimEnd(s, 0, |s|) == |s|;
  }

  /** Every generated link has the `/product/` shape, whichever shape matched:
      a bare non-empty domain, two numerals, the query and the stripped tag. */
  lemma LinkShape(url: string, tag: string, ss: seq<Strategy>)
    requires Pipeline(url, tag, ss).Ok?
    ensures exists domain, shop, item ::
              && |domain| > 0 && NoneOf(domain, 0, |domain|, '/')
              && IsNumeral(shop) && IsNumeral(item)
              && Pipeline(url, tag, ss).value == ProductUrl(domain, shop, item) + Query + Strip(tag)
  {
    var info := ExtractProductInfo(Expand(Strip(url), ss)).value;
    assert Pipeline(url, tag, ss).value == ProductUrl(info.domain, info.shopId, info.itemId) + Query + Strip(tag);
  }

  /** The link carries the identifiers and domain the extractor read from the
      expanded URL, whether that URL had the product or the legacy shape. */
  lemma LinkFromExpanded(url: string, tag: string, ss: seq<Strategy>, info: ProductInfo)
    requires !IsBlank(url) && !IsBlank(tag)
    requires ExtractProductInfo(Expand(Strip(url), ss)) == Some(info)
    ensures Pipeline(url, tag, ss) == Ok(FormatLink(info, Strip(tag)))
    ensures Domain(Pipeline(url, tag, ss).value) == info.domain
  {
    StripEmptyIffBlank(url);
    StripEmptyIffBlank(tag);
    LinkDomain(info, Strip(tag));
  }

  /** A link's authority is the domain it was written with. */
  lemma LinkDomain(info: ProductInfo, tag: string)
    requires |info.domain| > 0 && NoneOf(info.domain, 0, |info.domain|, '/')
    ensures Domain(FormatLink(info, tag)) == info.domain
  {
    var link := FormatLink(info, tag);
    var head := "https://" + info.domain + "/";
    forall t | 0 <= t < |head| ensures link[t] == head[t] {
    }
    StartsAtOfChars(link, 0, head);
    HttpsDomain(link, info.domain);
  }

  /** Round trip: the link generated for one of the nine sites, with a tag
      holding no `/`, reads back to its own identifiers and site, now in
      product format. */
  lemma LinkReadsBack(k: nat, shop: string, item: string, isProductFormat: bool, tag: string)
    requires k < |Sites| && IsNumeral(shop) && IsNumeral(item)
    requires NoneOf(tag, 0, |tag|, '/')
    ensures ExtractProductInfo(FormatLink(ProductInfo(shop, item, Sites[k], isProductFormat), tag))
            == Some(ProductInfo(shop, item, Sites[k], true))
  {
    var rest := Query + tag;
    forall q | 0 <= q < |rest| ensures rest[q] != '/' {
      if q >= |Query| {
        assert rest[q] == tag[q - |Query|];
      }
    }
    assert FormatLink(ProductInfo(shop, item, Sites[k], isProductFormat), tag) == ProductUrl(Sites[k], shop, item) + rest;
    ExtractProductUrl(k, shop, item, rest);
  }

  /** Feeding a generated link back in gives the same link, whatever the
      strategies do, provided its domain is one of the nine sites, the
      stripped tag holds no `/`, and the link is not taken for a short link. */
  lemma RegenerateIsStable(url: string, tag: string, ss: seq<Strategy>, ss': seq<Strategy>)
    requires Pipeline(url, tag, ss).Ok?
    requires Domain(Pipeline(url, tag, ss).value) in Sites
    requires NoneOf(Strip(tag), 0, |Strip(tag)|, '/')
    requires !IsShortUrl(Pipeline(url, tag, ss).value)
    ensures Pipeline(Pipeline(url, tag, ss).value, tag, ss') == Pipeline(url, tag, ss)
  {
    var info := ExtractProductInfo(Expand(Strip(url), ss)).value;
    StripEmptyIffBlank(url);
    StripEmptyIffBlank(tag);
    LinkFromExpanded(url, tag, ss, info);
    FormatLinkStable(info, tag, ss');
  }

  /** The link written for `info` with the stripped, non-blank `tag` is
      generated again from itself, provided the link is not a short link. */
  lemma FormatLinkStable(info: ProductInfo, tag: string, ss: seq<Strategy>)
    requires info.domain in Sites && IsNumeral(info.shopId) && IsNumeral(info.itemId)
    requires Strip(tag) != [] && NoneOf(Strip(tag), 0, |Strip(tag)|, '/')
    requires !IsShortUrl(FormatLink(info, Strip(tag)))
    ensures Pipeline(FormatLink(info, Strip(tag)), tag, ss) == Ok(FormatLink(info, Strip(tag)))
  {
    var t := Strip(tag);
    var link := FormatLink(info, t);
    var k :| 0 <= k < |Sites| && Sites[k] == info.domain;
    LinkReadsBack(k, info.shopId, info.itemId, info.isProductFormat, t);
    LinkUnpadded(info, t);
    NotShortUnchanged(link, ss);
    assert FormatLink(ProductInfo(info.shopId, info.itemId, info.domain, true), t) == link;
  }

  /** A link written with a stripped, non-empty tag is its own strip. */
  lemma LinkUnpadded(info: ProductInfo, t: string)
    requires t != [] && !IsSpace(t[|t| - 1])
    ensures Strip(FormatLink(info, t)) == FormatLink(info, t)
  {
    var link := FormatLink(info, t);
    assert link[0] == 'h';
    assert link[|link| - 1] == t[|t| - 1];
    StripUnpadded(link);
  }

  // ---------------------------------------------------------------------------
  // End to end

  /** A short link whose first strategy lands on a canonical product page
      (with a tail without `/` that does not start with a digit) gives the
      canonical affiliate link, after calling only that strategy. */
  lemma ShortToProductPage(url: string, k: nat, shop: string, item: string, rest: string, unshorten: Outcome, longurl: Outcome, proxy: Outcome)
    requires IsShortUrl(Strip(url))
    requires k < |Sites| && IsNumeral(shop) && IsNumeral(item)
    requires NoneOf(rest, 0, |rest|, '/') && (rest == [] || !IsDigit(rest[0]))
    requires ProductUrl(Sites[k], shop, item) + rest != Strip(url)
    ensures var ss := Strategies(Returned(Some(ProductUrl(Sites[k], shop, item) + rest)), unshorten, longurl, proxy);
            && Pipeline(url, AffiliateId, ss) == Ok(ProductUrl(Sites[k], shop, item) + Query + AffiliateId)
            && Invoked(Strip(url), ss) == 1
  {
    var target := ProductUrl(Sites[k], shop, item) + rest;
    var ss := Strategies(Returned(Some(target)), unshorten, longurl, proxy);
    FirstStrategyExpands(url, target, ss);
    ExtractProductUrl(k, shop, item, rest);
    AffiliateIdNotBlank();
    LinkFromExpanded(url, AffiliateId, ss, ProductInfo(shop, item, Sites[k], true));
  }

  /** The same when the first strategy lands on a page in the legacy
      `NAME.i.SHOP.ITEM` shape, with a name without `/`, `.` or newline and a
      tail as above: the affiliate link is still the canonical `/product/` one. */
  lemma ShortToLegacyPage(url: string, k: nat, name: string, shop: string, item: string, rest: string, unshorten: Outcome, longurl: Outcome, proxy: Outcome)
    requires IsShortUrl(Strip(url))
    requires k < |Sites| && IsNumeral(shop) && IsNumeral(item)
    requires NoneOf(name, 0, |name|, '/') && NoneOf(name, 0, |name|, '.') && NoneOf(name, 0, |name|, '\n')
    requires NoneOf(rest, 0, |rest|, '/') && (rest == [] || !IsDigit(rest[0]))
    requires LegacyUrl(Sites[k], name, shop, item) + rest != Strip(url)
    ensures var ss := Strategies(Returned(Some(LegacyUrl(Sites[k], name, shop, item) + rest)), unshorten, longurl, proxy);
            && Pipeline(url, AffiliateId, ss) == Ok(ProductUrl(Sites[k], shop, item) + Query + AffiliateId)
            && Invoked(Strip(url), ss) == 1
  {
    var target := LegacyUrl(Sites[k], name, shop, item) + rest;
    var ss := Strategies(Returned(Some(target)), unshorten, longurl, proxy);
    FirstStrategyExpands(url, target, ss);
    ExtractLegacyUrl(k, name, shop, item, rest);
    AffiliateIdNotBlank();
    LinkFromExpanded(url, AffiliateId, ss, ProductInfo(shop, item, Sites[k], false));
  }

  /** A short link is expanded by a first strategy returning another non-empty URL. */
  lemma FirstStrategyExpands(url: string, target: string, ss: seq<Strategy>)
    requires IsShortUrl(Strip(url)) && target != [] && target != Strip(url)
    requires |ss| > 0 && ss[0].outcome == Returned(Some(target))
    ensures !IsBlank(url) && Expand(Strip(url), ss) == target && Invoked(Strip(url), ss) == 1
  {
    StripEmptyIffBlank(url);
    assert Accepted(ss[0].outcome, Strip(url));
  }
}
