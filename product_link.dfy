/**
 Reading back the links `extract_product_info` is meant for. A canonical
 link `https://SITE/product/SHOP/ITEM` for one of the nine sites, followed by
 any text that holds no `/` and does not start with a digit, yields exactly
 its shop id, item id and site, in product format. This is what makes the
 generated affiliate link (app.py:263-264) parse back to the identifiers it
 was built from.
 */
module ProductLink {
  import opened Wrappers
  import opened Text
  import opened Product

  /** `https://DOMAIN/product/SHOP/ITEM`, the `base_product_url` of app.py:263. */
  function ProductUrl(domain: string, shop: string, item: string): (u: string)
    ensures |u| == 8 + |domain| + 9 + |shop| + 1 + |item|
  {
    "https://" + domain + "/product/" + shop + "/" + item
  }

  // ---------------------------------------------------------------------------
  // The nine sites

  /** `a` is a suffix of `b`. */
  predicate IsSuffix(a: string, b: string) {
    |a| <= |b| && b[|b| - |a|..] == a
  }

  /** No site is a suffix of another one, no site holds a `/`, and every
      site is longer than seven characters and starts with `s`. */
  lemma SitesShape()
    ensures forall j, k :: 0 <= j < |Sites| && 0 <= k < |Sites| && j != k ==> !IsSuffix(Sites[j], Sites[k])
    ensures forall k :: 0 <= k < |Sites| ==> |Sites[k]| > 7 && Sites[k][0] == 's' && NoneOf(Sites[k], 0, |Sites[k]|, '/')
  {
  }

  // ---------------------------------------------------------------------------
  // The layout of a canonical link

  /** The pieces of a link `extract_product_info` reads back: a domain without
      `/` of more than seven characters that does not start with `p`, two
      numerals, and a tail without `/` that does not start with a digit. */
  predicate LinkParts(domain: string, shop: string, item: string, rest: string) {
    && |domain| > 7 && domain[0] != 'p' && NoneOf(domain, 0, |domain|, '/')
    && IsNumeral(shop) && IsNumeral(item)
    && NoneOf(rest, 0, |rest|, '/') && (rest == [] || !IsDigit(rest[0]))
  }

  /** `url` is `ProductUrl(domain, shop, item) + rest`, read character by character. */
  predicate Laid(url: string, domain: string, shop: string, item: string, rest: string) {
    var p := 8 + |domain|;
    && |url| == p + 10 + |shop| + |item| + |rest|
    && (forall t :: 0 <= t < 8 ==> url[t] == "https://"[t])
    && (forall t :: 0 <= t < |domain| ==> url[8 + t] == domain[t])
    && (forall t :: 0 <= t < 9 ==> url[p + t] == "/product/"[t])
    && (forall t :: 0 <= t < |shop| ==> url[p + 9 + t] == shop[t])
    && url[p + 9 + |shop|] == '/'
    && (forall t :: 0 <= t < |item| ==> url[p + 10 + |shop| + t] == item[t])
    && (forall t :: 0 <= t < |rest| ==> url[p + 10 + |shop| + |item| + t] == rest[t])
  }

  lemma Layout(domain: string, shop: string, item: string, rest: string)
    ensures Laid(ProductUrl(domain, shop, item) + rest, domain, shop, item, rest)
  {
  }

  /** In such a link the only `/` followed by `p` is the one before `product`. */
  lemma OnlyProductSlash(url: string, domain: string, shop: string, item: string, rest: string, q: nat)
    requires Laid(url, domain, shop, item, rest) && LinkParts(domain, shop, item, rest)
    requires q + 1 < |url|
    ensures url[q] == '/' && url[q + 1] == 'p' ==> q == 8 + |domain|
  {
    var p := 8 + |domain|;
    if q == p {
    } else if q < 8 {
      assert url[8 + 0] == domain[0];
    } else if q < p {
      assert url[8 + (q - 8)] == domain[q - 8];
    } else if p < q < p + 9 {
      assert url[p + (q - p)] == "/product/"[q - p];
      assert url[p + 9 + 0] == shop[0];
    } else if q < p + 9 + |shop| {
      assert url[p + 9 + (q - p - 9)] == shop[q - p - 9];
    } else if q == p + 9 + |shop| {
      assert url[p + 10 + |shop| + 0] == item[0];
    } else if q < p + 10 + |shop| + |item| {
      assert url[p + 10 + |shop| + (q - p - 10 - |shop|)] == item[q - p - 10 - |shop|];
    } else {
      var t := q - p - 10 - |shop| - |item|;
      assert url[p + 10 + |shop| + |item| + t] == rest[t];
    }
  }

  /** A `/product/` pattern for a site without `/` can match such a link only
      with the site ending right before `/product/`, inside the domain. */
  lemma ProductMatchPlace(url: string, domain: string, shop: string, item: string, rest: string, site: string, i: nat)
    requires Laid(url, domain, shop, item, rest) && LinkParts(domain, shop, item, rest)
    requires NoneOf(site, 0, |site|, '/') && ProductAt(url, site, i)
    ensures 8 <= i && i + |site| == 8 + |domain| && IsSuffix(site, domain)
  {
    StartsAtChars(url, i, site + "/product/");
    StartsAtConcat(url, i, site, "/product/");
    assert (site + "/product/")[|site|] == '/' && (site + "/product/")[|site| + 1] == 'p';
    assert url[i + |site|] == '/' && url[i + |site| + 1] == 'p';
    OnlyProductSlash(url, domain, shop, item, rest, i + |site|);
    StartsAtChar(url, i, site, 7);
    SuffixAt(url, domain, site, i);
  }

  /** A stretch of `url` ending where the domain ends and starting inside it is
      a suffix of the domain. */
  lemma SuffixAt(url: string, domain: string, site: string, i: nat)
    requires 8 <= i && i + |site| == 8 + |domain| <= |url|
    requires forall t :: 0 <= t < |domain| ==> url[8 + t] == domain[t]
    requires forall t :: 0 <= t < |site| ==> url[i + t] == site[t]
    ensures IsSuffix(site, domain)
  {
    forall t | 0 <= t < |site| ensures domain[|domain| - |site|..][t] == site[t] {
      assert url[8 + (i - 8 + t)] == domain[i - 8 + t];
      assert url[i + t] == site[t];
    }
  }

  /** The link's own `/product/` match starts right after `https://`, and its
      groups are the shop and item ids. */
  lemma OwnProductMatch(url: string, domain: string, shop: string, item: string, rest: string)
    requires Laid(url, domain, shop, item, rest) && LinkParts(domain, shop, item, rest)
    ensures ProductAt(url, domain, 8)
    ensures Ids(url, 8 + |domain| + 9, '/') == (shop, item)
  {
    var p := 8 + |domain|;
    assert StartsAt(url, 8, domain + "/product/") by {
      forall t | 0 <= t < |domain| + 9 ensures url[8..p + 9][t] == (domain + "/product/")[t] {
        if t < |domain| {
          assert url[8 + t] == domain[t];
        } else {
          assert url[p + (t - |domain|)] == "/product/"[t - |domain|];
        }
      }
    }
    ProductIdsRead(url, domain, shop, item, rest);
  }

  /** After `/product/` a canonical link holds the shop id, `/` and the item
      id, and no digit follows the item id. */
  lemma ProductIdsRead(url: string, domain: string, shop: string, item: string, rest: string)
    requires Laid(url, domain, shop, item, rest) && LinkParts(domain, shop, item, rest)
    ensures IdsAt(url, 8 + |domain| + 9, '/') && Ids(url, 8 + |domain| + 9, '/') == (shop, item)
  {
    var j := 8 + |domain| + 9;
    var e := j + |shop| + 1 + |item|;
    assert e == |url| || !IsDigit(url[e]) by {
      if rest != [] {
        assert url[e + 0] == rest[0];
      }
    }
    IdsOf(url, j, '/', shop, item);
  }

  /** `SearchProduct` finds the link's own match: no other start is possible. */
  lemma OwnSearchProduct(url: string, domain: string, shop: string, item: string, rest: string)
    requires Laid(url, domain, shop, item, rest) && LinkParts(domain, shop, item, rest)
    ensures SearchProduct(url, domain) == Some((shop, item))
  {
    OwnProductMatch(url, domain, shop, item, rest);
    forall i: nat | ProductAt(url, domain, i) ensures i == 8 {
      ProductMatchPlace(url, domain, shop, item, rest, domain, i);
    }
    SearchProductIs(url, domain, 8);
  }

  /** The link's authority is its domain. */
  lemma OwnDomain(url: string, domain: string, shop: string, item: string, rest: string)
    requires Laid(url, domain, shop, item, rest) && LinkParts(domain, shop, item, rest)
    ensures Domain(url) == domain
  {
    var head := "https://" + domain + "/";
    forall t | 0 <= t < |head| ensures url[0 + t] == head[t] {
      if t < 8 {
      } else if t < 8 + |domain| {
        assert url[8 + (t - 8)] == domain[t - 8];
      } else {
        assert url[8 + |domain| + 0] == "/product/"[0];
      }
    }
    StartsAtOfChars(url, 0, head);
    HttpsDomain(url, domain);
  }

  /** Round trip: `extract_product_info` of a canonical link for one of the
      nine sites, followed by a tail without `/` that does not start with a
      digit, gives back that link's shop id, item id and site, in product
      format. */
  lemma ExtractProductUrl(k: nat, shop: string, item: string, rest: string)
    requires k < |Sites| && IsNumeral(shop) && IsNumeral(item)
    requires NoneOf(rest, 0, |rest|, '/') && (rest == [] || !IsDigit(rest[0]))
    ensures ExtractProductInfo(ProductUrl(Sites[k], shop, item) + rest) == Some(ProductInfo(shop, item, Sites[k], true))
  {
    var domain := Sites[k];
    var url := ProductUrl(domain, shop, item) + rest;
    Layout(domain, shop, item, rest);
    SitesShape();
    assert LinkParts(domain, shop, item, rest);
    ProductCanonicalWins(url, k, shop, item, rest);
  }

  /** The same on a URL already known to be laid out as such a link. */
  lemma ProductCanonicalWins(url: string, k: nat, shop: string, item: string, rest: string)
    requires k < |Sites| && Laid(url, Sites[k], shop, item, rest) && LinkParts(Sites[k], shop, item, rest)
    ensures ExtractProductInfo(url) == Some(ProductInfo(shop, item, Sites[k], true))
  {
    var domain := Sites[k];
    SitesShape();
    PatternTable();
    forall j | 0 <= j < k ensures !PatternMatches(url, Patterns[j]) {
      assert Patterns[j] == Pattern(Sites[j], ProductPath);
      if i: nat :| ProductAt(url, Sites[j], i) {
        ProductMatchPlace(url, domain, shop, item, rest, Sites[j], i);
        assert false;
      }
    }
    OwnSearchProduct(url, domain, shop, item, rest);
    OwnDomain(url, domain, shop, item, rest);
    assert Patterns[k] == Pattern(domain, ProductPath);
    FirstMatchIs(url, k);
  }

  // ---------------------------------------------------------------------------
  // Legacy links

  /** `https://DOMAIN/NAME.i.SHOP.ITEM`, the older link shape. */
  function LegacyUrl(domain: string, name: string, shop: string, item: string): (u: string)
    ensures |u| == 8 + |domain| + 1 + |name| + 3 + |shop| + 1 + |item|
  {
    "https://" + domain + "/" + name + ".i." + shop + "." + item
  }

  /** The pieces of a legacy link `extract_product_info` reads back: a domain
      without `/` of more than seven characters, a name without `/`, `.` or
      newline, two numerals, and a tail without `/` that does not start with
      a digit. */
  predicate LegacyParts(domain: string, name: string, shop: string, item: string, rest: string) {
    && |domain| > 7 && NoneOf(domain, 0, |domain|, '/')
    && NoneOf(name, 0, |name|, '/') && NoneOf(name, 0, |name|, '.') && NoneOf(name, 0, |name|, '\n')
    && IsNumeral(shop) && IsNumeral(item)
    && NoneOf(rest, 0, |rest|, '/') && (rest == [] || !IsDigit(rest[0]))
  }

  /** `url` is `LegacyUrl(domain, name, shop, item) + rest`, read character by character. */
  predicate LaidLegacy(url: string, domain: string, name: string, shop: string, item: string, rest: string) {
    var p := 8 + |domain|;
    var m := p + 1 + |name|;
    && |url| == m + 4 + |shop| + |item| + |rest|
    && (forall t :: 0 <= t < 8 ==> url[t] == "https://"[t])
    && (forall t :: 0 <= t < |domain| ==> url[8 + t] == domain[t])
    && url[p] == '/'
    && (forall t :: 0 <= t < |name| ==> url[p + 1 + t] == name[t])
    && (forall t :: 0 <= t < 3 ==> url[m + t] == ".i."[t])
    && (forall t :: 0 <= t < |shop| ==> url[m + 3 + t] == shop[t])
    && url[m + 3 + |shop|] == '.'
    && (forall t :: 0 <= t < |item| ==> url[m + 4 + |shop| + t] == item[t])
    && (forall t :: 0 <= t < |rest| ==> url[m + 4 + |shop| + |item| + t] == rest[t])
  }

  lemma LegacyLayout(domain: string, name: string, shop: string, item: string, rest: string)
    ensures LaidLegacy(LegacyUrl(domain, name, shop, item) + rest, domain, name, shop, item, rest)
  {
  }

  /** A legacy link has `/` only at the two of `https://` and after the domain. */
  lemma LegacySlashes(url: string, domain: string, name: string, shop: string, item: string, rest: string, q: nat)
    requires LaidLegacy(url, domain, name, shop, item, rest) && LegacyParts(domain, name, shop, item, rest)
    requires q < |url|
    ensures url[q] == '/' ==> q == 6 || q == 7 || q == 8 + |domain|
  {
    var p := 8 + |domain|;
    var m := p + 1 + |name|;
    if q < 8 || q == p {
    } else if q < p {
      assert url[8 + (q - 8)] == domain[q - 8];
    } else if q < m {
      assert url[p + 1 + (q - p - 1)] == name[q - p - 1];
    } else if q < m + 3 {
      assert url[m + (q - m)] == ".i."[q - m];
    } else if q < m + 3 + |shop| {
      assert url[m + 3 + (q - m - 3)] == shop[q - m - 3];
    } else if q == m + 3 + |shop| {
    } else if q < m + 4 + |shop| + |item| {
      assert url[m + 4 + |shop| + (q - m - 4 - |shop|)] == item[q - m - 4 - |shop|];
    } else {
      var t := q - m - 4 - |shop| - |item|;
      assert url[m + 4 + |shop| + |item| + t] == rest[t];
    }
  }

  /** No `/product/` pattern matches a legacy link: its slashes are too far apart. */
  lemma NoProductInLegacy(url: string, domain: string, name: string, shop: string, item: string, rest: string, site: string, i: nat)
    requires LaidLegacy(url, domain, name, shop, item, rest) && LegacyParts(domain, name, shop, item, rest)
    ensures !ProductAt(url, site, i)
  {
    var q := i + |site|;
    StartsAtChar(url, i, site + "/product/", q);
    StartsAtChar(url, i, site + "/product/", q + 8);
    assert (site + "/product/")[|site|] == '/' && (site + "/product/")[|site| + 8] == '/';
    if q + 8 < |url| {
      LegacySlashes(url, domain, name, shop, item, rest, q);
      LegacySlashes(url, domain, name, shop, item, rest, q + 8);
    }
  }

  /** A legacy pattern for a site without `/` of more than seven characters can
      match a legacy link only with the site ending right before the path,
      inside the domain. */
  lemma LegacyMatchPlace(url: string, domain: string, name: string, shop: string, item: string, rest: string, site: string, i: nat, m: nat)
    requires LaidLegacy(url, domain, name, shop, item, rest) && LegacyParts(domain, name, shop, item, rest)
    requires |site| > 7 && NoneOf(site, 0, |site|, '/') && LegacyAt(url, site, i, m)
    ensures 8 <= i && i + |site| == 8 + |domain| && IsSuffix(site, domain)
  {
    StartsAtChars(url, i, site + "/");
    StartsAtConcat(url, i, site, "/");
    assert (site + "/")[|site|] == '/';
    LegacySlashes(url, domain, name, shop, item, rest, i + |site|);
    StartsAtChar(url, i, site, 7);
    SuffixAt(url, domain, site, i);
  }

  /** The link's own legacy match starts right after `https://`, its lazy gap
      is the name, and its groups are the shop and item ids. */
  lemma OwnLegacyMatch(url: string, domain: string, name: string, shop: string, item: string, rest: string)
    requires LaidLegacy(url, domain, name, shop, item, rest) && LegacyParts(domain, name, shop, item, rest)
    ensures var m := 8 + |domain| + 1 + |name|;
            && LegacyAt(url, domain, 8, m)
            && (forall m': nat :: m' < m ==> !LegacyAt(url, domain, 8, m'))
            && Ids(url, m + 3, '.') == (shop, item)
  {
    LegacyHead(url, domain, name, shop, item, rest);
    LegacyGap(url, domain, name, shop, item, rest);
    LegacyIds(url, domain, name, shop, item, rest);
    ShortestGap(url, domain, name, shop, item, rest);
  }

  /** A legacy link holds `DOMAIN/` right after `https://`. */
  lemma LegacyHead(url: string, domain: string, name: string, shop: string, item: string, rest: string)
    requires LaidLegacy(url, domain, name, shop, item, rest) && LegacyParts(domain, name, shop, item, rest)
    ensures StartsAt(url, 8, domain + "/")
  {
    var p := 8 + |domain|;
    forall t | 0 <= t < |domain| + 1 ensures url[8 + t] == (domain + "/")[t] {
      if t < |domain| {
      } else {
        assert url[p] == '/';
      }
    }
    StartsAtOfChars(url, 8, domain + "/");
  }

  /** The name after the domain holds no newline and is followed by `.i.`. */
  lemma LegacyGap(url: string, domain: string, name: string, shop: string, item: string, rest: string)
    requires LaidLegacy(url, domain, name, shop, item, rest) && LegacyParts(domain, name, shop, item, rest)
    ensures var m := 8 + |domain| + 1 + |name|;
            NoneOf(url, 8 + |domain| + 1, m, '\n') && StartsAt(url, m, ".i.")
  {
    var p := 8 + |domain|;
    var m := p + 1 + |name|;
    forall q | p + 1 <= q < m ensures url[q] != '\n' {
      assert url[p + 1 + (q - p - 1)] == name[q - p - 1];
    }
    StartsAtOfChars(url, m, ".i.");
  }

  /** After `.i.` a legacy link holds the shop id, `.` and the item id, and no
      digit follows the item id. */
  lemma LegacyIds(url: string, domain: string, name: string, shop: string, item: string, rest: string)
    requires LaidLegacy(url, domain, name, shop, item, rest) && LegacyParts(domain, name, shop, item, rest)
    ensures var j := 8 + |domain| + 1 + |name| + 3;
            IdsAt(url, j, '.') && Ids(url, j, '.') == (shop, item)
  {
    var j := 8 + |domain| + 1 + |name| + 3;
    var e := j + |shop| + 1 + |item|;
    assert url[j + |shop|] == '.';
    assert e == |url| || !IsDigit(url[e]) by {
      if rest != [] {
        assert url[e + 0] == rest[0];
      }
    }
    IdsOf(url, j, '.', shop, item);
  }

  /** No `.i.` completes the legacy match before the one after the name: the
      name holds no `.`. */
  lemma ShortestGap(url: string, domain: string, name: string, shop: string, item: string, rest: string)
    requires LaidLegacy(url, domain, name, shop, item, rest) && LegacyParts(domain, name, shop, item, rest)
    ensures forall m': nat :: m' < 8 + |domain| + 1 + |name| ==> !LegacyAt(url, domain, 8, m')
  {
    var p := 8 + |domain|;
    forall m': nat | m' < p + 1 + |name| ensures !LegacyAt(url, domain, 8, m') {
      StartsAtChar(url, m', ".i.", m');
      if p + 1 <= m' {
        assert url[p + 1 + (m' - p - 1)] == name[m' - p - 1];
      }
    }
  }

  /** The legacy pattern for the link's own domain can start only right after `https://`. */
  lemma OnlyLegacyStart(url: string, domain: string, name: string, shop: string, item: string, rest: string)
    requires LaidLegacy(url, domain, name, shop, item, rest) && LegacyParts(domain, name, shop, item, rest)
    ensures forall i: nat, m: nat :: LegacyAt(url, domain, i, m) ==> i == 8
  {
    forall i: nat, m: nat | LegacyAt(url, domain, i, m) ensures i == 8 {
      LegacyMatchPlace(url, domain, name, shop, item, rest, domain, i, m);
    }
  }

  /** The legacy link's authority is its domain. */
  lemma OwnLegacyDomain(url: string, domain: string, name: string, shop: string, item: string, rest: string)
    requires LaidLegacy(url, domain, name, shop, item, rest) && LegacyParts(domain, name, shop, item, rest)
    ensures Domain(url) == domain
  {
    var head := "https://" + domain + "/";
    forall t | 0 <= t < |head| ensures url[0 + t] == head[t] {
      if t < 8 {
      } else if t < 8 + |domain| {
        assert url[8 + (t - 8)] == domain[t - 8];
      }
    }
    StartsAtOfChars(url, 0, head);
    HttpsDomain(url, domain);
  }

  /** Round trip for the older shape: `extract_product_info` of
      `https://SITE/NAME.i.SHOP.ITEM` for one of the nine sites, a name
      without `/`, `.` or newline, followed by a tail without `/` that does
      not start with a digit, gives back the shop id, item id and site,
      not in product format. */
  lemma ExtractLegacyUrl(k: nat, name: string, shop: string, item: string, rest: string)
    requires k < |Sites| && IsNumeral(shop) && IsNumeral(item)
    requires NoneOf(name, 0, |name|, '/') && NoneOf(name, 0, |name|, '.') && NoneOf(name, 0, |name|, '\n')
    requires NoneOf(rest, 0, |rest|, '/') && (rest == [] || !IsDigit(rest[0]))
    ensures ExtractProductInfo(LegacyUrl(Sites[k], name, shop, item) + rest) == Some(ProductInfo(shop, item, Sites[k], false))
  {
    var domain := Sites[k];
    var url := LegacyUrl(domain, name, shop, item) + rest;
    LegacyUrlLaid(k, name, shop, item, rest);
    LegacyLinkWins(url, k, name, shop, item, rest);
  }

  /** The same on a URL already known to be laid out as such a link. */
  lemma LegacyLinkWins(url: string, k: nat, name: string, shop: string, item: string, rest: string)
    requires k < |Sites| && LaidLegacy(url, Sites[k], name, shop, item, rest) && LegacyParts(Sites[k], name, shop, item, rest)
    ensures ExtractProductInfo(url) == Some(ProductInfo(shop, item, Sites[k], false))
  {
    var domain := Sites[k];
    LegacyLinkFacts(url, k, domain, name, shop, item, rest);
    LegacyEntryWins(url, |Sites| + k, domain, 8 + |domain| + 1 + |name|, shop, item);
  }

  /** A legacy link for site `k` is laid out as one, from parts it can be read back from. */
  lemma LegacyUrlLaid(k: nat, name: string, shop: string, item: string, rest: string)
    requires k < |Sites| && IsNumeral(shop) && IsNumeral(item)
    requires NoneOf(name, 0, |name|, '/') && NoneOf(name, 0, |name|, '.') && NoneOf(name, 0, |name|, '\n')
    requires NoneOf(rest, 0, |rest|, '/') && (rest == [] || !IsDigit(rest[0]))
    ensures var url := LegacyUrl(Sites[k], name, shop, item) + rest;
            LaidLegacy(url, Sites[k], name, shop, item, rest) && LegacyParts(Sites[k], name, shop, item, rest)
  {
    LegacyLayout(Sites[k], name, shop, item, rest);
    SitesShape();
  }

  /** Entry `|Sites| + k` of the table is the legacy pattern for site `k`. */
  lemma LegacyEntry(k: nat)
    requires k < |Sites|
    ensures |Sites| + k < |Patterns| && Patterns[|Sites| + k] == Pattern(Sites[k], LegacyPath)
  {
    PatternTable();
  }

  /** What the table walk sees in a legacy link for site `k`. */
  lemma LegacyLinkFacts(url: string, k: nat, domain: string, name: string, shop: string, item: string, rest: string)
    requires k < |Sites| && domain == Sites[k]
    requires LaidLegacy(url, domain, name, shop, item, rest) && LegacyParts(domain, name, shop, item, rest)
    ensures LegacyWinner(url, |Sites| + k, domain, 8 + |domain| + 1 + |name|, shop, item)
  {
    LegacyEntry(k);
    NoProductPatternInLegacy(url, domain, name, shop, item, rest);
    NoEarlierLegacyPattern(url, k, name, shop, item, rest);
    OwnLegacyMatch(url, domain, name, shop, item, rest);
    OnlyLegacyStart(url, domain, name, shop, item, rest);
    OwnLegacyDomain(url, domain, name, shop, item, rest);
  }

  /** Legacy entry `e` is the first entry of the table to match `url`, its
      match starts at 8 and nowhere else, its lazy gap ends at `m`, its groups
      are `shop` and `item`, and the URL's domain is the entry's site. */
  ghost predicate LegacyWinner(url: string, e: nat, domain: string, m: nat, shop: string, item: string) {
    && e < |Patterns| && Patterns[e] == Pattern(domain, LegacyPath)
    && (forall j :: 0 <= j < e ==> !PatternMatches(url, Patterns[j]))
    && LegacyAt(url, domain, 8, m)
    && (forall m': nat :: m' < m ==> !LegacyAt(url, domain, 8, m'))
    && Ids(url, m + 3, '.') == (shop, item)
    && (forall i: nat, m: nat :: LegacyAt(url, domain, i, m) ==> i == 8)
    && Domain(url) == domain
  }

  /** The table walk settles on legacy entry `e` when it is the winner. */
  lemma LegacyEntryWins(url: string, e: nat, domain: string, m: nat, shop: string, item: string)
    requires LegacyWinner(url, e, domain, m, shop, item)
    ensures ExtractProductInfo(url) == Some(ProductInfo(shop, item, domain, false))
  {
    SearchLegacyIs(url, domain, 8, m);
    FirstMatchIs(url, e);
  }

  /** No `/product/` entry of the table matches a legacy link. */
  lemma NoProductPatternInLegacy(url: string, domain: string, name: string, shop: string, item: string, rest: string)
    requires LaidLegacy(url, domain, name, shop, item, rest) && LegacyParts(domain, name, shop, item, rest)
    ensures forall j :: 0 <= j < |Sites| ==> !PatternMatches(url, Patterns[j])
  {
    PatternTable();
    forall j | 0 <= j < |Sites| ensures !PatternMatches(url, Patterns[j]) {
      assert Patterns[j] == Pattern(Sites[j], ProductPath);
      forall i: nat ensures !ProductAt(url, Sites[j], i) {
        NoProductInLegacy(url, domain, name, shop, item, rest, Sites[j], i);
      }
    }
  }

  /** No legacy entry for an earlier site matches a legacy link for site `k`. */
  lemma NoEarlierLegacyPattern(url: string, k: nat, name: string, shop: string, item: string, rest: string)
    requires k < |Sites| && LaidLegacy(url, Sites[k], name, shop, item, rest) && LegacyParts(Sites[k], name, shop, item, rest)
    ensures forall j :: |Sites| <= j < |Sites| + k ==> !PatternMatches(url, Patterns[j])
  {
    SitesShape();
    PatternTable();
    forall j | |Sites| <= j < |Sites| + k ensures !PatternMatches(url, Patterns[j]) {
      var j0 := j - |Sites|;
      assert Patterns[j] == Pattern(Sites[j0], LegacyPath);
      if i: nat, m: nat :| LegacyAt(url, Sites[j0], i, m) {
        LegacyMatchPlace(url, Sites[k], name, shop, item, rest, Sites[j0], i, m);
        assert false;
      }
    }
  }
}
