/**
 The product-identifier extractor `extract_product_info` (app.py:101-140).
 It walks a table of eighteen patterns: nine `SITE/product/(\d+)/(\d+)`
 patterns, then nine legacy `SITE/.*?\.i\.(\d+)\.(\d+)` patterns for the same
 nine sites. The first pattern of the table that matches anywhere in the URL
 wins. The shop and item ids are its two groups, and the domain is the first
 `https?://([^/]+)` authority in the URL, or `shopee.co.th` when there is none.
 Matching is case-sensitive.
 */
module Product {
  import opened Wrappers
  import opened Text

  /** The nine marketplace sites, in the table's order. */
  const Sites: seq<string> := [
    "shopee.co.id", "shopee.com.my", "shopee.sg", "shopee.ph", "shopee.co.th",
    "shopee.vn", "shopee.com.br", "shopee.tw", "shopee.com"
  ]

  /** `/product/{shop}/{item}` or the legacy `.i.{shop}.{item}`. */
  datatype Shape = ProductPath | LegacyPath

  datatype Pattern = Pattern(site: string, shape: Shape)

  /** The table of app.py:103-125, in its order. */
  const Patterns: seq<Pattern> := [
    Pattern("shopee.co.id", ProductPath),
    Pattern("shopee.com.my", ProductPath),
    Pattern("shopee.sg", ProductPath),
    Pattern("shopee.ph", ProductPath),
    Pattern("shopee.co.th", ProductPath),
    Pattern("shopee.vn", ProductPath),
    Pattern("shopee.com.br", ProductPath),
    Pattern("shopee.tw", ProductPath),
    Pattern("shopee.com", ProductPath),
    Pattern("shopee.co.id", LegacyPath),
    Pattern("shopee.com.my", LegacyPath),
    Pattern("shopee.sg", LegacyPath),
    Pattern("shopee.ph", LegacyPath),
    Pattern("shopee.co.th", LegacyPath),
    Pattern("shopee.vn", LegacyPath),
    Pattern("shopee.com.br", LegacyPath),
    Pattern("shopee.tw", LegacyPath),
    Pattern("shopee.com", LegacyPath)
  ]

  /** The dictionary `extract_product_info` returns. */
  datatype ProductInfo = ProductInfo(shopId: string, itemId: string, domain: string, isProductFormat: bool)

  /** The domain used when the URL has no `http://` or `https://` authority. */
  const DefaultDomain: string := "shopee.co.th"

  // ---------------------------------------------------------------------------
  // (\d+)SEP(\d+)

  /** `(\d+)SEP(\d+)` matches at `j`. Both runs are greedy, so the first is the
      whole digit run at `j`, which must be followed by SEP. */
  predicate IdsAt(s: string, j: nat, sep: char) {
    && j <= |s|
    && var a := DigitRun(s, j);
    && a > 0 && j + a < |s| && s[j + a] == sep
    && DigitRun(s, j + a + 1) > 0
  }

  /** The two groups of `(\d+)SEP(\d+)` at `j`: numerals separated by SEP,
      the second one not followed by a further digit. */
  function Ids(s: string, j: nat, sep: char): (ids: (string, string))
    requires IdsAt(s, j, sep)
    ensures IsNumeral(ids.0) && IsNumeral(ids.1)
    ensures StartsAt(s, j, ids.0 + [sep] + ids.1)
    ensures var e := j + |ids.0| + 1 + |ids.1|; e == |s| || !IsDigit(s[e])
  {
    var a := DigitRun(s, j);
    var b := DigitRun(s, j + a + 1);
    var ids := (s[j..j + a], s[j + a + 1..j + a + 1 + b]);
    assert s[j..j + a + 1 + b] == ids.0 + [sep] + ids.1;
    ids
  }

  /** The regular expression's reading of `(\d+)SEP(\d+)` for a non-digit SEP:
      it matches at `j` exactly when two numerals separated by SEP start there. */
  lemma IdsAtIff(s: string, j: nat, sep: char)
    requires !IsDigit(sep)
    ensures IdsAt(s, j, sep) <==> exists a, b :: IsNumeral(a) && IsNumeral(b) && StartsAt(s, j, a + [sep] + b)
  {
    if IdsAt(s, j, sep) {
      var ids := Ids(s, j, sep);
      assert IsNumeral(ids.0) && IsNumeral(ids.1) && StartsAt(s, j, ids.0 + [sep] + ids.1);
    }
    if exists a, b :: IsNumeral(a) && IsNumeral(b) && StartsAt(s, j, a + [sep] + b) {
      var a, b :| IsNumeral(a) && IsNumeral(b) && StartsAt(s, j, a + [sep] + b);
      var w := a + [sep] + b;
      assert forall t :: 0 <= t < |w| ==> s[j + t] == w[t] by {
        forall t | 0 <= t < |w| ensures s[j + t] == w[t] {
          assert s[j..j + |w|][t] == w[t];
        }
      }
      DigitRunOfNumeral(s, j, a);
      assert s[j + |a|] == w[|a|] == sep;
      assert s[j + |a| + 1] == w[|a| + 1] == b[0];
    }
  }

  /** A numeral followed by a non-digit, or by the end of `s`, is exactly the digit run. */
  lemma DigitRunOfNumeral(s: string, j: nat, a: string)
    requires IsNumeral(a) && j + |a| <= |s|
    requires forall t :: 0 <= t < |a| ==> s[j + t] == a[t]
    requires j + |a| == |s| || !IsDigit(s[j + |a|])
    ensures DigitRun(s, j) == |a|
    decreases |a|
  {
    assert IsDigit(s[j]) by { assert s[j + 0] == a[0]; }
    if |a| > 1 {
      forall t | 0 <= t < |a| - 1 ensures s[j + 1 + t] == a[1..][t] {
        assert s[j + (t + 1)] == a[t + 1];
      }
      DigitRunOfNumeral(s, j + 1, a[1..]);
    } else {
      assert DigitRun(s, j + 1) == 0;
    }
  }

  /** Two numerals separated by a non-digit SEP at `j`, not followed by a
      further digit, are what `(\d+)SEP(\d+)` reads there. */
  lemma IdsOf(s: string, j: nat, sep: char, a: string, b: string)
    requires !IsDigit(sep) && IsNumeral(a) && IsNumeral(b)
    requires j + |a| + 1 + |b| <= |s|
    requires forall t :: 0 <= t < |a| ==> s[j + t] == a[t]
    requires s[j + |a|] == sep
    requires forall t :: 0 <= t < |b| ==> s[j + |a| + 1 + t] == b[t]
    requires j + |a| + 1 + |b| == |s| || !IsDigit(s[j + |a| + 1 + |b|])
    ensures IdsAt(s, j, sep) && Ids(s, j, sep) == (a, b)
  {
    DigitRunOfNumeral(s, j, a);
    DigitRunOfNumeral(s, j + |a| + 1, b);
    assert s[j..j + |a|] == a;
    assert s[j + |a| + 1..j + |a| + 1 + |b|] == b;
  }

  // ---------------------------------------------------------------------------
  // SITE/product/(\d+)/(\d+)

  /** `SITE/product/(\d+)/(\d+)` matches with its start at `i`. */
  predicate ProductAt(s: string, site: string, i: nat) {
    StartsAt(s, i, site + "/product/") && IdsAt(s, i + |site| + 9, '/')
  }

  /** `i` is the leftmost start of a product-path match, and `ids` are its groups. */
  ghost predicate LeftmostProduct(s: string, site: string, i: nat, ids: (string, string)) {
    && ProductAt(s, site, i)
    && (forall j: nat :: j < i ==> !ProductAt(s, site, j))
    && ids == Ids(s, i + |site| + 9, '/')
  }

  /** The least start `>= i` of a product-path match. */
  function FirstProduct(s: string, site: string, i: nat): (r: Option<nat>)
    requires i <= |s|
    ensures r.Some? ==> i <= r.value && ProductAt(s, site, r.value)
    ensures r.Some? ==> forall j: nat :: i <= j < r.value ==> !ProductAt(s, site, j)
    ensures r.None? ==> forall j: nat :: i <= j ==> !ProductAt(s, site, j)
    decreases |s| - i
  {
    if ProductAt(s, site, i) then Some(i)
    else if i == |s| then None
    else FirstProduct(s, site, i + 1)
  }

  // ---------------------------------------------------------------------------
  // SITE/.*?\.i\.(\d+)\.(\d+)

  /** `SITE/.*?\.i\.(\d+)\.(\d+)` matches with its start at `i` and its `.i.`
      at `m`; the lazy `.*?` between them does not cross a newline. */
  predicate LegacyAt(s: string, site: string, i: nat, m: nat) {
    && StartsAt(s, i, site + "/")
    && NoneOf(s, i + |site| + 1, m, '\n')
    && StartsAt(s, m, ".i.")
    && IdsAt(s, m + 3, '.')
  }

  /** `i` is the leftmost start of a legacy match, `m` the `.i.` position the
      lazy gap settles on there, and `ids` its groups. */
  ghost predicate LeftmostLegacy(s: string, site: string, i: nat, m: nat, ids: (string, string)) {
    && LegacyAt(s, site, i, m)
    && (forall j: nat, m': nat :: j < i ==> !LegacyAt(s, site, j, m'))
    && (forall m': nat :: m' < m ==> !LegacyAt(s, site, i, m'))
    && ids == Ids(s, m + 3, '.')
  }

  /** The least `.i.` position `>= m` completing a legacy match that starts at
      `i` — the lazy `.*?` tries the shortest gap first. */
  function FirstGap(s: string, site: string, i: nat, m: nat): (r: Option<nat>)
    requires m <= |s|
    ensures r.Some? ==> m <= r.value && LegacyAt(s, site, i, r.value)
    ensures r.Some? ==> forall m': nat :: m <= m' < r.value ==> !LegacyAt(s, site, i, m')
    ensures r.None? ==> forall m': nat :: m <= m' ==> !LegacyAt(s, site, i, m')
    decreases |s| - m
  {
    if LegacyAt(s, site, i, m) then Some(m)
    else if m == |s| then None
    else FirstGap(s, site, i, m + 1)
  }

  /** The least start `>= i` of a legacy match, with the `.i.` position the
      lazy gap settles on there. */
  function FirstLegacy(s: string, site: string, i: nat): (r: Option<(nat, nat)>)
    requires i <= |s|
    ensures r.Some? ==> i <= r.value.0 && LegacyAt(s, site, r.value.0, r.value.1)
    ensures r.Some? ==> forall j: nat, m: nat :: i <= j < r.value.0 ==> !LegacyAt(s, site, j, m)
    ensures r.Some? ==> forall m: nat :: m < r.value.1 ==> !LegacyAt(s, site, r.value.0, m)
    ensures r.None? ==> forall j: nat, m: nat :: i <= j ==> !LegacyAt(s, site, j, m)
    decreases |s| - i
  {
    var gap := if StartsAt(s, i, site + "/") then FirstGap(s, site, i, i + |site| + 1) else None;
    if gap.Some? then Some((i, gap.value))
    else if i == |s| then None
    else FirstLegacy(s, site, i + 1)
  }

  // ---------------------------------------------------------------------------
  // One pattern of the table

  /** The pattern matches `s` somewhere. */
  ghost predicate PatternMatches(s: string, p: Pattern) {
    match p.shape
    case ProductPath => exists i: nat :: ProductAt(s, p.site, i)
    case LegacyPath => exists i: nat, m: nat :: LegacyAt(s, p.site, i, m)
  }

  /** `re.search` of a `/product/` pattern and its two groups, at the leftmost match. */
  function SearchProduct(s: string, site: string): (r: Option<(string, string)>)
    ensures r.Some? <==> exists i: nat :: ProductAt(s, site, i)
    ensures r.Some? ==>
              exists i: nat :: LeftmostProduct(s, site, i, r.value)
  {
    match FirstProduct(s, site, 0)
    case Some(i) =>
      var ids := Ids(s, i + |site| + 9, '/');
      assert LeftmostProduct(s, site, i, ids);
      Some(ids)
    case None => None
  }

  /** When a match at `i` is the only possible start, `SearchProduct` reports its groups. */
  lemma SearchProductIs(s: string, site: string, i: nat)
    requires ProductAt(s, site, i)
    requires forall j: nat :: ProductAt(s, site, j) ==> j == i
    ensures SearchProduct(s, site) == Some(Ids(s, i + |site| + 9, '/'))
  {
    var r := SearchProduct(s, site);
    assert r.Some? by { assert ProductAt(s, site, i); }
    var j: nat :| LeftmostProduct(s, site, j, r.value);
    LeftmostProductAt(s, site, i, j, r.value);
  }

  lemma LeftmostProductAt(s: string, site: string, i: nat, j: nat, ids: (string, string))
    requires forall j: nat :: ProductAt(s, site, j) ==> j == i
    requires LeftmostProduct(s, site, j, ids)
    ensures ids == Ids(s, i + |site| + 9, '/')
  {
  }

  /** `re.search` of a legacy pattern and its two groups, at the leftmost match
      and its shortest gap. */
  function SearchLegacy(s: string, site: string): (r: Option<(string, string)>)
    ensures r.Some? <==> exists i: nat, m: nat :: LegacyAt(s, site, i, m)
    ensures r.Some? ==>
              exists i: nat, m: nat :: LeftmostLegacy(s, site, i, m, r.value)
  {
    match FirstLegacy(s, site, 0)
    case Some((i, m)) =>
      var ids := Ids(s, m + 3, '.');
      assert LeftmostLegacy(s, site, i, m, ids);
      Some(ids)
    case None => None
  }

  /** When a legacy match starts only at `i`, and `m` is its shortest gap
      there, `SearchLegacy` reports the groups after `m`. */
  lemma SearchLegacyIs(s: string, site: string, i: nat, m: nat)
    requires LegacyAt(s, site, i, m)
    requires forall j: nat, m': nat :: LegacyAt(s, site, j, m') ==> j == i
    requires forall m': nat :: m' < m ==> !LegacyAt(s, site, i, m')
    ensures SearchLegacy(s, site) == Some(Ids(s, m + 3, '.'))
  {
    var r := SearchLegacy(s, site);
    assert r.Some? by { assert LegacyAt(s, site, i, m); }
    var j: nat, m': nat :| LeftmostLegacy(s, site, j, m', r.value);
    LeftmostLegacyAt(s, site, i, m, j, m', r.value);
  }

  lemma LeftmostLegacyAt(s: string, site: string, i: nat, m: nat, j: nat, m': nat, ids: (string, string))
    requires LegacyAt(s, site, i, m)
    requires forall j: nat, m': nat :: LegacyAt(s, site, j, m') ==> j == i
    requires forall m': nat :: m' < m ==> !LegacyAt(s, site, i, m')
    requires LeftmostLegacy(s, site, j, m', ids)
    ensures ids == Ids(s, m + 3, '.')
  {
    assert j == i;
    assert !(m' < m) && !(m < m');
  }

  /** `re.search(pattern, url)` and its two groups: present exactly when the
      pattern matches, and then two numerals. */
  function MatchPattern(s: string, p: Pattern): (r: Option<(string, string)>)
    ensures r.Some? <==> PatternMatches(s, p)
    ensures r.Some? ==> IsNumeral(r.value.0) && IsNumeral(r.value.1)
  {
    match p.shape
    case ProductPath => SearchProduct(s, p.site)
    case LegacyPath => SearchLegacy(s, p.site)
  }

  // ---------------------------------------------------------------------------
  // https?://([^/]+)

  /** `https?://([^/]+)` matches at `i`. */
  predicate SchemeAt(s: string, i: nat) {
    || (StartsAt(s, i, "https://") && RunWithout(s, i + 8, '/') > 0)
    || (StartsAt(s, i, "http://") && RunWithout(s, i + 7, '/') > 0)
  }

  /** Where the authority starts for a scheme matched at `i`. */
  function AuthorityStart(s: string, i: nat): (a: nat)
    requires SchemeAt(s, i)
    ensures a <= |s|
  {
    if StartsAt(s, i, "https://") then i + 8 else i + 7
  }

  /** The least `j >= i` where the scheme pattern matches. */
  function FirstScheme(s: string, i: nat): (r: Option<nat>)
    requires i <= |s|
    ensures r.Some? ==> i <= r.value && SchemeAt(s, r.value)
    ensures r.Some? ==> forall j: nat :: i <= j < r.value ==> !SchemeAt(s, j)
    ensures r.None? ==> forall j: nat :: i <= j ==> !SchemeAt(s, j)
    decreases |s| - i
  {
    if SchemeAt(s, i) then Some(i)
    else if i == |s| then None
    else FirstScheme(s, i + 1)
  }

  /** `group(1)` of a scheme match at `i`: the authority up to the next `/`,
      never empty and never holding a `/`. */
  function Authority(s: string, i: nat): (d: string)
    requires SchemeAt(s, i)
    ensures |d| > 0 && NoneOf(d, 0, |d|, '/')
    ensures var a := AuthorityStart(s, i);
            a + |d| <= |s| && d == s[a..a + |d|] && (a + |d| == |s| || s[a + |d|] == '/')
  {
    var a := AuthorityStart(s, i);
    var d := s[a..a + RunWithout(s, a, '/')];
    assert forall k :: 0 <= k < |d| ==> d[k] == s[a + k];
    d
  }

  /** The `domain` of app.py:130-131: the authority of the first `http://` or
      `https://` match (never empty, never holding a `/`), or `shopee.co.th`
      when the URL has no such match. */
  function Domain(url: string): (d: string)
    ensures |d| > 0 && NoneOf(d, 0, |d|, '/')
  {
    match FirstScheme(url, 0)
    case Some(i) => Authority(url, i)
    case None => DefaultDomain
  }

  /** A URL without any `http://` or `https://` match gets the default domain. */
  lemma DomainWithoutScheme(url: string)
    requires forall i: nat :: !SchemeAt(url, i)
    ensures Domain(url) == DefaultDomain
  {
    assert !SchemeAt(url, 0);
  }

  /** Otherwise the domain is the authority of the leftmost scheme match. */
  lemma DomainOfFirstScheme(url: string, i: nat)
    requires SchemeAt(url, i)
    requires forall j: nat :: j < i ==> !SchemeAt(url, j)
    ensures Domain(url) == Authority(url, i)
  {
    var r := FirstScheme(url, 0);
    assert r.Some?;
    assert !(r.value < i) && !(i < r.value);
  }

  // ---------------------------------------------------------------------------
  // The table walk

  /** The index of the first pattern of `table` at or after `k` that matches. */
  function FirstMatchFrom(url: string, table: seq<Pattern>, k: nat): (r: Option<nat>)
    requires k <= |table|
    ensures r.Some? ==> k <= r.value < |table| && PatternMatches(url, table[r.value])
    ensures r.Some? ==> forall j :: k <= j < r.value ==> !PatternMatches(url, table[j])
    ensures r.None? ==> forall j :: k <= j < |table| ==> !PatternMatches(url, table[j])
    decreases |table| - k
  {
    if k == |table| then None
    else if MatchPattern(url, table[k]).Some? then Some(k)
    else FirstMatchFrom(url, table, k + 1)
  }

  /** `extract_product_info`: nothing exactly when no pattern of the table
      matches; otherwise the ids of the first matching pattern, the URL's
      domain, and whether that pattern is a `/product/` one. */
  function ExtractProductInfo(url: string): (r: Option<ProductInfo>)
    ensures r.None? <==> forall k :: 0 <= k < |Patterns| ==> !PatternMatches(url, Patterns[k])
    ensures r.Some? ==>
              exists k ::
                && 0 <= k < |Patterns| && PatternMatches(url, Patterns[k])
                && (forall j :: 0 <= j < k ==> !PatternMatches(url, Patterns[j]))
                && (r.value.shopId, r.value.itemId) == MatchPattern(url, Patterns[k]).value
                && r.value.isProductFormat == (Patterns[k].shape == ProductPath)
    ensures r.Some? ==> IsNumeral(r.value.shopId) && IsNumeral(r.value.itemId) && r.value.domain == Domain(url)
  {
    match FirstMatchFrom(url, Patterns, 0)
    case Some(k) =>
      var ids := MatchPattern(url, Patterns[k]).value;
      Some(ProductInfo(ids.0, ids.1, Domain(url), Patterns[k].shape == ProductPath))
    case None => None
  }

  // ---------------------------------------------------------------------------
  // The table's layout

  /** The table is the nine `/product/` patterns followed by the nine legacy
      patterns, for the sites in the same order. */
  lemma PatternTable()
    ensures |Patterns| == 2 * |Sites| == 18
    ensures forall k :: 0 <= k < |Sites| ==> Patterns[k] == Pattern(Sites[k], ProductPath)
    ensures forall k :: |Sites| <= k < |Patterns| ==> Patterns[k] == Pattern(Sites[k - |Sites|], LegacyPath)
  {
  }

  /** When some `/product/` pattern matches, a `/product/` pattern wins: the
      product-shape patterns come first in the table. */
  lemma ProductShapeFirst(url: string)
    requires exists k :: 0 <= k < |Sites| && PatternMatches(url, Patterns[k])
    ensures ExtractProductInfo(url).Some? && ExtractProductInfo(url).value.isProductFormat
  {
    PatternTable();
    var r := ExtractProductInfo(url);
    var k :| 0 <= k < |Sites| && PatternMatches(url, Patterns[k]);
    var k' :|
      && 0 <= k' < |Patterns| && PatternMatches(url, Patterns[k'])
      && (forall j :: 0 <= j < k' ==> !PatternMatches(url, Patterns[j]))
      && r.value.isProductFormat == (Patterns[k'].shape == ProductPath);
    assert k' <= k;
  }

  /** When only legacy patterns match, the result is marked as not in product format. */
  lemma LegacyShapeOnly(url: string)
    requires forall k :: 0 <= k < |Sites| ==> !PatternMatches(url, Patterns[k])
    requires exists k :: |Sites| <= k < |Patterns| && PatternMatches(url, Patterns[k])
    ensures ExtractProductInfo(url).Some? && !ExtractProductInfo(url).value.isProductFormat
  {
    PatternTable();
    var r := ExtractProductInfo(url);
    var k' :|
      && 0 <= k' < |Patterns| && PatternMatches(url, Patterns[k'])
      && r.value.isProductFormat == (Patterns[k'].shape == ProductPath);
    assert k' >= |Sites|;
  }

  /** `SITE/product/SHOP/ITEM` occurs at `i`, not followed by a further digit. */
  predicate ProductText(url: string, site: string, i: nat, shop: string, item: string) {
    && StartsAt(url, i, site + "/product/" + shop + "/" + item)
    && var e := i + |site| + 9 + |shop| + 1 + |item|;
       e == |url| || !IsDigit(url[e])
  }

  /** `SITE/` occurs at `i` and `.i.SHOP.ITEM` at `m` on the same line after
      it, not followed by a further digit. */
  predicate LegacyText(url: string, site: string, i: nat, m: nat, shop: string, item: string) {
    && StartsAt(url, i, site + "/")
    && NoneOf(url, i + |site| + 1, m, '\n')
    && StartsAt(url, m, ".i." + shop + "." + item)
    && var e := m + 3 + |shop| + 1 + |item|;
       e == |url| || !IsDigit(url[e])
  }

  /** The groups of a leftmost `/product/` match sit right after `SITE/product/`,
      and the item id is not followed by another digit. */
  lemma ProductIdsText(url: string, site: string, i: nat, ids: (string, string))
    requires LeftmostProduct(url, site, i, ids)
    ensures ProductText(url, site, i, ids.0, ids.1)
  {
    StartsAtConcat(url, i, site + "/product/", ids.0 + "/" + ids.1);
    assert site + "/product/" + (ids.0 + "/" + ids.1) == site + "/product/" + ids.0 + "/" + ids.1;
  }

  /** The groups of a leftmost legacy match sit right after its `.i.`, and the
      item id is not followed by another digit. */
  lemma LegacyIdsText(url: string, site: string, i: nat, m: nat, ids: (string, string))
    requires LeftmostLegacy(url, site, i, m, ids)
    ensures LegacyText(url, site, i, m, ids.0, ids.1)
  {
    StartsAtConcat(url, m, ".i.", ids.0 + "." + ids.1);
    assert ".i." + (ids.0 + "." + ids.1) == ".i." + ids.0 + "." + ids.1;
  }

  /** The pattern `extract_product_info` settled on, with its groups. */
  lemma WinningPattern(url: string) returns (k: nat)
    requires ExtractProductInfo(url).Some?
    ensures k < |Patterns| && PatternMatches(url, Patterns[k])
    ensures forall j :: 0 <= j < k ==> !PatternMatches(url, Patterns[j])
    ensures var info := ExtractProductInfo(url).value;
            && MatchPattern(url, Patterns[k]) == Some((info.shopId, info.itemId))
            && info.isProductFormat == (Patterns[k].shape == ProductPath)
  {
    var info := ExtractProductInfo(url).value;
    k :|
      && 0 <= k < |Patterns| && PatternMatches(url, Patterns[k])
      && (forall j :: 0 <= j < k ==> !PatternMatches(url, Patterns[j]))
      && (info.shopId, info.itemId) == MatchPattern(url, Patterns[k]).value
      && info.isProductFormat == (Patterns[k].shape == ProductPath);
  }

  /** The text a `/product/` pattern's groups were found in. */
  lemma ProductEntryIds(url: string, p: Pattern, ids: (string, string))
    requires p.shape == ProductPath && MatchPattern(url, p) == Some(ids)
    ensures exists i: nat :: ProductText(url, p.site, i, ids.0, ids.1)
  {
    var i: nat :| LeftmostProduct(url, p.site, i, ids);
    ProductIdsText(url, p.site, i, ids);
  }

  /** The text a legacy pattern's groups were found in. */
  lemma LegacyEntryIds(url: string, p: Pattern, ids: (string, string))
    requires p.shape == LegacyPath && MatchPattern(url, p) == Some(ids)
    ensures exists i: nat, m: nat :: LegacyText(url, p.site, i, m, ids.0, ids.1)
  {
    var i: nat, m: nat :| LeftmostLegacy(url, p.site, i, m, ids);
    LegacyIdsText(url, p.site, i, m, ids);
  }

  /** Where product-format ids come from: they follow `SITE/product/` for one
      of the sites, separated by `/`, and the item id is not followed by
      another digit. */
  lemma ProductIdsLocation(url: string)
    requires ExtractProductInfo(url).Some? && ExtractProductInfo(url).value.isProductFormat
    ensures var info := ExtractProductInfo(url).value;
            exists site, i: nat :: site in Sites && ProductText(url, site, i, info.shopId, info.itemId)
  {
    var k := WinningPattern(url);
    PatternTable();
    var p := Patterns[k];
    assert p.site in Sites;
    var info := ExtractProductInfo(url).value;
    ProductEntryIds(url, p, (info.shopId, info.itemId));
  }

  /** Where legacy ids come from: they follow a `.i.` after `SITE/` for one of
      the sites, with no newline in between, separated by `.`, and the item id
      is not followed by another digit. */
  lemma LegacyIdsLocation(url: string)
    requires ExtractProductInfo(url).Some? && !ExtractProductInfo(url).value.isProductFormat
    ensures var info := ExtractProductInfo(url).value;
            exists site, i: nat, m: nat :: site in Sites && LegacyText(url, site, i, m, info.shopId, info.itemId)
  {
    var k := WinningPattern(url);
    PatternTable();
    var p := Patterns[k];
    assert p.site in Sites;
    var info := ExtractProductInfo(url).value;
    LegacyEntryIds(url, p, (info.shopId, info.itemId));
  }

  /** A URL that begins `https://DOMAIN/`, for a non-empty domain without
      `/`, has that domain. */
  lemma HttpsDomain(url: string, domain: string)
    requires |domain| > 0 && NoneOf(domain, 0, |domain|, '/')
    requires StartsAt(url, 0, "https://" + domain + "/")
    ensures Domain(url) == domain
  {
    StartsAtChars(url, 0, "https://" + domain + "/");
    RunWithoutOf(url, 8, '/', domain);
    StartsAtConcat(url, 0, "https://", domain + "/");
    assert SchemeAt(url, 0);
    DomainOfFirstScheme(url, 0);
    assert url[8..8 + |domain|] == domain;
  }

  /** `extract_product_info`'s table walk settles on `k` when entry `k` matches and none before it does. */
  lemma FirstMatchIs(url: string, k: nat)
    requires k < |Patterns| && PatternMatches(url, Patterns[k])
    requires forall j :: 0 <= j < k ==> !PatternMatches(url, Patterns[j])
    ensures ExtractProductInfo(url).Some?
    ensures var ids := MatchPattern(url, Patterns[k]).value;
            ExtractProductInfo(url) == Some(ProductInfo(ids.0, ids.1, Domain(url), Patterns[k].shape == ProductPath))
  {
    var k' := WinningPattern(url);
    assert !(k' < k) && !(k < k');
  }
}
