# Shopee affiliate-link generator, modelled in Dafny

This project models the URL logic of a small Streamlit app, `app.py`. The app takes a Shopee product
URL, which may be a short link, and produces an affiliate link
`https://DOMAIN/product/SHOP/ITEM?utm_medium=affiliates&utm_source=TAG`. The modelled core has five parts:

- **Short-link classifier** (`is_short_url`, module `ShortLink`). This is a
  case-insensitive search for `shope.ee`, `s.shopee.`, `.shp.ee` or `shopee.link`.
- **Resolution chain** (`expand_short_url`, module `Resolution`). It runs four
  expansion strategies in a fixed order. The first result that is non-empty and
  differs from the input wins. A strategy that raises is logged and skipped.
  When all of them fail, the input comes back. Each strategy is modelled as its
  name plus the outcome of calling it. The method is a loop over that sequence.
- **Scrape step** of the proxy strategy (module `Scrape`). It returns the
  `href` of a `<link rel="canonical">` tag, or else the `content` of a
  `<meta property="og:url">` tag. Both regular expressions are matched by hand,
  in the order Python's backtracking matcher tries the alternatives.
- **Identifier extractor** (`extract_product_info`, module `Product`). It walks
  a table of nine `SITE/product/SHOP/ITEM` patterns, then nine legacy
  `SITE/….i.SHOP.ITEM` patterns. The first match wins. The result holds the two
  ids, the authority of the first `https?://` followed by a character other
  than `/` (default `shopee.co.th`) and
  whether a `/product/` pattern matched. Module `ProductLink` proves that
  canonical and legacy links for the nine sites read back to their own parts.
- **Handler in `main`** (module `Affiliate`). It applies the blank-URL and
  blank-tag guards, expands the stripped URL, extracts the ids and formats the
  link. `Pipeline` is the specification. `GenerateLink` is the method that runs
  the chain.

Shared character classes live in `Text`: Python's `str.strip()` whitespace,
ASCII `\d`, and the case folding of `re.IGNORECASE`. `Wrappers` holds
`Option` and `Result`.

The legacy patterns need a literal `.i.` before the shop id, as the code
writes them. A name that ends in `-i.` before the ids is therefore not read as
a legacy link.

`re.IGNORECASE` is modelled as ASCII case plus the non-ASCII letters Python
folds onto `i`, `s` and `k` (U+0130, U+0131, U+017F, U+212A). Every pattern
letter is ASCII, and no other Unicode case pair meets an ASCII letter, so this
is the whole of the folding the patterns see.

## Model

| member | source | states |
|---|---|---|
| Text.IsSpace | app.py:227-233 | the characters `str.isspace` accepts, which `str.strip()` and the blank guards treat as whitespace |
| Text.Strip | app.py:227-233 | `str.strip()`: the result is a slice of the input whose cut-off ends are whitespace, and it neither begins nor ends with whitespace |
| Text.StripEmptyIffBlank | app.py:227-233 | `not s.strip()` holds exactly when every character of `s` is whitespace |
| Text.FoldEq | app.py:19 | `re.IGNORECASE` for a lower-case pattern character: the text character is that character, its ASCII upper case, or a non-ASCII letter Python folds onto it |
| Text.FoldFindFrom | app.py:19 | an unanchored case-insensitive search for a literal: true exactly when the literal occurs at or after the start index |
| Text.FoldStartsAtAscii | app.py:19 | on ASCII text, case-insensitive matching of a lower-case literal is the same as matching in the lower-cased text |
| ShortLink.AnyFound | app.py:19 | `any(re.search(...))` over a pattern list: true exactly when one of the patterns occurs somewhere |
| ShortLink.IsShortUrl | app.py:11-19 | true exactly when one of the four short-link literals occurs in the URL, case-insensitively |
| ShortLink.ShortUrlByLowercase | app.py:13-19 | on ASCII URLs: short exactly when the lower-cased URL contains one of the four literals |
| ShortLink.ShortDomainsRecognised | app.py:13-19 | `S.SHOPEE.co.th`, `th.shp.ee` and `shope.ee` links are classified as short |
| Resolution.Accepted | app.py:36 | `expanded and expanded != short_url`: the strategy returned a non-empty string other than the input |
| Resolution.FirstAccepted | app.py:33-37 | the index of the first strategy whose result is non-empty and differs from the input; every earlier one fails |
| Resolution.Invoked | app.py:23-37 | the number of strategies called: at most their count, and zero exactly when the URL is not short or there are no strategies |
| Resolution.Expand | app.py:21-42 | the chain's result: it differs from the input only for a short URL, and then it is never empty |
| Resolution.LogLine | app.py:39 | the `Method NAME failed: MESSAGE` line for a strategy that raised |
| Resolution.FailureLog | app.py:33-40 | the lines logged while calling a strategy sequence in order: at most one per strategy |
| Resolution.ExpandShortUrl | app.py:21-42 | the loop returns the chain's result, calls exactly as many strategies as the chain needs, and logs one line per strategy that raised among those called |
| Resolution.NotShortUnchanged | app.py:23-24 | a URL that is not short comes back unchanged and no strategy is called |
| Resolution.FirstSuccessWins | app.py:33-37 | for a short URL, the result differs from the input exactly when some strategy succeeds; it is then the first success's value, that strategy is the last one called, and all earlier ones failed |
| Resolution.ExhaustedFallsBack | app.py:33-42 | for a short URL, when every strategy fails, the input comes back after all of them were called |
| Resolution.ResultIsInputOrReturned | app.py:21-42 | the result is the input or a value one of the called strategies returned |
| Resolution.LaterStrategiesIrrelevant | app.py:33-37 | strategies after the last one called do not affect the result or the number of calls |
| Resolution.RaisedIsLogged | app.py:38-40 | every called strategy that raised has its `Method NAME failed: MESSAGE` line in the log |
| Resolution.LogHoldsRaised | app.py:38-40 | the log of a strategy sequence holds the line of each strategy in it that raised |
| Resolution.ProxyOutcome | app.py:80-99 | the proxy strategy never raises, and any value it returns comes from a fetched page and holds no `"` |
| Resolution.Strategies | app.py:26-31 | the strategy list has four entries, in the source's order |
| Resolution.ThirdStrategyWins | app.py:26-37 | with the first strategy returning nothing, the second raising and the third succeeding, the third's value is returned and the fourth is never called |
| Scrape.TagMatch | app.py:90-95 | the tag pattern matches with OPEN, ATTR and KEY at given positions: each literal occurs case-insensitively there, no `>` lies between them, and the value is closed |
| Scrape.ValueEnd | app.py:90 | the `"` closing the captured value is the first one after it, and a `>` follows; none when no `"`/`>` completes the match |
| Scrape.Capture | app.py:92 | a captured value never holds a `"` |
| Scrape.LastKey | app.py:90 | the rightmost KEY position completing a match, with no match at any later KEY position |
| Scrape.LastAttr | app.py:90 | the rightmost ATTR position completing a match, with the rightmost KEY for it |
| Scrape.FirstOpen | app.py:90 | the leftmost start of a match, with the ATTR and KEY positions backtracking settles on there |
| Scrape.Search | app.py:90-97 | `re.search(...).group(1)` is present exactly when the pattern matches, and its value holds no `"` |
| Scrape.PreferredExists | app.py:90-97 | whenever a pattern matches, one match is the one `re.search` prefers |
| Scrape.PreferredUnique | app.py:90-97 | the preferred match is unique |
| Scrape.SearchIs | app.py:90-97 | the value found is the preferred match's capture |
| Scrape.Scrape | app.py:89-97 | a value exactly when a canonical or an `og:url` tag matches; a value never holds a `"` |
| Scrape.ScrapeCanonical | app.py:89-92 | a page with a canonical link yields that link's `href`, even when it also has an `og:url` tag |
| Scrape.ScrapeOgUrl | app.py:94-97 | a page without a canonical link yields the `og:url` tag's `content` |
| Product.IdsAt | app.py:105-124 | `(\d+)SEP(\d+)` matches at a position: the whole digit run there is followed by SEP and a further digit |
| Product.Ids | app.py:105-124 | the groups `(\d+)SEP(\d+)` read: two numerals separated by SEP, occurring there, and not followed by a further digit |
| Product.IdsAtIff | app.py:105-124 | `(\d+)SEP(\d+)` matches at a position exactly when two numerals separated by SEP start there |
| Product.DigitRunOfNumeral | app.py:105-124 | a numeral followed by a non-digit or the end of the text is exactly what greedy `\d+` consumes |
| Product.IdsOf | app.py:105-124 | two numerals around SEP, not followed by a digit, are the groups read there |
| Product.ProductAt | app.py:105-113 | `SITE/product/(\d+)/(\d+)` matches with its start at a position |
| Product.FirstProduct | app.py:105-113 | the leftmost start of a `SITE/product/(\d+)/(\d+)` match at or after an index, with no match before it |
| Product.LegacyAt | app.py:116-124 | a legacy pattern matches with its start at one position and its `.i.` at another, with no newline in the gap after `SITE/` |
| Product.FirstGap | app.py:116-124 | the shortest newline-free lazy gap `.*?` ending at a `.i.` that completes a legacy match |
| Product.FirstLegacy | app.py:116-124 | the leftmost start of a legacy match, with the lazy gap the matcher settles on |
| Product.SearchProduct | app.py:128 | the search for a `/product/` pattern is present exactly when it matches somewhere, and then gives the groups of the leftmost match |
| Product.SearchProductIs | app.py:128 | when a `/product/` match can start only at `i`, the search gives the ids read after `i` |
| Product.SearchLegacy | app.py:128 | the search for a legacy pattern is present exactly when it matches, and then gives the groups of the leftmost match with the shortest gap |
| Product.SearchLegacyIs | app.py:128 | when a legacy match can start only at `i` and its shortest gap ends at `m`, the search gives the ids read after `m` |
| Product.MatchPattern | app.py:127-128 | `re.search(pattern, url)` is present exactly when the pattern matches, and both groups are numerals |
| Product.SchemeAt | app.py:130 | `https?://([^/]+)` matches at a position: `https://` or `http://` there, followed by a character other than `/` |
| Product.FirstScheme | app.py:130 | the leftmost `https?://([^/]+)` match at or after an index |
| Product.Authority | app.py:130-131 | `group(1)` of a scheme match is the text from the end of the scheme up to the next `/` or the end: non-empty and without `/` |
| Product.Domain | app.py:130-131 | the domain is never empty and never holds a `/` |
| Product.DomainWithoutScheme | app.py:131 | without any `http://` or `https://` match, the domain is `shopee.co.th` |
| Product.DomainOfFirstScheme | app.py:130-131 | otherwise the domain is the authority of the leftmost scheme match |
| Product.HttpsDomain | app.py:130-131 | for a non-empty DOMAIN without `/`, a URL starting `https://DOMAIN/` has domain DOMAIN |
| Product.FirstMatchFrom | app.py:127-129 | the first table entry at or after an index that matches; no entry before it matches, and none at all when the result is absent |
| Product.ExtractProductInfo | app.py:101-140 | absent exactly when no pattern matches; otherwise the groups of the first matching pattern (two numerals), the URL's domain, and whether that pattern is a `/product/` one |
| Product.PatternTable | app.py:103-125 | the table is the nine `/product/` patterns followed by the nine legacy ones, for the same sites in the same order |
| Product.ProductShapeFirst | app.py:127-138 | when some `/product/` pattern matches, the result is in product format |
| Product.LegacyShapeOnly | app.py:127-138 | when only legacy patterns match, the result is not in product format |
| Product.WinningPattern | app.py:127-138 | a result comes from a matching entry that no earlier entry beats; ids and format flag are that entry's |
| Product.ProductIdsLocation | app.py:105-135 | a product-format result's ids occur in the URL as `SITE/product/SHOP/ITEM` for one of the nine sites, not followed by a digit |
| Product.LegacyIdsLocation | app.py:116-135 | a legacy result's ids occur as `SITE/` then, on the same line, `.i.SHOP.ITEM`, not followed by a digit |
| Product.FirstMatchIs | app.py:127-138 | when entry `k` is the first to match, the result is built from entry `k`'s groups, the domain and entry `k`'s shape |
| ProductLink.ProductUrl | app.py:263 | the `base_product_url` layout and its length |
| ProductLink.SitesShape | app.py:103-125 | no site is a suffix of another, and every site starts with `s`, is longer than seven characters and has no `/` |
| ProductLink.ExtractProductUrl | app.py:101-140 | `https://SITE/product/SHOP/ITEM`, followed by any tail without `/` that does not start with a digit, reads back to SHOP, ITEM and SITE in product format |
| ProductLink.LegacyUrl | app.py:116-124 | the older link shape `https://DOMAIN/NAME.i.SHOP.ITEM` the legacy patterns read, and its length |
| ProductLink.ExtractLegacyUrl | app.py:101-140 | `https://SITE/NAME.i.SHOP.ITEM`, with a name without `/`, `.` or newline and such a tail, reads back to SHOP, ITEM and SITE, not in product format |
| Affiliate.FormatLink | app.py:263-264 | `affiliate_link`: the product URL, the query and the tag, of their total length; what the link means is stated by LinkShape, LinkDomain and LinkReadsBack |
| Affiliate.Pipeline | app.py:227-264 | the handler's specification: blank URL, then blank tag, then extraction of the expanded stripped URL, then the link |
| Affiliate.GenerateLink | app.py:225-264 | the handler's result is the pipeline's; a blank URL or tag calls no strategy and logs nothing; otherwise the calls and log are the chain's on the stripped URL |
| Affiliate.GuardsRejectBlank | app.py:227-233 | blank URL is reported exactly when the URL is blank; blank tag exactly when only the tag is blank; no product info exactly when both pass and nothing matches the expanded URL |
| Affiliate.AffiliateIdNotBlank | app.py:202-233 | the hard-coded affiliate id is not blank and is its own strip, so the tag guard never fires |
| Affiliate.StripUnpadded | app.py:264 | a string that neither starts nor ends with whitespace is its own strip |
| Affiliate.LinkShape | app.py:263-264 | every link has the `/product/` shape, a bare non-empty domain, two numerals, the query and the stripped tag, whichever pattern shape matched |
| Affiliate.LinkFromExpanded | app.py:245-264 | the link is written from the ids and domain read from the expanded URL, and its own domain is that domain |
| Affiliate.LinkDomain | app.py:263 | a link's authority is the domain it was written with |
| Affiliate.LinkReadsBack | app.py:263-264 | a link for one of the nine sites, with a tag without `/`, reads back to its own ids and site, in product format |
| Affiliate.RegenerateIsStable | app.py:225-264 | feeding a generated link back in gives the same link for any strategies, when its domain is a site, the stripped tag has no `/`, and the link is not short |
| Affiliate.FormatLinkStable | app.py:225-264 | the link for a site and a non-blank stripped tag without `/` is generated again from itself, when that link is not a short link |
| Affiliate.ShortToProductPage | app.py:225-264 | a short link whose first strategy lands on a canonical product page, with a tail without `/` that does not start with a digit, gives the canonical affiliate link after one call |
| Affiliate.ShortToLegacyPage | app.py:225-264 | a short link whose first strategy lands on a legacy page, with a name without `/`, `.` or newline and a tail as above, still gives the canonical `/product/` affiliate link after one call |
| Affiliate.FirstStrategyExpands | app.py:33-37 | a short link is expanded by a first strategy returning another non-empty URL, after one call |

## Left out

- The Streamlit form, CSS, progress bar, `time.sleep` pauses and result rendering are not modelled. They are presentation only. The three `st.error` exits are the three `LinkError` values.
- The clipboard read through `pyperclip` is not modelled. It is an operating-system call, and the pasted text is simply the `url` input.
- The network traffic inside the four strategies is not modelled: `requests.head` with redirects, the unshorten.me and longurl.me calls, the allorigins fetch, status checks and JSON decoding. Each strategy is an `Outcome`, and the proxy strategy is its page scraped by `Scrape.Scrape`. As written, each of the four catches every exception and returns `None`. The chain's raising branch is kept general but never arises with them.
- A strategy returning a non-string JSON value (a number, a list) is not modelled. Outcomes are strings or nothing.
- TLS warning suppression and the unused `max_retries` parameter are left out. Neither affects any result.
- The top-level `except Exception` around the handler is left out. Nothing in the modelled steps raises.
- `st.write` is modelled as a returned sequence of log lines.
- Unicode digits are left out: `\d` is modelled as the ASCII digits, while Python's `\d` also accepts other Unicode decimal digits.
- ProductLink.ExtractProductUrl: proved only for tails without `/` that do not start with a digit. A different tail may hold a later, competing match, or extend the item id.
- ProductLink.ExtractLegacyUrl: proved only for names without `/`, `.` or newline and tails as above. Other names may make a different `.i.` or site the first match.
- Affiliate.ShortToProductPage: proved only for landing pages whose tail has no `/` and does not start with a digit, for the reason given for ProductLink.ExtractProductUrl. For example, `https://shopee.co.th/product/1/2?r=shopee.co.id/product/7/8` is read as 7 and 8.
- Affiliate.ShortToLegacyPage: proved only for names without `/`, `.` or newline and tails as above, for the reason given for ProductLink.ExtractLegacyUrl. For example, the lazy gap stops at the first `.i.`, so `https://shopee.co.th/x.i.5.6y.i.1.2` is read as 5 and 6.
- Affiliate.RegenerateIsStable: assumes the link is not itself short. A tag holding a short-link literal would send the link through the chain again.
- Affiliate.FormatLinkStable: assumes the link is not itself short, for the same reason. A `/`-free tag such as `shope.ee` makes the link short, and the strategies then decide the result.
