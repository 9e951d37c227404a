# depop-crosslister core, modelled in Dafny

This project models the sequential decision logic of the Depop→Vinted cross-lister.

- **Feed convergence** (`download_from_depop.py`, `load_depop_products`). The loader first waits for a product anchor to appear. It then scrolls to the bottom of the seller's page, samples the number of product anchors, and keeps a stall counter `attempts`. The counter resets to 0 on any change of count (growth or shrinkage) and otherwise increments. The loader stops when the counter reaches `max_attempts = 3`. Module `FeedConvergence`.
- **Listing extraction** (`download_from_depop.py`, `fetch_depop_listings`). The profile check returns `[]` for an invalid profile. Otherwise the feed is loaded and the `li[class*="listItem"]` elements are walked in document order. An item that has a text node exactly equal to `"Sold"` is skipped. Otherwise the item's first anchor whose `href` contains `/products/` is resolved against `https://www.depop.com`. The resulting URL is appended unless it is already in `seen`. Module `ListingExtraction`.
- **Vinted form filling** (`extension/src/content.js`). These are the choices the auto-filler makes among option texts: the Depop→Vinted condition map and its default, the brand suggestion loop and its typed-in fallback, the size matcher with its "other" fallback, the condition substring match, the "first two colours" loop, and the character-by-character price typing. Module `VintedForm`.
- Helper modules: `Ascii` holds the ASCII versions of JavaScript's `trim`, `toUpperCase`, `toLowerCase`, `startsWith` and `includes`. `Search` holds "first element satisfying a test", which is BeautifulSoup's `select_one` and JavaScript's `Array.prototype.find`. `Wrappers` holds `Option`.

The browser is abstracted away:
- The initial `wait_for_selector` becomes a boolean `anchorAppeared`.
- The anchor counts sampled after each scroll become a function `sample: nat -> nat`, indexed by 0-based scroll round.
- The parsed snapshot becomes a sequence of `Item(textNodes, hrefs)` records.
- `urljoin` becomes an uninterpreted function `join(base, href)`. Nothing is assumed about it, not even injectivity, so deduplication is on its result.
- On the Vinted side, each DOM query becomes the list of its elements' texts in document order. A timed-out `waitForElement` becomes a missing input.

Three details of the code decide the model:
- A shrinking count also resets the stall counter, because line 29 tests equality. `Attempts` states this.
- The threshold is exactly 3 (`max_attempts`, line 21).
- `find(string="Sold")` matches a whole text node, so an item reading "Sold out" is still listed. `SoldMarkerIsExact` states this.

## Model

| member | source | states |
|---|---|---|
| `FeedConvergence.Attempts` | download_from_depop.py:29-32 | the stall counter after a round is 0 exactly when that round's count differs from the previous count (grown or shrunk), and never exceeds the number of rounds |
| `FeedConvergence.AttemptsIsStallRun` | download_from_depop.py:29-36 | the counter is at least m exactly when the last m rounds each sampled the same count as the round before, so reaching 3 means three consecutive unchanged samples |
| `FeedConvergence.AttemptsGrowAfterStable` | download_from_depop.py:23-36 | once the counts are constant from round k on, the counter after round i > k is at least i − k |
| `FeedConvergence.SettlesThreeRoundsAfterLastChange` | download_from_depop.py:21-36 | if the count changes at round k and then stays constant, and the loop has not stopped before k, the loop stops at round k + 3 and at no earlier round |
| `FeedConvergence.ExitRoundIsUnique` | download_from_depop.py:35-36 | only one round can be the first at which the counter reaches 3 |
| `FeedConvergence.StableFeedExitsBy` | download_from_depop.py:21-36 | when the counts stay the same from round k on, the loop stops by round k + 3, and exactly at round k + 3 (k + 4 scrolls) when the count changed at k and the loop was still running |
| `FeedConvergence.StableFeedLoads` | download_from_depop.py:21-36 | counts that stay the same from round k on bring the counter to 3 by round k + 3, so such a feed meets the loader's requirement |
| `FeedConvergence.LoadProducts` | download_from_depop.py:8-40 | no anchor means the empty snapshot, without scrolling; otherwise the loop stops at the first round where the counter reaches 3, whichever later samples follow, after at least 3 rounds whose last 3 samples equal their predecessors |
| `Search.Find` | extension/src/content.js:209-212 | the answer is the index of the first element passing the test, or None exactly when no element passes |
| `Ascii.ToUpperAt` | extension/src/content.js:207-210 | upper-casing changes each character in place, leaves no lower-case letter and changes nothing but case |
| `Ascii.ToLowerAt` | extension/src/content.js:169 | lower-casing changes each character in place, leaves no upper-case letter and changes nothing but case |
| `Ascii.ToUpperOfToLower` | extension/src/content.js:207-211 | upper-casing a lower-cased string equals upper-casing the original |
| `Ascii.TrimIsSlice` | extension/src/content.js:210 | trimming yields a contiguous slice with only white space cut on either side, which neither starts nor ends with white space |
| `Ascii.ContainsIffOccurs` | extension/src/content.js:235 | `includes` holds exactly when the needle occurs at some position of the text |
| `ListingExtraction.ProductHref` | download_from_depop.py:89-91 | the href chosen is the first of the item's hrefs, in document order, that contains "/products/"; there is none exactly when no href of the item contains it |
| `ListingExtraction.Link` | download_from_depop.py:84-92 | an item contributes a URL exactly when it has no "Sold" text node and has a product anchor, and that URL is its first product href resolved against https://www.depop.com |
| `ListingExtraction.CollectHasNoDuplicates` | download_from_depop.py:94-98 | the collected list never holds the same URL twice |
| `ListingExtraction.CollectHasEveryLink` | download_from_depop.py:94-98 | a URL is collected exactly when it is one of the walked links |
| `ListingExtraction.CollectInFirstOccurrenceOrder` | download_from_depop.py:84-98 | of two collected URLs, the one listed first first occurs strictly earlier among the links |
| `ListingExtraction.CollectIgnoresCollectedLinks` | download_from_depop.py:94-98 | walking links that were all collected already leaves the list unchanged |
| `ListingExtraction.ListingsAreTheLinks` | download_from_depop.py:84-98 | a URL is listed exactly when some unsold item with a product anchor resolves to it; sold and link-less items contribute nothing |
| `ListingExtraction.ListingsInFirstOccurrenceOrder` | download_from_depop.py:84-98 | the list is in document order of first occurrence of each URL |
| `ListingExtraction.RescanAddsNothing` | download_from_depop.py:80-98 | walking the same items twice in a row gives the same list as walking them once |
| `ListingExtraction.SoldMarkerIsExact` | download_from_depop.py:86-87 | an item whose text reads "Sold out" is still listed, one with a text node "Sold" is not |
| `ListingExtraction.ExtractListings` | download_from_depop.py:80-98 | the for-loop with the `seen` set returns exactly the deduplicated list of links; its invariant keeps `seen` equal to the set of URLs appended so far |
| `ListingExtraction.ResultEmptyIff` | download_from_depop.py:68-101 | the result is [] exactly when the profile is invalid, the feed is empty, or no item is unsold with a product anchor |
| `ListingExtraction.FetchListings` | download_from_depop.py:42-104 | the profile check, loader and extraction together return [] for an invalid profile or empty feed and otherwise the deduplicated list of the snapshot; the feed must reach the stop condition only when the loader scrolls |
| `VintedForm.TargetCondition` | extension/src/content.js:20-26 | the target is always one of the five Vinted labels; a mapped condition gives its map entry, and the default "New with tags" arises exactly for "Brand new" or an unmapped condition |
| `VintedForm.ConditionMapIsBijective` | extension/src/content.js:20-26 | the map sends distinct Depop conditions to distinct Vinted conditions and covers all five Vinted labels |
| `VintedForm.ChooseSize` | extension/src/content.js:206-220 | the first option whose trimmed upper-cased text equals the upper-cased size or starts with it plus " /" is chosen; if none matches, the first "other" option; if neither exists, nothing |
| `VintedForm.ChooseSizeIgnoresCase` | extension/src/content.js:207-211 | the case of the listing's size does not change the choice |
| `VintedForm.ChooseCondition` | extension/src/content.js:231-238 | the first option whose text contains the mapped target condition is chosen, and nothing exactly when no option contains it |
| `VintedForm.FindBrandSuggestion` | extension/src/content.js:165-174 | `brandFound` holds exactly when some suggestion's trimmed lower-cased text equals the lower-cased brand, and then the first such suggestion is clicked |
| `VintedForm.BrandChoiceFor` | extension/src/content.js:165-188 | a matching suggestion is used when one exists, and then the first one; otherwise a throwing selector ends the step, else the first element labelled exactly with the brand, else the custom-brand entry when present, else nothing |
| `VintedForm.SelectBrand` | extension/src/content.js:165-188 | the suggestion loop and fallbacks make exactly the choice `BrandChoiceFor` describes |
| `VintedForm.ClickColours` | extension/src/content.js:249-253 | exactly the first min(n, 2) suggested colours are clicked, in order |
| `VintedForm.FillDropdowns` | extension/src/content.js:158-254 | a step whose input is missing clicks nothing; the brand step makes the `BrandChoiceFor` choice, and the size, condition and colour steps make their own choices from their own options unless the brand selector threw, in which case none of them runs |
| `VintedForm.SlowTypeInputValue` | extension/src/content.js:266-281 | starting from "", the value after the k-th typed character is the first k characters, and at the end it equals the whole value; a missing input is left alone |

## Left out

- Playwright is not modelled: the browser launch, the context, the user agent and the anti-detection flags, `page.goto`, `page.evaluate`, `wait_for_timeout`, `page.content()` and the closing of the browser (download_from_depop.py:47-75). These are browser I/O. They appear only as the parameters named above.
- BeautifulSoup parsing and CSS selector semantics are not modelled. Each list item is an abstract `Item` record.
- `urljoin` (reference resolution, section 5.2 of RFC 3986) is an uninterpreted parameter.
- `save_depop_products` and `main` are not modelled: they are file output and the stdin prompt. Neither are the `print` lines.
- FeedConvergence.LoadProducts: requires some round to bring the stall counter to 3. When no round ever does (the count changes at least once in every three rounds, forever), the source's `while True` scrolls forever, and Dafny cannot state a loop that does not terminate.
- VintedForm.TargetCondition: a condition that names an `Object.prototype` member (such as "constructor") makes the JavaScript lookup return a truthy function instead of the default. The model treats every key outside the five as unmapped.
- VintedForm.BrandChoiceFor: the brand is inserted unescaped into the `aria-label` selector. Whether `querySelector` throws on it is the input `selectorThrows`; CSS selector parsing is not modelled. When the selector is valid but different from the intended one (a brand with `"` or `\` that still parses), the model still compares labels with the brand literally.
- VintedForm.FillDropdowns: when the brand selector throws, the exception also leaves `fillForm` and is caught at content.js:318-319, so the price is never typed. `fillForm` is not modelled, so this skip of `SlowTypeInputValue` is stated here only.
- Only ASCII text is modelled. `trim` removes the six ASCII white-space characters, and case conversion maps only `a`–`z` and `A`–`Z`. Unicode white space and case folding are not modelled.
- The browser side of content.js is not modelled: the status overlay (39-89), input blocking (91-112), image upload (125-145), clicks, event dispatch, `scrollIntoView`, `sleep` and the polling in `waitForElement` (30-37), and the URL check (312-324). The hard-coded `data` listing becomes a parameter.
- The category step (150-155) and the authenticity modal (114-123, 194-197) are not modelled. Each clicks the one element it finds and makes no choice among options.
- `setInputValue` and the upload-button check in `fillForm` (257-264, 283-310) are not modelled. They assign or read a single value and make no selection.
- The Chrome message relays (extension/src/background/index.ts and extension/src/content-scripts/depop/index.ts) are not modelled. They only forward a message and its response.
- The per-listing detail extractor is not part of this model: no shown source file contains it.
