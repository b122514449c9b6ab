# Buying-list price engine, modelled in Dafny

This project models the two in-memory cores of a shopping-list plugin in
Dafny 4.11 and proves properties of the model.

The first core is the price service (`src/services/PriceService.ts`). It
reads prices out of product pages: it turns Arabic-Indic digits into
Western ones, disambiguates thousands separators from decimal marks,
matches a fixed list of price patterns, scores candidates by the words
around them, and walks a cascade of selectors over the page. It then
commits a new price to a tracked website, keeps a bounded price history,
fires one-shot price alerts, and derives comparisons, statistics and a
buying recommendation from the stored data.

The second core is the data service (`src/services/DataService.ts`): the
store of items, categories and settings, with its filters and sorts, its
field merges, its guarded category delete and its reordering.

The records of `src/models/ShoppingItem.ts` and `src/models/Category.ts`
are datatypes in `models.dfy` and `store.dfy`.

Layout, one module per file:

- `text.dfy` (`Text`): the string operations the source uses (`replace`,
  `indexOf`, `lastIndexOf`, `includes`, `trim`, ASCII `toLowerCase`,
  character classes).
- `lists.dfy` (`Lists`): `filter`, `slice(-n)` and a flat map.
- `arith.dfy` (`Arith`): minimum, maximum, sums, `Math.round(x*100)/100`.
- `sorting.dfy` (`Sorting`): the stable `Array.prototype.sort` on a real
  key, proved sorted, a permutation and stable.
- `models.dfy` (`Models`): websites, history entries, alerts, items and
  categories, and `find`/`findIndex` over them.
- `number_format.dfy` (`NumberFormat`): `convertArabicNumerals`,
  `normalizeNumber` and `parseFloat` on the text that reaches it.
- `price_patterns.dfy` (`PricePatterns`): the seven price patterns as
  hand-written recognisers and the global `match` scan.
- `match_reading.dfy` (`MatchReading`): what each pattern's matches read
  as.
- `price_parsing.dfy` (`PriceParsing`): `parsePrice`.
- `confidence.dfy` (`Confidence`): `getSurroundingText` and
  `calculatePriceConfidence`.
- `text_scan.dfy` (`TextScan`): `extractPriceFromText`.
- `dom.dfy` (`Dom`): the parsed page and `findElementsBySelector`.
- `extraction.dfy` (`Extraction`): the `extractFrom*` methods,
  `tryExtractWithSelector` and `extractPriceFromHtml`.
- `alerts.dfy` (`Alerts`): `checkPriceAlerts`.
- `price_update.dfy` (`PriceUpdate`): the commit path of
  `updateWebsitePrice` and `manualPriceUpdate`.
- `insights.dfy` (`Insights`): `getPriceComparison`, `getPriceHistory`,
  `getPriceStatistics` and `getBuyingRecommendation`.
- `queries.dfy` (`Queries`): `getLowestPrice`, the filters and sort of
  `getItems`, and `getCategories`.
- `store.dfy` (`Store`): the `DataService` class.

The code with loops or in-place updates is imperative Dafny. Each method
is proved equal to a specification function, and the properties are
proved about that function. This covers:

- the pattern and keyword loops;
- the element, attribute and selector loops;
- the deduplicating pushes of `findElementsBySelector`;
- the alert loop;
- the store's mutations.

`DataService` is a class whose `data` field its methods replace. The
price service's own fields only drive the timer, so its operations take
the `DataService` object as a parameter.

Where the intended design and the code differ, the model follows the
code:

- The document scan of `extractPriceFromText` collects candidates from
  every pattern. It does not stop at the first pattern that gives one
  (src/services/PriceService.ts:552-566). `parsePrice` does stop there
  (line 714).
- `normalizeNumber` tries the strict European, US and space-grouped
  forms before the "last separator wins" rule. It deletes all whitespace
  first, so the space-grouped rule can never fire
  (`NumberFormat.SpaceRuleUnreachable`).
- `normalizeNumber` returns `"0"` for empty input rather than failing.
  Text without digits reaches `parseFloat` and becomes NaN, which
  `parsePrice` drops.
- `manualPriceUpdate` appends to the history without the 100-entry trim,
  and it does not check alerts (lines 998-1024).
- `updateWebsitePrice` hands only `websites` and `priceHistory` to
  `updateItem`. The alerts switched off by `checkPriceAlerts` are the
  store's own objects, so they change too, and the model writes them back
  explicitly.

## Model

| member | source | states |
|---|---|---|
| Models.FindBy | src/services/DataService.ts:123-125 | the position of the first element with the id, or none when no element has it; `FindWebsite` (the `find` at PriceService.ts:160), `FindItem` and `FindCategory` (the `findIndex` at DataService.ts:287-289) are this search by id |
| NumberFormat.ConvertArabicNumerals | src/services/PriceService.ts:738-744 | the ten global replacements map each Arabic-Indic digit to its Western digit one for one and leave every other character, keeping the length |
| NumberFormat.WesternizeIdempotent | src/services/PriceService.ts:738-744 | converting a second time changes nothing |
| NumberFormat.NormalizeIgnoresWhitespace | src/services/PriceService.ts:749-750 | for text with at least one character that is not whitespace, normalising the text and normalising it with its whitespace deleted give the same result |
| NumberFormat.NormalizeWhitespaceOnly | src/services/PriceService.ts:747-750 | text made only of whitespace passes the empty-string test and normalises to the empty string, not to "0" |
| NumberFormat.SpaceRuleUnreachable | src/services/PriceService.ts:768-771 | without whitespace, every string of the space-grouped form already has the European or the US form, so that rule never fires |
| NumberFormat.NormalizeArabicOnce | src/services/PriceService.ts:752-759 | when the Arabic decimal mark occurs once, the commas and dots before it are deleted and it becomes the point |
| NumberFormat.NormalizeArabicRepeated | src/services/PriceService.ts:752-759 | when the Arabic mark occurs twice or more, no rule rewrites the text; only its whitespace goes |
| NumberFormat.NormalizeWithoutComma | src/services/PriceService.ts:746-800 | text with neither a comma nor an Arabic mark comes back with only its whitespace deleted |
| NumberFormat.NormalizeCommasOnly | src/services/PriceService.ts:760-797 | with commas and no dot, whichever rule fires: the first comma becomes the point when one or two digits follow the last comma; otherwise all commas go |
| NumberFormat.NormalizeBothSeparators | src/services/PriceService.ts:760-784 | with both separators, whichever rule fires, the later one is the decimal point and the other separator is deleted |
| NumberFormat.NormalizeKeepsDigits | src/services/PriceService.ts:746-800 | normalisation never adds, drops or reorders a digit |
| NumberFormat.NormalizeRendered | src/services/PriceService.ts:746-800 | a price written in the US, European, Arabic-decimal or space-grouped style (with or without grouping) normalises to the plain decimal |
| NumberFormat.RenderedValue | src/services/PriceService.ts:707-708 | every supported style then reads as the same price under `parseFloat` |
| NumberFormat.NormalizeInteger | src/services/PriceService.ts:746-800 | a bare integer is left as it is and reads as its value |
| NumberFormat.GroupShape | src/services/PriceService.ts:761-769 | digits rendered in groups of three have the grouped shape the anchored patterns test |
| NumberFormat.GroupRemove | src/services/PriceService.ts:756-770 | deleting the group separators gives back the digits |
| PricePatterns.GroupsEnd | src/services/PriceService.ts:45-51 | the greedy repetition of separator-plus-three-digit groups stops within the text |
| PricePatterns.CentsMatch | src/services/PriceService.ts:45-49 | a match of a cents pattern ends after its start and within the text |
| PricePatterns.MatchAt | src/services/PriceService.ts:43-58 | a match of any pattern at a position ends after it and within the text |
| PricePatterns.SimpleDecimalEnd | src/services/PriceService.ts:53 | a match of the simple-decimal pattern ends after its start and within the text |
| PricePatterns.CentsMatchExact | src/services/PriceService.ts:45-49 | a cents pattern matches at a position exactly where the recogniser says, and at one end only |
| PricePatterns.ThousandsExact | src/services/PriceService.ts:51 | the thousands pattern matches a piece exactly when it is one to three digits followed by whole separator-and-three-digit groups |
| PricePatterns.MatchAtLongest | src/services/PriceService.ts:43-58 | the recogniser finds the longest prefix with the pattern's shape, and nothing exactly when no prefix has it |
| PricePatterns.ScanForms | src/services/PriceService.ts:552-553 | every match the global scan reports has the pattern's shape |
| PricePatterns.ScanEmpty | src/services/PriceService.ts:704-705 | the scan finds nothing (the null of `match`) exactly when no piece of the text has the pattern's shape |
| MatchReading.DotCentsValue | src/services/PriceService.ts:705-708 | a match of the dot-cents pattern reads as its digits with the last two as cents |
| MatchReading.ArabicCentsValue | src/services/PriceService.ts:705-708 | a match of the Arabic-cents pattern reads as its digits with the last two as cents |
| MatchReading.CommaCentsValue | src/services/PriceService.ts:705-708 | a match of the comma-cents pattern reads as its digits with the last two as cents |
| MatchReading.ThousandsValue | src/services/PriceService.ts:705-708 | a thousands match without a dot reads as its digits: the comma is a thousands separator |
| MatchReading.SimpleDecimalValue | src/services/PriceService.ts:705-708 | a simple decimal reads as its integer part plus its decimals, whichever mark it uses |
| MatchReading.IntegerValue | src/services/PriceService.ts:705-708 | matches of the two integer patterns read as their digits |
| PriceParsing.Blank | src/services/PriceService.ts:698 | every character other than a digit, a separator or whitespace becomes a space, and the length stays |
| PriceParsing.CandidatesBounds | src/services/PriceService.ts:706-712 | every number kept from a pattern's matches is above 0 and at most 1000000 |
| PriceParsing.Choose | src/services/PriceService.ts:718-735 | a value chosen is one of the candidates and lies in [0.01, 100000] |
| PriceParsing.ParsePriceOf | src/services/PriceService.ts:691-736 | empty text gives null, and a price returned lies in [0.01, 100000] |
| PriceParsing.ReadPlausible | src/services/PriceService.ts:707-711 | one match gives a number exactly when the number it is read as is above 0 and at most 1000000, and then gives that number alone |
| PriceParsing.PlausibleNumbers | src/services/PriceService.ts:706-712 | the inner loop keeps exactly the plausible numbers of the matches, in match order |
| PriceParsing.ChoosePrice | src/services/PriceService.ts:718-735 | a price is returned exactly when some candidate is reasonable; it is a reasonable candidate, no reasonable candidate of the same or a preferred precision is larger, and a whole or two-decimal one is chosen whenever several are reasonable and one of them is |
| PriceParsing.ParsePrice | src/services/PriceService.ts:691-736 | the two loops with the early break compute `ParsePriceOf` |
| PriceParsing.FirstCandidatesIsFirst | src/services/PriceService.ts:703-716 | the numbers used are those of the first pattern that gives any, and every earlier pattern gives none |
| PriceParsing.FirstCandidatesEmpty | src/services/PriceService.ts:703-718 | there is nothing to choose from exactly when no pattern gives a number |
| PriceParsing.ChooseIsPreferredMax | src/services/PriceService.ts:718-735 | a price is found exactly when some candidate is reasonable; it is the largest reasonable one among those at least as precise, and precise whenever there are several reasonable candidates and one of them is precise |
| PriceParsing.ParsePriceFromFirstPattern | src/services/PriceService.ts:703-735 | the price returned is a candidate of the first pattern that gives one on the cleaned text |
| PriceParsing.ParsePriceDigitSystem | src/services/PriceService.ts:694-695 | text written with Arabic-Indic digits parses to the same price as its Western form |
| Confidence.SurroundingWindow | src/services/PriceService.ts:626-637 | the window is empty when the target is absent; otherwise it holds the first occurrence of the target with up to 50 characters of the text on each side, and nothing else |
| Confidence.WindowAround | src/services/PriceService.ts:634-636 | the clamped start and end of the window bracket the occurrence of the target |
| Confidence.KeywordHits | src/services/PriceService.ts:608-612 | at most one point is counted per keyword |
| Confidence.KeywordHitsNone | src/services/PriceService.ts:608-612 | no keyword is counted exactly when none occurs in the window, ignoring case |
| Confidence.KeywordHitsAll | src/services/PriceService.ts:608-612 | every keyword is counted exactly when all of them occur |
| Confidence.HasUsCentsIff | src/services/PriceService.ts:615 | the unanchored comma-grouped cents test holds exactly when some piece of the text has that form |
| Confidence.EndsWithCentsIff | src/services/PriceService.ts:616 | the anchored test holds exactly when the text ends in digits, a dot and two digits |
| Confidence.Clamp | src/services/PriceService.ts:623 | the score is clamped into [0, 100] and unchanged inside it |
| Confidence.PriceConfidence | src/services/PriceService.ts:580-624 | the confidence always lies in [0, 100] |
| Confidence.RawConfidenceRange | src/services/PriceService.ts:584-621 | the raw score is 30 to 90 points above 15 per keyword found, and so between 30 and 90 + 15 × 17 |
| Confidence.ManyKeywordsFullConfidence | src/services/PriceService.ts:580-624 | five or more keywords near the price give full confidence, however the price is written |
| Confidence.CalculatePriceConfidence | src/services/PriceService.ts:580-624 | the keyword loop computes `PriceConfidence`, a value in [0, 100] |
| TextScan.CandidateOfFacts | src/services/PriceService.ts:555-563 | a match gives at most one candidate, carrying the match's text |
| TextScan.MatchCandidatesFacts | src/services/PriceService.ts:555-564 | one pattern's matches give at most one candidate each, and every candidate comes from one of them |
| TextScan.PatternCandidatesFacts | src/services/PriceService.ts:552-566 | every candidate comes from a match of one of the patterns |
| TextScan.CollectMatches | src/services/PriceService.ts:555-564 | the inner loop appends exactly the candidates of the matches, in order |
| TextScan.ScanMatch | src/services/PriceService.ts:556-563 | one match is parsed, kept when in [0.01, 1000000], and scored |
| TextScan.ExtractPriceFromText | src/services/PriceService.ts:544-578 | the loops and the sort by descending confidence compute `ExtractPriceFromTextOf` |
| TextScan.EveryPatternScanned | src/services/PriceService.ts:552-566 | every accepted match of every pattern is a candidate: the scan does not stop at the first pattern |
| TextScan.PatternScanned | src/services/PriceService.ts:552-566 | the candidates of any pattern's match are among the candidates of the scan |
| TextScan.MatchScanned | src/services/PriceService.ts:555-564 | the candidates of any match are among its pattern's candidates |
| TextScan.MatchCandidatesFlat | src/services/PriceService.ts:555-564 | the candidates of the matches are the candidates of each match, one after another |
| TextScan.ExtractPriceFromTextBest | src/services/PriceService.ts:568-577 | null exactly when there is no candidate; otherwise the price and text of a candidate with the highest confidence, with no earlier candidate scoring as high (the stable sort keeps the first) |
| TextScan.ExtractPriceFromTextSound | src/services/PriceService.ts:552-577 | the price found is what `parsePrice` reads from a match of one of the patterns, and lies in [0.01, 100000] |
| Dom.WhereBelow | src/services/PriceService.ts:432-444 | the positions below a bound of the elements that satisfy a test, in document order |
| Dom.Where | src/services/PriceService.ts:432-444 | the positions of all elements that satisfy a test, in document order, each once |
| Dom.WhereFirst | src/services/PriceService.ts:424 | the first position found is the first element in document order that satisfies the test |
| Dom.WhereNone | src/services/PriceService.ts:424 | nothing is found exactly when no element satisfies the test |
| Dom.ElementById | src/services/PriceService.ts:424 | `getElementById` gives the first element with the id, none when no element has it, and nothing for an empty id |
| Dom.NonBracketRun | src/services/PriceService.ts:452 | the run of characters other than `]` that the attribute pattern consumes |
| Dom.AttrQueryFrom | src/services/PriceService.ts:452-454 | the group of `/\[([^\]]+)\]/` is non-empty and holds no `]` |
| Dom.AttrQueryFirst | src/services/PriceService.ts:452-454 | the group is the inside of the first `[`, one or more characters other than `]`, `]` in the selector, and there is none exactly when no such bracket pair occurs |
| Dom.AttrQueryEnclosed | src/services/PriceService.ts:452-454 | the attribute query is a piece of the selector opened by `[` and closed by `]` |
| Dom.AppendNewFacts | src/services/PriceService.ts:425-459 | pushing only missing elements keeps the list in front, never repeats an element, and holds exactly the elements of both lists |
| Dom.AppendNewPresent | src/services/PriceService.ts:425-459 | pushing elements that are all present changes nothing |
| Dom.AppendNewOne | src/services/PriceService.ts:425-427 | one element is pushed exactly when it is missing |
| Dom.PushNew | src/services/PriceService.ts:433-435 | the `forEach` with the `includes` check computes `AppendNew` |
| Dom.FindElementsFacts | src/services/PriceService.ts:411-465 | no element is returned twice, the CSS engine's results come first, and exactly the elements that an applicable id, class, tag or attribute lookup finds are added |
| Dom.ChainFacts | src/services/PriceService.ts:422-462 | the four lookup stages one after another keep the first list in front, repeat nothing and hold exactly the elements of the stages that apply |
| Dom.FindElementsInRange | src/services/PriceService.ts:411-465 | every element returned is an element of the page |
| Dom.FindElementsBySelector | src/services/PriceService.ts:411-465 | the method with its pushes computes `FindElementsOf` |
| Dom.AddById | src/services/PriceService.ts:423-428 | the list found so far is kept in front, at most one element is added, no element is repeated, and the elements afterwards are exactly the earlier ones plus, for a `#` selector, the first element with that id |
| Dom.AddByClass | src/services/PriceService.ts:431-436 | the class step computes its stage |
| Dom.AddByTag | src/services/PriceService.ts:439-448 | the tag step computes its stage |
| Dom.AddByAttribute | src/services/PriceService.ts:451-462 | the attribute step computes its stage |
| Extraction.FirstSomeFacts | src/services/PriceService.ts:393-402 | a first-success search gives nothing exactly when every try fails, and otherwise the result of the first try that succeeds |
| Extraction.Positions | src/services/PriceService.ts:500-502 | the positions that satisfy a test, increasing, each once |
| Extraction.AttributesHitFirst | src/services/PriceService.ts:467-481 | the hit is the first price attribute whose value parses, reported as `[attr="value"]`, and none exactly when no attribute value parses |
| Extraction.PriceChildrenFacts | src/services/PriceService.ts:500-502 | the price-like elements inside an element, in document order, each once |
| Extraction.ChildrenHitFirst | src/services/PriceService.ts:495-519 | the hit comes from the first price-like descendant whose text or attributes hold a price, and none exactly when none does |
| Extraction.PreviousFrom | src/services/PriceService.ts:527 | the last sibling before a position |
| Extraction.NextFrom | src/services/PriceService.ts:528 | the first sibling from a position on |
| Extraction.PreviousSibling | src/services/PriceService.ts:527 | `previousElementSibling` is the nearest earlier element with the same parent |
| Extraction.NextSibling | src/services/PriceService.ts:528 | `nextElementSibling` is the nearest later element with the same parent |
| Extraction.NearestBeforeUnique | src/services/PriceService.ts:527 | there is at most one nearest earlier sibling |
| Extraction.SiblingsHitFrom | src/services/PriceService.ts:521-542 | the hit comes from the text of the previous sibling or, failing that, of the next one; no other element is read |
| Extraction.ElementHitOrder | src/services/PriceService.ts:386-402 | an element yields nothing exactly when all four extractors fail; otherwise it yields what the first extractor that succeeds yields, in the order attributes, text, children, siblings |
| Extraction.ElementHitRead | src/services/PriceService.ts:386-402 | what an element yields is read by `parsePrice` from some text |
| Extraction.TryExtractFirst | src/services/PriceService.ts:373-409 | a selector's price comes from the first element it finds that yields one, and it finds none exactly when no element yields one |
| Extraction.TryExtractRead | src/services/PriceService.ts:373-409 | what a selector yields is read by `parsePrice` from some text |
| Extraction.SelectorsHitFirst | src/services/PriceService.ts:321-341 | the selector reported is the first of the list that finds a price, with the price it finds |
| Extraction.SelectorHitRead | src/services/PriceService.ts:321-341 | what a list of selectors yields is read by `parsePrice` from some text |
| Extraction.UserSelectorFirst | src/services/PriceService.ts:321-329 | when a user selector finds a price, the result is that of the first such selector, under its own name, before any common selector is tried |
| Extraction.CommonSelectorFirst | src/services/PriceService.ts:331-341 | otherwise, when a common selector finds a price, the result is that of the first one, reported as "common: " plus the selector |
| Extraction.FallbackScan | src/services/PriceService.ts:343-360 | when no selector finds a price, the body text scan decides: its price, labelled "fallback: document scan", or failure with the error, no price and at most 200 characters of the body text followed by "..." |
| Extraction.CascadeSuccessIffPrice | src/services/PriceService.ts:320-360 | the result succeeds exactly when it has a price, and then carries its text and the stage that found it but no error; a failure carries the error and no stage |
| Extraction.ExtractPriceFromHtmlRange | src/services/PriceService.ts:299-360 | on a page, a price found is one `parsePrice` reads from some text and lies in [0.01, 100000], whichever stage found it |
| Extraction.ExtractFromAttributes | src/services/PriceService.ts:467-481 | the attribute loop computes `AttributesHit` |
| Extraction.ExtractFromText | src/services/PriceService.ts:483-493 | with `parsePrice` as the reader, an empty text yields nothing, and a price found lies in [0.01, 100000] and is reported with the text trimmed |
| Extraction.ExtractFromChildElements | src/services/PriceService.ts:495-519 | the loop over price-like children computes `ChildrenHit` |
| Extraction.ExtractFromSiblings | src/services/PriceService.ts:521-542 | a price found comes from the text of the nearest earlier sibling, or, when there is none or its text holds no price, from the text of the nearest later sibling; no other element is read |
| Extraction.ExtractFromElement | src/services/PriceService.ts:386-402 | the loop over the four extractors computes `ElementHit` |
| Extraction.TryExtractWithSelector | src/services/PriceService.ts:373-409 | the loop over the elements found computes `TryExtractOf` |
| Extraction.TrySelectors | src/services/PriceService.ts:321-341 | the loop over one list of selectors computes `SelectorsHit` |
| Extraction.RunCascade | src/services/PriceService.ts:320-360 | the body of `extractPriceFromHtml` on a parsed page computes `Cascade` |
| Extraction.ExtractPriceFromHtml | src/services/PriceService.ts:299-360 | with the source's reader, attributes and common selectors, it computes `ExtractPriceFromHtmlOf` |
| Alerts.Deactivated | src/services/PriceService.ts:823-857 | the alert list keeps its length, and each alert is the alert after the check |
| Alerts.DeactivatedExactly | src/services/PriceService.ts:823-857 | exactly the active alerts of the website whose condition holds are switched off; every other alert is unchanged |
| Alerts.CheckIsOneShot | src/services/PriceService.ts:854-855 | checking the same price again switches nothing off, and no alert still fires |
| Alerts.CheckPriceAlerts | src/services/PriceService.ts:818-858 | the loop computes `Deactivated`, and notices are asked for exactly the alerts that fire, in order, when notifications are enabled |
| PriceUpdate.TrimHistoryFacts | src/services/PriceService.ts:183-193 | after the push and the trim, the website's entries come first and number at most 100; they are its most recent ones in order, ending with the new entry; every other website's entries are kept in order |
| PriceUpdate.PushEntry | src/services/PriceService.ts:183 | pushing an entry adds it to its own website's entries only |
| PriceUpdate.CommittedFacts | src/services/PriceService.ts:168-206 | a commit changes only that website's price and stamp, bounds its history, switches off exactly the alerts that fire, and leaves every other field alone |
| PriceUpdate.UpdateWebsitePrice | src/services/PriceService.ts:151-224 | an unknown item or website is reported and changes nothing; a successful scrape with a new price commits it and reports it; any other scrape changes nothing and reports the current price |
| PriceUpdate.ManualPriceUpdate | src/services/PriceService.ts:998-1024 | an unknown item or website changes nothing; otherwise the website takes the price and stamp and the history gains the entry, untrimmed, and the alerts are left alone |
| Insights.PricedEntriesMembers | src/services/PriceService.ts:906-917 | the comparison's entries are exactly those of the active websites that have a price |
| Insights.ComparisonShape | src/services/PriceService.ts:906-920 | the comparison is null exactly when no active website has a price; otherwise it lists each such website once, cheapest first, keeping website order on ties |
| Insights.SortedEnds | src/services/PriceService.ts:922-923 | the first and last entries of the sorted list bound every price |
| Insights.ComparisonBest | src/services/PriceService.ts:922-933 | the best price is the first entry, the first cheapest website in website order, and the savings are last minus first, never negative |
| Insights.ComparisonBounds | src/services/PriceService.ts:918-931 | every listed price lies between the best price and the best price plus the savings |
| Insights.ComparisonAttained | src/services/PriceService.ts:922-931 | both bounds are prices of listed websites, the lower one of the website the best price names |
| Insights.AttainedFrom | src/services/PriceService.ts:922-923 | the first and last entries name listed websites and their prices |
| Insights.EntryListed | src/services/PriceService.ts:911-917 | an entry names a listed website and its price |
| Insights.HistoryFacts | src/services/PriceService.ts:944-953 | the history holds exactly the entries of the website (or of all websites) stamped no earlier than the cutoff, each as often as stored, oldest first, with equal stamps in stored order |
| Insights.StatisticsBounds | src/services/PriceService.ts:967-994 | null exactly for an empty history; otherwise the current price is the newest one, the lowest and highest are history prices bounding all of them, the rounded average is within half a cent of the mean they bound, and the change is the rounded last-step change |
| Insights.Scaled | src/services/PriceService.ts:1056-1059 | for a positive base, a ratio in percent compared with a bound is the difference compared with that share of the base |
| Insights.StatisticsTrend | src/services/PriceService.ts:980-985 | with a positive previous price the trend is up exactly above +1%, down exactly below −1%, otherwise stable; with no positive previous price (a single entry included) the trend is stable and the change 0 |
| Insights.NameOf | src/services/PriceService.ts:1083-1085 | the name of the first entry of the website, none when the website is not listed |
| Insights.RecommendationRules | src/services/PriceService.ts:1043-1077 | without statistics it is uncertain with confidence 0; otherwise buy/85, buy/75, wait/70 or uncertain/50 in that rule order, and never a buy on a rising trend |
| Insights.RulesInPrices | src/services/PriceService.ts:1056-1077 | with positive lowest and average prices, the rules are price bounds: 105% of the lowest, 90% and 115% of the average |
| Insights.ZeroLowest | src/services/PriceService.ts:1056-1061 | a zero lowest price makes the first ratio infinite or NaN, so the rule fails unless the current price is negative |
| Insights.ZeroLowestFromHistory | src/services/PriceService.ts:1056-1061 | for statistics from a history, a zero lowest price never triggers the first rule |
| Insights.RecommendedWebsite | src/services/PriceService.ts:1079-1085 | with statistics, the website named is the cheapest in the comparison |
| Insights.GetPriceComparison | src/services/PriceService.ts:902-934 | null for an unknown item or one with no active priced website; otherwise a comparison for that item |
| Insights.GetPriceHistory | src/services/PriceService.ts:936-954 | empty for an unknown item; otherwise exactly the entries in the window, oldest first |
| Insights.GetPriceStatistics | src/services/PriceService.ts:956-968 | null exactly when the website's last-30-days history is empty |
| Insights.GetBuyingRecommendation | src/services/PriceService.ts:1027-1087 | null exactly when there is no comparison; otherwise the decision on the statistics of the best website, naming the cheapest website when there are statistics |
| Queries.CurrentPricesMembers | src/services/DataService.ts:259-261 | the prices gathered are exactly the websites' current prices |
| Queries.CurrentPriceListed | src/services/DataService.ts:259-261 | a website's current price is among the prices gathered |
| Queries.LowestPriceIsMin | src/services/DataService.ts:258-264 | null exactly when no website has a price; otherwise one of the prices, and no price is lower |
| Queries.FilterCategoryIdsKeeps | src/services/DataService.ts:164-168 | the category filter keeps exactly the items it accepts, in order |
| Queries.FilterStatusKeeps | src/services/DataService.ts:170-174 | the status filter keeps exactly the items it accepts, in order |
| Queries.FilterPriorityKeeps | src/services/DataService.ts:176-180 | the priority filter keeps exactly the items it accepts, in order |
| Queries.FilterPriceRangeKeeps | src/services/DataService.ts:182-193 | the price-range filter keeps exactly the items it accepts, in order |
| Queries.FilterTagsKeeps | src/services/DataService.ts:195-199 | the tag filter keeps exactly the items it accepts, in order |
| Queries.FilterSearchTermKeeps | src/services/DataService.ts:201-209 | the search filter keeps exactly the items it accepts, in order |
| Queries.ApplyFiltersExact | src/services/DataService.ts:163-210 | the filter chain keeps exactly the items that pass every filter that is set, in stored order |
| Queries.KeepChain | src/services/DataService.ts:163-210 | six filters in a row are one filter by their conjunction |
| Queries.GetItemsAll | src/services/DataService.ts:156-252 | without filter or sort every item comes back, in stored order |
| Queries.GetItemsFiltered | src/services/DataService.ts:156-211 | with a filter and no sort, exactly the items that pass every set filter come back, in stored order |
| Queries.GetItemsSorted | src/services/DataService.ts:213-250 | with a sort, the filtered items come back each as often as before, ordered by the field ascending or, for desc, descending, with equal items in filtered order |
| Queries.GetCategoriesOrdered | src/services/DataService.ts:316-318 | the categories come back by ascending order, each as often as stored, with equal orders in stored order |
| Sorting.SortBySorted | src/services/DataService.ts:152 | the stable sort orders by key and holds exactly the input's elements |
| Sorting.SortByMembers | src/services/DataService.ts:152 | the sorted list holds the same elements as the input |
| Sorting.SortByStable | src/services/DataService.ts:152 | elements with equal keys keep their relative order |
| Sorting.FirstMinIndex | src/services/PriceService.ts:918-922 | the position of the first element with the smallest key |
| Sorting.SortByHead | src/services/PriceService.ts:918-922 | the head of the sorted list is the first element with the smallest key |
| Arith.MinOfIsLeast | src/services/DataService.ts:263 | `Math.min` of a non-empty list is one of its values and lies below all of them |
| Arith.MaxOfIsGreatest | src/services/PriceService.ts:978 | `Math.max` of a non-empty list is one of its values and lies above all of them |
| Arith.MeanBetween | src/services/PriceService.ts:975-978 | the mean lies between the least and the greatest value |
| Arith.Round2 | src/services/PriceService.ts:989 | rounding to cents moves a value by at most half a cent |
| Arith.Round2Cents | src/services/PriceService.ts:989 | a value with at most two decimals is unchanged by rounding to cents |
| Store.MergeSettingsLaws | src/services/DataService.ts:325-333 | an empty update changes nothing, a complete one replaces everything, applying an update twice is applying it once, and two updates in a row are one update |
| Store.MergeItemLaws | src/services/DataService.ts:126-131 | an empty update only stamps the item, and applying the same update again changes only the stamp |
| Store.MergeCategoryLaws | src/services/DataService.ts:290-295 | an empty update only stamps the category, and applying the same update again changes only the stamp |
| Store.CategoryIdsDistinct | src/services/DataService.ts:49-50 | two default categories created at the same instant never share an id |
| Store.DefaultCategoriesFacts | src/services/DataService.ts:47-61 | all eight default categories, marked default, in declared order and with their declared orders, stamped now, with distinct ids |
| Store.LoadedDataFacts | src/services/DataService.ts:71-83 | a loaded file's fields override the defaults, missing settings take the default values, and an empty or missing category list is replaced by the defaults, so there are always categories |
| Store.LastPosition | src/services/DataService.ts:143-149 | the last occurrence of an id in the list |
| Store.ReassignSpec | src/services/DataService.ts:143-149 | after the `forEach`, the item `find` reaches through a listed id takes the position of that id's last occurrence as its order, and the stamp; every other item is unchanged |
| Store.ReorderedFacts | src/services/DataService.ts:141-154 | the reordered list holds the same items with their new orders, each as often as before, sorted by order |
| Store.DeletedCategoryGone | src/services/DataService.ts:310-312 | after a delete no category has the id, and every other category stays |
| Store.DataService.constructor | src/services/DataService.ts:27-45 | the store starts from the default data |
| Store.DataService.LoadData | src/services/DataService.ts:63-88 | a file that parsed is merged over the defaults; one that did not gives the defaults |
| Store.DataService.ImportData | src/services/DataService.ts:344-359 | text that does not parse leaves the store as it is and reports the error; otherwise the imported data is merged over the defaults |
| Store.DataService.AddItem | src/services/DataService.ts:102-117 | exactly one item is appended, with fresh id and stamps, and its order is the number of items before it |
| Store.DataService.UpdateItem | src/services/DataService.ts:119-134 | an absent id changes nothing; otherwise only the first item with the id changes, to its fields overridden by the update and stamped now |
| Store.DataService.DeleteItem | src/services/DataService.ts:136-139 | every item with the id goes, and the rest stay in order |
| Store.DataService.ReorderItems | src/services/DataService.ts:141-154 | the items become `Reordered`, as `ReassignSpec` and `ReorderedFacts` describe |
| Store.DataService.AddCategory | src/services/DataService.ts:267-281 | exactly one category is appended, with fresh id and stamps |
| Store.DataService.UpdateCategory | src/services/DataService.ts:283-298 | an absent id changes nothing; otherwise only the first category with the id changes, to its fields overridden and stamped now |
| Store.DataService.DeleteCategory | src/services/DataService.ts:300-314 | an absent or default category, or one that an item is filed under, stays; otherwise exactly the categories with that id go |
| Store.DataService.UpdateSettings | src/services/DataService.ts:325-333 | the settings are the old ones overridden by the fields given, and nothing else changes |

## Left out

- Network access: `scrapePrice` (the request, its headers, and the status and length checks) and `getRandomUserAgent` are left out. `UpdateWebsitePrice` receives the scrape's result as a parameter.
- Timers and concurrency: `startPriceMonitoring`, `stopPriceMonitoring` and the `Promise.allSettled` fan-out of `updateAllPrices` are left out, because they are about timing.
- The `try`/`catch` error paths are left out: an HTML parse failure, and a scrape that throws inside `updateWebsitePrice`. An invalid CSS selector is modelled, as a `None` from the CSS engine.
- `DOMParser`, script and style removal, and `textContent` are browser code. The page arrives parsed, as elements in document order with their text, and the CSS engine is a field of the document.
- ValidDocument: a parent comes before its children, and the CSS engine answers in document order. This is what the browser guarantees, and it is taken as a precondition.
- Notices: their text and display are left out. `CheckPriceAlerts` returns the alerts a notice is asked for.
- Alert management (`addPriceAlert`, `removePriceAlert`, `togglePriceAlert`) is not part of this model. Each of them is a single `updateItem` call with a list the caller builds.
- Vault I/O: `saveData`, the file read of `loadData`, `exportData`, and `JSON.parse`/`JSON.stringify`. The store's methods take what the text parsed to.
- Date.now() and the random id suffix are parameters. One `now` stands for the successive clock reads of a single operation.
- ParseFloat: `parseFloat` is modelled only on text made of digits and the three separators. That is all `normalizeNumber` can hand it from a pattern match.
- Confidence.RawConfidenceRange: the exact per-test points are stated only as a range. The body spells out the +20, +10, +10 and −20 steps.
- Numbers are exact reals, not IEEE doubles. The precision test of `parsePrice` (a whole number, or a whole number of cents) and `Math.round(x * 100) / 100` are read on exact reals. `Math.round` rounds halves up.
- `toLowerCase` is ASCII-only here; other letters are left as they are.
- String lengths and positions count characters (Unicode scalar values), not the UTF-16 code units that JavaScript's `length`, `indexOf` and `substring` count. Text holding a character outside the Basic Multilingual Plane, such as an emoji, is therefore measured differently in three places: the ±50 window of `Confidence.SurroundingText`, the 200-character page excerpt that `Extraction.FallbackScan` reports on failure, and the `4 <= length <= 10` test of `Confidence.PriceConfidence`. The source's `substring(0, 200)` can also split a surrogate pair; the excerpt here cannot.
- `localeCompare(…, "ar")` is supplied as a collation rank function, not an implementation of Arabic collation.
- The `currency` and `url` fields of the comparison entries are carried as given. Nothing is proved about them.
- The second `getItemById` check in `getBuyingRecommendation` (lines 1036-1037) can never fail once the comparison exists. It is not modelled separately.
- The UI files, `main.ts` and the category statistics type are not part of this model.
