# Course extraction of the UT LMS Assistant content script

This project models the course-detection engine of `content.js`, the content
script of a browser extension for the Universitas Terbuka e-learning site. It
models two parts:

- **The string normalisers.**
  - `extractCourseCode` finds the first word-bounded `[A-Z]{4}\d{4}` code, dropping an optional `.digits` suffix.
  - `cleanCourseName` runs seven regular-expression rewrites, each followed by `trim()`.
  - `extractCourseId` returns the whole digit run after the first `?id=` or `&id=` that is followed by a digit, else the last min(10, length) characters of the URL.
- **The `scrapeCourses` driver.** It tries four detection tiers in order. Each
  tier runs only while the `courses` list is still empty:
  1. course cards;
  2. navigation links;
  3. all course-view links;
  4. course codes in the page text.

  Tiers 1 to 3 reject a candidate in three cases:
  - its id is already in the `seenIds` set;
  - its label is shorter than 3 characters;
  - its lower-cased label contains a word of the tier's own block-list.

  Tier 4 emits one record per distinct match of an unbounded code pattern.

Files:
- `text.dfy` (module `Text`): the character classes and string operations of JavaScript that the source relies on. These are `\d`, `\w`/`\b`, `\s`, `trim()`, `includes()` and `toLowerCase()`.
- `normalizer.dfy` (module `Normalizer`): the three normalisers. Each regular expression is a hand-written matcher. A `...At(s, i)` predicate says whether the expression matches when tried at position `i`. `Search` is the engine's leftmost scan.
- `normalizer_cases.dfy` (module `NormalizerCases`): general lemmas for each kind of input the source's comments illustrate, instantiated with the comments' examples.
- `scraper.dfy`:
  - module `Scraper`: the records, the per-tier candidates and filters, a declarative specification of what each tier keeps (`Selected`, `Scrape`), and the imperative driver `ScrapeCourses`. Its loops are proved equal to that specification.
  - module `ScraperProperties`: properties of the whole scrape. These are tier priority, when the result is empty, distinct ids, the block-lists and the fallback code.

The DOM is abstracted to what the selectors return, as a `Page`:
- the card elements, each with the text of its title element and the `href` of its course link, when it has them;
- the anchors inside navigation regions;
- every anchor whose `href` attribute contains `/course/view.php`;
- `document.body.innerText`.

The tier loops of the source push onto `courses` and add to `seenIds` in place. In the model they are methods whose local `seq` and `set` are reassigned, and whose `ensures` tie the result to `Selected`/`Scrape`.

What the tiers read and build:
- Tier 1 reads the `textContent` of the card's title element (content.js:50).
- Tiers 2 and 3 read the anchor's own `textContent` (content.js:90, content.js:125).
- Every tier truncates the fallback code to 20 characters (content.js:71, 109, 148).

One consequence of the code is that the first rewrite of `cleanCourseName` is dead for scraped labels. It strips "Course is starred", but "starred" is in every tier's block-list, so such a label never reaches it (`ScraperProperties.StarredPrefixNeverReached`).

## Model

| member | source | states |
|---|---|---|
| Text.IsSpace | content.js:205-220 | Definition: `\s` of these expressions, which is also the set `trim()` removes (content.js:50), as the exact ECMAScript WhiteSpace and LineTerminator code points. |
| Text.IsWordBoundary | content.js:186 | Definition: `\b` holds where the ASCII word class changes between neighbouring positions, the ends of the text counting as non-word. The same `\b` is at content.js:213. |
| Text.ToLower | content.js:58 | `toLowerCase()`: the result has the input's length and lowers each ASCII capital by 32, keeping every other character. The same call is at content.js:95 and content.js:132. |
| Text.Contains | content.js:59-62 | Definition: `includes(w)` holds when w is a prefix of some suffix of the text. The same call is at content.js:89. |
| Text.Trim | content.js:50 | `trim()`: the result is the slice of the input that starts after its leading whitespace and has only whitespace after it, so it keeps every non-whitespace character in order. It has no whitespace at either end; it equals the input when the input has none; it is empty exactly when the input is all whitespace; it never creates a double whitespace. |
| Normalizer.BoundedCodeMatchAt | content.js:186 | `\b[A-Z]{4}\d{4}(?:\.\d+)?\b` matches at i exactly when a word-bounded bare code sits at i. The match ends at a word boundary, either right after the code or at the end of its greedy `.digits` suffix, and it takes that suffix whenever the suffix is non-empty and ends at a word boundary. |
| Normalizer.ExtractCourseCode | content.js:183-193 | Returns none exactly when no position holds a word-bounded code. Otherwise it returns 4 capitals and 4 digits, taken from the leftmost such position (the suffix is not part of it). |
| Normalizer.StripLeadingPhrase | content.js:205-206 | When the text starts with the phrase in any case, the result is a suffix of the text after the phrase, only whitespace lies between the phrase and the result, and the result does not start with whitespace. Otherwise the text is unchanged. |
| Normalizer.LeadingCodeEnd | content.js:210 | The match length of the leading-code expression is 0 exactly when no letter-code sits at the start. A non-empty match is the code, its greedy `.digits` suffix, then whitespace with at most one `-`, `:` or `.`, and it stops only before a character the expression cannot take (`LeadingCodeMatch`, which `LeadingCodeMatchUnique` shows fixes the end). |
| Normalizer.StripLeadingCode | content.js:210 | A leading code (of either case) is cut off together with its suffix and separator gap: the result is the suffix of the text after exactly the `LeadingCodeMatch` prefix. Text without one is unchanged. |
| Normalizer.LeadingCodeMatchUnique | content.js:210 | At most one prefix length satisfies `LeadingCodeMatch`, so that characterization pins down the leading-code match. |
| Normalizer.RemoveCodes | content.js:213 | The global removal equals `KeepOutside`: every character that lies in no match of the bounded code expression is kept, in order, and the others are dropped. It never lengthens the text, changes it exactly when some word-bounded code occurs in it, and leaves no word-bounded code. |
| Normalizer.RemoveCodesFromIsKeepOutside | content.js:213 | The left-to-right scan that resumes after each match keeps exactly the characters outside the matches, from any position that no earlier match reaches past. |
| Normalizer.RemoveCodesChanges | content.js:213 | Removing codes from a suffix changes it exactly when a code token starts in that suffix. |
| Normalizer.RemoveCodesLeavesNoCode | content.js:213 | A removal that starts at a word edge leaves a text in which no word-bounded code occurs: the kept pieces never join into a new code. |
| Normalizer.StripTrailingNumber | content.js:216 | The result is the text cut at the leftmost position where `\s+\d+$` matches. It is unchanged exactly when no position matches. |
| Normalizer.StripDanglingSeparator | content.js:219 | The result is the text cut at the leftmost position where `\s*[-:]\s*$` matches. It is unchanged exactly when no position matches. |
| Normalizer.CollapseSpacesFromIsRef | content.js:220 | The run-by-run collapse equals the character-by-character reference from any position that is not inside a whitespace run. |
| Normalizer.CollapseSpaces | content.js:220 | `replace(/\s+/g, ' ')` equals the reference `CollapseRef`, defined character by character: a non-whitespace character is kept, the first whitespace of a run becomes ' ' in its place, and the rest of the run is dropped. So the non-whitespace characters are kept in order, no two neighbouring characters are whitespace, every whitespace is ' ', the text is no longer, and it is empty exactly when the input is. |
| Normalizer.TrimCollapsed | content.js:220 | The final collapse-and-trim is `Trim(CollapseRef(s))`. It keeps the non-whitespace characters in order and leaves no outer whitespace, no double whitespace and only ' ' as whitespace. |
| Normalizer.CleanCourseName | content.js:195-224 | The cleaned name is never longer than the label. It has no whitespace at either end, no two whitespace in a row, and only ' ' as whitespace. It may be empty. |
| Normalizer.CollapseSpacesFromFixed | content.js:220 | Collapsing whitespace changes nothing when every whitespace is already a lone ' '. |
| Normalizer.StripTrailingNumberFixed | content.js:216 | A text not ending in a digit has no trailing number to strip. |
| Normalizer.StripDanglingSeparatorFixed | content.js:219 | A text ending in neither whitespace, '-' nor ':' has no dangling separator to strip. |
| Normalizer.CleanCourseNameKeepsCleanName | content.js:195-224 | A name to which no rewrite applies is returned unchanged. |
| Normalizer.ExtractCourseId | content.js:226-229 | Without any `?id=`/`&id=` followed by a digit, the result is the last min(10, length) characters. Otherwise it is the whole digit run after the first such parameter. |
| NormalizerCases.PlainNameIsClean | content.js:195-224 | A name of letters and single spaces that starts with neither phrase is clean. |
| NormalizerCases.NameAndNumberStrip | content.js:216 | For a plain name, a space and a number, the leftmost `\s+\d+$` is at that space. |
| NormalizerCases.CleanDropsTrailingNumber | content.js:196-216 | A plain name followed by a space and a number is cleaned to the plain name. |
| NormalizerCases.LeadingCodeStrip | content.js:210 | A code, an optional `.digits`, then " - ", " : " or " . " before a clean name: the leading-code match ends where the name starts. |
| NormalizerCases.CleanDropsLeadingCode | content.js:199-213 | Such a label is cleaned to the name after the separator. |
| NormalizerCases.BareLeadingCodeStrip | content.js:209-210 | A code (either case), an optional `.digits`, one space, then a clean name not starting with `-`, `:` or `.`: the leading-code rewrite leaves exactly the name. |
| NormalizerCases.CleanDropsBareLeadingCode | content.js:196-213 | Such a label, with no separator after the code, is cleaned to the name. |
| NormalizerCases.MidCodeRemoved | content.js:213 | A code between two plain names, with a space on each side, is removed by the global code removal, which leaves both spaces. |
| NormalizerCases.GapCollapse | content.js:220 | The two spaces between two plain names collapse into one. |
| NormalizerCases.CleanDropsMidCode | content.js:195-224 | A label made of a plain name, a code and a plain name is cleaned to the two names joined by one space. |
| NormalizerCases.PhraseStrip | content.js:205-206 | A phrase in any case, a space and a rest with no outer whitespace: the phrase rewrite leaves exactly the rest. |
| NormalizerCases.CleanDropsLeadingPhrases | content.js:200-206 | "Course is starred" then "Course name" (any case) before a clean name: both are removed. |
| NormalizerCases.IdOfViewUrl | content.js:226-229 | For a URL whose only query parameter is `id=<digits>`, the id is those digits. |
| NormalizerCases.DottedCodeGivesBaseCode | content.js:184-190 | "MKWN4108.1614" gives "MKWN4108". |
| NormalizerCases.NoCodeGivesNone | content.js:192 | "no code here" gives none. |
| NormalizerCases.GluedCodeIsNoCode | content.js:186 | "xPDGK4101" gives none, because `\b` fails before the code. |
| NormalizerCases.CleanExampleTrailingNumber | content.js:197 | "Akuntansi Biaya 213" is cleaned to "Akuntansi Biaya". |
| NormalizerCases.CleanExampleTrailingYear | content.js:198 | "Bahasa Indonesia 1614" is cleaned to "Bahasa Indonesia". |
| NormalizerCases.CleanExampleLeadingCode | content.js:199 | "MKWN4108.1614 - Nama Matkul" is cleaned to "Nama Matkul". |
| NormalizerCases.CleanExampleBareLeadingCode | content.js:209 | "MKWN4108 Name" is cleaned to "Name". |
| NormalizerCases.CleanExampleMidCode | content.js:213-220 | "Nama PDGK4101 Matkul" is cleaned to "Nama Matkul". |
| NormalizerCases.CleanExampleLeadingPhrases | content.js:200 | "Course is starred Course name Akuntansi Biaya" is cleaned to "Akuntansi Biaya". |
| NormalizerCases.CourseViewUrlId | content.js:227-228 | ".../course/view.php?id=12345" has id "12345". |
| Scraper.ReadCandidate | content.js:50-52 | A candidate's label is the trimmed element text, with no whitespace at either end; its url is the href, and its id is `extractCourseId` of the href. The same reads are at content.js:90-92 and content.js:125-127. |
| Scraper.BlockList | content.js:57-62 | The block-list words are lower case, and a word is in a tier's list exactly when it is one of "enter", "view", "notification" and "starred", or is "home" in tiers 2 and 3 (content.js:96-100), or is "lihat" or "dashboard" in tier 3 (content.js:133-139). |
| Scraper.Candidates | content.js:38-52 | Each tier has one candidate per selected element, in document order: `CardCandidate` of each card, `NavCandidate` of each navigation anchor (content.js:88-92), `LinkCandidate` of each course link (content.js:124-127). |
| Scraper.Blocked | content.js:57-62 | Definition: the lower-cased label contains a word of the block-list. `BlockedIgnoresCase` states that the test ignores case. |
| Scraper.Admissible | content.js:55-62 | Definition: the element is a candidate, its label has at least 3 characters and it is not blocked; the seen-id test is in `Kept`. |
| Scraper.CardCandidate | content.js:41-52 | A card yields a candidate exactly when it has both a title element and a course link. |
| Scraper.NavCandidate | content.js:89-92 | A navigation anchor yields a candidate exactly when its href is non-empty and contains `/course/view.php`. |
| Scraper.LinkCandidate | content.js:124-127 | Every anchor of tier 3 is a candidate, read as `ReadCandidate` reads it. |
| Scraper.MakeCourse | content.js:64-73 | The record has the candidate's id and url and the cleaned name. When the label holds a code, the record's code is exactly `extractCourseCode` of the label, 4 capitals and 4 digits; otherwise it is the first min(20, length) characters of the name. The code is empty only when the name is. |
| Scraper.Kept | content.js:55-64 | Definition: a candidate is taken when it is admissible, its id was not seen before the tier, and no earlier admissible candidate of the tier has its id. `KeptIff` relates it to the running `seenIds`. |
| Scraper.Selected | content.js:38-80 | Definition: the records of the kept candidates, in document order. `SelectedSound`, `SelectedComplete`, `SelectedDistinct` and `SelectedEmptyIff` state its properties, and `ScanTier` is proved to compute it. |
| Scraper.SelectedSound | content.js:55-73 | Every record a tier emits is built from a candidate that passes the filters and is the first admissible one with its id. |
| Scraper.SelectedComplete | content.js:55-73 | The id of every admissible candidate not seen before the tier is the id of an emitted record. |
| Scraper.KeptIff | content.js:55-64 | An admissible candidate is taken exactly when its id is in neither the starting set nor the records taken so far. |
| Scraper.SelectedDistinct | content.js:55-64 | A tier's records have pairwise distinct ids, none of them seen before the tier. |
| Scraper.SelectedEmptyIff | content.js:55-64 | A tier emits nothing exactly when every admissible candidate's id was seen before. |
| Scraper.ScanTier | content.js:38-80 | One tier loop appends exactly the selected records, and afterwards `seenIds` is exactly the set of ids in `courses`. The same method serves the loops at content.js:88-115 and content.js:124-153. |
| Scraper.CodeMatchesFrom | content.js:160-161 | The unbounded global code pattern yields one match per position where `[A-Z]{4}\d{4}` occurs, in increasing position (matches never overlap), each being the code with its greedy `.digits` suffix (`CodeMatchAt`). There is no match exactly when no position holds `[A-Z]{4}\d{4}`. |
| Scraper.CodePositions | content.js:161 | The positions of `[A-Z]{4}\d{4}` in the text: every listed position holds a code, every code position is listed, and the list is strictly increasing. |
| Scraper.CodeMatchAt | content.js:160-161 | The text matched at a code position, the code and its greedy `.digits` suffix, is a match of `[A-Z]{4}\d{4}(?:\.\d+)?`. |
| Scraper.CodeMatches | content.js:161 | `bodyText.match(codePattern)`, with no match as the empty list, is one match per code position of the text, in order. |
| Scraper.Distinct | content.js:165 | `[...new Set(xs)]` holds exactly the elements of xs, each once. |
| Scraper.DistinctInFirstOccurrenceOrder | content.js:165 | The distinct elements are listed in the order of their first occurrence. |
| Scraper.UniqueCodes | content.js:165 | The set-based deduplication pass computes `Distinct` of the matches. |
| Scraper.CodeCourse | content.js:168-173 | A tier-4 record uses the match as id, name and code, and '#' as url. |
| Scraper.CodeCourses | content.js:167-174 | One tier-4 record per code, in the order of the codes. |
| Scraper.TextCourses | content.js:163-176 | Tier 4 emits one record per distinct match, in order, each being `CodeCourse` of the match. |
| Scraper.ScanText | content.js:156-177 | The tier-4 loop appends exactly `TextCourses` of the body text. |
| Scraper.PushCodeCourses | content.js:167-175 | The `forEach` loop of tier 4 appends exactly `CodeCourses` of the distinct codes. |
| Scraper.TierCourses | content.js:38-153 | Definition: the records one element tier produces when it runs, which it does only on an empty list with no seen ids. `TierCoursesEmptyIff`, `TierCoursesSound` and `TierCoursesComplete` state its properties. |
| Scraper.Scrape | content.js:29-181 | Definition: the output of the first of tiers 1, 2, 3 that produces a record, else tier 4. `ScrapePriority`, `ScrapeEmptyIff` and `ScrapeIdsDistinct` state its properties. |
| Scraper.ScrapeCourses | content.js:29-181 | The driver returns exactly `Scrape(page)`: the records of the first tier that produces any. |
| ScraperProperties.TierCoursesEmptyIff | content.js:49-64 | A tier, run on an empty list, produces nothing exactly when none of its candidates passes its filters. |
| ScraperProperties.TierCoursesSound | content.js:55-73 | Each record of a tier is `MakeCourse` of a kept candidate of that tier. |
| ScraperProperties.TierCoursesComplete | content.js:55-73 | Each admissible candidate's id appears among the tier's records. |
| ScraperProperties.TextCoursesEmptyIff | content.js:160-163 | Tier 4 produces nothing exactly when the text has no `[A-Z]{4}\d{4}`. |
| ScraperProperties.ScrapePriority | content.js:83-157 | The result is tier 1's records when some card is admissible. Tier 2 decides when no card is but some nav anchor is, tier 3 likewise after that, and tier 4 only when no tier 1 to 3 candidate is admissible. |
| ScraperProperties.ScrapeEmptyIff | content.js:29-181 | No course is found exactly when no tier has an admissible candidate and the text holds no code shape. |
| ScraperProperties.ScrapeIdsDistinct | content.js:29-181 | The ids of the returned records are pairwise distinct. |
| ScraperProperties.TextCoursesShape | content.js:167-173 | A tier-4 record has a match of the text, suffix included, as id, name and code, and '#' as url; that match is the one at some code position of the text. |
| ScraperProperties.TextCoursesComplete | content.js:160-173 | Every code in the text, with its dotted suffix, is the id of a tier-4 record. |
| ScraperProperties.CommonWordsBlockedEverywhere | content.js:58-62 | A label containing "enter", "view", "notification" or "starred" in any case is rejected by every tier. |
| ScraperProperties.HomeBlockedInLinkTiers | content.js:59-62 | A label that mentions "home" but none of the shared words passes tier 1 and is rejected by tiers 2 and 3 (content.js:96-100, content.js:133-139). |
| ScraperProperties.LinkWordsBlockedInTier3 | content.js:133-139 | A label that mentions "lihat" or "dashboard" but no other block word passes tiers 1 and 2 and is rejected by tier 3. |
| ScraperProperties.HomeLabelExample | content.js:96-100 | The label "Home" is kept by a card and rejected as a navigation or course link. |
| ScraperProperties.BlockedIgnoresCase | content.js:58-62 | Lower-casing a label first does not change whether it is blocked: the block-list test ignores the label's case. |
| ScraperProperties.BoilerplateNeverEmitted | content.js:58-62 | The labels "Enter" and "View notifications" are rejected by every tier. |
| ScraperProperties.FallbackCodeOfCleanLabel | content.js:71 | A clean label without a code becomes its own name, and its code is the name's first 20 characters. |
| ScraperProperties.FallbackCodeExample | content.js:71 | The label "Some Long Course Title Without Any Code" gets the code "Some Long Course Tit". |
| ScraperProperties.StarredPrefixNeverReached | content.js:62 | An admissible label never starts with "Course is starred", so the first rewrite of `cleanCourseName` never changes a scraped label. |

## Left out

- DOM selection is abstracted to a `Page`: `querySelectorAll`/`querySelector` with CSS selectors, `.href` resolution, `textContent` and `innerText`. Which elements a selector returns is browser behaviour. Tier 3's selector `a[href*="/course/view.php"]` is therefore taken as already applied.
- The `try`/`catch` around each tier-1 card is not modelled. It only absorbs DOM exceptions, which the abstract page cannot raise.
- The message listener, `scrapePageData`, and the auto-scrape on `load` with its timer and storage write are not modelled. They are asynchronous browser I/O.
- Console logging is not modelled.
- `popup.js` is not part of this model. It is rendering, tab messaging and storage glue.
- Strings are sequences of Unicode scalar values, while JavaScript's `.length` and `substring` count UTF-16 code units. A character outside the Basic Multilingual Plane counts 1 here and 2 in the source. This affects the `rawName.length < 3` filter (content.js:55, 94, 129), the fallback code `name.substring(0, 20)` (content.js:71, 109, 148) and the id `url.substring(url.length - 10)` (content.js:228). For example, a label of two emoji has length 4 in the source and passes the filter, while the model rejects it.
- Text.ToLower: lowers ASCII letters only. JavaScript's `toLowerCase` also lowers non-ASCII letters, which can matter only for block-list words, and all of those are ASCII.
- The whitespace of `\s` and `trim()` is the exact ECMAScript set. `\w`, `\d` and the `i` flag are ASCII, as in non-unicode regular expressions.
- The tier loop `ScanTier` and its specification `Selected` take the record builder as a parameter. That builder must keep the candidate's id (`KeepsId`). `ScrapeCourses` passes `MakeCourse`, so the tier lemmas hold for the source's records. This keeps the costly name cleaning out of the selection proofs.
