# Quran PDF generator — a verified model of its core

This project models the logic of the Quran PDF generator, a Next.js
application. The user picks chapters (surahs) of the Quran, the
application fetches them, and it either previews them or builds one PDF
holding a cover, each chapter and a footer. The model covers six parts:

- **PDF assembly** (`QuranPDFService.generatePDF` and `generateFileName`).
  The unseen page-flow engine and cover generator become a `Sink` that
  records the calls it receives: cover, new page, render(block, spacing),
  footer and save. A map from call position to thrown value says which
  calls fail.
- **Chapter content** (`SurahContentGenerator`). A chapter becomes a
  header block, then an optional bismillah block, then one verse block per
  verse. Each verse block has a one-time fallback. Blocks are datatypes
  carrying the fields the HTML templates interpolate.
- **The verse route** (`GET` in `src/app/api/surah/route.ts`). It counts
  the 50-verse pages and builds their URLs, reports the first failed page,
  joins the pages in order, sorts the verses in place by verse number and
  trims the records.
- **The home page state** (`src/app/page.tsx`). A class holds the React
  state. It covers the toggle, select-all and clear-all handlers, the
  preview and generate handlers with their empty-selection guard and
  refetch rule, and `fetchQuranData`.
- **Whole-image slicing** (`src/app/test-pdf/page.tsx`). The image is
  scaled to 210 mm wide and placed on successive pages at offsets −k·295,
  using exact reals. The page height in the code is 295 mm, not the
  297 mm of an A4 sheet under ISO 216. When the image height is an exact
  multiple of 295 and at least two pages tall, the `heightLeft >= 0` loop
  adds a last page that shows nothing; `TestPdf.ExactMultipleTrailingPage`
  proves this.
- **Translation cleanup** (`cleanupTranslationText`). It is a chain of
  seven global regular-expression replacements. Each one is a left-to-right,
  non-overlapping rewrite, and the model states each one by its match.

Module layout:

- `QuranTypes`: the records of `src/types/quran.ts`, plus decimal printing.
- `CallPlans`: the generic fold behind every call trace. A plan is a
  sequence of steps; each step is one call, or a call with a fallback.
  `Exec` performs the steps until one throws.
- `PdfSink`: the recording generator.
- `SurahBlocks`: the pure block builders.
- `SurahContent`: the chapter plan, and the content generator class.
- `PdfService`: the document plan and `GeneratePdf`.
- `SurahRoute`, `HomePage`, `TestPdf`, `VerseDisplay`: one module each
  for the remaining files.

## Model

| member | source | states |
|---|---|---|
| QuranTypes.TextOrDefault | src/utils/surahContentGenerator.ts:46 | `translation.text \|\| 'Translation not available'`: a present non-empty text is kept, a missing or empty one becomes the default sentence |
| QuranTypes.StringOrEmpty | src/utils/surahContentGenerator.ts:44 | `verse.text_uthmani \|\| ''`: missing Arabic text becomes the empty string |
| QuranTypes.NatToDecimal | src/utils/quranPDFService.ts:62 | the decimal form of a number interpolated into a string is non-empty and all digits |
| QuranTypes.IntToDecimal | src/utils/quranPDFService.ts:62 | a signed number prints as its magnitude's digits, after a minus sign when negative |
| QuranTypes.DecimalRoundTrip | src/utils/quranPDFService.ts:65 | reading back the printed digits of a count gives the count |
| SurahBlocks.SanitizeTranslation | src/utils/surahContentGenerator.ts:38-42 | empty gives empty; up to 5000 characters unchanged; longer gives the first 5000 characters and "..."; never longer than 5003 |
| SurahBlocks.SanitizeIdempotent | src/utils/surahContentGenerator.ts:38-42 | sanitizing twice is sanitizing once |
| SurahBlocks.TranslationTextsAt | src/utils/surahContentGenerator.ts:45-47 | absent translations give no texts; otherwise one text per translation, in order, each the sanitized text or default |
| SurahBlocks.SanitizedTextsLength | src/utils/surahContentGenerator.ts:46 | the mapped list has the length of the translation list |
| SurahBlocks.SanitizedTextAt | src/utils/surahContentGenerator.ts:46 | entry i of the mapped list comes from translation i |
| SurahBlocks.MissingTranslationShown | src/utils/surahContentGenerator.ts:46 | a translation without text shows "Translation not available" |
| SurahBlocks.SajdahBadge | src/utils/surahContentGenerator.ts:55-59 | the Sajdah badge appears exactly when `sajdah_number` is present and non-zero, and shows that number |
| SurahBlocks.RukuBadge | src/utils/surahContentGenerator.ts:60-64 | the Ruku badge appears exactly when `ruku_number` is non-zero, and shows that number |
| SurahBlocks.VerseCardView | src/utils/surahContentGenerator.ts:49-83 | the main template shows the verse number, the Arabic text or '', the badges and the translation texts (none when the list is empty) |
| SurahBlocks.FallbackBlock | src/utils/surahContentGenerator.ts:90-101 | the fallback shows only the verse number and the Arabic text |
| CallPlans.ThrownAt | src/utils/quranPDFService.ts:52-55 | a call throws exactly when its position is in the failure map, and throws that value |
| CallPlans.Apply | src/utils/surahContentGenerator.ts:85-103 | definition: one step at call position k, the number of calls made so far: a plain call is made and throws the failure at k, if any; a main render with a fallback is made, and only when it fails at k is the fallback made, whose own failure at k + 1 is what propagates |
| CallPlans.Exec | src/utils/quranPDFService.ts:27-55 | definition: the steps run in order, each after the calls of the ones before; the first step that throws ends the run with that error and no later step is called |
| CallPlans.Mains | src/utils/surahContentGenerator.ts:85-86 | without failures each step makes its main call, one per step, in order |
| CallPlans.MainsAppend | src/utils/surahContentGenerator.ts:106-113 | the main calls of consecutive plans are concatenated |
| CallPlans.ExecAppend | src/utils/quranPDFService.ts:27-51 | running two plans one after the other is running their concatenation |
| CallPlans.ExecSingle | src/utils/quranPDFService.ts:40 | one step runs only when nothing has thrown yet |
| CallPlans.FlattenSnoc | src/utils/quranPDFService.ts:36-44 | the loop's plan so far grows by the next chapter's steps |
| CallPlans.FlattenPrefix | src/utils/quranPDFService.ts:36-44 | the plan of the first n chapters is a prefix of the whole plan |
| CallPlans.ExecAfterThrow | src/utils/quranPDFService.ts:52-55 | once a call has thrown, no further call is made |
| CallPlans.ExecExtends | src/utils/quranPDFService.ts:27-51 | running a plan only appends to the calls already made |
| CallPlans.ExecWithoutFailures | src/utils/quranPDFService.ts:27-51 | with no failing call ahead, a plan makes exactly its main calls and throws nothing |
| CallPlans.ExecThrowsLastCall | src/utils/quranPDFService.ts:52-55 | when a run throws, the last call made threw that value |
| CallPlans.ExecCallsFromPlan | src/utils/surahContentGenerator.ts:85-103 | every call a run makes is a step's main call or fallback |
| CallPlans.FallbackOnce | src/utils/surahContentGenerator.ts:85-103 | if the main render succeeds, it is the only call; if it fails, exactly one fallback render follows, and the fallback's own failure propagates |
| PdfSink.AvoidsAppend | src/utils/quranPDFService.ts:36-44 | two plans without a kind of call concatenate to one without it |
| PdfSink.FlattenAvoids | src/utils/quranPDFService.ts:36-44 | chapters without a kind of call flatten to a plan without it |
| PdfSink.ExecAvoids | src/utils/quranPDFService.ts:36-44 | running a plan without a kind of call adds no call of that kind |
| PdfSink.Sink.constructor | src/utils/quranPDFService.ts:22-25 | a fresh generator has received no call |
| PdfSink.Sink.Perform | src/utils/quranPDFService.ts:22-25 | a call is appended to the trace and throws exactly when its position fails |
| PdfSink.Sink.GenerateCover | src/utils/quranPDFService.ts:29-33 | the cover call with the selection, the data and the options |
| PdfSink.Sink.AddNewPage | src/utils/quranPDFService.ts:40 | one new-page call |
| PdfSink.Sink.RenderElement | src/utils/surahContentGenerator.ts:20 | one render call with its block and spacing |
| PdfSink.Sink.AddFooter | src/utils/quranPDFService.ts:47 | one footer call |
| PdfSink.Sink.Save | src/utils/quranPDFService.ts:51 | one save call under the given name |
| SurahContent.VerseStep | src/utils/surahContentGenerator.ts:85-103 | definition: a verse is one render of its card at spacing 10 and, when that fails, one render of its fallback block at spacing 10 |
| SurahContent.SurahPlan | src/utils/surahContentGenerator.ts:106-113 | definition: a chapter is its header step, then its bismillah step when it has one, then one VerseStep per verse in list order |
| SurahContent.VersesPlanLength | src/utils/surahContentGenerator.ts:110-112 | one step per verse |
| SurahContent.VersesPlanAt | src/utils/surahContentGenerator.ts:110-112 | step i is verse i's render with its fallback |
| SurahContent.VersesPlanPrefix | src/utils/surahContentGenerator.ts:110-112 | the first n verses' steps begin the verses' steps |
| SurahContent.VersesPlanSnoc | src/utils/surahContentGenerator.ts:110-112 | each loop round adds the next verse's step |
| SurahContent.SurahPlanStart | src/utils/surahContentGenerator.ts:106-113 | a chapter has 1 + (bismillah ? 1 : 0) + verse-count steps; the header comes first with spacing 15; when `bismillah_pre` is set, the bismillah comes second with spacing 15 |
| SurahContent.SurahPlanVerse | src/utils/surahContentGenerator.ts:85-102 | verse i's step comes after the header and bismillah; its card and its fallback both render with spacing 10 |
| SurahContent.SurahPlanBismillah | src/utils/surahContentGenerator.ts:24 | the bismillah block appears if and only if `bismillah_pre` is set |
| SurahContent.SurahPlanOnlyRenders | src/utils/surahContentGenerator.ts:106-113 | a chapter only renders blocks: no page, footer, cover or save |
| SurahContent.SurahPlanAvoids | src/utils/surahContentGenerator.ts:106-113 | a chapter's steps make no call other than a render |
| SurahContent.SurahContentGenerator.constructor | src/utils/surahContentGenerator.ts:7-9 | the generator draws on the given sink |
| SurahContent.SurahContentGenerator.GenerateSurahHeader | src/utils/surahContentGenerator.ts:11-21 | the trace grows by the header plan |
| SurahContent.SurahContentGenerator.GenerateBismillah | src/utils/surahContentGenerator.ts:23-34 | the trace grows by the bismillah plan, which is empty without `bismillah_pre` |
| SurahContent.SurahContentGenerator.GenerateVerse | src/utils/surahContentGenerator.ts:36-104 | the trace grows by the verse's step: the card, and after a failure the fallback |
| SurahContent.SurahContentGenerator.GenerateVerses | src/utils/surahContentGenerator.ts:110-112 | the loop leaves the trace of the verses' plan |
| SurahContent.SurahContentGenerator.GenerateCompleteSurah | src/utils/surahContentGenerator.ts:106-113 | the trace grows by the chapter plan: header, bismillah, verses |
| PdfService.FindName | src/utils/quranPDFService.ts:61 | `find` gives the name of the first entry with that id, and nothing when no entry has it |
| PdfService.FileName | src/utils/quranPDFService.ts:58-66 | definition: one selected id gives the found non-empty name, or else `Surah_<id>`, followed by ".pdf"; any other count n gives `Quran_Chapters_<n>_Selected.pdf` |
| PdfService.DocumentPlan | src/utils/quranPDFService.ts:27-51 | definition: the cover, then for each chapter in list order a new page and the chapter's plan, then the footer and the save under FileName |
| PdfService.PdfRun | src/utils/quranPDFService.ts:14-55 | definition: an empty selection throws "Please select at least one surah" and empty data throws "Failed to load Quran data", both before any call; otherwise DocumentPlan runs from no calls and stops at the first error that is not caught |
| PdfService.FileNameSingle | src/utils/quranPDFService.ts:59-63 | one selected chapter gives `<name>.pdf` when its list entry has a non-empty name, else `Surah_<id>.pdf` |
| PdfService.FileNameCount | src/utils/quranPDFService.ts:65 | any other selection count gives `Quran_Chapters_<n>_Selected.pdf`, whose digits read back as n |
| PdfService.ChapterParts | src/utils/quranPDFService.ts:36-44 | one part per chapter in list order: a new page, then that chapter's content |
| PdfService.ChaptersPlanAvoids | src/utils/quranPDFService.ts:36-44 | the chapters' calls hold no cover, footer or save |
| PdfService.DocumentSplit | src/utils/quranPDFService.ts:27-51 | the run is the cover and chapters, followed by footer and save |
| PdfService.ChaptersCalls | src/utils/quranPDFService.ts:29-44 | up to the last chapter, the cover is the first call and every later call is a new page or a render |
| PdfService.TailRun | src/utils/quranPDFService.ts:47-51 | footer and save run only if nothing has thrown; a failing footer stops before the save |
| PdfService.TailShape | src/utils/quranPDFService.ts:47-51 | the tail adds at most a footer and then a save; both are made when the run succeeds |
| PdfService.CoverFirstOnce | src/utils/quranPDFService.ts:29-33 | the cover is the first call and is never repeated |
| PdfService.SaveLast | src/utils/quranPDFService.ts:47-51 | a save is only ever the last call, right after the footer, under the derived name; a successful run ends with footer and save |
| PdfService.FooterOnce | src/utils/quranPDFService.ts:47 | there is at most one footer, and every new page and render comes before it |
| PdfService.ErrorRethrown | src/utils/quranPDFService.ts:52-55 | what generatePDF throws is the failure of its last call, so nothing is called after it |
| PdfService.CoverRun | src/utils/quranPDFService.ts:29-33 | the first call on a fresh generator is the cover, failing by its position |
| PdfService.ChaptersNext | src/utils/quranPDFService.ts:36-44 | each loop round runs a new page and then the chapter's content |
| PdfService.ChaptersStop | src/utils/quranPDFService.ts:52-55 | once a chapter has thrown, the rest of the chapters add nothing |
| PdfService.GenerateChapters | src/utils/quranPDFService.ts:36-44 | the loop leaves the trace of all chapters' plans, stopping at a failure |
| PdfService.GeneratePdf | src/utils/quranPDFService.ts:9-56 | an empty selection throws "Please select at least one surah" before the data check; empty data throws "Failed to load Quran data"; in both cases nothing is called; otherwise the calls of the document plan on a fresh generator |
| PdfService.ChapterNewPage | src/utils/quranPDFService.ts:40 | a chapter's part makes exactly one new page |
| PdfService.ChaptersNewPages | src/utils/quranPDFService.ts:36-44 | n chapters make exactly n new pages |
| PdfService.WithoutFailures | src/utils/quranPDFService.ts:27-51 | without failures, the calls are cover, each chapter's calls in order, footer, save, and nothing is thrown |
| PdfService.NewPagePerChapter | src/utils/quranPDFService.ts:36-44 | the number of forced pages is the number of chapters in the data list, not the number selected |
| VerseDisplay.SpanEnd | src/components/VerseDisplay.tsx:14-19 | a quantified class matches the longest run of its characters |
| VerseDisplay.MatchEnd | src/components/VerseDisplay.tsx:14-20 | a match is the opening tag, a run of the group's characters, and the closing tag |
| VerseDisplay.RegexMatchUnique | src/components/VerseDisplay.tsx:14-20 | since no class holds `<`, any way the pattern can match at a position is the match found, so greedy and lazy agree |
| VerseDisplay.ReplaceFrom | src/components/VerseDisplay.tsx:14-20 | definition: a global `replace` scanning from position i: where a match starts it is replaced and the scan resumes after it; elsewhere the character is kept |
| VerseDisplay.ReplaceAll | src/components/VerseDisplay.tsx:14-20 | definition: the global `replace` of one rule over the whole text |
| VerseDisplay.Cleanup | src/components/VerseDisplay.tsx:13-20 | definition: the seven global replaces of `cleanupTranslationText`, each applied to the previous one's result, in source order |
| VerseDisplay.CleanupValue | src/components/VerseDisplay.tsx:10 | a non-string value is returned unchanged; a string stays a string |
| VerseDisplay.NoMatchFrom | src/components/VerseDisplay.tsx:14-20 | where no match starts, a replacement keeps the text |
| VerseDisplay.MatchStartsAtAngle | src/components/VerseDisplay.tsx:14-20 | every match starts at a `<` |
| VerseDisplay.NoAngleFixed | src/components/VerseDisplay.tsx:14-20 | a text without `<` passes any of the rewrites unchanged |
| VerseDisplay.ShortFixed | src/components/VerseDisplay.tsx:14-20 | a text shorter than the two tags is left alone |
| VerseDisplay.NoAngleUnchanged | src/components/VerseDisplay.tsx:13-20 | a text without `<` comes out of the cleanup unchanged |
| VerseDisplay.CloseOpenFrom | src/components/VerseDisplay.tsx:20 | the last rewrite keeps every suffix as it is |
| VerseDisplay.CloseOpenIdentity | src/components/VerseDisplay.tsx:20 | `</sup><sup>` replaced by itself leaves every text unchanged |
| VerseDisplay.TaggedMatch | src/components/VerseDisplay.tsx:14-20 | in tag, text, tag, a match can only span from the first tag to the second |
| VerseDisplay.AngleAt | src/components/VerseDisplay.tsx:14-20 | in tag, text, tag, a `<` is only at the start of a tag |
| VerseDisplay.PairFixed | src/components/VerseDisplay.tsx:14-20 | a well-closed `<sup>X</sup>` is not touched by the `<sup>…<sup>` or `</sup>…` rewrites |
| VerseDisplay.ClosingFixed | src/components/VerseDisplay.tsx:14-19 | `</sup>W</sup>` is not touched by the rewrites that open with `<sup>` |
| VerseDisplay.WholeMatch | src/components/VerseDisplay.tsx:14-20 | a text that is exactly one match becomes its replacement |
| VerseDisplay.FixOpenPair | src/components/VerseDisplay.tsx:14-15 | the first two rewrites turn `<sup>X<sup>` into `<sup>X</sup>`, whether X is digits or any text without `<` |
| VerseDisplay.NestedOpenCleaned | src/components/VerseDisplay.tsx:13-20 | the whole cleanup turns `<sup>X<sup>` into `<sup>X</sup>` |
| VerseDisplay.LoneCloseFixed | src/components/VerseDisplay.tsx:17-20 | a lone `</sup>` passes the last four rewrites |
| VerseDisplay.DoubleCloseCollapses | src/components/VerseDisplay.tsx:16 | `</sup></sup>` comes out as one `</sup>` |
| VerseDisplay.DoubleCloseSkipsSpaced | src/components/VerseDisplay.tsx:16 | the double-close rewrite leaves `</sup>W</sup>` with non-empty W for the spaced rewrite |
| VerseDisplay.SpacedCloseCollapses | src/components/VerseDisplay.tsx:18 | `</sup>`, whitespace, `</sup>` comes out as one `</sup>` |
| VerseDisplay.SpacedOpenRule | src/components/VerseDisplay.tsx:17 | the spaced-open rewrite collapses `<sup>`, whitespace, `<sup>` to `<sup>` |
| VerseDisplay.DoubleOpenRule | src/components/VerseDisplay.tsx:19 | the double-open rewrite collapses `<sup><sup>` to `<sup>` |
| VerseDisplay.MissingTextDisplayed | src/components/VerseDisplay.tsx:45 | a translation with missing or empty text is shown as "Translation not available" |
| SurahRoute.SurahIdOf | src/app/api/surah/route.ts:48 | a missing or empty `surahId` parameter becomes "1"; any other is kept |
| SurahRoute.PageCount | src/app/api/surah/route.ts:49-67 | the page count is the least n with 50·n ≥ the verse count, so a count of 0 gives no page |
| SurahRoute.VersesUrlInjective | src/app/api/surah/route.ts:73 | different pages give different request URLs |
| SurahRoute.RequestPages | src/app/api/surah/route.ts:72-80 | one URL per page, pages 1 to the page count in order; none when the count is not positive |
| SurahRoute.Answers | src/app/api/surah/route.ts:83 | one response per request: response i is the service's answer to request i |
| SurahRoute.FirstNotOk | src/app/api/surah/route.ts:86-90 | none exactly when every response is ok; otherwise the first failed one |
| SurahRoute.CheckResponses | src/app/api/surah/route.ts:86-90 | the check loop stops at the first failed page |
| SurahRoute.Combined | src/app/api/surah/route.ts:97-100 | definition: the pages' verse lists concatenated, pages in order |
| SurahRoute.CombinedAt | src/app/api/surah/route.ts:97-100 | verse k of page i sits right after all verses of pages before i |
| SurahRoute.CombinePages | src/app/api/surah/route.ts:97-100 | the joined list is every page's verses, pages in order |
| SurahRoute.SwapDown | src/app/api/surah/route.ts:103 | an exchange of two neighbours keeps the elements |
| SurahRoute.InsertDown | src/app/api/surah/route.ts:103 | element i moves down into the sorted prefix before it: the first i + 1 elements end sorted, the array keeps the same elements, and every element after i stays where it was |
| SurahRoute.SortByVerseNumber | src/app/api/surah/route.ts:103 | in place, the verses end ascending by verse number and are a permutation of the joined list |
| SurahRoute.ProjectChapter | src/app/api/surah/route.ts:106-112 | definition: keeps exactly id, bismillah_pre, name_simple, name_arabic and verses_count |
| SurahRoute.ProjectVerse | src/app/api/surah/route.ts:115-122 | definition: keeps exactly id, verse_number, ruku_number, sajdah_number, text_uthmani and translations |
| SurahRoute.ProjectVerses | src/app/api/surah/route.ts:115-122 | one trimmed verse per verse, in order: entry i is verse i trimmed |
| SurahRoute.ChapterProjectionKeeps | src/app/api/surah/route.ts:106-112 | two chapters trim alike exactly when they agree on id, bismillah_pre, name_simple, name_arabic and verses_count |
| SurahRoute.VerseProjectionKeeps | src/app/api/surah/route.ts:115-122 | two verses trim alike exactly when they agree on id, verse_number, ruku_number, sajdah_number, text_uthmani and translations |
| SurahRoute.ProjectVersesSorted | src/app/api/surah/route.ts:103-122 | trimming keeps the order by verse number |
| SurahRoute.PageRequests | src/app/api/surah/route.ts:64-80 | the requests made after the chapter record arrives: pages 1 to ceil(verses_count/50) |
| SurahRoute.Get | src/app/api/surah/route.ts:44-141 | a failed chapter gives 500 with "Chapter HTTP error! status: N"; a failed page gives 500 naming the first failed page as index+1; otherwise 200 with the Cache-Control header, the trimmed chapter and the trimmed verses of a sorted permutation of the joined pages |
| HomePage.ErrorText | src/app/page.tsx:64 | an Error gives its message, any other value the fallback text |
| HomePage.RemoveAll | src/app/page.tsx:39 | the filter removes every occurrence of the id and nothing else |
| HomePage.RemoveAllAppend | src/app/page.tsx:39 | the filter works piece by piece, so the other ids keep their order |
| HomePage.RemoveAbsent | src/app/page.tsx:39 | filtering out an absent id changes nothing |
| HomePage.RemoveAllSorted | src/app/page.tsx:39 | removing an id from a sorted list without duplicates leaves a sorted list without duplicates |
| HomePage.InsertSorted | src/app/page.tsx:41 | inserting adds exactly the one element |
| HomePage.InsertKeepsSorted | src/app/page.tsx:41 | inserting into a sorted list keeps it sorted |
| HomePage.SortAscending | src/app/page.tsx:41 | the numeric sort gives an ascending permutation of its input |
| HomePage.SortedUnique | src/app/page.tsx:41 | two sorted lists with the same elements are equal, so the result does not depend on the sort algorithm |
| HomePage.Toggled | src/app/page.tsx:37-43 | definition: a selected id is filtered out; an unselected one is appended and the list is sorted ascending |
| HomePage.ToggleOff | src/app/page.tsx:38-39 | toggling a selected id removes every occurrence of it and nothing else |
| HomePage.ToggleOn | src/app/page.tsx:41 | toggling an unselected id gives the old ids plus it, sorted ascending |
| HomePage.SortedOnceStrict | src/app/page.tsx:41 | a sorted list where nothing occurs twice has no duplicates |
| HomePage.ToggleKeepsStrict | src/app/page.tsx:37-43 | on a sorted list without duplicates, a toggle keeps it sorted and without duplicates |
| HomePage.StrictCount | src/app/page.tsx:37-43 | in a list without duplicates each id occurs at most once |
| HomePage.ToggleTwice | src/app/page.tsx:37-43 | on a sorted duplicate-free selection, toggling the same id twice gives back exactly the original list |
| HomePage.Ids | src/app/page.tsx:48 | select-all takes the chapter list's ids in order |
| HomePage.DocumentError | src/app/page.tsx:103-105 | generation leaves an error exactly when the PDF run threw |
| HomePage.AfterFetch | src/app/page.tsx:57-68 | definition: fetched data replaces the list and the error is cleared; a failure sets the error to its message or "Failed to fetch Quran data"; `loading` ends false either way |
| HomePage.Preview | src/app/page.tsx:71-86 | definition: with nothing selected only the error "Please select at least one surah" is set; otherwise the error is cleared, the fetch is applied as AfterFetch, the preview opens and `previewLoading` ends false |
| HomePage.Generate | src/app/page.tsx:89-109 | definition: with nothing selected only the error is set; otherwise the data is fetched when NeedsRefetch holds (a failure sets its message or "Failed to generate PDF"), the PDF run is made on the fetched or cached data, its error if any is kept, and `generateLoading` ends false |
| HomePage.PreviewGuard | src/app/page.tsx:72-75 | with nothing selected, preview only sets "Please select at least one surah" |
| HomePage.PreviewAfterFailure | src/app/page.tsx:60-67 | a failed fetch during preview still opens the preview, with the fetch's error shown and both loading flags cleared |
| HomePage.GenerateGuard | src/app/page.tsx:90-93 | with nothing selected, generate only sets the error: no fetch, no document |
| HomePage.RefetchIff | src/app/page.tsx:99-102 | generate fetches the selection if and only if the cache is empty or its length differs from the selection's |
| HomePage.GenerateUsesCache | src/app/page.tsx:97-103 | a cache of the selection's length is what the document is built from |
| HomePage.GenerateSettles | src/app/page.tsx:94-108 | `generateLoading` ends false, and an error remains exactly when the fetch or the PDF run failed |
| HomePage.Home.constructor | src/app/page.tsx:16-28 | the initial state: chapter 1 selected, no data, no flags, no error, cover "Holy Quran" / "Selected Chapters" with date and stats |
| HomePage.Home.HandleSurahSelection | src/app/page.tsx:36-44 | the selection becomes its toggle; nothing else changes |
| HomePage.Home.HandleSelectAll | src/app/page.tsx:47-49 | the selection becomes the list's ids; nothing else changes |
| HomePage.Home.HandleClearAll | src/app/page.tsx:52-54 | the selection becomes empty; nothing else changes |
| HomePage.Home.FetchQuranData | src/app/page.tsx:57-68 | the fetched data, or the failure's message, is kept, and `loading` ends false |
| HomePage.Home.HandlePreviewPdf | src/app/page.tsx:71-86 | the state is the preview function's result |
| HomePage.Home.HandleGeneratePdf | src/app/page.tsx:89-109 | state and outcome are the generate function's result |
| HomePage.Home.ClosePreview | src/app/page.tsx:112-114 | the preview closes; nothing else changes |
| TestPdf.ScaledHeight | src/app/test-pdf/page.tsx:50-52 | the height h satisfies h · width = height · 210 |
| TestPdf.ExtraPages | src/app/test-pdf/page.tsx:62-69 | the number of whole page heights below the first page: k·295 ≤ h < (k+1)·295 |
| TestPdf.Layout | src/app/test-pdf/page.tsx:57-73 | definition: an image up to 295 high is placed once at y 0; a taller one is placed at y 0 and then, for each of the floor(h/295) further pages, a new page and the image at y = −k·295 |
| TestPdf.Slice | src/app/test-pdf/page.tsx:57-73 | the loop, which terminates, produces the layout of the image height |
| TestPdf.GeneratePdf | src/app/test-pdf/page.tsx:28-76 | without content or data nothing happens; otherwise the layout of the scaled image, saved as `surah-<id>.pdf` |
| TestPdf.PageTotal | src/app/test-pdf/page.tsx:66 | a document has at least its first page |
| TestPdf.LayoutPrefixPages | src/app/test-pdf/page.tsx:64-69 | after k loop rounds there are k + 1 pages |
| TestPdf.LayoutPages | src/app/test-pdf/page.tsx:57-73 | an image up to 295 high gets one page; a taller one gets 1 + floor(h/295) pages |
| TestPdf.Placements | src/app/test-pdf/page.tsx:61-72 | every placement is at x 0, 210 wide and h high, and on page k it sits at y = −k·295 |
| TestPdf.BottomOnLastPage | src/app/test-pdf/page.tsx:62-69 | the last page shows the bottom edge of the image: 0 ≤ y + h < 295 |
| TestPdf.ExactMultipleTrailingPage | src/app/test-pdf/page.tsx:64 | an image exactly m ≥ 2 pages high gets m + 1 pages, and the last one is blank |

## Left out

- The page-flow engine (`src/utils/pdfGenerator.ts`) and the cover generator are not part of this model. They are a recording sink. Which calls fail is an input map, and no page-break or cursor arithmetic is modelled.
- The HTML template text and styling of the blocks are left out. Blocks carry only the fields the templates interpolate.
- Network I/O, `Promise.all` and JSON parsing are left out.
  - The remote services and the data service are functions from a request to its answer.
  - Page answers arrive in page order, and everything runs in sequence.
  - A rejected `fetch` or a body that is not JSON, which the route would report as a 500 with that error's message, is not modelled.
  - The same holds for the `'Unknown error'` branch, since every modelled error is an `Error` object.
- SurahRoute.SortByVerseNumber: it does not state that verses with equal numbers keep their joined order, which `Array.prototype.sort` promises. The insertion sort used here keeps it, but that is not proved.
- SurahRoute.Get: the verse count is taken as a whole number. `Math.ceil` on a fractional count from the remote service is not modelled.
- HomePage.Home.HandlePreviewPdf: its `catch` branch (the "Failed to load Quran data" message) is absent. `fetchQuranData` catches its own failures, so that branch can never run.
- React's asynchronous state updates are left out: every state setter takes effect at once. A second handler started while one is still running is not modelled.
- The UI components (`PreviewModal`, `ActionButtons`, `SurahSelector`, `CoverPageOptions`) and all JSX are left out.
- The `surahList` constant is not part of this model. It is a parameter of (id, name) entries.
- The test page's `fetchSurahData`, html2canvas, `toDataURL`, jsPDF's drawing and `alert` are left out. The canvas size is a parameter.
- TestPdf.GeneratePdf: it requires a canvas of positive width. With a zero width, JavaScript divides by zero and gets `Infinity` or `NaN`, which exact reals cannot represent.
- TestPdf.ScaledHeight: it requires a positive canvas width, for the same reason.
- TestPdf.Slice: a zero-width canvas of positive height is not modelled. In the source that makes `imgHeight` `Infinity`. Subtracting 295 leaves `heightLeft` at `Infinity`, so the `while (heightLeft >= 0)` loop at lines 64-69 of `src/app/test-pdf/page.tsx` never ends. The model's loop terminates only because of the positive-width requirement.
- SurahBlocks.SanitizeTranslation: it counts and cuts text in Unicode code points, one Dafny `char` each. JavaScript's `length` and `substring` work in UTF-16 code units. A text holding characters outside the Basic Multilingual Plane is cut at a different place in the source, and possibly in the middle of a surrogate pair.
- Floating-point rounding of the image height is left out; measures are exact reals.
- Console logging is left out: the `console.error` and `console.log` calls at line 53 of `src/utils/quranPDFService.ts`, line 88 of `src/utils/surahContentGenerator.ts`, line 133 of `src/app/api/surah/route.ts` and lines 21-78 of `src/app/test-pdf/page.tsx` only write to the console and change no state the model tracks.
- VerseDisplay: the cleanup's rewrites at lines 17 and 19 of `src/components/VerseDisplay.tsx` never see `<sup>W<sup>` in the chain. The rewrite at line 15 has already turned it into `<sup>W</sup>`. Each of those two rules is proved on its own input instead (`SpacedOpenRule`, `DoubleOpenRule`).
