# comicbagi-scrap reconciliation core in Dafny

This project models the part of comicbagi-scrap that copies MangaDex manga and chapters into a
ComicBagi catalog. That part is the session bot `Bot` and the MangaDex bot `BotMangaDex`.
Both bots keep in-session caches: the session bot caches languages, websites and comic-chapter
keys, and the MangaDex bot caches the website's item languages. They walk paginated catalog
listings, seed a fixed set of languages, and refresh an OAuth token when it is about to expire.
For every MangaDex item they make sure the catalog holds a comic, its links, its link item
languages, its destination link and its chapters. Each record is probed first, and only a 404
leads to a create.

Every REST call becomes a request against a `Destination.Store`. The store keeps one collection
of records per entity kind and a log of every request. The fixed answers come from an oracle
(`Destination.Oracle`):

- which requests fail, and with which non-404 status;
- the pages of the language listing and of the website item-language listing.

A 404 is never injected: a probe reports 404 exactly when the record is absent.

Exceptions become values:

- `Outcome` (`Pass` or `Fail`) for steps that return nothing but may raise;
- `Result` (`Ok` or `Err`) for steps that return a value or raise.

The three errors are an API status, a refused token request, and a `ValueError` from `int()` or
`float()`.

## Structure

Each imperative Python method is a Dafny method of a class with the same fields:

- `ComicBagi.Bot`, whose collaborator is a `Destination.Catalog`;
- `MangaDex.BotMangaDex`.

The Python `while`/`for` page loops stay loops with invariants. Each method's `ensures` ties its
new state and its result to a pure step function of the old state, for example
`MangaDex.MangaStep` for `__manga`. The properties the program promises are lemmas about those
step functions:

- `pagination.dfy`: the total-count page walk shared by both `load`s, and limit/offset slicing;
- `destination.dfy`: the catalog, its probes and creates, and the probe-then-create step;
- `comicbagi.dfy`: `Bot`, covering token refresh, the language listing and seeding, and the
  `add_*` helpers with their caches;
- `mangadex.dfy`: `BotMangaDex`, covering `load`, `__manga`, `__manga_chapter`,
  `scrap_comics_complete` and `process`;
- `mangadex_facts.dfy`: the lemmas about the MangaDex bot;
- `text.dfy`, `common.dfy`: ASCII lower-casing, decimal integers (`int()`/`str()`), and the
  result types.

The code has quirks. The model follows them as written and proves them:

- A chapter already in the cache yields `exist = False` (`MangaDexFacts.ChapterExistMeansProbeFound`).
- The chapter counter's test `comic_chapter_nv or not comic_chapter_exist` always holds, so every
  chapter with an id counts (`MangaDexFacts.ChapterAlwaysCounts`, `MangaDexFacts.ChapterCounterCountsIds`).
  The parameter `max_new_comic_chapter` of `process` (bot_mangadex.py:109) suggests that only new
  chapters were meant to count. The model follows the code.
- A `max_*` of 0 behaves like `None`, which means unlimited (`MangaDexFacts.ZeroLimitsAreUnlimited`).
- Every seeding and `add_*` append checks for the key first, so those paths keep each cache duplicate-free
  (`ComicBagi.SeedLanguagesKeepCacheDistinct`, `MangaDexFacts.SeedItemLanguagesKeepCacheDistinct`,
  `ComicBagi.AddStepKeepsCachesDistinct`, `MangaDexFacts.ChapterRecordKeepsCacheDistinct`). The listing walks
  at bot.py:58-59 and bot_mangadex.py:66-67 append every listed item without checking, so a listing that
  repeats an item, or a walk over a cache that already holds it, gives a cache with a duplicate.
- A page without a total-count header ends the walk after that page
  (`Pagination.NoTotalHeaderStopsAfterPage`).

## Model

| member | source | states |
|---|---|---|
| Pagination.TotalCount | src/comicbagi_scrap/bot.py:61-67 | the total-count header scan: the value of the first header named `x-total-count` in any case, else 0 (its properties are stated by `TotalCountFirstMatch`) |
| Pagination.Walk | src/comicbagi_scrap/bot.py:51-73 | the page walk shared by both `load`s: request page n, stop on a failure or an empty page, append the data, stop when the cache reaches the total, else go to page n + 1 |
| Pagination.TotalCountFirstMatch | src/comicbagi_scrap/bot.py:61-67 | the total is the value of the first header whose lower-cased name is `x-total-count`, and 0 when no header matches |
| Pagination.ReadTotalCount | src/comicbagi_scrap/bot.py:61-67 | the header scan loop computes that total |
| Pagination.CapitalisedTotalCountName | src/comicbagi_scrap/bot.py:65 | the spelling `X-Total-Count` is matched after lower-casing |
| Pagination.WalkAppendsPages | src/comicbagi_scrap/bot.py:51-73 | the walk requests at least one page, and the cached items are exactly the data of the requested pages 1..n in order |
| Pagination.WalkContinuesBeforeLast | src/comicbagi_scrap/bot.py:55-73 | every requested page before the last returned data and left the cache below its total, so the page number advanced by one |
| Pagination.WalkStopsAtLast | src/comicbagi_scrap/bot.py:53-70 | the last requested page failed, was empty, or brought the cache to its total; the walk reports a failure exactly when that request failed |
| Pagination.WalkFromNext | src/comicbagi_scrap/bot.py:55-73 | when a page continues the walk, the rest of the walk from that page is its data followed by the walk from the next page |
| Pagination.WalkFromLast | src/comicbagi_scrap/bot.py:55-73 | when a page ends the walk, it is the last page requested, its data (none when it failed) closes the cached items, and it is the failure exactly when it failed |
| Pagination.NoTotalHeaderStopsAfterPage | src/comicbagi_scrap/bot.py:61-70 | without a total-count header, a non-empty page ends the walk after one request |
| Pagination.Chunks | src/comicbagi_scrap/bot.py:53 | a listing cut into pages of `limit` has at least one page |
| Pagination.ChunkCount | src/comicbagi_scrap/bot.py:53 | the number of pages is the ceiling of size / limit |
| Pagination.WalkServedChunks | src/comicbagi_scrap/bot.py:51-73 | on pages that declare the total, the walk reads the rest of the listing in order, one request per page, and stops without failure |
| Pagination.ListingWalkedCompletely | src/comicbagi_scrap/bot.py:51-73 | starting from an empty cache, a consistent listing is read back whole |
| Pagination.TwentyTwoByFifteen | src/comicbagi_scrap/bot.py:53 | 22 languages listed 15 per page take exactly 2 requests and are all cached |
| Pagination.Slice | src/comicbagi_scrap/bot_mangadex.py:345-350 | a limit/offset page holds at most `limit` items, namely items offset.. of the listing; it is short only at the end, and empty exactly past the end or with limit 0 |
| Destination.Ensure | src/comicbagi_scrap/bot_mangadex.py:170-192 | the probe-then-create pattern: probe, create only on 404, propagate any other status (stated by `EnsureCases`) |
| Destination.ProbeFor | src/comicbagi_scrap/bot_mangadex.py:170-211 | every guarded create has a probe of the record it makes |
| Destination.CreateSatisfiesProbe | src/comicbagi_scrap/bot_mangadex.py:170-178 | a successful create makes its probe find the record |
| Destination.EnsureCases | src/comicbagi_scrap/bot_mangadex.py:170-192 | probe then create: a found record creates nothing; a 404 sends exactly one create; any other status propagates without a create; a 404 followed by a failed create logs both and raises the create's status; the step creates exactly when the probe was 404 and the create did not fail |
| Destination.EnsureIdempotent | src/comicbagi_scrap/bot_mangadex.py:170-192 | after a successful ensure, ensuring the same record again finds it and creates nothing |
| Destination.Catalog.constructor | src/comicbagi_scrap/bot.py:26 | the catalog starts with the given records and oracle |
| Destination.Catalog.Get | src/comicbagi_scrap/bot_mangadex.py:44 | a probe is logged and answers from the current records and the oracle |
| Destination.Catalog.Add | src/comicbagi_scrap/bot.py:132-137 | a create is logged and adds its record unless the oracle fails it |
| Destination.Catalog.ListLanguagePage | src/comicbagi_scrap/bot.py:53 | the language listing request returns the oracle's page |
| Destination.Catalog.ListWebsiteItemLanguagePage | src/comicbagi_scrap/bot_mangadex.py:57-61 | the website item-language listing request returns the oracle's page for the host |
| Destination.Catalog.ListComicsLinkedTo | src/comicbagi_scrap/bot_mangadex.py:131-133 | `list_comic` by destination link returns the codes of the comics linked to the href; the model lists them in the order their links were created, a choice the destination API does not document |
| Destination.Catalog.ListComicLinksTo | src/comicbagi_scrap/bot_mangadex.py:213-217 | the comic destination-link listing is non-empty exactly when such a link exists |
| Destination.Catalog.ListChapterLinksTo | src/comicbagi_scrap/bot_mangadex.py:311-316 | the chapter destination-link listing is non-empty exactly when such a link exists |
| ComicBagi.Refresh | src/comicbagi_scrap/bot.py:93-114 | `authenticate`: keep a token valid for more than 300 s, otherwise request one and set the expiry, or raise on refusal |
| ComicBagi.FreshTokenNeedsNoRequest | src/comicbagi_scrap/bot.py:94-95 | a token valid for more than 300 s is kept unchanged, whatever the endpoint would answer |
| ComicBagi.ExpiringTokenIsRefreshed | src/comicbagi_scrap/bot.py:97-114 | otherwise, an ok answer replaces the token and sets expiry to now + expires_in, and a refusal raises and keeps the old token and expiry |
| ComicBagi.RefreshIdempotent | src/comicbagi_scrap/bot.py:93-114 | authenticating again at the same instant changes nothing |
| ComicBagi.AuthenticateStep | src/comicbagi_scrap/bot.py:93-116 | `authenticate` on the bot's state: the refresh rule applied to its token, nothing else changed |
| ComicBagi.Bot.Authenticate | src/comicbagi_scrap/bot.py:93-116 | the method's new token, expiry and result are those of the refresh rule |
| ComicBagi.AppendAbsent | src/comicbagi_scrap/bot.py:139-140 | the `if key not in cache: append` update of the three caches |
| ComicBagi.AppendAbsentCaches | src/comicbagi_scrap/bot.py:139-140 | the cache update adds exactly the key, only grows (the old cache is a prefix), adds at most one entry, and keeps a duplicate-free cache duplicate-free |
| ComicBagi.ChapterCacheKey | src/comicbagi_scrap/bot.py:288-289 | the comic-chapter cache key `f"{code} {number}{version or ''}"` (stated for no version by `UnversionedChapterKey`) |
| ComicBagi.UnversionedChapterKey | src/comicbagi_scrap/bot.py:288-289 | with no version the chapter key is `"<code> <number>"` |
| ComicBagi.AddStep | src/comicbagi_scrap/bot.py:125-296 | an `add_*` helper: the create request, then the cache update only when it succeeded |
| ComicBagi.AddStepCaches | src/comicbagi_scrap/bot.py:125-296 | an `add_*` helper fails exactly when its create request fails, and then caches nothing; on success it adds exactly its record and appends the language, host or chapter key to its cache when absent; the caches of other kinds and the token stay as they were |
| ComicBagi.AddStepKeepsCachesDistinct | src/comicbagi_scrap/bot.py:139-140 | the three caches never gain a duplicate through an `add_*` helper |
| ComicBagi.Bot.Add | src/comicbagi_scrap/bot.py:125-323 | the method sends the create and updates the caches as the helper step says |
| ComicBagi.Bot.AddLanguage | src/comicbagi_scrap/bot.py:125-144 | `add_language`'s new state: the request, then the language cached when absent |
| ComicBagi.Bot.AddWebsite | src/comicbagi_scrap/bot.py:146-165 | `add_website`'s new state: the request, then the host cached when absent |
| ComicBagi.Bot.AddComicChapter | src/comicbagi_scrap/bot.py:272-296 | `add_comic_chapter`'s new state: the request, then the chapter key cached when absent |
| ComicBagi.SeedLanguages | src/comicbagi_scrap/bot.py:75-89 | the seeding loop: skip cached codes, create the others in order, stop at the first failure |
| ComicBagi.Missing | src/comicbagi_scrap/bot.py:84-85 | the seeds the loop does not skip: those whose code is not cached, in seed order |
| ComicBagi.MissingMembers | src/comicbagi_scrap/bot.py:84-86 | a seed is skipped exactly when its code is already cached |
| ComicBagi.TailSeeds | src/comicbagi_scrap/bot.py:76-84 | the language seeds after the first still have distinct codes and unfaulted creates |
| ComicBagi.MissingUnaffected | src/comicbagi_scrap/bot.py:84-86 | caching a code that is not a remaining seed's code does not change which remaining seeds are missing |
| ComicBagi.SeedLanguagesCachesMissing | src/comicbagi_scrap/bot.py:75-89 | when no create fails, seeding appends exactly the missing codes, in seed order, and leaves the token and the other caches alone |
| ComicBagi.SeedLanguagesRequestsMissing | src/comicbagi_scrap/bot.py:84-87 | when no create fails, `add_language` is requested exactly for the missing seeds, in order, and nothing else is sent (`SeedLanguagesRequestsOnlyMissing` covers every fault map) |
| ComicBagi.SeedLanguagesFirstMissing | src/comicbagi_scrap/bot.py:84-89 | a missing seed sends exactly its `add_language`; a failure ends the seeding with that error, and a success caches the code and goes on with the remaining seeds |
| ComicBagi.SeedLanguagesRequestsOnlyMissing | src/comicbagi_scrap/bot.py:84-87 | for every fault map, seeding sends only `add_language` for missing seeds, in seed order: the new log entries are a prefix of those requests, and all of them on a normal return |
| ComicBagi.SeedLanguagesCoversSeeds | src/comicbagi_scrap/bot.py:75-89 | after seeding without error every seed code is cached, and no cached code is lost |
| ComicBagi.SeedLanguagesKeepCacheDistinct | src/comicbagi_scrap/bot.py:84-89 | for every fault map, seeding keeps a duplicate-free language cache duplicate-free and keeps the old cache as a prefix |
| ComicBagi.FetchLanguagesStep | src/comicbagi_scrap/bot.py:51-73 | the language page loop as a walk: cache its items, log one listing request per page, raise its failure |
| ComicBagi.LoadStep | src/comicbagi_scrap/bot.py:41-89 | `load`: authenticate when seeding, walk the language listing, then seed when seeding; each step's failure ends it |
| ComicBagi.LoadSeedsAllLanguages | src/comicbagi_scrap/bot.py:41-89 | after `load(seeding=True)` returns normally, en, id, ja, ko and zh are cached |
| ComicBagi.LoadWithoutSeedingCreatesNothing | src/comicbagi_scrap/bot.py:41-89 | `load(seeding=False)` sends only the listing requests of the walk, one per page, so it calls no `add_language`; it creates no record, keeps the token, caches the walked items, and raises exactly the walk's failure |
| ComicBagi.Bot.constructor | src/comicbagi_scrap/bot.py:16-39 | the session starts with empty caches, no token, and expiry = now |
| ComicBagi.Bot.Load | src/comicbagi_scrap/bot.py:41-91 | `load`'s new state and result: authenticate when seeding, walk the listing, seed when seeding |
| ComicBagi.Bot.FetchLanguages | src/comicbagi_scrap/bot.py:51-73 | the page loop's new cache, requests and result are those of the walk |
| ComicBagi.Bot.ReadLanguagePage | src/comicbagi_scrap/bot.py:53-70 | one pass of the page loop: the listing request is logged, the page's data is cached, and the loop stops exactly when the page failed, was empty or filled the cache to its total |
| ComicBagi.Bot.CacheLanguages | src/comicbagi_scrap/bot.py:58-59 | every listed code is appended in order, duplicates included |
| ComicBagi.Bot.SeedLanguageCache | src/comicbagi_scrap/bot.py:75-89 | the seeding loop's new state and result are those of the seeding step |
| MangaDex.BotMangaDex.constructor | src/comicbagi_scrap/bot_mangadex.py:15-30 | the MangaDex bot starts with an empty item-language cache |
| MangaDex.EnsureStep | src/comicbagi_scrap/bot_mangadex.py:170-178 | an ensure step of the MangaDex bot: a probe, and on 404 the bot's `add_*` helper with its cache update |
| MangaDex.WebsiteStep | src/comicbagi_scrap/bot_mangadex.py:42-53 | the website step of `load`: skip a cached host, cache a found one, create it on 404 when seeding, raise otherwise |
| MangaDexFacts.WebsiteStepCases | src/comicbagi_scrap/bot_mangadex.py:42-53 | a cached host sends nothing; a found, uncached host sends only the probe, is appended to the cache, and the step passes; a 404 creates the website only when seeding and otherwise raises; any other status raises; without seeding no record is created; the website cache stays duplicate-free |
| MangaDex.BotMangaDex.LoadWebsite | src/comicbagi_scrap/bot_mangadex.py:42-53 | the method's new state and result are those of the website step |
| MangaDex.FetchItemLanguagesStep | src/comicbagi_scrap/bot_mangadex.py:55-81 | the item-language page loop as a walk over the website's listing |
| MangaDex.BotMangaDex.FetchItemLanguages | src/comicbagi_scrap/bot_mangadex.py:55-81 | the item-language page loop is the same walk as the language listing, over the website's listing |
| MangaDex.BotMangaDex.ReadItemLanguagePage | src/comicbagi_scrap/bot_mangadex.py:57-78 | one pass of the item-language page loop: the listing request is logged, the page's data is cached, and the loop stops exactly when the page failed, was empty or filled the cache to its total |
| MangaDex.BotMangaDex.CacheItemLanguages | src/comicbagi_scrap/bot_mangadex.py:66-67 | every listed item language is appended in order |
| MangaDex.SeedItemLanguages | src/comicbagi_scrap/bot_mangadex.py:83-100 | the item-language seeding loop: skip cached languages, create the others with `machine_translate=0`, stop at the first failure |
| MangaDexFacts.SeedItemLanguagesAddsMissing | src/comicbagi_scrap/bot_mangadex.py:83-100 | when no create fails, `add_website_item_language(host, k, 0)` is sent exactly for the missing seeds, and they are appended in order |
| MangaDexFacts.SeedItemLanguagesRequestsOnlyMissing | src/comicbagi_scrap/bot_mangadex.py:88-98 | for every fault map, item-language seeding sends only `add_website_item_language(host, k, 0)` for missing seeds, in seed order: a prefix of those requests, and all of them on a normal return |
| MangaDexFacts.SeedItemLanguagesCreatesFirst | src/comicbagi_scrap/bot_mangadex.py:89-98 | a missing seed whose create succeeds sends exactly that create, caches the language and moves on to the next seed |
| MangaDexFacts.SeedItemLanguagesCoversSeeds | src/comicbagi_scrap/bot_mangadex.py:83-100 | after seeding without error, every seed is cached and no cached language is lost |
| MangaDexFacts.SeedItemLanguagesKeepCacheDistinct | src/comicbagi_scrap/bot_mangadex.py:88-98 | for every fault map, item-language seeding keeps a duplicate-free cache duplicate-free and keeps the old cache as a prefix |
| MangaDex.BotMangaDex.SeedItemLanguageCache | src/comicbagi_scrap/bot_mangadex.py:83-100 | the item-language seeding loop's new state and result are those of the seeding step |
| MangaDexFacts.LoadSeedsItemLanguages | src/comicbagi_scrap/bot_mangadex.py:32-100 | after `load(True)` returns normally, en and id are item languages |
| MangaDexFacts.LoadWithoutSeedingCreatesNothing | src/comicbagi_scrap/bot_mangadex.py:32-100 | `load(False)` creates no record and sends no create request: the old log is kept as a prefix and every later entry is a probe or a listing |
| MangaDex.LoadMangaDexStep | src/comicbagi_scrap/bot_mangadex.py:32-100 | `load`: authenticate when seeding, the website step, the item-language walk, then seeding when seeding |
| MangaDex.BotMangaDex.Load | src/comicbagi_scrap/bot_mangadex.py:32-100 | `load`'s new state and result are those of the load step |
| MangaDex.BotMangaDex.EnsureRecord | src/comicbagi_scrap/bot_mangadex.py:170-178 | a probe followed, on 404, by the bot's `add_*` helper |
| MangaDex.ScanLinks | src/comicbagi_scrap/bot_mangadex.py:147-165 | the links scan of `__manga`: stop at the first code, try only `mal` keys, skip them without a resolver, raise on a non-integer MAL id |
| MangaDexFacts.ScanWithoutResolver | src/comicbagi_scrap/bot_mangadex.py:156-157 | without a resolver, no link yields a code |
| MangaDexFacts.ScanIgnoresOtherKeys | src/comicbagi_scrap/bot_mangadex.py:152-165 | links other than `mal` never yield a code |
| MangaDexFacts.ScanFindsFirstCode | src/comicbagi_scrap/bot_mangadex.py:147-165 | when the first `mal` link that resolves is at position i, the scan returns that link's code |
| MangaDexFacts.ScanResultCharacterised | src/comicbagi_scrap/bot_mangadex.py:147-168 | a code, when found, comes from the first resolving `mal` link; no code is found exactly when no `mal` link resolves and none is malformed |
| MangaDex.BotMangaDex.ScanForCode | src/comicbagi_scrap/bot_mangadex.py:147-165 | the links loop computes the scan's result |
| MangaDex.LinkLanguagesStep | src/comicbagi_scrap/bot_mangadex.py:194-211 | the link item-language loop: ensure `(href, l, 0)` for each available language the website carries, stop at the first failure |
| MangaDexFacts.LinkLanguagesFiltered | src/comicbagi_scrap/bot_mangadex.py:194-211 | the loop touches only link item-languages and the log; it sends only probes and creates `(href, l, 0)` for available languages l that are item languages; when it succeeds, each such language is linked |
| MangaDex.BotMangaDex.LinkLanguages | src/comicbagi_scrap/bot_mangadex.py:194-211 | the loop's new state and result are those of the link item-language step |
| MangaDexFacts.MangaWithoutCodeCreatesNothing | src/comicbagi_scrap/bot_mangadex.py:126-168 | when `__manga` returns no code (no id, no attributes when unmatched, or no resolved code), no record is created and the item languages are unchanged |
| MangaDexFacts.MangaFindsLinkedComic | src/comicbagi_scrap/bot_mangadex.py:131-135 | when a comic already links to the title, the first such comic is returned with `exist = True` and nothing is created |
| MangaDexFacts.LinkedComicsAppend | src/comicbagi_scrap/bot_mangadex.py:131-133 | a new destination link adds its comic to the end of the listing for its href |
| MangaDexFacts.NoLinkedComicMeansNoLink | src/comicbagi_scrap/bot_mangadex.py:141 | the listing is empty exactly when no destination link has the href |
| MangaDex.ComicRecordsStep | src/comicbagi_scrap/bot_mangadex.py:170-230 | the records for a resolved code: comic, title link, link item languages, then the destination link when the listing shows none |
| MangaDex.ReleasedAt | src/comicbagi_scrap/bot_mangadex.py:217-221 | `released_at`: `createdAt` when truthy, otherwise the current time (the chapter link repeats this at bot_mangadex.py:317-320) |
| MangaDexFacts.ComicRecordsLinks | src/comicbagi_scrap/bot_mangadex.py:213-230 | after the records step succeeds, the comic's destination link was added exactly when it was missing, released at `createdAt` when present and otherwise at now |
| MangaDexFacts.ComicRecordsHold | src/comicbagi_scrap/bot_mangadex.py:170-230 | after the records step returns normally, the comic, its title link, its destination link and the link item language of every available language the website carries all exist, and the code is reported as new |
| MangaDexFacts.MangaRerunFindsComic | src/comicbagi_scrap/bot_mangadex.py:123-237 | running `__manga` again after it created a comic finds that comic (`exist = True`) and creates nothing |
| MangaDex.BotMangaDex.ComicRecords | src/comicbagi_scrap/bot_mangadex.py:170-230 | the method's new state and result are those of the records step |
| MangaDex.NewComicStep | src/comicbagi_scrap/bot_mangadex.py:141-230 | the branch with no linked comic: no attributes give no code, else scan the links and make the records for a resolved code |
| MangaDex.MangaStep | src/comicbagi_scrap/bot_mangadex.py:123-237 | `__manga`: skip a manga without id, list comics linked to the title, authenticate, return the first linked comic or take the new-comic branch |
| MangaDex.BotMangaDex.NewComic | src/comicbagi_scrap/bot_mangadex.py:141-230 | the branch taken when no comic is linked yet, as the step function says |
| MangaDex.BotMangaDex.ReconcileManga | src/comicbagi_scrap/bot_mangadex.py:123-237 | `__manga`'s new state and result are those of the manga step |
| MangaDex.Normalize | src/comicbagi_scrap/bot_mangadex.py:251-255 | the chapter number: `float()` failing raises, an integer literal becomes an int, anything else the float's text |
| MangaDexFacts.NumberTextNonEmpty | src/comicbagi_scrap/bot_mangadex.py:276 | a chapter's number text is never empty |
| MangaDexFacts.NormalizeExamples | src/comicbagi_scrap/bot_mangadex.py:251-255 | "10" and "-3" become ints and "10.5" a float; a string `float()` refuses raises; the key of chapter 10 of c1 is "c1 10" |
| Text.NatToDecimal | src/comicbagi_scrap/bot_mangadex.py:276 | `str()` of a natural number is all digits with no leading zero |
| Text.DecimalRoundTrip | src/comicbagi_scrap/bot_mangadex.py:253 | reading back the decimal text of a natural number gives the number |
| Text.IntLiteralRoundTrip | src/comicbagi_scrap/bot_mangadex.py:253 | `int(str(i)) == i` for every int |
| Text.IntToDecimalInjective | src/comicbagi_scrap/bot_mangadex.py:257 | distinct whole numbers have distinct texts |
| MangaDexFacts.ChapterKeysDistinguishNumbers | src/comicbagi_scrap/bot_mangadex.py:257 | two whole chapter numbers share a cache key only when equal |
| MangaDex.Skipped | src/comicbagi_scrap/bot_mangadex.py:244-245 | the early return of `__manga_chapter`: no id, no attributes, or no chapter text |
| MangaDexFacts.SkippedChapterChangesNothing | src/comicbagi_scrap/bot_mangadex.py:244-245 | a chapter without id, attributes or number returns `(None, False)` and changes nothing |
| MangaDexFacts.ChapterExistMeansProbeFound | src/comicbagi_scrap/bot_mangadex.py:257-274 | `exist` is True exactly when the key was not cached and the probe found the chapter; on a cache hit no request is made and `exist` is False |
| MangaDexFacts.ChapterKeyCached | src/comicbagi_scrap/bot_mangadex.py:257-274 | after a normal return the chapter key `"<code> <number>"` is cached |
| MangaDexFacts.ChapterLanguageSkipped | src/comicbagi_scrap/bot_mangadex.py:280-281 | a chapter whose language is no item language creates no link, link item-language or chapter destination link |
| MangaDexFacts.ChapterLinksKeepCaches | src/comicbagi_scrap/bot_mangadex.py:283-330 | the link steps leave the chapter cache, the languages and the token alone |
| MangaDexFacts.ChapterLinksHold | src/comicbagi_scrap/bot_mangadex.py:283-330 | after the link steps succeed, the chapter link, its item language and the chapter destination link all exist |
| MangaDexFacts.ChapterLinksRerun | src/comicbagi_scrap/bot_mangadex.py:283-330 | when all three already exist, the link steps create nothing |
| MangaDexFacts.ChapterRerunCreatesNothing | src/comicbagi_scrap/bot_mangadex.py:239-332 | running `__manga_chapter` again on the same chapter creates nothing and reports `exist = False` |
| MangaDex.Counts | src/comicbagi_scrap/bot_mangadex.py:393-395 | the chapter counter's test `comic_chapter_nv or not comic_chapter_exist` |
| MangaDexFacts.ChapterAlwaysCounts | src/comicbagi_scrap/bot_mangadex.py:393-395 | every normal return of `__manga_chapter` satisfies the counter's test |
| MangaDex.ChapterRecordStep | src/comicbagi_scrap/bot_mangadex.py:257-274 | the chapter record: a cached key sends nothing and gives `exist = False`; otherwise a found chapter is cached with `exist = True`, and on 404 `add_comic_chapter` creates and caches it with `exist = False` |
| MangaDexFacts.ChapterRecordKeepsCacheDistinct | src/comicbagi_scrap/bot_mangadex.py:257-274 | the chapter record step only appends to the chapter cache and keeps it duplicate-free: a found chapter's key is appended only after a cache miss |
| MangaDex.ChapterLinksStep | src/comicbagi_scrap/bot_mangadex.py:283-330 | the chapter's link, its item language and its destination link, each only when missing |
| MangaDex.MangaChapterStep | src/comicbagi_scrap/bot_mangadex.py:239-332 | `__manga_chapter`: the early return, the number, the record, and the link steps when the language is an item language |
| MangaDexFacts.MangaChapterKeepsCacheDistinct | src/comicbagi_scrap/bot_mangadex.py:239-332 | `__manga_chapter` only appends to the chapter cache and keeps it duplicate-free |
| MangaDex.BotMangaDex.ChapterRecord | src/comicbagi_scrap/bot_mangadex.py:257-274 | the method's new state and `exist` are those of the chapter-record step |
| MangaDex.BotMangaDex.ChapterLinks | src/comicbagi_scrap/bot_mangadex.py:283-330 | the method's new state and result are those of the link steps |
| MangaDex.BotMangaDex.ReconcileChapter | src/comicbagi_scrap/bot_mangadex.py:239-332 | `__manga_chapter`'s new state and result are those of the chapter step |
| MangaDex.Reached | src/comicbagi_scrap/bot_mangadex.py:342-343 | the limit test `max and total > max - 1`, repeated at bot_mangadex.py:353, 369 and 381: a limit of None or 0 never stops the loop |
| MangaDex.ChapterEntryStep | src/comicbagi_scrap/bot_mangadex.py:384-395 | one feed chapter: skip it without id, else `__manga_chapter` and the counter test |
| MangaDex.ScrapChaptersStep | src/comicbagi_scrap/bot_mangadex.py:364-398 | the feed loops over the flattened feed: stop at the chapter limit or the end, else one chapter entry |
| MangaDex.MangaEntryStep | src/comicbagi_scrap/bot_mangadex.py:356-405 | one search result: skip it without id, else `__manga`, the feed when a code resolved, and the new-comic counter |
| MangaDex.ScrapMangaStep | src/comicbagi_scrap/bot_mangadex.py:362-405 | one manga: `__manga`, then its feed from an empty chapter counter when a code resolved; it counts as new when a code resolved and did not exist |
| MangaDex.ScrapMangasStep | src/comicbagi_scrap/bot_mangadex.py:338-405 | the search loops over the flattened results: stop at the comic limit or the end, else one manga entry |
| MangaDexFacts.ScrapChaptersWithinMax | src/comicbagi_scrap/bot_mangadex.py:366-395 | with a truthy `max_comic_chapter`, the chapter counter never exceeds it |
| MangaDexFacts.ScrapMangasWithinMax | src/comicbagi_scrap/bot_mangadex.py:338-405 | with a truthy `max_comic`, the new-comic counter never exceeds it |
| MangaDexFacts.ZeroChapterLimitIsUnlimited | src/comicbagi_scrap/bot_mangadex.py:366-380 | `max_comic_chapter = 0` behaves exactly like None |
| MangaDexFacts.ZeroLimitsAreUnlimited | src/comicbagi_scrap/bot_mangadex.py:342-354 | `max_comic = max_comic_chapter = 0` behaves exactly like None |
| MangaDexFacts.ChapterCounterCountsIds | src/comicbagi_scrap/bot_mangadex.py:380-395 | without a chapter limit, the counter ends at the number of feed chapters that have an id |
| MangaDex.BotMangaDex.ScrapChapters | src/comicbagi_scrap/bot_mangadex.py:364-398 | the nested feed loops walk the feed 50 chapters at a time and give the chapter step's state and count |
| MangaDex.BotMangaDex.ScrapFeedPage | src/comicbagi_scrap/bot_mangadex.py:376-395 | the loop over one feed page continues the chapter step from that page's offset to the next page, or stops with its error |
| MangaDex.BotMangaDex.ScrapChapterEntry | src/comicbagi_scrap/bot_mangadex.py:384-395 | one feed chapter: skipped without an id, otherwise `__manga_chapter` and the counter |
| MangaDex.ScrapChaptersPageEnd | src/comicbagi_scrap/bot_mangadex.py:380-382 | once the page is used up or the chapter limit is reached, the rest of the page adds nothing |
| MangaDex.BotMangaDex.ScrapManga | src/comicbagi_scrap/bot_mangadex.py:356-405 | one manga: `__manga`, its feed when a code was resolved, and whether it counts as new |
| MangaDex.BotMangaDex.ScrapSearchPage | src/comicbagi_scrap/bot_mangadex.py:352-405 | the inner loop over one search page continues the manga step from that page's offset |
| MangaDex.BotMangaDex.ScrapMangaEntry | src/comicbagi_scrap/bot_mangadex.py:356-405 | one search result: skipped without an id, otherwise the manga step and the new-comic counter |
| MangaDex.ScrapMangasPageEnd | src/comicbagi_scrap/bot_mangadex.py:352-354 | once the page is used up or the comic limit is reached, the rest of the page adds nothing |
| MangaDex.BotMangaDex.ScrapComicsComplete | src/comicbagi_scrap/bot_mangadex.py:334-408 | the nested page loops walk the search results 10 at a time and give the manga step's state and count |
| MangaDex.BotMangaDex.Process | src/comicbagi_scrap/bot_mangadex.py:109-121 | `process` is a seeding `load` followed by the scrape |
| MangaDex.ProcessStep | src/comicbagi_scrap/bot_mangadex.py:109-121 | `process`: a seeding `load`, then the scrape from an empty counter |
| MangaDexFacts.ProcessLoadsThenScraps | src/comicbagi_scrap/bot_mangadex.py:109-121 | a failing `load` is the result and nothing is scraped; otherwise en and id are item languages before the scrape, and a normal return reports at most `max_comic` new comics (none for a negative limit) |

## Left out

- HTTP wire format and the REST clients: each request is a `Destination.Call` answered from the store and an oracle. Listing pages are given as data, and header values are already-parsed ints.
- MangaDex requests (search and feed) never fail in the model. Their errors are not modelled, and they are not logged.
- `time.sleep` pacing, the notes, logging and the note file: these are I/O with no effect on state.
- `time.time()` and `datetime.now()`: one `now` stands for the clock during a whole `load`, `__manga`, `__manga_chapter` or `process`. Within one `process` every `authenticate` and every `released_at` sees the same instant, so a token that expires in the middle of a long scrape is refreshed by the program but not by the model, and every fallback `released_at` is the same time.
- `datetime.fromisoformat`: `released_at` is the `createdAt` text itself, or the current time. A malformed timestamp, which raises in Python, is not modelled.
- `float()` and `str(float)`: the chapter's float text is given with the chapter (`floatText`), or None when `float()` refuses the text. The model does not check that the given text is consistent with the chapter string.
- `int()`: it accepts an optional sign and ASCII digits. Surrounding whitespace, underscores and non-ASCII digits are not modelled.
- `str.lower()` is modelled on ASCII letters only.
- `urllib.parse.quote` is the identity: MangaDex ids and hosts are taken to be URL-safe.
- The clock and `float(token['expires_in'])` (bot.py:114) are whole seconds in `int`; fractions of a second are not modelled.
- A token reply that is ok but lacks `access_token` or `expires_in` raises a `KeyError` in Python; the model's `Granted` reply always carries both, so that error is not modelled.
- The OAuth token request is answered by a fixed `TokenReply` and is not a catalog request, so it is not logged. A refused refresh shows only as its error. So `ComicBagi.LoadWithoutSeedingCreatesNothing` can say that no token request was made only in the form: the token is unchanged.
- The order of `list_comic`'s results is not documented by the destination API. The model lists comics in the order their destination links were created, so when several comics share a link, `__manga` returns the one linked first (`MangaDexFacts.MangaFindsLinkedComic`).
- The companion resolver (`BotJikan.get_or_add_comic_complete`) is a map from MAL id to code, or None when no resolver is configured. Its own requests and side effects are not modelled.
- The manga's `links` dictionary is a sequence of pairs in its iteration order.
- `Bot.add_website_item_language`, `add_link`, `add_link_item_language`, `add_comic`, `add_comic_destinaton_link` and `add_comic_chapter_destinaton_link` keep no cache. They are modelled together by `ComicBagi.Bot.Add`, which sends the create and nothing else.
- The `version` argument of `add_comic_chapter` is modelled in the cache key, but `__manga_chapter` always passes None.
- MangaDexFacts.ChapterKeysDistinguishNumbers: covers whole numbers only; whether two fractional float texts can collide depends on `str(float)`, which is not modelled.
