/** The MangaDex reconciler: it walks MangaDex's search results and chapter feeds and makes the
    ComicBagi catalog hold a comic, its links and its chapters for each of them, creating only
    what a probe reports missing. */
module MangaDex {
  import opened Common
  import opened Text
  import opened Pagination
  import opened Destination
  import opened ComicBagi

  const Host: string := "mangadex.org"
  const WebsiteName: string := "MangaDex"
  const ItemLanguagePageLimit: nat := 15
  const SearchPageLimit: nat := 10
  const FeedPageLimit: nat := 50

  /** The item languages seeded at load, with their `machine_translate` value. */
  const ItemLanguageSeeds: seq<(string, int)> := [("en", 0), ("id", 0)]

  /** `str(float(text))`: never empty. */
  type FloatText = t: string | t != "" witness "0.0"

  /** The fields of a MangaDex manga the reconciler reads. `links` keeps the order of the
      source's `links` mapping; a missing field is the empty sequence or "". */
  datatype MangaAttributes = MangaAttributes(
    links: seq<(string, string)>,
    availableTranslatedLanguages: seq<string>,
    createdAt: string)

  datatype Manga = Manga(id: string, attributes: Option<MangaAttributes>)

  /** The fields of a MangaDex chapter the reconciler reads. `floatText` is what `float()` makes
      of `chapter`: None when it raises, otherwise the text of the float. */
  datatype ChapterAttributes = ChapterAttributes(
    chapter: string,
    floatText: Option<FloatText>,
    translatedLanguage: Option<string>,
    createdAt: string)

  datatype Chapter = Chapter(id: string, attributes: Option<ChapterAttributes>)

  /** MangaDex as the reconciler sees it: the search results in order, and each manga's feed. */
  datatype Source = Source(search: seq<Manga>, feeds: map<string, seq<Chapter>>)

  function Feed(src: Source, id: string): seq<Chapter> {
    if id in src.feeds then src.feeds[id] else []
  }

  /** The companion resolver from a MyAnimeList id to a comic code, when one is configured;
      a missing entry is a resolver that returns no code. */
  type Resolver = Option<map<int, string>>

  function Resolve(jikan: map<int, string>, malId: int): string {
    if malId in jikan then jikan[malId] else ""
  }

  /** What a reconcile call sees that it does not change: the catalog's oracle, the token
      endpoint, the resolver, MangaDex, and the current time. */
  datatype Env = Env(oracle: Oracle, endpoint: TokenReply, resolver: Resolver, source: Source, now: int) {
    function Faults(): map<Call, FailStatus> { oracle.faults }
  }

  /** The MangaDex bot's state: the session bot's, and its own item-language cache. */
  datatype MState = MState(bot: BotState, itemLanguages: seq<string>)

  /** The result of `__manga`: the comic code ("" for none) and whether it already existed. */
  datatype Resolved = Resolved(code: string, exist: bool)

  /** The result of `__manga_chapter`: the chapter's number text ("" for none) and whether it
      already existed. */
  datatype ChapterResolved = ChapterResolved(nv: string, exist: bool)

  function TitlePath(id: string): string { "/title/" + id }
  function ChapterPath(id: string): string { "/chapter/" + id }
  function TitleHref(id: string): string { Href(Host, TitlePath(id)) }
  function ChapterHref(id: string): string { Href(Host, ChapterPath(id)) }

  /** `released_at`: the item's `createdAt` when it has one, otherwise the current time. */
  function ReleasedAt(createdAt: string, now: int): Stamp {
    if Truthy(createdAt) then CreatedAt(createdAt) else Clock(now)
  }

  /** `max and total > max - 1`: a limit of None or 0 never stops the walk. */
  predicate Reached(max: Option<int>, total: int) {
    TruthyCount(max) && total > max.value - 1
  }

  /** The scan of the manga's links for a comic code: it stops at the first code, tries only
      `mal` keys, skips them without a resolver, and raises when a MAL id is not an integer. */
  function ScanLinks(links: seq<(string, string)>, resolver: Resolver, code: string): Result<string>
    decreases |links|
  {
    if links == [] || Truthy(code) then Ok(code)
    else if links[0].0 != "mal" || resolver.None? then ScanLinks(links[1..], resolver, code)
    else if !IsIntLiteral(links[0].1) then Err(NotANumber)
    else ScanLinks(links[1..], resolver, Resolve(resolver.value, ParseInt(links[0].1)))
  }

  /** The chapter number: an error when `float()` refuses the text, the integer when `int()`
      accepts it, the float otherwise. */
  function Normalize(chapter: string, floatText: Option<FloatText>): Result<ChapterNumber> {
    if floatText.None? then Err(NotANumber)
    else if IsIntLiteral(chapter) then Ok(Whole(ParseInt(chapter)))
    else Ok(Fractional(floatText.value))
  }

  /** An ensure-exists step: the probe, and on 404 the bot's `add_*` helper for the record. */
  function EnsureStep(b: BotState, faults: map<Call, FailStatus>, c: Call): (BotState, Result<Ensured>)
    requires Guarded(c)
  {
    var (s, r) := Ensure(b.store, faults, c);
    ((if r == Ok(Created) then Cached(b, c) else b).(store := s), r)
  }

  //
  // load
  //

  /** The website step of `load`. */
  function WebsiteStep(b: BotState, faults: map<Call, FailStatus>, seeding: bool): (BotState, Outcome) {
    if Host in b.websites then (b, Pass)
    else
      var probe := GetWebsite(Host);
      var b1 := b.(store := Logged(b.store, probe));
      match ProbeOf(b.store, faults, probe)
      case Found => (b1.(websites := b1.websites + [Host]), Pass)
      case NotFound =>
        if seeding then AddStep(b1, faults, AddWebsite(Host, WebsiteName))
        else (b1, Fail(ApiError(NotFoundStatus)))
      case Error(status) => (b1, Fail(ApiError(status)))
  }

  function ItemLanguagePageCalls(count: nat): seq<Call> {
    seq(count, i requires 0 <= i < count => ListWebsiteItemLanguage(Host, i + 1, ItemLanguagePageLimit))
  }

  lemma ItemLanguagePageCallsNext(n: nat)
    ensures ItemLanguagePageCalls(n) + [ListWebsiteItemLanguage(Host, n + 1, ItemLanguagePageLimit)]
            == ItemLanguagePageCalls(n + 1)
  {
  }

  /** The item-language page loop of `load`. */
  function FetchItemLanguagesStep(m: MState, pages: seq<Reply<string>>): (MState, Outcome) {
    var w := Walk(pages, 1, |m.itemLanguages|);
    var m1 := m.(itemLanguages := m.itemLanguages + w.items,
                 bot := m.bot.(store := LoggedAll(m.bot.store, ItemLanguagePageCalls(w.pages))));
    if w.failure.Some? then (m1, Fail(ApiError(w.failure.value))) else (m1, Pass)
  }

  /** The item-language seeding loop of `load`. */
  function SeedItemLanguages(m: MState, faults: map<Call, FailStatus>, seeds: seq<(string, int)>): (MState, Outcome)
    decreases |seeds|
  {
    if seeds == [] then (m, Pass)
    else if seeds[0].0 in m.itemLanguages then SeedItemLanguages(m, faults, seeds[1..])
    else
      var (b1, o) := AddStep(m.bot, faults, AddWebsiteItemLanguage(Host, seeds[0].0, Some(seeds[0].1)));
      if o.Fail? then (m.(bot := b1), o)
      else SeedItemLanguages(m.(bot := b1, itemLanguages := m.itemLanguages + [seeds[0].0]), faults, seeds[1..])
  }

  /** `BotMangaDex.load`. */
  function LoadMangaDexStep(m: MState, e: Env, seeding: bool): (MState, Outcome) {
    var (b0, auth) := if seeding then AuthenticateStep(m.bot, e.endpoint, e.now) else (m.bot, Pass);
    if auth.Fail? then (m.(bot := b0), auth)
    else
      var (b1, site) := WebsiteStep(b0, e.Faults(), seeding);
      if site.Fail? then (m.(bot := b1), site)
      else
        var (m2, listed) := FetchItemLanguagesStep(m.(bot := b1), ItemLanguagePages(e.oracle, Host));
        if listed.Fail? || !seeding then (m2, listed)
        else SeedItemLanguages(m2, e.Faults(), ItemLanguageSeeds)
  }

  //
  // __manga
  //

  /** The link item-language loop of `__manga`: only languages the website carries. */
  function LinkLanguagesStep(b: BotState, faults: map<Call, FailStatus>, href: string, langs: seq<string>,
                             registered: seq<string>): (BotState, Outcome)
    decreases |langs|
  {
    if langs == [] then (b, Pass)
    else if langs[0] !in registered then LinkLanguagesStep(b, faults, href, langs[1..], registered)
    else
      var (b1, r) := EnsureStep(b, faults, AddLinkItemLanguage(href, langs[0], Some(0)));
      if r.Err? then (b1, Fail(r.error)) else LinkLanguagesStep(b1, faults, href, langs[1..], registered)
  }

  /** The records `__manga` makes for a resolved code: comic, link, link item-languages and the
      comic's destination link. */
  function ComicRecordsStep(m: MState, e: Env, id: string, attrs: MangaAttributes, code: string): (MState, Result<Resolved>) {
    var (b1, r1) := EnsureStep(m.bot, e.Faults(), AddComic(code));
    if r1.Err? then (m.(bot := b1), Err(r1.error))
    else
      var (b2, r2) := EnsureStep(b1, e.Faults(), AddLink(Host, TitlePath(id)));
      if r2.Err? then (m.(bot := b2), Err(r2.error))
      else
        var (b3, r3) := LinkLanguagesStep(b2, e.Faults(), TitleHref(id), attrs.availableTranslatedLanguages, m.itemLanguages);
        if r3.Fail? then (m.(bot := b3), Err(r3.error))
        else
          var (s4, listed) := ListComicLinks(b3.store, e.Faults(), code, TitleHref(id));
          var b4 := b3.(store := s4);
          if listed.Err? then (m.(bot := b4), Err(listed.error))
          else if listed.value then (m.(bot := b4), Ok(Resolved(code, false)))
          else
            var (b5, o) := AddStep(b4, e.Faults(), AddComicDestinationLink(code, Host, TitlePath(id), ReleasedAt(attrs.createdAt, e.now)));
            (m.(bot := b5), if o.Fail? then Err(o.error) else Ok(Resolved(code, false)))
  }

  /** The branch of `__manga` where no comic links to the title yet. */
  function NewComicStep(m: MState, e: Env, manga: Manga): (MState, Result<Resolved>) {
    match manga.attributes
    case None => (m, Ok(Resolved("", false)))
    case Some(attrs) =>
      match ScanLinks(attrs.links, e.resolver, "")
      case Err(err) => (m, Err(err))
      case Ok(code) =>
        if !Truthy(code) then (m, Ok(Resolved(code, false)))
        else ComicRecordsStep(m, e, manga.id, attrs, code)
  }

  /** `__manga`. */
  function MangaStep(m: MState, e: Env, manga: Manga): (MState, Result<Resolved>) {
    if !Truthy(manga.id) then (m, Ok(Resolved("", false)))
    else
      var (s1, listed) := ListComics(m.bot.store, e.Faults(), TitleHref(manga.id));
      var b1 := m.bot.(store := s1);
      if listed.Err? then (m.(bot := b1), Err(listed.error))
      else
        var (b2, auth) := AuthenticateStep(b1, e.endpoint, e.now);
        if auth.Fail? then (m.(bot := b2), Err(auth.error))
        else if |listed.value| >= 1 then (m.(bot := b2), Ok(Resolved(listed.value[0], true)))
        else NewComicStep(m.(bot := b2), e, manga)
  }

  //
  // __manga_chapter
  //

  /** The chapter record of `__manga_chapter`: skipped on a cache hit, otherwise probed, cached
      when found, and created on 404. The boolean is `exist`. */
  function ChapterRecordStep(b: BotState, faults: map<Call, FailStatus>, code: string, number: ChapterNumber): (BotState, Result<bool>) {
    var key := ChapterCacheKey(code, number, None);
    if key in b.comicChapters then (b, Ok(false))
    else
      var (b1, r) := EnsureStep(b, faults, AddComicChapter(code, number, None));
      match r
      case Err(err) => (b1, Err(err))
      case Ok(Existed) => (b1.(comicChapters := b1.comicChapters + [key]), Ok(true))
      case Ok(Created) => (b1, Ok(false))
  }

  /** The link records of `__manga_chapter`: link, link item-language and the chapter's
      destination link. */
  function ChapterLinksStep(b: BotState, e: Env, code: string, nv: string, id: string, lang: string,
                            createdAt: string): (BotState, Outcome)
  {
    var (b1, r1) := EnsureStep(b, e.Faults(), AddLink(Host, ChapterPath(id)));
    if r1.Err? then (b1, Fail(r1.error))
    else
      var (b2, r2) := EnsureStep(b1, e.Faults(), AddLinkItemLanguage(ChapterHref(id), lang, Some(0)));
      if r2.Err? then (b2, Fail(r2.error))
      else
        var (s3, listed) := ListChapterLinks(b2.store, e.Faults(), code, nv, ChapterHref(id));
        var b3 := b2.(store := s3);
        if listed.Err? then (b3, Fail(listed.error))
        else if listed.value then (b3, Pass)
        else AddStep(b3, e.Faults(),
                     AddComicChapterDestinationLink(code, nv, Host, ChapterPath(id), ReleasedAt(createdAt, e.now)))
  }

  /** Whether `__manga_chapter` returns early, before any request. */
  predicate Skipped(chapter: Chapter) {
    !Truthy(chapter.id) || chapter.attributes.None? || !Truthy(chapter.attributes.value.chapter)
  }

  /** `__manga_chapter`. */
  function MangaChapterStep(m: MState, e: Env, code: string, chapter: Chapter): (MState, Result<ChapterResolved>) {
    if Skipped(chapter) then (m, Ok(ChapterResolved("", false)))
    else
      var attrs := chapter.attributes.value;
      match Normalize(attrs.chapter, attrs.floatText)
      case Err(err) => (m, Err(err))
      case Ok(number) =>
        var (b1, exist) := ChapterRecordStep(m.bot, e.Faults(), code, number);
        if exist.Err? then (m.(bot := b1), Err(exist.error))
        else
          var nv := NumberText(number);
          var lang := attrs.translatedLanguage;
          if lang.None? || lang.value !in m.itemLanguages then (m.(bot := b1), Ok(ChapterResolved(nv, exist.value)))
          else
            var (b2, o) := ChapterLinksStep(b1, e, code, nv, chapter.id, lang.value, attrs.createdAt);
            (m.(bot := b2), if o.Fail? then Err(o.error) else Ok(ChapterResolved(nv, exist.value)))
  }

  //
  // scrap_comics_complete
  //

  /** The chapter counter's test: `comic_chapter_nv or not comic_chapter_exist`. */
  predicate Counts(r: ChapterResolved) {
    Truthy(r.nv) || !r.exist
  }

  /** One feed entry of the chapter loop: an entry without an id is skipped, any other goes
      through `__manga_chapter` and may advance the counter `total`. */
  function ChapterEntryStep(m: MState, e: Env, code: string, chapter: Chapter, total: nat): (MState, Result<nat>) {
    if !Truthy(chapter.id) then (m, Ok(total))
    else
      var (m1, r) := MangaChapterStep(m, e, code, chapter);
      if r.Err? then (m1, Err(r.error)) else (m1, Ok(if Counts(r.value) then total + 1 else total))
  }

  /** The chapter loop of `scrap_comics_complete` from position `k` of the feed, with
      `total` chapters counted so far; the result is the final count. */
  function ScrapChaptersStep(m: MState, e: Env, code: string, feed: seq<Chapter>, k: nat, max: Option<int>, total: nat)
    : (MState, Result<nat>)
    decreases |feed| - k
  {
    if Reached(max, total) || k >= |feed| then (m, Ok(total))
    else
      var (m1, r) := ChapterEntryStep(m, e, code, feed[k], total);
      if r.Err? then (m1, r) else ScrapChaptersStep(m1, e, code, feed, k + 1, max, r.value)
  }

  /** One manga of `scrap_comics_complete`: `__manga`, then, when a code was resolved, its
      chapter feed. The boolean says whether the comic counts as new. */
  function ScrapMangaStep(m: MState, e: Env, manga: Manga, maxChapter: Option<int>): (MState, Result<bool>) {
    var (m1, r) := MangaStep(m, e, manga);
    if r.Err? then (m1, Err(r.error))
    else
      var (m2, chapters) :=
        if Truthy(r.value.code) then ScrapChaptersStep(m1, e, r.value.code, Feed(e.source, manga.id), 0, maxChapter, 0)
        else (m1, Ok(0));
      if chapters.Err? then (m2, Err(chapters.error))
      else (m2, Ok(Truthy(r.value.code) && !r.value.exist))
  }

  /** One search result of the manga loop: a manga without an id is skipped, any other is
      scraped and advances the counter `total` when it is a new comic. */
  function MangaEntryStep(m: MState, e: Env, manga: Manga, maxChapter: Option<int>, total: nat): (MState, Result<nat>) {
    if !Truthy(manga.id) then (m, Ok(total))
    else
      var (m1, r) := ScrapMangaStep(m, e, manga, maxChapter);
      if r.Err? then (m1, Err(r.error)) else (m1, Ok(if r.value then total + 1 else total))
  }

  /** The manga loop of `scrap_comics_complete` from position `k` of the search results, with
      `total` new comics counted so far; the result is the final count. */
  function ScrapMangasStep(m: MState, e: Env, k: nat, maxComic: Option<int>, maxChapter: Option<int>, total: nat)
    : (MState, Result<nat>)
    decreases |e.source.search| - k
  {
    if Reached(maxComic, total) || k >= |e.source.search| then (m, Ok(total))
    else
      var (m1, r) := MangaEntryStep(m, e, e.source.search[k], maxChapter, total);
      if r.Err? then (m1, r) else ScrapMangasStep(m1, e, k + 1, maxComic, maxChapter, r.value)
  }

  /** `process`: a seeding load, then the scrape. */
  function ProcessStep(m: MState, e: Env, maxComic: Option<int>, maxChapter: Option<int>): (MState, Result<nat>) {
    var (m1, o) := LoadMangaDexStep(m, e, true);
    if o.Fail? then (m1, Err(o.error)) else ScrapMangasStep(m1, e, 0, maxComic, maxChapter, 0)
  }

  /** A page loop that stopped at the limit or ran out of its page ends where the next page
      would start. */
  lemma ScrapMangasPageEnd(m: MState, e: Env, offset: nat, i: nat, maxComic: Option<int>, maxChapter: Option<int>, t: nat)
    requires i == |Slice(e.source.search, offset, SearchPageLimit)| || Reached(maxComic, t)
    ensures ScrapMangasStep(m, e, offset + i, maxComic, maxChapter, t)
            == ScrapMangasStep(m, e, offset + SearchPageLimit, maxComic, maxChapter, t)
  {
  }

  lemma ScrapChaptersPageEnd(m: MState, e: Env, code: string, feed: seq<Chapter>, offset: nat, i: nat,
                             max: Option<int>, t: nat)
    requires i == |Slice(feed, offset, FeedPageLimit)| || Reached(max, t)
    ensures ScrapChaptersStep(m, e, code, feed, offset + i, max, t)
            == ScrapChaptersStep(m, e, code, feed, offset + FeedPageLimit, max, t)
  {
  }

  /** The MangaDex bot. The session bot, the resolver and MangaDex are its collaborators. */
  class BotMangaDex {
    const bot: Bot
    const resolver: Resolver
    const source: Source
    var itemLanguages: seq<string>

    function State(): MState
      reads this, bot, bot.catalog
    {
      MState(bot.State(), itemLanguages)
    }

    function Environment(now: int): Env {
      Env(bot.catalog.oracle, bot.tokenEndpoint, resolver, source, now)
    }

    constructor (bot: Bot, resolver: Resolver, source: Source)
      ensures this.bot == bot && this.resolver == resolver && this.source == source
      ensures itemLanguages == []
    {
      this.bot := bot;
      this.resolver := resolver;
      this.source := source;
      itemLanguages := [];
    }

    /** `load`. */
    method Load(seeding: bool, now: int) returns (r: Outcome)
      modifies this, bot, bot.catalog
      ensures (State(), r) == LoadMangaDexStep(old(State()), Environment(now), seeding)
    {
      if seeding {
        r := bot.Authenticate(now);
        if r.Fail? {
          return;
        }
      }
      r := LoadWebsite(seeding);
      if r.Fail? {
        return;
      }
      ghost var m1 := State();
      r := FetchItemLanguages();
      assert (State(), r) == FetchItemLanguagesStep(m1, ItemLanguagePages(bot.catalog.oracle, Host));
      if r.Fail? || !seeding {
        return;
      }
      r := SeedItemLanguageCache();
    }

    /** The website step of `load`. */
    method LoadWebsite(seeding: bool) returns (r: Outcome)
      modifies bot, bot.catalog
      ensures (bot.State(), r) == WebsiteStep(old(bot.State()), bot.catalog.oracle.faults, seeding)
    {
      if Host in bot.websites {
        return Pass;
      }
      var probe := bot.catalog.Get(GetWebsite(Host));
      match probe
      case Found =>
        bot.websites := bot.websites + [Host];
        r := Pass;
      case NotFound =>
        if seeding {
          r := bot.AddWebsite(Host, WebsiteName);
        } else {
          r := Fail(ApiError(NotFoundStatus));
        }
      case Error(status) =>
        r := Fail(ApiError(status));
    }

    /** The item-language page loop of `load`. */
    method FetchItemLanguages() returns (r: Outcome)
      modifies this, bot.catalog
      ensures var w := Walk(ItemLanguagePages(bot.catalog.oracle, Host), 1, |old(itemLanguages)|);
        && itemLanguages == old(itemLanguages) + w.items
        && bot.catalog.store == LoggedAll(old(bot.catalog.store), ItemLanguagePageCalls(w.pages))
        && r == (if w.failure.Some? then Fail(ApiError(w.failure.value)) else Pass)
    {
      ghost var start := itemLanguages;
      ghost var store0 := bot.catalog.store;
      ghost var replies := ItemLanguagePages(bot.catalog.oracle, Host);
      ghost var w0 := Walk(replies, 1, |start|);
      ghost var got: seq<string> := [];
      var page := 1;
      while true
        invariant itemLanguages == start + got
        invariant WalkFrom(replies, w0, got, page, |itemLanguages|)
        invariant bot.catalog.store == LoggedAll(store0, ItemLanguagePageCalls(page - 1))
        decreases |replies| + 1 - page
      {
        ghost var have := |itemLanguages|;
        var done;
        done, r := ReadItemLanguagePage(page);
        ItemLanguagePageCallsNext(page - 1);
        if done {
          WalkFromLast(replies, w0, got, page, have);
          assert start + got + DataOf(FetchPage(replies, page)) == start + (got + DataOf(FetchPage(replies, page)));
          return;
        }
        WalkFromNext(replies, w0, got, page, have);
        got := got + FetchPage(replies, page).page.data;
        page := page + 1;
      }
    }

    /** One request of the item-language page loop; `done` says whether the loop ends. */
    method ReadItemLanguagePage(page: nat) returns (done: bool, r: Outcome)
      requires page >= 1
      modifies this, bot.catalog
      ensures var reply := FetchPage(ItemLanguagePages(bot.catalog.oracle, Host), page);
        && bot.catalog.store == Logged(old(bot.catalog.store), ListWebsiteItemLanguage(Host, page, ItemLanguagePageLimit))
        && itemLanguages == old(itemLanguages) + DataOf(reply)
        && done == !Continues(reply, |old(itemLanguages)|)
        && r == (if reply.Failed? then Fail(ApiError(reply.status)) else Pass)
    {
      var reply := bot.catalog.ListWebsiteItemLanguagePage(Host, page, ItemLanguagePageLimit);
      if reply.Failed? {
        return true, Fail(ApiError(reply.status));
      }
      var data := reply.page.data;
      if data == [] {
        return true, Pass;
      }
      CacheItemLanguages(data);
      var total := ReadTotalCount(reply.page.headers);
      return |itemLanguages| >= total, Pass;
    }

    /** Appends every listed language to the item-language cache, duplicates included. */
    method CacheItemLanguages(data: seq<string>)
      modifies this
      ensures itemLanguages == old(itemLanguages) + data
    {
      for i := 0 to |data|
        invariant itemLanguages == old(itemLanguages) + data[..i]
      {
        itemLanguages := itemLanguages + [data[i]];
      }
    }

    /** The item-language seeding loop of `load`. */
    method SeedItemLanguageCache() returns (r: Outcome)
      modifies this, bot, bot.catalog
      ensures (State(), r) == SeedItemLanguages(old(State()), bot.catalog.oracle.faults, ItemLanguageSeeds)
    {
      ghost var m1 := State();
      var j := 0;
      while j < |ItemLanguageSeeds|
        invariant 0 <= j <= |ItemLanguageSeeds|
        invariant SeedItemLanguages(m1, bot.catalog.oracle.faults, ItemLanguageSeeds)
                  == SeedItemLanguages(State(), bot.catalog.oracle.faults, ItemLanguageSeeds[j..])
      {
        var (k, v) := ItemLanguageSeeds[j];
        if k !in itemLanguages {
          var o := bot.Add(AddWebsiteItemLanguage(Host, k, Some(v)));
          if o.Fail? {
            return o;
          }
          itemLanguages := itemLanguages + [k];
        }
        assert ItemLanguageSeeds[j..][1..] == ItemLanguageSeeds[j + 1..];
        j := j + 1;
      }
      return Pass;
    }

    /** An ensure-exists step: probe the record, and on 404 create it through the session bot. */
    method EnsureRecord(c: Call) returns (r: Result<Ensured>)
      requires Guarded(c)
      modifies bot, bot.catalog
      ensures (bot.State(), r) == EnsureStep(old(bot.State()), bot.catalog.oracle.faults, c)
    {
      var probe := bot.catalog.Get(ProbeFor(c));
      match probe
      case Found =>
        r := Ok(Existed);
      case Error(status) =>
        r := Err(ApiError(status));
      case NotFound =>
        var o := bot.Add(c);
        r := if o.Pass? then Ok(Created) else Err(o.error);
    }

    /** `__manga`. */
    method ReconcileManga(manga: Manga, now: int) returns (r: Result<Resolved>)
      modifies bot, bot.catalog
      ensures (State(), r) == MangaStep(old(State()), Environment(now), manga)
    {
      if !Truthy(manga.id) {
        return Ok(Resolved("", false));
      }
      var listed := bot.catalog.ListComicsLinkedTo(TitleHref(manga.id));
      if listed.Err? {
        return Err(listed.error);
      }
      var auth := bot.Authenticate(now);
      if auth.Fail? {
        return Err(auth.error);
      }
      if |listed.value| >= 1 {
        return Ok(Resolved(listed.value[0], true));
      }
      r := NewComic(manga, now);
    }

    /** The branch of `__manga` where no comic links to the title yet. */
    method NewComic(manga: Manga, now: int) returns (r: Result<Resolved>)
      modifies bot, bot.catalog
      ensures (State(), r) == NewComicStep(old(State()), Environment(now), manga)
    {
      if manga.attributes.None? {
        return Ok(Resolved("", false));
      }
      var attrs := manga.attributes.value;
      var code := ScanForCode(attrs.links);
      if code.Err? {
        return Err(code.error);
      }
      if !Truthy(code.value) {
        return Ok(Resolved(code.value, false));
      }
      r := ComicRecords(manga.id, attrs, code.value, now);
    }

    /** The link scan of `__manga`. */
    method ScanForCode(links: seq<(string, string)>) returns (r: Result<string>)
      ensures r == ScanLinks(links, resolver, "")
    {
      var code := "";
      var i := 0;
      while i < |links|
        invariant 0 <= i <= |links|
        invariant ScanLinks(links, resolver, "") == ScanLinks(links[i..], resolver, code)
      {
        if Truthy(code) {
          break;
        }
        var (k, v) := links[i];
        if k == "mal" && resolver.Some? {
          if !IsIntLiteral(v) {
            return Err(NotANumber);
          }
          code := Resolve(resolver.value, ParseInt(v));
        }
        i := i + 1;
      }
      return Ok(code);
    }

    /** The records `__manga` makes for a resolved code. */
    method ComicRecords(id: string, attrs: MangaAttributes, code: string, now: int) returns (r: Result<Resolved>)
      modifies bot, bot.catalog
      ensures (State(), r) == ComicRecordsStep(old(State()), Environment(now), id, attrs, code)
    {
      var comic := EnsureRecord(AddComic(code));
      if comic.Err? {
        return Err(comic.error);
      }
      var link := EnsureRecord(AddLink(Host, TitlePath(id)));
      if link.Err? {
        return Err(link.error);
      }
      var langs := LinkLanguages(TitleHref(id), attrs.availableTranslatedLanguages);
      if langs.Fail? {
        return Err(langs.error);
      }
      var listed := bot.catalog.ListComicLinksTo(code, TitleHref(id));
      if listed.Err? {
        return Err(listed.error);
      }
      if !listed.value {
        var o := bot.Add(AddComicDestinationLink(code, Host, TitlePath(id), ReleasedAt(attrs.createdAt, now)));
        if o.Fail? {
          return Err(o.error);
        }
      }
      return Ok(Resolved(code, false));
    }

    /** The link item-language loop of `__manga`. */
    method LinkLanguages(href: string, langs: seq<string>) returns (r: Outcome)
      modifies bot, bot.catalog
      ensures (bot.State(), r) == LinkLanguagesStep(old(bot.State()), bot.catalog.oracle.faults, href, langs, itemLanguages)
    {
      ghost var b0 := bot.State();
      var i := 0;
      while i < |langs|
        invariant 0 <= i <= |langs|
        invariant LinkLanguagesStep(b0, bot.catalog.oracle.faults, href, langs, itemLanguages)
                  == LinkLanguagesStep(bot.State(), bot.catalog.oracle.faults, href, langs[i..], itemLanguages)
      {
        if langs[i] in itemLanguages {
          var e := EnsureRecord(AddLinkItemLanguage(href, langs[i], Some(0)));
          if e.Err? {
            return Fail(e.error);
          }
        }
        assert langs[i..][1..] == langs[i + 1..];
        i := i + 1;
      }
      return Pass;
    }

    /** `__manga_chapter`. */
    method ReconcileChapter(code: string, chapter: Chapter, now: int) returns (r: Result<ChapterResolved>)
      modifies bot, bot.catalog
      ensures (State(), r) == MangaChapterStep(old(State()), Environment(now), code, chapter)
    {
      if Skipped(chapter) {
        return Ok(ChapterResolved("", false));
      }
      var attrs := chapter.attributes.value;
      var number := Normalize(attrs.chapter, attrs.floatText);
      if number.Err? {
        return Err(number.error);
      }
      var exist := ChapterRecord(code, number.value);
      if exist.Err? {
        return Err(exist.error);
      }
      var nv := NumberText(number.value);
      var lang := attrs.translatedLanguage;
      if lang.None? || lang.value !in itemLanguages {
        return Ok(ChapterResolved(nv, exist.value));
      }
      var o := ChapterLinks(code, nv, chapter.id, lang.value, attrs.createdAt, now);
      if o.Fail? {
        return Err(o.error);
      }
      return Ok(ChapterResolved(nv, exist.value));
    }

    /** The chapter record of `__manga_chapter`. */
    method ChapterRecord(code: string, number: ChapterNumber) returns (r: Result<bool>)
      modifies bot, bot.catalog
      ensures (bot.State(), r) == ChapterRecordStep(old(bot.State()), bot.catalog.oracle.faults, code, number)
    {
      var key := ChapterCacheKey(code, number, None);
      if key in bot.comicChapters {
        return Ok(false);
      }
      var e := EnsureRecord(AddComicChapter(code, number, None));
      if e.Err? {
        return Err(e.error);
      }
      if e.value == Existed {
        bot.comicChapters := bot.comicChapters + [key];
        return Ok(true);
      }
      return Ok(false);
    }

    /** The link records of `__manga_chapter`. */
    method ChapterLinks(code: string, nv: string, id: string, lang: string, createdAt: string, now: int)
      returns (r: Outcome)
      modifies bot, bot.catalog
      ensures (bot.State(), r) == ChapterLinksStep(old(bot.State()), Environment(now), code, nv, id, lang, createdAt)
    {
      var link := EnsureRecord(AddLink(Host, ChapterPath(id)));
      if link.Err? {
        return Fail(link.error);
      }
      var language := EnsureRecord(AddLinkItemLanguage(ChapterHref(id), lang, Some(0)));
      if language.Err? {
        return Fail(language.error);
      }
      var listed := bot.catalog.ListChapterLinksTo(code, nv, ChapterHref(id));
      if listed.Err? {
        return Fail(listed.error);
      }
      if listed.value {
        return Pass;
      }
      r := bot.Add(AddComicChapterDestinationLink(code, nv, Host, ChapterPath(id), ReleasedAt(createdAt, now)));
    }

    /** `scrap_comics_complete`: the search pages, and each resolved comic's chapter feed. The
        result is the number of comics newly created. */
    method ScrapComicsComplete(maxComic: Option<int>, maxChapter: Option<int>, now: int) returns (r: Result<nat>)
      modifies bot, bot.catalog
      ensures (State(), r) == ScrapMangasStep(old(State()), Environment(now), 0, maxComic, maxChapter, 0)
    {
      ghost var e := Environment(now);
      ghost var m0 := State();
      var total: nat := 0;
      var page: nat := 1;
      while true
        invariant page >= 1
        invariant (page - 1) * SearchPageLimit < |source.search| + SearchPageLimit
        invariant ScrapMangasStep(m0, e, 0, maxComic, maxChapter, 0)
                  == ScrapMangasStep(State(), e, (page - 1) * SearchPageLimit, maxComic, maxChapter, total)
        decreases |source.search| + SearchPageLimit - (page - 1) * SearchPageLimit
      {
        if Reached(maxComic, total) {
          return Ok(total);
        }
        var data := Slice(source.search, (page - 1) * SearchPageLimit, SearchPageLimit);
        if data == [] {
          return Ok(total);
        }
        var counted := ScrapSearchPage(data, (page - 1) * SearchPageLimit, maxComic, maxChapter, total, now);
        if counted.Err? {
          return counted;
        }
        total := counted.value;
        page := page + 1;
      }
    }

    /** The loop of `scrap_comics_complete` over one page of search results. */
    method ScrapSearchPage(data: seq<Manga>, offset: nat, maxComic: Option<int>, maxChapter: Option<int>, total: nat, now: int)
      returns (r: Result<nat>)
      requires data == Slice(source.search, offset, SearchPageLimit)
      modifies bot, bot.catalog
      ensures if r.Err? then (State(), r) == ScrapMangasStep(old(State()), Environment(now), offset, maxComic, maxChapter, total)
              else ScrapMangasStep(old(State()), Environment(now), offset, maxComic, maxChapter, total)
                   == ScrapMangasStep(State(), Environment(now), offset + SearchPageLimit, maxComic, maxChapter, r.value)
    {
      ghost var e := Environment(now);
      ghost var m0 := State();
      var t := total;
      var i := 0;
      while i < |data| && !Reached(maxComic, t)
        invariant 0 <= i <= |data|
        invariant ScrapMangasStep(m0, e, offset, maxComic, maxChapter, total)
                  == ScrapMangasStep(State(), e, offset + i, maxComic, maxChapter, t)
      {
        var counted := ScrapMangaEntry(data[i], maxChapter, t, now);
        if counted.Err? {
          return counted;
        }
        t := counted.value;
        i := i + 1;
      }
      ScrapMangasPageEnd(State(), e, offset, i, maxComic, maxChapter, t);
      return Ok(t);
    }

    /** One search result of `scrap_comics_complete`, with the new-comic counter. */
    method ScrapMangaEntry(manga: Manga, maxChapter: Option<int>, total: nat, now: int) returns (r: Result<nat>)
      modifies bot, bot.catalog
      ensures (State(), r) == MangaEntryStep(old(State()), Environment(now), manga, maxChapter, total)
    {
      if !Truthy(manga.id) {
        return Ok(total);
      }
      var isNew := ScrapManga(manga, maxChapter, now);
      if isNew.Err? {
        return Err(isNew.error);
      }
      return Ok(if isNew.value then total + 1 else total);
    }

    /** One feed entry of `scrap_comics_complete`, with the chapter counter. */
    method ScrapChapterEntry(code: string, chapter: Chapter, total: nat, now: int) returns (r: Result<nat>)
      modifies bot, bot.catalog
      ensures (State(), r) == ChapterEntryStep(old(State()), Environment(now), code, chapter, total)
    {
      if !Truthy(chapter.id) {
        return Ok(total);
      }
      var res := ReconcileChapter(code, chapter, now);
      if res.Err? {
        return Err(res.error);
      }
      return Ok(if Counts(res.value) then total + 1 else total);
    }

    /** One manga of `scrap_comics_complete`. */
    method ScrapManga(manga: Manga, maxChapter: Option<int>, now: int) returns (r: Result<bool>)
      modifies bot, bot.catalog
      ensures (State(), r) == ScrapMangaStep(old(State()), Environment(now), manga, maxChapter)
    {
      var res := ReconcileManga(manga, now);
      if res.Err? {
        return Err(res.error);
      }
      if Truthy(res.value.code) {
        var chapters := ScrapChapters(manga.id, res.value.code, maxChapter, now);
        if chapters.Err? {
          return Err(chapters.error);
        }
      }
      return Ok(Truthy(res.value.code) && !res.value.exist);
    }

    /** The chapter loop of `scrap_comics_complete` over one manga's feed. The result is the
        chapter counter's final value. */
    method ScrapChapters(mangaId: string, code: string, maxChapter: Option<int>, now: int) returns (r: Result<nat>)
      modifies bot, bot.catalog
      ensures (State(), r) == ScrapChaptersStep(old(State()), Environment(now), code, Feed(source, mangaId), 0, maxChapter, 0)
    {
      ghost var e := Environment(now);
      ghost var m0 := State();
      ghost var feed := Feed(source, mangaId);
      var total: nat := 0;
      var page: nat := 1;
      while true
        invariant page >= 1
        invariant (page - 1) * FeedPageLimit < |feed| + FeedPageLimit
        invariant ScrapChaptersStep(m0, e, code, feed, 0, maxChapter, 0)
                  == ScrapChaptersStep(State(), e, code, feed, (page - 1) * FeedPageLimit, maxChapter, total)
        decreases |feed| + FeedPageLimit - (page - 1) * FeedPageLimit
      {
        if Reached(maxChapter, total) {
          return Ok(total);
        }
        var offset := (page - 1) * FeedPageLimit;
        var data := Slice(Feed(source, mangaId), offset, FeedPageLimit);
        if data == [] {
          return Ok(total);
        }
        var counted := ScrapFeedPage(mangaId, code, data, offset, maxChapter, total, now);
        if counted.Err? {
          return counted;
        }
        total := counted.value;
        page := page + 1;
      }
    }

    /** The chapter loop of `scrap_comics_complete` over one page of a feed. */
    method ScrapFeedPage(mangaId: string, code: string, data: seq<Chapter>, offset: nat, maxChapter: Option<int>,
                         total: nat, now: int)
      returns (r: Result<nat>)
      requires data == Slice(Feed(source, mangaId), offset, FeedPageLimit)
      modifies bot, bot.catalog
      ensures if r.Err? then
                (State(), r) == ScrapChaptersStep(old(State()), Environment(now), code, Feed(source, mangaId), offset, maxChapter, total)
              else ScrapChaptersStep(old(State()), Environment(now), code, Feed(source, mangaId), offset, maxChapter, total)
                   == ScrapChaptersStep(State(), Environment(now), code, Feed(source, mangaId), offset + FeedPageLimit,
                                        maxChapter, r.value)
    {
      ghost var e := Environment(now);
      ghost var m0 := State();
      ghost var feed := Feed(source, mangaId);
      var t := total;
      var i := 0;
      while i < |data| && !Reached(maxChapter, t)
        invariant 0 <= i <= |data|
        invariant ScrapChaptersStep(m0, e, code, feed, offset, maxChapter, total)
                  == ScrapChaptersStep(State(), e, code, feed, offset + i, maxChapter, t)
      {
        var counted := ScrapChapterEntry(code, data[i], t, now);
        if counted.Err? {
          return counted;
        }
        t := counted.value;
        i := i + 1;
      }
      ScrapChaptersPageEnd(State(), e, code, feed, offset, i, maxChapter, t);
      return Ok(t);
    }

    /** `process`: a seeding load, then the scrape. */
    method Process(maxComic: Option<int>, maxChapter: Option<int>, now: int) returns (r: Result<nat>)
      modifies this, bot, bot.catalog
      ensures (State(), r) == ProcessStep(old(State()), Environment(now), maxComic, maxChapter)
    {
      var o := Load(true, now);
      if o.Fail? {
        return Err(o.error);
      }
      r := ScrapComicsComplete(maxComic, maxChapter, now);
    }
  }
}
