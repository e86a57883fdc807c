/** What the MangaDex reconciler guarantees, stated on its step functions. */
module MangaDexFacts {
  import opened Common
  import opened Text
  import opened Pagination
  import opened Destination
  import opened ComicBagi
  import opened MangaDex

  //
  // The link scan of __manga
  //

  /** The `mal` entries before position `n` all carry an integer id the resolver maps to no code. */
  predicate UnresolvedBefore(links: seq<(string, string)>, jikan: map<int, string>, n: nat)
    requires n <= |links|
  {
    forall i :: 0 <= i < n && links[i].0 == "mal" ==>
      IsIntLiteral(links[i].1) && !Truthy(Resolve(jikan, ParseInt(links[i].1)))
  }

  /** Position `i` holds the first `mal` entry that resolves to a code. */
  predicate FirstCodeAt(links: seq<(string, string)>, jikan: map<int, string>, i: nat) {
    && i < |links| && links[i].0 == "mal" && IsIntLiteral(links[i].1)
    && Truthy(Resolve(jikan, ParseInt(links[i].1)))
    && UnresolvedBefore(links, jikan, i)
  }

  /** Without a resolver no code is found and nothing can raise. */
  lemma {:induction false} ScanWithoutResolver(links: seq<(string, string)>)
    ensures ScanLinks(links, None, "") == Ok("")
    decreases |links|
  {
    if links != [] {
      ScanWithoutResolver(links[1..]);
    }
  }

  /** Only `mal` keys are tried: links without one give no code. */
  lemma {:induction false} ScanIgnoresOtherKeys(links: seq<(string, string)>, resolver: Resolver)
    requires forall i :: 0 <= i < |links| ==> links[i].0 != "mal"
    ensures ScanLinks(links, resolver, "") == Ok("")
    decreases |links|
  {
    if links != [] {
      ScanIgnoresOtherKeys(links[1..], resolver);
    }
  }

  /** The scan returns the code of the first `mal` entry that resolves, and stops there. */
  lemma {:induction false} ScanFindsFirstCode(links: seq<(string, string)>, jikan: map<int, string>, i: nat)
    requires FirstCodeAt(links, jikan, i)
    ensures ScanLinks(links, Some(jikan), "") == Ok(Resolve(jikan, ParseInt(links[i].1)))
    decreases |links|
  {
    if i > 0 {
      var rest := links[1..];
      assert FirstCodeAt(rest, jikan, i - 1) by {
        forall j | 0 <= j < i - 1 && rest[j].0 == "mal"
          ensures IsIntLiteral(rest[j].1) && !Truthy(Resolve(jikan, ParseInt(rest[j].1)))
        {
          assert rest[j] == links[j + 1];
        }
        assert rest[i - 1] == links[i];
      }
      ScanFindsFirstCode(rest, jikan, i - 1);
    }
  }

  /** Conversely, a code found by the scan is the code of the first resolving `mal` entry, and an
      empty result means every `mal` entry was an integer that resolved to nothing. */
  lemma {:induction false} ScanResultCharacterised(links: seq<(string, string)>, jikan: map<int, string>)
    ensures var r := ScanLinks(links, Some(jikan), "");
      && (r.Ok? && Truthy(r.value) ==> exists i: nat :: FirstCodeAt(links, jikan, i) && r.value == Resolve(jikan, ParseInt(links[i].1)))
      && (r == Ok("") <==> UnresolvedBefore(links, jikan, |links|))
    decreases |links|
  {
    if links != [] {
      var rest := links[1..];
      ScanResultCharacterised(rest, jikan);
      var r := ScanLinks(links, Some(jikan), "");
      assert UnresolvedBefore(links, jikan, |links|) <==>
        (links[0].0 == "mal" ==> IsIntLiteral(links[0].1) && !Truthy(Resolve(jikan, ParseInt(links[0].1))))
        && UnresolvedBefore(rest, jikan, |rest|)
      by {
        forall j | 0 <= j < |rest| ensures rest[j] == links[j + 1] {}
      }
      if links[0].0 == "mal" && IsIntLiteral(links[0].1) && Truthy(Resolve(jikan, ParseInt(links[0].1))) {
        assert FirstCodeAt(links, jikan, 0);
      } else if r.Ok? && Truthy(r.value) {
        var i: nat :| FirstCodeAt(rest, jikan, i) && r.value == Resolve(jikan, ParseInt(rest[i].1));
        assert rest[i] == links[i + 1];
        assert FirstCodeAt(links, jikan, i + 1) by {
          forall j | 0 <= j < i + 1 && links[j].0 == "mal"
            ensures IsIntLiteral(links[j].1) && !Truthy(Resolve(jikan, ParseInt(links[j].1)))
          {
            if j > 0 { assert links[j] == rest[j - 1]; }
          }
        }
      }
    }
  }

  //
  // load
  //

  /** The website step: a cached host sends nothing; otherwise a found website is cached, a 404
      creates it only when seeding, and any other answer, or a 404 when not seeding, raises.
      After a normal return the host is cached and, unless it was already cached, recorded. */
  lemma WebsiteStepCases(b: BotState, faults: map<Call, FailStatus>, seeding: bool)
    ensures var (b', o) := WebsiteStep(b, faults, seeding);
      var probe := ProbeOf(b.store, faults, GetWebsite(Host));
      && (Host in b.websites ==> b' == b && o == Pass)
      && (Host !in b.websites && probe == Found ==>
            o == Pass && b'.websites == b.websites + [Host] && b'.store == Logged(b.store, GetWebsite(Host)))
      && (o == Pass ==> Host in b'.websites && (Host in b.websites || Host in b'.store.websites))
      && (!seeding ==> SameRecords(b.store, b'.store))
      && (Host !in b.websites && probe == NotFound && !seeding ==> o == Fail(ApiError(NotFoundStatus)))
      && (Host !in b.websites && probe.Error? ==> o == Fail(ApiError(probe.status)))
      && (Host !in b.websites && probe == NotFound && seeding ==>
            b'.store.log == b.store.log + [GetWebsite(Host), AddWebsite(Host, WebsiteName)])
      && (NoDuplicates(b.websites) ==> NoDuplicates(b'.websites))
  {
    AppendAbsentCaches(b.websites, Host);
  }

  function ItemLanguageCalls(seeds: seq<(string, int)>): seq<Call>
    decreases |seeds|
  {
    if seeds == [] then []
    else [AddWebsiteItemLanguage(Host, seeds[0].0, Some(seeds[0].1))] + ItemLanguageCalls(seeds[1..])
  }

  predicate ItemSeedsUnfaulted(faults: map<Call, FailStatus>, seeds: seq<(string, int)>) {
    forall i :: 0 <= i < |seeds| ==> AddWebsiteItemLanguage(Host, seeds[i].0, Some(seeds[i].1)) !in faults
  }

  /** Dropping the first seed keeps the codes distinct and the creates unfaulted; no later seed
      shares the first one's code. */
  lemma ItemTailSeeds(faults: map<Call, FailStatus>, seeds: seq<(string, int)>)
    requires seeds != [] && DistinctCodes(seeds) && ItemSeedsUnfaulted(faults, seeds)
    ensures DistinctCodes(seeds[1..]) && ItemSeedsUnfaulted(faults, seeds[1..])
    ensures forall i :: 0 <= i < |seeds[1..]| ==> seeds[1..][i].0 != seeds[0].0
  {
    DistinctTail(seeds);
    var rest := seeds[1..];
    forall i | 0 <= i < |rest| ensures AddWebsiteItemLanguage(Host, rest[i].0, Some(rest[i].1)) !in faults {
      assert rest[i] == seeds[i + 1];
    }
  }

  /** A missing first seed whose create succeeds is requested, cached, and the loop moves on. */
  lemma SeedItemLanguagesCreatesFirst(m: MState, faults: map<Call, FailStatus>, seeds: seq<(string, int)>)
    requires seeds != [] && seeds[0].0 !in m.itemLanguages
    requires AddWebsiteItemLanguage(Host, seeds[0].0, Some(seeds[0].1)) !in faults
    ensures var c := AddWebsiteItemLanguage(Host, seeds[0].0, Some(seeds[0].1));
      var m1 := m.(bot := AddStep(m.bot, faults, c).0, itemLanguages := m.itemLanguages + [seeds[0].0]);
      && m1.bot.store.log == m.bot.store.log + [c]
      && SeedItemLanguages(m, faults, seeds) == SeedItemLanguages(m1, faults, seeds[1..])
  {
  }

  /** When every create succeeds, item-language seeding sends exactly one
      `add_website_item_language` per missing seed, in order and with its `machine_translate`,
      and caches exactly those codes. */
  lemma {:induction false} SeedItemLanguagesAddsMissing(m: MState, faults: map<Call, FailStatus>, seeds: seq<(string, int)>)
    requires DistinctCodes(seeds) && ItemSeedsUnfaulted(faults, seeds)
    ensures var (m', o) := SeedItemLanguages(m, faults, seeds);
      && o == Pass
      && m'.itemLanguages == m.itemLanguages + Codes(Missing(seeds, m.itemLanguages))
      && m'.bot.store.log == m.bot.store.log + ItemLanguageCalls(Missing(seeds, m.itemLanguages))
    decreases |seeds|
  {
    if seeds != [] {
      var rest := seeds[1..];
      ItemTailSeeds(faults, seeds);
      if seeds[0].0 in m.itemLanguages {
        SeedItemLanguagesAddsMissing(m, faults, rest);
        assert Missing(seeds, m.itemLanguages) == Missing(rest, m.itemLanguages);
      } else {
        var c := AddWebsiteItemLanguage(Host, seeds[0].0, Some(seeds[0].1));
        assert c !in faults;
        SeedItemLanguagesCreatesFirst(m, faults, seeds);
        var m1 := m.(bot := AddStep(m.bot, faults, c).0, itemLanguages := m.itemLanguages + [seeds[0].0]);
        SeedItemLanguagesAddsMissing(m1, faults, rest);
        MissingUnaffected(rest, m.itemLanguages, seeds[0].0);
        assert Missing(seeds, m.itemLanguages) == [seeds[0]] + Missing(rest, m.itemLanguages);
      }
    }
  }

  /** Whatever the oracle fails, item-language seeding sends only `add_website_item_language`
      requests for missing seeds, in seed order: the new log entries are a prefix of those
      requests, and all of them when the seeding returns normally. */
  lemma {:induction false} SeedItemLanguagesRequestsOnlyMissing(m: MState, faults: map<Call, FailStatus>,
                                                                seeds: seq<(string, int)>)
    requires DistinctCodes(seeds)
    ensures var (m', o) := SeedItemLanguages(m, faults, seeds);
      var calls := ItemLanguageCalls(Missing(seeds, m.itemLanguages));
      && |m.bot.store.log| <= |m'.bot.store.log| <= |m.bot.store.log| + |calls|
      && m'.bot.store.log == m.bot.store.log + calls[..|m'.bot.store.log| - |m.bot.store.log|]
      && (o.Pass? ==> m'.bot.store.log == m.bot.store.log + calls)
    decreases |seeds|
  {
    if seeds != [] {
      DistinctTail(seeds);
      var rest := seeds[1..];
      if seeds[0].0 in m.itemLanguages {
        SeedItemLanguagesRequestsOnlyMissing(m, faults, rest);
        assert Missing(seeds, m.itemLanguages) == Missing(rest, m.itemLanguages);
      } else {
        var c := AddWebsiteItemLanguage(Host, seeds[0].0, Some(seeds[0].1));
        var (b1, o1) := AddStep(m.bot, faults, c);
        assert b1.store.log == m.bot.store.log + [c];
        MissingUnaffected(rest, m.itemLanguages, seeds[0].0);
        assert Missing(seeds, m.itemLanguages) == [seeds[0]] + Missing(rest, m.itemLanguages);
        var tail := ItemLanguageCalls(Missing(rest, m.itemLanguages));
        assert ItemLanguageCalls(Missing(seeds, m.itemLanguages)) == [c] + tail;
        if o1.Pass? {
          var m1 := m.(bot := b1, itemLanguages := m.itemLanguages + [seeds[0].0]);
          assert SeedItemLanguages(m, faults, seeds) == SeedItemLanguages(m1, faults, rest);
          SeedItemLanguagesRequestsOnlyMissing(m1, faults, rest);
          PrefixAfter(m.bot.store.log, c, tail, SeedItemLanguages(m, faults, seeds).0.bot.store.log);
        } else {
          assert ([c] + tail)[..1] == [c];
        }
      }
    }
  }

  /** Whatever the oracle fails, item-language seeding keeps a duplicate-free cache
      duplicate-free and loses no cached language: it appends a language only when absent. */
  lemma {:induction false} SeedItemLanguagesKeepCacheDistinct(m: MState, faults: map<Call, FailStatus>,
                                                              seeds: seq<(string, int)>)
    requires NoDuplicates(m.itemLanguages)
    ensures var m' := SeedItemLanguages(m, faults, seeds).0;
      && NoDuplicates(m'.itemLanguages)
      && |m.itemLanguages| <= |m'.itemLanguages| && m'.itemLanguages[..|m.itemLanguages|] == m.itemLanguages
    decreases |seeds|
  {
    if seeds != [] && seeds[0].0 in m.itemLanguages {
      SeedItemLanguagesKeepCacheDistinct(m, faults, seeds[1..]);
    } else if seeds != [] {
      var (b1, o1) := AddStep(m.bot, faults, AddWebsiteItemLanguage(Host, seeds[0].0, Some(seeds[0].1)));
      if o1.Pass? {
        var m1 := m.(bot := b1, itemLanguages := m.itemLanguages + [seeds[0].0]);
        assert SeedItemLanguages(m, faults, seeds) == SeedItemLanguages(m1, faults, seeds[1..]);
        AppendNewKeepsDistinct(m.itemLanguages, seeds[0].0);
        SeedItemLanguagesKeepCacheDistinct(m1, faults, seeds[1..]);
        var l' := SeedItemLanguages(m, faults, seeds).0.itemLanguages;
        assert l'[..|m.itemLanguages|] == l'[..|m1.itemLanguages|][..|m.itemLanguages|];
      }
    }
  }

  /** After item-language seeding returns normally, every seed code is cached. */
  lemma {:induction false} SeedItemLanguagesCoversSeeds(m: MState, faults: map<Call, FailStatus>, seeds: seq<(string, int)>)
    requires SeedItemLanguages(m, faults, seeds).1 == Pass
    ensures forall i :: 0 <= i < |seeds| ==> seeds[i].0 in SeedItemLanguages(m, faults, seeds).0.itemLanguages
    ensures forall k :: k in m.itemLanguages ==> k in SeedItemLanguages(m, faults, seeds).0.itemLanguages
    decreases |seeds|
  {
    if seeds != [] {
      var rest := seeds[1..];
      var m1 := if seeds[0].0 in m.itemLanguages then m
        else m.(bot := AddStep(m.bot, faults, AddWebsiteItemLanguage(Host, seeds[0].0, Some(seeds[0].1))).0,
                itemLanguages := m.itemLanguages + [seeds[0].0]);
      assert SeedItemLanguages(m, faults, seeds) == SeedItemLanguages(m1, faults, rest);
      SeedItemLanguagesCoversSeeds(m1, faults, rest);
      forall i | 0 <= i < |seeds| ensures seeds[i].0 in SeedItemLanguages(m, faults, seeds).0.itemLanguages {
        if i > 0 { assert seeds[i] == rest[i - 1]; }
      }
    }
  }

  /** After a seeding `load` returns normally, en and id are item languages and the website is
      cached. */
  lemma LoadSeedsItemLanguages(m: MState, e: Env)
    requires LoadMangaDexStep(m, e, true).1 == Pass
    ensures "en" in LoadMangaDexStep(m, e, true).0.itemLanguages
    ensures "id" in LoadMangaDexStep(m, e, true).0.itemLanguages
  {
    var b0 := AuthenticateStep(m.bot, e.endpoint, e.now).0;
    var b1 := WebsiteStep(b0, e.Faults(), true).0;
    var m2 := FetchItemLanguagesStep(m.(bot := b1), ItemLanguagePages(e.oracle, Host)).0;
    SeedItemLanguagesCoversSeeds(m2, e.Faults(), ItemLanguageSeeds);
    assert ItemLanguageSeeds[0].0 == "en" && ItemLanguageSeeds[1].0 == "id";
  }

  /** A `load` without seeding creates no record and sends no create request: it only probes
      and lists. */
  lemma LoadWithoutSeedingCreatesNothing(m: MState, e: Env)
    ensures var s' := LoadMangaDexStep(m, e, false).0.bot.store;
      && SameRecords(m.bot.store, s')
      && |m.bot.store.log| <= |s'.log| && s'.log[..|m.bot.store.log|] == m.bot.store.log
      && (forall i :: |m.bot.store.log| <= i < |s'.log| ==> !IsCreate(s'.log[i]))
  {
    WebsiteStepCases(m.bot, e.Faults(), false);
  }

  //
  // __manga
  //

  /** A request the link item-language loop may send for `href`: a probe or a create, with
      `machine_translate=0`, for a listed language the website carries. */
  predicate LinkLanguageRequest(c: Call, href: string, langs: seq<string>, registered: seq<string>) {
    || (c.GetLinkItemLanguage? && c.linkHref == href && c.languageLang in langs && c.languageLang in registered)
    || (c.AddLinkItemLanguage? && c == AddLinkItemLanguage(href, c.languageLang, Some(0))
        && c.languageLang in langs && c.languageLang in registered)
  }

  /** The link item-language loop touches only link item-languages, asks only for listed languages
      the website carries, always with `machine_translate=0`, and after a normal return every
      such language is recorded for the link. */
  lemma {:induction false} LinkLanguagesFiltered(b: BotState, faults: map<Call, FailStatus>, href: string,
                                                 langs: seq<string>, registered: seq<string>)
    ensures var (b', o) := LinkLanguagesStep(b, faults, href, langs, registered);
      && b'.(store := b.store) == b
      && b'.store.(log := b.store.log, linkItemLanguages := b.store.linkItemLanguages) == b.store
      && b.store.linkItemLanguages <= b'.store.linkItemLanguages
      && |b.store.log| <= |b'.store.log| && b'.store.log[..|b.store.log|] == b.store.log
      && (forall i :: |b.store.log| <= i < |b'.store.log| ==> LinkLanguageRequest(b'.store.log[i], href, langs, registered))
      && (o == Pass ==> forall l :: l in langs && l in registered ==> (href, l) in b'.store.linkItemLanguages)
    decreases |langs|
  {
    if langs != [] {
      var rest := langs[1..];
      var b1 := if langs[0] !in registered then b
        else EnsureStep(b, faults, AddLinkItemLanguage(href, langs[0], Some(0))).0;
      LinkLanguagesFiltered(b1, faults, href, rest, registered);
      var (b', o) := LinkLanguagesStep(b, faults, href, langs, registered);
      assert forall l :: l in rest ==> l in langs;
      if langs[0] in registered && EnsureStep(b, faults, AddLinkItemLanguage(href, langs[0], Some(0))).1.Err? {
        assert b' == b1;
      } else {
        assert (b', o) == LinkLanguagesStep(b1, faults, href, rest, registered);
        assert b1.store.log[..|b.store.log|] == b.store.log;
        assert b'.store.log[..|b1.store.log|] == b1.store.log;
        forall i | |b.store.log| <= i < |b'.store.log|
          ensures LinkLanguageRequest(b'.store.log[i], href, langs, registered)
        {
          if i < |b1.store.log| {
            assert b'.store.log[i] == b1.store.log[i];
          }
        }
        if o == Pass && langs[0] in registered {
          assert (href, langs[0]) in b1.store.linkItemLanguages;
        }
      }
    }
  }

  /** `__manga` creates nothing when it resolves no code: no id, missing attributes, or no `mal`
      link that resolves. */
  lemma MangaWithoutCodeCreatesNothing(m: MState, e: Env, manga: Manga)
    ensures var (m', r) := MangaStep(m, e, manga);
      r.Ok? && !Truthy(r.value.code) ==> SameRecords(m.bot.store, m'.bot.store) && m'.itemLanguages == m.itemLanguages
  {
    if Truthy(manga.id) && manga.attributes.Some? {
      var s1 := ListComics(m.bot.store, e.Faults(), TitleHref(manga.id)).0;
      var b2 := AuthenticateStep(m.bot.(store := s1), e.endpoint, e.now).0;
      var scan := ScanLinks(manga.attributes.value.links, e.resolver, "");
      if scan.Ok? && Truthy(scan.value) && ComicRecordsStep(m.(bot := b2), e, manga.id, manga.attributes.value, scan.value).1.Ok? {
        ComicRecordsHold(m.(bot := b2), e, manga.id, manga.attributes.value, scan.value);
      }
    }
  }


  /** A comic already linked to the title is returned, the first in creation order, with
      `exist=True`, and nothing is created. */
  lemma MangaFindsLinkedComic(m: MState, e: Env, manga: Manga)
    requires Truthy(manga.id) && ListComic(TitleHref(manga.id)) !in e.Faults()
    requires LinkedComics(m.bot.store.comicLinks, TitleHref(manga.id)) != []
    requires AuthenticateStep(m.bot, e.endpoint, e.now).1 == Pass
    ensures var (m', r) := MangaStep(m, e, manga);
      && r == Ok(Resolved(LinkedComics(m.bot.store.comicLinks, TitleHref(manga.id))[0], true))
      && SameRecords(m.bot.store, m'.bot.store)
  {
  }

  lemma LinkedComicsAppend(links: seq<DestinationLink>, l: DestinationLink, href: string)
    ensures LinkedComics(links + [l], href) == LinkedComics(links, href) + (if l.href == href then [l.comic] else [])
  {
    assert (links + [l])[..|links|] == links;
  }

  /** No comic is linked to `href` exactly when no destination link points there. */
  lemma {:induction false} NoLinkedComicMeansNoLink(links: seq<DestinationLink>, href: string)
    ensures LinkedComics(links, href) == [] <==> forall i :: 0 <= i < |links| ==> links[i].href != href
    decreases |links|
  {
    if links != [] {
      var init := links[..|links| - 1];
      NoLinkedComicMeansNoLink(init, href);
      assert forall i :: 0 <= i < |init| ==> init[i] == links[i];
    }
  }

  /** The records step changes comic links only by its final create. */
  lemma ComicRecordsLinks(m: MState, e: Env, id: string, attrs: MangaAttributes, code: string)
    requires ComicRecordsStep(m, e, id, attrs, code).1.Ok?
    ensures var m' := ComicRecordsStep(m, e, id, attrs, code).0;
      && m'.bot.token == m.bot.token
      && m'.bot.store.comicLinks == m.bot.store.comicLinks +
           (if HasComicLink(m.bot.store, code, TitleHref(id)) then []
            else [DestinationLink(code, TitleHref(id), ReleasedAt(attrs.createdAt, e.now))])
  {
    var b1 := EnsureStep(m.bot, e.Faults(), AddComic(code)).0;
    var b2 := EnsureStep(b1, e.Faults(), AddLink(Host, TitlePath(id))).0;
    LinkLanguagesFiltered(b2, e.Faults(), TitleHref(id), attrs.availableTranslatedLanguages, m.itemLanguages);
  }

  /** After the records step returns normally, the comic, its title link, every item language
      the title is available in and the website carries, and the comic's destination link are
      all recorded, and the step reports the given code as new. */
  lemma ComicRecordsHold(m: MState, e: Env, id: string, attrs: MangaAttributes, code: string)
    requires ComicRecordsStep(m, e, id, attrs, code).1.Ok?
    ensures var (m', r) := ComicRecordsStep(m, e, id, attrs, code);
      && r.value == Resolved(code, false)
      && code in m'.bot.store.comics
      && TitleHref(id) in m'.bot.store.links
      && HasComicLink(m'.bot.store, code, TitleHref(id))
      && (forall l :: l in attrs.availableTranslatedLanguages && l in m.itemLanguages ==>
            (TitleHref(id), l) in m'.bot.store.linkItemLanguages)
  {
    var b1 := EnsureStep(m.bot, e.Faults(), AddComic(code)).0;
    EnsureCases(m.bot.store, e.Faults(), AddComic(code));
    assert code in b1.store.comics;
    var b2 := EnsureStep(b1, e.Faults(), AddLink(Host, TitlePath(id))).0;
    EnsureCases(b1.store, e.Faults(), AddLink(Host, TitlePath(id)));
    assert code in b2.store.comics && TitleHref(id) in b2.store.links;
    var langs := attrs.availableTranslatedLanguages;
    LinkLanguagesFiltered(b2, e.Faults(), TitleHref(id), langs, m.itemLanguages);
    var b3 := LinkLanguagesStep(b2, e.Faults(), TitleHref(id), langs, m.itemLanguages).0;
    assert code in b3.store.comics && TitleHref(id) in b3.store.links;
    var m' := ComicRecordsStep(m, e, id, attrs, code).0;
    if !HasComicLink(b3.store, code, TitleHref(id)) {
      var links := m'.bot.store.comicLinks;
      assert links[|links| - 1] == DestinationLink(code, TitleHref(id), ReleasedAt(attrs.createdAt, e.now));
    }
  }

  /** Running `__manga` again after it created a comic finds that comic through its destination
      link: the second run returns the same code with `exist=True` and creates nothing. */
  lemma MangaRerunFindsComic(m: MState, e: Env, manga: Manga)
    requires var r := MangaStep(m, e, manga).1; r.Ok? && Truthy(r.value.code) && !r.value.exist
    ensures var (m1, r) := MangaStep(m, e, manga);
      var (m2, r2) := MangaStep(m1, e, manga);
      r2 == Ok(Resolved(r.value.code, true)) && SameRecords(m1.bot.store, m2.bot.store)
  {
    var href := TitleHref(manga.id);
    var (s1, listed) := ListComics(m.bot.store, e.Faults(), href);
    var (b2, auth) := AuthenticateStep(m.bot.(store := s1), e.endpoint, e.now);
    var ma := m.(bot := b2);
    var attrs := manga.attributes.value;
    var code := ScanLinks(attrs.links, e.resolver, "").value;
    assert MangaStep(m, e, manga) == ComicRecordsStep(ma, e, manga.id, attrs, code);
    assert listed == Ok([]);
    var m1 := MangaStep(m, e, manga).0;
    ComicRecordsLinks(ma, e, manga.id, attrs, code);
    NoLinkedComicMeansNoLink(ma.bot.store.comicLinks, href);
    var l := DestinationLink(code, href, ReleasedAt(attrs.createdAt, e.now));
    assert m1.bot.store.comicLinks == ma.bot.store.comicLinks + [l];
    LinkedComicsAppend(ma.bot.store.comicLinks, l, href);
    assert LinkedComics(m1.bot.store.comicLinks, href) == [code];
    RefreshIdempotent(m.bot.token, e.endpoint, e.now);
  }

  //
  // __manga_chapter
  //

  function NumberOf(chapter: Chapter): Result<ChapterNumber>
    requires chapter.attributes.Some?
  {
    Normalize(chapter.attributes.value.chapter, chapter.attributes.value.floatText)
  }

  /** The number text of a chapter is never empty; this is why the counter test holds for every
      chapter `__manga_chapter` processes (`ChapterAlwaysCounts`). */
  lemma NumberTextNonEmpty(n: ChapterNumber)
    requires n.Fractional? ==> n.text != ""
    ensures Truthy(NumberText(n))
  {
  }

  /** The counter test of `scrap_comics_complete` holds for every chapter `__manga_chapter`
      returns normally for: an early return has `exist=False`, and otherwise the number text is
      never empty. So every chapter with an id is counted, new or not. */
  lemma ChapterAlwaysCounts(m: MState, e: Env, code: string, chapter: Chapter)
    requires MangaChapterStep(m, e, code, chapter).1.Ok?
    ensures Counts(MangaChapterStep(m, e, code, chapter).1.value)
  {
    if !Skipped(chapter) {
      NumberTextNonEmpty(NumberOf(chapter).value);
    }
  }

  /** An early return makes no request and changes nothing. */
  lemma SkippedChapterChangesNothing(m: MState, e: Env, code: string, chapter: Chapter)
    requires Skipped(chapter)
    ensures MangaChapterStep(m, e, code, chapter) == (m, Ok(ChapterResolved("", false)))
  {
  }

  /** `exist` is True exactly when the key was not cached and the chapter probe found the
      chapter; in particular a cache hit reports `exist=False` and sends no chapter probe. */
  lemma ChapterExistMeansProbeFound(m: MState, e: Env, code: string, chapter: Chapter)
    requires !Skipped(chapter) && NumberOf(chapter).Ok?
    requires MangaChapterStep(m, e, code, chapter).1.Ok?
    ensures var number := NumberOf(chapter).value;
      var cached := ChapterCacheKey(code, number, None) in m.bot.comicChapters;
      var probe := GetComicChapter(code, NumberText(number));
      && (MangaChapterStep(m, e, code, chapter).1.value.exist <==> !cached && ProbeOf(m.bot.store, e.Faults(), probe) == Found)
      && (cached ==> ChapterRecordStep(m.bot, e.Faults(), code, number) == (m.bot, Ok(false)))
  {
  }

  /** The chapter links step leaves the chapter cache and the token alone. */
  lemma ChapterLinksKeepCaches(b: BotState, e: Env, code: string, nv: string, id: string, lang: string, createdAt: string)
    ensures var b' := ChapterLinksStep(b, e, code, nv, id, lang, createdAt).0;
      b'.comicChapters == b.comicChapters && b'.token == b.token && b'.languages == b.languages
  {
  }

  /** The chapter record step keeps a duplicate-free chapter cache duplicate-free and only
      appends to it: a found chapter's key is appended only after a cache miss, and a created
      one through `add_comic_chapter`'s append-when-absent. */
  lemma ChapterRecordKeepsCacheDistinct(b: BotState, faults: map<Call, FailStatus>, code: string, number: ChapterNumber)
    requires NoDuplicates(b.comicChapters)
    ensures var b' := ChapterRecordStep(b, faults, code, number).0;
      && NoDuplicates(b'.comicChapters)
      && |b.comicChapters| <= |b'.comicChapters| && b'.comicChapters[..|b.comicChapters|] == b.comicChapters
  {
    var key := ChapterCacheKey(code, number, None);
    AppendAbsentCaches(b.comicChapters, key);
    if key !in b.comicChapters {
      AppendNewKeepsDistinct(b.comicChapters, key);
    }
  }

  /** `__manga_chapter` keeps a duplicate-free chapter cache duplicate-free and only appends to it. */
  lemma MangaChapterKeepsCacheDistinct(m: MState, e: Env, code: string, chapter: Chapter)
    requires NoDuplicates(m.bot.comicChapters)
    ensures var m' := MangaChapterStep(m, e, code, chapter).0;
      && NoDuplicates(m'.bot.comicChapters)
      && |m.bot.comicChapters| <= |m'.bot.comicChapters|
      && m'.bot.comicChapters[..|m.bot.comicChapters|] == m.bot.comicChapters
  {
    if !Skipped(chapter) && NumberOf(chapter).Ok? {
      var attrs := chapter.attributes.value;
      var number := NumberOf(chapter).value;
      var b1 := ChapterRecordStep(m.bot, e.Faults(), code, number).0;
      ChapterRecordKeepsCacheDistinct(m.bot, e.Faults(), code, number);
      if attrs.translatedLanguage.Some? {
        ChapterLinksKeepCaches(b1, e, code, NumberText(number), chapter.id, attrs.translatedLanguage.value, attrs.createdAt);
      }
    }
  }

  /** After a normal, non-early return the key `"<code> <number>"` is in the chapter cache. */
  lemma ChapterKeyCached(m: MState, e: Env, code: string, chapter: Chapter)
    requires !Skipped(chapter) && NumberOf(chapter).Ok?
    requires MangaChapterStep(m, e, code, chapter).1.Ok?
    ensures ChapterCacheKey(code, NumberOf(chapter).value, None) in MangaChapterStep(m, e, code, chapter).0.bot.comicChapters
  {
    var number := NumberOf(chapter).value;
    var key := ChapterCacheKey(code, number, None);
    AppendAbsentCaches(m.bot.comicChapters, key);
    var b1 := ChapterRecordStep(m.bot, e.Faults(), code, number).0;
    assert key in b1.comicChapters;
    var attrs := chapter.attributes.value;
    if attrs.translatedLanguage.Some? {
      ChapterLinksKeepCaches(b1, e, code, NumberText(number), chapter.id, attrs.translatedLanguage.value, attrs.createdAt);
    }
  }

  /** A chapter whose language the website does not carry gets no link, link item-language or
      destination link. */
  lemma ChapterLanguageSkipped(m: MState, e: Env, code: string, chapter: Chapter)
    requires !Skipped(chapter)
    requires var lang := chapter.attributes.value.translatedLanguage; lang.None? || lang.value !in m.itemLanguages
    ensures var s' := MangaChapterStep(m, e, code, chapter).0.bot.store;
      && s'.links == m.bot.store.links
      && s'.linkItemLanguages == m.bot.store.linkItemLanguages
      && s'.chapterLinks == m.bot.store.chapterLinks
  {
  }

  /** Integer chapters with different numbers never share a cache key, so the cache does not
      confuse them. */
  lemma ChapterKeysDistinguishNumbers(code: string, i: int, j: int)
    ensures ChapterCacheKey(code, Whole(i), None) == ChapterCacheKey(code, Whole(j), None) ==> i == j
  {
    var prefix := code + " ";
    if ChapterCacheKey(code, Whole(i), None) == ChapterCacheKey(code, Whole(j), None) {
      var ki := prefix + IntToDecimal(i);
      var kj := prefix + IntToDecimal(j);
      assert ki == ChapterCacheKey(code, Whole(i), None);
      assert kj == ChapterCacheKey(code, Whole(j), None);
      assert ki[|prefix|..] == IntToDecimal(i);
      assert kj[|prefix|..] == IntToDecimal(j);
      IntToDecimalInjective(i, j);
    }
  }

  /** Number normalisation on sample texts: "10" is the integer 10, "10.5" stays fractional,
      text `float()` refuses raises, and the key of chapter 10 is `"<code> 10"`. */
  lemma NormalizeExamples()
    ensures Normalize("10", Some("10.0")) == Ok(Whole(10))
    ensures Normalize("-3", Some("-3.0")) == Ok(Whole(-3))
    ensures Normalize("10.5", Some("10.5")) == Ok(Fractional("10.5"))
    ensures Normalize("extra", None) == Err(NotANumber)
    ensures ChapterCacheKey("c1", Whole(10), None) == "c1 10"
  {
    assert IsIntLiteral("10") && ParseInt("10") == 10 by {
      assert "10"[..1] == "1" && "1"[..0] == "";
      assert DigitsValue("1") == 1;
      assert DigitsValue("10") == DigitsValue("1") * 10 + DigitValue('0');
    }
    assert IsIntLiteral("-3") && "-3"[1..] == "3";
    assert !IsIntLiteral("10.5") by {
      assert !IsDigit("10.5"[2]);
      assert "10.5"[1..] == "0.5" && !IsDigit("0.5"[1]);
    }
    assert NatToDecimal(10) == NatToDecimal(1) + [DigitChar(0)];
  }

  /** After the chapter links step returns normally, the link, its item-language and the
      chapter's destination link are all recorded, and none of its probes is faulted. */
  lemma ChapterLinksHold(b: BotState, e: Env, code: string, nv: string, id: string, lang: string, createdAt: string)
    requires ChapterLinksStep(b, e, code, nv, id, lang, createdAt).1 == Pass
    ensures var s' := ChapterLinksStep(b, e, code, nv, id, lang, createdAt).0.store;
      && ChapterHref(id) in s'.links
      && (ChapterHref(id), lang) in s'.linkItemLanguages
      && HasChapterLink(s', code, nv, ChapterHref(id))
      && GetLink(ChapterHref(id)) !in e.Faults()
      && GetLinkItemLanguage(ChapterHref(id), lang) !in e.Faults()
      && ListComicChapterDestinationLink(code, nv, ChapterHref(id)) !in e.Faults()
  {
    var b1 := EnsureStep(b, e.Faults(), AddLink(Host, ChapterPath(id))).0;
    var b2 := EnsureStep(b1, e.Faults(), AddLinkItemLanguage(ChapterHref(id), lang, Some(0))).0;
    assert ChapterHref(id) in b2.store.links;
    var at := ReleasedAt(createdAt, e.now);
    if !HasChapterLink(b2.store, code, nv, ChapterHref(id)) {
      var s' := ChapterLinksStep(b, e, code, nv, id, lang, createdAt).0.store;
      assert ChapterLink(code, nv, ChapterHref(id), at) in s'.chapterLinks;
    }
  }

  /** With its records in place and its probes unfaulted, the chapter links step only probes. */
  lemma ChapterLinksRerun(b: BotState, e: Env, code: string, nv: string, id: string, lang: string, createdAt: string)
    requires ChapterHref(id) in b.store.links && (ChapterHref(id), lang) in b.store.linkItemLanguages
    requires HasChapterLink(b.store, code, nv, ChapterHref(id))
    requires GetLink(ChapterHref(id)) !in e.Faults() && GetLinkItemLanguage(ChapterHref(id), lang) !in e.Faults()
    requires ListComicChapterDestinationLink(code, nv, ChapterHref(id)) !in e.Faults()
    ensures var (b', o) := ChapterLinksStep(b, e, code, nv, id, lang, createdAt);
      o == Pass && b'.(store := b.store) == b && SameRecords(b.store, b'.store)
  {
  }

  /** Running `__manga_chapter` again on a chapter it handled creates nothing, and, the key now
      being cached, reports `exist=False`. */
  lemma ChapterRerunCreatesNothing(m: MState, e: Env, code: string, chapter: Chapter)
    requires !Skipped(chapter)
    requires MangaChapterStep(m, e, code, chapter).1.Ok?
    ensures var m1 := MangaChapterStep(m, e, code, chapter).0;
      var (m2, r2) := MangaChapterStep(m1, e, code, chapter);
      r2.Ok? && !r2.value.exist && SameRecords(m1.bot.store, m2.bot.store)
  {
    var number := NumberOf(chapter).value;
    var attrs := chapter.attributes.value;
    var nv := NumberText(number);
    var m1 := MangaChapterStep(m, e, code, chapter).0;
    ChapterKeyCached(m, e, code, chapter);
    assert ChapterRecordStep(m1.bot, e.Faults(), code, number) == (m1.bot, Ok(false));
    var lang := attrs.translatedLanguage;
    if lang.Some? && lang.value in m.itemLanguages {
      var b1 := ChapterRecordStep(m.bot, e.Faults(), code, number).0;
      ChapterLinksHold(b1, e, code, nv, chapter.id, lang.value, attrs.createdAt);
      ChapterLinksRerun(m1.bot, e, code, nv, chapter.id, lang.value, attrs.createdAt);
    }
  }

  //
  // scrap_comics_complete
  //

  /** The chapter counter never passes a truthy `max_comic_chapter` it started below. */
  lemma {:induction false} ScrapChaptersWithinMax(m: MState, e: Env, code: string, feed: seq<Chapter>, k: nat,
                                                  max: Option<int>, total: nat)
    requires TruthyCount(max) && total <= max.value
    requires ScrapChaptersStep(m, e, code, feed, k, max, total).1.Ok?
    ensures total <= ScrapChaptersStep(m, e, code, feed, k, max, total).1.value <= max.value
    decreases |feed| - k
  {
    if !(Reached(max, total) || k >= |feed|) {
      var (m1, r) := ChapterEntryStep(m, e, code, feed[k], total);
      ScrapChaptersWithinMax(m1, e, code, feed, k + 1, max, r.value);
    }
  }

  /** The new-comic counter never passes a truthy `max_comic` it started below. */
  lemma {:induction false} ScrapMangasWithinMax(m: MState, e: Env, k: nat, maxComic: Option<int>, maxChapter: Option<int>,
                                                total: nat)
    requires TruthyCount(maxComic) && total <= maxComic.value
    requires ScrapMangasStep(m, e, k, maxComic, maxChapter, total).1.Ok?
    ensures total <= ScrapMangasStep(m, e, k, maxComic, maxChapter, total).1.value <= maxComic.value
    decreases |e.source.search| - k
  {
    if !(Reached(maxComic, total) || k >= |e.source.search|) {
      var (m1, r) := MangaEntryStep(m, e, e.source.search[k], maxChapter, total);
      ScrapMangasWithinMax(m1, e, k + 1, maxComic, maxChapter, r.value);
    }
  }

  /** `process`: a failing `load` stops before any MangaDex request and its error is the result;
      otherwise the website's item languages include en and id before the scrape starts, and a
      normal return reports at most `max_comic` new comics when that limit is positive, and none
      when it is negative (the first test `total > max_comic - 1` already stops the walk). */
  lemma ProcessLoadsThenScraps(m: MState, e: Env, maxComic: Option<int>, maxChapter: Option<int>)
    ensures var (m1, o) := LoadMangaDexStep(m, e, true);
      var (m', r) := ProcessStep(m, e, maxComic, maxChapter);
      && (o.Fail? ==> m' == m1 && r == Err(o.error))
      && (o.Pass? ==> "en" in m1.itemLanguages && "id" in m1.itemLanguages
                      && (m', r) == ScrapMangasStep(m1, e, 0, maxComic, maxChapter, 0))
      && (r.Ok? && TruthyCount(maxComic) ==> r.value <= (if maxComic.value > 0 then maxComic.value else 0))
  {
    var (m1, o) := LoadMangaDexStep(m, e, true);
    if o.Pass? {
      LoadSeedsItemLanguages(m, e);
      if ProcessStep(m, e, maxComic, maxChapter).1.Ok? && TruthyCount(maxComic) && maxComic.value > 0 {
        ScrapMangasWithinMax(m1, e, 0, maxComic, maxChapter, 0);
      }
    }
  }

  /** A chapter limit of 0 is no limit: the walk is the one with None. */
  lemma {:induction false} ZeroChapterLimitIsUnlimited(m: MState, e: Env, code: string, feed: seq<Chapter>, k: nat, total: nat)
    ensures ScrapChaptersStep(m, e, code, feed, k, Some(0), total) == ScrapChaptersStep(m, e, code, feed, k, None, total)
    decreases |feed| - k
  {
    if k < |feed| {
      var (m1, r) := ChapterEntryStep(m, e, code, feed[k], total);
      if r.Ok? {
        ZeroChapterLimitIsUnlimited(m1, e, code, feed, k + 1, r.value);
      }
    }
  }

  /** Limits of 0 are no limits: the scrape is the one with None for both. */
  lemma {:induction false} ZeroLimitsAreUnlimited(m: MState, e: Env, k: nat, total: nat)
    ensures ScrapMangasStep(m, e, k, Some(0), Some(0), total) == ScrapMangasStep(m, e, k, None, None, total)
    decreases |e.source.search| - k
  {
    if k < |e.source.search| {
      var manga := e.source.search[k];
      if !Truthy(manga.id) {
        ZeroLimitsAreUnlimited(m, e, k + 1, total);
      } else {
        var (m1, r) := MangaStep(m, e, manga);
        if r.Ok? && Truthy(r.value.code) {
          ZeroChapterLimitIsUnlimited(m1, e, r.value.code, Feed(e.source, manga.id), 0, 0);
        }
        assert ScrapMangaStep(m, e, manga, Some(0)) == ScrapMangaStep(m, e, manga, None);
        var (m2, r2) := MangaEntryStep(m, e, manga, None, total);
        if r2.Ok? {
          ZeroLimitsAreUnlimited(m2, e, k + 1, r2.value);
        }
      }
    }
  }

  /** The chapters from position `k` that carry an id. */
  function IdCount(feed: seq<Chapter>, k: nat): nat
    decreases |feed| - k
  {
    if k >= |feed| then 0 else (if Truthy(feed[k].id) then 1 else 0) + IdCount(feed, k + 1)
  }

  /** Without a chapter limit, the chapter counter ends at the number of chapters with an id,
      whether or not they already existed. */
  lemma {:induction false} ChapterCounterCountsIds(m: MState, e: Env, code: string, feed: seq<Chapter>, k: nat,
                                                   max: Option<int>, total: nat)
    requires !TruthyCount(max)
    requires ScrapChaptersStep(m, e, code, feed, k, max, total).1.Ok?
    ensures ScrapChaptersStep(m, e, code, feed, k, max, total).1.value == total + IdCount(feed, k)
    decreases |feed| - k
  {
    if k < |feed| {
      var (m1, r) := ChapterEntryStep(m, e, code, feed[k], total);
      if Truthy(feed[k].id) {
        ChapterAlwaysCounts(m, e, code, feed[k]);
      }
      ChapterCounterCountsIds(m1, e, code, feed, k + 1, max, r.value);
    }
  }
}
