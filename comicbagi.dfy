/** The ComicBagi session bot: token refresh, the language listing and seeding, and the
    `add_*` helpers with the in-session caches they keep. */
module ComicBagi {
  import opened Common
  import opened Text
  import opened Pagination
  import opened Destination

  /** Seconds of remaining validity below which the token is refreshed. */
  const ExpiryMargin: int := 300

  const LanguagePageLimit: nat := 15

  /** The languages seeded at session start, in order, with their display names. */
  const LanguageSeeds: seq<(string, string)> :=
    [("en", "English"), ("id", "Indonesian"), ("ja", "Japanese"), ("ko", "Korean"), ("zh", "Chinese")]

  /** The bearer token and its expiry (seconds). */
  datatype Token = Token(expires: int, access: Option<string>)

  /** What the OAuth token endpoint answers: `access_token` and `expires_in`, or a non-ok response. */
  datatype TokenReply = Granted(accessToken: string, expiresIn: int) | Refused

  /** `authenticate`: keep a token that is valid for more than the margin, otherwise refresh. */
  function Refresh(t: Token, endpoint: TokenReply, now: int): (Token, Outcome) {
    if t.expires > now + ExpiryMargin then (t, Pass)
    else match endpoint
      case Refused => (t, Fail(AuthFailed))
      case Granted(access, expiresIn) => (Token(now + expiresIn, Some(access)), Pass)
  }

  /** A fresh token is kept whatever the endpoint would answer: no request is made. */
  lemma FreshTokenNeedsNoRequest(t: Token, e1: TokenReply, e2: TokenReply, now: int)
    requires t.expires > now + ExpiryMargin
    ensures Refresh(t, e1, now) == Refresh(t, e2, now) == (t, Pass)
  {
  }

  /** An expiring token is replaced on an ok answer and kept, with an error, on a refusal. */
  lemma ExpiringTokenIsRefreshed(t: Token, endpoint: TokenReply, now: int)
    requires t.expires <= now + ExpiryMargin
    ensures endpoint.Granted? ==>
      Refresh(t, endpoint, now) == (Token(now + endpoint.expiresIn, Some(endpoint.accessToken)), Pass)
    ensures endpoint.Refused? ==> Refresh(t, endpoint, now) == (t, Fail(AuthFailed))
  {
  }

  /** Refreshing again at the same instant changes nothing: redundant calls are safe. */
  lemma RefreshIdempotent(t: Token, endpoint: TokenReply, now: int)
    ensures Refresh(Refresh(t, endpoint, now).0, endpoint, now) == Refresh(t, endpoint, now)
  {
  }

  predicate NoDuplicates(s: seq<string>) {
    forall i, j :: 0 <= i < j < |s| ==> s[i] != s[j]
  }

  /** The cache update of `add_language`, `add_website` and `add_comic_chapter`. */
  function AppendAbsent(cache: seq<string>, key: string): seq<string> {
    if key in cache then cache else cache + [key]
  }

  /** The cache gains `key` and nothing else, keeps its order, and never gains a duplicate. */
  /** Appending a key that is not yet in a duplicate-free list keeps it duplicate-free. */
  lemma AppendNewKeepsDistinct(s: seq<string>, k: string)
    requires NoDuplicates(s) && k !in s
    ensures NoDuplicates(s + [k])
  {
    forall i, j | 0 <= i < j < |s + [k]| ensures (s + [k])[i] != (s + [k])[j] {
      if j == |s| { assert (s + [k])[i] == s[i]; }
    }
  }

  lemma AppendAbsentCaches(cache: seq<string>, key: string)
    ensures var r := AppendAbsent(cache, key);
      && (forall k :: k in r <==> k in cache || k == key)
      && |cache| <= |r| <= |cache| + 1 && r[..|cache|] == cache
      && (NoDuplicates(cache) ==> NoDuplicates(r))
  {
  }

  /** The chapter cache key `"<code> <number><version or ''>"`. */
  function ChapterCacheKey(code: string, number: ChapterNumber, version: Option<string>): string {
    code + " " + NumberText(number) + (if version.Some? then version.value else "")
  }

  /** Without a version the key is `"<code> <number>"`. */
  lemma UnversionedChapterKey(code: string, number: ChapterNumber)
    ensures ChapterCacheKey(code, number, None) == code + " " + NumberText(number)
  {
  }

  /** Everything the session bot holds, with the catalog's records. */
  datatype BotState = BotState(
    store: Store,
    token: Token,
    languages: seq<string>,
    websites: seq<string>,
    comicChapters: seq<string>)

  function AuthenticateStep(b: BotState, endpoint: TokenReply, now: int): (BotState, Outcome) {
    var (t, o) := Refresh(b.token, endpoint, now);
    (b.(token := t), o)
  }

  /** The cache update a successful `add_*` makes: `add_language`, `add_website` and
      `add_comic_chapter` append their key when absent; the other helpers keep no cache. */
  function Cached(b: BotState, c: Call): BotState {
    match c
    case AddLanguage(lang, _) => b.(languages := AppendAbsent(b.languages, lang))
    case AddWebsite(host, _) => b.(websites := AppendAbsent(b.websites, host))
    case AddComicChapter(code, number, version) =>
      b.(comicChapters := AppendAbsent(b.comicChapters, ChapterCacheKey(code, number, version)))
    case _ => b
  }

  /** An `add_*` helper: the create request, then, only when it succeeded, the cache update. */
  function AddStep(b: BotState, faults: map<Call, FailStatus>, c: Call): (BotState, Outcome)
    requires IsCreate(c)
  {
    var (s, o) := Create(b.store, faults, c);
    ((if o.Pass? then Cached(b, c) else b).(store := s), o)
  }

  /** A failed create raises before the cache is touched; a successful one caches its key, and the
      catalog gains exactly the record. */
  lemma AddStepCaches(b: BotState, faults: map<Call, FailStatus>, c: Call)
    requires IsCreate(c)
    ensures var (b', o) := AddStep(b, faults, c);
      && (o.Fail? <==> c in faults)
      && (o.Fail? ==> b' == b.(store := Logged(b.store, c)))
      && (o.Pass? ==> b'.store == Insert(Logged(b.store, c), c))
      && (c.AddLanguage? && o.Pass? ==> b'.languages == AppendAbsent(b.languages, c.lang))
      && (c.AddWebsite? && o.Pass? ==> b'.websites == AppendAbsent(b.websites, c.host))
      && (c.AddComicChapter? && o.Pass? ==>
            b'.comicChapters == AppendAbsent(b.comicChapters, ChapterCacheKey(c.comicCode, c.number, c.version)))
      && (!c.AddLanguage? ==> b'.languages == b.languages)
      && (!c.AddWebsite? ==> b'.websites == b.websites)
      && (!c.AddComicChapter? ==> b'.comicChapters == b.comicChapters)
      && b'.token == b.token
  {
  }

  /** The caches never gain a duplicate through an `add_*` helper. */
  lemma AddStepKeepsCachesDistinct(b: BotState, faults: map<Call, FailStatus>, c: Call)
    requires IsCreate(c)
    requires NoDuplicates(b.languages) && NoDuplicates(b.websites) && NoDuplicates(b.comicChapters)
    ensures var b' := AddStep(b, faults, c).0;
      NoDuplicates(b'.languages) && NoDuplicates(b'.websites) && NoDuplicates(b'.comicChapters)
  {
    match c
    case AddLanguage(lang, _) => AppendAbsentCaches(b.languages, lang);
    case AddWebsite(host, _) => AppendAbsentCaches(b.websites, host);
    case AddComicChapter(code, number, version) =>
      AppendAbsentCaches(b.comicChapters, ChapterCacheKey(code, number, version));
    case _ =>
  }

  /** The seeds whose code is not in `cache`, in seed order. */
  function Missing<V>(seeds: seq<(string, V)>, cache: seq<string>): seq<(string, V)>
    decreases |seeds|
  {
    if seeds == [] then []
    else (if seeds[0].0 in cache then [] else [seeds[0]]) + Missing(seeds[1..], cache)
  }

  /** A seed is missing exactly when it is a seed and its code is not cached. */
  lemma {:induction false} MissingMembers<V>(seeds: seq<(string, V)>, cache: seq<string>, p: (string, V))
    ensures p in Missing(seeds, cache) <==> p in seeds && p.0 !in cache
    decreases |seeds|
  {
    if seeds != [] {
      MissingMembers(seeds[1..], cache, p);
      assert seeds == [seeds[0]] + seeds[1..];
    }
  }

  function Codes<V>(seeds: seq<(string, V)>): seq<string>
    decreases |seeds|
  {
    if seeds == [] then [] else [seeds[0].0] + Codes(seeds[1..])
  }

  predicate DistinctCodes<V>(seeds: seq<(string, V)>) {
    forall i, j :: 0 <= i < j < |seeds| ==> seeds[i].0 != seeds[j].0
  }

  function AddLanguageCalls(seeds: seq<(string, string)>): seq<Call>
    decreases |seeds|
  {
    if seeds == [] then [] else [AddLanguage(seeds[0].0, seeds[0].1)] + AddLanguageCalls(seeds[1..])
  }

  /** The seeding loop of `load`: `add_language` for each seed whose code is not cached. */
  function SeedLanguages(b: BotState, faults: map<Call, FailStatus>, seeds: seq<(string, string)>): (BotState, Outcome)
    decreases |seeds|
  {
    if seeds == [] then (b, Pass)
    else if seeds[0].0 in b.languages then SeedLanguages(b, faults, seeds[1..])
    else
      var (b1, o) := AddStep(b, faults, AddLanguage(seeds[0].0, seeds[0].1));
      if o.Fail? then (b1, o) else SeedLanguages(b1, faults, seeds[1..])
  }

  predicate Unfaulted(faults: map<Call, FailStatus>, seeds: seq<(string, string)>) {
    forall i :: 0 <= i < |seeds| ==> AddLanguage(seeds[i].0, seeds[i].1) !in faults
  }

  /** Dropping the first seed keeps the seeds' codes distinct and their creates unfaulted. */
  lemma TailSeeds(faults: map<Call, FailStatus>, seeds: seq<(string, string)>)
    requires seeds != [] && DistinctCodes(seeds) && Unfaulted(faults, seeds)
    ensures DistinctCodes(seeds[1..]) && Unfaulted(faults, seeds[1..])
    ensures forall i :: 0 <= i < |seeds[1..]| ==> seeds[1..][i].0 != seeds[0].0
  {
    DistinctTail(seeds);
    var rest := seeds[1..];
    forall i | 0 <= i < |rest| ensures AddLanguage(rest[i].0, rest[i].1) !in faults {
      assert rest[i] == seeds[i + 1];
    }
  }

  /** When every create succeeds, seeding appends exactly the missing codes to the language
      cache, in seed order, and leaves the other caches and the token alone. */
  lemma {:induction false} SeedLanguagesCachesMissing(b: BotState, faults: map<Call, FailStatus>, seeds: seq<(string, string)>)
    requires DistinctCodes(seeds) && Unfaulted(faults, seeds)
    ensures var (b', o) := SeedLanguages(b, faults, seeds);
      && o == Pass
      && b'.languages == b.languages + Codes(Missing(seeds, b.languages))
      && b'.token == b.token && b'.websites == b.websites && b'.comicChapters == b.comicChapters
    decreases |seeds|
  {
    if seeds != [] {
      TailSeeds(faults, seeds);
      var rest := seeds[1..];
      if seeds[0].0 in b.languages {
        SeedLanguagesCachesMissing(b, faults, rest);
        assert Missing(seeds, b.languages) == Missing(rest, b.languages);
      } else {
        var b1 := AddStep(b, faults, AddLanguage(seeds[0].0, seeds[0].1)).0;
        SeedLanguagesCachesMissing(b1, faults, rest);
        MissingUnaffected(rest, b.languages, seeds[0].0);
        assert Missing(seeds, b.languages) == [seeds[0]] + Missing(rest, b.languages);
      }
    }
  }

  /** When every create succeeds, seeding sends exactly one `add_language` per missing seed,
      in seed order, and no other request. */
  lemma {:induction false} SeedLanguagesRequestsMissing(b: BotState, faults: map<Call, FailStatus>, seeds: seq<(string, string)>)
    requires DistinctCodes(seeds) && Unfaulted(faults, seeds)
    ensures SeedLanguages(b, faults, seeds).0.store.log == b.store.log + AddLanguageCalls(Missing(seeds, b.languages))
    decreases |seeds|
  {
    if seeds != [] {
      TailSeeds(faults, seeds);
      var rest := seeds[1..];
      if seeds[0].0 in b.languages {
        SeedLanguagesRequestsMissing(b, faults, rest);
        assert Missing(seeds, b.languages) == Missing(rest, b.languages);
      } else {
        var b1 := AddStep(b, faults, AddLanguage(seeds[0].0, seeds[0].1)).0;
        SeedLanguagesRequestsMissing(b1, faults, rest);
        MissingUnaffected(rest, b.languages, seeds[0].0);
        assert Missing(seeds, b.languages) == [seeds[0]] + Missing(rest, b.languages);
        assert AddLanguageCalls(Missing(seeds, b.languages))
            == [AddLanguage(seeds[0].0, seeds[0].1)] + AddLanguageCalls(Missing(rest, b.languages));
      }
    }
  }

  /** Dropping the first seed keeps the codes distinct, and no later seed shares the first one's code. */
  lemma DistinctTail<V>(seeds: seq<(string, V)>)
    requires seeds != [] && DistinctCodes(seeds)
    ensures DistinctCodes(seeds[1..])
    ensures forall i :: 0 <= i < |seeds[1..]| ==> seeds[1..][i].0 != seeds[0].0
  {
    var rest := seeds[1..];
    forall i | 0 <= i < |rest| ensures rest[i] == seeds[i + 1] {}
  }

  /** One missing seed: its `add_language` is the only request; a failure ends the seeding, a
      success caches the code and the seeding goes on with the remaining seeds. */
  lemma SeedLanguagesFirstMissing(b: BotState, faults: map<Call, FailStatus>, seeds: seq<(string, string)>)
    requires seeds != [] && seeds[0].0 !in b.languages
    ensures var c := AddLanguage(seeds[0].0, seeds[0].1);
      var (b1, o1) := AddStep(b, faults, c);
      && b1.store.log == b.store.log + [c]
      && (o1.Fail? ==> SeedLanguages(b, faults, seeds) == (b1, o1))
      && (o1.Pass? ==> b1.languages == b.languages + [seeds[0].0]
                       && SeedLanguages(b, faults, seeds) == SeedLanguages(b1, faults, seeds[1..]))
  {
    AppendAbsentCaches(b.languages, seeds[0].0);
  }

  /** A log that gains `c` and then a prefix of `tail` has gained a prefix of `[c] + tail`. */
  lemma PrefixAfter<T>(log: seq<T>, c: T, tail: seq<T>, log': seq<T>)
    requires |log| + 1 <= |log'| <= |log| + 1 + |tail|
    requires log' == (log + [c]) + tail[..|log'| - |log| - 1]
    ensures log' == log + ([c] + tail)[..|log'| - |log|]
  {
    assert ([c] + tail)[..|log'| - |log|] == [c] + tail[..|log'| - |log| - 1];
  }

  /** Whatever the oracle fails, seeding sends only `add_language` requests for missing seeds, in
      seed order: the new log entries are a prefix of those requests, and all of them when the
      seeding returns normally. */
  lemma {:induction false} SeedLanguagesRequestsOnlyMissing(b: BotState, faults: map<Call, FailStatus>,
                                                            seeds: seq<(string, string)>)
    requires DistinctCodes(seeds)
    ensures var (b', o) := SeedLanguages(b, faults, seeds);
      var calls := AddLanguageCalls(Missing(seeds, b.languages));
      && |b.store.log| <= |b'.store.log| <= |b.store.log| + |calls|
      && b'.store.log == b.store.log + calls[..|b'.store.log| - |b.store.log|]
      && (o.Pass? ==> b'.store.log == b.store.log + calls)
    decreases |seeds|
  {
    if seeds != [] {
      DistinctTail(seeds);
      var rest := seeds[1..];
      if seeds[0].0 in b.languages {
        SeedLanguagesRequestsOnlyMissing(b, faults, rest);
        assert Missing(seeds, b.languages) == Missing(rest, b.languages);
      } else {
        var c := AddLanguage(seeds[0].0, seeds[0].1);
        var (b1, o1) := AddStep(b, faults, c);
        SeedLanguagesFirstMissing(b, faults, seeds);
        MissingUnaffected(rest, b.languages, seeds[0].0);
        assert Missing(seeds, b.languages) == [seeds[0]] + Missing(rest, b.languages);
        var tail := AddLanguageCalls(Missing(rest, b.languages));
        assert AddLanguageCalls(Missing(seeds, b.languages)) == [c] + tail;
        if o1.Pass? {
          SeedLanguagesRequestsOnlyMissing(b1, faults, rest);
          PrefixAfter(b.store.log, c, tail, SeedLanguages(b, faults, seeds).0.store.log);
        } else {
          assert ([c] + tail)[..1] == [c];
        }
      }
    }
  }

  /** Whatever the oracle fails, seeding keeps a duplicate-free language cache duplicate-free and
      loses no cached code: it appends a code only when it is not cached. */
  lemma {:induction false} SeedLanguagesKeepCacheDistinct(b: BotState, faults: map<Call, FailStatus>,
                                                          seeds: seq<(string, string)>)
    requires NoDuplicates(b.languages)
    ensures var b' := SeedLanguages(b, faults, seeds).0;
      NoDuplicates(b'.languages) && |b.languages| <= |b'.languages| && b'.languages[..|b.languages|] == b.languages
    decreases |seeds|
  {
    if seeds != [] && seeds[0].0 in b.languages {
      SeedLanguagesKeepCacheDistinct(b, faults, seeds[1..]);
    } else if seeds != [] {
      var (b1, o1) := AddStep(b, faults, AddLanguage(seeds[0].0, seeds[0].1));
      SeedLanguagesFirstMissing(b, faults, seeds);
      if o1.Pass? {
        AppendNewKeepsDistinct(b.languages, seeds[0].0);
        SeedLanguagesKeepCacheDistinct(b1, faults, seeds[1..]);
        var l' := SeedLanguages(b, faults, seeds).0.languages;
        assert l'[..|b.languages|] == l'[..|b1.languages|][..|b.languages|];
      } else {
        AddStepCaches(b, faults, AddLanguage(seeds[0].0, seeds[0].1));
      }
    }
  }

  /** Caching a code that is no later seed's code does not change which later seeds are missing. */
  lemma {:induction false} MissingUnaffected<V>(seeds: seq<(string, V)>, cache: seq<string>, k: string)
    requires forall i :: 0 <= i < |seeds| ==> seeds[i].0 != k
    ensures Missing(seeds, cache + [k]) == Missing(seeds, cache)
    decreases |seeds|
  {
    if seeds != [] {
      assert seeds[0].0 in cache + [k] <==> seeds[0].0 in cache;
      MissingUnaffected(seeds[1..], cache, k);
    }
  }

  /** After seeding without error every seed code is cached, even when a create failed for none. */
  lemma {:induction false} SeedLanguagesCoversSeeds(b: BotState, faults: map<Call, FailStatus>, seeds: seq<(string, string)>)
    requires SeedLanguages(b, faults, seeds).1 == Pass
    ensures forall i :: 0 <= i < |seeds| ==> seeds[i].0 in SeedLanguages(b, faults, seeds).0.languages
    ensures forall k :: k in b.languages ==> k in SeedLanguages(b, faults, seeds).0.languages
    decreases |seeds|
  {
    if seeds != [] {
      var rest := seeds[1..];
      var b1 := if seeds[0].0 in b.languages then b else AddStep(b, faults, AddLanguage(seeds[0].0, seeds[0].1)).0;
      assert SeedLanguages(b, faults, seeds) == SeedLanguages(b1, faults, rest);
      SeedLanguagesCoversSeeds(b1, faults, rest);
      forall i | 0 <= i < |seeds| ensures seeds[i].0 in SeedLanguages(b, faults, seeds).0.languages {
        if i > 0 { assert seeds[i] == rest[i - 1]; }
      }
    }
  }

  function LanguagePageCalls(count: nat): seq<Call> {
    seq(count, i requires 0 <= i < count => ListLanguage(i + 1, LanguagePageLimit))
  }

  lemma LanguagePageCallsNext(n: nat)
    ensures LanguagePageCalls(n) + [ListLanguage(n + 1, LanguagePageLimit)] == LanguagePageCalls(n + 1)
  {
  }

  /** The listing part of `load`: walk the language pages, caching every code returned. */
  function FetchLanguagesStep(b: BotState, pages: seq<Reply<string>>): (BotState, Outcome) {
    var w := Walk(pages, 1, |b.languages|);
    var b1 := b.(languages := b.languages + w.items, store := LoggedAll(b.store, LanguagePageCalls(w.pages)));
    if w.failure.Some? then (b1, Fail(ApiError(w.failure.value))) else (b1, Pass)
  }

  /** `Bot.load`: authenticate when seeding, walk the language listing into the cache, then seed. */
  function LoadStep(b: BotState, oracle: Oracle, endpoint: TokenReply, seeding: bool, now: int): (BotState, Outcome) {
    var (b0, auth) := if seeding then AuthenticateStep(b, endpoint, now) else (b, Pass);
    if auth.Fail? then (b0, auth)
    else
      var (b1, listed) := FetchLanguagesStep(b0, oracle.languagePages);
      if listed.Fail? || !seeding then (b1, listed)
      else SeedLanguages(b1, oracle.faults, LanguageSeeds)
  }

  /** After a seeding `load` that returns normally, en, id, ja, ko and zh are all cached. */
  lemma LoadSeedsAllLanguages(b: BotState, oracle: Oracle, endpoint: TokenReply, now: int)
    requires LoadStep(b, oracle, endpoint, true, now).1 == Pass
    ensures forall k :: k in ["en", "id", "ja", "ko", "zh"] ==> k in LoadStep(b, oracle, endpoint, true, now).0.languages
  {
    var (b0, auth) := AuthenticateStep(b, endpoint, now);
    var w := Walk(oracle.languagePages, 1, |b0.languages|);
    var b1 := b0.(languages := b0.languages + w.items, store := LoggedAll(b0.store, LanguagePageCalls(w.pages)));
    SeedLanguagesCoversSeeds(b1, oracle.faults, LanguageSeeds);
    assert forall k :: k in ["en", "id", "ja", "ko", "zh"] ==> exists i :: 0 <= i < |LanguageSeeds| && LanguageSeeds[i].0 == k by {
      assert LanguageSeeds[0].0 == "en" && LanguageSeeds[1].0 == "id" && LanguageSeeds[2].0 == "ja";
      assert LanguageSeeds[3].0 == "ko" && LanguageSeeds[4].0 == "zh";
    }
  }

  /** A `load` without seeding neither authenticates nor creates: only listing requests are sent. */
  lemma LoadWithoutSeedingCreatesNothing(b: BotState, oracle: Oracle, endpoint: TokenReply, now: int)
    ensures var (b', o) := LoadStep(b, oracle, endpoint, false, now);
      var w := Walk(oracle.languagePages, 1, |b.languages|);
      && SameRecords(b.store, b'.store)
      && b'.store.log == b.store.log + LanguagePageCalls(w.pages)
      && b'.token == b.token
      && b'.languages == b.languages + w.items
      && b'.websites == b.websites && b'.comicChapters == b.comicChapters
      && o == (if w.failure.Some? then Fail(ApiError(w.failure.value)) else Pass)
  {
  }

  /** The session bot. The catalog and the token endpoint are its collaborators. */
  class Bot {
    const catalog: Catalog
    const tokenEndpoint: TokenReply
    var tokenExpires: int
    var accessToken: Option<string>
    var languages: seq<string>
    var websites: seq<string>
    var comicChapters: seq<string>

    function State(): BotState
      reads this, catalog
    {
      BotState(catalog.store, Token(tokenExpires, accessToken), languages, websites, comicChapters)
    }

    constructor (catalog: Catalog, tokenEndpoint: TokenReply, now: int)
      ensures this.catalog == catalog && this.tokenEndpoint == tokenEndpoint
      ensures tokenExpires == now && accessToken == None
      ensures languages == [] && websites == [] && comicChapters == []
    {
      this.catalog := catalog;
      this.tokenEndpoint := tokenEndpoint;
      tokenExpires := now;
      accessToken := None;
      languages, websites, comicChapters := [], [], [];
    }

    method Load(seeding: bool, now: int) returns (r: Outcome)
      modifies this, catalog
      ensures (State(), r) == LoadStep(old(State()), catalog.oracle, tokenEndpoint, seeding, now)
    {
      if seeding {
        r := Authenticate(now);
        if r.Fail? {
          return;
        }
      }
      ghost var b1 := State();
      r := FetchLanguages();
      assert (State(), r) == FetchLanguagesStep(b1, catalog.oracle.languagePages);
      if r.Fail? || !seeding {
        return;
      }
      r := SeedLanguageCache();
    }

    /** The page loop of `load`. */
    method FetchLanguages() returns (r: Outcome)
      modifies this, catalog
      ensures var w := Walk(catalog.oracle.languagePages, 1, |old(languages)|);
        && languages == old(languages) + w.items
        && catalog.store == LoggedAll(old(catalog.store), LanguagePageCalls(w.pages))
        && tokenExpires == old(tokenExpires) && accessToken == old(accessToken)
        && websites == old(websites) && comicChapters == old(comicChapters)
        && r == (if w.failure.Some? then Fail(ApiError(w.failure.value)) else Pass)
    {
      ghost var b0 := State();
      ghost var replies := catalog.oracle.languagePages;
      ghost var w0 := Walk(replies, 1, |b0.languages|);
      ghost var got: seq<string> := [];
      var page := 1;
      while true
        invariant languages == b0.languages + got
        invariant WalkFrom(replies, w0, got, page, |languages|)
        invariant catalog.store == LoggedAll(b0.store, LanguagePageCalls(page - 1))
        invariant Token(tokenExpires, accessToken) == b0.token
        invariant websites == b0.websites && comicChapters == b0.comicChapters
        decreases |replies| + 1 - page
      {
        ghost var have := |languages|;
        var done;
        done, r := ReadLanguagePage(page);
        LanguagePageCallsNext(page - 1);
        if done {
          WalkFromLast(replies, w0, got, page, have);
          assert b0.languages + got + DataOf(FetchPage(replies, page)) == b0.languages + (got + DataOf(FetchPage(replies, page)));
          return;
        }
        WalkFromNext(replies, w0, got, page, have);
        got := got + FetchPage(replies, page).page.data;
        page := page + 1;
      }
    }

    /** One request of the language page loop; `done` says whether the loop ends. */
    method ReadLanguagePage(page: nat) returns (done: bool, r: Outcome)
      requires page >= 1
      modifies this, catalog
      ensures var reply := FetchPage(catalog.oracle.languagePages, page);
        && catalog.store == Logged(old(catalog.store), ListLanguage(page, LanguagePageLimit))
        && State() == old(State()).(languages := old(languages) + DataOf(reply), store := catalog.store)
        && done == !Continues(reply, |old(languages)|)
        && r == (if reply.Failed? then Fail(ApiError(reply.status)) else Pass)
    {
      var reply := catalog.ListLanguagePage(page, LanguagePageLimit);
      if reply.Failed? {
        return true, Fail(ApiError(reply.status));
      }
      var data := reply.page.data;
      if data == [] {
        return true, Pass;
      }
      CacheLanguages(data);
      var total := ReadTotalCount(reply.page.headers);
      return |languages| >= total, Pass;
    }

    /** Appends every listed code to the language cache, duplicates included. */
    method CacheLanguages(data: seq<string>)
      modifies this
      ensures State() == old(State()).(languages := old(languages) + data)
    {
      for i := 0 to |data|
        invariant languages == old(languages) + data[..i]
        invariant State() == old(State()).(languages := languages)
      {
        languages := languages + [data[i]];
      }
    }

    /** The seeding loop of `load`. */
    method SeedLanguageCache() returns (r: Outcome)
      modifies this, catalog
      ensures (State(), r) == SeedLanguages(old(State()), catalog.oracle.faults, LanguageSeeds)
    {
      ghost var b1 := State();
      var j := 0;
      while j < |LanguageSeeds|
        invariant 0 <= j <= |LanguageSeeds|
        invariant SeedLanguages(b1, catalog.oracle.faults, LanguageSeeds)
                  == SeedLanguages(State(), catalog.oracle.faults, LanguageSeeds[j..])
      {
        var (k, v) := LanguageSeeds[j];
        if k !in languages {
          var o := AddLanguage(k, v);
          if o.Fail? {
            return o;
          }
        }
        assert LanguageSeeds[j..][1..] == LanguageSeeds[j + 1..];
        j := j + 1;
      }
      return Pass;
    }

    method Authenticate(now: int) returns (r: Outcome)
      modifies this
      ensures (State(), r) == AuthenticateStep(old(State()), tokenEndpoint, now)
    {
      if tokenExpires > now + ExpiryMargin {
        return Pass;
      }
      match tokenEndpoint
      case Refused =>
        return Fail(AuthFailed);
      case Granted(access, expiresIn) =>
        accessToken := Some(access);
        tokenExpires := now + expiresIn;
        return Pass;
    }

    /** The `add_*` helper for `c`. */
    method Add(c: Call) returns (r: Outcome)
      requires IsCreate(c)
      modifies this, catalog
      ensures (State(), r) == AddStep(old(State()), catalog.oracle.faults, c)
    {
      if c.AddLanguage? {
        r := AddLanguage(c.lang, c.name);
      } else if c.AddWebsite? {
        r := AddWebsite(c.host, c.name);
      } else if c.AddComicChapter? {
        r := AddComicChapter(c.comicCode, c.number, c.version);
      } else {
        r := catalog.Add(c);
      }
    }

    method AddLanguage(lang: string, name: string) returns (r: Outcome)
      modifies this, catalog
      ensures (State(), r) == AddStep(old(State()), catalog.oracle.faults, Call.AddLanguage(lang, name))
    {
      r := catalog.Add(Call.AddLanguage(lang, name));
      if r.Fail? {
        return;
      }
      if lang !in languages {
        languages := languages + [lang];
      }
    }

    method AddWebsite(host: string, name: string) returns (r: Outcome)
      modifies this, catalog
      ensures (State(), r) == AddStep(old(State()), catalog.oracle.faults, Call.AddWebsite(host, name))
    {
      r := catalog.Add(Call.AddWebsite(host, name));
      if r.Fail? {
        return;
      }
      if host !in websites {
        websites := websites + [host];
      }
    }

    method AddComicChapter(code: string, number: ChapterNumber, version: Option<string>) returns (r: Outcome)
      modifies this, catalog
      ensures (State(), r) == AddStep(old(State()), catalog.oracle.faults, Call.AddComicChapter(code, number, version))
    {
      r := catalog.Add(Call.AddComicChapter(code, number, version));
      if r.Fail? {
        return;
      }
      var key := ChapterCacheKey(code, number, version);
      if key !in comicChapters {
        comicChapters := comicChapters + [key];
      }
    }
  }
}
