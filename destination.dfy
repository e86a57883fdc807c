/** The ComicBagi destination catalog, seen through its REST calls: records per entity kind,
    the log of every request, and the fixed answers of an oracle (injected failures and
    the listing pages). */
module Destination {
  import opened Common
  import opened Text
  import opened Pagination

  /** A chapter number as the reconciler passes it: an `int` when the source text is an
      integer literal, otherwise the text of the `float`. */
  datatype ChapterNumber = Whole(n: int) | Fractional(text: string)

  /** `str(number)`. */
  function NumberText(n: ChapterNumber): string {
    match n
    case Whole(i) => IntToDecimal(i)
    case Fractional(t) => t
  }

  /** A `released_at` value: the source item's `createdAt` text, or the current time. */
  datatype Stamp = CreatedAt(iso: string) | Clock(seconds: int)

  /** Every request the bots send to the catalog. */
  datatype Call =
    | ListLanguage(page: nat, limit: nat)
    | AddLanguage(lang: string, name: string)
    | GetWebsite(host: string)
    | AddWebsite(host: string, name: string)
    | ListWebsiteItemLanguage(websiteHost: string, page: nat, limit: nat)
    | AddWebsiteItemLanguage(websiteHost: string, languageLang: string, machineTranslate: Option<int>)
    | GetLink(href: string)
    | AddLink(websiteHost: string, relativeReference: string)
    | GetLinkItemLanguage(linkHref: string, languageLang: string)
    | AddLinkItemLanguage(linkHref: string, languageLang: string, machineTranslate: Option<int>)
    | ListComic(destinationLink: string)
    | GetComic(code: string)
    | AddComic(code: string)
    | ListComicDestinationLink(comicCode: string, linkHref: string)
    | AddComicDestinationLink(comicCode: string, linkWebsiteHost: string, linkRelativeReference: string, releasedAt: Stamp)
    | GetComicChapter(comicCode: string, chapterNV: string)
    | AddComicChapter(comicCode: string, number: ChapterNumber, version: Option<string>)
    | ListComicChapterDestinationLink(comicCode: string, chapterNV: string, linkHref: string)
    | AddComicChapterDestinationLink(comicCode: string, chapterNV: string, linkWebsiteHost: string,
                                     linkRelativeReference: string, releasedAt: Stamp)

  datatype DestinationLink = DestinationLink(comic: string, href: string, releasedAt: Stamp)
  datatype ChapterId = ChapterId(comic: string, number: string, version: Option<string>)
  datatype ChapterLink = ChapterLink(comic: string, chapterNV: string, href: string, releasedAt: Stamp)

  /** The catalog's records, one collection per entity kind, and every request received so far. */
  datatype Store = Store(
    languages: set<string>,
    websites: set<string>,
    websiteItemLanguages: set<(string, string)>,
    links: set<string>,
    linkItemLanguages: set<(string, string)>,
    comics: set<string>,
    comicLinks: seq<DestinationLink>,
    chapters: set<ChapterId>,
    chapterLinks: set<ChapterLink>,
    log: seq<Call>)

  const EmptyStore: Store := Store({}, {}, {}, {}, {}, {}, [], {}, {}, [])

  /** A failure status other than 404: absence is never injected, it follows from the records. */
  type FailStatus = s: int | s != NotFoundStatus witness 500

  /** The fixed answers of the catalog: requests that fail, and the pages of the two listings. */
  datatype Oracle = Oracle(
    faults: map<Call, FailStatus>,
    languagePages: seq<Reply<string>>,
    itemLanguagePages: map<string, seq<Reply<string>>>)

  function ItemLanguagePages(o: Oracle, host: string): seq<Reply<string>> {
    if host in o.itemLanguagePages then o.itemLanguagePages[host] else []
  }

  /** The answer of a `get_*` request: the record, a 404, or another failure. */
  datatype Probe = Found | NotFound | Error(status: int)

  /** The answer of an `ensure exists` step (probe, then create on 404). */
  datatype Ensured = Existed | Created

  function Href(host: string, relative: string): string {
    host + relative
  }

  function Logged(s: Store, c: Call): Store {
    s.(log := s.log + [c])
  }

  function LoggedAll(s: Store, calls: seq<Call>): Store {
    s.(log := s.log + calls)
  }

  /** Everything but the log is unchanged: no record was created. */
  predicate SameRecords(s: Store, s': Store) {
    s'.(log := s.log) == s
  }

  predicate IsProbe(c: Call) {
    c.GetWebsite? || c.GetLink? || c.GetLinkItemLanguage? || c.GetComic? || c.GetComicChapter?
  }

  predicate IsCreate(c: Call) {
    || c.AddLanguage? || c.AddWebsite? || c.AddWebsiteItemLanguage? || c.AddLink?
    || c.AddLinkItemLanguage? || c.AddComic? || c.AddComicDestinationLink?
    || c.AddComicChapter? || c.AddComicChapterDestinationLink?
  }

  /** Whether the record a probe asks for exists. */
  predicate Holds(s: Store, c: Call)
    requires IsProbe(c)
  {
    match c
    case GetWebsite(host) => host in s.websites
    case GetLink(href) => href in s.links
    case GetLinkItemLanguage(href, lang) => (href, lang) in s.linkItemLanguages
    case GetComic(code) => code in s.comics
    case GetComicChapter(code, nv) => ChapterId(code, nv, None) in s.chapters
  }

  function ProbeOf(s: Store, faults: map<Call, FailStatus>, c: Call): Probe
    requires IsProbe(c)
  {
    if c in faults then Error(faults[c]) else if Holds(s, c) then Found else NotFound
  }

  /** The record a successful create adds. */
  function Insert(s: Store, c: Call): Store
    requires IsCreate(c)
  {
    match c
    case AddLanguage(lang, _) => s.(languages := s.languages + {lang})
    case AddWebsite(host, _) => s.(websites := s.websites + {host})
    case AddWebsiteItemLanguage(host, lang, _) => s.(websiteItemLanguages := s.websiteItemLanguages + {(host, lang)})
    case AddLink(host, rel) => s.(links := s.links + {Href(host, rel)})
    case AddLinkItemLanguage(href, lang, _) => s.(linkItemLanguages := s.linkItemLanguages + {(href, lang)})
    case AddComic(code) => s.(comics := s.comics + {code})
    case AddComicDestinationLink(code, host, rel, at) =>
      s.(comicLinks := s.comicLinks + [DestinationLink(code, Href(host, rel), at)])
    case AddComicChapter(code, number, version) =>
      s.(chapters := s.chapters + {ChapterId(code, NumberText(number), version)})
    case AddComicChapterDestinationLink(code, nv, host, rel, at) =>
      s.(chapterLinks := s.chapterLinks + {ChapterLink(code, nv, Href(host, rel), at)})
  }

  /** An `add_*` request: it fails when the oracle says so, and otherwise adds its record. */
  function Create(s: Store, faults: map<Call, FailStatus>, c: Call): (Store, Outcome)
    requires IsCreate(c)
  {
    if c in faults then (Logged(s, c), Fail(ApiError(faults[c])))
    else (Insert(Logged(s, c), c), Pass)
  }

  /** Codes of the comics whose destination links point at `href`, in creation order. */
  function LinkedComics(links: seq<DestinationLink>, href: string): seq<string>
    decreases |links|
  {
    if links == [] then []
    else LinkedComics(links[..|links| - 1], href)
         + (if links[|links| - 1].href == href then [links[|links| - 1].comic] else [])
  }

  /** `list_comic(destination_link=[linkHREF=href])`. */
  function ListComics(s: Store, faults: map<Call, FailStatus>, href: string): (Store, Result<seq<string>>) {
    var c := ListComic(href);
    (Logged(s, c), if c in faults then Err(ApiError(faults[c])) else Ok(LinkedComics(s.comicLinks, href)))
  }

  predicate HasComicLink(s: Store, code: string, href: string) {
    exists i :: 0 <= i < |s.comicLinks| && s.comicLinks[i].comic == code && s.comicLinks[i].href == href
  }

  /** `list_comic_destination_link(code, link_href=[href])`, reduced to whether it is empty. */
  function ListComicLinks(s: Store, faults: map<Call, FailStatus>, code: string, href: string): (Store, Result<bool>) {
    var c := ListComicDestinationLink(code, href);
    (Logged(s, c), if c in faults then Err(ApiError(faults[c])) else Ok(HasComicLink(s, code, href)))
  }

  predicate HasChapterLink(s: Store, code: string, nv: string, href: string) {
    exists l :: l in s.chapterLinks && l.comic == code && l.chapterNV == nv && l.href == href
  }

  /** `list_comic_chapter_destination_link(code, nv, link_href=[href])`, reduced to whether it is empty. */
  function ListChapterLinks(s: Store, faults: map<Call, FailStatus>, code: string, nv: string, href: string)
    : (Store, Result<bool>)
  {
    var c := ListComicChapterDestinationLink(code, nv, href);
    (Logged(s, c), if c in faults then Err(ApiError(faults[c])) else Ok(HasChapterLink(s, code, nv, href)))
  }

  /** Creates that the reconciler guards with a probe of the record they make. */
  predicate Guarded(c: Call) {
    c.AddWebsite? || c.AddLink? || c.AddLinkItemLanguage? || c.AddComic? || (c.AddComicChapter? && c.version.None?)
  }

  /** The probe that asks for the record a guarded create makes. */
  function ProbeFor(c: Call): (p: Call)
    requires Guarded(c)
    ensures IsProbe(p)
  {
    match c
    case AddWebsite(host, _) => GetWebsite(host)
    case AddLink(host, rel) => GetLink(Href(host, rel))
    case AddLinkItemLanguage(href, lang, _) => GetLinkItemLanguage(href, lang)
    case AddComic(code) => GetComic(code)
    case AddComicChapter(code, number, _) => GetComicChapter(code, NumberText(number))
  }

  /** Probe; on 404 create once; any other failure propagates. */
  function Ensure(s: Store, faults: map<Call, FailStatus>, create: Call): (Store, Result<Ensured>)
    requires Guarded(create)
  {
    var probe := ProbeFor(create);
    var s1 := Logged(s, probe);
    match ProbeOf(s, faults, probe)
    case Found => (s1, Ok(Existed))
    case Error(status) => (s1, Err(ApiError(status)))
    case NotFound =>
      var (s2, o) := Create(s1, faults, create);
      (s2, if o.Pass? then Ok(Created) else Err(o.error))
  }

  /** A guarded create makes the record its probe asks for. */
  lemma CreateSatisfiesProbe(s: Store, faults: map<Call, FailStatus>, c: Call)
    requires Guarded(c) && Create(s, faults, c).1.Pass?
    ensures Holds(Create(s, faults, c).0, ProbeFor(c))
  {
  }

  /** The three outcomes of an ensure step: a found record creates nothing, a 404 issues exactly
      one create, any other probe failure propagates with no create attempted. */
  lemma EnsureCases(s: Store, faults: map<Call, FailStatus>, c: Call)
    requires Guarded(c)
    ensures var (s', r) := Ensure(s, faults, c); var p := ProbeFor(c);
      && (ProbeOf(s, faults, p) == Found ==> s' == Logged(s, p) && r == Ok(Existed))
      && (ProbeOf(s, faults, p).Error? ==> s' == Logged(s, p) && r == Err(ApiError(ProbeOf(s, faults, p).status)))
      && (ProbeOf(s, faults, p) == NotFound ==> s'.log == s.log + [p, c])
      && (ProbeOf(s, faults, p) == NotFound && c in faults ==>
            s' == Logged(Logged(s, p), c) && r == Err(ApiError(faults[c])))
      && (r == Ok(Created) <==> ProbeOf(s, faults, p) == NotFound && c !in faults)
      && (r == Ok(Created) ==> s' == Insert(Logged(Logged(s, p), c), c))
  {
  }

  /** Ensuring a record twice creates it at most once: the second probe finds it. */
  lemma EnsureIdempotent(s: Store, faults: map<Call, FailStatus>, c: Call)
    requires Guarded(c) && Ensure(s, faults, c).1.Ok?
    ensures var s1 := Ensure(s, faults, c).0;
      Ensure(s1, faults, c) == (Logged(s1, ProbeFor(c)), Ok(Existed))
  {
  }

  /** The destination calls as a class: its records change only through `Add`. */
  class Catalog {
    var store: Store
    const oracle: Oracle

    constructor (oracle: Oracle, store: Store)
      ensures this.oracle == oracle && this.store == store
    {
      this.oracle := oracle;
      this.store := store;
    }

    method Get(c: Call) returns (r: Probe)
      requires IsProbe(c)
      modifies this
      ensures store == Logged(old(store), c)
      ensures r == ProbeOf(old(store), oracle.faults, c)
    {
      r := ProbeOf(store, oracle.faults, c);
      store := Logged(store, c);
    }

    method Add(c: Call) returns (r: Outcome)
      requires IsCreate(c)
      modifies this
      ensures (store, r) == Create(old(store), oracle.faults, c)
    {
      var s;
      s, r := Create(store, oracle.faults, c).0, Create(store, oracle.faults, c).1;
      store := s;
    }

    method ListLanguagePage(page: nat, limit: nat) returns (r: Reply<string>)
      modifies this
      ensures store == Logged(old(store), ListLanguage(page, limit))
      ensures r == FetchPage(oracle.languagePages, page)
    {
      r := FetchPage(oracle.languagePages, page);
      store := Logged(store, ListLanguage(page, limit));
    }

    method ListWebsiteItemLanguagePage(host: string, page: nat, limit: nat) returns (r: Reply<string>)
      modifies this
      ensures store == Logged(old(store), ListWebsiteItemLanguage(host, page, limit))
      ensures r == FetchPage(ItemLanguagePages(oracle, host), page)
    {
      r := FetchPage(ItemLanguagePages(oracle, host), page);
      store := Logged(store, ListWebsiteItemLanguage(host, page, limit));
    }

    method ListComicsLinkedTo(href: string) returns (r: Result<seq<string>>)
      modifies this
      ensures (store, r) == ListComics(old(store), oracle.faults, href)
    {
      r := ListComics(store, oracle.faults, href).1;
      store := Logged(store, ListComic(href));
    }

    method ListComicLinksTo(code: string, href: string) returns (r: Result<bool>)
      modifies this
      ensures (store, r) == ListComicLinks(old(store), oracle.faults, code, href)
    {
      r := ListComicLinks(store, oracle.faults, code, href).1;
      store := Logged(store, ListComicDestinationLink(code, href));
    }

    method ListChapterLinksTo(code: string, nv: string, href: string) returns (r: Result<bool>)
      modifies this
      ensures (store, r) == ListChapterLinks(old(store), oracle.faults, code, nv, href)
    {
      r := ListChapterLinks(store, oracle.faults, code, nv, href).1;
      store := Logged(store, ListComicChapterDestinationLink(code, nv, href));
    }
  }
}
