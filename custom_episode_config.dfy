/** The pure part of the custom (per-field) TV episode scraper: which of the
    requested episode details each provider is asked for, which locale it is
    asked in, and how a provider's result is merged into the episode. */
module CustomEpisodeConfig {
  import opened Optional

  /** A TV scraper is named by its id string. */
  type ScraperId = string

  const TmdbTvId: ScraperId := "tmdbtv"
  const ImdbTvId: ScraperId := "imdbtv"

  /** A locale, named by its language code. */
  type Locale = string

  const English: Locale := "en"

  /** `EpisodeScraperInfo`: one detail of an episode, or the `Invalid`
      sentinel that no provider supplies. */
  datatype EpisodeDetail = Invalid | Detail(key: string)

  /** `ShowScraperInfo`: one detail of a show. */
  datatype ShowDetail = ShowDetail(key: string)

  datatype EpisodeIdentifier = EpisodeIdentifier(id: string)

  /** `EpisodeScrapeJob::Config`. */
  datatype EpisodeConfig = EpisodeConfig(
    identifier: EpisodeIdentifier,
    locale: Locale,
    details: set<EpisodeDetail>)

  /** The part of a scraper's meta data that is used here. */
  datatype ScraperMeta = ScraperMeta(defaultLocale: Locale)

  /** A scraper's stored settings: the configured language, if any. */
  datatype ScraperSettings = ScraperSettings(language: Option<Locale>)

  /** `CustomTvScraperConfig`: the user's field-to-provider assignment and
      the scrapers `scraperForId` knows. */
  datatype CustomTvScraperConfig = CustomTvScraperConfig(
    scraperForShowDetails: map<ShowDetail, ScraperId>,
    scraperForEpisodeDetails: map<EpisodeDetail, ScraperId>,
    scrapers: map<ScraperId, ScraperMeta>)

  /** An episode: its IMDb id (`None` when not valid) and its detail values. */
  datatype Episode = Episode(imdbId: Option<string>, values: map<EpisodeDetail, string>)

  /** A started sub-job: the scraper it runs on and the config it was given. */
  datatype SubJob = SubJob(scraperId: ScraperId, config: EpisodeConfig)

  /** The keys of `m` whose value is `v` (`QMap::keys(value)`). */
  function KeysWithValue(m: map<EpisodeDetail, ScraperId>, v: ScraperId): (r: set<EpisodeDetail>)
    ensures forall k :: k in r <==> k in m && m[k] == v
  {
    set k | k in m && m[k] == v
  }

  /** The requested details that are assigned to `scraperId`. */
  function DetailsFor(assignment: map<EpisodeDetail, ScraperId>,
                      requested: set<EpisodeDetail>,
                      scraperId: ScraperId): (r: set<EpisodeDetail>)
    ensures r <= requested
    ensures forall d :: d in r <==> d in requested && d in assignment && assignment[d] == scraperId
  {
    KeysWithValue(assignment, scraperId) * requested
  }

  /** `localeFor`: English for an unknown scraper or one without settings,
      otherwise the configured language, falling back to the scraper's
      default locale. */
  function LocaleFor(custom: CustomTvScraperConfig,
                     settings: map<ScraperId, ScraperSettings>,
                     scraperId: ScraperId): (r: Locale)
    ensures scraperId !in custom.scrapers ==> r == English
    ensures scraperId in custom.scrapers && scraperId !in settings ==> r == English
    ensures scraperId in custom.scrapers && scraperId in settings && settings[scraperId].language.Some? ==>
              r == settings[scraperId].language.value
    ensures scraperId in custom.scrapers && scraperId in settings && settings[scraperId].language.None? ==>
              r == custom.scrapers[scraperId].defaultLocale
  {
    if scraperId !in custom.scrapers then English
    else if scraperId !in settings then English
    else settings[scraperId].language.GetOr(custom.scrapers[scraperId].defaultLocale)
  }

  /** `configFor`: the job's own config, with the scraper's locale, the
      given identifier, and only those requested details that are assigned
      to the scraper. */
  function ConfigFor(job: EpisodeConfig,
                     custom: CustomTvScraperConfig,
                     settings: map<ScraperId, ScraperSettings>,
                     scraperId: ScraperId,
                     id: EpisodeIdentifier): (r: EpisodeConfig)
    ensures r.identifier == id
    ensures r.locale == LocaleFor(custom, settings, scraperId)
    ensures r.details <= job.details
    ensures forall d :: d in r.details <==>
              d in job.details && d in custom.scraperForEpisodeDetails
              && custom.scraperForEpisodeDetails[d] == scraperId
  {
    job.(locale := LocaleFor(custom, settings, scraperId),
         identifier := id,
         details := DetailsFor(custom.scraperForEpisodeDetails, job.details, scraperId))
  }

  /** The config `start` gives the TMDb job: `configFor(TMDb)`, with the
      `Invalid` sentinel as its only detail when no detail is assigned to
      TMDb, so that the TMDb job always runs and its ids are copied. */
  function TmdbStartConfig(job: EpisodeConfig,
                           custom: CustomTvScraperConfig,
                           settings: map<ScraperId, ScraperSettings>): (r: EpisodeConfig)
    ensures r.details != {}
    ensures r.identifier == job.identifier
    ensures r.locale == LocaleFor(custom, settings, TmdbTvId)
    ensures ConfigFor(job, custom, settings, TmdbTvId, job.identifier).details != {} ==>
              r == ConfigFor(job, custom, settings, TmdbTvId, job.identifier)
    ensures ConfigFor(job, custom, settings, TmdbTvId, job.identifier).details == {} ==>
              r.details == {Invalid}
  {
    var c := ConfigFor(job, custom, settings, TmdbTvId, job.identifier);
    if c.details == {} then c.(details := {Invalid}) else c
  }

  /** The guard of `onTmdbLoaded`: IMDb is asked only for an episode with a
      valid IMDb id, and only when IMDb is among the providers assigned to
      some SHOW detail. */
  predicate LoadsImdb(custom: CustomTvScraperConfig, episode: Episode): (b: bool)
    ensures b <==> episode.imdbId.Some? &&
                   exists k :: k in custom.scraperForShowDetails && custom.scraperForShowDetails[k] == ImdbTvId
  {
    episode.imdbId.Some? && ImdbTvId in custom.scraperForShowDetails.Values
  }

  /** The sub-job `loadWithScraper` starts, if any: none when no requested
      detail is assigned to the scraper, none when the scraper is unknown. */
  function SubJobFor(job: EpisodeConfig,
                     custom: CustomTvScraperConfig,
                     settings: map<ScraperId, ScraperSettings>,
                     scraperId: ScraperId,
                     id: EpisodeIdentifier): (r: Option<SubJob>)
    ensures r.Some? <==> ConfigFor(job, custom, settings, scraperId, id).details != {}
                         && scraperId in custom.scrapers
    ensures r.Some? ==> r.value.scraperId == scraperId
                        && r.value.config == ConfigFor(job, custom, settings, scraperId, id)
  {
    var c := ConfigFor(job, custom, settings, scraperId, id);
    if c.details == {} then None
    else if scraperId !in custom.scrapers then None
    else Some(SubJob(scraperId, c))
  }

  /** `copyDetailsToEpisode`: the values of the sub-job's details are taken
      from its result, every other value is kept. The `Invalid` sentinel
      carries no value. With an empty detail set nothing is copied, not even
      the ids; otherwise the IMDb id is taken from the result when the
      result has one. */
  function CopyDetails(target: Episode, source: Episode, details: set<EpisodeDetail>): (r: Episode)
    ensures forall d :: d in r.values <==>
              d in target.values || (d in details && d != Invalid && d in source.values)
    ensures forall d :: d in details && d != Invalid && d in source.values ==>
              r.values[d] == source.values[d]
    ensures forall d :: (d !in details || d == Invalid) && d in target.values ==>
              r.values[d] == target.values[d]
    ensures forall d :: d in details && d !in source.values && d in target.values ==>
              r.values[d] == target.values[d]
    ensures r.imdbId == (if details != {} && source.imdbId.Some? then source.imdbId else target.imdbId)
  {
    var taken := map d | d in details && d != Invalid && d in source.values :: source.values[d];
    Episode(if details != {} && source.imdbId.Some? then source.imdbId else target.imdbId,
            target.values + taken)
  }

  // ---------------------------------------------------------------------
  // Properties of the detail partition

  /** Two different providers are never asked for the same detail. */
  lemma {:induction false} DetailsForDisjoint(job: EpisodeConfig,
                           custom: CustomTvScraperConfig,
                           settings: map<ScraperId, ScraperSettings>,
                           s1: ScraperId, id1: EpisodeIdentifier,
                           s2: ScraperId, id2: EpisodeIdentifier)
    requires s1 != s2
    ensures ConfigFor(job, custom, settings, s1, id1).details
            !! ConfigFor(job, custom, settings, s2, id2).details
  {
  }

  /** Every requested detail that is assigned to a provider is asked of
      exactly that provider. */
  lemma {:induction false} DetailsForCover(job: EpisodeConfig,
                        custom: CustomTvScraperConfig,
                        settings: map<ScraperId, ScraperSettings>,
                        d: EpisodeDetail, s: ScraperId, id: EpisodeIdentifier)
    requires d in job.details && d in custom.scraperForEpisodeDetails
    ensures d in ConfigFor(job, custom, settings, s, id).details
            <==> s == custom.scraperForEpisodeDetails[d]
  {
  }

  /** The details asked of all assigned providers together are exactly the
      requested details that have an assignment. */
  lemma {:induction false} DetailsForUnion(job: EpisodeConfig,
                        custom: CustomTvScraperConfig,
                        settings: map<ScraperId, ScraperSettings>,
                        id: EpisodeIdentifier)
    ensures (set s, d | s in custom.scraperForEpisodeDetails.Values
                        && d in ConfigFor(job, custom, settings, s, id).details :: d)
            == job.details * custom.scraperForEpisodeDetails.Keys
  {
    var a := custom.scraperForEpisodeDetails;
    var u := set s, d | s in a.Values && d in ConfigFor(job, custom, settings, s, id).details :: d;
    forall d | d in job.details * a.Keys
      ensures d in u
    {
      var s := a[d];
      assert s in a.Values;
      assert d in ConfigFor(job, custom, settings, s, id).details;
    }
  }

  /** Results of sub-jobs with disjoint detail sets can be merged in either
      order: the episode's detail values do not depend on which sub-job
      finishes first. */
  lemma {:induction false} CopyDetailsCommute(e: Episode, a: Episode, da: set<EpisodeDetail>,
                           b: Episode, db: set<EpisodeDetail>)
    requires da !! db
    ensures CopyDetails(CopyDetails(e, a, da), b, db).values
            == CopyDetails(CopyDetails(e, b, db), a, da).values
  {
    var x := CopyDetails(CopyDetails(e, a, da), b, db).values;
    var y := CopyDetails(CopyDetails(e, b, db), a, da).values;
    assert x.Keys == y.Keys;
    forall d | d in x.Keys
      ensures x[d] == y[d]
    {
      if d in db && d != Invalid && d in b.values {
        assert x[d] == b.values[d] && y[d] == b.values[d];
      } else if d in da && d != Invalid && d in a.values {
        assert x[d] == a.values[d] && y[d] == a.values[d];
      } else {
        assert x[d] == e.values[d] && y[d] == e.values[d];
      }
    }
  }

  /** Merging an empty detail set changes nothing, not even the IMDb id. */
  lemma {:induction false} CopyNoDetails(e: Episode, source: Episode)
    ensures CopyDetails(e, source, {}) == e
  {
  }

  /** Why `start` inserts `Invalid`: a merge for `{Invalid}` copies no value
      but does take the result's IMDb id, which a merge for `{}` does not. */
  lemma {:induction false} InvalidSentinelCopiesIds(e: Episode, source: Episode)
    ensures CopyDetails(e, source, {Invalid}).values == e.values
    ensures CopyDetails(e, source, {Invalid}).imdbId ==
              (if source.imdbId.Some? then source.imdbId else e.imdbId)
    ensures CopyDetails(e, source, {}).imdbId == e.imdbId
  {
  }
}
