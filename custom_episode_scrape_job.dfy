/** `CustomEpisodeScrapeJob`: loads one episode from TMDb first, then from
    IMDb when needed, merging each provider's details into the job's
    episode, and announces completion through a load counter.

    The asynchronous completions of the sub-jobs are modelled as method
    calls that the caller may make in any order: `OnTmdbLoaded` for the
    TMDb job and `SubJobFinished(i, ...)` for the `i`-th running sub-job.
    `finishedSignals` counts the emissions of `sigFinished`.

    The reachable states are those reached from the constructor through
    `Start`, `OnTmdbLoaded` and `SubJobFinished`, each of which keeps
    `Valid()`. `LoadWithScraper` and `DecreaseCounterAndCheckIfFinished` are
    the steps those make inside; called on their own they need not keep
    `Valid()`. */
module CustomEpisodeScrapeJob {
  import opened Optional
  import opened CustomEpisodeConfig

  class CustomEpisodeScrapeJob {
    const config: EpisodeConfig
    const custom: CustomTvScraperConfig
    const settings: map<ScraperId, ScraperSettings>

    var episode: Episode
    var loadCounter: int
    var started: bool
    /** The running TMDb job's config, until `OnTmdbLoaded`. */
    var tmdbJob: Option<EpisodeConfig>
    /** Sub-jobs started by `LoadWithScraper` that have not finished yet. */
    var running: seq<SubJob>
    var finishedSignals: nat

    /** The job's invariant in each of its three stages: not started,
        waiting for TMDb, loading from the other scrapers. Once TMDb has
        loaded, the counter is the number of running sub-jobs and
        `sigFinished` has been emitted once exactly when none is left. */
    ghost predicate Valid()
      reads this
    {
      && (!started ==> tmdbJob.None? && running == [] && finishedSignals == 0)
      && (started && tmdbJob.Some? ==>
            running == [] && finishedSignals == 0 && tmdbJob.value.details != {})
      && (started && tmdbJob.None? ==>
            loadCounter == |running| && finishedSignals == (if running == [] then 1 else 0))
      && (forall j :: j in running ==> j.config.details != {} && j.scraperId in custom.scrapers)
    }

    /** The number of steps still to come before the job is done: starting
        it, the TMDb completion, and one completion per running sub-job.
        Every method below takes exactly one step. */
    ghost function Outstanding(): nat
      reads this
    {
      if !started then |running| + 2
      else if tmdbJob.Some? then |running| + 1
      else |running|
    }

    /** `sigFinished` is emitted at most once, and it has been emitted
        exactly when TMDb has loaded and every started sub-job finished. */
    lemma {:induction false} FinishedExactlyOnce()
      requires Valid()
      ensures finishedSignals <= 1
      ensures finishedSignals == 1 <==> started && Outstanding() == 0
    {
    }

    constructor (config: EpisodeConfig, custom: CustomTvScraperConfig,
                 settings: map<ScraperId, ScraperSettings>, episode: Episode)
      ensures Valid()
      ensures this.config == config && this.custom == custom && this.settings == settings
      ensures this.episode == episode
      ensures !started && tmdbJob.None? && running == [] && finishedSignals == 0
    {
      this.config := config;
      this.custom := custom;
      this.settings := settings;
      this.episode := episode;
      loadCounter := 0;
      started := false;
      tmdbJob := None;
      running := [];
      finishedSignals := 0;
    }

    /** `start`: always starts the TMDb job, with a non-empty detail set. */
    method Start()
      requires Valid() && !started
      modifies this
      ensures Valid()
      ensures started && tmdbJob == Some(TmdbStartConfig(config, custom, settings))
      ensures tmdbJob.value.details != {}
      ensures episode == old(episode) && running == [] && finishedSignals == 0
      ensures loadCounter == old(loadCounter)
      ensures Outstanding() == old(Outstanding()) - 1
    {
      var tmdbConfig := ConfigFor(config, custom, settings, TmdbTvId, config.identifier);
      if tmdbConfig.details == {} {
        tmdbConfig := tmdbConfig.(details := tmdbConfig.details + {Invalid});
        assert tmdbConfig.details == {Invalid};
      }
      tmdbJob := Some(tmdbConfig);
      started := true;
    }

    /** `onTmdbLoaded`: merges the TMDb result, then starts IMDb when the
        merged episode has an IMDb id and IMDb is assigned to a show detail. */
    method OnTmdbLoaded(result: Episode)
      requires Valid() && started && tmdbJob.Some?
      modifies this
      ensures Valid()
      ensures episode == CopyDetails(old(episode), result, old(tmdbJob).value.details)
      ensures tmdbJob.None?
      ensures running == (if LoadsImdb(custom, episode)
                          then ImdbSubJobs(episode.imdbId.value) else [])
      ensures loadCounter == |running|
      ensures finishedSignals == (if running == [] then 1 else 0)
      ensures Outstanding() == |running|
    {
      episode := CopyDetails(episode, result, tmdbJob.value.details);
      tmdbJob := None;

      var loadImdb := LoadsImdb(custom, episode);
      loadCounter := 1;
      if loadImdb {
        loadCounter := loadCounter + 1;
      }
      if loadImdb {
        LoadWithScraper(ImdbTvId, EpisodeIdentifier(episode.imdbId.value));
      }
      DecreaseCounterAndCheckIfFinished();
    }

    /** The sub-jobs `onTmdbLoaded` starts for IMDb id `imdbId`. */
    function ImdbSubJobs(imdbId: string): (r: seq<SubJob>)
      reads this
      ensures |r| <= 1
      ensures forall j :: j in r ==> j.scraperId == ImdbTvId && j.config.details != {}
    {
      match SubJobFor(config, custom, settings, ImdbTvId, EpisodeIdentifier(imdbId))
      case Some(j) => [j]
      case None => []
    }

    /** `loadWithScraper`: gives up one unit of the counter on every path.
        With no requested detail for the scraper, or an unknown scraper, no
        job is started and the counter is decreased at once; otherwise a
        sub-job is started, and it is decreased when that sub-job finishes. */
    method LoadWithScraper(scraperId: ScraperId, identifier: EpisodeIdentifier)
      requires forall j :: j in running ==> j.config.details != {} && j.scraperId in custom.scrapers
      modifies this`loadCounter, this`finishedSignals, this`running
      ensures forall j :: j in running ==> j.config.details != {} && j.scraperId in custom.scrapers
      ensures match SubJobFor(config, custom, settings, scraperId, identifier)
              case Some(j) =>
                && running == old(running) + [j]
                && loadCounter == old(loadCounter)
                && finishedSignals == old(finishedSignals)
              case None =>
                && running == old(running)
                && loadCounter == old(loadCounter) - 1
                && finishedSignals == old(finishedSignals) + (if loadCounter <= 0 then 1 else 0)
      ensures loadCounter - |running| == old(loadCounter - |running|) - 1
    {
      var scraperConfig := ConfigFor(config, custom, settings, scraperId, identifier);
      if scraperConfig.details == {} {
        DecreaseCounterAndCheckIfFinished();
        return;
      }
      if scraperId !in custom.scrapers {
        DecreaseCounterAndCheckIfFinished();
        return;
      }
      running := running + [SubJob(scraperId, scraperConfig)];
    }

    /** The completion of the `i`-th running sub-job: its details are merged
        into the episode, it is removed, and the counter is decreased. */
    method SubJobFinished(i: nat, result: Episode)
      requires Valid() && started && tmdbJob.None? && i < |running|
      modifies this
      ensures Valid()
      ensures episode == CopyDetails(old(episode), result, old(running)[i].config.details)
      ensures running == old(running)[..i] + old(running)[i + 1..]
      ensures loadCounter == old(loadCounter) - 1
      ensures finishedSignals == (if running == [] then 1 else 0)
      ensures started && tmdbJob.None?
      ensures Outstanding() == old(Outstanding()) - 1
    {
      episode := CopyDetails(episode, result, running[i].config.details);
      assert forall j :: j in running[..i] + running[i + 1..] ==> j in running;
      running := running[..i] + running[i + 1..];
      DecreaseCounterAndCheckIfFinished();
    }

    /** `decreaseCounterAndCheckIfFinished`. */
    method DecreaseCounterAndCheckIfFinished()
      modifies this`loadCounter, this`finishedSignals
      ensures loadCounter == old(loadCounter) - 1
      ensures finishedSignals == old(finishedSignals) + (if loadCounter <= 0 then 1 else 0)
    {
      loadCounter := loadCounter - 1;
      if loadCounter <= 0 {
        finishedSignals := finishedSignals + 1;
      }
    }
  }
}
