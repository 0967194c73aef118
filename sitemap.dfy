/** The sitemap configuration of `next-sitemap.config.cjs`: the site URL
    chosen from the environment, the per-path priority and change
    frequency, and the extra paths and sitemaps it lists. Priorities are
    kept in tenths (0.7 is 7). */
module Sitemap {
  import opened Wrappers

  /** The two environment variables the configuration reads; `None` is an
      unset variable. */
  datatype Env = Env(nodeEnv: Option<string>, productionUrl: Option<string>)

  /** The one field of next-sitemap's resolved configuration that
      `transform` looks at. */
  datatype Options = Options(autoLastmod: bool)

  datatype ChangeFreq = Daily | Weekly

  /** One sitemap entry; `hasLastmod` says whether a `lastmod` timestamp
      (the current time) is attached. */
  datatype SitemapField = SitemapField(loc: string, changefreq: ChangeFreq, priority: nat, hasLastmod: bool)

  const Localhost: string := "https://localhost:3000"

  /** JavaScript truthiness of an environment variable: set and not empty. */
  predicate IsSet(v: Option<string>) {
    v.Some? && v.value != ""
  }

  /** `siteUrl`: the local address in development or when no production
      URL is set, otherwise that URL behind `https://`. */
  function SiteUrl(env: Env): (url: string)
    ensures env.nodeEnv == Some("development") || !IsSet(env.productionUrl) ==> url == Localhost
    ensures env.nodeEnv != Some("development") && IsSet(env.productionUrl)
            ==> url == "https://" + env.productionUrl.value && |url| > |"https://"|
    ensures "https://" <= url
  {
    if env.nodeEnv == Some("development") || !IsSet(env.productionUrl) then Localhost
    else "https://" + env.productionUrl.value
  }

  /** `robotsTxtOptions.additionalSitemaps`: the sitemap and the RSS feed
      under the chosen site URL. */
  function AdditionalSitemaps(env: Env): (r: seq<string>)
    ensures |r| == 2
    ensures r[0] == SiteUrl(env) + "/sitemap.xml" && r[1] == SiteUrl(env) + "/rss.xml"
    ensures forall u :: u in r ==> SiteUrl(env) <= u
  {
    var base := SiteUrl(env);
    assert base <= base + "/sitemap.xml" && base <= base + "/rss.xml";
    [base + "/sitemap.xml", base + "/rss.xml"]
  }

  /** `transform(config, path)`: a first-match classification of the path
      into a priority and a change frequency; the entry's location is the
      path itself and it is timestamped exactly when `autoLastmod` is on. */
  method Transform(config: Options, path: string) returns (field: SitemapField)
    ensures field.loc == path
    ensures field.hasLastmod == config.autoLastmod
    ensures path == "/" ==> field.priority == 10 && field.changefreq == Daily
    ensures "/cheatsheets/" <= path ==> field.priority == 9 && field.changefreq == Weekly
    ensures path == "/cheatsheets" || path == "/tags" ==> field.priority == 8 && field.changefreq == Weekly
    ensures path != "/" && !("/cheatsheets/" <= path) && path != "/cheatsheets" && path != "/tags"
            ==> field.priority == 7 && field.changefreq == Weekly
    ensures field.changefreq == Daily <==> path == "/"
    ensures 7 <= field.priority <= 10
  {
    var priority := 7;
    var changefreq := Weekly;

    if path == "/" {
      priority := 10;
      changefreq := Daily;
    } else if "/cheatsheets/" <= path {
      priority := 9;
      changefreq := Weekly;
    } else if path == "/cheatsheets" || path == "/tags" {
      priority := 8;
      changefreq := Weekly;
    }

    field := SitemapField(path, changefreq, priority, config.autoLastmod);
  }

  /** `additionalPaths(config)`: the four fixed pages, each passed through
      `transform`, in this order. */
  method AdditionalPaths(config: Options) returns (fields: seq<SitemapField>)
    ensures |fields| == 4
    ensures fields[0] == SitemapField("/", Daily, 10, config.autoLastmod)
    ensures fields[1] == SitemapField("/cheatsheets", Weekly, 8, config.autoLastmod)
    ensures fields[2] == SitemapField("/tags", Weekly, 8, config.autoLastmod)
    ensures fields[3] == SitemapField("/about", Weekly, 7, config.autoLastmod)
  {
    var home := Transform(config, "/");
    var cheatsheets := Transform(config, "/cheatsheets");
    var tags := Transform(config, "/tags");
    var about := Transform(config, "/about");
    fields := [home, cheatsheets, tags, about];
  }

  /** Tag pages are not singled out: `/tags/git` falls through to the
      defaults, unlike `/tags` itself and unlike a cheatsheet page. */
  method TagPageKeepsDefaults(config: Options) returns (tagPage: SitemapField, cheatsheet: SitemapField)
    ensures tagPage == SitemapField("/tags/git", Weekly, 7, config.autoLastmod)
    ensures cheatsheet == SitemapField("/cheatsheets/git", Weekly, 9, config.autoLastmod)
  {
    tagPage := Transform(config, "/tags/git");
    cheatsheet := Transform(config, "/cheatsheets/git");
  }
}
