/** `createMetadata` of `src/lib/metadata.ts`: a shallow merge of a page's
    metadata override with the site defaults. JavaScript objects are maps
    from key to value; a key that is present with the value `undefined`
    stays distinct from an absent key, because an object spread copies it. */
module Metadata {

  /** The JavaScript values that occur in page metadata. */
  datatype Value =
    | Undefined
    | Null
    | Bool(b: bool)
    | Num(n: int)
    | Str(s: string)
    | Arr(elems: seq<Value>)
    | Obj(fields: map<string, Value>)
    | Url(href: string)   // the object `new URL(href)`

  type Record = map<string, Value>

  // The site constants of `src/lib/constants/index.ts` that the merge uses.
  const SiteUrl: string := "https://cheatsheets.deepakjangra.com"
  const SiteTitle: string := "Cheatsheets"
  const SiteDescription: string := "Comprehensive developer cheatsheets for Git, Docker, cURL, JavaScript, Python, and more. Quick reference guides, commands, and best practices for software engineers and developers."
  const AuthorName: string := "Deepak Jangra"
  const AuthorWebsite: string := "https://deepakjangra.com"
  const AuthorTwitter: string := "@heydeepakjangra"
  const DefaultImage: Value := Arr([Str("/images/og-default.png")])

  /** The falsy values of JavaScript (numbers here are integers, so NaN
      does not occur). */
  predicate Falsy(v: Value) {
    v == Undefined || v == Null || v == Bool(false) || v == Num(0) || v == Str("")
  }

  predicate Nullish(v: Value) {
    v == Undefined || v == Null
  }

  /** `a || b` */
  function Or(a: Value, b: Value): Value {
    if Falsy(a) then b else a
  }

  /** `a ?? b` */
  function Coalesce(a: Value, b: Value): Value {
    if Nullish(a) then b else a
  }

  /** `rec.key`: reading an absent key gives `undefined`. */
  function Get(rec: Record, key: string): Value {
    if key in rec then rec[key] else Undefined
  }

  /** `v?.key`: `undefined` unless `v` is an object holding `key`. */
  function Member(v: Value, key: string): Value {
    if v.Obj? then Get(v.fields, key) else Undefined
  }

  /** The object `v` has its own key `key` (possibly holding `undefined`). */
  predicate Supplies(v: Value, key: string) {
    v.Obj? && key in v.fields
  }

  /** The keys that `...v` copies into an object literal: all of an
      object's keys, none for `undefined` or `null`. */
  function Spread(v: Value): Record {
    if v.Obj? then v.fields else map[]
  }

  /** The keys the literal sets after `...override`, so that the override's
      own values for them never survive at the top level. */
  const Reserved: set<string> := {
    "metadataBase", "authors", "creator", "publisher", "formatDetection",
    "openGraph", "twitter", "robots", "alternates", "category"
  }

  /** The keys whose value does not depend on the override at all. */
  const Forced: set<string> := {
    "metadataBase", "authors", "creator", "publisher", "formatDetection",
    "robots", "category"
  }

  const Authors: Value := Arr([Obj(map["name" := Str(AuthorName), "url" := Str(AuthorWebsite)])])

  const FormatDetection: Value :=
    Obj(map["email" := Bool(false), "address" := Bool(false), "telephone" := Bool(false)])

  const Robots: Value :=
    Obj(map[
      "index" := Bool(true),
      "follow" := Bool(true),
      "googleBot" := Obj(map[
        "index" := Bool(true),
        "follow" := Bool(true),
        "max-video-preview" := Num(-1),
        "max-image-preview" := Str("large"),
        "max-snippet" := Num(-1)])])

  const RssTypes: Value :=
    Obj(map["application/rss+xml" := Arr([Obj(map["url" := Str("/rss.xml"), "title" := Str(SiteTitle + " RSS Feed")])])])

  /** The `openGraph` object: the defaults first, then every key of the
      override's own `openGraph` over them. */
  function OpenGraph(override: Record): (r: Record)
    ensures var og := Get(override, "openGraph");
            && r.Keys == {"type", "locale", "url", "title", "description", "siteName", "images"} + Spread(og).Keys
            && (forall k :: k in Spread(og) ==> r[k] == Spread(og)[k])
            && (!Supplies(og, "type") ==> r["type"] == Str("website"))
            && (!Supplies(og, "locale") ==> r["locale"] == Str("en_US"))
            && (!Supplies(og, "url") ==> r["url"] == Str(SiteUrl))
            && (!Supplies(og, "title") ==> r["title"] == Coalesce(Get(override, "title"), Str(SiteTitle)))
            && (!Supplies(og, "description") ==> r["description"] == Coalesce(Get(override, "description"), Str(SiteDescription)))
            && (!Supplies(og, "siteName") ==> r["siteName"] == Str(SiteTitle))
            && (!Supplies(og, "images") ==> r["images"] == DefaultImage)
  {
    var og := Get(override, "openGraph");
    map[
      "type" := Str("website"),
      "locale" := Str("en_US"),
      "url" := Or(Member(og, "url"), Str(SiteUrl)),
      "title" := Coalesce(Get(override, "title"), Str(SiteTitle)),
      "description" := Coalesce(Get(override, "description"), Str(SiteDescription)),
      "siteName" := Str(SiteTitle),
      "images" := Or(Member(og, "images"), DefaultImage)
    ] + Spread(og)
  }

  /** The `twitter` object, built the same way over the override's
      `twitter`. */
  function Twitter(override: Record): (r: Record)
    ensures var tw := Get(override, "twitter");
            && r.Keys == {"card", "site", "creator", "title", "description", "images"} + Spread(tw).Keys
            && (forall k :: k in Spread(tw) ==> r[k] == Spread(tw)[k])
            && (!Supplies(tw, "card") ==> r["card"] == Str("summary_large_image"))
            && (!Supplies(tw, "site") ==> r["site"] == Str(AuthorTwitter))
            && (!Supplies(tw, "creator") ==> r["creator"] == Str(AuthorTwitter))
            && (!Supplies(tw, "title") ==> r["title"] == Coalesce(Get(override, "title"), Str(SiteTitle)))
            && (!Supplies(tw, "description") ==> r["description"] == Coalesce(Get(override, "description"), Str(SiteDescription)))
            && (!Supplies(tw, "images") ==> r["images"] == DefaultImage)
  {
    var tw := Get(override, "twitter");
    map[
      "card" := Str("summary_large_image"),
      "site" := Str(AuthorTwitter),
      "creator" := Str(AuthorTwitter),
      "title" := Coalesce(Get(override, "title"), Str(SiteTitle)),
      "description" := Coalesce(Get(override, "description"), Str(SiteDescription)),
      "images" := Or(Member(tw, "images"), DefaultImage)
    ] + Spread(tw)
  }

  /** The `alternates` object, built the same way over the override's
      `alternates`; a supplied `types` replaces the RSS entry whole. */
  function Alternates(override: Record): (r: Record)
    ensures var alt := Get(override, "alternates");
            && r.Keys == {"canonical", "types"} + Spread(alt).Keys
            && (forall k :: k in Spread(alt) ==> r[k] == Spread(alt)[k])
            && (!Supplies(alt, "canonical") ==> r["canonical"] == Str("/"))
            && (!Supplies(alt, "types") ==> r["types"] == RssTypes)
  {
    var alt := Get(override, "alternates");
    map[
      "canonical" := Or(Member(alt, "canonical"), Str("/")),
      "types" := RssTypes
    ] + Spread(alt)
  }

  /** The keys the outer literal sets after `...override`. */
  function SiteFields(openGraph: Record, twitter: Record, alternates: Record): (r: Record)
    ensures r.Keys == Reserved
    ensures r["metadataBase"] == Url(SiteUrl)
    ensures r["authors"] == Authors
    ensures r["creator"] == Str(AuthorName) && r["publisher"] == Str(AuthorName)
    ensures r["formatDetection"] == FormatDetection
    ensures r["robots"] == Robots
    ensures r["category"] == Str("technology")
    ensures r["openGraph"] == Obj(openGraph) && r["twitter"] == Obj(twitter) && r["alternates"] == Obj(alternates)
  {
    map[
      "metadataBase" := Url(SiteUrl),
      "authors" := Authors,
      "creator" := Str(AuthorName),
      "publisher" := Str(AuthorName),
      "formatDetection" := FormatDetection,
      "openGraph" := Obj(openGraph),
      "twitter" := Obj(twitter),
      "robots" := Robots,
      "alternates" := Obj(alternates),
      "category" := Str("technology")
    ]
  }

  /** `createMetadata(override)`. Every key of the override outside
      `Reserved` is carried over unchanged (an explicit `undefined`
      included); the `Forced` keys get the site's values whatever the
      override holds; `openGraph`, `twitter` and `alternates` are always
      objects. */
  function CreateMetadata(override: Record): (r: Record)
    ensures r.Keys == override.Keys + Reserved
    ensures forall k :: k in override && k !in Reserved ==> r[k] == override[k]
    ensures r["metadataBase"] == Url(SiteUrl)
    ensures r["authors"] == Authors
    ensures r["creator"] == Str(AuthorName) && r["publisher"] == Str(AuthorName)
    ensures r["formatDetection"] == FormatDetection
    ensures r["robots"] == Robots
    ensures r["category"] == Str("technology")
    ensures r["openGraph"] == Obj(OpenGraph(override))
    ensures r["twitter"] == Obj(Twitter(override))
    ensures r["alternates"] == Obj(Alternates(override))
  {
    override + SiteFields(OpenGraph(override), Twitter(override), Alternates(override))
  }

  /** The forced keys are the same for every override. */
  lemma ForcedKeysIgnoreOverride(o1: Record, o2: Record)
    ensures forall k :: k in Forced ==> CreateMetadata(o1)[k] == CreateMetadata(o2)[k]
  {
    forall k | k in Forced ensures CreateMetadata(o1)[k] == CreateMetadata(o2)[k] {
      assert k in {"metadataBase", "authors", "creator", "publisher", "formatDetection", "robots", "category"};
    }
  }

  /** The `metadataBase` a page passes in (the root layout passes its own
      base URL) is replaced by the site URL. */
  lemma MetadataBaseIsDiscarded(base: Value)
    ensures CreateMetadata(map["metadataBase" := base])["metadataBase"] == Url(SiteUrl)
  {
  }

  /** `openGraph.title` (and likewise `description`): the override's own
      `openGraph.title` key if it has one, else `title` unless that is
      `null` or `undefined` (an empty string is kept), else the site
      title. */
  lemma OpenGraphTitleRule(override: Record)
    ensures var og := Get(override, "openGraph");
            var got := Member(CreateMetadata(override)["openGraph"], "title");
            && (Supplies(og, "title") ==> got == Member(og, "title"))
            && (!Supplies(og, "title") && !Nullish(Get(override, "title")) ==> got == override["title"])
            && (!Supplies(og, "title") && Nullish(Get(override, "title")) ==> got == Str(SiteTitle))
    ensures var og := Get(override, "openGraph");
            var got := Member(CreateMetadata(override)["openGraph"], "description");
            && (Supplies(og, "description") ==> got == Member(og, "description"))
            && (!Supplies(og, "description") && !Nullish(Get(override, "description")) ==> got == override["description"])
            && (!Supplies(og, "description") && Nullish(Get(override, "description")) ==> got == Str(SiteDescription))
  {
  }

  /** `openGraph.url` and `openGraph.images`: whatever the override's
      `openGraph` holds under that key, falsy or not, since its spread comes
      after the `||` fallback; the site URL or the default image only when
      the key is absent. */
  lemma OpenGraphUrlAndImagesRule(override: Record)
    ensures var og := Get(override, "openGraph");
            var got := CreateMetadata(override)["openGraph"];
            && Member(got, "url") == (if Supplies(og, "url") then Member(og, "url") else Str(SiteUrl))
            && Member(got, "images") == (if Supplies(og, "images") then Member(og, "images") else DefaultImage)
  {
  }

  /** `type`, `locale` and `siteName` take the site's values unless the
      override's `openGraph` supplies them. */
  lemma OpenGraphFixedDefaults(override: Record)
    ensures var og := Get(override, "openGraph");
            var got := CreateMetadata(override)["openGraph"];
            && Member(got, "type") == (if Supplies(og, "type") then Member(og, "type") else Str("website"))
            && Member(got, "locale") == (if Supplies(og, "locale") then Member(og, "locale") else Str("en_US"))
            && Member(got, "siteName") == (if Supplies(og, "siteName") then Member(og, "siteName") else Str(SiteTitle))
  {
  }

  /** An empty `url` and an empty `images` list in the override's
      `openGraph` both survive: the `||` fallback is overwritten by the
      spread that follows it. */
  lemma EmptyOpenGraphValuesAreKept()
    ensures var got := CreateMetadata(map["openGraph" := Obj(map["url" := Str(""), "images" := Arr([])])])["openGraph"];
            Member(got, "url") == Str("") && Member(got, "images") == Arr([])
  {
  }

  /** `??` keeps an empty title: it falls back only on `null` and
      `undefined`. */
  lemma EmptyTitleIsKept()
    ensures var r := CreateMetadata(map["title" := Str("")]);
            && Member(r["openGraph"], "title") == Str("")
            && Member(r["twitter"], "title") == Str("")
            && r["title"] == Str("")
  {
    var o := map["title" := Str("")];
    assert "title" !in Reserved;
    assert Get(o, "openGraph") == Undefined && Get(o, "twitter") == Undefined;
    assert Get(o, "title") == Str("");
    assert OpenGraph(o)["title"] == Str("");
    assert Twitter(o)["title"] == Str("");
  }

  /** The `twitter` object: card, handle and image defaults, the same
      title and description fallback, and the override's `twitter` keys
      winning over all of them. */
  lemma TwitterRule(override: Record)
    ensures var tw := Get(override, "twitter");
            var got := CreateMetadata(override)["twitter"];
            && Member(got, "card") == (if Supplies(tw, "card") then Member(tw, "card") else Str("summary_large_image"))
            && Member(got, "site") == (if Supplies(tw, "site") then Member(tw, "site") else Str(AuthorTwitter))
            && Member(got, "creator") == (if Supplies(tw, "creator") then Member(tw, "creator") else Str(AuthorTwitter))
            && Member(got, "images") == (if Supplies(tw, "images") then Member(tw, "images") else DefaultImage)
            && (Supplies(tw, "title") ==> Member(got, "title") == Member(tw, "title"))
            && (!Supplies(tw, "title") ==> Member(got, "title") == Coalesce(Get(override, "title"), Str(SiteTitle)))
            && (Supplies(tw, "description") ==> Member(got, "description") == Member(tw, "description"))
            && (!Supplies(tw, "description") ==> Member(got, "description") == Coalesce(Get(override, "description"), Str(SiteDescription)))
  {
  }

  /** `alternates`: `canonical` is `/` unless the override's `alternates`
      has that key; `types` is the single RSS entry unless the override's
      `alternates` has `types`, which then replaces it whole. */
  lemma AlternatesRule(override: Record)
    ensures var alt := Get(override, "alternates");
            var got := CreateMetadata(override)["alternates"];
            && Member(got, "canonical") == (if Supplies(alt, "canonical") then Member(alt, "canonical") else Str("/"))
            && Member(got, "types") == (if Supplies(alt, "types") then Member(alt, "types") else RssTypes)
  {
  }

}
