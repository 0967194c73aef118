# Cheatsheets site core, modelled in Dafny

This is a model of the three parts of the cheatsheets website that hold real logic. It includes proofs about each.

- **Content index** (`src/lib/source.ts`). The content loader reads the cheatsheet pages once, into a module-level snapshot. Three queries read that snapshot:
  - `getSortedByDateCheatsheets`: a non-destructive stable sort, newest first.
  - `getTags`: the distinct tags of all pages, in ascending order.
  - `getCheatsheetsByTag`: the pages carrying one tag, sorted the same way.

  The model takes the snapshot as an input sequence of `Item(date, tags)`. The date is in milliseconds; `tags` is optional. Each query is a function of the snapshot, so a query cannot change the snapshot, and calling it twice gives the same result. `getTags` keeps the source's imperative shape: a method whose nested loops fill the tag `Set`. The Set is modelled as its iteration order, a duplicate-free sequence. The method's result is tied to the specification function `Tags`.
- **Sitemap classification** (`next-sitemap.config.cjs`). This covers:
  - the site URL, chosen from `NODE_ENV` and `VERCEL_PROJECT_PRODUCTION_URL`, which the model takes as parameters;
  - the first-match `transform` chain, which gives each path a priority (in tenths: 10, 9, 8, 7) and a change frequency;
  - the four `additionalPaths` and the two `additionalSitemaps`.
- **Metadata defaults** (`src/lib/metadata.ts`). `createMetadata` is a shallow merge of an override object with the site defaults. JavaScript objects are maps from key to `Value`. A key holding `undefined` is different from a missing key, because a spread copies the key. `??` and `||` are modelled as they are written: `??` falls back only on `null` or `undefined`, `||` falls back on any falsy value.

Two results are worth noting:

- **The sort result is unique.** `SortByDateIsTheStableOrder` shows that ECMAScript's stable descending sort has only one possible result. Any order that lists pages newest first, and keeps pages with equal dates in snapshot order, equals the model's sort.
- **An explicit `openGraph.url` always wins.** The `||` fallbacks on `openGraph.url`, `openGraph.images`, `twitter.images` and `alternates.canonical` are followed by a spread of the override's nested object. That spread writes the override's value back, so it wins even when it is falsy. An override `openGraph: { url: '' }` therefore produces `url: ''`, not the site URL. The fallback applies only when the key is absent. The model follows the code here; `EmptyOpenGraphValuesAreKept` shows the case.

## Model

| member | source | states |
|---|---|---|
| ContentIndex.SortByDate | src/lib/source.ts:20-21 | The sorted view has the snapshot's length and the same multiset of pages, and each page is at least as new as every later one |
| ContentIndex.SortByDateIsStable | src/lib/source.ts:21 | Pages with equal dates stay in snapshot order: for every date, the pages with that date appear in the same order as in the snapshot |
| ContentIndex.StableNewestFirstIsUnique | src/lib/source.ts:21 | Two newest-first sequences with the same equal-date groups are equal |
| ContentIndex.SortByDateIsTheStableOrder | src/lib/source.ts:20-21 | Any newest-first order that keeps equal dates in snapshot order is exactly the sort's result |
| ContentIndex.SortedByDateCheatsheets | src/lib/source.ts:18-21 | `getSortedByDateCheatsheets()` is a permutation of the snapshot, newest first and stable |
| ContentIndex.AddTagsMembers | src/lib/source.ts:28-30 | After adding a page's tags, the Set holds exactly the old tags plus the page's tags, still without duplicates |
| ContentIndex.CollectTagsMembers | src/lib/source.ts:24-32 | After the loops, the Set holds a tag exactly when some page with defined `tags` carries it, with no duplicates; pages without `tags` add nothing |
| ContentIndex.TagsSpec | src/lib/source.ts:23-35 | The tag list is strictly ascending, hence duplicate-free, and lists a tag exactly when some page carries it |
| ContentIndex.GetTags | src/lib/source.ts:23-35 | The nested loops followed by the sort return the specified tag list: strictly ascending, with a tag present exactly when some page carries it |
| ContentIndex.TaggedCounts | src/lib/source.ts:38-39 | The filter keeps every page carrying the tag as often as the snapshot has it, and drops every page without the tag, including pages whose `tags` is undefined |
| ContentIndex.TaggedAppend | src/lib/source.ts:38-39 | The filter keeps the kept pages in snapshot order: filtering a concatenation is the concatenation of the filtered parts |
| ContentIndex.SameDateOfTagged | src/lib/source.ts:38-40 | Among the tagged pages, those of one date are the tagged pages of that date, in snapshot order |
| ContentIndex.CheatsheetsByTag | src/lib/source.ts:37-41 | `getCheatsheetsByTag(t)` holds exactly the pages carrying `t` (exact match), newest first. For every date, its tagged pages appear in snapshot order. The result is empty exactly when no page carries `t` |
| ContentIndex.EveryListedTagHasCheatsheets | src/lib/source.ts:23-41 | Every tag in `getTags()` has at least one page, so a tag card's count is at least 1 |
| ContentIndex.ScenarioSortedByDate | src/lib/source.ts:20-21 | Pages dated Jan, Mar, Feb 2024 sort as Mar, Feb, Jan |
| ContentIndex.ScenarioTags | src/lib/source.ts:23-35 | Tags `git`; `git, docker`; `docker` give the list `docker`, `git` |
| ContentIndex.ScenarioByTag | src/lib/source.ts:37-41 | In that snapshot, `docker` selects the Mar page, then the Feb page |
| ContentIndex.ScenarioUnknownTag | src/lib/source.ts:37-41 | A tag no page carries selects nothing |
| LexOrder.LessIsIrreflexive | src/lib/source.ts:34 | No string sorts before itself in the default string order |
| LexOrder.LessIsTransitive | src/lib/source.ts:34 | The default string order is transitive |
| LexOrder.LessIsTotal | src/lib/source.ts:34 | Of two different strings, one sorts before the other |
| LexOrder.StrictlyAscendingHasNoDuplicates | src/lib/source.ts:34 | A strictly ascending list has no repeated string |
| LexOrder.Sort | src/lib/source.ts:34 | `toSorted()` on strings keeps the multiset of strings |
| LexOrder.SortIsStrictlyAscending | src/lib/source.ts:34 | Sorting a duplicate-free list, such as the contents of a Set, gives a strictly ascending list |
| Sitemap.SiteUrl | next-sitemap.config.cjs:1-5 | `https://localhost:3000` in development or when the production URL is unset or empty; otherwise `https://` followed by that URL; always starts with `https://` |
| Sitemap.AdditionalSitemaps | next-sitemap.config.cjs:34 | Exactly two entries, the sitemap and then the RSS feed, both under the chosen site URL |
| Sitemap.Transform | next-sitemap.config.cjs:39-60 | `loc` is the path. `/` gives 10, daily. Paths under `/cheatsheets/` give 9, weekly. `/cheatsheets` and `/tags` give 8, weekly. Every other path gives 7, weekly. `lastmod` is present exactly when `autoLastmod` is on, and the frequency is daily only for `/` |
| Sitemap.AdditionalPaths | next-sitemap.config.cjs:20-25 | Four entries in order: `/` (10, daily), `/cheatsheets` (8), `/tags` (8), `/about` (7) |
| Sitemap.TagPageKeepsDefaults | next-sitemap.config.cjs:46-51 | `/tags/git` falls through to priority 7, while `/cheatsheets/git` gets 9 |
| Metadata.OpenGraph | src/lib/metadata.ts:16-25 | The `openGraph` defaults are type, locale, url, title, description, siteName and images. Every key of the override's `openGraph` replaces its default. Each default applies when the key is absent |
| Metadata.Twitter | src/lib/metadata.ts:26-34 | The `twitter` defaults are card, site and creator handles, title and description, and images. Every key of the override's `twitter` replaces its default |
| Metadata.Alternates | src/lib/metadata.ts:46-54 | `canonical` defaults to `/` and `types` to the single RSS entry. The override's `alternates` keys replace them, whole |
| Metadata.CreateMetadata | src/lib/metadata.ts:4-57 | The result's keys are the override's keys plus the reserved ones. Every other override key is copied unchanged, even one holding `undefined`. `metadataBase`, `authors`, `creator`, `publisher`, `formatDetection`, `robots` and `category` always take the site's values |
| Metadata.ForcedKeysIgnoreOverride | src/lib/metadata.ts:6-55 | Two overrides give the same values for every forced key |
| Metadata.MetadataBaseIsDiscarded | src/lib/metadata.ts:7 | A `metadataBase` passed in, such as the root layout's, is replaced by the site URL |
| Metadata.OpenGraphTitleRule | src/lib/metadata.ts:20-24 | `openGraph.title` is the override's `openGraph.title` if that key is present. Otherwise it is `title`, unless that is `null` or `undefined`; otherwise the site title. `description` works the same way |
| Metadata.OpenGraphUrlAndImagesRule | src/lib/metadata.ts:19-24 | `openGraph.url` and `images` are the override's values whenever present, falsy or not; they are the site URL and the default image only when absent |
| Metadata.OpenGraphFixedDefaults | src/lib/metadata.ts:17-24 | `type`, `locale` and `siteName` are `website`, `en_US` and the site title unless the override's `openGraph` has the key |
| Metadata.EmptyOpenGraphValuesAreKept | src/lib/metadata.ts:19-24 | An override `openGraph` of `{url: '', images: []}` keeps both values |
| Metadata.EmptyTitleIsKept | src/lib/metadata.ts:20-30 | An empty `title` is kept by `??` in `openGraph`, in `twitter` and at the top level |
| Metadata.TwitterRule | src/lib/metadata.ts:26-34 | Each `twitter` key is the override's value when present. Otherwise it is the card, the author handle, the `??` fallback for title and description, or the default image |
| Metadata.AlternatesRule | src/lib/metadata.ts:46-54 | `canonical` is the override's value when present, else `/`. `types` is replaced whole when supplied, else it is the RSS entry |

## Left out

- Content loading through fumadocs' `loader` and `createMDXSource` (src/lib/source.ts:1-16). This is a foreign library doing file I/O. The snapshot is an input, and every date is assumed to be a valid timestamp (no NaN from `getTime`).
- `getCheatsheet` (page lookup by slug). It is the loader's own `getPage` and is not part of this model.
- Pagination. The page templates `src/app/(home)/cheatsheets/page.tsx:13-14,55-62` and `src/app/(home)/tags/[...slug]/page.tsx:23-34` compute `pageCount = Math.ceil(n / 5)`, answer "not found" for a page index out of range, and `slice` one page of the sorted result. This is page-template logic on top of the index, so it is left out.
- The UI components: the footer's `slice(0, 4)` of the sorted view, the tag card's count and the layouts. The tag-card count is covered by `EveryListedTagHasCheatsheets`.
- `src/components/json-ld.tsx`, `src/app/rss.xml/route.ts` and `src/app/api/search/route.ts`. They shape output through foreign libraries, URL resolution and clock reads.
- The sitemap's `exclude` patterns, `robotsTxtOptions.policies`, `generateRobotsTxt`, `generateIndexSitemap` and `sitemapSize`. next-sitemap interprets these, and it is not part of this model. The config-level `changefreq: 'weekly'` and `priority: 0.8` are also left out: the custom `transform` never reads them.
- The `async`/`await` of `transform` and `additionalPaths`. It is promise plumbing only; both are plain methods here.
- Sitemap.Transform: states only whether `lastmod` is present, not its value, because the value is the current time.
- Sitemap priorities are integer tenths rather than floating-point numbers.
- LexOrder.Less: compares Unicode code points. ECMAScript compares UTF-16 code units. The two orders differ only between characters above U+FFFF and characters from U+E000 to U+FFFF.
- ContentIndex.SortByDate: compares the dates themselves rather than the floating-point difference `b - a`. For integral millisecond counts the difference always has the sign of the exact difference, so the order is the same.
- Metadata: property order in JavaScript objects is not modelled, because a map has no order. Spreading a non-object (a string or an array) in a nested position is modelled as adding no keys. The Next.js `Metadata` type allows only objects, `null` or `undefined` there.
- Metadata: `new URL(SITE.url)` is kept as a URL value holding the string it was built from; URL normalisation (the trailing slash) is not modelled. Numbers are integers, so NaN and `-0` do not occur.
