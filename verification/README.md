# Bot directory listing — a Dafny model

The bot.ngsim.net home page lists the site's bots. At build time it reads the
`rewrites` and `redirects` rules of the routing configuration, each a
`{source, destination}` pair, and turns them into a list of entries
(`Bot`: `path`, `url`, `name`). It visits the rewrites first and then the
redirects. It skips the root rule `/` and any rule whose source contains the
placeholder `:match`. It keeps the first entry per path in a JavaScript `Map`,
and it sorts the map's values by name. This project models that transform and
proves what the listing looks like for every configuration.

Modules:

- `Text` (text.dfy): the JavaScript string operations used. These are
  `includes`, the end-anchored `replace` of `/\/:match\*$/`, `substring`,
  `charAt` and an ASCII `toUpperCase`.
- `Collation` (collation.dfy): the order used for names. This is lexicographic
  order on character codes, proved to be a total order.
- `Routes` (routes.dfy): the `Route` and `Bot` records, the listing filter, and
  the per-rule `url`/`name` derivation.
- `OrderedMap` (ordered_map.dfy): a JavaScript `Map` with string keys. It keeps
  the insertion order of its keys, and `values()` follows that order.
- `Sorting` (sorting.dfy): sorting entries by name, as a sorted permutation.
- `Listing` (listing.dfy): the whole transform, `Bots(rewrites, redirects)`.
- `ListingExamples` (examples_listing.dfy): concrete configurations and the
  listings they produce.

`Listing.Bots` fully describes the result, except for the order of entries
whose names are equal:

- no entry has the root path or a path containing `:match`;
- paths are pairwise distinct;
- the entries are sorted by name;
- every entry is the entry of the first listed rule for its path, with rewrites
  before redirects;
- every such first listed rule does contribute its entry;
- the length equals the number of distinct listed sources.

A link target can still end with `/:match*`. The code removes only one
trailing `/:match*`, so a destination ending in `/:match*/:match*` keeps one
copy (`Routes.UrlStripsOnce`).

## Model

| member | source | states |
|---|---|---|
| `Text.Includes` | pages/index.tsx:30 | `includes` is true exactly when the placeholder occurs at some position of the source |
| `Text.StripSuffix` | pages/index.tsx:32 | when the string ends with the suffix, the result followed by the suffix gives back the string; otherwise the string is unchanged |
| `Text.Substring` | pages/index.tsx:34 | `substring(start)` is the rest of the string after the first `start` characters, or empty when `start` is past the end |
| `Text.CharAt` | pages/index.tsx:34 | `charAt(i)` has one character, the one at `i`, exactly when `i` is in range; otherwise it is empty |
| `Text.UpperChar` | pages/index.tsx:34 | a lower-case ASCII letter becomes the matching upper-case letter; every other character is unchanged |
| `Text.UpperCase` | pages/index.tsx:34 | upper-casing keeps the length and upper-cases each character in place |
| `Collation.LexLe` | pages/index.tsx:45 | a name sorts no later than any name it is a prefix of, and strictly after each of its own proper prefixes |
| `Collation.LexLeIffPrefixOrSmaller` | pages/index.tsx:45 | `a` sorts no later than `b` exactly when `a` is a prefix of `b` or, at the first differing position, `a` has the smaller character |
| `Collation.LexLeReflexive` | pages/index.tsx:45 | every name compares no later than itself |
| `Collation.LexLeTotal` | pages/index.tsx:45 | any two names are comparable |
| `Collation.LexLeAntisymmetric` | pages/index.tsx:45 | two names that each sort no later than the other are equal |
| `Collation.LexLeTransitive` | pages/index.tsx:45 | the name order is transitive |
| `Routes.Listed` | pages/index.tsx:30 | a rule is listed exactly when its source is not `/` and `:match` occurs at no position of it |
| `Routes.Url` | pages/index.tsx:32 | a destination ending in `/:match*` loses exactly that suffix; any other destination is the link target unchanged |
| `Routes.ToBot` | pages/index.tsx:31-34 | an entry's path is its rule's source; its url is the destination less one trailing `/:match*`; its name is the upper-cased second character of the path followed by the path from its third character, or empty for paths shorter than two characters |
| `Routes.Name` | pages/index.tsx:33-34 | the literal `substring(1).charAt(0).toUpperCase() + substring(2)` composition equals the upper-cased second character of the path followed by the path from its third character; it is empty for paths shorter than two characters |
| `Routes.UrlStripsOnce` | pages/index.tsx:32 | a destination ending in two `/:match*` suffixes keeps one, so the link target still ends with `/:match*` |
| `OrderedMap.Empty` | pages/index.tsx:27 | a new map has no keys and a consistent key order |
| `OrderedMap.Has` | pages/index.tsx:36 | in a consistent map, `has` is true exactly when the key is in the insertion order |
| `OrderedMap.Set` | pages/index.tsx:37 | `set` maps the key to the value and leaves other keys alone; a new key is appended to the order and an existing key keeps its place |
| `OrderedMap.Values` | pages/index.tsx:44 | `values()` has one value per key, in key insertion order |
| `OrderedMap.ValuesAfterSet` | pages/index.tsx:36-38 | setting a new key appends its value to `values()`; setting an existing key replaces its value in place |
| `OrderedMap.DistinctCardinality` | pages/index.tsx:36-38 | a key order without repeats has as many keys as the map |
| `OrderedMap.SizeMatchesOrder` | pages/index.tsx:44 | `values()` is exactly as long as the map has keys |
| `Sorting.InsertByName` | pages/index.tsx:44-46 | insertion adds exactly the one entry: the multiset of entries grows by it |
| `Sorting.InsertKeepsSorted` | pages/index.tsx:44-46 | inserting into a name-sorted sequence keeps it sorted |
| `Sorting.InsertKeepsPathsDistinct` | pages/index.tsx:44-46 | inserting an entry with a new path keeps paths pairwise distinct |
| `Sorting.SortByName` | pages/index.tsx:44-46 | the result is a permutation of the input, sorted by name, and keeps paths distinct when they were |
| `Listing.AllRoutes` | pages/index.tsx:16-25 | the visiting order is all rewrites in order, then all redirects in order |
| `Listing.Visit` | pages/index.tsx:29-39 | one callback adds the source of a listed rule when it is new, appending it to the key order with the rule's entry; existing entries never change; an unlisted rule or a known source leaves the map as it was |
| `Listing.Collect` | pages/index.tsx:27-40 | after the loop the map's keys are exactly the listed sources, and each key holds the entry of the first listed rule with that source |
| `Listing.VisitStep` | pages/index.tsx:29-40 | one loop step adds the rule's source when it is listed and new, and keeps the first rule's entry for every key |
| `Listing.ListedSourcesAppend` | pages/index.tsx:29-30 | appending a rule adds its source to the listed sources exactly when the rule is listed |
| `Listing.NewSourceIsFirst` | pages/index.tsx:36-38 | a listed rule whose source no earlier rule lists is the first listed rule for that source |
| `Listing.FirstListedUnique` | pages/index.tsx:36-38 | for each source there is at most one first listed rule |
| `Listing.Bots` | pages/index.tsx:15-49 | no root or placeholder paths; distinct paths; sorted by name; each entry comes from the first listed rule for its path; every such rule contributes; length is the number of listed sources |
| `Listing.ValuesPathsDistinct` | pages/index.tsx:36-38 | the map's values have pairwise distinct paths |
| `Listing.ValuesComplete` | pages/index.tsx:29-40 | the map's values contain the entry of every first listed rule |
| `Listing.RewriteWins` | pages/index.tsx:16-38 | a listed rewrite's entry is listed, and it is the only entry for its path, whatever redirects or later rewrites share the source |
| `Listing.PathListedIff` | pages/index.tsx:29-40 | a string is a listed path exactly when some listed rule has it as its source |
| `ListingExamples.EmptyConfig` | pages/index.tsx:15-49 | empty rule lists give an empty listing |
| `ListingExamples.RootAndWildcardsSkipped` | pages/index.tsx:30 | the root rule and rules with `:match` in the source give no entries |
| `ListingExamples.WildcardDestinationStripped` | pages/index.tsx:29-37 | rule `/foo` to `https://foo.example.com/:match*` lists as `Foo` linking to `https://foo.example.com` |
| `ListingExamples.RewriteBeatsRedirect` | pages/index.tsx:16-38 | a rewrite and a redirect both with source `/bar` give one `Bar` entry, the rewrite's |
| `ListingExamples.FooEntry` | pages/index.tsx:31-34 | rule `/foo` to `https://foo.example.com/:match*` gives the entry `Foo` linking to `https://foo.example.com` |
| `ListingExamples.BarEntry` | pages/index.tsx:31-34 | rule `/bar` to `https://rewrite.example.com` gives the entry `Bar` with that destination unchanged |
| `ListingExamples.SingleSourceListing` | pages/index.tsx:29-47 | rules that all share one listed source give exactly one entry, the first rule's |

## Left out

- Page rendering (pages/index.tsx:51-93): the head metadata, the heading and the
  list of links are markup with no logic.
- The footer year (pages/index.tsx:88) reads the wall clock.
- The Next.js `getStaticProps` wrapper and the `vercel.json` import
  (pages/index.tsx:1-3, 15) are framework plumbing. The two rule lists are
  parameters of `Listing.Bots` instead.
- `localeCompare` (pages/index.tsx:45) depends on the host's locale tables. The
  model sorts by `Collation.LexLe`, plain lexicographic order on character
  codes. A locale collation can order names differently, for example ignoring
  case at first.
- `toUpperCase` is modelled for ASCII letters only. Full Unicode case mapping
  can change a string's length (`ß` becomes `SS`), and it is not modelled.
- JavaScript strings are sequences of UTF-16 code units. The model uses Dafny
  characters, so `charAt` on a surrogate pair is not modelled.
- Sorting.SortByName: does not state the order of entries with equal names.
  The JavaScript sort is stable, but the page does not rely on any tie order.
- Listing.Bots: like `Sorting.SortByName`, it leaves the order of entries with
  equal names unstated. For example, `/a` and `/A` both have the name `A`.
