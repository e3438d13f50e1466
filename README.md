# Clash Royale card-win visualisation — a verified model of its data layer

This project models the data side of a small D3 site about Clash Royale card wins. It has four parts:

- **common.js**: classifying cards into the two bins, "toxic troops" and "cheap spells". This part also
  resolves an arena name or `count_N` key to a card's win count, builds the per-arena story chart data,
  and caches the catalogue load.
- **explore.js**: the playground's state. This covers the selected arena, the two bins and their
  add/remove/reset/clear actions, the search-and-filter pipeline over the catalogue, and the chart
  records of the selected arena with their bin means.
- **story.js**: the slide deck and the story's arena charts. The deck holds a clamped current index,
  one active slide, the highlighted navigation links and the click hint.
- **main.js**: the landing page's card-usage tally. This covers the id-to-name index, the count of
  card ids over the sixteen winner and loser slots of each battle, the trophy-range arena filter and
  its range table, and the highest-winrate reduction.

The Dafny modules follow the files:

| module | file |
|---|---|
| `JsValues` | `js_values.dfy` |
| `Collections` | `collections.dfy` |
| `Common` | `common.dfy` |
| `Explore` | `explore.dfy` |
| `Story` | `story.dfy` |
| `CardUsage` | `card_usage.dfy` |

`JsValues` holds the parts of JavaScript's value semantics the code relies on:

- numbers with NaN and the infinities;
- parsed CSV cells;
- `Number(...)` and `parseInt(..., 10)`;
- `toLowerCase` and `includes`;
- number comparison.

`Collections` holds the library behaviour the code relies on:

- filtering;
- a `Map` or object filled in order, where the last write wins;
- the stable descending sort that `Array.prototype.sort` performs with `d3.descending`;
- insertion-ordered `Set` operations;
- a "push at most one result per element" loop, `Gather`.

The modelled code falls into three kinds:

- Code that mutates state is modelled as classes with `modifies` frames: the load cache, the
  explorer's state and the slide deck.
- Loops in the source are methods with loops, each proved equal to a specification function or to
  the properties the source promises.
- Pure helpers are functions, with lemmas about them.

## Model

| member | source | states |
|---|---|---|
| Common.LoweredMembership | common.js:63-64 | A key is in the lower-cased list exactly when some configured name lower-cases to it. |
| Common.BinListsDisjoint | common.js:35-45 | No lower-cased toxic-troop name is also a lower-cased cheap-spell name, so the first test in `getCardBin` never shadows the second. |
| Common.GetCardBin | common.js:69-74 | A missing or empty name is `other`. |
| Common.BinByListIgnoringCase | common.js:69-74 | A card is `toxic_troop` iff its name equals a toxic troop ignoring case. It is `cheap_spell` iff it equals a cheap spell ignoring case. It is `other` iff it matches no name of the bin order. |
| Common.FindArena | common.js:113 | `ARENA_CONFIG.find` by name: nothing iff no arena has the name. Otherwise the result is an arena of the list carrying that name. |
| Common.FindArenaByOwnName | common.js:113-114 | With distinct names, looking an arena up by its own name finds that arena. |
| Common.ArenaConfigWellFormed | common.js:51-57 | The configured arena names are distinct and none starts with `count_`. Every key starts with `count_`, and each arena's index is its position. |
| Common.ResolveArenaKey | common.js:108-117 | The empty reference has no key. A `count_` reference is its own key. A configured display name resolves to that arena's key. Any other name has no key. |
| Common.ConfiguredNamesFound | common.js:112-114 | No configured display name looks like a column key, and looking a configured name up finds its own arena. |
| Common.CoerceWins | common.js:119-124 | The stored value becomes a finite number. A finite number is kept. Otherwise `Number(value)` is used when it is finite, and 0 when it is not. |
| Common.CoercionDefaults | common.js:119-124 | An empty string, NaN, either infinity, `null` and a missing column all give 0 wins. |
| Common.CoerceWordIsZero | common.js:123-124 | A word that starts with a letter other than `I` (so not `Infinity`) gives 0 wins. |
| Common.GetWinsForArena | common.js:105-125 | The result is always finite. It is 0 with no row, with an empty reference, or with a name that is neither a `count_` key nor a configured arena. With a `count_` key, the result is the coerced value of that cell: a finite number as stored, text or `null` through `Number`, and a missing column as 0. With a configured display name, the result is the coerced value of that arena's column. |
| Common.NameAndKeyAgree | common.js:99-115 | Asking by an arena's name and by its key gives the same wins, for every row. |
| Common.ByLowerNameFiles | common.js:130-132 | Each key of the by-name index is the lower-cased name of the row it holds, and that row is in the catalogue. |
| Common.StoryStep | common.js:139-168 | Each name of the bin order contributes at most one record. |
| Common.BuildStoryChartData | common.js:129-175 | The two nested loops build exactly the story data specified per arena. |
| Common.BuildArenaRows | common.js:137-168 | The inner loop over the bin order builds exactly one arena's specified records. |
| Common.StoryDataOfIsIndex | common.js:136-172 | Assigning each arena's records under its name, arena by arena, is indexing the arenas by display name: a later arena with the same name replaces an earlier one. |
| Common.StoryChartDataEntries | common.js:134-174 | The story data has a key for every configured arena name and no other, each holding that arena's records. |
| Common.ArenaRowsShown | common.js:146-168 | Every record of an arena has positive wins and a bin other than `other`. That bin is the bin of its name, and the record carries the arena's name. |
| Common.ArenaRowsFollowOrder | common.js:139-169 | The records follow the bin order. Each comes from a strictly later name than the previous one, and every name whose card is present with wins contributes one. |
| Common.ArenaRowsDistinct | common.js:130-140 | When no two names of the order are equal ignoring case, no two records of an arena are for the same card. |
| Common.BinCardOrderWellFormed | common.js:47-48 | No two names of the bin order are equal ignoring case, and each of them classifies as a bin other than `other`. |
| Common.StoryChartDataShown | common.js:136-172 | For every configured arena, its records have positive wins and a real bin, carry the arena name, are distinct by card and follow the bin order. |
| Common.BinMean | story.js:219-227 | A bin's mean exists iff some record has that bin. Its sum is the total wins of the records in the bin, and its count is their number. |
| Common.BinMeanOrderFree | story.js:218 | Reordering the records does not change any bin's mean: the sum and count are those of the unsorted data. |
| Common.Annotated | common.js:82-84 | Every row gets the bin of its own name, and nothing else about the row changes. |
| Common.AnnotateBins | common.js:82-84 | The in-place loop leaves the array equal to the annotated rows. |
| Common.CardStore.constructor | common.js:60 | Nothing is loaded, nothing is built, and nothing has been fetched. |
| Common.CardStore.LoadCardData | common.js:77-97 | The first request fetches once and stores the outcome. On success that is the annotated rows, and the array is annotated in place; on failure it is the error. Every later request returns the stored outcome, failure included, without fetching. |
| Common.CardStore.LoadStoryData | common.js:177-188 | Built story data is returned unchanged. Otherwise the catalogue is loaded through the cache: a settled load is reused without a new fetch, and a first load fetches once and stores the annotated rows or the failure. The story data is built from the catalogue and stored. A load failure is passed on and nothing is stored. |
| Explore.AddedToBin | explore.js:453-463 | An empty name or an unknown bin key changes nothing. A name added to one bin is in it and no longer in the other, and membership of every other name is untouched. The bins stay disjoint and free of repeats. |
| Explore.AddToBinIdempotent | explore.js:453-463 | Adding the same card to the same bin twice is the same as adding it once. |
| Explore.InferredBinsExact | explore.js:52-63 | After seeding, a name is in the toxic bin iff some row with that name is tagged `toxic_troop`, and likewise for the spell bin. Neither bin holds duplicates. |
| Explore.InferredBinsValid | explore.js:52-63 | On annotated rows the seeded bins are disjoint. |
| Explore.FilterChainIsConjunction | explore.js:296-343 | The chain of optional filters keeps exactly the rows that pass all active tests at once, in catalogue order. |
| Explore.FilteredCardsSpec | explore.js:296-356 | The results are the passing rows, each as often as in the catalogue; a row is a result iff it is in the catalogue and passes. With an arena selected, they are sorted by wins there, most first, with ties in catalogue order. Without one, they stay in catalogue order. |
| Explore.ShownResults | explore.js:362 | The list shows the first 40 results, or all of them when there are fewer. |
| Explore.ShownResultsSorted | explore.js:362 | Capping the list keeps it ordered by wins. |
| Explore.PushBinRecords | explore.js:552-578 | One loop over a bin pushes onto the array exactly the specified records of that bin, after what it already held. |
| Explore.ChartStep | explore.js:552-564 | Each bin member contributes at most one bar. |
| Explore.GatheredBinRecords | explore.js:546-579 | A bin's records are exactly its members whose cards exist with positive wins in the arena. Each is labelled with the bin and carries those wins. |
| Explore.ChartDataSpec | explore.js:546-584 | Without an arena the chart is empty. Otherwise its bars are exactly the bin members with positive wins, labelled by bin and carrying their wins, and they are sorted by wins, tallest first. |
| Explore.BinMeanPresence | explore.js:672-680 | A bin's mean line is drawn iff some member of that bin has a bar. |
| Explore.MeanPresentIffMember | explore.js:672-680 | Given which names of a bin have bars, the bin's mean exists iff one of them does. |
| Explore.Explorer.constructor | explore.js:34-46 | The catalogue is stored, the last configured arena is selected, and the bins are seeded from the rows' bins. |
| Explore.Explorer.InferInitialBins | explore.js:52-63 | Both bins are cleared and refilled from the rows' tags. The result is the seeded bins, which are disjoint. |
| Explore.Explorer.AddToBin | explore.js:453-463 | The bins become the specified addition, and they stay disjoint. |
| Explore.Explorer.RemoveToxicPill | explore.js:503-509 | The name leaves the toxic bin, whose other names and order stay; the spell bin is unchanged. |
| Explore.Explorer.RemoveSpellPill | explore.js:534-540 | The name leaves the spell bin, whose other names and order stay; the toxic bin is unchanged. |
| Explore.Explorer.ClearBins | explore.js:275-281 | Both bins are emptied and nothing else changes. |
| Explore.Explorer.ResetBins | explore.js:263-268 | The bins are re-seeded from the catalogue. |
| Explore.Explorer.SelectArena | explore.js:94-96 | The selected arena becomes the chosen one and the bins are untouched. |
| Explore.Explorer.GetFilteredCards | explore.js:296-356 | The results are the specified search: exactly the catalogue rows that pass, sorted by wins when an arena is selected. |
| Explore.Explorer.BuildChartDataForArena | explore.js:546-584 | The two loops over the bins, followed by the sort, build exactly the specified chart data. |
| Story.Clamp | story.js:36 | The index is clamped into range. An in-range index is kept, a negative one becomes 0 and a too-large one the last slide. |
| Story.OnlyActiveCount | story.js:38-40 | Toggling against an index marks one slide when it is in range, and none otherwise. |
| Story.ExactlyOneActive | story.js:38-40 | After toggling against an in-range index, exactly one slide is active: the one at that index. |
| Story.NavActiveOfSpelledTarget | story.js:86-92 | A link whose target is the decimal spelling of a slide index is highlighted exactly when that index is the current one. |
| Story.SlideDeck.constructor | story.js:105-119 | With slides, the first is the only active one and the index is 0. Without slides nothing is toggled. |
| Story.SlideDeck.ShowSlide | story.js:33-45 | Without slides nothing changes. Otherwise the index becomes the clamped target and exactly that slide is active. The links targeting it are highlighted, and the hint is hidden exactly on the last slide. |
| Story.SlideDeck.UpdateNavButtons | story.js:86-92 | Each navigation link is highlighted iff its target parses to the current index, and nothing else changes. |
| Story.SlideDeck.UpdateClickHint | story.js:94-103 | The hint is hidden iff the current slide is the last one or beyond, and nothing else changes. |
| Story.SlideDeck.NextSlide | story.js:47-51 | The deck advances by one before the last slide and does nothing on it. The number of slides and the links' targets never change. |
| Story.SlideDeck.NavigateTo | story.js:76-82 | A target that is not a number, or a deck without slides, does nothing. Otherwise the deck shows the clamped target. The number of slides and the links' targets never change. |
| Story.StoryArenasConfigured | story.js:23-29 | The story's charts show the configured arenas, in the configured order. |
| Story.GetArenaData | story.js:128-139 | With no story data, or for an unknown arena, the result is empty. It never holds a record of bin `other`. |
| Story.GetArenaDataExact | story.js:128-139 | For a known arena the result is its stored records of the two bins, in stored order. |
| Story.GetArenaDataOfBuiltStory | story.js:128-139 | On built story data the bin filter removes nothing, and an unconfigured arena has no data. |
| Story.GetArenaDataAllBinned | story.js:128-139 | When every stored record of the arena has one of the two bins, the arena's data is its stored list. |
| Story.ArenaChart | story.js:143-154 | Nothing is drawn iff the arena has no data. Otherwise the bars are a permutation of the data sorted by wins, most first. |
| Story.ArenaChartStableAndMeans | story.js:154 | Bars with equal wins keep the data's order, and the bin means of the sorted bars are those of the data. |
| CardUsage.TallyCounts | main.js:82-94 | The tally holds exactly the non-empty ids, each with its number of occurrences. |
| CardUsage.DisplayName | main.js:98 | A bar's name is the mapped name. It is "Unknown" when the id is unmapped or mapped to an empty name. |
| CardUsage.TallyBattles | main.js:89-94 | The loop over battles and slots 1..8, winner then loser, computes the specified tally. |
| CardUsage.SlotsUpToColumns | main.js:90-93 | A battle's ids alternate winner and loser: position 2k is the winner's card of slot k + 1, position 2k + 1 the loser's card of that slot. |
| CardUsage.TallyRow | main.js:89-94 | One battle's loop over slots 1..8, winner then loser, extends the tally by exactly that battle's slot ids. |
| CardUsage.CountsToBars | main.js:96-100 | Each counted id gets exactly one bar, carrying its count and display name. |
| CardUsage.ComputeCardCounts | main.js:80-101 | Each bar's id is non-empty and occurs in the battles' slots, and its count is its number of occurrences there. Every non-empty id occurring in a slot has a bar. Ids are distinct, names are the display names, and the bars are sorted by count, most first. |
| CardUsage.CardNameById | main.js:74-77 | The index has a key for each listed id and no other. An id listed several times maps to the name of its last row. |
| CardUsage.BattlesInArenaMembership | main.js:196-202 | A battle is selected iff its `+startingTrophies` lies in the inclusive range. A non-numeric trophy count is never selected. A whole count is selected iff it is between the bounds. |
| CardUsage.InRangeCases | main.js:201 | NaN is in no range. A whole number is in a range iff it is at least the minimum and, for a finite maximum, at most the maximum. |
| CardUsage.TilesCovers | main.js:30-47 | Ranges that start at a bound and continue without gaps cover every whole number from that bound. |
| CardUsage.TilesDisjoint | main.js:30-47 | Such ranges never overlap. |
| CardUsage.ArenasTile | main.js:30-47 | The arena table starts at 0. Each range starts one above the previous one's maximum, and the last is unbounded. |
| CardUsage.ExactlyOneArena | main.js:30-47 | Every non-negative whole trophy count lies in exactly one arena's range. |
| CardUsage.HighestWinrate | main.js:18 | The reduction fails (no result) exactly on an empty list. |
| CardUsage.HighestWinrateIsLastMaximum | main.js:18 | The reduction returns an element whose winrate is maximal, and no later element has that winrate, so ties go to the later element. |
| CardUsage.MockHighestWinrate | main.js:4-18 | On the page's figures the highest winrate belongs to Mega Knight. |
| JsValues.ToLowerAgreement | common.js:69 | Two names lower-case to the same key exactly when they have the same length and differ at most in the case of ASCII letters. |
| JsValues.ToLowerIdempotent | common.js:69 | Lower-casing a lower-cased name changes nothing. |
| JsValues.ContainsAt | explore.js:323-329 | `includes` holds iff the term occurs at some position of the text. |
| JsValues.NumberReadsDecimalString | common.js:123 | `Number` reads back the decimal spelling of any integer. |
| JsValues.ParseIntReadsDecimalString | story.js:78 | `parseInt(..., 10)` reads back the decimal spelling of any integer. |
| JsValues.ParseIntWithoutDigit | story.js:78-79 | A target with no digit after the blanks and the optional sign is NaN. |

## Left out

- All DOM, SVG and D3 rendering is left out, including the presence checks on page elements that only
  decide whether to render. This covers scales, axes, bars, legends, mean-line geometry, tooltips, the
  arena cards, button wiring, the resize handler and the click-to-advance handler's DOM tests.
- Fetching and parsing the CSV files (`d3.csv`, `d3.autoType`) is left out. Rows are inputs, and the
  fetch outcome is a parameter of the loading methods. Promises and their asynchrony are replaced by
  sequential calls, so concurrent first requests are not modelled.
- Arithmetic on fractional numbers is left out. Means are modelled as a sum and a count (`MeanParts`)
  rather than the division. `average`, `avgElixir` and `toFixed` are not modelled.
- `mostPopularCard` and `totalCards` on main.js are not modelled. They are constant reads of the mock
  list.
- Numbers are restricted to whole values. `Number` parses surrounding blanks, a sign, decimal digits
  and `Infinity`, and reads fractional, exponent, hexadecimal or binary spellings as NaN. Date values
  that `d3.autoType` can produce are not modelled.
- `toLowerCase` is modelled on ASCII letters only. Blanks are the ASCII ones plus vertical tab and form
  feed, not every Unicode space.
- Text columns (`card_name`, `card_type`, `rarity`) are strings, and a `null` or missing name is taken
  as the empty string. Every use either goes through `|| ""` or compares against a non-empty filter
  value.
- Rows are values: aliasing between the catalogue array shared by the modules is not modelled, and
  only the in-place annotation in `loadCardData` is modelled on an array.
- Explore.Explorer.constructor: the explorer selects the last arena of the configured list, and
  requires the rows to be annotated as the loader leaves them. The fallbacks for an empty or missing
  arena list or catalogue are not modelled. `null` as the selected arena is modelled as the empty
  string.
- Explore: `window.getWinsForArena` is always taken to be present.
- Explore.BinMeanPresence: states when a mean line exists, not its value, because the value is a
  fractional mean.
- CardUsage.CountsToBars: the order of `Object.keys` is left open. For canonical integer ids that
  order is ascending numeric, which decides the order of equal counts after the stable sort; the model
  only proves the result sorted by count.
- CardUsage.ComputeCardCounts: ids equal to `Object.prototype` member names (`constructor`,
  `__proto__` and the like) are treated as ordinary keys. The model does not capture how such keys
  read inherited properties.
- CardUsage.CardNameById: the card ids and names are strings. A card list without those columns, whose
  key would be `"undefined"`, is not modelled.
- CardUsage: a missing card-slot column reads as the empty string, which the tally skips just as it
  skips `undefined`.
