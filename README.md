# Episode list screen — a verified model

The repository is one mobile screen (`App.js`). It fetches a TV show's episodes
once, groups them by season, and shows one collapsible row per season. This
project models the screen's logic in Dafny:

- **Season grouping** (`SeasonGrouping`). The `reduce` at `App.js:28-34` is
  modelled as a loop, `GroupBySeason`, that builds a `map<int, seq<Episode>>`.
  It also returns the order in which keys were created, because a script
  object keeps that order. The reference definitions are `InSeason` (the
  episodes of one season, in input order), `SeasonIndices` (the positions of
  those episodes) and `FirstSeen` (each season in order of first encounter).
  The loop is proved against them. The lemmas prove that the grouping is a
  partition that keeps input order, that no group is empty, and that the group
  sizes add up to the input length.
- **Row order** (`KeyOrder`). The rows are `Object.keys(groupedEpisodes)`
  (`App.js:57`). `Object.keys` follows OrdinaryOwnPropertyKeys (section
  10.1.11.1 of ECMA-262, 2023 edition). Keys that are array indices
  (0 .. 2^32 - 2) come first, in ascending order. The other keys follow in the
  order they were created. `OwnKeys` models this. `AllIndexKeysAscending`
  proves that with ordinary season numbers the rows are simply the seasons in
  ascending order.
- **Expansion** (`Expansion`). `toggleSeason` (`App.js:36-41`) is the function
  `ToggleSeason` on `map<int, bool>`. A missing entry reads as collapsed
  (`IsExpanded`), because `!undefined` is `true` and `undefined` is falsy at
  line 64.
- **Screen** (`Screen`). The class `EpisodeScreen` holds the fields
  `episodes`, `expanded` and `loading` (`App.js:9-11`). It has these methods:
  - `FetchSettled(outcome)` is the end of the one fetch (`App.js:14-22`). The
    outcome is an input value, `Success(list)` or `Failure`.
  - `Toggle(season)` is a press on a season title.
  - `Render()` computes what one render pass shows (`App.js:43-81`): the
    spinner, or a list of rows. Each row holds the episodes shown under its
    season title.

  `TwoSeasonScenario` and `EmptyScenarios` are client methods. They walk
  through a fetch of two seasons with one press, a failed fetch, and a fetch
  of an empty list.

A season key is treated as an `int` throughout. The source writes the season
number as a property key of the grouped object (`App.js:30-32`), and
`Object.keys` (`App.js:57`) hands it back as a string. The toggle at line 61
and the lookup at line 64 use that same string, so both sides agree.

Two consequences of the code are worth stating:

- Seasons are not listed in first-seen order. `Object.keys` (`App.js:57`)
  lists array-index keys in ascending order. Only other keys, such as negative
  seasons, keep creation order.
- Two presses do not give back the same table. A season that had no entry
  gains an explicit `false` entry, which shows the same expansion
  (`ToggleSeason` twice, see `ToggleTwice`).

## Model

| member | source | states |
|---|---|---|
| `SeasonGrouping.InSeason` | App.js:28-34 | every episode in the group of season s has season s; a group is never longer than the input |
| `SeasonGrouping.SeasonIndices` | App.js:32 | the positions holding season s are in range, strictly increasing, and include every position whose episode has season s |
| `SeasonGrouping.FirstSeen` | App.js:29-31 | the creation order of keys has no duplicates and lists exactly the seasons that occur in the input |
| `SeasonGrouping.InSeasonSelects` | App.js:32 | the group of season s is exactly the input's episodes at the positions of season s, in increasing position order: every grouped episode comes from the input, and relative input order is kept |
| `SeasonGrouping.EpisodeInOwnGroup` | App.js:28-34 | every input episode lies in the group keyed by its own season |
| `SeasonGrouping.OccurringSeasonNonEmpty` | App.js:29-32 | a season that occurs in the input has a non-empty group |
| `SeasonGrouping.FirstSeenPrefix` | App.js:29-31 | the key creation order for a prefix of the input is a prefix of the order for the whole input: keys are only added at the end |
| `SeasonGrouping.GroupSizesCover` | App.js:28-34 | summed over any duplicate-free key list that covers every season, the group sizes equal the input length, so nothing is dropped or duplicated |
| `SeasonGrouping.GroupBySeason` | App.js:28-34 | the table's keys are exactly the input's seasons; each group is the in-order list of its season's episodes; no group is empty; the creation order is the first-seen order and matches the key set; group sizes add up to the input length; the table is empty exactly when the input is empty |
| `KeyOrder.OwnKeys` | App.js:57 | lists each created key exactly once: first the array-index keys in strictly ascending order, then the other keys in creation order |
| `KeyOrder.AscendingUnique` | App.js:57 | two strictly ascending key lists with the same elements are equal, so the ascending row order is unique |
| `KeyOrder.AllIndexKeysAscending` | App.js:57 | when every season is an array index, the row order is the ascending listing of the key set, whatever the creation order |
| `KeyOrder.KeysWhereSplit` | App.js:57 | the array-index keys and the other keys together are as many as all keys |
| `Expansion.IsExpanded` | App.js:64 | a season with no entry reads as collapsed (its `undefined` is falsy); a season with an entry is expanded exactly when the entry is `true` |
| `Expansion.ToggleSeason` | App.js:36-41 | the toggled season's expansion becomes the negation of its old value, with a missing entry read as collapsed; the key set gains only that season; every other entry is copied unchanged |
| `Expansion.FirstToggleExpands` | App.js:39 | the first press on a season with no entry expands it, adding an explicit `true` entry |
| `Expansion.ToggleIsolated` | App.js:38 | a press on one season never changes whether another season is expanded |
| `Expansion.ToggleTwice` | App.js:37-40 | two presses restore what is expanded; the table comes back literally if and only if the season already had an entry, and otherwise gains an explicit `false` |
| `Expansion.ToggleRespectsSameExpansion` | App.js:37-40 | tables that expand the same seasons still expand the same seasons after the same press |
| `Expansion.ToggleCommutes` | App.js:37-40 | presses on two seasons give the same table in either order |
| `Screen.SeasonRows` | App.js:59-75 | one row per key, in key order, each titled by its season and showing that season's group when the season is expanded and nothing otherwise |
| `Screen.EpisodeScreen.constructor` | App.js:9-11 | the screen starts with no episodes, no expansion entries, and loading set to true |
| `Screen.EpisodeScreen.FetchSettled` | App.js:14-22 | loading becomes false on both paths; on success the episode list is replaced by the fetched list; on failure it is kept, so it is still empty when the fetch settles while loading; the expansion table is untouched |
| `Screen.EpisodeScreen.Toggle` | App.js:36-41 | the expansion table becomes its toggled version; episodes and loading are unchanged |
| `Screen.EpisodeScreen.Render` | App.js:43-81 | the spinner is shown exactly while loading; otherwise there is one row per season, in the `Object.keys` order of the grouped table, and each row shows its season's episodes in input order when the season is expanded and none otherwise |
| `Screen.RowOrderListsEachSeasonOnce` | App.js:57 | the row order lists each occurring season exactly once, ascending when all seasons are array indices |
| `Screen.AllExpandedShowsEveryEpisode` | App.js:57-75 | with every row expanded, the rows together show exactly as many episodes as were fetched |
| `Screen.TwoSeasonRowOrder` | App.js:57 | two episodes of season 1 followed by one of season 2 give the rows 1, 2 |
| `Screen.TwoSeasonGroups` | App.js:28-34 | for that list, season 1 holds the first two episodes and season 2 holds the third |

## Left out

- The HTTP request to the TVmaze endpoint (`App.js:16`) is not modelled. Only its outcome is, as the `FetchOutcome` input.
- The error log at `App.js:19` is not modelled. It is an external side effect that changes no screen state.
- `useState` and `useEffect` scheduling, `async`/`await` and promise settlement are not modelled. Each setter call is one atomic field update. A callback arriving after the screen has closed cannot be observed in this model.
- The JSX output, `FlatList`, `TouchableOpacity`, `ImageBackground`, the background image (`App.js:6`) and the styles (`App.js:84-121`) are not modelled. A `Row` holds the shown `Episode` values, not the text "Episódio n: name" or the air date line.
- Screen.EpisodeScreen.FetchSettled: it may be called any number of times, and `Toggle` may be called while loading. The source settles its single fetch once and shows season titles only after loading, so the model allows more call orders than the source does.
- The `FetchOutcome` success value is a well-formed list of episodes. A response body that is not an array would make the `reduce` throw at render time. That path is not modelled.
- Seasons are unbounded integers. The source turns them into JavaScript numbers and strings. Integers beyond 2^53 could then collide as keys, and that is not modelled.
