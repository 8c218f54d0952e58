# Tutor directory: matching and ranking engine

A Dafny model of the logic behind the tutor directory page of A Plus Academy.
The page fetches loosely typed tutor records and normalises them into
canonical tutors. It filters them by city, subject and a free-text search,
ranks them by planar distance to the viewer, and feeds the result to two
views: a paginated card list with per-tutor "show more" toggles, and a map of
markers fitted around the viewer.

Modules, one per file:

- `Wrappers` (`wrappers.dfy`): `Option`.
- `JsNumber` (`js_number.dfy`): JavaScript numbers (`Finite(real) | NaN | PosInf | NegInf`), loosely typed scalars, truthiness, `||`, `Number(...)`, and IEEE subtraction, addition and squaring over the infinities and NaN.
- `Strings` (`strings.dfy`): per-character case mapping, `includes` with its meaning (an occurrence), `join`, and `split` on one character, with the split/join round trips.
- `Seqs` (`seqs.dfy`): `filter`, subsequences, `[...new Set(xs)]` and `flat`.
- `Tutors` (`tutors.dfy`): raw records, canonical tutors, and the normaliser.
- `Ranking` (`ranking.dfy`): `filterTeachers`, meaning the three predicates, the distance, and the stable sort by the source's comparator.
- `Options` (`options.dfy`): the subject and city option lists.
- `Pagination` (`pagination.dfy`): `visibleCount`, "Load More", and the `slice(0, visibleCount)` window.
- `Toggles` (`toggles.dfy`): the id-to-boolean "show more" maps.
- `TeacherList` (`teacher_list.dfy`): the Loading / No tutors found / card grid decision.
- `MapSection` (`map_section.dfy`): teacher points, the viewer point, markers, initials and colours.
- `Scenarios` (`scenarios.dfy`): worked examples proved end to end.

Modelling choices:

- The distance a ranked tutor carries is the square of the source's `Math.sqrt(latDiff ** 2 + lngDiff ** 2)`. `sqrt` is monotone on the non-negative reals and +Infinity, so sorting by either gives the same order and the same ties.
- The sort uses the source's comparator `a.distance - b.distance`, evaluated over JavaScript numbers. A NaN result counts as 0, as the CompareArrayElements step of `Array.prototype.sort` in ECMA-262 prescribes. `Array.prototype.sort` is stable, and for a consistent comparator every stable sort gives the same output. The model therefore uses a stable insertion sort.
- Four things the model cannot compute become parameters: `toLowerCase` and `toUpperCase` (per-character maps), `Number(string)` (a `string -> Num` function) and the `Math.random()` id fallback (one supplied id per record).
- The viewer location is a parameter. Its default is `DefaultViewer`, which is (31.5204, 74.3587).

The model follows the code, including these behaviours:

- A normalised coordinate is not always finite. `Number("Infinity")` is truthy, so it survives normalisation, and only the map re-checks finiteness (`Tutors.InfinityIsKept`).
- A coordinate falls back to the default when it coerces to NaN or to 0. A latitude of exactly 0 is therefore replaced.
- LazyMapSection applies no cap to the list it is given: every tutor in it with finite coordinates gets a marker.
- Names are split on the single character `" "`, not on any whitespace.

## Model

| member | source | states |
|---|---|---|
| Tutors.NormaliseRecord | frontend/src/components/TeacherDirectory/TeacherDirectory.jsx:97-111 | each text field is the record's value, or "" when absent (an empty string ends up the same); subjects default to []; verified holds iff the raw field is exactly the string "Yes"; a truthy experience is kept unchanged and a falsy one becomes 0; the id is the record's id, its _id or the generated one; both coordinates are truthy (never NaN, never 0) |
| Tutors.Coordinate | frontend/src/components/TeacherDirectory/TeacherDirectory.jsx:109-110 | `Number(x) \|\| fallback` is the coerced value when that is truthy and the fallback when it is NaN or 0, so with a non-zero fallback it is never NaN or 0 |
| Tutors.Normalise | frontend/src/components/TeacherDirectory/TeacherDirectory.jsx:97 | normalising a response keeps its length and order, and each tutor depends only on its own record |
| Tutors.CoordinateFallback | frontend/src/components/TeacherDirectory/TeacherDirectory.jsx:108-111 | a latitude or longitude that coerces to NaN or 0 becomes 31.5204 / 74.3587; any other coerced value is kept as is |
| Tutors.MissingCoordinateFallsBack | frontend/src/components/TeacherDirectory/TeacherDirectory.jsx:109 | an absent, null, false, NaN or zero latitude becomes the fallback latitude |
| Tutors.InfinityIsKept | frontend/src/components/TeacherDirectory/TeacherDirectory.jsx:109-110 | a normalised coordinate is infinite exactly when the raw one coerces to an infinity, so normalisation does not guarantee finiteness |
| Tutors.VerifiedOnlyForExactYes | frontend/src/components/TeacherDirectory/TeacherDirectory.jsx:107 | true, "yes", "YES", "Yes " and a missing field all give an unverified tutor |
| Tutors.IdPrecedence | frontend/src/components/TeacherDirectory/TeacherDirectory.jsx:98 | a non-empty id wins; otherwise a non-empty _id; otherwise the generated id |
| Strings.Contains | frontend/src/components/TeacherDirectory/TeacherDirectory.jsx:59-60 | `includes` finds an empty needle and any prefix, and never finds a needle longer than the haystack |
| Strings.ContainsIffOccurs | frontend/src/components/TeacherDirectory/TeacherDirectory.jsx:59-60 | the `includes` scan succeeds iff the needle occurs at some position (both directions) |
| Strings.Join | frontend/src/components/TeacherDirectory/TeacherDirectory.jsx:60 | the joined string starts with the first part, followed by the separator when more parts follow |
| Strings.PartOccursInJoin | frontend/src/components/TeacherDirectory/TeacherDirectory.jsx:60 | every subject occurs in the space-joined subject list |
| Strings.OccursUnderMapChars | frontend/src/components/TeacherDirectory/TeacherDirectory.jsx:59-60 | case-mapping haystack and needle alike keeps every occurrence |
| Strings.Split | frontend/src/components/TeacherDirectory/LazyMapSection.jsx:128 | `split(" ")` yields at least one piece, and no piece contains a space |
| Strings.JoinSplit | frontend/src/components/TeacherDirectory/LazyMapSection.jsx:128 | joining the pieces of a split with the separator gives back the name |
| Strings.SplitJoin | frontend/src/components/TeacherDirectory/LazyMapSection.jsx:128 | splitting a join of space-free words gives back the words |
| Seqs.Filter | frontend/src/components/TeacherDirectory/TeacherDirectory.jsx:52-64 | the kept elements are exactly the input elements satisfying the predicate, each kept as many times as it occurs in the input; the rest are dropped entirely |
| Seqs.FilterIsSubsequence | frontend/src/components/TeacherDirectory/TeacherDirectory.jsx:52-64 | filtering only deletes: the result is a subsequence of the input |
| Seqs.DistinctFrom | frontend/src/components/TeacherDirectory/TeacherDirectory.jsx:134 | a Set's iteration order: no duplicates, exactly the input values not already seen, and one value comes before another exactly when its first occurrence in the input does |
| Seqs.DistinctIsIdempotent | frontend/src/components/TeacherDirectory/TeacherDirectory.jsx:134 | de-duplicating twice is de-duplicating once |
| Ranking.SquaredDistance | frontend/src/components/TeacherDirectory/TeacherDirectory.jsx:65-68 | with no infinite coordinate the distance is the squared planar distance (lat - viewerLat)^2 + (lng - viewerLng)^2, a NaN coordinate measured as 0; with an infinite coordinate it is +Infinity; it is never NaN or negative |
| Ranking.NaNCoordinateCountsAsZero | frontend/src/components/TeacherDirectory/TeacherDirectory.jsx:66-67 | `lat \|\| 0`: a NaN latitude or longitude gives the same distance as 0 |
| Ranking.Attach | frontend/src/components/TeacherDirectory/TeacherDirectory.jsx:65-69 | the i-th entry is the i-th tutor paired with its own distance to the viewer |
| Ranking.FilterTeachers | frontend/src/components/TeacherDirectory/TeacherDirectory.jsx:43-71 | the ranking is sorted non-decreasing by distance, every distance is non-negative or +Infinity, and it is a permutation of the matching tutors with their distances |
| Ranking.SortsBefore | frontend/src/components/TeacherDirectory/TeacherDirectory.jsx:70 | the comparator `a.distance - b.distance` lets equal values stay in place, and on distances it is not positive iff a is at most b |
| Ranking.Insert | frontend/src/components/TeacherDirectory/TeacherDirectory.jsx:70 | an insertion step adds exactly the inserted tutor and loses nothing |
| Ranking.SortByDistance | frontend/src/components/TeacherDirectory/TeacherDirectory.jsx:70 | sorting permutes its input |
| Ranking.ComparatorIsDistanceOrder | frontend/src/components/TeacherDirectory/TeacherDirectory.jsx:70 | on distances, `a.distance - b.distance` is not positive iff a is at most b in the extended reals |
| Ranking.SortIsSorted | frontend/src/components/TeacherDirectory/TeacherDirectory.jsx:70 | sorting distances gives a non-decreasing sequence |
| Ranking.SortIsStable | frontend/src/components/TeacherDirectory/TeacherDirectory.jsx:70 | the entries at any one distance leave the sort in the order they entered it |
| Ranking.RankedIsPermutedSubsequence | frontend/src/components/TeacherDirectory/TeacherDirectory.jsx:52-70 | the ranked tutors are a permutation of the matching tutors, which are a subsequence of the input |
| Ranking.RankedTutorsMatch | frontend/src/components/TeacherDirectory/TeacherDirectory.jsx:52-68 | every ranked tutor comes from the input, passes the city, subject and search predicates, and carries its own distance to the viewer |
| Ranking.RankingIsStable | frontend/src/components/TeacherDirectory/TeacherDirectory.jsx:65-70 | tutors at equal distance keep their input order |
| Ranking.NearerRanksFirst | frontend/src/components/TeacherDirectory/TeacherDirectory.jsx:65-70 | a tutor strictly nearer the viewer in the plane, or one with finite coordinates against one with an infinite coordinate, is ranked before the other |
| Ranking.SortedPutsNearerFirst | frontend/src/components/TeacherDirectory/TeacherDirectory.jsx:70 | in any list sorted by distance to the viewer, a strictly nearer tutor comes first |
| Ranking.NoFiltersKeepEveryone | frontend/src/components/TeacherDirectory/TeacherDirectory.jsx:54-61 | with city, subject and search all empty every tutor is kept, so the ranking is as long as the input |
| Ranking.EmptyFilterIsIdentity | frontend/src/components/TeacherDirectory/TeacherDirectory.jsx:54-61 | an empty city, subject or search leaves only the other two predicates to decide |
| Ranking.UnknownCityRanksNobody | frontend/src/components/TeacherDirectory/TeacherDirectory.jsx:52-64 | a city that no tutor is in gives an empty ranking |
| Ranking.SearchFindsListedSubject | frontend/src/components/TeacherDirectory/TeacherDirectory.jsx:58-61 | searching for a subject a tutor lists matches that tutor, whatever the case mapping |
| Ranking.SearchFindsNamePart | frontend/src/components/TeacherDirectory/TeacherDirectory.jsx:59 | searching for any part of a tutor's name matches that tutor |
| Options.SubjectOptions | frontend/src/components/TeacherDirectory/TeacherDirectory.jsx:133-136 | the subject list has no duplicates and holds exactly the subjects some tutor teaches |
| Options.CityOptions | frontend/src/components/TeacherDirectory/TeacherDirectory.jsx:138-141 | the city list has no duplicates, never holds "", and holds exactly the non-empty cities of the tutors |
| Options.OptionsKeepFirstSeenOrder | frontend/src/components/TeacherDirectory/TeacherDirectory.jsx:133-141 | in both lists one option comes before another exactly when its first occurrence does, and each list is a subsequence of the values it is built from |
| Pagination.Window | frontend/src/components/TeacherDirectory/TeacherList.jsx:51 | the shown list is a prefix of the ranking of length min(visibleCount, length) |
| Pagination.LoadMore | frontend/src/components/TeacherDirectory/TeacherDirectory.jsx:228 | a click raises visibleCount by exactly 12 |
| Pagination.LoadMoreOfferedIffTutorsHidden | frontend/src/components/TeacherDirectory/TeacherDirectory.jsx:223 | "Load More" is offered iff nothing is loading and the window hides some tutor |
| Pagination.LoadMoreExtendsWindow | frontend/src/components/TeacherDirectory/TeacherDirectory.jsx:228 | a click raises visibleCount; the old window is a prefix of the new one, which shows min(v + 12, length) tutors, and when the button was offered at least one more tutor appears |
| Pagination.LoadMoreEventuallyShowsAll | frontend/src/components/TeacherDirectory/TeacherDirectory.jsx:223-228 | clicking while the button is offered ends with every tutor shown and the button gone |
| Toggles.Toggle | frontend/src/components/TeacherDirectory/TeacherDirectory.jsx:215-220 | a toggle flips the id's flag (an absent id reads false), adds the id as a key, and leaves every other entry unchanged |
| Toggles.ToggleLeavesOthers | frontend/src/components/TeacherDirectory/TeacherDirectory.jsx:216 | toggling one id never changes another id's flag |
| Toggles.ToggleTwice | frontend/src/components/TeacherDirectory/TeacherDirectory.jsx:216 | toggling twice restores the flag; the map comes back unless the id was absent, in which case it is now present as false |
| TeacherList.ListViewOf | frontend/src/components/TeacherDirectory/TeacherList.jsx:18-51 | Loading (with visibleCount placeholders) iff loading; "No tutors found" iff not loading and nothing is ranked; otherwise a grid of min(visibleCount, length) cards |
| TeacherList.GridShowsRankedPrefix | frontend/src/components/TeacherDirectory/TeacherList.jsx:51-83 | the i-th card shows the i-th ranked tutor, with its bio and subjects expanded iff its id maps to true |
| TeacherList.ToggleBioChangesOnlyThatCard | frontend/src/components/TeacherDirectory/TeacherList.jsx:77-83 | toggling an id's bio flips the bio flag of exactly the cards with that id and changes nothing else |
| TeacherList.ToggleSubjectsChangesOnlyThatCard | frontend/src/components/TeacherDirectory/TeacherList.jsx:77-83 | toggling an id's subject list flips the subject flag of exactly the cards with that id and changes nothing else |
| MapSection.TeacherPointsAreLocatableTutors | frontend/src/components/TeacherDirectory/LazyMapSection.jsx:78-86 | the teacher points are the positions of exactly the ranked tutors with two finite coordinates, in ranked order |
| MapSection.TeacherPoints | frontend/src/components/TeacherDirectory/LazyMapSection.jsx:78-86 | there is at most one teacher point per ranked tutor |
| MapSection.AllPoints | frontend/src/components/TeacherDirectory/LazyMapSection.jsx:88 | the fitted points start with the viewer and add at most one point per ranked tutor |
| MapSection.FitBoundsAlwaysFits | frontend/src/components/TeacherDirectory/LazyMapSection.jsx:66-88 | the points start with the viewer and number one more than the plottable tutors, so the empty-points early return never fires |
| MapSection.EveryFiniteTutorIsPlotted | frontend/src/components/TeacherDirectory/LazyMapSection.jsx:80-86 | when every coordinate is finite, every ranked tutor has a point |
| MapSection.Initials | frontend/src/components/TeacherDirectory/LazyMapSection.jsx:126-133 | an empty name gets "?"; otherwise the initials are at most two characters |
| MapSection.InitialsOfFirstTwoTokens | frontend/src/components/TeacherDirectory/LazyMapSection.jsx:126-133 | a non-empty name's initials are the uppercased first characters of its first two `split(" ")` tokens, an empty token contributing nothing |
| MapSection.InitialsOfOneWord | frontend/src/components/TeacherDirectory/LazyMapSection.jsx:126-133 | a one-word name such as "Sara" gets its first character, uppercased |
| MapSection.InitialsAfterLeadingSpace | frontend/src/components/TeacherDirectory/LazyMapSection.jsx:126-133 | " Ali" gets only "A": the leading space makes an empty first token |
| MapSection.InitialsAfterDoubleSpace | frontend/src/components/TeacherDirectory/LazyMapSection.jsx:126-133 | "Ali  Khan" gets only "A": the double space makes an empty second token |
| MapSection.InitialsStartWithFirstLetter | frontend/src/components/TeacherDirectory/LazyMapSection.jsx:126-133 | a name not starting with a space gets its first character, uppercased, as first initial |
| MapSection.InitialsOfTwoWords | frontend/src/components/TeacherDirectory/LazyMapSection.jsx:126-133 | "First Rest..." gets exactly the uppercased first characters of the first two words |
| MapSection.BlankNameHasNoInitials | frontend/src/components/TeacherDirectory/LazyMapSection.jsx:126-133 | a name of spaces only is truthy yet gets empty initials, because empty tokens contribute nothing |
| MapSection.MarkerColor | frontend/src/components/TeacherDirectory/LazyMapSection.jsx:135-140 | the colour is always a palette colour; it is the first subject's colour when that subject is one of the nine named ones, and "#FF5722" exactly when there is no subject or the first is unnamed |
| MapSection.MarkerFor | frontend/src/components/TeacherDirectory/LazyMapSection.jsx:121-146 | a tutor gets a marker iff both coordinates are finite, placed at its point, keyed by its id, coloured by `MarkerColor` of its subjects and labelled with its `Initials` |
| MapSection.Markers | frontend/src/components/TeacherDirectory/LazyMapSection.jsx:121-157 | there is at most one marker per ranked tutor, and every marker is the marker of some ranked tutor |
| MapSection.MarkersMatchPoints | frontend/src/components/TeacherDirectory/LazyMapSection.jsx:121-124 | the markers stand one for one, in order, at the teacher points, because both use the same finite check |
| MapSection.ShownTutorsAreOnTheMap | frontend/src/components/TeacherDirectory/LazyMapSection.jsx:121-157 | the markers come from the whole list the map section is given, not the list window: every tutor in the window with finite coordinates has a marker |
| Scenarios.ScenarioNoFilters | frontend/src/components/TeacherDirectory/TeacherDirectory.jsx:65-70 | Ali Khan at (31.5, 74.3), no filters, default viewer: one entry with squared distance (31.5-31.5204)^2 + (74.3-74.3587)^2 |
| Scenarios.ScenarioInitials | frontend/src/components/TeacherDirectory/LazyMapSection.jsx:126-133 | "Ali Khan" gets the initials "AK" |
| Scenarios.ScenarioColor | frontend/src/components/TeacherDirectory/LazyMapSection.jsx:17-28 | a Mathematics tutor's marker is "#1E88E5" |
| Scenarios.ScenarioUnknownCity | frontend/src/components/TeacherDirectory/TeacherList.jsx:23-35 | the city filter "Karachi" ranks nobody and the list shows "No tutors found" |
| Scenarios.ScenarioMalformedRecord | frontend/src/components/TeacherDirectory/TeacherDirectory.jsx:97-111 | {Name: "Sara", Verified: "No", Latitude: "abc"} is unverified, at the fallback coordinate, with the generated id |
| Scenarios.ScenarioLoadMore | frontend/src/components/TeacherDirectory/TeacherDirectory.jsx:223-228 | with 30 ranked tutors the window shows 12, then 24 (button shown both times), then all 30 (button gone) |

## Left out

- Fetching the tutors with axios, the error message and the `loading` wiring are I/O. Raw records and `loading` are inputs.
- Browser geolocation is a platform callback. The viewer location is a parameter, defaulting to `DefaultViewer`.
- The `Math.random()` id fallback is non-deterministic. The model takes the generated id as a parameter.
- `Number(string)` is a parameter. The string-to-number grammar (trimming, hex, exponents, "Infinity") is not modelled.
- Strings are sequences of Unicode scalar values, not UTF-16 code units. For a name starting with a character outside the Basic Multilingual Plane, such as an emoji, `n[0]` in JavaScript is a lone high surrogate; the model takes the whole character.
- `toLowerCase` and `toUpperCase` are per-character parameters. Mappings that change length, such as "ß" to "SS", are not modelled.
- Doubles are exact reals. Rounding and overflow to infinity of finite arithmetic are not modelled.
- Ranking.SquaredDistance: carries the square of the source's distance, because Dafny's reals have no square root; order and ties are the same.
- Raw fields of a type the code does not expect are not modelled: a non-string name, a non-array subject list, or a numeric id. Such values would flow through `||` unchanged. Ids are modelled as the strings that object keys become.
- Property names inherited from `Object.prototype`, such as a subject called "constructor", read as non-colours in `subjectColors` and as truthy flags in the toggle maps. This is not modelled.
- The `Array.isArray(t.subjects)` check always succeeds in the model, because subjects are always a sequence.
- `TeacherMapSection`, the component that hands `filtered` to the map (TeacherDirectory.jsx:186-192), is not part of this model. The model assumes it passes the list on unchanged; if it slices the list, fewer markers appear.
- Leaflet is a foreign library: icon setup, `createTeacherIcon` HTML, `latLngBounds(...).pad(0.18)` and `fitBounds`, the tile layer, the 20 km circle and the popups.
- MUI and JSX markup: the SEO copy, the hidden crawler heading and the card components.
- `AboutUs.jsx` is static page content with no logic.
