# mvg_schedule_crawl network skeleton, in Dafny

This project models the deterministic core of a transit-network crawler. The crawler builds lines and stations from a
topology query (route relations of an OpenStreetMap-style service). It then fills stations with departures from a
timetable provider (goefa). The model covers the following:

- **Departure lookup and terminus test** (`crawler/structs.go`, module `CrawlerStructs`). Stations, lines,
  departures and trips are classes, so "the same line" and "the same destination" mean the same object, as with
  Go pointers. `GetDeparture` is a linear search with early return. Its key is the line reference, the
  destination reference and the departure time. `HasDeparture` says whether that search succeeds.
  `IsTerminus` tests for the first or last stop. The line named `"U"` (trains without a line number) has no
  terminus.
- **Time and filter helpers** (`crawler/util.go`, module `CrawlerUtil`; `util.go`, module `MainUtil`).
  `getTimeAtDate` and `getTimeToday` put a time of day onto another calendar day. Timestamps are integer records
  (year, month, day, hour, minute, second, nanosecond) restricted to valid calendar values (module `Times`). The
  result of `time.Now()` is a parameter. Whether `time.LoadLocation("Local")` succeeds is a boolean parameter.
  `filterLinesByMOT` keeps the serving lines of one mode of transport in order. Both packages have a copy of it.
  Both copies are loops proved against the single specification `Efa.MotFiltered`.
- **Topology ingestion** (`schedcrawl.go`, `buildNetwork`, module `Schedcrawl`). Relations (tags and ordered
  members, module `Overpass`) become an ordered list of fresh lines. Each line gets one fresh station per member
  whose role is exactly `"stop"`. The specification function `Skeleton` gives the expected line names and stop
  names. `BuildNetwork` is proved to produce exactly that shape, with all lines and all stations distinct objects.

Two behaviours of the code that its structure does not suggest at first sight; the model follows the code:

- `buildNetwork` looks each stop name up in the station registry (schedcrawl.go:76-79) but never adds a station
  to it (schedcrawl.go:80-83). The registry stays empty, the lookup always misses, and two stops with the same name
  get two different stations. This agrees with the main package's comment on `Station`, "stopping position of one
  individual line" (schedcrawl.go:42). The crawler package's `Station` is commented as a station for multiple
  lines (crawler/structs.go:22).
- The topology query selects the stop nodes of role `stop` and of role `stop_exit_only` (schedcrawl.go:20-21), but
  `buildNetwork` turns only members of role exactly `"stop"` into stops (schedcrawl.go:73).

## Model

| member | source | states |
|---|---|---|
| CrawlerStructs.FirstMatch | crawler/structs.go:42-50 | the index found is in range, its departure has the same line reference, the same destination reference and the same time, and no earlier departure does; there is no index exactly when no departure matches |
| CrawlerStructs.Station.GetDeparture | crawler/structs.go:41-51 | succeeds exactly when some departure of the station matches all three fields, and then returns the first match in list order; otherwise reports "no matching departure"; changes nothing; callable whenever every departure scanned before the first match that has the same line and destination has a time |
| CrawlerStructs.Station.HasDeparture | crawler/structs.go:32-38 | true exactly when a departure with the key exists, i.e. exactly when GetDeparture succeeds |
| CrawlerStructs.FirstMatchIsOnlyMatch | crawler/structs.go:41-51 | when no two departures share a key, the departure the lookup returns is the only one with that key |
| CrawlerStructs.AppendUnmatchedKeepsKeysUnique | crawler/structs.go:31-38 | appending a departure whose key the lookup does not find keeps every key unique at the station |
| CrawlerStructs.Line.IsTerminus | crawler/structs.go:61-71 | false for the line named "U" whatever the station; for any other line, which must have a stop, true exactly when the station is the first or the last stop; a terminus is always one of the stops |
| CrawlerStructs.ReversedLineHasSameTermini | crawler/structs.go:66-70 | the same line with its stops in reverse order has the same termini |
| CrawlerUtil.GetTimeAtDate | crawler/util.go:8-20 | fails exactly when the local zone cannot be loaded; otherwise the result has the date's year, month and day, the old time's hour, minute and second, and no nanoseconds |
| CrawlerUtil.AnchoredTimeIsUnique | crawler/util.go:15-19 | any time with that date, that clock reading and zero nanoseconds is the result: the contract determines it |
| CrawlerUtil.AnchoringIsIdempotent | crawler/util.go:15-19 | putting the result onto the same date again changes nothing; putting a time onto its own date gives it back exactly when it has no nanoseconds |
| CrawlerUtil.FilterLinesByMot | crawler/util.go:22-31 | the loop's result is MotFiltered of the input: only input lines, all of the requested mode |
| MainUtil.GetTimeToday | util.go:8-21 | fails exactly when the local zone cannot be loaded; otherwise the result has the given now's year, month and day, the old time's hour, minute and second, and no nanoseconds |
| MainUtil.TodayIsAnchoringOnNow | util.go:16-19 | getTimeToday gives the same result as the crawler's getTimeAtDate with now as the date |
| MainUtil.FilterLinesByMot | util.go:23-32 | the loop's result is MotFiltered of the input and is no longer than it |
| Efa.MotFiltered | crawler/util.go:25-29 | no longer than the input; every element is an input element whose mode is the requested one |
| Efa.MatchingPositions | util.go:26-30 | increasing indices of the input; an index is listed exactly when its element has the requested mode |
| Efa.MotFilteredSelectsMatching | crawler/util.go:22-31 | the filtered list's k-th element is the input element at the k-th matching index: exactly the matching elements, in input order |
| Efa.MotFilteredAppend | util.go:26-30 | filtering a concatenation concatenates the filtered parts (order is kept) |
| Efa.MotFilteredKeepsMatchingList | crawler/util.go:25-29 | a list whose lines all have the requested mode passes unchanged |
| Efa.MotFilteredIdempotent | util.go:23-32 | filtering twice by the same mode equals filtering once |
| Schedcrawl.StopNames | schedcrawl.go:72-85 | at most one stop name per member |
| Schedcrawl.StopNamesAppend | schedcrawl.go:72-85 | stop names of concatenated member lists concatenate: stops keep member order |
| Schedcrawl.NonStopMemberIsSkipped | schedcrawl.go:73 | a member whose role is not exactly "stop" (such as "stop_exit_only") adds no stop wherever it stands |
| Schedcrawl.StopNamesCountsStopMembers | schedcrawl.go:72-85 | a line has exactly as many stops as its relation has members with role "stop" |
| Schedcrawl.Skeleton | schedcrawl.go:64-71 | at most one line per relation, and no line has an empty name |
| Schedcrawl.SkeletonAppend | schedcrawl.go:64-71 | lines of concatenated relation lists concatenate: lines follow relation order and an earlier line of the same name is never reused |
| Schedcrawl.SkeletonAt | schedcrawl.go:64-86 | a relation with a non-empty ref yields, right after the lines of the relations before it, a line named by its ref whose stops are its "stop" members' names |
| Schedcrawl.UnnamedRelationIsSkipped | schedcrawl.go:65-68 | a relation whose "ref" tag is missing or empty yields no line wherever it stands |
| Schedcrawl.NamedPositionsSnoc | schedcrawl.go:65-68 | one more relation adds one named position exactly when its ref is non-empty |
| Schedcrawl.SkeletonCountsNamedRelations | schedcrawl.go:64-71 | the number of lines equals the number of relations with a non-empty ref |
| Schedcrawl.Network.constructor | schedcrawl.go:63 | the zero network has no stations and no lines |
| Schedcrawl.Station.constructor | schedcrawl.go:81 | the literal `Station{Name: name}`: a station with that name and no departures |
| Schedcrawl.Line.constructor | schedcrawl.go:70 | the literal `Line{Name: ref}`: a line with that name, no trips and no stops |
| Schedcrawl.Network.StationNamed | schedcrawl.go:76-83 | a registered name gives the registered station; any other name gives a new station of that name with no departures |
| Schedcrawl.Network.AddRelation | schedcrawl.go:64-86 | one pass of the relation loop: the lines and stops built so far grow to those Skeleton gives for one more relation; every line added is new, every stop added is new, and the registry stays empty |
| Schedcrawl.Network.AddLine | schedcrawl.go:70-86 | a new line named by the ref is appended to the lines and gets its stops; the registry stays empty |
| Schedcrawl.Network.AppendStops | schedcrawl.go:72-86 | the line's stop names are the "stop" members' names in order; the stops are new, pairwise distinct stations with no departures |
| Schedcrawl.BuildNetwork | schedcrawl.go:62-89 | the lines have exactly the names and stop names Skeleton gives, in relation order (line k's name and stop names are entry k of Skeleton, by ShapeAt); the registry stays empty; all lines are new and distinct with no trips; every stop is a new station with no departures, and no station is shared between stops, even when names repeat |

## Left out

- CrawlAllDepartures, printNetwork and main (schedcrawl.go:91-157), and the topology query text (schedcrawl.go:11-28): timetable-provider network calls, logging and standard output.
- generate_json.go, generate_gtfs.go and stats.py: JSON output, file writing, an entry point over an external feed library, and a reporting script.
- The crawler's `Crawl`, station resolution, trip building and departure crawl loop are not part of this model. Their source is not among the modelled files.
- CrawlerUtil.GetTimeAtDate: does not model time zones. Go's `time.Date` may move a clock reading that falls in a daylight-saving gap of the local zone. The model always keeps the requested hour, minute and second.
- MainUtil.GetTimeToday: the same zone simplification as GetTimeAtDate. `time.Now()` is the parameter `now`, and the loading of the local zone is a success flag.
- CrawlerStructs.Station.GetDeparture: `Equal` compares instants. The model compares wall-clock readings, because zones are not modelled.
- Nil elements in slices: departure lists, stop lists and serving-line lists hold non-null objects or values in the model. In Go a nil element would crash the loop that reads it.
- Nil versus empty slices and maps: a fresh station's departures and a fresh line's trips and stops are nil in Go. They are the empty sequence here. An empty filter result is an empty sequence; Go's is an empty non-nil slice.
- Station coordinates (Lat, Lng), the network's timetable-provider handle and the station's numeric id: nothing in the modelled code reads them. The id is kept as a field that starts empty.
- Names of stations and lines are `const`. They are set when the object is made, and no modelled code assigns them again.
- The serving-line records of the two packages come from two versions of the timetable client library. Both are modelled as one record type of which only the mode-of-transport code is read.
- Schedcrawl.BuildNetwork requires every member with role "stop" to be a node, because Go dereferences its node and would crash otherwise. The specification function StopName gives "" for a member without a node, a case BuildNetwork never reaches.
- Schedcrawl.BuildNetwork: relations are a sequence, in the order the loop visits them. The topology library's container and its iteration order are not part of this model. One pass of the relation loop, the creation of a line and the member loop are written as the helpers AddRelation, AddLine and AppendStops. The registry lookup is written as StationNamed.
