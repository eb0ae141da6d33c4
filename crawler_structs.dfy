/**
 * The network entities of the crawler package (crawler/structs.go): the
 * departure lookup the crawler deduplicates with, and the terminus test.
 * Stations and lines are objects, so "the same line" and "the same
 * destination" mean the same reference, as with Go pointers.
 */
module CrawlerStructs {
  import opened Wrappers
  import opened Times

  /** A service leaving `station` on `line` towards `destination`. */
  class Departure {
    var line: Line?
    var station: Station?
    var destination: Station?
    var arrival: Option<Time>
    var departure: Option<Time>
  }

  /** One run of a train across the network, stop by stop. */
  class Trip {
    var departures: seq<Departure>
  }

  /** The error GetDeparture reports: "Station doesn't have matching departure". */
  datatype LookupError = NoMatchingDeparture

  /**
   * The deduplication key: same line object, same destination object and the
   * same departure instant.
   */
  ghost predicate KeyMatches(d: Departure, t: Time, line: Line?, destination: Station?)
    reads d
  {
    d.line == line && d.destination == destination && d.departure == Some(t)
  }

  /** The index of the first departure of `ds` with the key, if there is one. */
  ghost function FirstMatch(ds: seq<Departure>, t: Time, line: Line?, destination: Station?): (r: Option<nat>)
    reads ds
    ensures r.Some? ==> r.value < |ds| && KeyMatches(ds[r.value], t, line, destination)
    ensures r.Some? ==> forall j :: 0 <= j < r.value ==> !KeyMatches(ds[j], t, line, destination)
    ensures r.None? <==> forall j :: 0 <= j < |ds| ==> !KeyMatches(ds[j], t, line, destination)
  {
    if ds == [] then None
    else if KeyMatches(ds[0], t, line, destination) then Some(0)
    else match FirstMatch(ds[1..], t, line, destination)
      case None => None
      case Some(k) => Some(k + 1)
  }

  /**
   * The scan stops at the first match; until then, every departure whose line
   * and destination match has its time dereferenced, so it must not be nil.
   */
  ghost predicate ScanIsSafe(ds: seq<Departure>, t: Time, line: Line?, destination: Station?)
    reads ds
  {
    var scanned := match FirstMatch(ds, t, line, destination)
      case Some(k) => k
      case None => |ds|;
    forall i :: 0 <= i < scanned && ds[i].line == line && ds[i].destination == destination ==>
      ds[i].departure.Some?
  }

  /** No two departures of a station share the deduplication key. */
  ghost predicate KeysUnique(ds: seq<Departure>)
    reads ds
  {
    forall i, j :: 0 <= i < j < |ds| && ds[i].departure.Some? ==>
      !KeyMatches(ds[j], ds[i].departure.value, ds[i].line, ds[i].destination)
  }

  /** While keys are unique, the first departure with a key is the only one. */
  lemma FirstMatchIsOnlyMatch(ds: seq<Departure>, t: Time, line: Line?, destination: Station?, i: nat)
    requires KeysUnique(ds) && i < |ds| && KeyMatches(ds[i], t, line, destination)
    ensures FirstMatch(ds, t, line, destination) == Some(i)
  {
  }

  /**
   * The crawler's check-then-insert: appending a departure whose key the
   * lookup does not find keeps the station's keys unique.
   */
  lemma AppendUnmatchedKeepsKeysUnique(ds: seq<Departure>, d: Departure)
    requires KeysUnique(ds) && d.departure.Some?
    requires FirstMatch(ds, d.departure.value, d.line, d.destination).None?
    ensures KeysUnique(ds + [d])
  {
  }

  /** A stopping place served by several lines, with the departures seen there. */
  class Station {
    const name: string
    var id: Option<int>
    var departures: seq<Departure>

    constructor (name: string)
      ensures this.name == name && id == None && departures == []
    {
      this.name := name;
      id := None;
      departures := [];
    }

    /**
     * GetDeparture: the first departure of this station on `line` towards
     * `destination` at `departureTime`, or an error when there is none.
     */
    method GetDeparture(departureTime: Time, line: Line?, destination: Station?)
      returns (r: Result<Departure, LookupError>)
      requires ScanIsSafe(departures, departureTime, line, destination)
      ensures r.Ok? <==> exists i :: 0 <= i < |departures| && KeyMatches(departures[i], departureTime, line, destination)
      ensures r.Ok? ==> exists i :: (
          && 0 <= i < |departures| && departures[i] == r.value
          && KeyMatches(r.value, departureTime, line, destination)
          && forall j :: 0 <= j < i ==> !KeyMatches(departures[j], departureTime, line, destination))
      ensures r == match FirstMatch(departures, departureTime, line, destination)
        case Some(k) => Ok(departures[k])
        case None => Err(NoMatchingDeparture)
    {
      var i := 0;
      while i < |departures|
        invariant 0 <= i <= |departures|
        invariant forall j :: 0 <= j < i ==> !KeyMatches(departures[j], departureTime, line, destination)
      {
        var dept := departures[i];
        if dept.line == line && dept.destination == destination && dept.departure.value == departureTime {
          return Ok(dept);
        }
        i := i + 1;
      }
      return Err(NoMatchingDeparture);
    }

    /**
     * HasDeparture: whether this station already holds a departure with the
     * key, i.e. whether GetDeparture succeeds.
     */
    method HasDeparture(departureTime: Time, line: Line?, destination: Station?) returns (b: bool)
      requires ScanIsSafe(departures, departureTime, line, destination)
      ensures b <==> exists i :: 0 <= i < |departures| && KeyMatches(departures[i], departureTime, line, destination)
      ensures b <==> FirstMatch(departures, departureTime, line, destination).Some?
    {
      var r := GetDeparture(departureTime, line, destination);
      b := r.Ok?;
    }
  }

  /** A line, its trips in both directions, and its stops in order. */
  class Line {
    const name: string
    var trips: seq<Trip>
    var stops: seq<Station>

    constructor (name: string)
      ensures this.name == name && trips == [] && stops == []
    {
      this.name := name;
      trips := [];
      stops := [];
    }

    /**
     * IsTerminus: whether `station` is the first or the last stop. The line
     * named "U" (trains without a line number) has no terminus; any other
     * line must have a stop, since the first one is read.
     */
    function IsTerminus(station: Station?): (r: bool)
      reads this
      requires name == "U" || |stops| > 0
      ensures name == "U" ==> !r
      ensures name != "U" ==> (r <==> station == stops[0] || station == stops[|stops| - 1])
      ensures r ==> station in stops
    {
      if name == "U" then false
      else station == stops[0] || station == stops[|stops| - 1]
    }
  }

  /** The line travelled the other way round has the same termini. */
  lemma ReversedLineHasSameTermini(a: Line, b: Line, station: Station?)
    requires a.name == b.name && |a.stops| > 0
    requires |b.stops| == |a.stops| && forall i :: 0 <= i < |a.stops| ==> b.stops[i] == a.stops[|a.stops| - 1 - i]
    ensures a.IsTerminus(station) == b.IsTerminus(station)
  {
  }

  /** The whole network: stations by name, and the lines. */
  class Network {
    var stations: map<string, Station>
    var lines: seq<Line>

    constructor ()
      ensures stations == map[] && lines == []
    {
      stations := map[];
      lines := [];
    }
  }
}
