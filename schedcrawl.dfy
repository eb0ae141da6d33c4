/**
 * Network building of the main package (schedcrawl.go): route relations of
 * the topology query become lines whose stops are stations.
 */
module Schedcrawl {
  import opened Wrappers
  import opened Times
  import opened Overpass

  /** A service leaving `station` on `line`. */
  class Departure {
    var line: Line?
    var station: Station?
    var arrival: Option<Time>
    var departure: Option<Time>
  }

  /** One run of a train, stop by stop. */
  class Trip {
    var departures: seq<Departure>
  }

  /** The stopping position of one line. */
  class Station {
    const name: string
    var departures: seq<Departure>

    constructor (name: string)
      ensures this.name == name && departures == []
    {
      this.name := name;
      departures := [];
    }
  }

  /** A single direction of one line, with its stops in order. */
  class Line {
    const name: string
    var trips: seq<Trip>
    var stops: seq<Station>

    constructor (name: string)
      ensures this.name == name && trips == [] && stops == []
    {
      this.name := name;
      trips := [];
      stops := [];
    }
  }

  /** Stations by name, and the lines in the order they were built. */
  class Network {
    var stations: map<string, Station>
    var lines: seq<Line>

    /** The zero Network: no stations, no lines. */
    constructor ()
      ensures stations == map[] && lines == []
    {
      stations := map[];
      lines := [];
    }

    /**
     * The station registered under `name`, or else a new station of that
     * name with no departures. The new station is not registered.
     */
    method StationNamed(name: string) returns (station: Station)
      ensures name in stations ==> station == stations[name]
      ensures name !in stations ==> fresh(station) && station.name == name && station.departures == []
    {
      if name in stations {
        station := stations[name];
      } else {
        station := new Station(name);
      }
    }

    /**
     * One pass of buildNetwork's relation loop: a relation without a "ref"
     * is skipped; otherwise a new line named by its ref is appended to the
     * lines, then its stops are filled in. `visited` are the relations
     * before this one and `done` the stops built for them; `added` are the
     * new stops.
     */
    method AddRelation(relation: Relation, ghost visited: seq<Relation>, ghost done: seq<Station>)
      returns (ghost added: seq<Station>)
      requires StopsAreNodes(relation.members) && stations == map[]
      requires Built(lines, Skeleton(visited), done)
      modifies this
      ensures stations == map[]
      ensures Built(lines, Skeleton(visited + [relation]), done + added)
      ensures forall l :: l in lines ==> l in old(lines) || fresh(l)
      ensures forall s :: s in added ==> fresh(s)
    {
      SkeletonSnoc(visited, relation);
      var ref := Tag(relation.tags, "ref");
      if ref == "" {
        added := [];
        assert done + added == done;
        return;
      }
      var line := AddLine(ref, relation.members, Skeleton(visited), done);
      added := line.stops;
    }

    /**
     * A relation with designator `ref`: a new line named `ref` is appended
     * to the lines, then its stops are filled in. `specs` and `done`
     * describe the lines built so far and their stops.
     */
    method AddLine(ref: string, members: seq<Member>, ghost specs: seq<LineSpec>, ghost done: seq<Station>)
      returns (line: Line)
      requires StopsAreNodes(members) && stations == map[]
      requires Built(lines, specs, done)
      modifies this
      ensures fresh(line) && lines == old(lines) + [line] && stations == map[]
      ensures Built(lines, specs + [LineSpec(ref, StopNames(members))], done + line.stops)
      ensures forall s :: s in line.stops ==> fresh(s)
    {
      line := new Line(ref);
      ghost var before := lines;
      lines := lines + [line];
      AppendStops(line, members);
      assert Built(before, specs, done);
      BuiltSnoc(before, specs, done, line, LineSpec(ref, StopNames(members)));
    }

    /**
     * The member loop of buildNetwork (one relation): for every member whose
     * role is exactly "stop", look its name up in the registry or make a new
     * station, and append it to the line's stops.
     */
    method AppendStops(line: Line, members: seq<Member>)
      requires StopsAreNodes(members) && stations == map[] && line.stops == []
      modifies line
      ensures line.trips == old(line.trips)
      ensures Names(line.stops) == StopNames(members)
      ensures Distinct(line.stops)
      ensures forall s :: s in line.stops ==> fresh(s) && s.departures == []
    {
      for j := 0 to |members|
        invariant line.trips == old(line.trips)
        invariant Names(line.stops) == StopNames(members[..j])
        invariant Distinct(line.stops)
        invariant forall s :: s in line.stops ==> fresh(s) && s.departures == []
      {
        ghost var prefix := members[..j + 1];
        assert prefix[..j] == members[..j];
        var member := members[j];
        if member.role == "stop" {
          var name := Tag(member.node.value.tags, "name");
          var station := StationNamed(name);
          assert StopNames(prefix) == StopNames(members[..j]) + [name];
          NamesSnoc(line.stops, station);
          DistinctSnoc(line.stops, station);
          line.stops := line.stops + [station];
        } else {
          assert StopNames(prefix) == StopNames(members[..j]);
        }
      }
      assert members[..|members|] == members;
    }
  }

  /** The expected outcome for one relation: line name and stop names. */
  datatype LineSpec = LineSpec(name: string, stops: seq<string>)

  /** Every member whose role is "stop" is a node: its name is read. */
  predicate StopsAreNodes(members: seq<Member>) {
    forall j :: 0 <= j < |members| && members[j].role == "stop" ==> members[j].node.Some?
  }

  /**
   * The station name a stop member gives: its "name" tag, or "" when the tag
   * is missing. Building requires every stop member to be a node, so the
   * last case is never reached from BuildNetwork.
   */
  function StopName(m: Member): string {
    match m.node
    case Some(n) => Tag(n.tags, "name")
    case None => ""
  }

  /**
   * The names of the members whose role is exactly "stop", in member order;
   * every other role, "stop_exit_only" included, contributes nothing.
   */
  function StopNames(members: seq<Member>): (names: seq<string>)
    ensures |names| <= |members|
  {
    if members == [] then []
    else
      var front, last := members[..|members| - 1], members[|members| - 1];
      if last.role == "stop" then StopNames(front) + [StopName(last)] else StopNames(front)
  }

  /** The relation's line designator; a missing tag reads as "". */
  function Ref(r: Relation): string {
    Tag(r.tags, "ref")
  }

  /**
   * The lines network building yields for `relations`, in order: one per
   * relation with a non-empty "ref", never merged with an earlier line of the
   * same name.
   */
  function Skeleton(relations: seq<Relation>): (specs: seq<LineSpec>)
    ensures |specs| <= |relations|
    ensures forall k :: 0 <= k < |specs| ==> specs[k].name != ""
  {
    if relations == [] then []
    else
      var front, last := relations[..|relations| - 1], relations[|relations| - 1];
      if Ref(last) == "" then Skeleton(front)
      else Skeleton(front) + [LineSpec(Ref(last), StopNames(last.members))]
  }

  /** Members' stop names concatenate: the member loop keeps member order. */
  lemma {:induction false} StopNamesAppend(a: seq<Member>, b: seq<Member>)
    ensures StopNames(a + b) == StopNames(a) + StopNames(b)
  {
    if b == [] {
      assert a + b == a;
    } else {
      var front, last := b[..|b| - 1], b[|b| - 1];
      StopNamesAppend(a, front);
      assert (a + b)[..|a + b| - 1] == a + front && (a + b)[|a + b| - 1] == last;
      var added := if last.role == "stop" then [StopName(last)] else [];
      assert StopNames(b) == StopNames(front) + added;
      assert StopNames(a + b) == StopNames(a + front) + added;
    }
  }

  /**
   * A member whose role is not exactly "stop" ("stop_exit_only", say) adds
   * no stop, wherever it stands.
   */
  lemma NonStopMemberIsSkipped(a: seq<Member>, m: Member, b: seq<Member>)
    requires m.role != "stop"
    ensures StopNames(a + [m] + b) == StopNames(a + b)
  {
    StopNamesAppend(a, [m]);
    StopNamesAppend(a + [m], b);
    StopNamesAppend(a, b);
    assert [m][..0] == [];
  }

  /** The positions of the members whose role is exactly "stop". */
  ghost function StopPositions(members: seq<Member>): set<int> {
    set j | 0 <= j < |members| && members[j].role == "stop"
  }

  /** Dropping the last member keeps every other stop position. */
  lemma StopPositionsFront(members: seq<Member>)
    requires members != []
    ensures var n := |members| - 1;
      StopPositions(members) - {n} == StopPositions(members[..n])
  {
    var n := |members| - 1;
    var front := members[..n];
    forall j | j in StopPositions(front) ensures j in StopPositions(members) - {n} {
      assert front[j] == members[j];
    }
    forall j | j in StopPositions(members) - {n} ensures j in StopPositions(front) {
      assert front[j] == members[j];
    }
  }

  lemma StopPositionsSnoc(members: seq<Member>)
    requires members != []
    ensures var n := |members| - 1;
      |StopPositions(members)| == |StopPositions(members[..n])| + (if members[n].role == "stop" then 1 else 0)
  {
    var n := |members| - 1;
    var all := StopPositions(members);
    StopPositionsFront(members);
    if members[n].role == "stop" {
      assert n in all;
      assert all == (all - {n}) + {n};
    } else {
      assert all - {n} == all;
    }
  }

  /** One stop name per "stop" member, and only those. */
  lemma {:induction false} StopNamesCountsStopMembers(members: seq<Member>)
    ensures |StopNames(members)| == |StopPositions(members)|
  {
    if members != [] {
      StopNamesCountsStopMembers(members[..|members| - 1]);
      StopPositionsSnoc(members);
    }
  }

  /** Skeletons concatenate: lines follow relation order and none is reused. */
  lemma {:induction false} SkeletonAppend(a: seq<Relation>, b: seq<Relation>)
    ensures Skeleton(a + b) == Skeleton(a) + Skeleton(b)
  {
    if b == [] {
      assert a + b == a;
    } else {
      var front, last := b[..|b| - 1], b[|b| - 1];
      SkeletonAppend(a, front);
      assert (a + b)[..|a + b| - 1] == a + front && (a + b)[|a + b| - 1] == last;
      var added := if Ref(last) == "" then [] else [LineSpec(Ref(last), StopNames(last.members))];
      assert Skeleton(b) == Skeleton(front) + added;
      assert Skeleton(a + b) == Skeleton(a + front) + added;
    }
  }

  /**
   * The relation at index i with a non-empty "ref" yields the line after
   * those of the relations before it: named by its ref, with its stop names.
   */
  lemma SkeletonAt(relations: seq<Relation>, i: nat)
    requires i < |relations| && Ref(relations[i]) != ""
    ensures var k := |Skeleton(relations[..i])|;
      k < |Skeleton(relations)| && Skeleton(relations)[k] == LineSpec(Ref(relations[i]), StopNames(relations[i].members))
  {
    var before, at, after := relations[..i], [relations[i]], relations[i + 1..];
    assert relations == before + at + after;
    SkeletonAppend(before, at);
    SkeletonAppend(before + at, after);
    assert Skeleton(at) == [LineSpec(Ref(relations[i]), StopNames(relations[i].members))] by {
      assert at[..0] == [];
    }
  }

  /** A relation without a "ref" (or with an empty one) yields no line. */
  lemma UnnamedRelationIsSkipped(a: seq<Relation>, r: Relation, b: seq<Relation>)
    requires Ref(r) == ""
    ensures Skeleton(a + [r] + b) == Skeleton(a + b)
  {
    SkeletonAppend(a, [r]);
    SkeletonAppend(a + [r], b);
    SkeletonAppend(a, b);
    assert [r][..0] == [];
  }

  /** The outer loop's step: one more relation adds its line when it has a ref. */
  lemma SkeletonSnoc(visited: seq<Relation>, r: Relation)
    ensures Skeleton(visited + [r]) == Skeleton(visited) +
      (if Ref(r) == "" then [] else [LineSpec(Ref(r), StopNames(r.members))])
  {
    assert (visited + [r])[..|visited|] == visited;
  }

  /** The positions of the relations with a non-empty "ref". */
  ghost function NamedPositions(relations: seq<Relation>): set<int> {
    set i | 0 <= i < |relations| && Ref(relations[i]) != ""
  }

  /** Dropping the last relation keeps every other named position. */
  lemma NamedPositionsFront(relations: seq<Relation>)
    requires relations != []
    ensures var n := |relations| - 1;
      NamedPositions(relations) - {n} == NamedPositions(relations[..n])
  {
    var n := |relations| - 1;
    var front := relations[..n];
    forall i | i in NamedPositions(front) ensures i in NamedPositions(relations) - {n} {
      assert front[i] == relations[i];
    }
    forall i | i in NamedPositions(relations) - {n} ensures i in NamedPositions(front) {
      assert front[i] == relations[i];
    }
  }

  lemma NamedPositionsSnoc(relations: seq<Relation>)
    requires relations != []
    ensures var n := |relations| - 1;
      |NamedPositions(relations)| == |NamedPositions(relations[..n])| + (if Ref(relations[n]) != "" then 1 else 0)
  {
    var n := |relations| - 1;
    var named := NamedPositions(relations);
    NamedPositionsFront(relations);
    if Ref(relations[n]) != "" {
      assert n in named;
      assert named == (named - {n}) + {n};
    } else {
      assert named - {n} == named;
    }
  }

  /** As many lines as relations with a non-empty "ref": same names are not merged. */
  lemma {:induction false} SkeletonCountsNamedRelations(relations: seq<Relation>)
    ensures |Skeleton(relations)| == |NamedPositions(relations)|
  {
    if relations != [] {
      SkeletonCountsNamedRelations(relations[..|relations| - 1]);
      NamedPositionsSnoc(relations);
    }
  }

  /** Station names, in order. */
  function Names(stations: seq<Station>): seq<string> {
    if stations == [] then []
    else Names(stations[..|stations| - 1]) + [stations[|stations| - 1].name]
  }

  /** What the lines are: each one's name and its stops' names, in order. */
  ghost function Shape(lines: seq<Line>): seq<LineSpec>
    reads lines
  {
    if lines == [] then []
    else
      var last := lines[|lines| - 1];
      Shape(lines[..|lines| - 1]) + [LineSpec(last.name, Names(last.stops))]
  }

  /** Line k of the shape is line k's name and stop names. */
  lemma {:induction false} ShapeAt(lines: seq<Line>, k: nat)
    requires k < |lines|
    ensures |Shape(lines)| == |lines|
    ensures Shape(lines)[k] == LineSpec(lines[k].name, Names(lines[k].stops))
  {
    var n := |lines| - 1;
    if k < n {
      ShapeAt(lines[..n], k);
    } else if n > 0 {
      ShapeAt(lines[..n], n - 1);
    }
  }

  /** The stops of all lines, line after line. */
  ghost function AllStops(lines: seq<Line>): seq<Station>
    reads lines
  {
    if lines == [] then [] else AllStops(lines[..|lines| - 1]) + lines[|lines| - 1].stops
  }

  ghost predicate Distinct<T>(s: seq<T>) {
    forall i, j :: 0 <= i < j < |s| ==> s[i] != s[j]
  }

  /**
   * What building has achieved so far: the lines realise `specs`, are
   * distinct and have no trips; `done` is all their stops, which are
   * distinct stations with no departures.
   */
  ghost predicate Built(lines: seq<Line>, specs: seq<LineSpec>, done: seq<Station>)
    reads lines, done
  {
    && Shape(lines) == specs
    && Distinct(lines) && (forall l :: l in lines ==> l.trips == [])
    && done == AllStops(lines)
    && Distinct(done) && (forall s :: s in done ==> s.departures == [])
  }

  lemma DistinctSnoc<T>(s: seq<T>, x: T)
    requires Distinct(s) && x !in s
    ensures Distinct(s + [x])
  {
  }

  lemma DistinctConcat<T>(a: seq<T>, b: seq<T>)
    requires Distinct(a) && Distinct(b) && forall x :: x in b ==> x !in a
    ensures Distinct(a + b)
  {
    forall i, j | 0 <= i < j < |a + b|
      ensures (a + b)[i] != (a + b)[j]
    {
      if j < |a| {
      } else if i < |a| {
        assert (a + b)[j] in b;
      } else {
        assert (a + b)[i] == b[i - |a|] && (a + b)[j] == b[j - |a|];
      }
    }
  }

  lemma NamesSnoc(stations: seq<Station>, station: Station)
    ensures Names(stations + [station]) == Names(stations) + [station.name]
  {
    assert (stations + [station])[..|stations|] == stations;
  }

  lemma ShapeSnoc(lines: seq<Line>, line: Line)
    ensures Shape(lines + [line]) == Shape(lines) + [LineSpec(line.name, Names(line.stops))]
  {
    assert (lines + [line])[..|lines|] == lines;
  }

  lemma AllStopsSnoc(lines: seq<Line>, line: Line)
    ensures AllStops(lines + [line]) == AllStops(lines) + line.stops
  {
    assert (lines + [line])[..|lines|] == lines;
  }

  /** Appending a new line with new, distinct stops extends what is built. */
  lemma BuiltSnoc(lines: seq<Line>, specs: seq<LineSpec>, done: seq<Station>, line: Line, spec: LineSpec)
    requires Built(lines, specs, done)
    requires line !in lines && line.trips == []
    requires line.name == spec.name && Names(line.stops) == spec.stops
    requires Distinct(line.stops) && forall s :: s in line.stops ==> s !in done && s.departures == []
    ensures Built(lines + [line], specs + [spec], done + line.stops)
  {
    DistinctSnoc(lines, line);
    DistinctConcat(done, line.stops);
    ShapeSnoc(lines, line);
    AllStopsSnoc(lines, line);
  }

  lemma PrefixSnoc<T>(s: seq<T>, i: nat)
    requires i < |s|
    ensures s[..i + 1] == s[..i] + [s[i]]
  {
  }

  /** Every relation's stop members are nodes. */
  predicate AllStopsAreNodes(relations: seq<Relation>) {
    forall i :: 0 <= i < |relations| ==> StopsAreNodes(relations[i].members)
  }

  /**
   * buildNetwork: one new line per relation with a non-empty "ref", in
   * relation order, whose stops are one new station per "stop" member. The
   * station registry is only read, never written, so it stays empty and no
   * station is shared, even between stops of the same name.
   */
  method BuildNetwork(relations: seq<Relation>) returns (net: Network)
    requires AllStopsAreNodes(relations)
    ensures fresh(net) && net.stations == map[]
    ensures Shape(net.lines) == Skeleton(relations)
    ensures Distinct(net.lines) && forall l :: l in net.lines ==> fresh(l) && l.trips == []
    ensures Distinct(AllStops(net.lines))
    ensures forall s :: s in AllStops(net.lines) ==> fresh(s) && s.departures == []
  {
    net := new Network();
    ghost var done: seq<Station> := [];
    for i := 0 to |relations|
      invariant fresh(net) && net.stations == map[]
      invariant Built(net.lines, Skeleton(relations[..i]), done)
      invariant fresh(set l | l in net.lines) && fresh(set s | s in done)
    {
      ghost var added := net.AddRelation(relations[i], relations[..i], done);
      PrefixSnoc(relations, i);
      done := done + added;
    }
    assert relations[..|relations|] == relations;
  }
}
