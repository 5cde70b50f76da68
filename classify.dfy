/**
 * The competitor classifier: for every event of a competition, the accepted
 * competitors whose personal best in that event is ranked within the
 * double-check thresholds, and a flat list of "borderline" competitors
 * whose world average ranking is 51 to 100.
 *
 * `Judge` is the decision table for one personal best; `TableOf` and
 * `BorderlinesOf` describe the two outputs over a whole document. The three
 * nested loops of the original are the methods `FindTopCompetitors` (events),
 * `ScanPersons` (persons) and `ScanPersonalBests` (personal bests); the
 * branch chain, with its duplicated first branches, is `RankPersonalBest`.
 * Each is proved to produce exactly what the specification functions say.
 */
module Classify {
  import opened Wrappers
  import opened Wcif

  const Single: string := "single"
  const Average: string := "average"

  /** Which ranking made a personal best qualify. */
  datatype Scope = World | National

  /** The `rank_type` text: "World" or "National". */
  function RankTypeLabel(s: Scope): string {
    match s
    case World => "World"
    case National => "National"
  }

  /** The `qualifier` text: "WR" or "NR". */
  function QualifierLabel(s: Scope): string {
    match s
    case World => "WR"
    case National => "NR"
  }

  /** One qualifying competitor in an event's list. */
  datatype Entry = Entry(
    eventId: string,
    name: string,
    wcaId: string,
    kind: string,
    rankingValue: int,
    rankType: string,
    qualifier: string,
    best: Option<int>)

  /** One borderline competitor; the ranking value is always the world ranking. */
  datatype BorderlineEntry = BorderlineEntry(
    eventId: string,
    eventName: string,
    name: string,
    wcaId: string,
    rankingValue: int,
    best: Option<int>)

  /** What one personal best amounts to. */
  datatype Verdict = Qualified(scope: Scope, value: int) | Borderline(value: int) | Unranked

  /** `ranking <= bound`, where a missing (unbounded) ranking never passes. */
  predicate Within(ranking: Option<int>, bound: int) {
    ranking.Some? && ranking.value <= bound
  }

  /** A best of 0 (or missing), or a ranking of 0, marks a record without valid data. */
  predicate IsSentinel(pb: PersonalBest) {
    pb.best.GetOr(0) == 0 || pb.worldRanking == Some(0) || pb.nationalRanking == Some(0)
  }

  predicate IsRankedKind(kind: Option<string>) {
    kind == Some(Single) || kind == Some(Average)
  }

  /** The qualifying bound: 100 world / 30 national for singles, 50 / 15 for averages. */
  function Threshold(kind: string, scope: Scope): int {
    if kind == Single then (if scope == World then 100 else 30)
    else (if scope == World then 50 else 15)
  }

  /**
   * The decision table for one personal best of the event being scanned: the
   * world test alone decides World; the national test decides National only
   * when the world test fails; an average that fails both is borderline when
   * its world ranking is 51 to 100.
   */
  function Judge(pb: PersonalBest): (v: Verdict)
    ensures !v.Unranked? ==> !IsSentinel(pb) && IsRankedKind(pb.kind)
    ensures v.Qualified? && v.scope == World ==> pb.worldRanking == Some(v.value)
    ensures v.Qualified? && v.scope == National ==> pb.nationalRanking == Some(v.value)
    ensures v.Qualified? ==> v.value <= Threshold(pb.kind.value, v.scope)
    ensures !IsSentinel(pb) && IsRankedKind(pb.kind) ==>
              (v.Qualified? && v.scope == World <==> Within(pb.worldRanking, Threshold(pb.kind.value, World)))
    ensures !IsSentinel(pb) && IsRankedKind(pb.kind) ==>
              (v.Qualified? && v.scope == National <==>
                 !Within(pb.worldRanking, Threshold(pb.kind.value, World)) &&
                 Within(pb.nationalRanking, Threshold(pb.kind.value, National)))
    ensures v.Borderline? <==>
              !IsSentinel(pb) && pb.kind == Some(Average) && !Within(pb.nationalRanking, 15) &&
              pb.worldRanking.Some? && 51 <= pb.worldRanking.value <= 100
    ensures v.Borderline? ==> pb.worldRanking == Some(v.value)
  {
    if IsSentinel(pb) then Unranked
    else
      var wr, nr := pb.worldRanking, pb.nationalRanking;
      if pb.kind == Some(Single) then
        if Within(wr, 100) then Qualified(World, wr.value)
        else if Within(nr, 30) then Qualified(National, nr.value)
        else Unranked
      else if pb.kind == Some(Average) then
        if Within(wr, 50) then Qualified(World, wr.value)
        else if Within(nr, 15) then Qualified(National, nr.value)
        else if wr.Some? && 51 <= wr.value <= 100 then Borderline(wr.value)
        else Unranked
      else Unranked
  }

  function EntryOf(e: Event, p: Person, pb: PersonalBest, scope: Scope, value: int): Entry
    requires pb.kind.Some?
  {
    Entry(e.id, NameOf(p), WcaIdOf(p), pb.kind.value, value, RankTypeLabel(scope), QualifierLabel(scope), pb.best)
  }

  function BorderlineOf(e: Event, p: Person, pb: PersonalBest, value: int): BorderlineEntry {
    BorderlineEntry(e.id, DisplayName(e), NameOf(p), WcaIdOf(p), value, pb.best)
  }

  /** The qualifying entry (if any) that personal best `pb` of person `p` adds to event `e`. */
  function TopsOf(e: Event, p: Person, pb: PersonalBest): seq<Entry> {
    if pb.eventId != Some(e.id) then []
    else match Judge(pb)
      case Qualified(s, v) => [EntryOf(e, p, pb, s, v)]
      case _ => []
  }

  /** The borderline entry (if any) that personal best `pb` of person `p` adds for event `e`. */
  function BordersOf(e: Event, p: Person, pb: PersonalBest): seq<BorderlineEntry> {
    if pb.eventId != Some(e.id) then []
    else match Judge(pb)
      case Borderline(v) => [BorderlineOf(e, p, pb, v)]
      case _ => []
  }

  function PbTops(e: Event, p: Person, pbs: seq<PersonalBest>): seq<Entry>
    decreases |pbs|
  {
    if pbs == [] then [] else PbTops(e, p, pbs[..|pbs| - 1]) + TopsOf(e, p, pbs[|pbs| - 1])
  }

  function PbBorders(e: Event, p: Person, pbs: seq<PersonalBest>): seq<BorderlineEntry>
    decreases |pbs|
  {
    if pbs == [] then [] else PbBorders(e, p, pbs[..|pbs| - 1]) + BordersOf(e, p, pbs[|pbs| - 1])
  }

  function PersonTops(e: Event, p: Person): seq<Entry> {
    if IsAccepted(p) then PbTops(e, p, BestsOf(p)) else []
  }

  function PersonBorders(e: Event, p: Person): seq<BorderlineEntry> {
    if IsAccepted(p) then PbBorders(e, p, BestsOf(p)) else []
  }

  /** Event `e`'s qualifying list: person order, then personal-best order within a person. */
  function EventTops(e: Event, persons: seq<Person>): seq<Entry>
    decreases |persons|
  {
    if persons == [] then []
    else EventTops(e, persons[..|persons| - 1]) + PersonTops(e, persons[|persons| - 1])
  }

  function EventBorders(e: Event, persons: seq<Person>): seq<BorderlineEntry>
    decreases |persons|
  {
    if persons == [] then []
    else EventBorders(e, persons[..|persons| - 1]) + PersonBorders(e, persons[|persons| - 1])
  }

  /** The borderline list: flat across events, in event order. */
  function BorderlinesOf(events: seq<Event>, persons: seq<Person>): seq<BorderlineEntry>
    decreases |events|
  {
    if events == [] then []
    else BorderlinesOf(events[..|events| - 1], persons) + EventBorders(events[|events| - 1], persons)
  }

  /**
   * A Python dict from event display name to list: `keys` in insertion order,
   * `lists` the contents.
   */
  datatype EventTable = EventTable(keys: seq<string>, lists: map<string, seq<Entry>>)

  ghost predicate WellFormed(t: EventTable) {
    && (forall i, j :: 0 <= i < j < |t.keys| ==> t.keys[i] != t.keys[j])
    && (forall k :: k in t.lists <==> k in t.keys)
  }

  /** `d[k] = v`: a new key goes last, an existing key keeps its place and gets the new value. */
  function Assign(t: EventTable, k: string, v: seq<Entry>): (r: EventTable)
    ensures r.lists.Keys == t.lists.Keys + {k} && r.lists[k] == v
    ensures |t.keys| <= |r.keys| && r.keys[..|t.keys|] == t.keys
  {
    EventTable(if k in t.lists then t.keys else t.keys + [k], t.lists[k := v])
  }

  /** Assignment keeps the keys distinct and in step with the contents, and touches no other key. */
  lemma AssignWellFormed(t: EventTable, k: string, v: seq<Entry>)
    requires WellFormed(t)
    ensures WellFormed(Assign(t, k, v))
    ensures forall k' :: k' in t.lists && k' != k ==> Assign(t, k, v).lists[k'] == t.lists[k']
  {
  }

  /** Assigning a key twice is the same as assigning it the second value. */
  lemma AssignTwice(t: EventTable, k: string, a: seq<Entry>, b: seq<Entry>)
    ensures Assign(Assign(t, k, a), k, b) == Assign(t, k, b)
  {
    assert t.lists[k := a][k := b] == t.lists[k := b];
  }

  /** The results dict after scanning `events`: each event (re)sets its display name's list. */
  function TableOf(events: seq<Event>, persons: seq<Person>): EventTable
    decreases |events|
  {
    if events == [] then EventTable([], map[])
    else
      var e := events[|events| - 1];
      Assign(TableOf(events[..|events| - 1], persons), DisplayName(e), EventTops(e, persons))
  }

  /**
   * One step of the innermost loop, in the shape the loop needs: appending
   * the next personal best's entries to an accumulated list, and nothing
   * when that personal best is of another event or a sentinel record.
   */
  lemma PbStep(e: Event, p: Person, pbs: seq<PersonalBest>, k: nat, list: seq<Entry>, borderline: seq<BorderlineEntry>)
    requires k < |pbs|
    ensures list + PbTops(e, p, pbs[..k + 1]) == (list + PbTops(e, p, pbs[..k])) + TopsOf(e, p, pbs[k])
    ensures borderline + PbBorders(e, p, pbs[..k + 1]) == (borderline + PbBorders(e, p, pbs[..k])) + BordersOf(e, p, pbs[k])
    ensures pbs[k].eventId != Some(e.id) || IsSentinel(pbs[k]) ==>
              PbTops(e, p, pbs[..k + 1]) == PbTops(e, p, pbs[..k]) &&
              PbBorders(e, p, pbs[..k + 1]) == PbBorders(e, p, pbs[..k])
  {
    assert pbs[..k + 1][..k] == pbs[..k];
    if pbs[k].eventId != Some(e.id) || IsSentinel(pbs[k]) {
      assert TopsOf(e, p, pbs[k]) == [] && BordersOf(e, p, pbs[k]) == [];
    }
  }

  /**
   * One step of the middle loop, in the shape the loop needs: appending the
   * next person's entries, and nothing for a person who is not accepted.
   */
  lemma PersonStep(e: Event, persons: seq<Person>, j: nat, list: seq<Entry>, borderline: seq<BorderlineEntry>)
    requires j < |persons|
    ensures list + EventTops(e, persons[..j + 1]) == (list + EventTops(e, persons[..j])) + PersonTops(e, persons[j])
    ensures borderline + EventBorders(e, persons[..j + 1]) == (borderline + EventBorders(e, persons[..j])) + PersonBorders(e, persons[j])
    ensures !IsAccepted(persons[j]) ==>
              EventTops(e, persons[..j + 1]) == EventTops(e, persons[..j]) &&
              EventBorders(e, persons[..j + 1]) == EventBorders(e, persons[..j])
  {
    assert persons[..j + 1][..j] == persons[..j];
  }

  lemma EventStep(events: seq<Event>, persons: seq<Person>, i: nat)
    requires i < |events|
    ensures TableOf(events[..i + 1], persons) == Assign(TableOf(events[..i], persons), DisplayName(events[i]), EventTops(events[i], persons))
    ensures BorderlinesOf(events[..i + 1], persons) == BorderlinesOf(events[..i], persons) + EventBorders(events[i], persons)
  {
    assert events[..i + 1][..i] == events[..i];
  }

  /**
   * The branch chain for one personal best that passed the event and sentinel
   * tests, as the original writes it: the first two branches of each chain
   * give the same outcome. Proved to agree with the decision table `Judge`.
   */
  method RankPersonalBest(pb: PersonalBest)
    returns (rankType: Option<string>, rankingValue: Option<int>, qualifier: Option<string>, borderlineRank: Option<int>)
    requires !IsSentinel(pb)
    ensures qualifier.Some? <==> Judge(pb).Qualified?
    ensures Judge(pb).Qualified? ==>
              && rankType == Some(RankTypeLabel(Judge(pb).scope))
              && qualifier == Some(QualifierLabel(Judge(pb).scope))
              && rankingValue == Some(Judge(pb).value)
    ensures borderlineRank == if Judge(pb).Borderline? then Some(Judge(pb).value) else None
  {
    var pbType, wr, nr := pb.kind, pb.worldRanking, pb.nationalRanking;
    rankType, rankingValue, qualifier, borderlineRank := None, None, None, None;
    if pbType == Some(Single) {
      if Within(wr, 100) && Within(nr, 30) {
        rankType, rankingValue, qualifier := Some("World"), wr, Some("WR");
      } else if Within(wr, 100) {
        rankType, rankingValue, qualifier := Some("World"), wr, Some("WR");
      } else if Within(nr, 30) {
        rankType, rankingValue, qualifier := Some("National"), nr, Some("NR");
      }
    } else if pbType == Some(Average) {
      if Within(wr, 50) && Within(nr, 15) {
        rankType, rankingValue, qualifier := Some("World"), wr, Some("WR");
      } else if Within(wr, 50) {
        rankType, rankingValue, qualifier := Some("World"), wr, Some("WR");
      } else if Within(nr, 15) {
        rankType, rankingValue, qualifier := Some("National"), nr, Some("NR");
      } else if wr.Some? && 51 <= wr.value <= 100 {
        borderlineRank := wr;
      }
    }
  }

  /**
   * The body of the innermost loop once a personal best has passed the event
   * and sentinel tests: the borderline entry and the qualifying entry it adds
   * (each empty or one entry), built from the branch chain's outcome.
   */
  method RecordOutcome(event: Event, person: Person, pb: PersonalBest)
    returns (tops: seq<Entry>, borders: seq<BorderlineEntry>)
    requires pb.eventId == Some(event.id) && !IsSentinel(pb)
    ensures tops == TopsOf(event, person, pb)
    ensures borders == BordersOf(event, person, pb)
  {
    var rankType, rankingValue, qualifier, borderlineRank := RankPersonalBest(pb);
    borders, tops := [], [];
    if borderlineRank.Some? {
      borders := [BorderlineEntry(event.id, DisplayName(event), NameOf(person), WcaIdOf(person), borderlineRank.value, pb.best)];
    }
    if qualifier.Some? {
      tops := [Entry(event.id, NameOf(person), WcaIdOf(person), pb.kind.value, rankingValue.value, rankType.value, qualifier.value, pb.best)];
    }
  }

  /**
   * The innermost loop of `find_top_competitors`: scans the personal bests of
   * one accepted person for event `event`, appending to that event's list and
   * to the borderline list. The two lists are passed in and handed back.
   */
  method ScanPersonalBests(event: Event, person: Person, list: seq<Entry>, borderline: seq<BorderlineEntry>)
    returns (list': seq<Entry>, borderline': seq<BorderlineEntry>)
    ensures list' == list + PbTops(event, person, BestsOf(person))
    ensures borderline' == borderline + PbBorders(event, person, BestsOf(person))
  {
    var pbs := BestsOf(person);
    list', borderline' := list, borderline;
    for k := 0 to |pbs|
      invariant list' == list + PbTops(event, person, pbs[..k])
      invariant borderline' == borderline + PbBorders(event, person, pbs[..k])
    {
      PbStep(event, person, pbs, k, list, borderline);
      var pb := pbs[k];
      if pb.eventId != Some(event.id) {
        continue;
      }
      var best := pb.best.GetOr(0);
      if best == 0 || pb.worldRanking == Some(0) || pb.nationalRanking == Some(0) {
        continue;
      }
      var tops, borders := RecordOutcome(event, person, pb);
      borderline' := borderline' + borders;
      list' := list' + tops;
    }
    assert pbs[..|pbs|] == pbs;
  }

  /**
   * The middle loop of `find_top_competitors`: scans the persons for event
   * `event`, skipping those whose registration is missing or not accepted.
   */
  method ScanPersons(event: Event, persons: seq<Person>, list: seq<Entry>, borderline: seq<BorderlineEntry>)
    returns (list': seq<Entry>, borderline': seq<BorderlineEntry>)
    ensures list' == list + EventTops(event, persons)
    ensures borderline' == borderline + EventBorders(event, persons)
  {
    list', borderline' := list, borderline;
    assert persons[..0] == [] && list + [] == list && borderline + [] == borderline;
    for j := 0 to |persons|
      invariant list' == list + EventTops(event, persons[..j])
      invariant borderline' == borderline + EventBorders(event, persons[..j])
    {
      PersonStep(event, persons, j, list, borderline);
      var person := persons[j];
      if !IsAccepted(person) {
        continue;
      }
      list', borderline' := ScanPersonalBests(event, person, list', borderline');
    }
    assert persons[..|persons|] == persons;
  }

  /**
   * `find_top_competitors(wcif)`: the results dict and the borderline list,
   * built by scanning events, then persons, then personal bests, each
   * event first (re)setting its display name's list to empty.
   */
  method FindTopCompetitors(wcif: Competition) returns (results: EventTable, borderline: seq<BorderlineEntry>)
    ensures results == TableOf(wcif.events, wcif.persons)
    ensures borderline == BorderlinesOf(wcif.events, wcif.persons)
  {
    var events, persons := wcif.events, wcif.persons;
    results := EventTable([], map[]);
    borderline := [];
    for i := 0 to |events|
      invariant results == TableOf(events[..i], persons)
      invariant borderline == BorderlinesOf(events[..i], persons)
    {
      EventStep(events, persons, i);
      ghost var tableBefore := results;
      var event := events[i];
      var eventName := DisplayName(event);
      results := Assign(results, eventName, []);
      var list;
      list, borderline := ScanPersons(event, persons, results.lists[eventName], borderline);
      assert list == EventTops(event, persons);
      AssignTwice(tableBefore, eventName, [], list);
      results := Assign(results, eventName, list);
    }
    assert events[..|events|] == events;
  }
}
