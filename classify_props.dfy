/**
 * What the classifier promises, stated over its specification functions
 * (`TableOf`, `EventTops`, `EventBorders`, `BorderlinesOf`), which the
 * method `Classify.FindTopCompetitors` is proved to compute.
 */
module ClassifyProperties {
  import opened Wrappers
  import opened Wcif
  import opened Classify

  /** Personal best `pb` of person `p` puts entry `x` in event `e`'s list. */
  predicate QualifiesAs(e: Event, p: Person, pb: PersonalBest, x: Entry) {
    pb.eventId == Some(e.id) && Judge(pb).Qualified? &&
    x == EntryOf(e, p, pb, Judge(pb).scope, Judge(pb).value)
  }

  /** Personal best `pb` of person `p` puts entry `x` in the borderline list for event `e`. */
  predicate BorderlineAs(e: Event, p: Person, pb: PersonalBest, x: BorderlineEntry) {
    pb.eventId == Some(e.id) && Judge(pb).Borderline? &&
    x == BorderlineOf(e, p, pb, Judge(pb).value)
  }

  // ---------------------------------------------------------------------------
  // The results dict: one key per display name, in discovery order

  lemma {:induction false} TableWellFormed(events: seq<Event>, persons: seq<Person>)
    ensures WellFormed(TableOf(events, persons))
    decreases |events|
  {
    if events != [] {
      var n := |events| - 1;
      TableWellFormed(events[..n], persons);
      AssignWellFormed(TableOf(events[..n], persons), DisplayName(events[n]), EventTops(events[n], persons));
    }
  }

  /** Every event's display name is a key (even with an empty list), and nothing else is. */
  lemma {:induction false} EveryEventHasAList(events: seq<Event>, persons: seq<Person>)
    ensures forall i :: 0 <= i < |events| ==> DisplayName(events[i]) in TableOf(events, persons).lists
    ensures forall name :: name in TableOf(events, persons).lists ==>
              exists i :: 0 <= i < |events| && DisplayName(events[i]) == name
    decreases |events|
  {
    if events != [] {
      var n := |events| - 1;
      var prefix := events[..n];
      EveryEventHasAList(prefix, persons);
      forall i | 0 <= i < n
        ensures DisplayName(events[i]) in TableOf(events, persons).lists
      {
        assert prefix[i] == events[i];
      }
      forall name | name in TableOf(events, persons).lists
        ensures exists i :: 0 <= i < |events| && DisplayName(events[i]) == name
      {
        if name != DisplayName(events[n]) {
          var i :| 0 <= i < n && DisplayName(prefix[i]) == name;
          assert prefix[i] == events[i];
        }
      }
    }
  }

  /**
   * A display name's list holds the entries of the LAST event with that name:
   * a later event with the same name resets the list.
   */
  lemma {:induction false} ListOfLastEventWithName(events: seq<Event>, persons: seq<Person>, i: nat)
    requires i < |events|
    requires forall j :: i < j < |events| ==> DisplayName(events[j]) != DisplayName(events[i])
    ensures DisplayName(events[i]) in TableOf(events, persons).lists
    ensures TableOf(events, persons).lists[DisplayName(events[i])] == EventTops(events[i], persons)
    decreases |events|
  {
    var n := |events| - 1;
    if i < n {
      var prefix := events[..n];
      assert prefix[i] == events[i];
      forall j | i < j < |prefix|
        ensures DisplayName(prefix[j]) != DisplayName(prefix[i])
      {
        assert prefix[j] == events[j];
      }
      ListOfLastEventWithName(prefix, persons, i);
    }
  }

  /**
   * Keys keep the order in which their names were first met: the keys after
   * the first `n` events are a prefix of the final keys.
   */
  lemma {:induction false} KeysInDiscoveryOrder(events: seq<Event>, persons: seq<Person>, n: nat)
    requires n <= |events|
    ensures |TableOf(events[..n], persons).keys| <= |TableOf(events, persons).keys|
    ensures TableOf(events, persons).keys[..|TableOf(events[..n], persons).keys|] == TableOf(events[..n], persons).keys
    decreases |events|
  {
    if n < |events| {
      var m := |events| - 1;
      var prefix := events[..m];
      assert prefix[..n] == events[..n];
      KeysInDiscoveryOrder(prefix, persons, n);
    } else {
      assert events[..n] == events;
    }
  }

  // ---------------------------------------------------------------------------
  // Order within an event's lists

  lemma AppendAssociative<T>(x: seq<T>, y: seq<T>, z: seq<T>)
    ensures (x + y) + z == x + (y + z)
  {
  }

  /** An event's list follows person order: scanning `a` then `b` is scanning `a + b`. */
  lemma {:induction false} EventTopsFollowPersonOrder(e: Event, a: seq<Person>, b: seq<Person>)
    ensures EventTops(e, a + b) == EventTops(e, a) + EventTops(e, b)
    decreases |b|
  {
    if b == [] {
      assert a + b == a;
    } else {
      var n := |b| - 1;
      var ab := a + b;
      assert ab[..|ab| - 1] == a + b[..n] && ab[|ab| - 1] == b[n];
      var last := PersonTops(e, b[n]);
      assert EventTops(e, ab) == EventTops(e, a + b[..n]) + last;
      assert EventTops(e, b) == EventTops(e, b[..n]) + last;
      EventTopsFollowPersonOrder(e, a, b[..n]);
      AppendAssociative(EventTops(e, a), EventTops(e, b[..n]), last);
    }
  }

  /** The borderline entries of an event follow person order in the same way. */
  lemma {:induction false} EventBordersFollowPersonOrder(e: Event, a: seq<Person>, b: seq<Person>)
    ensures EventBorders(e, a + b) == EventBorders(e, a) + EventBorders(e, b)
    decreases |b|
  {
    if b == [] {
      assert a + b == a;
    } else {
      var n := |b| - 1;
      var ab := a + b;
      assert ab[..|ab| - 1] == a + b[..n] && ab[|ab| - 1] == b[n];
      var last := PersonBorders(e, b[n]);
      assert EventBorders(e, ab) == EventBorders(e, a + b[..n]) + last;
      assert EventBorders(e, b) == EventBorders(e, b[..n]) + last;
      EventBordersFollowPersonOrder(e, a, b[..n]);
      AppendAssociative(EventBorders(e, a), EventBorders(e, b[..n]), last);
    }
  }

  // ---------------------------------------------------------------------------
  // Exactly which personal bests are listed

  lemma {:induction false} PbTopsMembership(e: Event, p: Person, pbs: seq<PersonalBest>, x: Entry)
    ensures x in PbTops(e, p, pbs) <==> exists k :: 0 <= k < |pbs| && QualifiesAs(e, p, pbs[k], x)
    decreases |pbs|
  {
    if pbs != [] {
      var n := |pbs| - 1;
      var prefix := pbs[..n];
      PbTopsMembership(e, p, prefix, x);
      if x in PbTops(e, p, pbs) && x in PbTops(e, p, prefix) {
        var k :| 0 <= k < n && QualifiesAs(e, p, prefix[k], x);
        assert prefix[k] == pbs[k];
      }
      if k :| 0 <= k < |pbs| && QualifiesAs(e, p, pbs[k], x) {
        if k < n {
          assert prefix[k] == pbs[k];
        }
      }
    }
  }

  lemma {:induction false} PbBordersMembership(e: Event, p: Person, pbs: seq<PersonalBest>, x: BorderlineEntry)
    ensures x in PbBorders(e, p, pbs) <==> exists k :: 0 <= k < |pbs| && BorderlineAs(e, p, pbs[k], x)
    decreases |pbs|
  {
    if pbs != [] {
      var n := |pbs| - 1;
      var prefix := pbs[..n];
      PbBordersMembership(e, p, prefix, x);
      if x in PbBorders(e, p, pbs) && x in PbBorders(e, p, prefix) {
        var k :| 0 <= k < n && BorderlineAs(e, p, prefix[k], x);
        assert prefix[k] == pbs[k];
      }
      if k :| 0 <= k < |pbs| && BorderlineAs(e, p, pbs[k], x) {
        if k < n {
          assert prefix[k] == pbs[k];
        }
      }
    }
  }

  /**
   * An entry is in event `e`'s list exactly when some accepted person has a
   * personal best for `e` that the decision table qualifies and that entry
   * records it: a person without an accepted registration, a personal best
   * of another event and a sentinel record contribute nothing.
   */
  lemma {:induction false} EventTopsMembership(e: Event, persons: seq<Person>, x: Entry)
    ensures x in EventTops(e, persons) <==>
              exists j, k :: 0 <= j < |persons| && IsAccepted(persons[j]) && 0 <= k < |BestsOf(persons[j])| &&
                             QualifiesAs(e, persons[j], BestsOf(persons[j])[k], x)
    decreases |persons|
  {
    if persons != [] {
      var n := |persons| - 1;
      var prefix := persons[..n];
      var last := persons[n];
      EventTopsMembership(e, prefix, x);
      PbTopsMembership(e, last, BestsOf(last), x);
      if x in EventTops(e, persons) && x in EventTops(e, prefix) {
        var j, k :| 0 <= j < n && IsAccepted(prefix[j]) && 0 <= k < |BestsOf(prefix[j])| &&
                    QualifiesAs(e, prefix[j], BestsOf(prefix[j])[k], x);
        assert prefix[j] == persons[j];
      }
      if j, k :| 0 <= j < |persons| && IsAccepted(persons[j]) && 0 <= k < |BestsOf(persons[j])| &&
                 QualifiesAs(e, persons[j], BestsOf(persons[j])[k], x) {
        if j < n {
          assert prefix[j] == persons[j];
        }
      }
    }
  }

  /** The borderline counterpart of `EventTopsMembership`. */
  lemma {:induction false} EventBordersMembership(e: Event, persons: seq<Person>, x: BorderlineEntry)
    ensures x in EventBorders(e, persons) <==>
              exists j, k :: 0 <= j < |persons| && IsAccepted(persons[j]) && 0 <= k < |BestsOf(persons[j])| &&
                             BorderlineAs(e, persons[j], BestsOf(persons[j])[k], x)
    decreases |persons|
  {
    if persons != [] {
      var n := |persons| - 1;
      var prefix := persons[..n];
      var last := persons[n];
      EventBordersMembership(e, prefix, x);
      PbBordersMembership(e, last, BestsOf(last), x);
      if x in EventBorders(e, persons) && x in EventBorders(e, prefix) {
        var j, k :| 0 <= j < n && IsAccepted(prefix[j]) && 0 <= k < |BestsOf(prefix[j])| &&
                    BorderlineAs(e, prefix[j], BestsOf(prefix[j])[k], x);
        assert prefix[j] == persons[j];
      }
      if j, k :| 0 <= j < |persons| && IsAccepted(persons[j]) && 0 <= k < |BestsOf(persons[j])| &&
                 BorderlineAs(e, persons[j], BestsOf(persons[j])[k], x) {
        if j < n {
          assert prefix[j] == persons[j];
        }
      }
    }
  }

  /** Every entry of the borderline list is a borderline entry of one of the events. */
  lemma {:induction false} BorderlinesComeFromEvents(events: seq<Event>, persons: seq<Person>, x: BorderlineEntry)
    requires x in BorderlinesOf(events, persons)
    ensures exists i :: 0 <= i < |events| && x in EventBorders(events[i], persons)
    decreases |events|
  {
    var n := |events| - 1;
    var prefix := events[..n];
    if x in BorderlinesOf(prefix, persons) {
      BorderlinesComeFromEvents(prefix, persons, x);
      var i :| 0 <= i < n && x in EventBorders(prefix[i], persons);
      assert prefix[i] == events[i];
    } else {
      assert x in EventBorders(events[n], persons);
    }
  }

  /** Every borderline entry of every event is in the borderline list. */
  lemma {:induction false} EventBordersInBorderlines(events: seq<Event>, persons: seq<Person>, i: nat, x: BorderlineEntry)
    requires i < |events| && x in EventBorders(events[i], persons)
    ensures x in BorderlinesOf(events, persons)
    decreases |events|
  {
    var n := |events| - 1;
    if i < n {
      var prefix := events[..n];
      assert prefix[i] == events[i];
      EventBordersInBorderlines(prefix, persons, i, x);
    }
  }

  // ---------------------------------------------------------------------------
  // What every listed entry says

  /**
   * Every qualifying entry names its event, carries a nonzero best, is a
   * single or an average, is labelled World/WR or National/NR, and its
   * ranking value is a nonzero ranking within that label's threshold, taken
   * from an accepted person.
   */
  lemma EntriesAreQualified(e: Event, persons: seq<Person>, x: Entry)
    requires x in EventTops(e, persons)
    ensures x.eventId == e.id && x.best.Some? && x.best.value != 0
    ensures x.kind == Single || x.kind == Average
    ensures (x.rankType == "World" && x.qualifier == "WR") || (x.rankType == "National" && x.qualifier == "NR")
    ensures x.rankingValue != 0
    ensures x.rankingValue <= Threshold(x.kind, if x.qualifier == "WR" then World else National)
    ensures exists j :: 0 <= j < |persons| && IsAccepted(persons[j]) &&
                        x.name == NameOf(persons[j]) && x.wcaId == WcaIdOf(persons[j])
  {
    EventTopsMembership(e, persons, x);
    var j, k :| 0 <= j < |persons| && IsAccepted(persons[j]) && 0 <= k < |BestsOf(persons[j])| &&
                QualifiesAs(e, persons[j], BestsOf(persons[j])[k], x);
  }

  /**
   * Every borderline entry comes from an accepted person's average for its
   * event whose world ranking (the recorded value) is 51 to 100, whose
   * national ranking is not within 15, and whose best is nonzero.
   */
  lemma BorderlinesAreAveragesRanked51To100(e: Event, persons: seq<Person>, x: BorderlineEntry)
    requires x in EventBorders(e, persons)
    ensures x.eventId == e.id && x.eventName == DisplayName(e)
    ensures 51 <= x.rankingValue <= 100
    ensures x.best.Some? && x.best.value != 0
    ensures exists j, k :: 0 <= j < |persons| && IsAccepted(persons[j]) && 0 <= k < |BestsOf(persons[j])| &&
                           BestsOf(persons[j])[k].kind == Some(Average) &&
                           BestsOf(persons[j])[k].worldRanking == Some(x.rankingValue) &&
                           !Within(BestsOf(persons[j])[k].nationalRanking, 15)
  {
    EventBordersMembership(e, persons, x);
  }

  // ---------------------------------------------------------------------------
  // At most one output per personal best

  /** The personal bests of `pbs` for event `e`. */
  function PbMatches(e: Event, pbs: seq<PersonalBest>): nat
    decreases |pbs|
  {
    if pbs == [] then 0
    else PbMatches(e, pbs[..|pbs| - 1]) + (if pbs[|pbs| - 1].eventId == Some(e.id) then 1 else 0)
  }

  /** The personal bests for event `e` of the accepted persons among `persons`. */
  function EventMatches(e: Event, persons: seq<Person>): nat
    decreases |persons|
  {
    if persons == [] then 0
    else
      var p := persons[|persons| - 1];
      EventMatches(e, persons[..|persons| - 1]) + (if IsAccepted(p) then PbMatches(e, BestsOf(p)) else 0)
  }

  lemma {:induction false} PbOutputBound(e: Event, p: Person, pbs: seq<PersonalBest>)
    ensures |PbTops(e, p, pbs)| + |PbBorders(e, p, pbs)| <= PbMatches(e, pbs)
    decreases |pbs|
  {
    if pbs != [] {
      PbOutputBound(e, p, pbs[..|pbs| - 1]);
    }
  }

  /**
   * Each personal best lands in at most one of the two outputs, and only
   * personal bests of the event, of accepted persons, land anywhere.
   */
  lemma {:induction false} AtMostOneOutputPerPersonalBest(e: Event, persons: seq<Person>)
    ensures |EventTops(e, persons)| + |EventBorders(e, persons)| <= EventMatches(e, persons)
    decreases |persons|
  {
    if persons != [] {
      var p := persons[|persons| - 1];
      AtMostOneOutputPerPersonalBest(e, persons[..|persons| - 1]);
      PbOutputBound(e, p, BestsOf(p));
    }
  }

  // ---------------------------------------------------------------------------
  // The branch that the single chain can reach

  /**
   * A single whose world ranking is over 100, or missing, but whose national
   * ranking is within 30, qualifies as National/NR.
   */
  lemma NationalSingleIsReachable()
    ensures Judge(PersonalBest(Some("333"), Some(Single), Some(150), Some(12), Some(950))) == Qualified(National, 12)
    ensures Judge(PersonalBest(Some("333"), Some(Single), None, Some(12), Some(950))) == Qualified(National, 12)
  {
  }
}
