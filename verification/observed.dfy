/** The observed-alerts table: its upsert as a fold over pushes, the filters
    of the alert queries, and how the UI's two pages divide the firing
    alerts between them. */
module Observed {
  import opened Common
  import opened Routing
  import opened Delivery
  import opened Mutes

  /** One row; the fingerprint is its key. */
  datatype AlertRow = AlertRow(labels: Labels, startsAt: Time, endsAt: Option<Time>, firstSeen: Time, lastSeen: Time)

  type AlertTable = map<string, AlertRow>

  // --- UpsertAlert as a fold ----------------------------------------------

  /** INSERT ... ON CONFLICT DO UPDATE: labels, end and last-seen are
      replaced, start and first-seen are kept. */
  function Upserted(alerts: AlertTable, fingerprint: string, alert: Alert, now: Time): AlertTable
  {
    if fingerprint in alerts then
      alerts[fingerprint := alerts[fingerprint].(labels := alert.labels, endsAt := alert.endsAt, lastSeen := now)]
    else
      alerts[fingerprint := AlertRow(alert.labels, alert.startsAt, alert.endsAt, now, now)]
  }

  /** One alert received at one clock reading. */
  datatype Sighting = Sighting(fingerprint: string, alert: Alert, at: Time)

  function Table(sightings: seq<Sighting>): AlertTable
  {
    if sightings == [] then map[]
    else
      var last := sightings[|sightings| - 1];
      Upserted(Table(sightings[..|sightings| - 1]), last.fingerprint, last.alert, last.at)
  }

  /** Position i is the first sighting of the fingerprint, j the latest. */
  predicate FirstAndLatest(sightings: seq<Sighting>, fingerprint: string, i: nat, j: nat)
  {
    && i <= j < |sightings|
    && sightings[i].fingerprint == sightings[j].fingerprint == fingerprint
    && (forall k | 0 <= k < i :: sightings[k].fingerprint != fingerprint)
    && (forall k | j < k < |sightings| :: sightings[k].fingerprint != fingerprint)
  }

  ghost predicate RowFrom(row: AlertRow, first: Sighting, latest: Sighting)
  {
    && row.startsAt == first.alert.startsAt && row.firstSeen == first.at
    && row.labels == latest.alert.labels && row.endsAt == latest.alert.endsAt && row.lastSeen == latest.at
  }

  /** The row is what the first and the latest sighting leave. */
  ghost predicate IsFolded(sightings: seq<Sighting>, fingerprint: string, row: AlertRow)
  {
    exists i: nat, j: nat ::
      FirstAndLatest(sightings, fingerprint, i, j) && RowFrom(row, sightings[i], sightings[j])
  }

  lemma FoldStep(before: seq<Sighting>, last: Sighting, fingerprint: string)
    requires fingerprint in Table(before) && IsFolded(before, fingerprint, Table(before)[fingerprint])
    ensures var table := Upserted(Table(before), last.fingerprint, last.alert, last.at);
            fingerprint in table && IsFolded(before + [last], fingerprint, table[fingerprint])
  {
    var i: nat, j: nat :| FirstAndLatest(before, fingerprint, i, j)
                          && RowFrom(Table(before)[fingerprint], before[i], before[j]);
    var sightings := before + [last];
    assert forall k :: 0 <= k < |before| ==> sightings[k] == before[k];
    assert FirstAndLatest(sightings, fingerprint, i, if last.fingerprint == fingerprint then |before| else j);
  }

  lemma FirstFold(before: seq<Sighting>, last: Sighting)
    requires last.fingerprint !in Table(before)
    requires forall k :: 0 <= k < |before| ==> before[k].fingerprint != last.fingerprint
    ensures var table := Upserted(Table(before), last.fingerprint, last.alert, last.at);
            IsFolded(before + [last], last.fingerprint, table[last.fingerprint])
  {
    var sightings := before + [last];
    assert forall k :: 0 <= k < |before| ==> sightings[k] == before[k];
    assert FirstAndLatest(sightings, last.fingerprint, |before|, |before|);
  }

  /** Over any run there is one row per sighted fingerprint; start and
      first-seen come from its first sighting, the rest from its latest. */
  lemma {:induction false} TableIsFold(sightings: seq<Sighting>, fingerprint: string)
    ensures fingerprint in Table(sightings)
       <==> exists k :: 0 <= k < |sightings| && sightings[k].fingerprint == fingerprint
    ensures fingerprint in Table(sightings) ==> IsFolded(sightings, fingerprint, Table(sightings)[fingerprint])
    decreases |sightings|
  {
    if sightings != [] {
      var n := |sightings| - 1;
      var before, last := sightings[..n], sightings[n];
      assert sightings == before + [last];
      TableIsFold(before, fingerprint);
      if fingerprint in Table(before) {
        var k :| 0 <= k < |before| && before[k].fingerprint == fingerprint;
        assert sightings[k].fingerprint == fingerprint;
        FoldStep(before, last, fingerprint);
      } else if last.fingerprint == fingerprint {
        FirstFold(before, last);
      }
    }
  }

  /** With a monotone clock no alert was last seen before it was first seen. */
  lemma SeenInOrder(sightings: seq<Sighting>, fingerprint: string)
    requires forall k, l :: 0 <= k < l < |sightings| ==> sightings[k].at <= sightings[l].at
    requires fingerprint in Table(sightings)
    ensures Table(sightings)[fingerprint].firstSeen <= Table(sightings)[fingerprint].lastSeen
  {
    TableIsFold(sightings, fingerprint);
  }

  // --- Firing or expired --------------------------------------------------

  datatype ViewStatus = ViewFiring | ViewExpired

  /** `DeriveAlertStatus`. */
  function DeriveAlertStatus(endsAt: Option<Time>, now: Time): ViewStatus
  {
    if endsAt.Some? && !(now < endsAt.value) then ViewExpired else ViewFiring
  }

  datatype StatusFilter = AlertsAll | AlertsFiring | AlertsExpired

  /** The status condition both alert queries build; NULL is None. */
  predicate StatusSelects(row: AlertRow, filter: StatusFilter, now: Time)
  {
    match filter
    case AlertsAll => true
    case AlertsFiring => row.endsAt.None? || row.endsAt.value > now
    case AlertsExpired => row.endsAt.Some? && row.endsAt.value <= now
  }

  /** At a common now, the row reads expired, the SQL expired filter selects
      it, the firing filter rejects it, and the desired status of its latest
      sighting is resolved: all four or none. */
  lemma ExpiryAgreement(sightings: seq<Sighting>, fingerprint: string, i: nat, j: nat, now: Time)
    requires FirstAndLatest(sightings, fingerprint, i, j)
    ensures fingerprint in Table(sightings)
    ensures var row, expired := Table(sightings)[fingerprint], DesiredStatus(sightings[j].alert, now) == ResolvedSent;
            && (DeriveAlertStatus(row.endsAt, now) == ViewExpired <==> expired)
            && (StatusSelects(row, AlertsExpired, now) <==> expired)
            && (StatusSelects(row, AlertsFiring, now) <==> !expired)
            && (AlertStatus(sightings[j].alert, now) == Resolved <==> expired)
  {
    TableIsFold(sightings, fingerprint);
    var i': nat, j': nat :| FirstAndLatest(sightings, fingerprint, i', j')
                            && RowFrom(Table(sightings)[fingerprint], sightings[i'], sightings[j']);
    assert j' == j;
  }

  // --- JSONB containment against MatchAll ---------------------------------

  /** `labels @> matchers` on flat objects. */
  predicate Contains(labels: Labels, matchers: Labels)
  {
    Subsumes(matchers, labels)
  }

  predicate NoEmptyValue(matchers: Labels)
  {
    forall name | name in matchers :: matchers[name] != ""
  }

  /** Containment implies a match. A matcher map for which the converse holds
      on every label set is exactly one without an empty value: to `MatchAll`
      a missing label reads as "". */
  lemma ContainmentAgainstMatchAll(matchers: Labels)
    ensures forall labels: Labels :: Contains(labels, matchers) ==> Matches(matchers, labels)
    ensures NoEmptyValue(matchers)
       <==> forall labels: Labels :: Matches(matchers, labels) ==> Contains(labels, matchers)
  {
    if !NoEmptyValue(matchers) {
      var name :| name in matchers && matchers[name] == "";
      var labels := matchers - {name};
      assert Matches(matchers, labels) && !Contains(labels, matchers);
    }
  }

  // --- The queries --------------------------------------------------------

  datatype AlertFilter = AlertFilter(status: StatusFilter, excludeMuted: bool, limit: int)

  /** The WHERE clause of `ListAlerts`. */
  predicate ListSelects(row: AlertRow, filter: AlertFilter, mutes: MuteTable, now: Time)
  {
    && StatusSelects(row, filter.status, now)
    && (filter.excludeMuted ==> !Hidden(mutes, row.labels, now))
  }

  /** Some active mute's matchers are contained in the labels. */
  predicate Hidden(mutes: MuteTable, labels: Labels, now: Time)
  {
    exists id | id in mutes :: InWindow(mutes[id], now) && Contains(labels, mutes[id].matchers)
  }

  /** The WHERE clause of `MatchingAlerts`. */
  predicate MatchingSelects(row: AlertRow, matchers: Labels, filter: AlertFilter, now: Time)
  {
    Contains(row.labels, matchers) && StatusSelects(row, filter.status, now)
  }

  function ListSelection(alerts: AlertTable, filter: AlertFilter, mutes: MuteTable, now: Time): set<string>
  {
    set f | f in alerts && ListSelects(alerts[f], filter, mutes, now)
  }

  function MatchingSelection(alerts: AlertTable, matchers: Labels, filter: AlertFilter, now: Time): set<string>
  {
    set f | f in alerts && MatchingSelects(alerts[f], matchers, filter, now)
  }

  /** The filter `alertsList` chooses for its two tabs. */
  function TabFilter(expiredTab: bool): AlertFilter
  {
    if expiredTab then AlertFilter(AlertsExpired, false, 0) else AlertFilter(AlertsFiring, true, 0)
  }

  /** The filter `mutesList` passes for the alerts under a mute. */
  const UNDER_MUTE := AlertFilter(AlertsFiring, false, 0)

  /** No page of the UI sets a limit of its own. */
  lemma PagesAreUnlimited(expiredTab: bool)
    ensures TabFilter(expiredTab).limit <= 0 && UNDER_MUTE.limit <= 0
  {
  }

  function FiringAlerts(alerts: AlertTable, now: Time): set<string>
  {
    set f | f in alerts && StatusSelects(alerts[f], AlertsFiring, now)
  }

  function Tab(alerts: AlertTable, mutes: MuteTable, expiredTab: bool, now: Time): set<string>
  {
    ListSelection(alerts, TabFilter(expiredTab), mutes, now)
  }

  function UnderMute(alerts: AlertTable, mute: Mute, now: Time): set<string>
  {
    MatchingSelection(alerts, mute.matchers, UNDER_MUTE, now)
  }

  /** The alerts shown under some active mute. */
  function UnderActiveMutes(alerts: AlertTable, mutes: MuteTable, now: Time): set<string>
  {
    set f, id | id in mutes && Active(mutes[id], now) && f in UnderMute(alerts, mutes[id], now) :: f
  }

  /** At one instant the firing alerts are the disjoint union of the Firing tab
      and what is shown under the active mutes; the Expired tab is the rest. */
  lemma ViewsPartitionAlerts(alerts: AlertTable, mutes: MuteTable, now: Time)
    ensures Tab(alerts, mutes, false, now) + UnderActiveMutes(alerts, mutes, now) == FiringAlerts(alerts, now)
    ensures Tab(alerts, mutes, false, now) !! UnderActiveMutes(alerts, mutes, now)
    ensures Tab(alerts, mutes, true, now) == alerts.Keys - FiringAlerts(alerts, now)
  {
    forall f | f in FiringAlerts(alerts, now)
      ensures f in Tab(alerts, mutes, false, now) <==> f !in UnderActiveMutes(alerts, mutes, now)
    {
      if f !in Tab(alerts, mutes, false, now) {
        var id :| id in mutes && InWindow(mutes[id], now) && Contains(alerts[f].labels, mutes[id].matchers);
        assert f in UnderMute(alerts, mutes[id], now);
      }
    }
  }

  /** Every alert hidden from the Firing tab is one that Process suppresses at
      that instant. */
  lemma HiddenIsSuppressed(alerts: AlertTable, mutes: MuteTable, now: Time, f: string)
    requires f in FiringAlerts(alerts, now)
    ensures f !in Tab(alerts, mutes, false, now) <==> Hidden(mutes, alerts[f].labels, now)
    ensures Hidden(mutes, alerts[f].labels, now) ==> Suppressed(mutes, alerts[f].labels, now)
  {
    if Hidden(mutes, alerts[f].labels, now) {
      var id :| id in mutes && InWindow(mutes[id], now) && Contains(alerts[f].labels, mutes[id].matchers);
      ContainmentAgainstMatchAll(mutes[id].matchers);
      assert Matches(mutes[id].matchers, alerts[f].labels);
    }
  }

  /** The matchers that need a label to be there. */
  function WithValues(matchers: Labels): Labels
  {
    map name | name in matchers && matchers[name] != "" :: matchers[name]
  }

  /** `MatchAll` is containment of the matchers that have a value, and a
      missing or empty label for the others. */
  lemma MatchesWithValues(matchers: Labels, labels: Labels)
    ensures Matches(matchers, labels) ==> Contains(labels, WithValues(matchers))
    ensures Matches(matchers, WithValues(matchers))
  {
  }

  /** Whatever an active mute asks for beyond empty values, some active mute
      asks for no more than that. */
  ghost predicate Covered(mutes: MuteTable, now: Time)
  {
    forall id :: id in mutes && InWindow(mutes[id], now) ==> Hidden(mutes, WithValues(mutes[id].matchers), now)
  }

  lemma HiddenGrows(mutes: MuteTable, labels: Labels, more: Labels, now: Time)
    requires Hidden(mutes, labels, now) && Contains(more, labels)
    ensures Hidden(mutes, more, now)
  {
    var id :| id in mutes && InWindow(mutes[id], now) && Contains(labels, mutes[id].matchers);
    assert Contains(more, mutes[id].matchers);
  }

  /** Every firing alert Process suppresses is hidden from the Firing tab. */
  ghost predicate SuppressedIsHidden(mutes: MuteTable, now: Time)
  {
    forall alerts: AlertTable, f ::
      f in FiringAlerts(alerts, now) && Suppressed(mutes, alerts[f].labels, now)
      ==> f !in Tab(alerts, mutes, false, now)
  }

  lemma CoveredHides(mutes: MuteTable, labels: Labels, now: Time)
    requires Covered(mutes, now) && Suppressed(mutes, labels, now)
    ensures Hidden(mutes, labels, now)
  {
    var id :| id in mutes && InWindow(mutes[id], now) && Matches(mutes[id].matchers, labels);
    MatchesWithValues(mutes[id].matchers, labels);
    HiddenGrows(mutes, WithValues(mutes[id].matchers), labels, now);
  }

  lemma OnlyCoveredHides(mutes: MuteTable, now: Time)
    requires SuppressedIsHidden(mutes, now)
    ensures Covered(mutes, now)
  {
    forall id | id in mutes && InWindow(mutes[id], now) ensures Hidden(mutes, WithValues(mutes[id].matchers), now) {
      var labels := WithValues(mutes[id].matchers);
      var row := AlertRow(labels, now, None, now, now);
      var alerts := map["f" := row];
      MatchesWithValues(mutes[id].matchers, labels);
      assert "f" in FiringAlerts(alerts, now) && Suppressed(mutes, alerts["f"].labels, now);
      HiddenIsSuppressed(alerts, mutes, now, "f");
    }
  }

  /** Exactly then: the Firing tab hides all that Process suppresses, on every
      table, if and only if the active mutes are covered. In particular it does
      when no active mute has an empty matcher value. */
  lemma SuppressedIsHiddenExactly(mutes: MuteTable, now: Time)
    ensures SuppressedIsHidden(mutes, now) <==> Covered(mutes, now)
    ensures (forall id :: id in mutes && InWindow(mutes[id], now) ==> NoEmptyValue(mutes[id].matchers))
            ==> Covered(mutes, now)
  {
    if SuppressedIsHidden(mutes, now) {
      OnlyCoveredHides(mutes, now);
    }
    if Covered(mutes, now) {
      forall alerts: AlertTable, f | f in FiringAlerts(alerts, now) && Suppressed(mutes, alerts[f].labels, now)
        ensures f !in Tab(alerts, mutes, false, now)
      {
        CoveredHides(mutes, alerts[f].labels, now);
        HiddenIsSuppressed(alerts, mutes, now, f);
      }
    }
    forall id | id in mutes && InWindow(mutes[id], now) && NoEmptyValue(mutes[id].matchers)
      ensures Hidden(mutes, WithValues(mutes[id].matchers), now)
    {
      assert Contains(WithValues(mutes[id].matchers), mutes[id].matchers);
    }
  }

  /** Uncovered, it fails: a mute on `team=""` suppresses an
      alert that has no team label, and the Firing tab still shows it. */
  lemma SuppressedButShown()
    ensures var mutes := map["m" := Mute("m", map["team" := ""], 0, 9, "c", "o")];
            var alerts := map["f" := AlertRow(map[], 0, None, 1, 1)];
            Suppressed(mutes, alerts["f"].labels, 5) && "f" in Tab(alerts, mutes, false, 5)
  {
    var mute := Mute("m", map["team" := ""], 0, 9, "c", "o");
    var mutes := map["m" := mute];
    assert "team" in mute.matchers && !Contains(map[], mute.matchers);
    assert mutes["m"] == mute && InWindow(mute, 5) && Matches(mute.matchers, map[]);
    assert "m" in mutes;
  }
}
