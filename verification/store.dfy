/** The PostgreSQL store: three tables, updated in place, one SQL statement
    per method. Whether a statement reaches the database is the parameter
    `ok`; `time.Now()` is the parameter `now`. */
module Storage {
  import opened Common
  import opened Routing
  import opened Delivery
  import opened Mutes
  import opened Observed

  datatype Answer<+T> = DatabaseError | NotFound | Value(value: T)

  /** `ids` is the selection in descending order of its keys: ORDER BY DESC. */
  ghost predicate Ordered(ids: seq<string>, selected: set<string>, key: map<string, Time>)
    requires selected <= key.Keys
  {
    && (forall id :: id in ids <==> id in selected)
    && (forall i, j :: 0 <= i < j < |ids| ==> ids[i] != ids[j] && key[ids[i]] >= key[ids[j]])
  }

  method OrderDescending(selected: set<string>, key: map<string, Time>) returns (ids: seq<string>)
    requires selected <= key.Keys
    ensures Ordered(ids, selected, key)
  {
    ids := [];
    var rest := selected;
    while rest != {}
      invariant rest <= selected
      invariant Ordered(ids, selected - rest, key)
      invariant forall i, id :: 0 <= i < |ids| && id in rest ==> key[ids[i]] >= key[id]
      decreases rest
    {
      var top := Latest(rest, key);
      assert selected - (rest - {top}) == (selected - rest) + {top};
      OrderedNext(ids, selected - rest, top, key);
      ids := ids + [top];
      rest := rest - {top};
    }
    assert selected - rest == selected;
  }

  lemma OrderedNext(ids: seq<string>, selected: set<string>, next: string, key: map<string, Time>)
    requires selected <= key.Keys && Ordered(ids, selected, key) && next in key && next !in selected
    requires forall i :: 0 <= i < |ids| ==> key[ids[i]] >= key[next]
    ensures Ordered(ids + [next], selected + {next}, key)
  {
    forall i | 0 <= i < |ids| ensures ids[i] in selected && ids[i] != next {
      assert ids[i] in ids;
    }
  }

  method Latest(ids: set<string>, key: map<string, Time>) returns (top: string)
    requires ids != {} && ids <= key.Keys
    ensures top in ids && forall id :: id in ids ==> key[top] >= key[id]
  {
    top :| top in ids;
    var rest := ids - {top};
    while rest != {}
      invariant rest <= ids && top in ids
      invariant forall id :: id in ids && id !in rest ==> key[top] >= key[id]
      decreases rest
    {
      var id :| id in rest;
      rest := rest - {id};
      if key[id] > key[top] {
        top := id;
      }
    }
  }

  /** A mute with its status at one instant. */
  datatype MuteView = MuteView(mute: Mute, status: MuteStatus)

  datatype AlertView = AlertView(fingerprint: string, row: AlertRow, status: ViewStatus)

  const DEFAULT_ALERT_LIMIT := 100

  function EffectiveLimit(limit: int): (n: nat)
    ensures limit > 0 ==> n == limit
    ensures limit <= 0 ==> n == 100
  {
    if limit <= 0 then DEFAULT_ALERT_LIMIT else limit
  }

  /** `views` is a page: the most recently seen of the selected alerts, up to
      the limit (100 when none is given), each with its status derived at
      `now`. */
  ghost predicate IsPage(views: seq<AlertView>, alerts: AlertTable, selected: set<string>, limit: int, now: Time)
    requires selected <= alerts.Keys
  {
    exists ids: seq<string> :: ByLastSeen(ids, alerts, selected) && ShowsFirst(views, ids, alerts, limit, now)
  }

  ghost predicate ByLastSeen(ids: seq<string>, alerts: AlertTable, selected: set<string>)
    requires selected <= alerts.Keys
  {
    && (forall f :: f in ids <==> f in selected)
    && (forall i, j :: 0 <= i < j < |ids| ==> ids[i] != ids[j] && alerts[ids[i]].lastSeen >= alerts[ids[j]].lastSeen)
  }

  ghost predicate ShowsFirst(views: seq<AlertView>, ids: seq<string>, alerts: AlertTable, limit: int, now: Time)
    requires forall i :: 0 <= i < |ids| ==> ids[i] in alerts
  {
    var most := if limit > 0 then limit else 100;
    && |views| == (if |ids| <= most then |ids| else most)
    && forall i :: 0 <= i < |views| ==>
         && views[i].fingerprint == ids[i] && views[i].row == alerts[ids[i]]
         && (views[i].status == ViewExpired
             <==> alerts[ids[i]].endsAt.Some? && alerts[ids[i]].endsAt.value <= now)
  }

  function LastSeenOf(alerts: AlertTable): map<string, Time>
  {
    map f | f in alerts :: alerts[f].lastSeen
  }

  function EndsOf(mutes: MuteTable): map<string, Time>
  {
    map id | id in mutes :: mutes[id].endsAt
  }

  function ListedIds(mutes: MuteTable, filter: MuteFilter, now: Time): set<string>
  {
    set id | id in mutes && Listed(mutes[id], filter, now)
  }

  /** Firing is no end, or one still to come; expired is an end that is past
      or now. */
  ghost predicate HasStatus(row: AlertRow, status: StatusFilter, now: Time)
  {
    && (status == AlertsFiring ==> row.endsAt.None? || now < row.endsAt.value)
    && (status == AlertsExpired ==> row.endsAt.Some? && row.endsAt.value <= now)
  }

  /** Some matcher's label is missing or has another value. */
  ghost predicate LacksSome(labels: Labels, matchers: Labels)
  {
    exists name :: name in matchers && (name !in labels || labels[name] != matchers[name])
  }

  /** The mutes the filter selects at `now`, once each, latest end first. */
  ghost predicate IsListing(ids: seq<string>, mutes: MuteTable, filter: MuteFilter, now: Time)
  {
    && (forall id :: id in ids <==>
          && id in mutes
          && (filter.MutesPresent? ==> mutes[id].endsAt >= now)
          && (filter.MutesExpired? ==> mutes[id].endsAt < now))
    && (forall i, j :: 0 <= i < j < |ids| ==> ids[i] != ids[j])
    && (forall i, j :: 0 <= i < j < |ids| && ids[i] in mutes && ids[j] in mutes ==>
          mutes[ids[i]].endsAt >= mutes[ids[j]].endsAt)
  }

  class Store {
    var mutes: MuteTable
    var notifications: Rows
    var alerts: AlertTable

    constructor ()
      ensures mutes == map[] && notifications == map[] && alerts == map[]
    {
      mutes, notifications, alerts := map[], map[], map[];
    }

    // --- MuteStore --------------------------------------------------------

    /** Scans the mutes whose window covers now for one that matches. */
    method MatchesAlert(labels: Labels, now: Time, ok: bool) returns (r: Answer<bool>)
      ensures !ok ==> r == DatabaseError
      ensures ok ==> r == Value(exists id :: id in mutes && mutes[id].startsAt <= now <= mutes[id].endsAt
                                             && Matches(mutes[id].matchers, labels))
      ensures r == if ok then Value(Suppressed(mutes, labels, now)) else DatabaseError
    {
      if !ok {
        return DatabaseError;
      }
      var rows := set id | id in mutes && InWindow(mutes[id], now);
      while rows != {}
        invariant rows <= mutes.Keys
        invariant forall id :: id in rows ==> InWindow(mutes[id], now)
        invariant forall id :: id in mutes && InWindow(mutes[id], now) && id !in rows ==>
                    !Matches(mutes[id].matchers, labels)
        decreases rows
      {
        var id :| id in rows;
        rows := rows - {id};
        var hit := MatchAll(mutes[id].matchers, labels);
        if hit {
          return Value(true);
        }
      }
      return Value(false);
    }

    method List(filter: MuteFilter, now: Time, ok: bool) returns (r: Answer<seq<string>>)
      ensures !ok ==> r == DatabaseError
      ensures ok ==> r.Value?
                     && IsListing(r.value, mutes, filter, now)
    {
      if !ok {
        return DatabaseError;
      }
      var ids := OrderDescending(ListedIds(mutes, filter, now), EndsOf(mutes));
      return Value(ids);
    }

    method Get(id: string, ok: bool) returns (r: Answer<Mute>)
      ensures r == if !ok then DatabaseError else if id in mutes then Value(mutes[id]) else NotFound
    {
      if !ok {
        return DatabaseError;
      }
      if id !in mutes {
        return NotFound;
      }
      return Value(mutes[id]);
    }

    method Create(mute: Mute, ok: bool) returns (done: bool)
      modifies this`mutes
      ensures done <==> ok && mute.id !in old(mutes)
      ensures mutes == if ok then Inserted(old(mutes), mute) else old(mutes)
    {
      done := ok && mute.id !in mutes;
      if done {
        mutes := mutes[mute.id := mute];
      }
    }

    method Expire(id: string, now: Time, ok: bool) returns (done: bool)
      modifies this`mutes
      ensures done <==> ok && id in old(mutes)
      ensures mutes == if ok then Ended(old(mutes), id, now) else old(mutes)
    {
      done := ok && id in mutes;
      if done {
        mutes := mutes[id := mutes[id].(endsAt := now)];
      }
    }

    // --- NotificationHistory ----------------------------------------------

    method LastAttempt(ruleName: string, fingerprint: string, ok: bool) returns (r: Answer<Status>)
      ensures var pair := Pair(ruleName, fingerprint);
              r == if !ok then DatabaseError
                   else if pair in notifications then Value(notifications[pair].status) else NotFound
    {
      if !ok {
        return DatabaseError;
      }
      var pair := Pair(ruleName, fingerprint);
      if pair !in notifications {
        return NotFound;
      }
      return Value(notifications[pair].status);
    }

    method RecordAttempt(ruleName: string, fingerprint: string, at: Time, status: Status, ok: bool)
      modifies this`notifications
      ensures notifications == if ok then old(notifications)[Pair(ruleName, fingerprint) := Row(at, status)]
                               else old(notifications)
    {
      if ok {
        notifications := notifications[Pair(ruleName, fingerprint) := Row(at, status)];
      }
    }

    // --- AlertStore -------------------------------------------------------

    method UpsertAlert(alert: Alert, fingerprint: string, now: Time, ok: bool)
      modifies this`alerts
      ensures alerts == if ok then Upserted(old(alerts), fingerprint, alert, now) else old(alerts)
    {
      if !ok {
        return;
      }
      if fingerprint in alerts {
        var row := alerts[fingerprint];
        alerts := alerts[fingerprint := row.(labels := alert.labels, endsAt := alert.endsAt, lastSeen := now)];
      } else {
        alerts := alerts[fingerprint := AlertRow(alert.labels, alert.startsAt, alert.endsAt, now, now)];
      }
    }

    method ListAlerts(filter: AlertFilter, now: Time, ok: bool) returns (r: Answer<seq<AlertView>>)
      ensures !ok ==> r == DatabaseError
      ensures ok ==> r.Value?
                     && IsPage(r.value, alerts, ListSelection(alerts, filter, mutes, now),
                               filter.limit, now)
      ensures forall f :: f in ListSelection(alerts, filter, mutes, now) <==>
                && f in alerts && HasStatus(alerts[f], filter.status, now)
                && (filter.excludeMuted ==> forall id ::
                      id in mutes && mutes[id].startsAt <= now <= mutes[id].endsAt ==>
                        LacksSome(alerts[f].labels, mutes[id].matchers))
    {
      if !ok {
        return DatabaseError;
      }
      var views := Page(ListSelection(alerts, filter, mutes, now), filter.limit, now);
      return Value(views);
    }

    method MatchingAlerts(matchers: Labels, filter: AlertFilter, now: Time, ok: bool)
      returns (r: Answer<seq<AlertView>>)
      ensures !ok ==> r == DatabaseError
      ensures ok ==> r.Value?
                     && IsPage(r.value, alerts, MatchingSelection(alerts, matchers, filter, now),
                               filter.limit, now)
      ensures forall f :: f in MatchingSelection(alerts, matchers, filter, now) <==>
                && f in alerts && HasStatus(alerts[f], filter.status, now)
                && forall name :: name in matchers ==>
                     name in alerts[f].labels && alerts[f].labels[name] == matchers[name]
    {
      if !ok {
        return DatabaseError;
      }
      var views := Page(MatchingSelection(alerts, matchers, filter, now), filter.limit, now);
      return Value(views);
    }

    /** ORDER BY last_seen_at DESC with the LIMIT, then the row scan. */
    method Page(selected: set<string>, limit: int, now: Time) returns (views: seq<AlertView>)
      requires selected <= alerts.Keys
      ensures IsPage(views, alerts, selected, limit, now)
    {
      var ids := OrderDescending(selected, LastSeenOf(alerts));
      var n := if |ids| <= EffectiveLimit(limit) then |ids| else EffectiveLimit(limit);
      views := [];
      for i := 0 to n
        invariant |views| == i
        invariant forall k :: 0 <= k < i ==>
                    views[k] == AlertView(ids[k], alerts[ids[k]], DeriveAlertStatus(alerts[ids[k]].endsAt, now))
      {
        assert ids[i] in ids;
        var row := alerts[ids[i]];
        views := views + [AlertView(ids[i], row, DeriveAlertStatus(row.endsAt, now))];
      }
      assert ByLastSeen(ids, alerts, selected);
      assert ShowsFirst(views, ids, alerts, limit, now);
    }
  }

  // --- Mute lifecycle functions -------------------------------------------

  datatype CreateResult = Rejected(field: Field) | StoreFailed | Created(view: MuteView)

  /** `CreateMute`: validate, insert, project. The fresh ID is a parameter. */
  method CreateMute(store: Store, req: Request, id: string, now: Time, ok: bool) returns (r: CreateResult)
    modifies store`mutes
    ensures store.mutes == if ok then Performed(old(store.mutes), CreateOp(req, id)) else old(store.mutes)
    ensures InvalidField(req).Some? ==> r == Rejected(InvalidField(req).value)
    ensures r.Created? ==> id in store.mutes && r.view == MuteView(store.mutes[id], Projected(store.mutes[id], now))
    ensures InvalidField(req).None? ==> (r.Created? <==> ok && id !in old(store.mutes)) && !r.Rejected?
    ensures r.Created? ==>
              && req.startsAt.Some? && req.endsAt.Some?
              && store.mutes == old(store.mutes)[id := Mute(id, req.matchers, req.startsAt.value, req.endsAt.value,
                                                            req.comment, req.createdBy)]
    ensures !r.Created? ==> store.mutes == old(store.mutes)
    ensures r.Rejected? <==> exists f :: Fails(req, f)
    ensures r.Rejected? ==> FailsFirst(req, r.field)
  {
    InvalidFieldIsFirst(req);
    var invalid := InvalidField(req);
    if invalid.Some? {
      return Rejected(invalid.value);
    }
    var mute := Requested(req, id);
    var done := store.Create(mute, ok);
    if !done {
      return StoreFailed;
    }
    return Created(MuteView(mute, Projected(mute, now)));
  }

  predicate IsViewOf(view: MuteView, mutes: MuteTable, id: string, now: Time)
  {
    id in mutes && view == MuteView(mutes[id], Projected(mutes[id], now))
  }

  ghost predicate IsMuteListing(views: seq<MuteView>, mutes: MuteTable, filter: MuteFilter, listedAt: Time, now: Time)
  {
    exists ids: seq<string> ::
      && IsListing(ids, mutes, filter, listedAt)
      && |views| == |ids|
      && forall i :: 0 <= i < |ids| ==> IsViewOf(views[i], mutes, ids[i], now)
  }

  /** `ListMutes`: the selection is made at `listedAt`, the statuses are all
      projected at the later reading `now`. */
  method ListMutes(store: Store, filter: MuteFilter, listedAt: Time, now: Time, ok: bool)
    returns (r: Answer<seq<MuteView>>)
    ensures !ok ==> r == DatabaseError
    ensures ok ==> r.Value? && IsMuteListing(r.value, store.mutes, filter, listedAt, now)
  {
    var listed := store.List(filter, listedAt, ok);
    if !listed.Value? {
      return DatabaseError;
    }
    var ids := listed.value;
    var out := [];
    for i := 0 to |ids|
      invariant |out| == i
      invariant forall k :: 0 <= k < i ==> IsViewOf(out[k], store.mutes, ids[k], now)
    {
      assert ids[i] in ids;
      assert ids[i] in store.mutes;
      var mute := store.mutes[ids[i]];
      out := out + [MuteView(mute, Projected(mute, now))];
    }
    return Value(out);
  }

  /** With a limit at least as large as the selection a page shows all of it:
      the set view of the queries is the page with limits ignored. */
  lemma FullPageShowsSelection(views: seq<AlertView>, alerts: AlertTable, selected: set<string>, limit: int, now: Time)
    requires selected <= alerts.Keys && IsPage(views, alerts, selected, limit, now)
    requires |selected| <= EffectiveLimit(limit)
    ensures forall f :: f in selected <==> exists i :: 0 <= i < |views| && views[i].fingerprint == f
  {
    var ids: seq<string> :| ByLastSeen(ids, alerts, selected) && ShowsFirst(views, ids, alerts, limit, now);
    DistinctCount(ids, selected);
    forall f ensures f in selected <==> exists i :: 0 <= i < |views| && views[i].fingerprint == f {
      if f in selected {
        var i :| 0 <= i < |ids| && ids[i] == f;
        assert views[i].fingerprint == f;
      }
    }
  }

  lemma {:induction false} DistinctCount(ids: seq<string>, selected: set<string>)
    requires forall id :: id in ids <==> id in selected
    requires forall i, j :: 0 <= i < j < |ids| ==> ids[i] != ids[j]
    ensures |ids| == |selected|
  {
    if ids == [] {
      assert selected == {};
    } else {
      var n := |ids| - 1;
      assert ids[n] in ids;
      forall id ensures id in ids[..n] <==> id in selected - {ids[n]} {
        if id in selected - {ids[n]} {
          assert id in ids;
        }
      }
      DistinctCount(ids[..n], selected - {ids[n]});
    }
  }
}
