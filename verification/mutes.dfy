/** Mutes on values: the closed window in its three spellings, creation
    requests, and what runs of Create and Expire leave in the mutes table. */
module Mutes {
  import opened Common
  import opened Routing

  datatype Mute = Mute(id: string, matchers: Labels, startsAt: Time, endsAt: Time, comment: string, createdBy: string)

  type MuteTable = map<string, Mute>

  // --- The window, three times --------------------------------------------

  /** `Mute.Active`: closed at both ends. */
  predicate Active(mute: Mute, now: Time)
  {
    !(now < mute.startsAt) && !(mute.endsAt < now)
  }

  /** The WHERE clause of the mute read. */
  predicate InWindow(mute: Mute, now: Time)
  {
    mute.startsAt <= now && mute.endsAt >= now
  }

  datatype MuteStatus = StatusPending | StatusActive | StatusExpired

  /** The status `projectMuteView` computes; pending is tested first. */
  function Projected(mute: Mute, now: Time): MuteStatus
  {
    if now < mute.startsAt then StatusPending
    else if mute.endsAt < now then StatusExpired
    else StatusActive
  }

  datatype MuteFilter = MutesAll | MutesPresent | MutesExpired

  /** The WHERE clause `List` builds. */
  predicate Listed(mute: Mute, filter: MuteFilter, now: Time)
  {
    match filter
    case MutesAll => true
    case MutesPresent => mute.endsAt >= now
    case MutesExpired => mute.endsAt < now
  }

  /** Some active mute applies to the labels: what the mute read answers. */
  predicate Suppressed(mutes: MuteTable, labels: Labels, now: Time)
  {
    exists id | id in mutes :: InWindow(mutes[id], now) && Matches(mutes[id].matchers, labels)
  }

  /** At one instant the list filter disagrees with the projected status
      exactly when the mute ended before now and has not started yet. */
  lemma FilterAgreesWithStatus(mute: Mute, now: Time)
    ensures Active(mute, now) <==> InWindow(mute, now)
    ensures Active(mute, now) ==> Projected(mute, now) == StatusActive
    ensures Projected(mute, now) == StatusActive ==> Active(mute, now)
    ensures (Listed(mute, MutesPresent, now) <==> Projected(mute, now) != StatusExpired)
       <==> !(mute.endsAt < now < mute.startsAt)
    ensures (Listed(mute, MutesExpired, now) <==> Projected(mute, now) == StatusExpired)
       <==> !(mute.endsAt < now < mute.startsAt)
  {
  }

  // --- Creation -----------------------------------------------------------

  /** A creation request; a zero time is None. */
  datatype Request = Request(matchers: Labels, startsAt: Option<Time>, endsAt: Option<Time>,
                             comment: string, createdBy: string)

  datatype Field = FieldMatchers | FieldStartsAt | FieldEndsAt | FieldComment | FieldCreatedBy

  /** `validateMuteCreate`: the field blamed by the first failing check. */
  function InvalidField(req: Request): Option<Field>
  {
    if |req.matchers| == 0 then Some(FieldMatchers)
    else if req.startsAt.None? then Some(FieldStartsAt)
    else if req.endsAt.None? then Some(FieldEndsAt)
    else if !(req.startsAt.value < req.endsAt.value) then Some(FieldEndsAt)
    else if Blank(req.comment) then Some(FieldComment)
    else if Blank(req.createdBy) then Some(FieldCreatedBy)
    else None
  }

  /** The check for this field fails. */
  predicate Fails(req: Request, field: Field)
  {
    match field
    case FieldMatchers => req.matchers == map[]
    case FieldStartsAt => req.startsAt.None?
    case FieldEndsAt => req.endsAt.None? || (req.startsAt.Some? && req.endsAt.value <= req.startsAt.value)
    case FieldComment => forall c :: c in req.comment ==> IsSpace(c)
    case FieldCreatedBy => forall c :: c in req.createdBy ==> IsSpace(c)
  }

  /** The place of the field in the order of the checks. */
  function PlaceOf(field: Field): nat
  {
    match field
    case FieldMatchers => 0
    case FieldStartsAt => 1
    case FieldEndsAt => 2
    case FieldComment => 3
    case FieldCreatedBy => 4
  }

  /** This field's check fails, and none before it. */
  ghost predicate FailsFirst(req: Request, field: Field)
  {
    Fails(req, field) && forall f :: PlaceOf(f) < PlaceOf(field) ==> !Fails(req, f)
  }

  /** A request is accepted exactly when no check fails; otherwise the first
      field whose check fails is blamed. */
  lemma InvalidFieldIsFirst(req: Request)
    ensures InvalidField(req).None? <==> forall f :: !Fails(req, f)
    ensures forall f :: InvalidField(req) == Some(f) <==> FailsFirst(req, f)
  {
    BlankExactly(req.comment);
    BlankExactly(req.createdBy);
    assert |req.matchers| == 0 <==> req.matchers == map[];
    forall f ensures Fails(req, f) ==> InvalidField(req).Some? && PlaceOf(InvalidField(req).value) <= PlaceOf(f) {
    }
    if InvalidField(req).Some? {
      assert Fails(req, InvalidField(req).value);
    }
  }

  lemma BlankExactly(s: string)
    ensures Blank(s) <==> forall c :: c in s ==> IsSpace(c)
  {
    if Blank(s) {
      forall c | c in s ensures IsSpace(c) {
        var i :| 0 <= i < |s| && s[i] == c;
      }
    } else {
      var i :| 0 <= i < |s| && !IsSpace(s[i]);
      assert s[i] in s;
    }
  }

  function Requested(req: Request, id: string): Mute
    requires req.startsAt.Some? && req.endsAt.Some?
  {
    Mute(id, req.matchers, req.startsAt.value, req.endsAt.value, req.comment, req.createdBy)
  }

  // --- Runs of Create and Expire ------------------------------------------

  datatype MuteOp = CreateOp(req: Request, id: string) | ExpireOp(target: string, at: Time)

  /** INSERT: a taken primary key is an error that leaves the table alone. */
  function Inserted(mutes: MuteTable, mute: Mute): MuteTable
  {
    if mute.id in mutes then mutes else mutes[mute.id := mute]
  }

  /** UPDATE ... SET ends_at: no row is affected when the id is unknown. */
  function Ended(mutes: MuteTable, id: string, now: Time): MuteTable
  {
    if id in mutes then mutes[id := mutes[id].(endsAt := now)] else mutes
  }

  function Performed(mutes: MuteTable, op: MuteOp): MuteTable
  {
    match op
    case CreateOp(req, id) => if InvalidField(req).Some? then mutes else Inserted(mutes, Requested(req, id))
    case ExpireOp(id, at) => Ended(mutes, id, at)
  }

  /** The table after a run that starts empty. */
  function MutesAfter(ops: seq<MuteOp>): MuteTable
  {
    if ops == [] then map[] else Performed(MutesAfter(ops[..|ops| - 1]), ops[|ops| - 1])
  }

  predicate Creates(op: MuteOp, id: string)
  {
    op.CreateOp? && op.id == id && InvalidField(op.req).None?
  }

  predicate Expires(op: MuteOp, id: string)
  {
    op.ExpireOp? && op.target == id
  }

  /** Operation `c` made the mute: no acceptable Create of its id came first. */
  predicate MadeBy(ops: seq<MuteOp>, id: string, c: nat)
  {
    c < |ops| && Creates(ops[c], id) && forall l | 0 <= l < c :: !Creates(ops[l], id)
  }

  /** Operation `k` is the latest Expire of the mute made by operation `c`. */
  predicate LatestExpiry(ops: seq<MuteOp>, id: string, c: nat, k: nat)
  {
    c < k < |ops| && Expires(ops[k], id) && forall l | k < l < |ops| :: !Expires(ops[l], id)
  }

  predicate NeverExpired(ops: seq<MuteOp>, id: string, c: nat)
  {
    forall l | c < l < |ops| :: !Expires(ops[l], id)
  }

  /** The stored mute is what operation `c` requested, with the end moved to
      the time of the latest Expire since, if there was one. */
  ghost predicate ExplainsMute(ops: seq<MuteOp>, id: string, c: nat)
    requires id in MutesAfter(ops)
  {
    && MadeBy(ops, id, c)
    && var req, mute := ops[c].req, MutesAfter(ops)[id];
       && mute.id == id && mute.matchers == req.matchers
       && mute.comment == req.comment && mute.createdBy == req.createdBy
       && req.startsAt == Some(mute.startsAt) && req.endsAt.Some? && mute.startsAt < req.endsAt.value
       && (forall k: nat :: LatestExpiry(ops, id, c, k) ==> mute.endsAt == ops[k].at)
       && (NeverExpired(ops, id, c) ==> mute.endsAt == req.endsAt.value)
  }

  lemma MadeByStep(ops: seq<MuteOp>, id: string, c: nat)
    requires ops != []
    ensures var n := |ops| - 1;
            MadeBy(ops, id, c) <==>
              MadeBy(ops[..n], id, c) || (c == n && Creates(ops[n], id) && forall d: nat :: !MadeBy(ops[..n], id, d))
  {
    var n := |ops| - 1;
    if c == n && Creates(ops[n], id) && forall d: nat :: !MadeBy(ops[..n], id, d) {
      forall l | 0 <= l < n ensures !Creates(ops[l], id) {
        if Creates(ops[l], id) {
          assert Creates(ops[..n][l], id);
          FirstCreate(ops[..n], id, l);
        }
      }
    }
  }

  lemma PerformedOnStored(mutes: MuteTable, op: MuteOp, id: string)
    requires id in mutes
    ensures id in Performed(mutes, op)
    ensures Performed(mutes, op)[id] == if Expires(op, id) then mutes[id].(endsAt := op.at) else mutes[id]
  {
  }

  lemma LatestExpiryStep(ops: seq<MuteOp>, id: string, c: nat, k: nat)
    requires ops != [] && LatestExpiry(ops, id, c, k)
    ensures k == |ops| - 1 || (!Expires(ops[|ops| - 1], id) && LatestExpiry(ops[..|ops| - 1], id, c, k))
  {
  }

  lemma ExplainsStep(ops: seq<MuteOp>, id: string, c: nat)
    requires ops != [] && id in MutesAfter(ops[..|ops| - 1]) && ExplainsMute(ops[..|ops| - 1], id, c)
    ensures id in MutesAfter(ops) && ExplainsMute(ops, id, c)
  {
    var n := |ops| - 1;
    var before, mute := ops[..n], MutesAfter(ops[..n])[id];
    MadeByStep(ops, id, c);
    PerformedOnStored(MutesAfter(before), ops[n], id);
    assert before[c] == ops[c];
    forall k: nat | LatestExpiry(ops, id, c, k) ensures MutesAfter(ops)[id].endsAt == ops[k].at {
      LatestExpiryStep(ops, id, c, k);
    }
    if NeverExpired(ops, id, c) {
      assert !Expires(ops[n], id);
      assert NeverExpired(before, id, c);
    }
  }

  /** Over any run, a mute is stored exactly when some operation made it, and
      is then explained by that one and the latest that expired it. */
  lemma {:induction false} MuteLifecycle(ops: seq<MuteOp>, id: string)
    ensures id in MutesAfter(ops) <==> exists c: nat :: MadeBy(ops, id, c)
    ensures id in MutesAfter(ops) ==> exists c: nat :: ExplainsMute(ops, id, c)
    decreases |ops|
  {
    if ops != [] {
      var n := |ops| - 1;
      MuteLifecycle(ops[..n], id);
      if id in MutesAfter(ops[..n]) {
        var c: nat :| ExplainsMute(ops[..n], id, c);
        ExplainsStep(ops, id, c);
      } else if Creates(ops[n], id) {
        MadeByStep(ops, id, n);
        assert ExplainsMute(ops, id, n);
      } else {
        forall c: nat ensures !MadeBy(ops, id, c) {
          MadeByStep(ops, id, c);
        }
      }
    }
  }

  lemma FirstCreate(ops: seq<MuteOp>, id: string, l: nat)
    requires l < |ops| && Creates(ops[l], id)
    ensures exists c: nat :: MadeBy(ops, id, c)
  {
    var c := 0;
    while !Creates(ops[c], id)
      invariant c <= l && forall m :: 0 <= m < c ==> !Creates(ops[m], id)
      decreases l - c
    {
      c := c + 1;
    }
    assert MadeBy(ops, id, c);
  }

  /** The latest Expire of the mute made by `c` hit it while it was pending. */
  ghost predicate ExpiredWhilePending(ops: seq<MuteOp>, id: string, c: nat)
    requires MadeBy(ops, id, c)
  {
    exists k: nat :: LatestExpiry(ops, id, c, k) && ops[k].at < ops[c].req.startsAt.value
  }

  /** The stored interval is proper exactly when the latest Expire, if any,
      did not hit the mute while it was pending. */
  lemma ProperUnlessExpiredWhilePending(ops: seq<MuteOp>, id: string, c: nat)
    requires MadeBy(ops, id, c)
    ensures id in MutesAfter(ops)
    ensures MutesAfter(ops)[id].startsAt <= MutesAfter(ops)[id].endsAt <==> !ExpiredWhilePending(ops, id, c)
  {
    MuteLifecycle(ops, id);
    assert ExplainsMute(ops, id, c);
    if !NeverExpired(ops, id, c) {
      var k := LastExpire(ops, id, c);
      assert forall l: nat :: LatestExpiry(ops, id, c, l) ==> l == k;
    }
  }

  lemma LastExpire(ops: seq<MuteOp>, id: string, c: nat) returns (k: nat)
    requires !NeverExpired(ops, id, c)
    ensures LatestExpiry(ops, id, c, k)
  {
    k := |ops| - 1;
    while !Expires(ops[k], id)
      invariant c < k < |ops| && forall l :: k < l < |ops| ==> !Expires(ops[l], id)
      decreases k
    {
      k := k - 1;
    }
  }

  /** Mute lifecycle agreement: for a mute not expired while pending, Active,
      the projected status, the SQL window and the list filters tell one
      story at every instant. */
  lemma LifecycleAgreement(ops: seq<MuteOp>, id: string, c: nat, now: Time)
    requires MadeBy(ops, id, c) && !ExpiredWhilePending(ops, id, c)
    ensures id in MutesAfter(ops)
    ensures var mute := MutesAfter(ops)[id];
            && (Active(mute, now) <==> InWindow(mute, now))
            && (Active(mute, now) <==> Projected(mute, now) == StatusActive)
            && (Listed(mute, MutesPresent, now) <==> Projected(mute, now) != StatusExpired)
            && (Listed(mute, MutesExpired, now) <==> Projected(mute, now) == StatusExpired)
  {
    ProperUnlessExpiredWhilePending(ops, id, c);
    FilterAgreesWithStatus(MutesAfter(ops)[id], now);
  }

  /** After an Expire, at every instant: list filter and projected status
      disagree exactly between that Expire and the requested start, so only
      when it hit the mute while pending, and then until it would have begun. */
  lemma DisagreementWindow(ops: seq<MuteOp>, id: string, c: nat, k: nat, now: Time)
    requires MadeBy(ops, id, c) && LatestExpiry(ops, id, c, k)
    ensures id in MutesAfter(ops)
    ensures var mute, between := MutesAfter(ops)[id], ops[k].at < now < ops[c].req.startsAt.value;
            && ((Listed(mute, MutesExpired, now) <==> Projected(mute, now) == StatusExpired) <==> !between)
            && ((Listed(mute, MutesPresent, now) <==> Projected(mute, now) != StatusExpired) <==> !between)
  {
    MuteLifecycle(ops, id);
    assert ExplainsMute(ops, id, c);
    FilterAgreesWithStatus(MutesAfter(ops)[id], now);
  }

  /** A mute for 10..20 expired at 5: at 7 the expired list has it, and shows
      it as pending. */
  lemma ListedExpiredShownPending()
    ensures var req := Request(map["team" := "a"], Some(10), Some(20), "c", "o");
            var ops := [CreateOp(req, "m"), ExpireOp("m", 5)];
            && "m" in MutesAfter(ops)
            && Listed(MutesAfter(ops)["m"], MutesExpired, 7) && Projected(MutesAfter(ops)["m"], 7) == StatusPending
  {
    var req := Request(map["team" := "a"], Some(10), Some(20), "c", "o");
    var ops := [CreateOp(req, "m"), ExpireOp("m", 5)];
    assert ops[..1][..0] == [] && ops[..1][0] == CreateOp(req, "m");
    assert !IsSpace(req.comment[0]) && !IsSpace(req.createdBy[0]);
    assert |req.matchers| == 1;
    assert MutesAfter(ops[..1]) == map["m" := Requested(req, "m")];
  }

  /** Pending or not, a mute is never active strictly after its latest Expire:
      the mute read does not find it and the present list does not show it.
      Only its projected status can then differ from expired, and only if the
      Expire hit it while pending. */
  lemma NeverActiveAfterExpire(ops: seq<MuteOp>, id: string, c: nat, k: nat, now: Time)
    requires MadeBy(ops, id, c) && LatestExpiry(ops, id, c, k) && ops[k].at < now
    ensures id in MutesAfter(ops)
    ensures !Active(MutesAfter(ops)[id], now) && !InWindow(MutesAfter(ops)[id], now)
    ensures !Listed(MutesAfter(ops)[id], MutesPresent, now)
    ensures Projected(MutesAfter(ops)[id], now) != StatusExpired ==> ExpiredWhilePending(ops, id, c)
  {
    MuteLifecycle(ops, id);
    assert ExplainsMute(ops, id, c);
    ProperUnlessExpiredWhilePending(ops, id, c);
  }
}
