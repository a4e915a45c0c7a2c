/** What the provider does with the writes of a cycle, and the convergence
    property of the updater: once a cycle's writes have taken effect, the
    next cycle with the same IP writes nothing. */
module Convergence {
  import opened Dns
  import opened Reconcile

  /** The listing after the provider has applied one write: an Update
      replaces the record with that ID; a Create adds the record at the end. */
  function ApplyWrite(records: seq<Record>, w: Write): (r: seq<Record>)
    ensures |r| == if w.Create? then |records| + 1 else |records|
  {
    match w
    case Update(_, id, rec) =>
      seq(|records|, k requires 0 <= k < |records| => if records[k].id == id then rec else records[k])
    case Create(_, rec) => records + [rec]
  }

  /** The listing after the provider has applied writes in order. */
  function ApplyAll(records: seq<Record>, writes: seq<Write>): (r: seq<Record>)
    decreases |writes|
  {
    if |writes| == 0 then records else ApplyAll(ApplyWrite(records, writes[0]), writes[1..])
  }

  /** The provider's own invariant on a listing: every record has an ID, and
      no two records share one. */
  ghost predicate ProviderIds(records: seq<Record>) {
    (forall i :: 0 <= i < |records| ==> records[i].id != "") &&
    (forall i, j :: 0 <= i < j < |records| ==> records[i].id != records[j].id)
  }

  /** The name's first record points at the IP. */
  ghost predicate Settled(records: seq<Record>, name: string, ip: string) {
    var m := FirstMatchByName(records, name);
    m.Some? && records[m.value].content == ip
  }

  /** `now` is what `snapshot` becomes part way through applying a cycle's
      writes: the snapshot's records keep their ID and name and either are
      unchanged or point at the IP; after them come created records, each
      without an ID and pointing at the IP. */
  ghost predicate Tracks(snapshot: seq<Record>, now: seq<Record>, ip: string) {
    |snapshot| <= |now| &&
    (forall j :: 0 <= j < |snapshot| ==>
       now[j].id == snapshot[j].id && now[j].name == snapshot[j].name &&
       (now[j] == snapshot[j] || now[j] == snapshot[j].(content := ip))) &&
    (forall j :: |snapshot| <= j < |now| ==> now[j].id == "" && now[j].content == ip)
  }

  /** A name is settled exactly when the updater would write nothing for it. */
  lemma SettledNoWrite(records: seq<Record>, zone: string, name: string, ip: string)
    ensures Settled(records, name, ip) <==> Decide(records, zone, name, ip) == []
  {
  }

  lemma {:induction false} ApplyAllConcat(records: seq<Record>, a: seq<Write>, b: seq<Write>)
    ensures ApplyAll(records, a + b) == ApplyAll(ApplyAll(records, a), b)
    decreases |a|
  {
    if |a| == 0 {
      assert a + b == b;
    } else {
      assert (a + b)[1..] == a[1..] + b;
      ApplyAllConcat(ApplyWrite(records, a[0]), a[1..], b);
    }
  }

  lemma ApplyAllSingle(records: seq<Record>, w: Write)
    ensures ApplyAll(records, [w]) == ApplyWrite(records, w)
  {
    assert [w][1..] == [];
  }

  /** With distinct, non-empty snapshot IDs, an Update under the ID of
      snapshot record `i` changes position `i` of a tracking listing and no other. */
  lemma ApplyUpdateAt(snapshot: seq<Record>, now: seq<Record>, zone: string, ip: string, i: nat)
    requires ProviderIds(snapshot) && Tracks(snapshot, now, ip) && i < |snapshot|
    ensures var after := ApplyAll(now, [Update(zone, snapshot[i].id, snapshot[i].(content := ip))]);
      |after| == |now| &&
      forall k :: 0 <= k < |now| ==> after[k] == if k == i then snapshot[i].(content := ip) else now[k]
  {
    var rec := snapshot[i].(content := ip);
    ApplyAllSingle(now, Update(zone, snapshot[i].id, rec));
    var after := ApplyWrite(now, Update(zone, snapshot[i].id, rec));
    forall k | 0 <= k < |now| ensures after[k] == if k == i then rec else now[k] {
      if k < |snapshot| && k != i { assert snapshot[k].id != snapshot[i].id; }
    }
  }

  /** A name no snapshot record carries is settled by its Create. */
  lemma ApplyCreateTracks(snapshot: seq<Record>, now: seq<Record>, zone: string, name: string, ip: string)
    requires Tracks(snapshot, now, ip) && FirstMatchByName(snapshot, name).None?
    ensures var after := ApplyAll(now, [Create(zone, NewRecord(name, ip))]);
      Tracks(snapshot, after, ip) && Settled(after, name, ip)
  {
    ApplyAllSingle(now, Create(zone, NewRecord(name, ip)));
    var after := now + [NewRecord(name, ip)];
    assert after[|now|].name == name;
    assert FirstMatchByName(after, name).Some?;
  }

  /** A name whose first snapshot record is `i` is settled once that record
      points at the IP, whether it did already or is updated. */
  lemma ApplyMatchTracks(snapshot: seq<Record>, now: seq<Record>, zone: string, name: string, ip: string, i: nat)
    requires ProviderIds(snapshot) && Tracks(snapshot, now, ip) && FirstMatchByName(snapshot, name) == Some(i)
    ensures Tracks(snapshot, ApplyAll(now, Decide(snapshot, zone, name, ip)), ip)
    ensures Settled(ApplyAll(now, Decide(snapshot, zone, name, ip)), name, ip)
  {
    var after := ApplyAll(now, Decide(snapshot, zone, name, ip));
    forall j | 0 <= j < i ensures now[j].name != name { assert now[j].name == snapshot[j].name; }
    if snapshot[i].content == ip {
      assert after == now;
      FirstMatchAt(now, name, i);
    } else {
      ApplyUpdateAt(snapshot, now, zone, ip, i);
      forall j | 0 <= j < i ensures after[j].name != name { assert after[j] == now[j]; }
      FirstMatchAt(after, name, i);
    }
  }

  /** Applying the decision for `name` keeps `now` tracking the snapshot and
      settles `name`. */
  lemma ApplyDecisionTracks(snapshot: seq<Record>, now: seq<Record>, zone: string, name: string, ip: string)
    requires ProviderIds(snapshot) && Tracks(snapshot, now, ip)
    ensures Tracks(snapshot, ApplyAll(now, Decide(snapshot, zone, name, ip)), ip)
    ensures Settled(ApplyAll(now, Decide(snapshot, zone, name, ip)), name, ip)
  {
    match FirstMatchByName(snapshot, name)
    case None => ApplyCreateTracks(snapshot, now, zone, name, ip);
    case Some(i) => ApplyMatchTracks(snapshot, now, zone, name, ip, i);
  }

  /** Applying the decision for `name` leaves every settled name settled. */
  lemma ApplyDecisionKeepsSettled(snapshot: seq<Record>, now: seq<Record>, zone: string, name: string,
                                  ip: string, other: string)
    requires ProviderIds(snapshot) && Tracks(snapshot, now, ip) && Settled(now, other, ip)
    ensures Settled(ApplyAll(now, Decide(snapshot, zone, name, ip)), other, ip)
  {
    var d := Decide(snapshot, zone, name, ip);
    var after := ApplyAll(now, d);
    var k := FirstMatchByName(now, other).value;
    match FirstMatchByName(snapshot, name)
    case None =>
      ApplyAllSingle(now, Create(zone, NewRecord(name, ip)));
      assert after == now + [NewRecord(name, ip)];
      FirstMatchPrefix(now, [NewRecord(name, ip)], other);
    case Some(i) =>
      if snapshot[i].content == ip {
        assert after == now;
      } else if other == name {
        ApplyDecisionTracks(snapshot, now, zone, name, ip);
      } else {
        assert d == [Update(zone, snapshot[i].id, snapshot[i].(content := ip))];
        ApplyUpdateAt(snapshot, now, zone, ip, i);
        assert now[i].name == name;
        forall j | 0 <= j < k ensures after[j].name != other {
          if j != i { assert after[j] == now[j]; }
        }
        FirstMatchAt(after, other, k);
      }
  }

  /** Applying the writes of a plan keeps tracking the snapshot, settles every
      planned name and unsettles none. */
  lemma {:induction false} ApplyPlanSettles(snapshot: seq<Record>, now: seq<Record>, zone: string,
                                            names: seq<string>, ip: string)
    requires ProviderIds(snapshot) && Tracks(snapshot, now, ip)
    ensures Tracks(snapshot, ApplyAll(now, Plan(snapshot, zone, names, ip)), ip)
    ensures forall k :: 0 <= k < |names| ==> Settled(ApplyAll(now, Plan(snapshot, zone, names, ip)), names[k], ip)
    ensures forall other :: Settled(now, other, ip) ==> Settled(ApplyAll(now, Plan(snapshot, zone, names, ip)), other, ip)
    decreases |names|
  {
    if |names| > 0 {
      var d := Decide(snapshot, zone, names[0], ip);
      var next := ApplyAll(now, d);
      var rest := Plan(snapshot, zone, names[1..], ip);
      ApplyAllConcat(now, d, rest);
      ApplyDecisionTracks(snapshot, now, zone, names[0], ip);
      forall other | Settled(now, other, ip) ensures Settled(next, other, ip) {
        ApplyDecisionKeepsSettled(snapshot, now, zone, names[0], ip, other);
      }
      ApplyPlanSettles(snapshot, next, zone, names[1..], ip);
      forall k | 0 <= k < |names| ensures Settled(ApplyAll(next, rest), names[k], ip) {
        if k > 0 { assert names[k] == names[1..][k - 1]; }
      }
    }
  }

  /** When every configured name is settled, the plan is empty. */
  lemma {:induction false} SettledPlanEmpty(records: seq<Record>, zone: string, names: seq<string>, ip: string)
    requires forall k :: 0 <= k < |names| ==> Settled(records, names[k], ip)
    ensures Plan(records, zone, names, ip) == []
    decreases |names|
  {
    if |names| > 0 {
      SettledNoWrite(records, zone, names[0], ip);
      assert forall k :: 0 <= k < |names[1..]| ==> names[1..][k] == names[k + 1];
      SettledPlanEmpty(records, zone, names[1..], ip);
    }
  }

  /** Idempotence: once the provider has applied a cycle's writes to the
      listing it served, the next cycle with the same IP and the same names
      issues no write at all. */
  lemma SecondCycleWritesNothing(snapshot: seq<Record>, zone: string, names: seq<string>, ip: string)
    requires ProviderIds(snapshot)
    ensures Plan(ApplyAll(snapshot, Plan(snapshot, zone, names, ip)), zone, names, ip) == []
  {
    ApplyPlanSettles(snapshot, snapshot, zone, names, ip);
    SettledPlanEmpty(ApplyAll(snapshot, Plan(snapshot, zone, names, ip)), zone, names, ip);
  }
}
