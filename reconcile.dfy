/** One reconciliation cycle: for every configured record name, in
    configuration order, update the first listed record of that name when
    its content differs from the current IP, leave it alone when it already
    points there, and create a proxied A record when no record has the name. */
module Reconcile {
  import opened Dns

  /** The type of every record the updater creates. */
  const CreatedType: string := "A"

  /** A write the updater sends to the provider, with the zone it targets. */
  datatype Write =
    | Update(zone: string, recordId: string, record: Record)
    | Create(zone: string, record: Record)

  /** A line the updater prints. */
  datatype LogLine =
    | ErrorLine(message: string)
    | SetLine(name: string, content: string)
    | CreatedLine(name: string, ip: string)

  /** The record a Create sends: no ID (the provider assigns one), type A,
      the configured name, the current IP, proxied. */
  function NewRecord(name: string, ip: string): (r: Record) {
    Record("", CreatedType, name, ip, true)
  }

  /** The writes issued for one configured name against a snapshot: none or one. */
  function Decide(records: seq<Record>, zone: string, name: string, ip: string): (r: seq<Write>)
    ensures |r| <= 1
    ensures forall w :: w in r ==> w.zone == zone && w.record.name == name && w.record.content == ip
  {
    match FirstMatchByName(records, name)
    case None => [Create(zone, NewRecord(name, ip))]
    case Some(i) =>
      if records[i].content != ip then [Update(zone, records[i].id, records[i].(content := ip))]
      else []
  }

  /** The writes issued for all configured names, in configuration order. */
  function Plan(records: seq<Record>, zone: string, names: seq<string>, ip: string): (r: seq<Write>)
    ensures |r| <= |names|
    decreases |names|
  {
    if |names| == 0 then []
    else Decide(records, zone, names[0], ip) + Plan(records, zone, names[1..], ip)
  }

  /** What the updater prints for the k-th write of a cycle: the error text
      when that call failed, a confirmation otherwise. */
  function Report(w: Write, k: nat, failures: map<nat, string>): (r: LogLine) {
    if k in failures then ErrorLine(failures[k])
    else match w
      case Update(_, _, rec) => SetLine(rec.name, rec.content)
      case Create(_, rec) => CreatedLine(rec.name, rec.content)
  }

  /** `log` is the line-by-line report of `writes`. */
  predicate Reports(writes: seq<Write>, failures: map<nat, string>, log: seq<LogLine>) {
    |log| == |writes| && forall k :: 0 <= k < |writes| ==> log[k] == Report(writes[k], k, failures)
  }

  /** Reporting one more write extends the report by its line. */
  lemma ReportsSnoc(writes: seq<Write>, failures: map<nat, string>, log: seq<LogLine>, w: Write)
    requires Reports(writes, failures, log)
    ensures Reports(writes + [w], failures, log + [Report(w, |writes|, failures)])
  {
    var writes', log' := writes + [w], log + [Report(w, |writes|, failures)];
    forall k | 0 <= k < |writes'| ensures log'[k] == Report(writes'[k], k, failures) {
      if k < |writes| {
        assert log'[k] == log[k] && writes'[k] == writes[k];
      }
    }
  }

  // ---------------------------------------------------------------------
  // The decision for one name

  /** A name no record carries gets exactly one Create of a proxied A record
      pointing at the IP, and no Update. */
  lemma DecideMissing(records: seq<Record>, zone: string, name: string, ip: string)
    requires forall j :: 0 <= j < |records| ==> records[j].name != name
    ensures Decide(records, zone, name, ip) == [Create(zone, Record("", "A", name, ip, true))]
  {
  }

  /** When the first record carrying the name already points at the IP,
      nothing is written for that name. */
  lemma DecideUnchanged(records: seq<Record>, zone: string, name: string, ip: string, i: nat)
    requires i < |records| && records[i].name == name
    requires forall j :: 0 <= j < i ==> records[j].name != name
    requires records[i].content == ip
    ensures Decide(records, zone, name, ip) == []
  {
    FirstMatchAt(records, name, i);
  }

  /** When the first record carrying the name points elsewhere, exactly one
      Update is sent, under that record's ID, with that record's fields and
      only the content replaced by the IP. */
  lemma DecideUpdate(records: seq<Record>, zone: string, name: string, ip: string, i: nat)
    requires i < |records| && records[i].name == name
    requires forall j :: 0 <= j < i ==> records[j].name != name
    requires records[i].content != ip
    ensures Decide(records, zone, name, ip) ==
      [Update(zone, records[i].id,
              Record(records[i].id, records[i].rtype, name, ip, records[i].proxied))]
  {
    FirstMatchAt(records, name, i);
  }

  /** Matching ignores the record type: whenever some record carries the name,
      whatever its type, no record is created for it. */
  lemma DecideIgnoresType(records: seq<Record>, zone: string, name: string, ip: string, i: nat)
    requires i < |records| && records[i].name == name
    ensures forall w :: w in Decide(records, zone, name, ip) ==> w.Update?
  {
  }

  /** Only the records up to the first match are examined: whatever follows
      it, later records of the same name included, leaves the decision alone. */
  lemma LaterRecordsIgnored(records: seq<Record>, rest: seq<Record>, zone: string, name: string, ip: string)
    requires FirstMatchByName(records, name).Some?
    ensures Decide(records + rest, zone, name, ip) == Decide(records, zone, name, ip)
  {
    FirstMatchPrefix(records, rest, name);
    var i := FirstMatchByName(records, name).value;
    assert (records + rest)[i] == records[i];
  }

  // ---------------------------------------------------------------------
  // The whole plan

  /** The plan for a concatenation of name lists is the concatenation of the
      plans: writes come in configuration order, each name contributing its
      own decision in its own place. */
  lemma {:induction false} PlanSplit(records: seq<Record>, zone: string, a: seq<string>, b: seq<string>, ip: string)
    ensures Plan(records, zone, a + b, ip) == Plan(records, zone, a, ip) + Plan(records, zone, b, ip)
    decreases |a|
  {
    if |a| == 0 {
      assert a + b == b;
    } else {
      assert (a + b)[1..] == a[1..] + b;
      PlanSplit(records, zone, a[1..], b, ip);
    }
  }

  /** Every write of a plan targets the zone, carries one of the configured
      names and points at the IP. */
  lemma {:induction false} PlanTargetsConfiguredNames(records: seq<Record>, zone: string, names: seq<string>, ip: string)
    ensures forall w :: w in Plan(records, zone, names, ip) ==>
      w.zone == zone && w.record.name in names && w.record.content == ip
    decreases |names|
  {
    if |names| > 0 {
      PlanTargetsConfiguredNames(records, zone, names[1..], ip);
    }
  }

  /** Planning one more name appends its decision. */
  lemma PlanSnoc(records: seq<Record>, zone: string, names: seq<string>, n: nat, ip: string)
    requires n < |names|
    ensures Plan(records, zone, names[..n + 1], ip) == Plan(records, zone, names[..n], ip) + Decide(records, zone, names[n], ip)
  {
    assert names[..n + 1] == names[..n] + [names[n]];
    PlanSplit(records, zone, names[..n], [names[n]], ip);
    PlanSingle(records, zone, names[n], ip);
  }

  /** A single name's plan is its decision. */
  lemma PlanSingle(records: seq<Record>, zone: string, name: string, ip: string)
    ensures Plan(records, zone, [name], ip) == Decide(records, zone, name, ip)
  {
    assert Plan(records, zone, [name][1..], ip) == [];
  }

  /** The snapshot is not refreshed within a cycle, so a name listed twice
      gets the same decision twice: a missing name is created twice. */
  lemma DuplicateMissingNameCreatedTwice(records: seq<Record>, zone: string, name: string, ip: string)
    requires forall j :: 0 <= j < |records| ==> records[j].name != name
    ensures Plan(records, zone, [name, name], ip) ==
      [Create(zone, NewRecord(name, ip)), Create(zone, NewRecord(name, ip))]
  {
    PlanSplit(records, zone, [name], [name], ip);
    assert [name] + [name] == [name, name];
    PlanSingle(records, zone, name, ip);
  }

  /** The snapshot is not refreshed within a cycle, so any name listed twice
      gets the same decision twice. */
  lemma DuplicateNameDecidedTwice(records: seq<Record>, zone: string, name: string, ip: string)
    ensures Plan(records, zone, [name, name], ip) ==
      Decide(records, zone, name, ip) + Decide(records, zone, name, ip)
  {
    assert [name, name][1..] == [name];
    assert [name][1..] == [];
  }

  // ---------------------------------------------------------------------
  // The loop as the updater runs it

  /** The nested loops of one cycle over a fixed snapshot. `failures` maps the
      position of a write within the cycle to the error its call returns; a
      failure is printed and changes nothing else. */
  method ReconcileRecords(records: seq<Record>, zone: string, names: seq<string>, ip: string,
                          failures: map<nat, string>)
    returns (writes: seq<Write>, log: seq<LogLine>)
    ensures writes == Plan(records, zone, names, ip)
    ensures Reports(writes, failures, log)
  {
    writes, log := [], [];
    for n := 0 to |names|
      invariant writes == Plan(records, zone, names[..n], ip)
      invariant Reports(writes, failures, log)
    {
      var recordName := names[n];
      ghost var writes0, log0 := writes, log;
      ghost var decision := Decide(records, zone, recordName, ip);
      var recordExists := false;
      var j := 0;
      while j < |records|
        invariant j <= |records|
        invariant forall k :: 0 <= k < j ==> records[k].name != recordName
        invariant !recordExists
        invariant writes == writes0 && log == log0
      {
        var dnsRecord := records[j];
        if recordName == dnsRecord.name {
          FirstMatchAt(records, recordName, j);
          if dnsRecord.content != ip {
            dnsRecord := dnsRecord.(content := ip);
            var w := Update(zone, dnsRecord.id, dnsRecord);
            assert decision == [w];
            ReportsSnoc(writes, failures, log, w);
            log := log + [Report(w, |writes|, failures)];
            writes := writes + [w];
          } else {
            assert decision == [];
          }
          recordExists := true;
          break;
        }
        j := j + 1;
      }
      if !recordExists {
        var w := Create(zone, NewRecord(recordName, ip));
        assert decision == [w];
        ReportsSnoc(writes, failures, log, w);
        log := log + [Report(w, |writes|, failures)];
        writes := writes + [w];
      }
      assert writes == writes0 + decision;
      PlanSnoc(records, zone, names, n, ip);
    }
    assert names[..|names|] == names;
  }

  /** One cycle: resolve the IP, list the zone once, then reconcile. `resolved`
      and `listing` stand for what the IP lookup and the listing call return;
      `listed` says whether the listing call was made. A failure of either
      ends the cycle with one printed error and no write. */
  method UpdateCycle(resolved: Result<string>, listing: Result<seq<Record>>, zone: string,
                     names: seq<string>, failures: map<nat, string>)
    returns (listed: bool, writes: seq<Write>, log: seq<LogLine>)
    ensures listed <==> resolved.Ok?
    ensures resolved.Err? ==> writes == [] && log == [ErrorLine(resolved.message)]
    ensures resolved.Ok? && listing.Err? ==> writes == [] && log == [ErrorLine(listing.message)]
    ensures resolved.Ok? && listing.Ok? ==>
      writes == Plan(listing.value, zone, names, resolved.value) && Reports(writes, failures, log)
  {
    if resolved.Err? {
      return false, [], [ErrorLine(resolved.message)];
    }
    var actualIP := resolved.value;
    listed := true;
    if listing.Err? {
      return true, [], [ErrorLine(listing.message)];
    }
    writes, log := ReconcileRecords(listing.value, zone, names, actualIP, failures);
  }
}
