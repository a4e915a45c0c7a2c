/** The DNS records of one zone as the provider lists them, and the lookup
    the updater performs over such a listing. */
module Dns {

  datatype Option<T> = None | Some(value: T)

  /** The outcome of a call into code outside the model: a value, or the
      error message that the updater prints. */
  datatype Result<T> = Ok(value: T) | Err(message: string)

  /** A DNS record: the fields the updater reads, changes or sends. The
      record type is called `rtype` because `type` is a keyword. */
  datatype Record = Record(id: string, rtype: string, name: string, content: string, proxied: bool)

  /** The position of the first record of `records` whose name is `name`.
      Only the name is compared: the record type plays no part. */
  function FirstMatchByName(records: seq<Record>, name: string): (r: Option<nat>)
    ensures r.Some? ==> r.value < |records| && records[r.value].name == name
    ensures r.Some? ==> forall j :: 0 <= j < r.value ==> records[j].name != name
    ensures r.None? <==> forall j :: 0 <= j < |records| ==> records[j].name != name
    decreases |records|
  {
    if |records| == 0 then None
    else if records[0].name == name then Some(0)
    else match FirstMatchByName(records[1..], name)
      case None => None
      case Some(i) => Some(i + 1)
  }

  /** A position that carries `name` with no earlier one doing so is the first match. */
  lemma FirstMatchAt(records: seq<Record>, name: string, i: nat)
    requires i < |records| && records[i].name == name
    requires forall j :: 0 <= j < i ==> records[j].name != name
    ensures FirstMatchByName(records, name) == Some(i)
  {
  }

  /** Records appended after the first match do not move it. */
  lemma {:induction false} FirstMatchPrefix(records: seq<Record>, rest: seq<Record>, name: string)
    requires FirstMatchByName(records, name).Some?
    ensures FirstMatchByName(records + rest, name) == FirstMatchByName(records, name)
  {
    var i := FirstMatchByName(records, name).value;
    assert (records + rest)[i] == records[i];
    forall j | 0 <= j < i ensures (records + rest)[j].name != name {
      assert (records + rest)[j] == records[j];
    }
    FirstMatchAt(records + rest, name, i);
  }
}
