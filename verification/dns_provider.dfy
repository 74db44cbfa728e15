/** The DNS backend the service drives (services/managed_dns/dns_provider.py): one address, hence one
    address family, is published per name, and a deletion removes both families. */
module DnsProvider {
  import opened Registrations

  datatype Call = Upsert(name: Name, address: Address) | Delete(name: Name)

  type Records = map<Name, Address>

  function Applied(records: Records, call: Call): Records {
    match call
    case Upsert(name, address) => records[name := address]
    case Delete(name) => records - {name}
  }

  class LoggingDnsProvider {
    var upserts: seq<(Name, Address)>
    var deletes: seq<Name>
    var records: Records

    constructor ()
      ensures upserts == [] && deletes == [] && records == map[]
    {
      upserts, deletes, records := [], [], map[];
    }

    method UpsertRecord(name: Name, address: Address)
      modifies this
      ensures upserts == old(upserts) + [(name, address)] && deletes == old(deletes)
      ensures records == Applied(old(records), Upsert(name, address))
    {
      upserts := upserts + [(name, address)];
      records := records[name := address];
    }

    method DeleteRecord(name: Name)
      modifies this
      ensures deletes == old(deletes) + [name] && upserts == old(upserts)
      ensures records == Applied(old(records), Delete(name))
    {
      deletes := deletes + [name];
      records := records - {name};
    }
  }

  // ---- the same contract over RFC 2136 ----

  /** The record types of one owner name; `Other` stands for everything the service has no say over. */
  datatype RecordType = A | AAAA | Other(code: nat)

  /** One item of a dynamic update: delete a whole RRset (section 2.5.2 of RFC 2136), or add a record. */
  datatype Change = DeleteSet(name: Name, kind: RecordType) | Add(name: Name, kind: RecordType, data: string)

  type Zone = map<(Name, RecordType), set<string>>

  function KindOf(address: Address): RecordType {
    if address.V4? then A else AAAA
  }

  function Changed(zone: Zone, change: Change): Zone {
    match change
    case DeleteSet(n, kind) => zone - {(n, kind)}
    case Add(n, kind, data) => zone[(n, kind) := (if (n, kind) in zone then zone[(n, kind)] else {}) + {data}]
  }

  function Updated(zone: Zone, message: seq<Change>): Zone
    decreases |message|
  {
    if message == [] then zone else Updated(Changed(zone, message[0]), message[1..])
  }

  /** The update that carries out a call: an upsert drops the other family and replaces its own. */
  function Message(call: Call): seq<Change> {
    match call
    case Upsert(n, address) =>
      [DeleteSet(n, if address.V4? then AAAA else A), DeleteSet(n, KindOf(address)),
       Add(n, KindOf(address), address.text)]
    case Delete(n) => [DeleteSet(n, A), DeleteSet(n, AAAA)]
  }

  /** The zone publishes exactly the address the provider records for the name. */
  ghost predicate ShowsAt(zone: Zone, records: Records, n: Name) {
    && ((n, A) in zone <==> n in records && records[n].V4?)
    && ((n, AAAA) in zone <==> n in records && records[n].V6?)
    && (n in records ==> zone[(n, KindOf(records[n]))] == {records[n].text})
  }

  ghost predicate Shows(zone: Zone, records: Records) {
    forall n :: ShowsAt(zone, records, n)
  }

  lemma ZoneFollowsAt(zone: Zone, records: Records, call: Call, n: Name)
    requires ShowsAt(zone, records, n)
    ensures ShowsAt(Updated(zone, Message(call)), Applied(records, call), n)
  {
    ThreeChanges(zone, call);
  }

  lemma ThreeChanges(zone: Zone, call: Call)
    ensures var m := Message(call);
            Updated(zone, m) == if call.Upsert? then Changed(Changed(Changed(zone, m[0]), m[1]), m[2])
                                else Changed(Changed(zone, m[0]), m[1])
  {
    var m := Message(call);
    var twice := Changed(Changed(zone, m[0]), m[1]);
    assert m[1..][1..] == m[2..];
    assert Updated(zone, m) == Updated(twice, m[2..]);
    if call.Upsert? {
      assert m[2..][1..] == [];
      assert Updated(twice, m[2..]) == Updated(Changed(twice, m[2]), []);
    }
  }

  function AllApplied(records: Records, calls: seq<Call>): Records
    decreases |calls|
  {
    if calls == [] then records else AllApplied(Applied(records, calls[0]), calls[1..])
  }

  function AllUpdated(zone: Zone, calls: seq<Call>): Zone
    decreases |calls|
  {
    if calls == [] then zone else AllUpdated(Updated(zone, Message(calls[0])), calls[1..])
  }

  /** Whatever the service calls, in whatever order, a zone driven by dynamic updates publishes for every name
      one address of one family, the one recorded, or none, and keeps its records of other types. */
  lemma {:induction false} ZoneFollows(zone: Zone, records: Records, calls: seq<Call>)
    requires Shows(zone, records)
    ensures Shows(AllUpdated(zone, calls), AllApplied(records, calls))
    ensures forall n: Name, code: nat :: (n, Other(code)) in zone <==> (n, Other(code)) in AllUpdated(zone, calls)
    ensures forall n: Name, code: nat | (n, Other(code)) in zone ::
              AllUpdated(zone, calls)[(n, Other(code))] == zone[(n, Other(code))]
    decreases |calls|
  {
    if calls != [] {
      forall n ensures ShowsAt(Updated(zone, Message(calls[0])), Applied(records, calls[0]), n) {
        ZoneFollowsAt(zone, records, calls[0], n);
      }
      ThreeChanges(zone, calls[0]);
      ZoneFollows(Updated(zone, Message(calls[0])), Applied(records, calls[0]), calls[1..]);
    }
  }
}
