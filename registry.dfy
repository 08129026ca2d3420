/**
  The directory service (src/registry/registry.ts): an in-memory array of
  registered nodes, `/registerNode` (validate, dedupe, push) and
  `/getNodeRegistry` (the whole array, in registration order).
 */
module RegistryService {
  import opened NodeTable

  /** A `/registerNode` body as the handler destructures it. */
  datatype Request = Request(nodeId: Json, pubKey: Json)

  /** The directory's validation: both fields present and the key not empty. */
  predicate RegistryAccepts(nodeId: Json, pubKey: Json) {
    !(nodeId == Undefined || pubKey == Undefined || pubKey == Text(""))
  }

  /** What one `/registerNode` call reports, and the table it leaves. */
  function Register(table: seq<Entry>, nodeId: Json, pubKey: Json): (r: (Outcome, seq<Entry>))
    ensures r.0 == InvalidRequest <==> !RegistryAccepts(nodeId, pubKey)
    ensures r.0 == AlreadyRegistered <==> RegistryAccepts(nodeId, pubKey) && HasId(table, nodeId)
    ensures r.0 == Registered <==> RegistryAccepts(nodeId, pubKey) && !HasId(table, nodeId)
    ensures r.1 == if r.0 == Registered then table + [Entry(nodeId, pubKey)] else table
    ensures DistinctIds(table) ==> DistinctIds(r.1)
  {
    if !RegistryAccepts(nodeId, pubKey) then (InvalidRequest, table)
    else AddIfAbsent(table, Entry(nodeId, pubKey))
  }

  /** The table after a series of `/registerNode` calls, in arrival order. */
  function Replay(table: seq<Entry>, requests: seq<Request>): seq<Entry> {
    if requests == [] then table
    else
      var last := requests[|requests| - 1];
      Register(Replay(table, requests[..|requests| - 1]), last.nodeId, last.pubKey).1
  }

  /** A request that passes the directory's validation. */
  predicate Accepted(request: Request) {
    RegistryAccepts(request.nodeId, request.pubKey)
  }

  /** The entry a request is stored as. */
  function EntryOf(request: Request): Entry {
    Entry(request.nodeId, request.pubKey)
  }

  /** `entry` is what one of the accepted `requests` is stored as. */
  predicate FromAccepted(entry: Entry, requests: seq<Request>) {
    exists r :: r in requests && Accepted(r) && entry == EntryOf(r)
  }

  /** Over any series of calls the table only grows at the end and keeps its ids distinct. */
  lemma {:induction false} ReplayAppendOnly(table: seq<Entry>, requests: seq<Request>)
    requires DistinctIds(table)
    ensures var t := Replay(table, requests);
      && |table| <= |t| && t[..|table|] == table
      && DistinctIds(t)
  {
    if requests != [] {
      var init := requests[..|requests| - 1];
      ReplayAppendOnly(table, init);
      var before := Replay(table, init);
      assert before[..|table|] == table;
    }
  }

  /** Every entry a series of calls adds comes from one of its accepted requests. */
  lemma {:induction false} ReplayOnlyAccepted(table: seq<Entry>, requests: seq<Request>)
    ensures forall k :: |table| <= k < |Replay(table, requests)| ==>
      FromAccepted(Replay(table, requests)[k], requests)
  {
    if requests != [] {
      var init := requests[..|requests| - 1];
      var last := requests[|requests| - 1];
      ReplayOnlyAccepted(table, init);
      var before := Replay(table, init);
      var after := Replay(table, requests);
      assert after == Register(before, last.nodeId, last.pubKey).1;
      forall k | |table| <= k < |after|
        ensures FromAccepted(after[k], requests)
      {
        if k < |before| {
          assert FromAccepted(before[k], init);
          var r :| r in init && Accepted(r) && before[k] == EntryOf(r);
          assert r in requests && after[k] == before[k];
        } else {
          assert last in requests && Accepted(last) && after[k] == EntryOf(last);
        }
      }
    } else {
      assert Replay(table, requests) == table;
    }
  }

  /** After a series of calls, the id of every request that passed validation is listed. */
  lemma {:induction false} ReplayListsAccepted(table: seq<Entry>, requests: seq<Request>)
    ensures forall r :: r in requests && Accepted(r) ==> HasId(Replay(table, requests), r.nodeId)
  {
    if requests != [] {
      var init := requests[..|requests| - 1];
      var last := requests[|requests| - 1];
      ReplayListsAccepted(table, init);
      var before := Replay(table, init);
      var after := Replay(table, requests);
      assert after == Register(before, last.nodeId, last.pubKey).1;
      forall r | r in requests && Accepted(r)
        ensures HasId(after, r.nodeId)
      {
        if r != last {
          assert r in init by {
            var q :| 0 <= q < |requests| && requests[q] == r;
            assert q < |init| && init[q] == r;
          }
          var k :| 0 <= k < |before| && before[k].nodeId == r.nodeId;
          assert after[k] == before[k];
        }
      }
    }
  }

  /** A second registration of a registered id is refused and changes nothing. */
  lemma SecondRegistrationRefused(table: seq<Entry>, nodeId: Json, pubKey: Json, otherKey: Json)
    requires DistinctIds(table)
    requires Register(table, nodeId, pubKey).0 == Registered
    ensures var t := Register(table, nodeId, pubKey).1;
      && Register(t, nodeId, otherKey).1 == t
      && (RegistryAccepts(nodeId, otherKey) ==> Register(t, nodeId, otherKey).0 == AlreadyRegistered)
      && CountId(t, nodeId) == 1
  {
    var t := Register(table, nodeId, pubKey).1;
    DistinctCountsOnce(t, nodeId);
  }

  class Registry {
    /** `registeredNodes`, the directory's in-memory storage. */
    var registeredNodes: seq<Entry>

    ghost predicate Valid()
      reads this
    {
      DistinctIds(registeredNodes)
    }

    constructor ()
      ensures Valid() && registeredNodes == []
    {
      registeredNodes := [];
    }

    /** `/registerNode`. */
    method RegisterNode(nodeId: Json, pubKey: Json) returns (outcome: Outcome)
      requires Valid()
      modifies this
      ensures Valid()
      ensures (outcome, registeredNodes) == Register(old(registeredNodes), nodeId, pubKey)
    {
      if nodeId == Undefined || pubKey == Undefined || pubKey == Text("") {
        return InvalidRequest;
      }
      if HasId(registeredNodes, nodeId) {
        return AlreadyRegistered;
      }
      registeredNodes := registeredNodes + [Entry(nodeId, pubKey)];
      outcome := Registered;
    }

    /** `/getNodeRegistry`: the whole table, in registration order. */
    function GetNodeRegistry(): (nodes: seq<Entry>)
      reads this
      ensures Valid() ==> DistinctIds(nodes)
    {
      registeredNodes
    }
  }

  /** A fresh directory asked to register a series of requests lists `Replay([], requests)`. */
  method RegisterAll(requests: seq<Request>) returns (listing: seq<Entry>)
    ensures listing == Replay([], requests)
    ensures DistinctIds(listing)
  {
    var registry := new Registry();
    var i := 0;
    while i < |requests|
      invariant 0 <= i <= |requests|
      invariant registry.Valid()
      invariant registry.registeredNodes == Replay([], requests[..i])
    {
      assert requests[..i + 1][..i] == requests[..i];
      var _ := registry.RegisterNode(requests[i].nodeId, requests[i].pubKey);
      i := i + 1;
    }
    assert requests[..i] == requests;
    listing := registry.GetNodeRegistry();
  }
}
