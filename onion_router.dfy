/**
  The simple onion router (src/onionRouters/simpleOnionRouter.ts). Its
  module-level state is shared by every router started in one process: a copy
  of the node table, pushed to without a duplicate check at startup, and three
  `last*` variables that no code ever assigns.
 */
module OnionRouterService {
  import opened Wrappers
  import opened NodeTable
  import RegistryService

  /** The router's validation: `nodeId` must be a number and `pubKey` a string. */
  predicate RelayAccepts(nodeId: Json, pubKey: Json) {
    nodeId.Number? && pubKey.Text?
  }

  /** What the router's `/registerNode` reports, and the table it leaves. */
  function RelayRegister(table: seq<Entry>, nodeId: Json, pubKey: Json): (r: (Outcome, seq<Entry>))
    ensures r.0 == InvalidRequest <==> !RelayAccepts(nodeId, pubKey)
    ensures r.0 == AlreadyRegistered <==> RelayAccepts(nodeId, pubKey) && HasId(table, nodeId)
    ensures r.0 == Registered <==> RelayAccepts(nodeId, pubKey) && !HasId(table, nodeId)
    ensures r.1 == if r.0 == Registered then table + [Entry(nodeId, pubKey)] else table
    ensures DistinctIds(table) ==> DistinctIds(r.1)
  {
    if !RelayAccepts(nodeId, pubKey) then (InvalidRequest, table)
    else AddIfAbsent(table, Entry(nodeId, pubKey))
  }

  /**
    The two validations differ: the router takes an empty key that the
    directory refuses, and the directory takes ids and keys of any JSON type
    but `undefined`, which the router refuses. Apart from the empty key, the
    router's rule is the stricter one.
   */
  lemma ValidationDiffers(n: int, key: string)
    ensures RelayAccepts(Number(n), Text("")) && !RegistryService.RegistryAccepts(Number(n), Text(""))
    ensures RegistryService.RegistryAccepts(Text(key), Null) && !RelayAccepts(Text(key), Null)
    ensures forall id, k :: RelayAccepts(id, k) && k != Text("") ==> RegistryService.RegistryAccepts(id, k)
  {
  }

  /** A router's key pair, as the base64 strings it keeps (library output). */
  datatype KeyPair = KeyPair(publicKey: string, privateKey: string)

  /** The module-level state of simpleOnionRouter.ts. */
  class RelayGlobals {
    var lastReceivedEncryptedMessage: Option<string>
    var lastReceivedDecryptedMessage: Option<string>
    var lastMessageDestination: Option<int>
    var registeredNodes: seq<Entry>

    /** Nothing assigns the `last*` variables, so they stay at their initial null. */
    ghost predicate Valid()
      reads this
    {
      && lastReceivedEncryptedMessage == None
      && lastReceivedDecryptedMessage == None
      && lastMessageDestination == None
    }

    constructor ()
      ensures Valid() && registeredNodes == []
    {
      lastReceivedEncryptedMessage := None;
      lastReceivedDecryptedMessage := None;
      lastMessageDestination := None;
      registeredNodes := [];
    }
  }

  class SimpleOnionRouter {
    const nodeId: int
    const keys: KeyPair
    const globals: RelayGlobals

    /** `simpleOnionRouter(nodeId)`: keep the key pair and push `{nodeId, pubKey}` unchecked. */
    constructor (nodeId: int, keys: KeyPair, globals: RelayGlobals)
      requires globals.Valid()
      modifies globals
      ensures this.nodeId == nodeId && this.keys == keys && this.globals == globals
      ensures globals.Valid()
      ensures globals.registeredNodes
           == old(globals.registeredNodes) + [Entry(Number(nodeId), Text(keys.publicKey))]
    {
      this.nodeId := nodeId;
      this.keys := keys;
      this.globals := globals;
      new;
      globals.registeredNodes := globals.registeredNodes + [Entry(Number(nodeId), Text(keys.publicKey))];
    }

    /** `/registerNode`. */
    method RegisterNode(nodeId: Json, pubKey: Json) returns (outcome: Outcome)
      requires globals.Valid()
      modifies globals
      ensures globals.Valid()
      ensures (outcome, globals.registeredNodes) == RelayRegister(old(globals.registeredNodes), nodeId, pubKey)
    {
      if !nodeId.Number? || !pubKey.Text? {
        return InvalidRequest;
      }
      if HasId(globals.registeredNodes, nodeId) {
        return AlreadyRegistered;
      }
      globals.registeredNodes := globals.registeredNodes + [Entry(nodeId, pubKey)];
      outcome := Registered;
    }

    /** `/getNodeRegistry`: the shared table, in the order of its pushes. */
    function GetNodeRegistry(): seq<Entry>
      reads globals
    {
      globals.registeredNodes
    }

    /** `/getLastReceivedEncryptedMessage`: always null. */
    function GetLastReceivedEncryptedMessage(): (r: Option<string>)
      reads globals
      requires globals.Valid()
      ensures r == None
    {
      globals.lastReceivedEncryptedMessage
    }

    /** `/getLastReceivedDecryptedMessage`: always null. */
    function GetLastReceivedDecryptedMessage(): (r: Option<string>)
      reads globals
      requires globals.Valid()
      ensures r == None
    {
      globals.lastReceivedDecryptedMessage
    }

    /** `/getLastMessageDestination`: always null. */
    function GetLastMessageDestination(): (r: Option<int>)
      reads globals
      requires globals.Valid()
      ensures r == None
    {
      globals.lastMessageDestination
    }

    /** `/getPrivateKey`. */
    function GetPrivateKey(): string {
      keys.privateKey
    }
  }

  /** Startup pushes without a duplicate check: a second router with a known id breaks uniqueness. */
  lemma StartupBreaksUniqueness(table: seq<Entry>, nodeId: int, publicKey: string)
    requires HasId(table, Number(nodeId))
    ensures !DistinctIds(table + [Entry(Number(nodeId), Text(publicKey))])
  {
    var k :| 0 <= k < |table| && table[k].nodeId == Number(nodeId);
    var t := table + [Entry(Number(nodeId), Text(publicKey))];
    assert t[k].nodeId == t[|table|].nodeId;
  }

  /**
    Two routers started with the same id in one process leave that id listed
    twice. (They would also both listen on the same port.)
   */
  method StartTwoRoutersWithSameId(nodeId: int, first: KeyPair, second: KeyPair) returns (listing: seq<Entry>)
    ensures |listing| == 2 && listing[0].nodeId == listing[1].nodeId == Number(nodeId)
    ensures !DistinctIds(listing)
    ensures CountId(listing, Number(nodeId)) == 2
  {
    var globals := new RelayGlobals();
    var a := new SimpleOnionRouter(nodeId, first, globals);
    var b := new SimpleOnionRouter(nodeId, second, globals);
    listing := b.GetNodeRegistry();
    assert listing == [Entry(Number(nodeId), Text(first.publicKey)), Entry(Number(nodeId), Text(second.publicKey))];
    assert listing[..1][..0] == [];
    assert CountId(listing[..1], Number(nodeId)) == 1;
  }

  /**
    Router `firstId` accepts `/registerNode` of id `firstId + 1`; a router then
    started with that id, on a port of its own, pushes it a second time.
   */
  method RegisterThenStartSameId(firstId: int, first: KeyPair, pubKey: string, second: KeyPair)
    returns (outcome: Outcome, listing: seq<Entry>)
    ensures outcome == Registered
    ensures |listing| == 3 && listing[1].nodeId == listing[2].nodeId == Number(firstId + 1)
    ensures !DistinctIds(listing)
    ensures CountId(listing, Number(firstId + 1)) == 2
  {
    var globals := new RelayGlobals();
    var a := new SimpleOnionRouter(firstId, first, globals);
    outcome := a.RegisterNode(Number(firstId + 1), Text(pubKey));
    var b := new SimpleOnionRouter(firstId + 1, second, globals);
    listing := b.GetNodeRegistry();
    var id := Number(firstId + 1);
    assert listing == [Entry(Number(firstId), Text(first.publicKey)), Entry(id, Text(pubKey)), Entry(id, Text(second.publicKey))];
    assert listing[..2][..1][..0] == [];
    assert CountId(listing[..2][..1], id) == 0;
    assert CountId(listing[..2], id) == 1;
  }
}
