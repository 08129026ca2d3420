/**
  The user node (src/users/user.ts): its inbox and outbox, the module-level
  `lastCircuit` shared by every user started in one process, and
  `/sendMessage`, which picks a circuit, wraps the message once per relay,
  reverses the circuit in place and posts the onion to the entry relay.

  The registry snapshot, the drawn indices, the fresh symmetric keys and the
  cryptographic functions are inputs; the post to the entry relay is returned.
 */
module UserService {
  import opened Wrappers
  import opened Layering
  import opened Circuit

  /** What `/getLastCircuit` answers: the ids (status 200), or status 404. */
  datatype CircuitReply = Found(nodeIds: seq<int>) | NotFound

  /** The request `/sendMessage` makes: `{message}` posted to `port`'s `/message`. */
  datatype Post = Post(port: int, message: string)

  /** `nodes.map((node) => node.nodeId)`. */
  function NodeIds(nodes: seq<Node>): (ids: seq<int>)
    ensures |ids| == |nodes|
    ensures forall k :: 0 <= k < |nodes| ==> ids[k] == nodes[k].nodeId
  {
    if nodes == [] then [] else NodeIds(nodes[..|nodes| - 1]) + [nodes[|nodes| - 1].nodeId]
  }

  /**
    The wrapping loop (src/users/user.ts:82-101): one layer per circuit node,
    in circuit order, node `i` with the key `keys[i]` created for it; after
    each layer the destination becomes that node's address.
   */
  method EncryptLayers(crypto: Crypto, ports: Ports, message: string, userDestination: string,
                       circuit: seq<Node>, keys: seq<SymKey>) returns (encryptedMessage: string)
    requires |keys| == |circuit|
    ensures encryptedMessage == Onion(crypto, ports, message, userDestination, circuit, keys)
  {
    encryptedMessage := message;
    var destination := userDestination;
    for i := 0 to |circuit|
      invariant encryptedMessage == Onion(crypto, ports, message, userDestination, circuit[..i], keys[..i])
      invariant destination == InnerDestination(ports, userDestination, circuit[..i])
    {
      var node, symKey := circuit[i], keys[i];
      var symKeyString := crypto.exportSymKey(symKey);
      var tempMessage := crypto.symEncrypt(symKey, destination + encryptedMessage);
      destination := NodeDestination(ports, node);
      var encryptedSymKey := crypto.rsaEncrypt(symKeyString, node.pubKey);
      encryptedMessage := encryptedSymKey + tempMessage;
      OnionExtend(crypto, ports, message, userDestination, circuit, keys, i);
    }
    assert circuit[..|circuit|] == circuit && keys[..|keys|] == keys;
  }

  /** The module-level state of user.ts. */
  class UserGlobals {
    var lastCircuit: array?<Node>

    constructor ()
      ensures lastCircuit == null
    {
      lastCircuit := null;
    }
  }

  class User {
    const userId: int
    const ports: Ports
    const globals: UserGlobals
    var lastReceivedMessage: Option<string>
    var lastSentMessage: Option<string>

    constructor (userId: int, ports: Ports, globals: UserGlobals)
      ensures this.userId == userId && this.ports == ports && this.globals == globals
      ensures lastReceivedMessage == None && lastSentMessage == None
    {
      this.userId := userId;
      this.ports := ports;
      this.globals := globals;
      lastReceivedMessage := None;
      lastSentMessage := None;
    }

    /** `/getLastReceivedMessage`. */
    function GetLastReceivedMessage(): Option<string>
      reads this
    {
      lastReceivedMessage
    }

    /** `/getLastSentMessage`. */
    function GetLastSentMessage(): Option<string>
      reads this
    {
      lastSentMessage
    }

    /** `/message`: the delivered body's `message` becomes the last received one. */
    method ReceiveMessage(message: string)
      modifies this
      ensures lastReceivedMessage == Some(message)
      ensures lastSentMessage == old(lastSentMessage)
    {
      lastReceivedMessage := Some(message);
    }

    /** `/getLastCircuit`: the ids of `lastCircuit` in order, or 404 while there is none. */
    function GetLastCircuit(): (reply: CircuitReply)
      reads globals, globals.lastCircuit
      ensures reply.NotFound? <==> globals.lastCircuit == null
      ensures reply.Found? ==> |reply.nodeIds| == globals.lastCircuit.Length
      ensures reply.Found? ==> forall k :: 0 <= k < |reply.nodeIds| ==> reply.nodeIds[k] == globals.lastCircuit[k].nodeId
    {
      if globals.lastCircuit == null then NotFound else Found(NodeIds(globals.lastCircuit[..]))
    }

    /**
      `/sendMessage`. Afterwards `lastCircuit` is a new array holding the picked
      circuit reversed, so that its first node is the last one picked; the
      onion, whose outermost layer that node's key seals, goes to that node.
     */
    method SendMessage(message: string, destinationUserId: int, nodes: seq<Node>, picks: seq<nat>,
                       keys: seq<SymKey>, crypto: Crypto) returns (post: Post)
      requires ValidPicks(nodes, picks) && |Select(nodes, picks)| == CircuitLength
      requires |keys| == CircuitLength
      modifies this, globals
      ensures var picked := Select(nodes, picks);
        && globals.lastCircuit != null && fresh(globals.lastCircuit)
        && globals.lastCircuit[..] == Reversed(picked)
        && globals.lastCircuit[0] == picked[CircuitLength - 1]
        && post.port == ports.baseOnionRouterPort + globals.lastCircuit[0].nodeId
        && post.message == Onion(crypto, ports, message, UserDestination(ports, destinationUserId), picked, keys)
      ensures GetLastCircuit() == Found(NodeIds(Reversed(Select(nodes, picks))))
      ensures lastSentMessage == Some(message)
      ensures lastReceivedMessage == old(lastReceivedMessage)
    {
      var picked := PickCircuit(nodes, picks);
      var circuit := new Node[|picked|](k requires 0 <= k < |picked| => picked[k]);
      assert circuit[..] == picked;
      globals.lastCircuit := circuit;

      var encryptedMessage := EncryptLayers(crypto, ports, message, UserDestination(ports, destinationUserId),
                                            circuit[..], keys);

      ReverseInPlace(circuit);
      globals.lastCircuit := circuit;
      lastSentMessage := Some(message);

      var entryNode := circuit[0];
      post := Post(ports.baseOnionRouterPort + entryNode.nodeId, encryptedMessage);
    }
  }
}
