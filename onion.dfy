/**
  The shape of the layered message the client builds in `/sendMessage`
  (src/users/user.ts:81-101). The `../crypto` primitives are not part of this
  model: they are the fields of a `Crypto` value, functions about which nothing
  is assumed, so every statement here holds whatever they compute.
 */
module Layering {
  import opened Decimal

  /** A registry entry as the client sees it (`NodeCircuit`). */
  datatype Node = Node(nodeId: int, pubKey: string)

  /** A symmetric key created by `createRandomSymmetricKey`; its material is opaque. */
  datatype SymKey = SymKey(handle: nat)

  /** `exportSymKey`, `symEncrypt` and `rsaEncrypt`, taken as given functions. */
  datatype Crypto = Crypto(
    exportSymKey: SymKey -> string,
    symEncrypt: (SymKey, string) -> string,
    rsaEncrypt: (string, string) -> string)

  /** `BASE_USER_PORT` and `BASE_ONION_ROUTER_PORT` from `../config`. */
  datatype Ports = Ports(baseUserPort: int, baseOnionRouterPort: int)

  /** The destination field that names user `userId`. */
  function UserDestination(ports: Ports, userId: int): string {
    Address(ports.baseUserPort + userId)
  }

  /** The destination field that names a relay. */
  function NodeDestination(ports: Ports, node: Node): string {
    Address(ports.baseOnionRouterPort + node.nodeId)
  }

  /**
    One layer for `node`: the exported key sealed with the node's public key,
    then the destination and the inner payload under that key.
   */
  function Layer(crypto: Crypto, node: Node, key: SymKey, destination: string, inner: string): string {
    crypto.rsaEncrypt(crypto.exportSymKey(key), node.pubKey) + crypto.symEncrypt(key, destination + inner)
  }

  /**
    The destination written inside the layer that wraps the onion of `inner`:
    the user's for the innermost layer, otherwise the last node wrapped so far.
   */
  function InnerDestination(ports: Ports, userDestination: string, inner: seq<Node>): string {
    if inner == [] then userDestination else NodeDestination(ports, inner[|inner| - 1])
  }

  /**
    The onion for `message` over `nodes` wrapped in that order with `keys`
    (`keys[i]` for `nodes[i]`): the last node's layer is outermost, and each
    layer names the node whose layer it encloses, the innermost the user.
   */
  function Onion(crypto: Crypto, ports: Ports, message: string, userDestination: string,
                 nodes: seq<Node>, keys: seq<SymKey>): string
    requires |keys| == |nodes|
    decreases |nodes|
  {
    if nodes == [] then message
    else
      var n := |nodes| - 1;
      Layer(crypto, nodes[n], keys[n], InnerDestination(ports, userDestination, nodes[..n]),
            Onion(crypto, ports, message, userDestination, nodes[..n], keys[..n]))
  }

  /**
    Wrapping one more node: the onion over the first `i + 1` nodes is node
    `i`'s layer around the onion over the first `i`, and the destination the
    next layer would carry is then node `i`'s.
   */
  lemma OnionExtend(crypto: Crypto, ports: Ports, message: string, userDestination: string,
                    nodes: seq<Node>, keys: seq<SymKey>, i: nat)
    requires |keys| == |nodes| && i < |nodes|
    ensures Onion(crypto, ports, message, userDestination, nodes[..i + 1], keys[..i + 1])
         == Layer(crypto, nodes[i], keys[i], InnerDestination(ports, userDestination, nodes[..i]),
                  Onion(crypto, ports, message, userDestination, nodes[..i], keys[..i]))
    ensures InnerDestination(ports, userDestination, nodes[..i + 1]) == NodeDestination(ports, nodes[i])
  {
    assert nodes[..i + 1][..i] == nodes[..i] && keys[..i + 1][..i] == keys[..i];
    assert nodes[..i + 1][i] == nodes[i] && keys[..i + 1][i] == keys[i];
  }

  /** The nested shape of a three-hop onion, written out. */
  lemma ThreeHopOnion(crypto: Crypto, ports: Ports, message: string, userDestination: string,
                      c0: Node, c1: Node, c2: Node, k0: SymKey, k1: SymKey, k2: SymKey)
    ensures var rsa, sym, exp := crypto.rsaEncrypt, crypto.symEncrypt, crypto.exportSymKey;
      Onion(crypto, ports, message, userDestination, [c0, c1, c2], [k0, k1, k2])
      == rsa(exp(k2), c2.pubKey) + sym(k2, NodeDestination(ports, c1)
         + (rsa(exp(k1), c1.pubKey) + sym(k1, NodeDestination(ports, c0)
         + (rsa(exp(k0), c0.pubKey) + sym(k0, userDestination + message)))))
  {
    var nodes, keys := [c0, c1, c2], [k0, k1, k2];
    assert nodes[..2] == [c0, c1] && keys[..2] == [k0, k1];
    assert [c0, c1][..1] == [c0] && [k0, k1][..1] == [k0];
    var none: seq<Node>, noKeys: seq<SymKey> := [], [];
    assert Onion(crypto, ports, message, userDestination, none, noKeys) == message;
    assert [c0][..0] == none && [k0][..0] == noKeys;
    var o0 := Onion(crypto, ports, message, userDestination, [c0], [k0]);
    assert o0 == Layer(crypto, c0, k0, userDestination, message);
    var o1 := Onion(crypto, ports, message, userDestination, [c0, c1], [k0, k1]);
    assert o1 == Layer(crypto, c1, k1, NodeDestination(ports, c0), o0);
    assert Onion(crypto, ports, message, userDestination, nodes, keys)
        == Layer(crypto, c2, k2, NodeDestination(ports, c1), o1);
  }

  /**
    When every port is a non-negative number of at most `AddressWidth` digits,
    every destination field of the onion is exactly `AddressWidth` decimal
    digits, and it denotes the port of the hop it names.
   */
  lemma DestinationsFixedWidth(ports: Ports, userId: int, nodes: seq<Node>, i: nat)
    requires 0 <= ports.baseUserPort + userId < AddressLimit
    requires forall k :: 0 <= k < |nodes| ==> 0 <= ports.baseOnionRouterPort + nodes[k].nodeId < AddressLimit
    requires i <= |nodes|
    ensures var d := InnerDestination(ports, UserDestination(ports, userId), nodes[..i]);
      && |d| == AddressWidth && AllDigits(d)
      && DecimalValue(d) == if i == 0 then ports.baseUserPort + userId
                            else ports.baseOnionRouterPort + nodes[i - 1].nodeId
  {
    if i == 0 {
      assert nodes[..i] == [];
      var port := ports.baseUserPort + userId;
      FixedWidthAddress(port);
    } else {
      assert nodes[..i][i - 1] == nodes[i - 1];
      var port := ports.baseOnionRouterPort + nodes[i - 1].nodeId;
      FixedWidthAddress(port);
    }
  }
}
