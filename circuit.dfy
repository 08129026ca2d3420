/**
  Circuit construction in `/sendMessage` (src/users/user.ts:71-79, 104): draws
  from the registry snapshot until three nodes with distinct ids are held, and
  the in-place reversal that turns the wrapping order into the travel order.
  `Math.random` is replaced by a sequence of drawn indices given by the caller.
 */
module Circuit {
  import opened Layering

  /** How many relays a circuit holds. */
  const CircuitLength: nat := 3

  /** `circuit.some((node) => node.nodeId === id)`. */
  predicate HasNodeId(circuit: seq<Node>, id: int) {
    exists k :: 0 <= k < |circuit| && circuit[k].nodeId == id
  }

  predicate DistinctNodeIds(circuit: seq<Node>) {
    forall i, j :: 0 <= i < j < |circuit| ==> circuit[i].nodeId != circuit[j].nodeId
  }

  /** Every draw is `Math.floor(Math.random() * nodes.length)`, an index into `nodes`. */
  predicate ValidPicks(nodes: seq<Node>, picks: seq<nat>) {
    forall k :: 0 <= k < |picks| ==> picks[k] < |nodes|
  }

  /** One draw: the node is kept when the circuit is not yet full and lacks its id. */
  function Draw(circuit: seq<Node>, node: Node): seq<Node> {
    if |circuit| < CircuitLength && !HasNodeId(circuit, node.nodeId) then circuit + [node] else circuit
  }

  /**
    The circuit held after the draws `picks`. It never exceeds three nodes,
    its ids are distinct, and each of its nodes is an entry of `nodes`.
   */
  function Select(nodes: seq<Node>, picks: seq<nat>): (circuit: seq<Node>)
    requires ValidPicks(nodes, picks)
    ensures |circuit| <= CircuitLength
    ensures DistinctNodeIds(circuit)
    ensures forall x :: x in circuit ==> x in nodes
  {
    if picks == [] then []
    else
      var before := Select(nodes, picks[..|picks| - 1]);
      var drawn := Draw(before, nodes[picks[|picks| - 1]]);
      assert forall k :: 0 <= k < |before| ==> drawn[k] == before[k];
      drawn
  }

  /** Once three nodes are held, further draws change nothing. */
  lemma {:induction false} SelectSaturates(nodes: seq<Node>, picks: seq<nat>, i: nat)
    requires ValidPicks(nodes, picks) && i <= |picks|
    requires |Select(nodes, picks[..i])| == CircuitLength
    ensures Select(nodes, picks) == Select(nodes, picks[..i])
    decreases |picks|
  {
    if i < |picks| {
      var init := picks[..|picks| - 1];
      assert init[..i] == picks[..i];
      SelectSaturates(nodes, init, i);
    } else {
      assert picks[..i] == picks;
    }
  }

  /** A draw of a new id into a circuit that is not full keeps the node. */
  lemma DrawKeeps(circuit: seq<Node>, node: Node)
    requires |circuit| < CircuitLength
    requires forall k :: 0 <= k < |circuit| ==> circuit[k].nodeId != node.nodeId
    ensures Draw(circuit, node) == circuit + [node]
  {
  }

  /** The drawn nodes have pairwise-distinct ids. */
  predicate DistinctDraws(nodes: seq<Node>, picks: seq<nat>)
    requires ValidPicks(nodes, picks)
  {
    forall i, j :: 0 <= i < j < |picks| ==> nodes[picks[i]].nodeId != nodes[picks[j]].nodeId
  }

  /** Up to three draws of distinct ids are all kept, in the order drawn. */
  lemma {:induction false} DistinctDrawsKept(nodes: seq<Node>, picks: seq<nat>)
    requires ValidPicks(nodes, picks) && |picks| <= CircuitLength
    requires DistinctDraws(nodes, picks)
    ensures |Select(nodes, picks)| == |picks|
    ensures forall k :: 0 <= k < |picks| ==> Select(nodes, picks)[k] == nodes[picks[k]]
  {
    if picks != [] {
      var n := |picks| - 1;
      var init := picks[..n];
      assert forall k :: 0 <= k < n ==> init[k] == picks[k];
      DistinctDrawsKept(nodes, init);
      var before := Select(nodes, init);
      DrawKeeps(before, nodes[picks[n]]);
    }
  }

  /** Three draws of nodes with distinct ids complete a circuit, so the draws needed exist. */
  lemma ThreeDistinctDrawsSuffice(nodes: seq<Node>, a: nat, b: nat, c: nat)
    requires a < |nodes| && b < |nodes| && c < |nodes|
    requires nodes[a].nodeId != nodes[b].nodeId
    requires nodes[a].nodeId != nodes[c].nodeId && nodes[b].nodeId != nodes[c].nodeId
    ensures ValidPicks(nodes, [a, b, c])
    ensures Select(nodes, [a, b, c]) == [nodes[a], nodes[b], nodes[c]]
  {
    DistinctDrawsKept(nodes, [a, b, c]);
  }

  /**
    The selection loop: draw, keep the node if its id is new, until three are
    held. The caller's draws must eventually complete the circuit, as the
    source's loop only ends when they do.
   */
  method PickCircuit(nodes: seq<Node>, picks: seq<nat>) returns (circuit: seq<Node>)
    requires ValidPicks(nodes, picks)
    requires |Select(nodes, picks)| == CircuitLength
    ensures circuit == Select(nodes, picks)
    ensures |circuit| == CircuitLength && DistinctNodeIds(circuit)
    ensures forall x :: x in circuit ==> x in nodes
  {
    circuit := [];
    var i := 0;
    while |circuit| < CircuitLength
      invariant 0 <= i <= |picks|
      invariant circuit == Select(nodes, picks[..i])
      decreases |picks| - i
    {
      assert i < |picks| by {
        assert picks[..|picks|] == picks;
      }
      var randomNode := nodes[picks[i]];
      assert picks[..i + 1][..i] == picks[..i];
      i := i + 1;
      if !HasNodeId(circuit, randomNode.nodeId) {
        circuit := circuit + [randomNode];
      }
    }
    SelectSaturates(nodes, picks, i);
  }

  /** `s` in the opposite order. */
  function Reversed<T>(s: seq<T>): (r: seq<T>)
    ensures |r| == |s|
    ensures forall k :: 0 <= k < |s| ==> r[k] == s[|s| - 1 - k]
  {
    if s == [] then [] else Reversed(s[1..]) + [s[0]]
  }

  /** `circuit.reverse()`: the array is reversed where it lies. */
  method ReverseInPlace<T>(a: array<T>)
    modifies a
    ensures a[..] == Reversed(old(a[..]))
  {
    var lo, hi := 0, a.Length - 1;
    while lo < hi
      invariant 0 <= lo && hi == a.Length - 1 - lo && lo <= a.Length - lo
      invariant forall k :: 0 <= k < lo ==> a[k] == old(a[a.Length - 1 - k]) && a[a.Length - 1 - k] == old(a[k])
      invariant forall k :: lo <= k <= hi ==> a[k] == old(a[k])
    {
      a[lo], a[hi] := a[hi], a[lo];
      lo, hi := lo + 1, hi - 1;
    }
  }

  /**
    The onion seen along the route. With the nodes wrapped in the order
    `nodes` and `route` their reverse (`lastCircuit`), hop `j` receives an
    onion whose outer layer is sealed for `route[j]` with the key drawn for it,
    and whose destination names the next hop `route[j + 1]`, or the user after
    the last hop; inside it is the onion hop `j + 1` receives, and after the
    last hop the message itself. Hop 0 receives the whole onion.
   */
  lemma OnionAlongRoute(crypto: Crypto, ports: Ports, message: string, userDestination: string,
                        nodes: seq<Node>, keys: seq<SymKey>, j: nat)
    requires |keys| == |nodes| && j < |nodes|
    ensures var n, route := |nodes|, Reversed(nodes);
      Onion(crypto, ports, message, userDestination, nodes[..n - j], keys[..n - j])
         == Layer(crypto, route[j], keys[n - 1 - j],
                  if j + 1 < n then NodeDestination(ports, route[j + 1]) else userDestination,
                  Onion(crypto, ports, message, userDestination, nodes[..n - 1 - j], keys[..n - 1 - j]))
  {
    var n, route := |nodes|, Reversed(nodes);
    var i := n - 1 - j;
    OnionExtend(crypto, ports, message, userDestination, nodes, keys, i);
    assert route[j] == nodes[i];
    if j + 1 < n {
      assert route[j + 1] == nodes[..i][i - 1];
    } else {
      assert nodes[..i] == [];
    }
  }
}
