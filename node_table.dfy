/**
  The node table shared by the directory and the relay: an append-only list of
  `{nodeId, pubKey}` records with add-if-absent registration.

  Request bodies are untyped JSON, so both fields are JSON values; the duplicate
  check compares them with JavaScript's `===`, which on parsed JSON values
  (numbers modelled as integers, objects as references) is equality of `Json`.
 */
module NodeTable {

  datatype Json =
    | Undefined
    | Null
    | Bool(b: bool)
    | Number(n: int)
    | Text(s: string)
    | Composite(reference: nat)

  /** One registered node as the tables store it. */
  datatype Entry = Entry(nodeId: Json, pubKey: Json)

  /** The result a `/registerNode` handler reports. */
  datatype Outcome = Registered | InvalidRequest | AlreadyRegistered

  /** `table.some((node) => node.nodeId === id)`. */
  predicate HasId(table: seq<Entry>, id: Json) {
    exists k :: 0 <= k < |table| && table[k].nodeId == id
  }

  /** The uniqueness invariant of a table. */
  predicate DistinctIds(table: seq<Entry>) {
    forall i, j :: 0 <= i < j < |table| ==> table[i].nodeId != table[j].nodeId
  }

  /** How many entries of `table` carry `id`. */
  function CountId(table: seq<Entry>, id: Json): nat {
    if table == [] then 0
    else CountId(table[..|table| - 1], id) + (if table[|table| - 1].nodeId == id then 1 else 0)
  }

  /**
    The dedupe-then-push step both handlers share: a known id is refused and the
    table kept; otherwise the entry goes at the end.
   */
  function AddIfAbsent(table: seq<Entry>, entry: Entry): (r: (Outcome, seq<Entry>))
    ensures r.0 == Registered || r.0 == AlreadyRegistered
    ensures r.0 == AlreadyRegistered <==> HasId(table, entry.nodeId)
    ensures r.1 == if r.0 == Registered then table + [entry] else table
    ensures HasId(r.1, entry.nodeId)
    ensures DistinctIds(table) ==> DistinctIds(r.1)
  {
    if HasId(table, entry.nodeId) then (AlreadyRegistered, table)
    else
      var t := table + [entry];
      assert t[|table|].nodeId == entry.nodeId;
      (Registered, t)
  }

  /** In a table with distinct ids, an id that is present occurs exactly once. */
  lemma {:induction false} DistinctCountsOnce(table: seq<Entry>, id: Json)
    requires DistinctIds(table)
    ensures CountId(table, id) == if HasId(table, id) then 1 else 0
  {
    if table != [] {
      var init := table[..|table| - 1];
      assert DistinctIds(init);
      DistinctCountsOnce(init, id);
      if table[|table| - 1].nodeId != id && HasId(table, id) {
        var k :| 0 <= k < |table| && table[k].nodeId == id;
        assert init[k].nodeId == id;
      }
    }
  }
}
