/**
 What one relay does with one event (relay-node/udp-relay.c), as functions on values.

 The relay's ctimer is an event that may fire at any moment, with either callback.
 */
module RelayModel {
  import opened Words
  import opened ChildTable

  /** Entries in the path array of a topology packet (utility-functions.h). */
  const MAX_PATH_NODES := 10

  /**
   A response packet. In a topology response, `path` holds the entries that were written, and
   `pathIndex` is None when the sender left the field unassigned.
   */
  datatype Packet =
    | Topology(path: seq<Id>, pathIndex: Option<nat>, maxLeafRank: nat, checksum: bv64)
    | Attestation(checksum: bv64)
  {
    /** The index field was assigned and stays within the entries that were written. */
    predicate Readable() {
      Topology? ==> pathIndex.Some? && pathIndex.value <= |path|
    }

    /** The ids a receiver reads. */
    function Ids(): seq<Id>
      requires Readable()
    {
      match this
      case Topology(path, pathIndex, _, _) => path[..pathIndex.value]
      case Attestation(_) => []
    }
  }

  /**
   The state of a relay. `sums`, `paths` and `snapshot` are the live parts of
   `checksum_children`, `paths` and `sec_checksum_children`.
   */
  datatype Node = Node(id: Id, table: seq<Child>, sums: seq<bv64>, paths: seq<Id>,
                       maxLeafRank: nat, myChecksum: bv64, snapshot: seq<bv64>)

  /** A state and the packets sent on the way to it. */
  datatype Out = Out(node: Node, sent: seq<Packet>)

  datatype Event =
    | Arrive(child: Id, pkt: Packet)
    | TopologyTimer
    | AttestationTimer

  /** `attest_memory`: a node's own checksum. */
  function OwnChecksum(id: Id): bv64 {
    Xor(0x11e108b7, id as bv64)
  }

  /** `get_combined_checksum`: what a relay with these buffered checksums reports. */
  function Combined(n: Node): bv64 {
    Xor(XorAll(n.sums), OwnChecksum(n.id))
  }

  /** `reset_variable`. */
  function Reset(n: Node): Node {
    n.(snapshot := n.sums, sums := [], paths := [], table := Cleared(n.table))
  }

  /** `send_topology_resp`. */
  function SendTopology(n: Node): Out {
    var path, index :=
      if |n.paths| >= MAX_PATH_NODES - 1 then n.paths else n.paths + [n.id],
      if |n.paths| >= MAX_PATH_NODES - 1 then None else Some(|n.paths| + 1);
    Out(Reset(n.(myChecksum := OwnChecksum(n.id))),
        [Topology(path, index, n.maxLeafRank, Combined(n))])
  }

  /** `send_attestation_resp`: silent, and without a reset, when the combined value is 0. */
  function SendAttestation(n: Node): Out {
    var m := n.(myChecksum := OwnChecksum(n.id));
    if Combined(n) != 0 then Out(Reset(m), [Attestation(Combined(n))]) else Out(m, [])
  }

  /**
   The copy loop of `process_topology_req`: `buf` holds `paths[0..i)`, and the ids still to be
   copied are `ids`. Only the first `paths_loc` entries of `buf`, which are `n.paths`, are searched.
   */
  function Absorb(n: Node, buf: seq<Id>, ids: seq<Id>): Out
    decreases |ids|
  {
    if ids == [] then Out(n.(paths := buf), [])
    else if ids[0] in n.paths then Absorb(n, buf, ids[1..])
    else
      var longer := buf + [ids[0]];
      if |longer| >= MAX_PATH_NODES - 2 then
        var split := SendTopology(n.(paths := longer));
        var rest := Absorb(Reset(split.node), [], ids[1..]);
        Out(rest.node, split.sent + rest.sent)
      else
        Absorb(n, longer, ids[1..])
  }

  /** `process_topology_req` up to the test whether the round is complete. */
  function Gather(n: Node, child: Id, pkt: Packet): Out
    requires pkt.Topology? && pkt.Readable()
  {
    var marked := n.(table := Mark(n.table, child), sums := n.sums + [pkt.checksum]);
    var copied := Absorb(marked, marked.paths, pkt.Ids());
    var top := if copied.node.maxLeafRank < pkt.maxLeafRank then pkt.maxLeafRank
               else copied.node.maxLeafRank;
    copied.(node := copied.node.(maxLeafRank := top))
  }

  /** `process_topology_req`. */
  function ProcessTopology(n: Node, child: Id, pkt: Packet): Out
    requires pkt.Topology? && pkt.Readable()
  {
    if !Has(n.table, child) then Out(n, [])
    else
      var g := Gather(n, child, pkt);
      if |g.node.sums| == |g.node.table| then
        var last := SendTopology(g.node);
        Out(last.node, g.sent + last.sent)
      else g
  }

  /** `process_attestation_req`: the checksum is stored before the sender is looked up. */
  function ProcessAttestation(n: Node, pkt: Packet): Out {
    Out(n.(sums := n.sums + [pkt.checksum]), [])
  }

  predicate Sane(e: Event) {
    e.Arrive? ==> e.pkt.Readable()
  }

  function Step(n: Node, e: Event): Out
    requires Sane(e)
  {
    match e
    case Arrive(child, pkt) =>
      if pkt.Topology? then ProcessTopology(n, child, pkt) else ProcessAttestation(n, pkt)
    case TopologyTimer => SendTopology(n)
    case AttestationTimer => SendAttestation(n)
  }

  predicate AllSane(es: seq<Event>) {
    forall i :: 0 <= i < |es| ==> Sane(es[i])
  }

  /** A whole run, with everything sent during it. */
  function Run(n: Node, es: seq<Event>): Out
    requires AllSane(es)
  {
    if es == [] then Out(n, [])
    else
      var before := Run(n, es[..|es| - 1]);
      var o := Step(before.node, es[|es| - 1]);
      Out(o.node, before.sent + o.sent)
  }

  /** A relay that has just initialised its child table. */
  function Fresh(id: Id, table: seq<Child>): Node {
    Node(id, Cleared(table), [], [], 0, 0, [])
  }

  /** `create_response` for a topology request: the leaf's own packet. */
  function LeafPacket(id: Id, rank: nat): Packet {
    Topology([id], Some(1), rank, OwnChecksum(id))
  }

  // ---- Views of the packets sent ----

  function Checksums(ps: seq<Packet>): (r: seq<bv64>)
    ensures |r| == |ps|
    ensures forall i :: 0 <= i < |ps| ==> r[i] == ps[i].checksum
  {
    seq(|ps|, i requires 0 <= i < |ps| => ps[i].checksum)
  }

  predicate AllReadable(ps: seq<Packet>) {
    forall i :: 0 <= i < |ps| ==> ps[i].Readable()
  }

  /** Every id in some packet of `ps`. */
  function IdsSent(ps: seq<Packet>): set<Id>
    requires AllReadable(ps)
  {
    if ps == [] then {} else IdsSent(ps[..|ps| - 1]) + SetOf(ps[|ps| - 1].Ids())
  }
}
