/**
 The relay program with its global variables and buffers (relay-node/udp-relay.c), proved against
 the functions of RelayModel.
 */
module RelayProgram {
  import opened Words
  import opened ChildTable
  import opened RelayModel
  import opened RelayRuns
  import opened RelayRounds

  /** `struct sec_rnd_resp`. */
  datatype SecRndResp = SecRndResp(maxIndex: uint8, checksum: bv64)

  class Relay {
    const id: Id
    const table: Table
    const checksumChildren: array<bv64>
    const secChecksumChildren: array<bv64>
    const paths: array<Id>
    var curLoc: nat
    var pathsLoc: nat
    var maxIndex: uint8
    var myChecksum: bv64
    var maxLeafRank: nat
    /** Everything handed to `send_to_parents` so far. */
    var sent: seq<Packet>

    ghost predicate Valid()
      reads this, table, checksumChildren, secChecksumChildren, paths
    {
      && table.Valid()
      && checksumChildren.Length == secChecksumChildren.Length == MAX_CHILD
      && checksumChildren != secChecksumChildren
      && paths.Length == MAX_PATH_NODES
      && curLoc <= MAX_CHILD && maxIndex as int <= MAX_CHILD
      && pathsLoc <= MAX_PATH_NODES - 2
    }

    ghost function Abs(): Node
      requires Valid()
      reads this, table, checksumChildren, secChecksumChildren, paths
    {
      Node(id, table.entries, checksumChildren[..curLoc], paths[..pathsLoc], maxLeafRank, myChecksum,
           secChecksumChildren[..maxIndex])
    }

    constructor (id: Id, neighbours: seq<Neighbour>, rank: nat)
      requires forall p :: p in neighbours ==> |p.address| == 16
      requires |ChildEntries(neighbours, rank)| <= MAX_CHILD
      ensures Valid() && Bounded(Abs()) && sent == []
      ensures Abs() == RelayModel.Fresh(id, ChildEntries(neighbours, rank))
    {
      this.id := id;
      table := new Table(neighbours, rank);
      checksumChildren := new bv64[MAX_CHILD](_ => 0);
      secChecksumChildren := new bv64[MAX_CHILD](_ => 0);
      paths := new Id[MAX_PATH_NODES](_ => 0);
      curLoc, pathsLoc, maxIndex, myChecksum, maxLeafRank, sent := 0, 0, 0, 0, 0, [];
      new;
      ChildEntriesFresh(neighbours, rank);
      assert table.entries == Cleared(table.entries);
    }

    method ResetVariable()
      requires Valid()
      modifies this`maxIndex, this`curLoc, this`pathsLoc, table, secChecksumChildren, paths
      ensures Valid() && Abs() == Reset(old(Abs()))
    {
      maxIndex := curLoc as uint8;
      forall k | 0 <= k < MAX_CHILD {
        secChecksumChildren[k] := checksumChildren[k];
      }
      assert secChecksumChildren[..maxIndex] == checksumChildren[..curLoc];
      curLoc := 0;
      pathsLoc := 0;
      forall k | 0 <= k < MAX_PATH_NODES {
        paths[k] := 0;
      }
      table.RestChildList();
    }

    method GetCombinedChecksum() returns (combined: bv64)
      requires Valid()
      modifies this`myChecksum
      ensures Valid() && combined == Combined(old(Abs()))
      ensures Abs() == old(Abs()).(myChecksum := OwnChecksum(id))
    {
      hide Xor;
      combined := 0;
      var index: uint8 := 0;
      while index as int < curLoc
        invariant index as int <= curLoc
        invariant combined == XorAll(checksumChildren[..index])
      {
        assert checksumChildren[..index + 1] == checksumChildren[..index] + [checksumChildren[index]];
        XorSnoc(checksumChildren[..index], checksumChildren[index]);
        combined := Xor(combined, checksumChildren[index]);
        index := index + 1;
      }
      OwnChecksumIs(id);
      myChecksum := 0x11e108b7 ^ (id as bv64);
      combined := Xor(combined, myChecksum);
    }

    /** Also the callback of the timer. */
    method SendTopologyResp()
      requires Valid()
      modifies this, table, secChecksumChildren, paths
      ensures Valid() && maxLeafRank == old(maxLeafRank)
      ensures var o := SendTopology(old(Abs()));
              Abs() == o.node && sent == old(sent) + o.sent
    {
      var combined := GetCombinedChecksum();
      ghost var before := Abs();
      var path: seq<Id> := [];
      var i := 0;
      while i < pathsLoc
        invariant 0 <= i <= pathsLoc
        invariant path == paths[..i]
      {
        path := path + [paths[i]];
        i := i + 1;
      }
      var index: Option<nat> := None;
      if i < MAX_PATH_NODES - 1 {
        path := path + [id];
        index := Some(pathsLoc + 1);
      }
      sent := sent + [Topology(path, index, maxLeafRank, combined)];
      ResetVariable();
    }

    method SendAttestationResp()
      requires Valid()
      modifies this, table, secChecksumChildren, paths
      ensures Valid()
      ensures var o := SendAttestation(old(Abs()));
              Abs() == o.node && sent == old(sent) + o.sent
    {
      var combined := GetCombinedChecksum();
      if combined != 0 {
        sent := sent + [Attestation(combined)];
        ResetVariable();
      }
    }

    /** The buffer has no bound check of its own: the caller must leave room for one more checksum. */
    method ProcessAttestationReq(pkt: Packet)
      requires Valid() && curLoc < MAX_CHILD && pkt.Attestation?
      modifies this`curLoc, checksumChildren
      ensures Valid()
      ensures Abs() == ProcessAttestation(old(Abs()), pkt).node
    {
      checksumChildren[curLoc] := pkt.checksum;
      curLoc := curLoc + 1;
      assert checksumChildren[..curLoc] == old(checksumChildren[..curLoc]) + [pkt.checksum];
    }

    method IsPresentPaths(x: Id) returns (r: bool)
      requires Valid()
      ensures r == (x in Abs().paths)
    {
      var i := 0;
      while i < pathsLoc
        invariant 0 <= i <= pathsLoc
        invariant x !in paths[..i]
      {
        if paths[i] == x {
          assert paths[..pathsLoc][i] == x;
          return true;
        }
        i := i + 1;
      }
      return false;
    }

    /** What the copy loop does when `count` buffered ids have filled the path buffer. */
    method SplitPath(count: nat)
      requires Valid() && count == MAX_PATH_NODES - 2
      modifies this, table, secChecksumChildren, paths
      ensures Valid() && pathsLoc == 0 && maxLeafRank == old(maxLeafRank)
      ensures var split := SendTopology(old(Abs()).(paths := old(paths[..count])));
              Abs() == Reset(split.node) && sent == old(sent) + split.sent
    {
      pathsLoc := count;
      SendTopologyResp();
      ResetVariable();
    }

    /** The copy loop, from the state in which the child is marked and its checksum stored. */
    method CopyPaths(pkt: Packet)
      requires Valid() && pathsLoc <= MAX_PATH_NODES - 3
      requires pkt.Topology? && pkt.Readable()
      modifies this, table, secChecksumChildren, paths
      ensures Valid() && pathsLoc <= MAX_PATH_NODES - 3 && maxLeafRank == old(maxLeafRank)
      ensures var o := Absorb(old(Abs()), old(Abs()).paths, pkt.Ids());
              Abs() == o.node && sent == old(sent) + o.sent
    {
      hide Xor, SendTopology, Reset, Cleared;
      ghost var all := pkt.Ids();
      ghost var start := Abs();
      ghost var soFar: seq<Packet> := [];
      var i, j := pathsLoc, 0;
      while j < pkt.pathIndex.value
        invariant 0 <= j <= |all|
        invariant Valid() && pathsLoc <= i <= MAX_PATH_NODES - 3 && maxLeafRank == old(maxLeafRank)
        invariant sent == old(sent) + soFar
        invariant var rest := Absorb(Abs(), paths[..i], all[j..]);
                  Absorb(start, start.paths, all) == Out(rest.node, soFar + rest.sent)
      {
        var x := pkt.path[j];
        ghost var here, buf, ids := Abs(), paths[..i], all[j..];
        assert ids[0] == x && ids[1..] == all[j + 1..];
        j := j + 1;
        var present := IsPresentPaths(x);
        if present { continue; }
        paths[i] := x;
        i := i + 1;
        assert paths[..i] == buf + [x];
        assert Abs() == here by {
          assert paths[..pathsLoc] == here.paths;
        }
        if i >= MAX_PATH_NODES - 2 {
          ghost var split := SendTopology(here.(paths := buf + [x])).sent;
          SplitPath(i);
          i := 0;
          assert paths[..i] == [];
          ghost var rest := Absorb(Abs(), [], all[j..]).sent;
          assert (soFar + split) + rest == soFar + (split + rest);
          soFar := soFar + split;
        }
      }
      assert all[j..] == [];
      pathsLoc := i;
    }

    /** The first half of `process_topology_req`, for a known child. */
    method StoreReport(pkt: Packet, childId: Id)
      requires Valid() && Bounded(Abs()) && Has(table.entries, childId)
      requires pkt.Topology? && pkt.Readable()
      modifies this`curLoc, table, checksumChildren
      ensures Valid() && pathsLoc <= MAX_PATH_NODES - 3
      ensures Abs() == old(Abs()).(table := Mark(old(Abs()).table, childId),
                                   sums := old(Abs()).sums + [pkt.checksum])
    {
      hide Has, Mark;
      ghost var sums := checksumChildren[..curLoc];
      var _ := table.ChildSetPktReceived(childId);
      checksumChildren[curLoc] := pkt.checksum;
      curLoc := curLoc + 1;
      assert checksumChildren[..curLoc] == sums + [pkt.checksum];
    }

    /**
     Between events of a topology run every store is in bounds; the new state and the packets sent
     are those of the model.
     */
    method ProcessTopologyReq(pkt: Packet, childId: Id)
      requires Valid() && Bounded(Abs())
      requires pkt.Topology? && pkt.Readable()
      modifies this, table, checksumChildren, secChecksumChildren, paths
      ensures Valid() && Bounded(Abs())
      ensures var o := ProcessTopology(old(Abs()), childId, pkt);
              Abs() == o.node && sent == old(sent) + o.sent
    {
      hide Xor, Absorb, SendTopology, Mark, Has, SameIds, Complete;
      ghost var n := Abs();
      ghost var sentBefore := sent;
      StepBounded(n, Arrive(childId, pkt));
      var known := table.IsChild(childId);
      if !known { return; }
      StoreReport(pkt, childId);
      CopyPaths(pkt);
      if maxLeafRank < pkt.maxLeafRank {
        maxLeafRank := pkt.maxLeafRank;
      }
      ghost var g := Gather(n, childId, pkt);
      assert Abs() == g.node && sent == sentBefore + g.sent;
      var count := table.GetChildCount();
      if curLoc == count {
        SendTopologyResp();
        ghost var last := SendTopology(g.node).sent;
        assert (sentBefore + g.sent) + last == sentBefore + (g.sent + last);
      }
    }

    /** `unicast_send_to_sink`: the answer to a second-round request. */
    method UnicastSendToSink() returns (resp: SecRndResp)
      requires Valid()
      ensures resp.maxIndex as int == |Abs().snapshot| && resp.checksum == Abs().myChecksum
      ensures SnapshotValue(Abs()) == Xor(XorAll(Abs().snapshot), resp.checksum)
    {
      resp := SecRndResp(maxIndex, myChecksum);
    }
  }
}
