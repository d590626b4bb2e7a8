/**
 Bootstrap node lists: merging user nodes into the defaults (cli/src/bootstrap.rs)
 and editing the configured list (cli/src/config.rs).
 */
module Bootstrap {
  import opened Sequences
  import opened Multiaddr
  import opened Text

  predicate SameAddress(a: string, b: string) {
    Strip(a) == Strip(b)
  }

  predicate Covered(nodes: seq<string>, node: string) {
    exists i :: 0 <= i < |nodes| && SameAddress(nodes[i], node)
  }

  /** Keep the first node of every address. */
  function FirstOfEach(nodes: seq<string>): seq<string> {
    if nodes == [] then []
    else
      var kept, last := FirstOfEach(nodes[..|nodes| - 1]), nodes[|nodes| - 1];
      if Covered(kept, last) then kept else kept + [last]
  }

  ghost predicate DistinctAddresses(nodes: seq<string>) {
    forall i, j :: 0 <= i < j < |nodes| ==> !SameAddress(nodes[i], nodes[j])
  }

  lemma {:induction false} FirstOfEachInOrder(nodes: seq<string>)
    ensures Subsequence(FirstOfEach(nodes), nodes)
  {
    if nodes != [] {
      hide Covered;
      var front, last := nodes[..|nodes| - 1], nodes[|nodes| - 1];
      FirstOfEachInOrder(front);
      var kept, r := FirstOfEach(front), FirstOfEach(nodes);
      if !Covered(kept, last) {
        assert r[..|r| - 1] == kept;
      }
    }
  }

  lemma CoveredPrefix(nodes: seq<string>, more: seq<string>, node: string)
    requires nodes <= more && Covered(nodes, node)
    ensures Covered(more, node)
  {
    hide SameAddress;
    var j :| 0 <= j < |nodes| && SameAddress(nodes[j], node);
    assert more[j] == nodes[j];
  }

  /** The merged list is an order-preserving selection with one node per address, missing no address. */
  lemma {:induction false} FirstOfEachLaws(nodes: seq<string>)
    ensures Subsequence(FirstOfEach(nodes), nodes)
    ensures DistinctAddresses(FirstOfEach(nodes))
    ensures forall i :: 0 <= i < |nodes| ==> Covered(FirstOfEach(nodes), nodes[i])
  {
    hide Strip, Subsequence;
    FirstOfEachInOrder(nodes);
    if nodes != [] {
      var front, last := nodes[..|nodes| - 1], nodes[|nodes| - 1];
      FirstOfEachLaws(front);
      var kept, r := FirstOfEach(front), FirstOfEach(nodes);
      if !Covered(kept, last) {
        assert r[|kept|] == last && Covered(r, last);
      }
      forall i | 0 <= i < |nodes|
        ensures Covered(r, nodes[i])
      {
        if i < |front| {
          assert front[i] == nodes[i];
          CoveredPrefix(kept, r, nodes[i]);
        }
      }
    }
  }

  /** The first node given for an address is the one kept. */
  lemma {:induction false} DefaultsWin(nodes: seq<string>, more: seq<string>)
    ensures FirstOfEach(nodes) <= FirstOfEach(nodes + more)
  {
    if more == [] {
      assert nodes + more == nodes;
    } else {
      var front := more[..|more| - 1];
      DefaultsWin(nodes, front);
      assert (nodes + more)[..|nodes + more| - 1] == nodes + front;
    }
  }

  ghost predicate Tracks(seen: set<string>, merged: seq<string>) {
    forall n :: Covered(merged, n) <==> Strip(n) in seen
  }

  lemma TracksNext(seen: set<string>, merged: seq<string>, node: string)
    requires Tracks(seen, merged)
    ensures Tracks(seen + {Strip(node)}, merged + [node])
  {
    forall n
      ensures Covered(merged + [node], n) <==> Covered(merged, n) || SameAddress(node, n)
    {
      if Covered(merged, n) {
        var i :| 0 <= i < |merged| && SameAddress(merged[i], n);
        assert SameAddress((merged + [node])[i], n);
      }
      if SameAddress(node, n) {
        assert SameAddress((merged + [node])[|merged|], n);
      }
    }
  }

  /** One pass of the merge: take each node whose address has not been seen. */
  method AppendUnseen(seen: set<string>, merged: seq<string>, nodes: seq<string>, ghost done: seq<string>)
    returns (seen': set<string>, merged': seq<string>)
    requires merged == FirstOfEach(done) && Tracks(seen, merged)
    ensures merged' == FirstOfEach(done + nodes) && Tracks(seen', merged')
  {
    hide Tracks, FirstOfEach, Covered, Strip;
    seen', merged' := seen, merged;
    assert done + nodes[..0] == done;
    for i := 0 to |nodes|
      invariant merged' == FirstOfEach(done + nodes[..i]) && Tracks(seen', merged')
    {
      assert done + nodes[..i + 1] == (done + nodes[..i]) + [nodes[i]];
      FirstOfEachNext(done + nodes[..i], nodes[i]);
      var stripped := Strip(nodes[i]);
      TracksMember(seen', merged', nodes[i]);
      if stripped !in seen' {
        TracksNext(seen', merged', nodes[i]);
        seen' := seen' + {stripped};
        merged' := merged' + [nodes[i]];
      }
    }
    assert nodes[..|nodes|] == nodes;
  }

  lemma FirstOfEachNext(nodes: seq<string>, node: string)
    ensures FirstOfEach(nodes + [node]) ==
            if Covered(FirstOfEach(nodes), node) then FirstOfEach(nodes) else FirstOfEach(nodes) + [node]
  {
    assert (nodes + [node])[..|nodes|] == nodes;
  }

  lemma TracksMember(seen: set<string>, merged: seq<string>, node: string)
    requires Tracks(seen, merged)
    ensures Covered(merged, node) <==> Strip(node) in seen
  {
  }

  method MergeBootstrapNodes(defaults: seq<string>, userNodes: seq<string>) returns (merged: seq<string>)
    ensures merged == FirstOfEach(defaults + userNodes)
  {
    var seen: set<string> := {};
    merged := [];
    seen, merged := AppendUnseen(seen, merged, defaults, []);
    assert [] + defaults == defaults;
    seen, merged := AppendUnseen(seen, merged, userNodes, defaults);
  }

  // ---------------------------------------------------------------- config

  function OtherAddress(addr: string): string -> bool {
    (n: string) => !SameAddress(n, addr)
  }

  class Config {
    var bootstrapNodes: seq<string>

    constructor (nodes: seq<string>)
      ensures bootstrapNodes == nodes
    {
      bootstrapNodes := nodes;
    }

    /** Fails when the address is already configured under any peer id. */
    method AddBootstrapNode(multiaddr: string) returns (ok: bool)
      modifies this
      ensures ok <==> !Covered(old(bootstrapNodes), multiaddr)
      ensures bootstrapNodes == if ok then old(bootstrapNodes) + [multiaddr] else old(bootstrapNodes)
      ensures DistinctAddresses(old(bootstrapNodes)) ==> DistinctAddresses(bootstrapNodes)
    {
      if Covered(bootstrapNodes, multiaddr) {
        return false;
      }
      bootstrapNodes := bootstrapNodes + [multiaddr];
      return true;
    }

    method RemoveBootstrapNode(multiaddr: string) returns (ok: bool)
      modifies this
      ensures ok <==> Covered(old(bootstrapNodes), multiaddr)
      ensures bootstrapNodes == Filter(OtherAddress(multiaddr), old(bootstrapNodes))
      ensures !ok ==> bootstrapNodes == old(bootstrapNodes)
    {
      if !Covered(bootstrapNodes, multiaddr) {
        FilterAll(OtherAddress(multiaddr), bootstrapNodes);
        return false;
      }
      bootstrapNodes := Filter(OtherAddress(multiaddr), bootstrapNodes);
      return true;
    }
  }

  /** Removing an address that was just added, under any peer id, restores the list. */
  lemma AddThenRemove(nodes: seq<string>, added: string, removed: string)
    requires !Covered(nodes, added) && SameAddress(added, removed)
    ensures Filter(OtherAddress(removed), nodes + [added]) == nodes
  {
    FilterAppend(OtherAddress(removed), nodes, added);
    FilterAll(OtherAddress(removed), nodes);
  }

  /**
   Removing the added address under another peer id restores the list exactly when the stripped
   address does not end in "/p2p"; otherwise joining on the peer id moves the strip point.
   */
  lemma RemoveUnderAnyPeerId(nodes: seq<string>, added: string, peer: string)
    requires !Covered(nodes, added)
    ensures SameAddress(added, Strip(added) + P2P + peer) <==> !EndsWith(Strip(added), "/p2p")
    ensures Filter(OtherAddress(Strip(added) + P2P + peer), nodes + [added]) == nodes <==>
            !EndsWith(Strip(added), "/p2p")
  {
    hide Strip;
    StripIdempotent(added);
    RejoinStrips(Strip(added), peer);
    RestoredExactlyWhen(nodes, added, Strip(added) + P2P + peer);
  }

  /** Removing some address after adding another restores the list exactly when the two are the same address. */
  lemma RestoredExactlyWhen(nodes: seq<string>, added: string, removed: string)
    requires !Covered(nodes, added)
    ensures Filter(OtherAddress(removed), nodes + [added]) == nodes <==> SameAddress(added, removed)
  {
    hide Strip;
    if SameAddress(added, removed) {
      AddThenRemove(nodes, added, removed);
    } else {
      FilterAppend(OtherAddress(removed), nodes, added);
      var r := Filter(OtherAddress(removed), nodes + [added]);
      assert r[|r| - 1] == added;
      assert SameAddress(added, added);
    }
  }
}
