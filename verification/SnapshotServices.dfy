/** The two snapshot services as objects updated in place, proved to follow the value models. */
module SnapshotServices {
  import opened ChainEvents
  import opened Commitments
  import opened MerkleTreeImpl
  import MT = MerkleTree
  import Nullifiers

  class CommitmentsSnapshotService {
    const merkleTree: MerkleTree
    var encOutputs: seq<Output>
    var byCommitment: map<int, string>

    ghost function Model(): State
      reads this, merkleTree
    {
      State(merkleTree.Model(), encOutputs, byCommitment)
    }

    constructor (hash: (int, int) -> int)
      ensures fresh(merkleTree)
      ensures Model() == Initial(MT.Params(200, 0, hash))
    {
      merkleTree := new MerkleTree(hash, 0, 0);
      encOutputs, byCommitment := [], map[];
    }

    method AcceptEvent(event: CommitmentEvent) returns (accepted: bool)
      requires merkleTree.levels >= 1 && Abs(event.index) >= merkleTree.GetStartIndex()
      modifies this, merkleTree
      ensures Model() == Accept(old(Model()), event)
      ensures accepted <==> !Repeats(old(Model()), event)
      ensures forall o :: o in encOutputs && o !in old(encOutputs) ==>
        && o.value == event.encryptedOutput
        && (o.isPositive <==> event.index >= 0) && o.isBlocked == event.isBlocked
      ensures accepted ==> exists o :: o in encOutputs && o.value == event.encryptedOutput
      ensures accepted ==>
        event.commitment in byCommitment && byCommitment[event.commitment] == event.encryptedOutput
    {
      AcceptLists(Model(), event);
      var nodeIndex := Abs(event.index);
      var present := nodeIndex in merkleTree.tree;
      var existing := if present then merkleTree.tree[nodeIndex] else 0;
      if present && existing == event.commitment {
        return false;
      }
      merkleTree.Insert(event.commitment, nodeIndex);
      if present && existing in byCommitment {
        DropOutput(byCommitment[existing]);
        byCommitment := byCommitment - {existing};
      }
      byCommitment := byCommitment[event.commitment := event.encryptedOutput];
      var listed := HasOutput(event.encryptedOutput);
      if !listed {
        encOutputs := encOutputs + [Output(event.encryptedOutput, event.index >= 0, event.isBlocked)];
      }
      accepted := true;
    }

    method DropOutput(value: string)
      modifies this`encOutputs
      ensures encOutputs == RemoveFirst(old(encOutputs), value)
    {
      for i := 0 to |encOutputs|
        invariant encOutputs == old(encOutputs)
        invariant !HasValue(encOutputs[..i], value)
      {
        ghost var outputs := encOutputs;
        if encOutputs[i].value == value {
          RemoveFirstMiddle(outputs[..i], outputs[i], outputs[i + 1..]);
          assert outputs == outputs[..i] + [outputs[i]] + outputs[i + 1..];
          encOutputs := encOutputs[..i] + encOutputs[i + 1..];
          return;
        }
        assert outputs[..i + 1] == outputs[..i] + [outputs[i]];
      }
      assert encOutputs[..|encOutputs|] == encOutputs;
      RemoveFirstAbsent(encOutputs, value);
    }

    method HasOutput(value: string) returns (found: bool)
      ensures found == HasValue(encOutputs, value)
    {
      for i := 0 to |encOutputs|
        invariant forall k :: 0 <= k < i ==> encOutputs[k].value != value
      {
        if encOutputs[i].value == value {
          assert encOutputs[i] in encOutputs;
          return true;
        }
      }
      found := false;
    }

    /** One pass collects the blocked transactions of the page, a second accepts its commitment events. */
    method ProcessEventsPage(page: seq<ChainEvent>) returns (accepted: nat)
      requires merkleTree.levels >= 1
      requires forall e :: e in page && e.NewCommitment? ==> Abs(e.index) >= merkleTree.GetStartIndex()
      modifies this, merkleTree
      ensures Model() == AcceptAll(old(Model()), EventsIn(page, page))
      ensures accepted == AcceptedCount(old(Model()), EventsIn(page, page))
    {
      var blockedTxHashes := BlockedTransactions(page);
      ghost var before, es := Model(), [];
      accepted := 0;
      for i := 0 to |page|
        invariant es == EventsIn(page[..i], page)
        invariant Model() == AcceptAll(before, es) && accepted == AcceptedCount(before, es)
      {
        var e := page[i];
        EventsInOneMore(page, i, page);
        if e.NewCommitment? {
          var event := CommitmentEvent(e.commitment, e.index, e.encryptedOutput, e.tx in blockedTxHashes);
          AcceptOneMore(before, es, event);
          es := es + [event];
          var took := AcceptEvent(event);
          if took {
            accepted := accepted + 1;
          }
        } else {
          assert es + [] == es;
        }
      }
      assert page[..|page|] == page;
    }
  }

  method BlockedTransactions(page: seq<ChainEvent>) returns (txs: set<string>)
    ensures forall tx :: tx in txs <==> exists e :: e in page && e.BlockedUtxosCreated? && e.tx == tx
  {
    txs := {};
    for i := 0 to |page|
      invariant forall tx :: tx in txs <==> BlockedIn(page[..i], tx)
    {
      assert page[..i + 1] == page[..i] + [page[i]];
      if page[i].BlockedUtxosCreated? {
        txs := txs + {page[i].tx};
      }
    }
    assert page[..|page|] == page;
  }

  class NullifierSnapshotService {
    var nullifiers: set<string>

    constructor ()
      ensures nullifiers == {}
    {
      nullifiers := {};
    }

    method AcceptEvent(nullifier: string) returns (accepted: bool)
      modifies this
      ensures nullifiers == Nullifiers.Accept(old(nullifiers), nullifier)
      ensures accepted <==> nullifier !in old(nullifiers)
    {
      if nullifier in nullifiers {
        return false;
      }
      nullifiers := nullifiers + {nullifier};
      accepted := true;
    }

    method ProcessEventsPage(page: seq<ChainEvent>) returns (accepted: nat)
      modifies this
      ensures nullifiers == Nullifiers.AcceptPage(old(nullifiers), page)
      ensures accepted == |nullifiers| - |old(nullifiers)|
    {
      accepted := 0;
      ghost var before := nullifiers;
      for i := 0 to |page|
        invariant nullifiers == Nullifiers.AcceptPage(before, page[..i])
        invariant accepted == |nullifiers| - |before|
      {
        Nullifiers.AcceptPageStep(before, page, i);
        if page[i].Nullified? {
          ghost var now := nullifiers;
          var took := AcceptEvent(page[i].nullifier);
          if took {
            accepted := accepted + 1;
            assert nullifiers == now + {page[i].nullifier} && |nullifiers| == |now| + 1;
          } else {
            assert nullifiers == now;
          }
        }
      }
      assert page[..|page|] == page;
    }
  }
}
