/** Decoded contract events and how a page of them is turned into service events. */
module ChainEvents {

  /** An event a service cannot map is an `OtherEvent`: both are skipped. */
  datatype ChainEvent =
    | NewCommitment(tx: string, block: nat, commitment: int, index: int, encryptedOutput: string)
    | Nullified(tx: string, block: nat, nullifier: string)
    | BlockedUtxosCreated(tx: string, block: nat)
    | OtherEvent(tx: string, block: nat)

  /** The blocked flag is looked up in the page the event arrives in. */
  predicate BlockedIn(page: seq<ChainEvent>, tx: string) {
    exists e :: e in page && e.BlockedUtxosCreated? && e.tx == tx
  }

  /** A transaction is mined in one block. */
  ghost predicate OneBlockPerTx(history: seq<ChainEvent>) {
    forall e, f :: e in history && f in history && e.tx == f.tx ==> e.block == f.block
  }

  /** The page holds exactly the events of a block range, in any order. */
  ghost predicate IsRange(page: seq<ChainEvent>, history: seq<ChainEvent>, from: nat, to: nat) {
    forall e :: e in page <==> e in history && from <= e.block <= to
  }

  /** Whatever page a transaction's events arrive in, its blocked flag is that of the whole history. */
  lemma BlockedIsPageIndependent(history: seq<ChainEvent>, page: seq<ChainEvent>, from: nat, to: nat, e: ChainEvent)
    requires OneBlockPerTx(history) && IsRange(page, history, from, to) && e in page
    ensures BlockedIn(page, e.tx) <==> BlockedIn(history, e.tx)
  {
    if BlockedIn(history, e.tx) {
      var b :| b in history && b.BlockedUtxosCreated? && b.tx == e.tx;
      assert b in page;
    }
  }
}
