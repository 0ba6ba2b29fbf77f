/**
  The transaction status authority used by the scenarios with transactions:
  a map from transaction id to commit time, answering a status request for
  a read time with TryAgain, PENDING or COMMITTED. The asynchronous callback
  of the source becomes a returned value.
 */
module TransactionStatus {
  import opened HybridTimes
  import opened DocStore

  datatype TxnStatus = Committed | Pending

  datatype StatusResponse =
    | TryAgain(txn: TransactionId)                          // "Unknown transaction id"
    | StatusResult(status: TxnStatus, statusTime: HybridTime)

  /** The answer of RequestStatusAt for the commit times `commitTimes`. */
  function StatusAt(commitTimes: map<TransactionId, HybridTime>, id: TransactionId, readTime: HybridTime)
    : (r: StatusResponse)
    ensures r.TryAgain? <==> id !in commitTimes
    ensures r.TryAgain? ==> r.txn == id
    ensures (r.StatusResult? && r.status == Committed) <==> id in commitTimes && commitTimes[id] <= readTime
    ensures r.StatusResult? && r.status == Committed ==> r.statusTime == commitTimes[id]
    ensures r.StatusResult? && r.status == Pending ==> r.statusTime == kMinHybridTime
  {
    if id !in commitTimes then TryAgain(id)
    else if readTime >= commitTimes[id] then StatusResult(Committed, commitTimes[id])
    else StatusResult(Pending, kMinHybridTime)
  }

  /** A transaction seen committed stays committed, with the same commit time,
      at every later read time; one seen pending was pending at every earlier read time. */
  lemma StatusIsMonotone(commitTimes: map<TransactionId, HybridTime>, id: TransactionId,
                         t1: HybridTime, t2: HybridTime)
    requires t1 <= t2
    ensures StatusAt(commitTimes, id, t1).StatusResult? && StatusAt(commitTimes, id, t1).status == Committed
            ==> StatusAt(commitTimes, id, t2) == StatusAt(commitTimes, id, t1)
    ensures StatusAt(commitTimes, id, t2).StatusResult? && StatusAt(commitTimes, id, t2).status == Pending
            ==> StatusAt(commitTimes, id, t1) == StatusAt(commitTimes, id, t2)
  {
  }

  class TransactionStatusManagerMock {
    var txnCommitTime: map<TransactionId, HybridTime>

    constructor()
      ensures txnCommitTime == map[]
    {
      txnCommitTime := map[];
    }

    method RequestStatusAt(id: TransactionId, readTime: HybridTime) returns (r: StatusResponse)
      ensures r == StatusAt(txnCommitTime, id, readTime)
    {
      if id !in txnCommitTime {
        r := TryAgain(id);
      } else if readTime >= txnCommitTime[id] {
        r := StatusResult(Committed, txnCommitTime[id]);
      } else {
        r := StatusResult(Pending, kMinHybridTime);
      }
    }

    /** Records a commit time; like emplace, it keeps an id's first recorded time. */
    method Commit(id: TransactionId, commitTime: HybridTime)
      modifies this
      ensures id in old(txnCommitTime) ==> txnCommitTime == old(txnCommitTime)
      ensures id !in old(txnCommitTime) ==> txnCommitTime == old(txnCommitTime)[id := commitTime]
    {
      if id !in txnCommitTime {
        txnCommitTime := txnCommitTime[id := commitTime];
      }
    }
  }
}
