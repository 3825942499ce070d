/**
 The exchange store and its compare-and-swap keyed on the attempt id
 (src/transactionManager.ts, lines 24-132).
 */
module TransactionManagers {
  import opened Wrappers
  import opened VerifyTasks

  datatype CasStatus = Committed | Stale | NotFound

  function ReadVerifyTaskAttemptId(exchange: Exchange): Option<AttemptId> {
    if exchange.workflowId == Verify && exchange.verifyTask.Some?
    then Some(exchange.verifyTask.value.attemptId)
    else None
  }

  /** Only a verify exchange with a task has an attempt id, and it is the task's. */
  lemma AttemptIdIff(exchange: Exchange, id: AttemptId)
    ensures ReadVerifyTaskAttemptId(exchange) == Some(id) <==>
              exchange.workflowId == Verify && exchange.verifyTask.Some? && exchange.verifyTask.value.attemptId == id
  {
  }

  /** Compare-and-swap on one record, taken as a single step as the source's contract says. */
  function CasRecord(current: Option<Exchange>, expected: AttemptId,
                     update: Exchange -> Exchange): (r: (Option<Exchange>, CasStatus))
    ensures r.1 == NotFound <==> current.None?
    ensures r.1 == Committed <==> current.Some? && ReadVerifyTaskAttemptId(current.value) == Some(expected)
    ensures r.1 == Committed ==> r.0 == Some(update(current.value))
    ensures r.1 != Committed ==> r.0 == current
  {
    if current.None? then (None, NotFound)
    else if ReadVerifyTaskAttemptId(current.value) != Some(expected) then (current, Stale)
    else (Some(update(current.value)), Committed)
  }

  class TransactionManager {
    var keyv: map<string, Exchange>

    constructor ()
      ensures keyv == map[]
    {
      keyv := map[];
    }

    /** The record under an id, whatever its workflow. */
    ghost function Record(exchangeId: string): Option<Exchange>
      reads this
    {
      if exchangeId in keyv then Some(keyv[exchangeId]) else None
    }

    /** `None` stands for the 404 the source throws: unknown id, or another workflow's exchange. */
    method GetExchangeData(exchangeId: string, workflowId: WorkflowId) returns (r: Option<Exchange>)
      ensures r == if Record(exchangeId).Some? && Record(exchangeId).value.workflowId == workflowId
                   then Record(exchangeId) else None
    {
      if exchangeId !in keyv || keyv[exchangeId].workflowId != workflowId {
        return None;
      }
      r := Some(keyv[exchangeId]);
    }

    method SaveExchange(exchangeId: string, data: Exchange)
      modifies this
      ensures keyv == old(keyv)[exchangeId := data]
    {
      keyv := keyv[exchangeId := data];
    }

    method SaveExchangeWithCAS(exchangeId: string, expected: AttemptId, update: Exchange -> Exchange)
      returns (status: CasStatus)
      modifies this
      ensures (Record(exchangeId), status) == CasRecord(old(Record(exchangeId)), expected, update)
      ensures forall id :: id != exchangeId ==> Record(id) == old(Record(id))
      ensures status != Committed ==> keyv == old(keyv)
    {
      if exchangeId !in keyv {
        return NotFound;
      }
      var current := keyv[exchangeId];
      var currentAttemptId := ReadVerifyTaskAttemptId(current);
      if currentAttemptId != Some(expected) {
        return Stale;
      }
      var next := update(current);
      keyv := keyv[exchangeId := next];
      status := Committed;
    }

    /** Loss of a record when its time to live lapses. */
    method Evict(exchangeId: string)
      modifies this
      ensures Record(exchangeId) == None
      ensures forall id :: id != exchangeId ==> Record(id) == old(Record(id))
    {
      keyv := keyv - {exchangeId};
    }
  }
}
