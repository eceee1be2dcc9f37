/** The part of relayQueries in internal/proxy/query.go that keeps a client's writer connection: its
    three variables, updated after every statement on the writer and when the client leaves. The
    state machine of Proxy does the same. */
module ClientLoop {
  import opened Wrappers
  import opened ConnPool
  import opened Proxy

  /** What happens to the connection of the statement: it stays with the client, or goes back. */
  datatype Give = Keep | Back(loan: Loan, how: How)

  /** The connection is released after a reset exactly when it was dirty and the reset succeeded,
      discarded exactly when it was dirty and the reset failed, and released as it is otherwise. */
  predicate EndsWell(how: How, dirty: bool, resetOk: bool) {
    && (how.Reset? <==> dirty && resetOk)
    && (how.ResetFailed? <==> dirty && !resetOk)
    && (how.Plain? <==> !dirty)
  }

  class Client {
    var boundWriter: Option<Conn>
    var boundWriterPool: nat
    var connDirty: bool

    constructor ()
      ensures Bound() == None && !connDirty
    {
      boundWriter, boundWriterPool, connDirty := None, 0, false;
    }

    /** The bound connection with the pool that lent it. */
    function Bound(): Option<Loan>
      reads this
    {
      if boundWriter.Some? then Some(Loan(boundWriter.value, boundWriterPool)) else None
    }

    /** After a statement on the writer: BEGIN binds its connection, COMMIT or ROLLBACK gives it back
        to the pool it was bound from, a statement outside a transaction gives back what it
        acquired; a dirty connection is reset first. */
    method AfterWrite(conn: Conn, acquired: bool, acquiredPool: nat, job: Job, resetOk: bool) returns (give: Give)
      modifies this
      ensures give.Keep? <==> (!job.was && job.now) || (job.was == job.now && !acquired)
      ensures give.Back? ==>
                && give.loan == Loan(conn, if job.was && !job.now then old(boundWriterPool) else acquiredPool)
                && EndsWell(give.how, old(connDirty) || Modifying(job), resetOk)
      ensures Bound() == if !job.was && job.now then Some(Loan(conn, acquiredPool))
                         else if job.was && !job.now then None else old(Bound())
      ensures connDirty == (give.Keep? && (old(connDirty) || Modifying(job)))
    {
      if Modifying(job) {
        connDirty := true;
      }
      give := Keep;
      if !job.was && job.now {
        boundWriter := Some(conn);
        boundWriterPool := acquiredPool;
      } else if job.was && !job.now {
        var bwp := boundWriterPool;
        boundWriter := None;
        boundWriterPool := 0;
        give := GiveTo(conn, bwp, resetOk);
        connDirty := false;
      } else if acquired {
        if connDirty || Modifying(job) {
          give := Back(Loan(conn, acquiredPool), if resetOk then Reset else ResetFailed);
          connDirty := false;
        } else {
          give := Back(Loan(conn, acquiredPool), Plain);
        }
      }
    }

    /** resetAndReleaseToPool when dirty, releaseToPool otherwise. */
    method GiveTo(conn: Conn, pool: nat, resetOk: bool) returns (give: Give)
      ensures give.Back? && give.loan == Loan(conn, pool) && EndsWell(give.how, connDirty, resetOk)
    {
      if connDirty {
        return Back(Loan(conn, pool), if resetOk then Reset else ResetFailed);
      }
      return Back(Loan(conn, pool), Plain);
    }

    /** The deferred cleanup. */
    method Cleanup(resetOk: bool) returns (give: Give)
      ensures give.Back? <==> Bound().Some?
      ensures give.Back? ==> give.loan == Bound().value && EndsWell(give.how, connDirty, resetOk)
    {
      if boundWriter.Some? {
        give := GiveTo(boundWriter.value, boundWriterPool, resetOk);
      } else {
        give := Keep;
      }
    }

    /** One step of this client in the state machine: when the client's variables are those of the
        session that just ran a statement on the writer, then after AfterWrite they are those of
        the session after FinishWrite, and what FinishWrite gives back is what AfterWrite gives
        back. */
    method FinishStatement(ghost st: State, ghost sid: nat, conn: Conn, acquired: bool, acquiredPool: nat, job: Job,
                           resetOk: bool, ghost now: int)
      returns (give: Give)
      requires sid < |st.sessions| && st.sessions[sid].pc == Executing(job, Loan(conn, acquiredPool), acquired)
      requires st.sessions[sid].bound == Bound() && st.sessions[sid].dirty == connDirty
      requires acquiredPool < |st.pools| && (Bound().Some? ==> Bound() == Some(Loan(conn, acquiredPool)))
      requires Bound().Some? <==> job.was
      modifies this
      ensures var st' := FinishWrite(st, sid, resetOk, now);
              && st'.sessions[sid].bound == Bound() && st'.sessions[sid].dirty == connDirty
              && (give.Keep? ==> st'.pools == st.pools && st'.shut == st.shut)
              && (give.Back? ==> st'.pools == st.pools[acquiredPool := if give.how.Plain? || give.how.Reset?
                                   then ReleaseStep(st.pools[acquiredPool], conn, now)
                                   else DiscardStep(st.pools[acquiredPool])])
              && (give.Back? ==>
                    st'.shut == st.shut + if give.how.ResetFailed? || st.pools[acquiredPool].closed then [conn] else [])
    {
      give := AfterWrite(conn, acquired, acquiredPool, job, resetOk);
    }
  }
}
