/** `PostgresDbClient` and its transaction clients over a pooled connection that may fail at any call.
  *
  * PostgreSQL differs from SQLite where it matters here: a failed statement aborts the open transaction,
  * a COMMIT of an aborted transaction is answered without an error but commits nothing, a failing
  * COMMIT may have ended the transaction, and a broken connection answers nothing any more. */
module PostgresClient {
  import opened Prelude
  import opened SqliteClient

  datatype Reply = Ok | Error | SerializationFailure

  /** A pooled connection, and the transaction that is open on it. */
  datatype Wire = Wire(committed: seq<Write>, pending: seq<Write>, open: bool, aborted: bool, broken: bool)

  /** A BEGIN may get `reply`; one whose error is not the server's own may have opened the transaction. */
  predicate CanBegin(before: Wire, reply: Reply, after: Wire) {
    && after.committed == before.committed
    && (reply == Ok ==> after.open && !after.aborted && after.pending == [])
    && (reply == SerializationFailure ==> after.open == before.open && after.aborted == before.aborted)
  }

  /** A statement may get `reply`: a failing one aborts the open transaction, and in an aborted one all fail. */
  predicate CanRun(before: Wire, w: Option<Write>, reply: Reply, after: Wire) {
    && after.open == before.open && (before.aborted ==> after.aborted)
    && (before.open ==>
          && after.committed == before.committed
          && (if reply == Ok then !before.aborted && !after.aborted && after.pending == before.pending + Listed(w)
              else after.aborted))
    && (!before.open ==>
          && after.aborted == before.aborted
          && after.committed == if reply == Ok then before.committed + Listed(w) else before.committed)
  }

  /** A COMMIT may get `reply`: of an aborted transaction it commits nothing, and says so in no error. */
  predicate CanCommit(before: Wire, reply: Reply, after: Wire) {
    && (reply == Ok ==>
          && !after.open && !after.aborted
          && after.committed == if before.aborted then before.committed else before.committed + before.pending)
    && (reply == SerializationFailure ==> !after.open && !after.aborted && after.committed == before.committed)
    && (reply == Error && !after.broken ==> !after.open && after.committed == before.committed)
  }

  /** The failure a callback swallows: its only statement fails, and the transaction still ends with a COMMIT
    * that gets no error. Such replies are possible, */
  lemma SwallowingIsPossible(committed: seq<Write>, w: Write) returns (begun: Wire, failed: Wire, ended: Wire)
    ensures CanBegin(Wire(committed, [], false, false, false), Ok, begun)
    ensures CanRun(begun, Some(w), Error, failed) && CanCommit(failed, Ok, ended) && !ended.broken
  {
    begun := Wire(committed, [], true, false, false);
    failed := begun.(aborted := true);
    ended := Wire(committed, [], false, false, false);
  }

  /** and whatever ran before the failing statement, nothing has been committed then. */
  lemma SwallowingCommitsNothing(begun: Wire, w: Write, reply: Reply, failed: Wire, ended: Wire)
    requires begun.open && CanRun(begun, Some(w), reply, failed) && reply != Ok && CanCommit(failed, Ok, ended)
    ensures ended.committed == begun.committed && !ended.open
  {
  }

  class PoolConnection {
    var committed: seq<Write>
    var pending: seq<Write>
    var open: bool
    var aborted: bool
    var broken: bool
    /** How often the connection has been handed back to the pool. */
    var releases: nat
    ghost var log: seq<DriverCall<Reply>>

    constructor ()
      ensures committed == [] && !open && !aborted && releases == 0
    {
      committed, pending, open, aborted, broken, releases, log := [], [], false, false, false, 0, [];
    }

    ghost function Now(): Wire
      reads this
    {
      Wire(committed, pending, open, aborted, broken)
    }

    /** An error reply: the server reports one, or the connection breaks. */
    method Failure() returns (reply: Reply)
      modifies this`broken
      ensures reply != Ok && (reply == SerializationFailure ==> broken == old(broken) == false)
      ensures old(broken) ==> broken
    {
      var breaks, serialization := *, *;
      broken := broken || breaks;
      reply := if serialization && !broken then SerializationFailure else Error;
    }

    method Begin() returns (reply: Reply)
      requires !open
      modifies this`open, this`aborted, this`pending, this`broken, this`log
      ensures CanBegin(old(Now()), reply, Now())
      ensures log == old(log) + [BeginCall(reply)]
    {
      reply := Ok;
      var fails: bool := *;
      if fails || broken {
        reply := Failure();
      }
      if reply == Error {
        open := *;
      }
      if reply == Ok {
        open, aborted, pending := true, false, [];
      }
      log := log + [BeginCall(reply)];
    }

    method Run(w: Option<Write>) returns (reply: Reply)
      modifies this`committed, this`pending, this`aborted, this`broken, this`log
      ensures CanRun(old(Now()), w, reply, Now())
      ensures log == old(log) + [if w.Some? then RunCall(w.value, reply) else SetCall(reply)]
    {
      reply := Ok;
      var fails: bool := *;
      if fails || broken || (open && aborted) {
        reply := Failure();
        aborted := aborted || open;
      } else if open {
        pending := pending + Listed(w);
      } else {
        committed := committed + Listed(w);
      }
      log := log + [if w.Some? then RunCall(w.value, reply) else SetCall(reply)];
    }

    method Commit() returns (reply: Reply)
      requires open
      modifies this`committed, this`pending, this`open, this`aborted, this`broken, this`log
      ensures CanCommit(old(Now()), reply, Now())
      ensures log == old(log) + [CommitCall(reply)]
    {
      reply := Ok;
      var fails, applied: bool := *, *;
      if fails || broken {
        reply := Failure();
      }
      if reply == Ok || broken {
        if !aborted && (reply == Ok || applied) {
          committed := committed + pending;
        }
      }
      if reply == Ok || !broken {
        open, aborted, pending := false, false, [];
      }
      log := log + [CommitCall(reply)];
    }

    method Rollback() returns (reply: Reply)
      modifies this`pending, this`open, this`aborted, this`broken, this`log
      ensures old(broken) ==> reply != Ok
      ensures reply == Ok ==> !open && !aborted
      ensures log == old(log) + [RollbackCall(reply)]
    {
      reply := Ok;
      var fails: bool := *;
      if fails || broken {
        reply := Failure();
      } else {
        open, aborted, pending := false, false, [];
      }
      log := log + [RollbackCall(reply)];
    }

    method Release()
      modifies this`releases
      ensures releases == old(releases) + 1
    {
      releases := releases + 1;
    }
  }

  function Listed(w: Option<Write>): seq<Write> {
    if w.Some? then [w.value] else []
  }

  predicate EndsClient(end: seq<DriverCall<Reply>>, rollbackRequired: bool, dead: bool) {
    if rollbackRequired then IsRollback(end, dead) else end == [] && !dead
  }

  /** One ROLLBACK; the client dies exactly if it gets an error. */
  predicate IsRollback(end: seq<DriverCall<Reply>>, dead: bool) {
    |end| == 1 && end[0].RollbackCall? && (dead <==> end[0].reply != Ok)
  }

  /** The calls between BEGIN and the end of the try block. A COMMIT that failed to serialize has ended the
    * transaction already; after any other error it is rolled back. */
  ghost predicate IsAttempt(callback: seq<Action>, serializable: bool, calls: seq<DriverCall<Reply>>, returned: bool, rollbackRequired: bool) {
    || (serializable && |calls| == 1 && calls[0].SetCall? && calls[0].reply != Ok && !returned && rollbackRequired)
    || exists body, end, completed ::
         IsCallbackRun(callback, serializable, calls, body, end, completed) && IsCommit(end, completed, returned, rollbackRequired)
  }

  predicate IsCallbackRun(callback: seq<Action>, serializable: bool, calls: seq<DriverCall<Reply>>,
                          body: seq<DriverCall<Reply>>, end: seq<DriverCall<Reply>>, completed: bool) {
    IsCallbackLog(callback, body, Ok, completed) && calls == (if serializable then [SetCall(Ok)] else []) + body + end
  }

  predicate IsCommit(end: seq<DriverCall<Reply>>, completed: bool, returned: bool, rollbackRequired: bool) {
    if !completed then end == [] && !returned && rollbackRequired
    else |end| == 1 && end[0].CommitCall? && (returned <==> end[0].reply == Ok) && (rollbackRequired <==> end[0].reply == Error)
  }

  /** The calls of `transaction(fn, opts)` on a live idle client, and what becomes of it. */
  ghost predicate IsPoolTransaction(callback: seq<Action>, serializable: bool, calls: seq<DriverCall<Reply>>, returned: bool, dead: bool) {
    || (calls == [BeginCall(SerializationFailure)] && !returned && !dead)
    || (calls == [BeginCall(Error)] && !returned && dead)
    || exists attempt, end, rollbackRequired :: IsAttempt(callback, serializable, attempt, returned, rollbackRequired)
         && EndsClient(end, rollbackRequired, dead) && calls == [BeginCall(Ok)] + attempt + end
  }

  lemma EndedTransaction(callback: seq<Action>, serializable: bool, attempt: seq<DriverCall<Reply>>, end: seq<DriverCall<Reply>>,
                         returned: bool, rollbackRequired: bool, dead: bool)
    requires IsAttempt(callback, serializable, attempt, returned, rollbackRequired) && EndsClient(end, rollbackRequired, dead)
    ensures IsPoolTransaction(callback, serializable, [BeginCall(Ok)] + attempt + end, returned, dead)
  {
  }

  /** The last call decides: a COMMIT without an error returns. The end of the client is a ROLLBACK with an error, or
    * a BEGIN whose error is no serialization failure. */
  lemma LastReplyDecides(callback: seq<Action>, serializable: bool, calls: seq<DriverCall<Reply>>, returned: bool, dead: bool)
    requires IsPoolTransaction(callback, serializable, calls, returned, dead)
    ensures calls != []
    ensures returned <==> calls[|calls| - 1] == CommitCall(Ok)
    ensures dead <==> calls == [BeginCall(Error)] || (calls[|calls| - 1].RollbackCall? && calls[|calls| - 1].reply != Ok)
  {
    if attempt, end, rollbackRequired :|
      && IsAttempt(callback, serializable, attempt, returned, rollbackRequired)
      && EndsClient(end, rollbackRequired, dead) && calls == [BeginCall(Ok)] + attempt + end
    {
      if rollbackRequired {
        assert calls[|calls| - 1] == end[0];
      } else {
        var body, commit, completed :|
          IsCallbackRun(callback, serializable, attempt, body, commit, completed) && IsCommit(commit, completed, returned, rollbackRequired);
        assert calls[|calls| - 1] == commit[0];
      }
      assert calls[0] == BeginCall(Ok);
    }
  }

  class TxClient {
    const conn: PoolConnection
    var invalidated: bool

    constructor (conn: PoolConnection)
      ensures this.conn == conn && !invalidated
    {
      this.conn := conn;
      this.invalidated := false;
    }

    method Invalidate()
      modifies this
      ensures invalidated
    {
      invalidated := true;
    }

    method Execute(w: Write) returns (ok: bool)
      modifies conn`committed, conn`pending, conn`aborted, conn`broken, conn`log
      ensures invalidated ==> !ok && unchanged(conn)
      ensures conn.open ==> conn.committed == old(conn.committed)
      ensures conn.open && ok ==> !old(conn.aborted) && !conn.aborted && conn.pending == old(conn.pending) + [w]
      ensures conn.open && !ok && !invalidated ==> conn.aborted
      ensures old(conn.aborted) ==> conn.aborted
      ensures !invalidated ==> exists reply :: (ok <==> reply == Ok) && conn.log == old(conn.log) + [RunCall(w, reply)]
    {
      if invalidated {
        return false;
      }
      var reply := conn.Run(Some(w));
      ok := reply == Ok;
    }
  }

  class DbClient {
    const conn: PoolConnection
    var inTransaction: bool
    var dead: bool

    /** Between calls: a live idle client has no transaction open, and exactly the dead clients have
      * handed their connection back. */
    ghost predicate Valid()
      reads this, conn
    {
      && (!dead && !inTransaction ==> !conn.open && !conn.aborted)
      && conn.releases == (if dead then 1 else 0)
    }

    constructor (conn: PoolConnection)
      requires !conn.open && !conn.aborted && conn.releases == 0
      ensures Valid() && this.conn == conn && !dead && !inTransaction
    {
      this.conn := conn;
      inTransaction, dead := false, false;
    }

    method Execute(w: Write) returns (ok: bool)
      requires Valid()
      modifies conn`committed, conn`pending, conn`aborted, conn`broken, conn`log
      ensures Valid()
      ensures dead || inTransaction ==> !ok && unchanged(conn)
      ensures !dead && !inTransaction ==>
                && conn.committed == (if ok then old(conn.committed) + [w] else old(conn.committed))
                && exists reply :: (ok <==> reply == Ok) && conn.log == old(conn.log) + [RunCall(w, reply)]
    {
      if dead || inTransaction {
        return false;
      }
      var reply := conn.Run(Some(w));
      ok := reply == Ok;
    }

    /** `transaction(fn, opts)`. `done` are the callback's statements that succeeded, in order, and `calls` what the
      * connection is asked; `swallowed` says that a statement failed although the callback completed. A return
      * means that exactly `done` has been committed if and only if nothing was swallowed: otherwise
      * PostgreSQL has rolled back, and nothing has. */
    method Transaction(callback: seq<Action>, serializable: bool)
      returns (returned: bool, done: seq<Write>, swallowed: bool, tx: TxClient, ghost calls: seq<DriverCall<Reply>>)
      requires Valid()
      modifies this, conn
      ensures Valid() && fresh(tx) && tx.invalidated
      ensures old(dead) || old(inTransaction) ==> !returned && unchanged(this) && unchanged(conn)
      ensures !old(dead) && !old(inTransaction) ==>
                !inTransaction && conn.log == old(conn.log) + calls && IsPoolTransaction(callback, serializable, calls, returned, dead)
      ensures returned ==> !dead && conn.committed == if swallowed then old(conn.committed) else old(conn.committed) + done
      ensures returned && PropagatesErrors(callback) ==> !swallowed && done == WritesOf(callback)
      ensures !returned && !dead ==> conn.committed == old(conn.committed)
      decreases callback, 3
    {
      tx := new TxClient(conn);
      done, swallowed, calls := [], false, [];
      if dead || inTransaction {
        tx.Invalidate();
        return false, done, swallowed, tx, calls;
      }
      inTransaction := true;
      returned, done, swallowed, calls := TryTransaction(callback, serializable, tx);
      inTransaction := false;
      tx.Invalidate();
    }

    /** Try block and catch block. */
    method TryTransaction(callback: seq<Action>, serializable: bool, tx: TxClient)
      returns (returned: bool, done: seq<Write>, swallowed: bool, ghost calls: seq<DriverCall<Reply>>)
      requires inTransaction && !dead && conn.releases == 0 && tx.conn == conn && !tx.invalidated
      requires !conn.open && !conn.aborted
      modifies this, conn
      ensures inTransaction && conn.releases == (if dead then 1 else 0) && (!dead ==> !conn.open && !conn.aborted)
      ensures conn.log == old(conn.log) + calls && IsPoolTransaction(callback, serializable, calls, returned, dead)
      ensures returned ==> !dead && conn.committed == if swallowed then old(conn.committed) else old(conn.committed) + done
      ensures returned && PropagatesErrors(callback) ==> !swallowed && done == WritesOf(callback)
      ensures !returned && !dead ==> conn.committed == old(conn.committed)
      decreases callback, 2
    {
      ghost var was := conn.log;
      done, swallowed := [], false;
      var rollbackRequired := false;
      var reply := conn.Begin();
      calls := [BeginCall(reply)];
      ghost var attempt: seq<DriverCall<Reply>>, end: seq<DriverCall<Reply>> := [], [];
      ghost var begun := reply == Ok;
      if reply == Ok {
        reply, rollbackRequired, done, swallowed, attempt := Attempt(callback, serializable, tx);
      }
      returned := reply == Ok;
      if !returned {
        end := Recover(rollbackRequired, reply);
      }
      if begun {
        EndedTransaction(callback, serializable, attempt, end, returned, rollbackRequired, dead);
        LogGrows(was, [BeginCall(Ok)], attempt);
        LogGrows(was, [BeginCall(Ok)] + attempt, end);
        calls := [BeginCall(Ok)] + attempt + end;
      } else {
        assert attempt == [] && end == [] && conn.log == was + calls;
      }
    }

    /** The try block once BEGIN has succeeded. `reply` is `Ok` if it returns, and else the error it throws. */
    method Attempt(callback: seq<Action>, serializable: bool, tx: TxClient)
      returns (reply: Reply, rollbackRequired: bool, done: seq<Write>, swallowed: bool, ghost calls: seq<DriverCall<Reply>>)
      requires inTransaction && !dead && conn.releases == 0 && tx.conn == conn && !tx.invalidated
      requires conn.open && !conn.aborted && conn.pending == []
      modifies this, conn
      ensures inTransaction && !dead && conn.releases == 0 && !tx.invalidated
      ensures conn.log == old(conn.log) + calls && IsAttempt(callback, serializable, calls, reply == Ok, rollbackRequired)
      ensures !rollbackRequired ==> !conn.open && !conn.aborted && (reply == Ok || reply == SerializationFailure)
      ensures reply == Ok ==> !rollbackRequired && conn.committed == if swallowed then old(conn.committed) else old(conn.committed) + done
      ensures reply == Ok && PropagatesErrors(callback) ==> !swallowed && done == WritesOf(callback)
      ensures reply != Ok ==> (rollbackRequired && conn.broken) || conn.committed == old(conn.committed)
      decreases callback, 1
    {
      rollbackRequired, done, swallowed, calls := true, [], false, [];
      if serializable {
        reply := conn.Run(None);
        calls := [SetCall(reply)];
        if reply != Ok {
          return;
        }
      }
      ghost var body;
      var completed;
      completed, done, swallowed, body := RunCallback(callback, tx);
      ghost var end := [];
      reply := Error;
      if completed {
        reply := conn.Commit();
        end := [CommitCall(reply)];
        rollbackRequired := reply == Error;
      }
      assert IsCommit(end, completed, reply == Ok, rollbackRequired);
      calls := calls + body + end;
      assert IsCallbackRun(callback, serializable, calls, body, end, completed);
    }

    /** The catch block: roll back, and give the connection up when its state is unknown. */
    method Recover(rollbackRequired: bool, error: Reply) returns (ghost calls: seq<DriverCall<Reply>>)
      requires !dead && conn.releases == 0
      requires !rollbackRequired && error == SerializationFailure ==> !conn.open && !conn.aborted
      modifies this`dead, conn`pending, conn`open, conn`aborted, conn`broken, conn`releases, conn`log
      ensures conn.releases == (if dead then 1 else 0)
      ensures !dead ==> !conn.open && !conn.aborted
      ensures rollbackRequired && old(conn.broken) ==> dead
      ensures conn.log == old(conn.log) + calls
      ensures if rollbackRequired then IsRollback(calls, dead) else calls == [] && (dead <==> error != SerializationFailure)
    {
      calls := [];
      if rollbackRequired {
        var reply := conn.Rollback();
        calls := [RollbackCall(reply)];
        if reply != Ok {
          dead := true;
          conn.Release();
        }
      } else if error != SerializationFailure {
        dead := true;
        conn.Release();
      }
    }

    /** The callback, run with the transaction open. `completed` is false when it throws. */
    method RunCallback(callback: seq<Action>, tx: TxClient)
      returns (completed: bool, done: seq<Write>, swallowed: bool, ghost calls: seq<DriverCall<Reply>>)
      requires inTransaction && !dead && conn.releases == 0 && tx.conn == conn && !tx.invalidated
      requires conn.open && !conn.aborted && conn.pending == []
      modifies this, conn
      ensures inTransaction && !dead && conn.releases == 0 && !tx.invalidated
      ensures conn.open && conn.committed == old(conn.committed)
      ensures !swallowed && completed ==> !conn.aborted && conn.pending == done
      ensures swallowed ==> conn.aborted
      ensures completed && PropagatesErrors(callback) ==> !swallowed && done == WritesOf(callback)
      ensures conn.log == old(conn.log) + calls && IsCallbackLog(callback, calls, Ok, completed)
      decreases callback, 0
    {
      done, swallowed, calls := [], false, [];
      for i := 0 to |callback|
        invariant inTransaction && !dead && conn.releases == 0 && !tx.invalidated
        invariant conn.open && conn.committed == old(conn.committed)
        invariant !swallowed ==> !conn.aborted && conn.pending == done
        invariant swallowed ==> conn.aborted
        invariant PropagatesErrors(callback) ==> !swallowed && done == WritesOf(callback[..i])
        invariant conn.log == old(conn.log) + calls && IsCallbackLog(callback[..i], calls, Ok, true)
      {
        var ok := true;
        ghost var more := [];
        WritesOfSnoc(callback, i);
        match callback[i] {
          case InTx(w, propagate) =>
            ghost var before := conn.log;
            ok := tx.Execute(w);
            more := conn.log[|before|..];
            if ok {
              done := done + [w];
            } else if !propagate {
              swallowed := true;
            }
          case OnClient(w, _) =>
            ok := Execute(w);
          case Nested(inner, _) =>
            assert callback[i].inner == inner;
            var ignored, unused, inert;
            ghost var none;
            ok, ignored, unused, inert, none := Transaction(inner, false);
          case Throw =>
            ok := false;
        }
        CallbackGrows(callback, i, calls, more, Ok, ok);
        LogGrows(old(conn.log), calls, more);
        calls := calls + more;
        if !ok && PassesOn(callback[i]) {
          return false, done, swallowed, calls;
        }
      }
      assert callback[..|callback|] == callback;
      completed := true;
    }

    /** One `close()` of a valid client leaves its connection released exactly once, dead or alive. */
    method Close()
      requires Valid()
      modifies conn`releases
      ensures conn.releases == 1
    {
      if !dead {
        conn.Release();
      }
    }
  }
}
