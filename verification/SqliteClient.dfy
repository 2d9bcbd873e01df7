/** `SqliteDbClient` and its transaction clients over a driver that may fail at any call.
  *
  * What a transaction callback does is a list of actions: statements on the transaction client,
  * statements on the outer client, nested transactions, and throwing. An action whose call fails either
  * passes the error on or swallows it. */
module SqliteClient {
  type Write = string

  datatype Action =
    | InTx(w: Write, propagate: bool)
    | OnClient(w: Write, propagate: bool)
    | Nested(inner: seq<Action>, propagate: bool)
    | Throw

  /** The writes a callback asks its transaction client for. */
  function WritesOf(callback: seq<Action>): seq<Write> {
    if callback == [] then []
    else (if callback[0].InTx? then [callback[0].w] else []) + WritesOf(callback[1..])
  }

  predicate PropagatesErrors(callback: seq<Action>) {
    forall a <- callback :: (a.InTx? || a.OnClient? || a.Nested?) ==> a.propagate
  }

  lemma WritesOfSnoc(callback: seq<Action>, n: nat)
    requires n < |callback|
    ensures WritesOf(callback[..n + 1]) == WritesOf(callback[..n]) + WritesOf([callback[n]])
  {
    if n > 0 {
      WritesOfSnoc(callback[1..], n - 1);
      assert callback[..n + 1][1..] == callback[1..][..n];
      assert callback[..n][1..] == callback[1..][..n - 1];
    } else {
      assert callback[..1] == [callback[0]];
    }
  }

  // ---------- what a client asks of its driver ----------

  /** A call of the driver, and its reply. */
  datatype DriverCall<R> =
    | BeginCall(reply: R)
    | SetCall(reply: R)
    | RunCall(w: Write, reply: R)
    | CommitCall(reply: R)
    | RollbackCall(reply: R)

  /** The driver calls of a callback: its statements on the transaction client, in order, up to the first
    * error it passes on. It completes exactly if nothing is thrown; statements on the outer client and nested
    * transactions always fail, and never reach the driver. */
  predicate IsCallbackLog<R(==)>(callback: seq<Action>, calls: seq<DriverCall<R>>, ok: R, completed: bool)
    decreases |callback|
  {
    if callback == [] then calls == [] && completed
    else match callback[0]
         case InTx(w, propagate) =>
           && calls != [] && calls[0].RunCall? && calls[0].w == w
           && if calls[0].reply != ok && propagate then |calls| == 1 && !completed
              else IsCallbackLog(callback[1..], calls[1..], ok, completed)
         case OnClient(_, propagate) =>
           if propagate then calls == [] && !completed else IsCallbackLog(callback[1..], calls, ok, completed)
         case Nested(_, propagate) =>
           if propagate then calls == [] && !completed else IsCallbackLog(callback[1..], calls, ok, completed)
         case Throw => calls == [] && !completed
  }

  lemma {:induction false} CallbackConcat<R>(callback: seq<Action>, n: nat, done: seq<DriverCall<R>>, rest: seq<DriverCall<R>>, ok: R, completed: bool)
    requires n <= |callback| && IsCallbackLog(callback[..n], done, ok, true) && IsCallbackLog(callback[n..], rest, ok, completed)
    ensures IsCallbackLog(callback, done + rest, ok, completed)
    decreases n
  {
    if n == 0 {
      assert done + rest == rest && callback[0..] == callback;
    } else {
      assert callback[..n][1..] == callback[1..][..n - 1] && callback[1..][n - 1..] == callback[n..];
      if callback[0].InTx? {
        CallbackConcat(callback[1..], n - 1, done[1..], rest, ok, completed);
        assert (done + rest)[1..] == done[1..] + rest;
      } else {
        CallbackConcat(callback[1..], n - 1, done, rest, ok, completed);
      }
    }
  }

  predicate PassesOn(a: Action) {
    a.Throw? || a.propagate
  }

  /** One more action: it asks for `more`, and it fails unless a statement on the transaction client succeeds. */
  lemma CallbackGrows<R>(callback: seq<Action>, i: nat, done: seq<DriverCall<R>>, more: seq<DriverCall<R>>, ok: R, succeeded: bool)
    requires i < |callback| && IsCallbackLog(callback[..i], done, ok, true)
    requires if callback[i].InTx? then |more| == 1 && more[0].RunCall? && more[0].w == callback[i].w && (succeeded <==> more[0].reply == ok)
             else more == [] && !succeeded
    ensures !succeeded && PassesOn(callback[i]) ==> IsCallbackLog(callback, done + more, ok, false)
    ensures succeeded || !PassesOn(callback[i]) ==> IsCallbackLog(callback[..i + 1], done + more, ok, true)
  {
    if !succeeded && PassesOn(callback[i]) {
      assert callback[i..][0] == callback[i];
      CallbackConcat(callback, i, done, more, ok, false);
    } else {
      var now := callback[..i + 1];
      assert now[..i] == callback[..i] && now[i..] == [callback[i]];
      assert now[i..][1..] == [] && (more != [] ==> more[1..] == []);
      CallbackConcat(now, i, done, more, ok, true);
    }
  }

  lemma LogGrows<R>(log: seq<DriverCall<R>>, a: seq<DriverCall<R>>, b: seq<DriverCall<R>>)
    ensures log + a + b == log + (a + b)
  {
  }

  /** The connection as SQLite keeps it. Some errors make SQLite roll back the open transaction by
    * itself; without an open transaction a statement commits on its own. */
  class Connection {
    var committed: seq<Write>
    var pending: seq<Write>
    var open: bool
    ghost var log: seq<DriverCall<bool>>

    constructor ()
      ensures committed == [] && pending == [] && !open
    {
      committed, pending, open, log := [], [], false, [];
    }

    method Begin() returns (ok: bool)
      modifies this
      ensures old(open) ==> !ok
      ensures committed == old(committed)
      ensures if ok then open && pending == [] else open == old(open) && pending == old(pending)
      ensures log == old(log) + [BeginCall(ok)]
    {
      ok := *;
      ok := ok && !open;
      if ok {
        open, pending := true, [];
      }
      log := log + [BeginCall(ok)];
    }

    method Run(w: Write) returns (ok: bool)
      modifies this
      ensures old(open) ==> committed == old(committed)
      ensures old(open) && ok ==> open && pending == old(pending) + [w]
      ensures old(open) && !ok ==> pending == if open then old(pending) else []
      ensures !old(open) ==> !open && pending == old(pending) && committed == if ok then old(committed) + [w] else old(committed)
      ensures log == old(log) + [RunCall(w, ok)]
    {
      ok := *;
      if ok {
        if open {
          pending := pending + [w];
        } else {
          committed := committed + [w];
        }
      } else {
        RollsBackByItself();
      }
      log := log + [RunCall(w, ok)];
    }

    method RollsBackByItself()
      modifies this`open, this`pending
      ensures open ==> old(open) && pending == old(pending)
      ensures !open ==> pending == if old(open) then [] else old(pending)
    {
      var does: bool := *;
      if does && open {
        open, pending := false, [];
      }
    }

    method Commit() returns (ok: bool)
      modifies this
      ensures !old(open) ==> !ok && !open
      ensures ok ==> committed == old(committed) + old(pending) && !open && pending == []
      ensures !ok ==> committed == old(committed)
      ensures !ok && open ==> pending == old(pending)
      ensures log == old(log) + [CommitCall(ok)]
    {
      ok := *;
      ok := ok && open;
      if ok {
        committed, pending, open := committed + pending, [], false;
      } else {
        RollsBackByItself();
      }
      log := log + [CommitCall(ok)];
    }

    method Rollback() returns (ok: bool)
      modifies this
      ensures committed == old(committed)
      ensures ok ==> old(open) && !open && pending == []
      ensures log == old(log) + [RollbackCall(ok)]
    {
      ok := *;
      ok := ok && open;
      if ok {
        pending, open := [], false;
      }
      log := log + [RollbackCall(ok)];
    }
  }

  /** The driver calls of `transaction(fn)` on a live idle client, and what becomes of it: it returns exactly if
    * BEGIN, the callback and COMMIT get no error, and dies exactly if a ROLLBACK fails. */
  ghost predicate IsTransactionLog(callback: seq<Action>, calls: seq<DriverCall<bool>>, returned: bool, dead: bool) {
    || (calls == [BeginCall(false)] && !returned && !dead)
    || exists body, end, completed :: IsCallbackLog(callback, body, true, completed)
         && IsEnd(end, completed, returned, dead) && calls == [BeginCall(true)] + body + end
  }

  predicate IsEnd(end: seq<DriverCall<bool>>, completed: bool, returned: bool, dead: bool) {
    if completed then
      || (end == [CommitCall(true)] && returned && !dead)
      || (|end| == 2 && end[0] == CommitCall(false) && end[1] == RollbackCall(!dead) && !returned)
    else end == [RollbackCall(!dead)] && !returned
  }

  /** The last call decides: a COMMIT without an error returns, a ROLLBACK with one is the end of the client. */
  lemma LastCallDecides(callback: seq<Action>, calls: seq<DriverCall<bool>>, returned: bool, dead: bool)
    requires IsTransactionLog(callback, calls, returned, dead)
    ensures calls != []
    ensures returned <==> calls[|calls| - 1] == CommitCall(true)
    ensures dead <==> calls[|calls| - 1] == RollbackCall(false)
  {
    if calls != [BeginCall(false)] {
      var body, end, completed :| IsCallbackLog(callback, body, true, completed)
        && IsEnd(end, completed, returned, dead) && calls == [BeginCall(true)] + body + end;
      assert calls[|calls| - 1] == end[|end| - 1];
    }
  }

  class TxClient {
    const conn: Connection
    var invalidated: bool

    constructor (conn: Connection)
      ensures this.conn == conn && !invalidated
    {
      this.conn := conn;
      this.invalidated := false;
    }

    method Invalidate()
      modifies this
      ensures invalidated
    {
      invalidated := true;
    }

    /** An expired transaction client has no effect on the connection. */
    method Execute(w: Write) returns (ok: bool)
      modifies conn
      ensures invalidated ==> !ok && unchanged(conn)
      ensures !invalidated && old(conn.open) ==>
                conn.committed == old(conn.committed)
                && (ok ==> conn.open && conn.pending == old(conn.pending) + [w])
                && (!ok && conn.open ==> conn.pending == old(conn.pending))
      ensures !invalidated && !old(conn.open) ==> !conn.open
      ensures !invalidated ==> conn.log == old(conn.log) + [RunCall(w, ok)]
    {
      if invalidated {
        return false;
      }
      ok := conn.Run(w);
    }
  }

  class DbClient {
    const conn: Connection
    var inTransaction: bool
    var dead: bool

    /** Between calls: a live client that is not in a transaction has no transaction open. */
    ghost predicate Valid()
      reads this, conn
    {
      !dead && !inTransaction ==> !conn.open
    }

    constructor (conn: Connection)
      requires !conn.open
      ensures Valid() && this.conn == conn && !dead && !inTransaction
    {
      this.conn := conn;
      inTransaction, dead := false, false;
    }

    method Execute(w: Write) returns (ok: bool)
      requires Valid()
      modifies conn
      ensures Valid()
      ensures dead || inTransaction ==> !ok && unchanged(conn)
      ensures !dead && !inTransaction ==>
                && conn.log == old(conn.log) + [RunCall(w, ok)]
                && conn.committed == if ok then old(conn.committed) + [w] else old(conn.committed)
    {
      if dead || inTransaction {
        return false;
      }
      ok := conn.Run(w);
    }

    /** `transaction(fn)`. `done` are the callback's statements that succeeded, in order, and `calls` what the
      * driver is asked. */
    method Transaction(callback: seq<Action>) returns (returned: bool, done: seq<Write>, tx: TxClient, ghost calls: seq<DriverCall<bool>>)
      requires Valid()
      modifies this, conn
      ensures Valid() && fresh(tx) && tx.invalidated
      ensures old(dead) || old(inTransaction) ==> !returned && unchanged(this) && unchanged(conn)
      ensures !old(dead) && !old(inTransaction) ==>
                !inTransaction && conn.log == old(conn.log) + calls && IsTransactionLog(callback, calls, returned, dead)
      ensures returned ==> !dead && conn.committed == old(conn.committed) + done
      ensures returned && PropagatesErrors(callback) ==> done == WritesOf(callback)
      ensures !returned && !dead ==> conn.committed == old(conn.committed)
      decreases callback, 1
    {
      tx := new TxClient(conn);
      done, calls := [], [];
      if dead || inTransaction {
        tx.Invalidate();
        return false, done, tx, calls;
      }
      var rollbackRequired := false;
      returned := conn.Begin();
      calls := [BeginCall(returned)];
      if returned {
        rollbackRequired := true;
        inTransaction := true;
        ghost var body;
        ghost var end := [];
        returned, done, body := RunCallback(callback, tx);
        ghost var completed := returned;
        if returned {
          returned := conn.Commit();
          end := [CommitCall(returned)];
          rollbackRequired := !returned;
        }
        if rollbackRequired {
          var rolledBack := conn.Rollback();
          end := end + [RollbackCall(rolledBack)];
          dead := !rolledBack;
        }
        assert IsEnd(end, completed, returned, dead);
        calls := calls + body + end;
      }
      inTransaction := false;
      tx.Invalidate();
    }

    /** The callback, run with the transaction open. `completed` is false when it throws. */
    method RunCallback(callback: seq<Action>, tx: TxClient) returns (completed: bool, done: seq<Write>, ghost calls: seq<DriverCall<bool>>)
      requires inTransaction && !dead && conn.open && conn.pending == [] && tx.conn == conn && !tx.invalidated
      modifies this, conn
      ensures inTransaction && !dead && !tx.invalidated
      ensures conn.open ==> conn.pending == done && conn.committed == old(conn.committed)
      ensures completed && PropagatesErrors(callback) ==> done == WritesOf(callback)
      ensures conn.open || !completed || !PropagatesErrors(callback)
      ensures conn.log == old(conn.log) + calls && IsCallbackLog(callback, calls, true, completed)
      decreases callback, 0
    {
      done, calls := [], [];
      for i := 0 to |callback|
        invariant inTransaction && !dead && !tx.invalidated
        invariant conn.open ==> conn.pending == done && conn.committed == old(conn.committed)
        invariant PropagatesErrors(callback) ==> conn.open && done == WritesOf(callback[..i])
        invariant conn.log == old(conn.log) + calls && IsCallbackLog(callback[..i], calls, true, true)
      {
        var ok := true;
        ghost var more := [];
        WritesOfSnoc(callback, i);
        match callback[i] {
          case InTx(w, _) =>
            ok := tx.Execute(w);
            more := [RunCall(w, ok)];
            if ok {
              done := done + [w];
            }
          case OnClient(w, _) =>
            ok := Execute(w);
          case Nested(inner, _) =>
            assert callback[i].inner == inner;
            var ignored, inert;
            ghost var none;
            ok, ignored, inert, none := Transaction(inner);
          case Throw =>
            ok := false;
        }
        CallbackGrows(callback, i, calls, more, true, ok);
        LogGrows(old(conn.log), calls, more);
        calls := calls + more;
        if !ok && PassesOn(callback[i]) {
          return false, done, calls;
        }
      }
      assert callback[..|callback|] == callback;
      completed := true;
    }
  }
}
