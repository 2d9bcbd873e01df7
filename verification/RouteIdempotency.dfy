/** Claim-first idempotency keys: the statements of `claimRouteIdempotencyKey`,
  * `fulfillRouteIdempotencyKey` and `releaseRouteIdempotencyKey` on the rows of one scope.
  *
  * Rows are indexed by their primary key, so that the UNIQUE constraint on the key is something the
  * statements have to maintain. */
module RouteIdempotency {
  import opened Prelude

  type ClaimId = nat
  type Key = string

  datatype Claim<R> = Claim(key: Key, result: Option<R>, expiresAt: int)
  type Claims<R> = map<ClaimId, Claim<R>>

  datatype ClaimResult<R> = Owned(claimId: ClaimId) | Fulfilled(response: R) | InProgress

  ghost predicate Unique<R>(rows: Claims<R>) {
    forall a <- rows, b <- rows :: rows[a].key == rows[b].key ==> a == b
  }

  predicate Taken<R>(rows: Claims<R>, key: Key) {
    exists a <- rows :: rows[a].key == key
  }

  // ---------- statements ----------

  predicate Expired<R>(row: Claim<R>, key: Key, now: int) {
    row.key == key && row.expiresAt <= now
  }

  function WithoutExpired<R>(rows: Claims<R>, key: Key, now: int): Claims<R> {
    map a | a in rows && !Expired(rows[a], key, now) :: rows[a]
  }

  function WithClaim<R>(rows: Claims<R>, claimId: ClaimId, key: Key, expiresAt: int): Claims<R> {
    if Taken(rows, key) then rows else rows[claimId := Claim(key, None, expiresAt)]
  }

  predicate Live<R>(rows: Claims<R>, a: ClaimId, key: Key, now: int) {
    a in rows && rows[a].key == key && rows[a].expiresAt > now
  }

  /** What the SELECT after a conflict returns: the stored result of the key's unexpired row. */
  ghost function LiveResult<R>(rows: Claims<R>, key: Key, now: int): Option<R> {
    if exists a :: Live(rows, a, key, now) then var a :| Live(rows, a, key, now); rows[a].result else None
  }

  function WithResult<R>(rows: Claims<R>, claimId: ClaimId, response: R): Claims<R> {
    if claimId in rows then rows[claimId := rows[claimId].(result := Some(response))] else rows
  }

  function Without<R>(rows: Claims<R>, claimId: ClaimId): Claims<R> {
    rows - {claimId}
  }

  lemma StatementsKeepUnique<R>(rows: Claims<R>, claimId: ClaimId, key: Key, now: int, response: R)
    requires Unique(rows)
    ensures Unique(WithoutExpired(rows, key, now))
    ensures claimId !in rows ==> Unique(WithClaim(rows, claimId, key, now))
    ensures Unique(WithResult(rows, claimId, response))
    ensures Unique(Without(rows, claimId))
  {
    assert forall a <- WithResult(rows, claimId, response) :: WithResult(rows, claimId, response)[a].key == rows[a].key;
  }

  /** With at most one row per key, what a claim reads back is the live row's stored result. */
  lemma LiveResultIsOwners<R>(rows: Claims<R>, key: Key, now: int, a: ClaimId)
    requires Unique(rows) && Live(rows, a, key, now)
    ensures LiveResult(rows, key, now) == rows[a].result
  {
    var b :| Live(rows, b, key, now) && LiveResult(rows, key, now) == rows[b].result;
  }

  // ---------- the three functions, run without interference ----------

  class IdempotencyKeys<R(==)> {
    var rows: Claims<R>

    ghost predicate Valid()
      reads this
    {
      Unique(rows)
    }

    constructor ()
      ensures Valid() && rows == map[]
    {
      rows := map[];
    }

    method ClaimKey(claimId: ClaimId, key: Key, now: int, ttlMs: int) returns (outcome: ClaimResult<R>)
      requires Valid() && claimId !in rows
      modifies this
      ensures Valid()
      ensures forall a :: a in old(rows) && !Expired(old(rows)[a], key, now) ==> a in rows && rows[a] == old(rows)[a]
      ensures forall a <- rows :: a in old(rows) || outcome == Owned(a)
      ensures outcome.Owned? <==> forall a <- old(rows) :: old(rows)[a].key == key ==> old(rows)[a].expiresAt <= now
      ensures outcome.Owned? ==> outcome.claimId == claimId && claimId in rows && rows[claimId] == Claim(key, None, now + ttlMs)
      ensures !outcome.Owned? ==>
                LiveResult(old(rows), key, now) == if outcome.Fulfilled? then Some(outcome.response) else None
    {
      rows := WithoutExpired(rows, key, now);
      var inserted := if Taken(rows, key) then 0 else 1;
      rows := WithClaim(rows, claimId, key, now + ttlMs);
      if inserted == 1 {
        return Owned(claimId);
      }
      var a :| a in rows && rows[a].key == key;
      LiveResultIsOwners(old(rows), key, now, a);
      return if rows[a].result.Some? then Fulfilled(rows[a].result.value) else InProgress;
    }

    method FulfillKey(claimId: ClaimId, response: R)
      requires Valid()
      modifies this
      ensures Valid() && rows.Keys == old(rows.Keys)
      ensures forall a <- rows :: rows[a] == if a == claimId then old(rows)[a].(result := Some(response)) else old(rows)[a]
    {
      StatementsKeepUnique(rows, claimId, "", 0, response);
      rows := WithResult(rows, claimId, response);
    }

    method ReleaseKey(claimId: ClaimId)
      requires Valid()
      modifies this
      ensures Valid() && rows == old(rows) - {claimId}
    {
      rows := Without(rows, claimId);
    }
  }
}
