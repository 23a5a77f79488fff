/** The refresh-token table of `TokenServices`: `persistRefreshToken` inserts
    a record owned by a user that expires one (non-leap) year later, and
    `deleteRefreshToken` removes a record by id. */
module RefreshTokens {
  import Users

  /** `1000 * 60 * 60 * 24 * 365`: the record lifetime in milliseconds. */
  const MS_IN_YEAR := 1000 * 60 * 60 * 24 * 365

  /** A row of the refresh-token table; `userId` is the owning user and the
      times are milliseconds since the epoch. */
  datatype RefreshTokenRecord = RefreshTokenRecord(
    id: nat,
    userId: nat,
    expiresAt: nat,
    createdAt: nat,
    updatedAt: nat)

  /** Each record is stored under its own id. */
  predicate WellKeyed(records: map<nat, RefreshTokenRecord>) {
    forall k :: k in records ==> records[k].id == k
  }

  /** The table after `deleteRefreshToken(id)`. */
  function Deleted(records: map<nat, RefreshTokenRecord>, id: nat): (r: map<nat, RefreshTokenRecord>)
    ensures id !in r
    ensures forall k :: k in r <==> k in records && k != id
    ensures forall k :: k in r ==> r[k] == records[k]
  {
    records - {id}
  }

  /** Deleting an absent id changes nothing, so deleting twice is deleting once. */
  lemma DeleteIdempotent(records: map<nat, RefreshTokenRecord>, id: nat)
    ensures id !in records ==> Deleted(records, id) == records
    ensures Deleted(Deleted(records, id), id) == Deleted(records, id)
  {
  }

  class RefreshTokenStore {
    var records: map<nat, RefreshTokenRecord>
    var nextId: nat

    /** Records are stored under their ids, and every id is below the next
        id the table generates. */
    ghost predicate Valid()
      reads this
    {
      && nextId >= 1
      && WellKeyed(records)
      && forall k :: k in records ==> 1 <= k < nextId
    }

    constructor ()
      ensures Valid() && records == map[] && nextId == 1
    {
      records := map[];
      nextId := 1;
    }

    /** `persistRefreshToken(user)` at clock time `now`: one new record under
        a fresh id, owned by `user`, expiring `MS_IN_YEAR` after `now`; every
        record stored before is kept as it was. */
    method PersistRefreshToken(user: Users.User, now: nat) returns (r: RefreshTokenRecord)
      requires Valid()
      modifies this
      ensures Valid()
      ensures r.id == old(nextId) && r.id !in old(records)
      ensures r.userId == user.id && r.expiresAt == now + MS_IN_YEAR
      ensures r.createdAt == now && r.updatedAt == now
      ensures records == old(records)[r.id := r] && nextId == old(nextId) + 1
      ensures forall k :: k in old(records) ==> k in records && records[k] == old(records)[k]
    {
      r := RefreshTokenRecord(nextId, user.id, now + MS_IN_YEAR, now, now);
      records := records[nextId := r];
      nextId := nextId + 1;
    }

    /** `deleteRefreshToken(id)`: removes the record with that id, if any,
        and reports how many rows were affected; an absent id is not an error. */
    method DeleteRefreshToken(id: nat) returns (affected: nat)
      requires Valid()
      modifies this
      ensures Valid()
      ensures records == Deleted(old(records), id) && nextId == old(nextId)
      ensures affected == if id in old(records) then 1 else 0
      ensures id !in old(records) ==> records == old(records)
    {
      affected := if id in records then 1 else 0;
      records := Deleted(records, id);
    }
  }
}
