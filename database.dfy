/**
 * The account store: a map from username to a value snapshot of the
 * account, plus the deterministic order in which usernames were first saved
 * (the order in which a scan of all accounts visits them).  Reads hand out
 * values, so whatever a caller does to what it read reaches the store only
 * through a later save.
 */
module Database {
  import opened Ledger

  datatype Option<T> = None | Some(value: T)

  /** The store's contents as a value. */
  datatype Db = Db(records: map<string, AccountRec>, order: seq<string>)

  /** Every stored name is listed once, and each record sits under its own name. */
  ghost predicate WellFormed(db: Db) {
    && (forall u :: u in db.records <==> u in db.order)
    && (forall i, j :: 0 <= i < j < |db.order| ==> db.order[i] != db.order[j])
    && (forall u :: u in db.records ==> db.records[u].username == u)
  }

  /** The store as it is after `clear`, and at the start. */
  const Empty: Db := Db(map[], [])

  lemma EmptyIsEmpty(u: string)
    ensures WellFormed(Empty)
    ensures Get(Empty, u) == None && AllRecords(Empty) == []
  {
  }

  /** `getAccount`: the stored snapshot, or nothing. */
  function Get(db: Db, u: string): (r: Option<AccountRec>)
    ensures r.Some? <==> u in db.records
    ensures r.Some? ==> r.value == db.records[u]
    ensures WellFormed(db) && r.Some? ==> r.value.username == u
  {
    if u in db.records then Some(db.records[u]) else None
  }

  /**
   * `saveAccount`: the record replaces whatever was stored under its
   * username; a new username goes to the end of the scan order.
   */
  function Save(db: Db, a: AccountRec): (r: Db)
    ensures Get(r, a.username) == Some(a)
    ensures forall u :: u != a.username ==> Get(r, u) == Get(db, u)
    ensures a.username in db.records ==> r.order == db.order
    ensures a.username !in db.records ==> r.order == db.order + [a.username]
    ensures WellFormed(db) ==> WellFormed(r)
  {
    Db(db.records[a.username := a],
       if a.username in db.records then db.order else db.order + [a.username])
  }

  /** Saving an existing username overwrites: the number of records stays. */
  lemma SaveOverwrites(db: Db, a: AccountRec)
    requires WellFormed(db) && a.username in db.records
    ensures |Save(db, a).order| == |db.order|
    ensures |Save(db, a).records| == |db.records|
  {
    assert Save(db, a).records.Keys == db.records.Keys;
  }

  /** Saving a new username adds exactly one record. */
  lemma SaveAdds(db: Db, a: AccountRec)
    requires WellFormed(db) && a.username !in db.records
    ensures |Save(db, a).order| == |db.order| + 1
    ensures |Save(db, a).records| == |db.records| + 1
  {
    assert Save(db, a).records.Keys == db.records.Keys + {a.username};
  }

  /** `getAllAccounts`: one snapshot per stored username, in scan order. */
  function AllRecords(db: Db): (r: seq<AccountRec>)
    requires WellFormed(db)
    ensures |r| == |db.order|
    ensures forall i :: 0 <= i < |r| ==> r[i] == db.records[db.order[i]]
    ensures forall i :: 0 <= i < |r| ==> r[i].username == db.order[i]
  {
    seq(|db.order|, i requires 0 <= i < |db.order| => db.records[db.order[i]])
  }

  /** Every stored username is visited by the scan exactly once. */
  lemma AllRecordsOncePerUser(db: Db, u: string)
    requires WellFormed(db) && u in db.records
    ensures exists i :: 0 <= i < |AllRecords(db)| && AllRecords(db)[i] == db.records[u]
    ensures forall i, j ::
              (0 <= i < |AllRecords(db)| && 0 <= j < |AllRecords(db)| &&
               AllRecords(db)[i].username == u && AllRecords(db)[j].username == u) ==> i == j
  {
    var i :| 0 <= i < |db.order| && db.order[i] == u;
    assert AllRecords(db)[i] == db.records[u];
  }

  /** Every account in the store satisfies `Solvent`. */
  ghost predicate AllSolvent(db: Db) {
    forall u :: u in db.records ==> Solvent(db.records[u])
  }

  lemma SaveSolvent(db: Db, a: AccountRec)
    requires AllSolvent(db) && Solvent(a)
    ensures AllSolvent(Save(db, a))
  {
  }

  /** The store itself: the map and the key order, changed only by saves and clear. */
  class Store {
    var records: map<string, AccountRec>
    var order: seq<string>

    function State(): Db
      reads this
    {
      Db(records, order)
    }

    ghost predicate Valid()
      reads this
    {
      WellFormed(State())
    }

    constructor ()
      ensures State() == Empty && Valid()
    {
      records, order := map[], [];
    }

    /** `getAccount`: a copy of the stored record, or nothing. */
    function GetAccount(u: string): (r: Option<AccountRec>)
      reads this
      ensures r.Some? <==> u in records
      ensures r.Some? ==> r.value == records[u]
    {
      Get(State(), u)
    }

    /** `getAllAccounts`: copies of all stored records, in key order. */
    function GetAllAccounts(): (r: seq<AccountRec>)
      reads this
      requires Valid()
      ensures |r| == |order|
      ensures forall i :: 0 <= i < |r| ==> r[i] == records[order[i]]
    {
      AllRecords(State())
    }

    method SaveAccount(a: AccountRec)
      requires Valid()
      modifies this
      ensures Valid()
      ensures State() == Save(old(State()), a)
    {
      if a.username !in records {
        order := order + [a.username];
      }
      records := records[a.username := a];
    }

    method Clear()
      modifies this
      ensures Valid() && State() == Empty
    {
      records, order := map[], [];
    }
  }
}
