/** The quota decision and the conversion log (backend/backend_user_access.go).
    The database is an in-memory value: the plan row of each user and the
    append-only conversion log; `now` is the database clock in seconds. */
module UserAccess {
  import opened Wrappers

  /** `INTERVAL '24 hours'`, in seconds. */
  const WindowSeconds := 24 * 60 * 60

  /** The `account_types` row joined to a user: `max_interactions`, `max_file_size_mb`. */
  datatype PlanRow = PlanRow(maxInteractions: int, maxFileSizeMB: int)

  /** A row of `conversions`, keyed by the user's auth id. */
  datatype ConversionRecord = ConversionRecord(
    authID: string, startingType: string, resultingType: string, fileSize: int, createdAt: int)

  datatype DbError =
      /** `sql.ErrNoRows`: no user has this auth id. */
    | NoRows
      /** The connection or the statement failed. */
    | ConnectionFailure(message: string)

  function ErrorText(e: DbError): string {
    match e
    case NoRows => "sql: no rows in result set"
    case ConnectionFailure(message) => message
  }

  /** `connected`: queries reach the database; `acceptsWrites`: an INSERT
      succeeds (false for a connection lost between the two statements, a
      full disk, a violated constraint). */
  datatype Db = Db(connected: bool, acceptsWrites: bool, plans: map<string, PlanRow>, log: seq<ConversionRecord>)

  /** The `(bool, int, error)` triple `canUserConvert` returns. */
  datatype Decision = Decision(allowed: bool, maxFileSizeMB: int, err: Option<DbError>)

  /** `created_at >= NOW() - INTERVAL '24 hours'`. */
  predicate InWindow(r: ConversionRecord, now: int) {
    r.createdAt >= now - WindowSeconds
  }

  predicate CountsFor(r: ConversionRecord, authID: string, now: int) {
    r.authID == authID && InWindow(r, now)
  }

  /** `COALESCE(c.count, 0)`: the user's conversions inside the window. */
  function RecentCount(log: seq<ConversionRecord>, authID: string, now: int): (n: nat)
    ensures n <= |log|
  {
    if |log| == 0 then 0
    else (if CountsFor(log[0], authID, now) then 1 else 0) + RecentCount(log[1..], authID, now)
  }

  /** `canUserConvert`. */
  function CanUserConvert(db: Db, authID: string, now: int): (d: Decision)
    ensures !db.connected ==> d.err.Some? && d.err.value.ConnectionFailure?
    ensures db.connected && authID !in db.plans ==> d.err == Some(NoRows)
    ensures d.err.Some? ==> !d.allowed && d.maxFileSizeMB == 0
    ensures d.err.None? <==> db.connected && authID in db.plans
    ensures d.err.None? ==> d.maxFileSizeMB == db.plans[authID].maxFileSizeMB
    ensures d.err.None? ==> (d.allowed <==> RecentCount(db.log, authID, now) < db.plans[authID].maxInteractions)
  {
    if !db.connected then Decision(false, 0, Some(ConnectionFailure("sql: database is closed")))
    else if authID !in db.plans then Decision(false, 0, Some(NoRows))
    else
      var plan := db.plans[authID];
      var recent := RecentCount(db.log, authID, now);
      if recent >= plan.maxInteractions then Decision(false, plan.maxFileSizeMB, None)
      else Decision(true, plan.maxFileSizeMB, None)
  }

  /** `insertConversion`: appends one record stamped with `now`. The user id
      comes from a sub-select on the auth id, so an unknown auth id fails. */
  function InsertConversion(db: Db, authID: string, startingType: string, resultingType: string,
                            fileSize: int, now: int): (r: Result<Db, DbError>)
    ensures r.Success? <==> db.connected && db.acceptsWrites && authID in db.plans
    ensures r.Success? ==>
              r.value.log == db.log + [ConversionRecord(authID, startingType, resultingType, fileSize, now)]
    ensures r.Success? ==> r.value.plans == db.plans && r.value.connected && r.value.acceptsWrites
  {
    if !db.connected then Failure(ConnectionFailure("sql: database is closed"))
    else if !db.acceptsWrites then Failure(ConnectionFailure("insert failed"))
    else if authID !in db.plans then Failure(NoRows)
    else Success(db.(log := db.log + [ConversionRecord(authID, startingType, resultingType, fileSize, now)]))
  }

  // ----- Properties -----

  /** The count over a concatenation is the sum of the counts. */
  lemma {:induction false} RecentCountAppend(a: seq<ConversionRecord>, b: seq<ConversionRecord>,
                                             authID: string, now: int)
    ensures RecentCount(a + b, authID, now) == RecentCount(a, authID, now) + RecentCount(b, authID, now)
  {
    if |a| > 0 {
      assert (a + b)[1..] == a[1..] + b;
      RecentCountAppend(a[1..], b, authID, now);
    } else {
      assert a + b == b;
    }
  }

  /** The count is positive exactly when the log holds one of the user's
      in-window conversions. */
  lemma {:induction false} RecentCountPositive(log: seq<ConversionRecord>, authID: string, now: int)
    ensures RecentCount(log, authID, now) > 0 <==> exists k :: 0 <= k < |log| && CountsFor(log[k], authID, now)
  {
    if |log| > 0 {
      var tail := log[1..];
      RecentCountPositive(tail, authID, now);
      if exists k :: 0 <= k < |tail| && CountsFor(tail[k], authID, now) {
        var k :| 0 <= k < |tail| && CountsFor(tail[k], authID, now);
        assert log[k + 1] == tail[k];
      }
      if exists k :: 0 <= k < |log| && CountsFor(log[k], authID, now) {
        var k :| 0 <= k < |log| && CountsFor(log[k], authID, now);
        if k > 0 {
          assert tail[k - 1] == log[k];
        }
      }
    }
  }

  /** A user with no conversions in the window may convert exactly when their
      plan allows at least one interaction. */
  lemma NoRecentConversions(db: Db, authID: string, now: int)
    requires db.connected && authID in db.plans
    requires forall k :: 0 <= k < |db.log| ==> !CountsFor(db.log[k], authID, now)
    ensures CanUserConvert(db, authID, now).allowed <==> db.plans[authID].maxInteractions > 0
  {
    RecentCountPositive(db.log, authID, now);
  }

  /** At the limit the answer is no, and the size limit is still reported. */
  lemma AtLimitNotAllowed(db: Db, authID: string, now: int)
    requires db.connected && authID in db.plans
    requires RecentCount(db.log, authID, now) == db.plans[authID].maxInteractions
    ensures !CanUserConvert(db, authID, now).allowed
    ensures CanUserConvert(db, authID, now).maxFileSizeMB == db.plans[authID].maxFileSizeMB
  {
  }

  /** More conversions in the log never turn a refusal into a permission. */
  lemma MoreConversionsNeverAllow(db: Db, extra: seq<ConversionRecord>, authID: string, now: int)
    requires db.connected && authID in db.plans
    requires !CanUserConvert(db, authID, now).allowed
    ensures !CanUserConvert(db.(log := db.log + extra), authID, now).allowed
  {
    RecentCountAppend(db.log, extra, authID, now);
  }

  /** A successful insert adds exactly one to the user's count in the same
      window and leaves every other user's count unchanged. */
  lemma InsertCountsOnce(db: Db, authID: string, startingType: string, resultingType: string,
                         fileSize: int, now: int, other: string)
    requires InsertConversion(db, authID, startingType, resultingType, fileSize, now).Success?
    ensures var db' := InsertConversion(db, authID, startingType, resultingType, fileSize, now).value;
            && RecentCount(db'.log, authID, now) == RecentCount(db.log, authID, now) + 1
            && (other != authID ==> RecentCount(db'.log, other, now) == RecentCount(db.log, other, now))
  {
    var rec := ConversionRecord(authID, startingType, resultingType, fileSize, now);
    RecentCountAppend(db.log, [rec], authID, now);
    RecentCountAppend(db.log, [rec], other, now);
    assert [rec][1..] == [];
  }
}
