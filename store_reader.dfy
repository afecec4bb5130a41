/**
 The unread-count query. The SQLite database is an external store: the model
 sees only whether its file exists and what the aggregate query would answer
 if it were run now (a row count, or one of the two kinds of exception the
 scripts catch).
 */
module StoreReader {

  const MaxCountDisplay: nat := 99

  /** Why the query failed: a `sqlite3.Error` (locked, timeout, corrupt, ...) or any other exception. */
  datatype QueryError = SqliteError | OtherException

  /** What running the unread-message query against the store gives. */
  datatype QueryResult = Rows(count: nat) | Raised(error: QueryError)

  /** The store as the reader would find it at one moment. */
  datatype Store = Store(dbExists: bool, query: QueryResult)

  /** The displayed unread count: 0 when the file is missing or the query
      raises, otherwise the row count capped at MaxCountDisplay. */
  function GetUnreadCount(store: Store): (c: nat)
    ensures c <= MaxCountDisplay
    ensures !store.dbExists ==> c == 0
    ensures store.query.Raised? ==> c == 0
    ensures store.dbExists && store.query.Rows? ==>
              c <= store.query.count && (c == store.query.count || c == MaxCountDisplay)
  {
    if !store.dbExists then
      0
    else
      match store.query
      case Rows(n) => if n < MaxCountDisplay then n else MaxCountDisplay
      case Raised(_) => 0
  }

  /** A missing database is never queried: what the query would answer does not matter. */
  lemma MissingDbIgnoresQuery(q1: QueryResult, q2: QueryResult)
    ensures GetUnreadCount(Store(false, q1)) == GetUnreadCount(Store(false, q2)) == 0
  {
  }

  /** A successful query is shown exactly while it fits the display, and as the cap beyond it. */
  lemma ClampExact(n: nat)
    ensures n <= MaxCountDisplay ==> GetUnreadCount(Store(true, Rows(n))) == n
    ensures n >= MaxCountDisplay ==> GetUnreadCount(Store(true, Rows(n))) == MaxCountDisplay
  {
  }

  /** More matching rows never show a smaller count. */
  lemma ClampMonotone(m: nat, n: nat)
    requires m <= n
    ensures GetUnreadCount(Store(true, Rows(m))) <= GetUnreadCount(Store(true, Rows(n)))
  {
  }
}
