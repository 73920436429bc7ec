/**
 * The data-source choice of dbconn.go: `DATABASE_URL` verbatim when it is
 * set, otherwise a local connection string built by `createLocalDBUrl`.
 * The environment lookup is an input; `sql.Open` is not modelled.
 */
module DbConn {
  import opened Wrappers

  /** `LocalDBConnection`: the parameters of a local database. */
  datatype LocalDBConnection = LocalDBConnection(user: string, dbName: string)

  /** The driver name and data source `CreateDBConnection` passes to `sql.Open`. */
  datatype OpenArgs = OpenArgs(driverName: string, dataSourceName: string)

  const DRIVER := "postgres"

  const USER_PREFIX := "user="
  const DBNAME_KEY := " dbname="
  const SSLMODE_SUFFIX := " sslmode=disable"

  /** `createLocalDBUrl`: "user=%s dbname=%s sslmode=disable" with both fields inserted verbatim. */
  function CreateLocalDBUrl(conn: LocalDBConnection): string {
    USER_PREFIX + conn.user + DBNAME_KEY + conn.dbName + SSLMODE_SUFFIX
  }

  /**
   * `CreateDBConnection` up to `sql.Open`: `databaseUrl` is the result of
   * `os.LookupEnv("DATABASE_URL")`, None when the variable is unset.
   */
  function CreateDBConnection(databaseUrl: Option<string>, conn: LocalDBConnection): OpenArgs {
    var dataSource := if databaseUrl.Some? then databaseUrl.value else CreateLocalDBUrl(conn);
    OpenArgs(DRIVER, dataSource)
  }

  /**
   * The local URL is laid out field by field: "user=", the user, " dbname=",
   * the database name, " sslmode=disable".
   */
  lemma LocalUrlLayout(conn: LocalDBConnection)
    ensures var url, u, d := CreateLocalDBUrl(conn), |conn.user|, |conn.dbName|;
      |url| == 29 + u + d &&
      url[..5] == "user=" &&
      url[5..5 + u] == conn.user &&
      url[5 + u..13 + u] == " dbname=" &&
      url[13 + u..13 + u + d] == conn.dbName &&
      url[13 + u + d..] == " sslmode=disable"
  {
  }

  /**
   * Distinct connections give distinct local URLs as long as neither user
   * name contains a space (the first space ends the user field); the
   * formatting inserts fields verbatim, so this is what recovers them.
   */
  lemma LocalUrlInjective(c1: LocalDBConnection, c2: LocalDBConnection)
    requires ' ' !in c1.user && ' ' !in c2.user
    requires CreateLocalDBUrl(c1) == CreateLocalDBUrl(c2)
    ensures c1 == c2
  {
    var url := CreateLocalDBUrl(c1);
    LocalUrlLayout(c1);
    LocalUrlLayout(c2);
    UserFieldEndsAtFirstSpace(c1, |c2.user|);
    UserFieldEndsAtFirstSpace(c2, |c1.user|);
    var u := |c1.user|;
    assert c1.user == url[5..5 + u] == c2.user;
    assert c1.dbName == url[13 + u..|url| - 16] == c2.dbName;
  }

  /**
   * The fields are inserted unquoted, so a user name holding a space can
   * carry a " dbname=" of its own: two different connections then give the
   * same local URL, and the no-space condition of `LocalUrlInjective` is
   * needed.
   */
  lemma LocalUrlCollision()
    ensures var c1, c2 := LocalDBConnection("a dbname=b", "c"), LocalDBConnection("a", "b dbname=c");
      c1 != c2 && CreateLocalDBUrl(c1) == CreateLocalDBUrl(c2)
  {
  }

  /** With no space in the user name, the first space after "user=" is the one that ends the field. */
  lemma UserFieldEndsAtFirstSpace(conn: LocalDBConnection, k: nat)
    requires ' ' !in conn.user
    requires 5 + k < |CreateLocalDBUrl(conn)| && CreateLocalDBUrl(conn)[5 + k] == ' '
    ensures |conn.user| <= k
  {
    LocalUrlLayout(conn);
  }

  /** A set `DATABASE_URL` is the data source, verbatim, whatever the local connection says. */
  lemma DatabaseUrlWins(url: string, conn: LocalDBConnection, other: LocalDBConnection)
    ensures CreateDBConnection(Some(url), conn).dataSourceName == url
    ensures CreateDBConnection(Some(url), conn) == CreateDBConnection(Some(url), other)
  {
  }

  /**
   * Presence alone decides: a set-but-empty `DATABASE_URL` is used as the
   * empty data source and does not fall back to the local URL.
   */
  lemma EmptyDatabaseUrlIsUsed(conn: LocalDBConnection)
    ensures CreateDBConnection(Some(""), conn).dataSourceName == ""
    ensures CreateDBConnection(Some(""), conn) != CreateDBConnection(None, conn)
  {
    LocalUrlLayout(conn);
  }

  /**
   * Without `DATABASE_URL` the data source is the local URL, which begins
   * with "user=" and ends with " sslmode=disable"; the driver is always
   * "postgres".
   */
  lemma LocalFallback(databaseUrl: Option<string>, conn: LocalDBConnection)
    ensures CreateDBConnection(databaseUrl, conn).driverName == "postgres"
    ensures databaseUrl.None? ==>
      var ds := CreateDBConnection(databaseUrl, conn).dataSourceName;
      ds == CreateLocalDBUrl(conn) && |ds| >= 21 && ds[..5] == "user=" && ds[|ds| - 16..] == " sslmode=disable"
  {
    LocalUrlLayout(conn);
  }
}
