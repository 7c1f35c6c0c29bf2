/** `dbconnection`: the MongoDB connection string assembled from the five
    `mongo.*` configuration values, which are passed in here as strings. */
module DbConnection {

  import opened Wrappers
  import opened Text

  datatype MongoConfig = MongoConfig(
    username: string,
    password: string,
    server: string,
    port: string,
    database: string)

  const SCHEME: string := "mongodb://"

  /** `username ? username + ':' + password + '@' : ''`: a string is truthy
      exactly when it is non-empty. The credentials are present exactly when
      there is a username; they start with it and end with the '@' that
      separates them from the host. */
  function Auth(c: MongoConfig): (auth: string)
    ensures auth == "" <==> c.username == ""
    ensures auth != "" ==> |auth| > |c.username| && auth[..|c.username|] == c.username
    ensures auth != "" ==> auth[|auth| - 1] == '@'
  {
    if c.username != "" then c.username + ":" + c.password + "@" else ""
  }

  function ConnectionString(c: MongoConfig): (s: string)
    ensures |s| >= |SCHEME| && s[..|SCHEME|] == SCHEME
  {
    SCHEME + Auth(c) + c.server + ":" + c.port + "/" + c.database
  }

  /** Reads a connection string back: credentials before the first '@'
      (user up to the first ':'), then the server up to the next ':', the
      port up to the next '/', and the database name. */
  function Parse(s: string): Option<MongoConfig>
  {
    if |s| < |SCHEME| || s[..|SCHEME|] != SCHEME then None
    else
      var rest := s[|SCHEME|..];
      match SplitFirst(rest, '@')
      case None => ParseHost("", "", rest)
      case Some((auth, host)) =>
        match SplitFirst(auth, ':')
        case None => None
        case Some((user, password)) => ParseHost(user, password, host)
  }

  function ParseHost(user: string, password: string, host: string): Option<MongoConfig>
  {
    match SplitFirst(host, ':')
    case None => None
    case Some((server, portDb)) =>
      match SplitFirst(portDb, '/')
      case None => None
      case Some((port, database)) => Some(MongoConfig(user, password, server, port, database))
  }

  /** Values whose separators cannot be confused with the string's own. */
  predicate Unambiguous(c: MongoConfig)
  {
    && ':' !in c.username && '@' !in c.username && '@' !in c.password
    && ':' !in c.server && '@' !in c.server
    && '/' !in c.port && '@' !in c.port
    && '@' !in c.database
  }

  /** Without a username the password plays no part. */
  function Normalized(c: MongoConfig): MongoConfig
  {
    if c.username == "" then c.(password := "") else c
  }

  /** The connection string determines the configuration it was built
      from, up to the password that an empty username discards. */
  lemma ParseConnectionString(c: MongoConfig)
    requires Unambiguous(c)
    ensures Parse(ConnectionString(c)) == Some(Normalized(c))
  {
    var s := ConnectionString(c);
    var host := c.server + ":" + c.port + "/" + c.database;
    assert s[|SCHEME|..] == Auth(c) + host;
    assert host == c.server + [':'] + (c.port + "/" + c.database);
    SplitFirstAt(c.server, c.port + "/" + c.database, ':');
    SplitFirstAt(c.port, c.database, '/');
    assert ParseHost(Normalized(c).username, Normalized(c).password, host) == Some(Normalized(c));
    if c.username == "" {
      assert s[|SCHEME|..] == host;
      assert '@' !in host;
    } else {
      assert Auth(c) + host == (c.username + ":" + c.password) + ['@'] + host;
      SplitFirstAt(c.username + ":" + c.password, host, '@');
      SplitFirstAt(c.username, c.password, ':');
    }
  }

  /** With an empty username the password never reaches the string. */
  lemma PasswordIgnoredWithoutUser(c: MongoConfig, password: string)
    requires c.username == ""
    ensures ConnectionString(c) == ConnectionString(c.(password := password))
    ensures ConnectionString(c) == SCHEME + c.server + ":" + c.port + "/" + c.database
  {
  }
}
