/** `get_sql_command`: the shell command that runs an SQL script for a database driver. */
module SqlDrivers {
  import opened Basics
  import opened Text

  datatype Driver = Oracle | Postgres | Mysql | Redis

  /** The keys of `SQL_DRIVERS`. */
  function DriverNamed(name: string): (d: Option<Driver>)
    ensures d.Some? <==> name in ["oracle", "postgres", "mysql", "redis"]
  {
    if name == "oracle" then Some(Oracle)
    else if name == "postgres" then Some(Postgres)
    else if name == "mysql" then Some(Mysql)
    else if name == "redis" then Some(Redis)
    else None
  }

  /** The command each driver's template gives. */
  function Command(d: Driver, script: string, conn: string): string {
    match d
    case Oracle => "sqlplus -s " + conn + " @" + script
    case Postgres => "psql \"$SQL_URL\" -f " + script
    case Mysql => "mysql \"$SQL_URL\" < " + script
    case Redis => "redis-cli < " + script
  }

  /** `get_sql_command(script, conn, driver)`: the driver name is lower-cased first; an
      unknown one raises `ValueError`. */
  function GetSqlCommand(script: string, conn: string, driver: string): (r: Result<string>)
    ensures r.Fail? <==> DriverNamed(Lower(driver)).None?
    ensures r.Fail? ==> r.exc == ValueError("Unsupported SQL driver: " + Lower(driver))
  {
    var name := Lower(driver);
    var d := DriverNamed(name);
    if d.Some? then Ok(Command(d.value, script, conn)) else Fail(ValueError("Unsupported SQL driver: " + name))
  }

  /** The driver name is case-insensitive. */
  lemma CaseInsensitive(script: string, conn: string, driver: string)
    ensures GetSqlCommand(script, conn, driver) == GetSqlCommand(script, conn, Lower(driver))
  {
    LowerIdempotent(driver);
  }

  /** Every command ends with the script, and only the Oracle one mentions the connection:
      for the others any two connections give the same command. */
  lemma CommandShape(script: string, conn: string, conn': string, driver: string)
    ensures GetSqlCommand(script, conn, driver).Ok? ==> EndsWith(GetSqlCommand(script, conn, driver).value, script)
    ensures Lower(driver) != "oracle" ==> GetSqlCommand(script, conn, driver) == GetSqlCommand(script, conn', driver)
    ensures Lower(driver) == "oracle" ==> GetSqlCommand(script, conn, driver) == Ok("sqlplus -s " + conn + " @" + script)
  {
    var d := DriverNamed(Lower(driver));
    if d.Some? {
      var pre := match d.value
        case Oracle => "sqlplus -s " + conn + " @"
        case Postgres => "psql \"$SQL_URL\" -f "
        case Mysql => "mysql \"$SQL_URL\" < "
        case Redis => "redis-cli < ";
      assert Command(d.value, script, conn) == pre + script;
      ConcatEnds(pre, script);
    }
  }
}
