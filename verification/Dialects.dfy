/** The databases a project compiles for. */
module Dialects {
  datatype Dialect = Postgres | MySql | MariaDb | Sqlite
  {
    predicate IsMySqlFamily() { MySql? || MariaDb? }
  }
}
