/**
 * Parameterised SQL statements as the service and the scripts hand them
 * to the database driver: statement text with `?` placeholders plus the
 * tuple of bound values.
 */
module Sql {
  import opened Text

  datatype SqlValue = SqlText(text: string) | SqlInt(i: int) | SqlReal(r: real)

  datatype Query = Query(sql: string, args: seq<SqlValue>)

  function Placeholders(sql: string): nat
  {
    CountChar(sql, '?')
  }

  /** Every placeholder has exactly one bound value. */
  predicate Bound(q: Query)
  {
    Placeholders(q.sql) == |q.args|
  }

}
