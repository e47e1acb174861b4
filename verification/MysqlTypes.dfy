// Column and parameter type codes of the MySQL protocol.
module MysqlTypes {
  import opened Bytes

  const TYPE_TINY: byte := 1
  const TYPE_SHORT: byte := 2
  const TYPE_LONG: byte := 3
  const TYPE_FLOAT: byte := 4
  const TYPE_DOUBLE: byte := 5
  const TYPE_NULL: byte := 6
  const TYPE_LONGLONG: byte := 8
  const TYPE_INT24: byte := 9
  const TYPE_YEAR: byte := 13
  const TYPE_VAR_STRING: byte := 253
  const TYPE_STRING: byte := 254
}
