/**
  What the scanners and parsers of json_parser.c hand back: a value, the
  "size" their callers test for non-zero, and the cursor they return.
*/
module JsonValues {
  import opened CupList
  import opened CupHashTable

  /** `sizeof(int64_t)`, `sizeof(double)` and `sizeof(void*)` on a 64-bit target. */
  const WordSize: nat := 8
  /** `sizeof(list_t)`: a head pointer and a 64-bit count. */
  const ListSize: nat := 16
  /** `sizeof(hashtable_t)`: eleven bucket pointers and a 64-bit bucket count. */
  const TableSize: nat := 96

  /**
    The data a successful scan stores through its out-pointer.  An array is
    the (data, size) sequence of its `list_t`; an object is the bucket array
    of its `hashtable_t`.  `NullMismatch` is the all-ones pointer that
    `parse_null` leaves behind when the literal does not match, which its
    callers accept because the size is still non-zero.
  */
  datatype Value =
    | Str(text: string)
    | Int(n: int)
    | Double(literal: string)
    | Bool(b: bool)
    | Null
    | NullMismatch
    | Array(items: seq<Blob<Value>>)
    | Object(buckets: seq<seq<Entry<Value>>>)

  /** A scan either stores a value of non-zero size and returns a cursor, or reports size 0. */
  datatype Scan = Scanned(value: Value, size: nat, cursor: nat) | Failed

  /** The number a run of decimal digits spells. */
  function DigitsValue(d: string): int
  {
    if d == [] then 0
    else 10 * DigitsValue(d[..|d| - 1]) + (d[|d| - 1] as int - '0' as int)
  }

  /** The integer an optionally negated run of decimal digits spells, as `atoll` reads it when it fits. */
  function DecimalValue(t: string): int
  {
    if |t| > 0 && t[0] == '-' then -DigitsValue(t[1..]) else DigitsValue(t)
  }
}
