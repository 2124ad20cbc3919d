/**
  `parse_value`, `parse_array`, `parse_object` and `json_parse`: the
  recursive part of json_parser.c.

  The pure functions say what each parser yields; `ArrayLoop` and
  `ObjectLoop` are the `for`/`switch` loops of `parse_array` and
  `parse_object`, one character (or one nested value) per step.  The methods
  run the same machines over a `List` and a `HashTable` and are proved to
  build exactly what the functions describe.

  The input is NUL-free; index |s| is its terminating NUL.  A cursor beyond
  |s| (which the C code produces at the end of input and then reads past) is
  treated as the end of input.
*/
module JsonParser {
  import opened Wrappers
  import opened CupList
  import opened CupHashTable
  import opened JsonChars
  import opened JsonValues
  import opened JsonStrings
  import opened JsonNumbers
  import opened JsonLiterals

  /** The states of `parse_array`: S0 before `[`, S1 after it, S2 after an element, S3 after a comma. */
  datatype ArrayState = ArrOpen | ArrFirst | ArrNext | ArrValue

  /**
    The states of `parse_object`: S0 before `{`, S1 waiting for a key, S2
    waiting for the colon, S3 waiting for the value, S4 after a member.
  */
  datatype ObjectState = ObjOpen | ObjKey | ObjColon(key: string) | ObjValue(key: string) | ObjNext

  /** The payload of a table: its eleven chains. */
  type Table = seq<seq<Entry<Value>>>

  /**
    `parse_value(s + i, ...)`: dispatches on the first character; an
    unrecognised character (or the end of input) stores nothing and reports
    size 0.
  */
  function ScanValue(s: string, i: nat): (r: Scan)
    ensures r.Scanned? ==> i < |s| && i < r.cursor && r.size > 0
    ensures r.Scanned? ==> (r.value.Str? <==> s[i] == '"')
    ensures r.Scanned? ==> (r.value.Bool? <==> s[i] == 't' || s[i] == 'f')
    ensures r.Scanned? ==> (r.value.Int? || r.value.Double? <==> s[i] == '-' || IsDecDigit(s[i]))
    ensures r.Scanned? ==> (r.value.Null? || r.value.NullMismatch? <==> s[i] == 'n')
    ensures r.Scanned? ==> (r.value.Array? <==> s[i] == '[')
    ensures r.Scanned? ==> (r.value.Object? <==> s[i] == '{')
    decreases |s| - i, 3
  {
    if i >= |s| then Failed
    else if s[i] == '"' then ScanString(s, i)
    else if s[i] == 't' || s[i] == 'f' then ScanBool(s, i)
    else if s[i] == '-' || IsDecDigit(s[i]) then ScanNumber(s, i)
    else if s[i] == 'n' then ScanNull(s, i)
    else if s[i] == '[' then ScanArray(s, i)
    else if s[i] == '{' then ScanObject(s, i)
    else Failed
  }

  /** `parse_array(s + i, ...)`: a fresh list filled by the array machine. */
  function ScanArray(s: string, i: nat): (r: Scan)
    ensures r.Scanned? ==> r.value.Array? && r.size == ListSize && i < r.cursor
    decreases |s| - i, 2
  {
    ArrayLoop(s, i, ArrOpen, [])
  }

  /**
    The array machine from `state` at `it`, with `items` added to the list so
    far.  Running out of input ends the loop and falls through to success.
    Elements are kept in order and each has a non-zero size.
  */
  function ArrayLoop(s: string, it: nat, state: ArrayState, items: seq<Blob<Value>>): (r: Scan)
    ensures r.Scanned? ==> r.value.Array? && r.size == ListSize && it < r.cursor
    decreases |s| - it, if state.ArrOpen? then 1 else 5
  {
    if it >= |s| then Scanned(Array(items), ListSize, it + 1)
    else
      match state
      case ArrOpen =>
        if s[it] == '[' then ArrayLoop(s, it + 1, ArrFirst, items) else Failed
      case ArrFirst =>
        if s[it] == ']' then Scanned(Array(items), ListSize, it + 1)
        else if IsWhitespace(s[it]) then ArrayLoop(s, it + 1, ArrFirst, items)
        else ArrayElement(s, it, items)
      case ArrNext =>
        if s[it] == ',' then ArrayLoop(s, it + 1, ArrValue, items)
        else if s[it] == ']' then Scanned(Array(items), ListSize, it + 1)
        else if IsWhitespace(s[it]) then ArrayLoop(s, it + 1, ArrNext, items)
        else Failed
      case ArrValue =>
        if IsWhitespace(s[it]) then ArrayLoop(s, it + 1, ArrValue, items)
        else ArrayElement(s, it, items)
  }

  /** An element at `it`: `list_add` of the parsed value, then the machine continues after it in S2. */
  function ArrayElement(s: string, it: nat, items: seq<Blob<Value>>): (r: Scan)
    requires it < |s|
    ensures r.Scanned? ==> r.value.Array? && r.size == ListSize && it < r.cursor
    decreases |s| - it, 4
  {
    match ScanValue(s, it)
    case Scanned(v, n, c) => ArrayLoop(s, c, ArrNext, items + [Blob(v, n)])
    case Failed => Failed
  }

  /** `parse_object(s + i, ...)`: a fresh table filled by the object machine. */
  function ScanObject(s: string, i: nat): (r: Scan)
    ensures r.Scanned? ==> r.value.Object? && r.size == TableSize && i < r.cursor
    ensures r.Scanned? ==> |r.value.buckets| == BUCKETS
    decreases |s| - i, 2
  {
    ObjectLoop(s, i, ObjOpen, EmptyBuckets())
  }

  /**
    The object machine from `state` at `it`, with `table` filled so far.
    Waiting for a key, a character that is neither `}`, whitespace nor a
    quote is skipped; running out of input falls through to success.
  */
  function ObjectLoop(s: string, it: nat, state: ObjectState, table: Table): (r: Scan)
    requires |table| == BUCKETS
    ensures r.Scanned? ==> r.value.Object? && r.size == TableSize && it < r.cursor
    ensures r.Scanned? ==> |r.value.buckets| == BUCKETS
    decreases |s| - it, if state.ObjOpen? then 1 else 5
  {
    if it >= |s| then Scanned(Object(table), TableSize, it + 1)
    else
      match state
      case ObjOpen =>
        if s[it] == '{' then ObjectLoop(s, it + 1, ObjKey, table) else Failed
      case ObjKey =>
        if s[it] == '}' then Scanned(Object(table), TableSize, it + 1)
        else if IsWhitespace(s[it]) then ObjectLoop(s, it + 1, ObjKey, table)
        else if s[it] == '"' then
          match ScanString(s, it)
          case Scanned(k, _, c) => ObjectLoop(s, c, ObjColon(k.text), table)
          case Failed => Failed
        else ObjectLoop(s, it + 1, ObjKey, table)
      case ObjColon(key) =>
        if s[it] == ':' then ObjectLoop(s, it + 1, ObjValue(key), table)
        else if IsWhitespace(s[it]) then ObjectLoop(s, it + 1, ObjColon(key), table)
        else Failed
      case ObjValue(key) =>
        if IsWhitespace(s[it]) then ObjectLoop(s, it + 1, ObjValue(key), table)
        else ObjectMember(s, it, key, table)
      case ObjNext =>
        if s[it] == ',' then ObjectLoop(s, it + 1, ObjKey, table)
        else if s[it] == '}' then Scanned(Object(table), TableSize, it + 1)
        else if IsWhitespace(s[it]) then ObjectLoop(s, it + 1, ObjNext, table)
        else Failed
  }

  /** A member's value at `it`: `hashtable_set` under `key`, then the machine continues after it in S4. */
  function ObjectMember(s: string, it: nat, key: string, table: Table): (r: Scan)
    requires it < |s| && |table| == BUCKETS
    ensures r.Scanned? ==> r.value.Object? && r.size == TableSize && it < r.cursor
    ensures r.Scanned? ==> |r.value.buckets| == BUCKETS
    decreases |s| - it, 4
  {
    match ScanValue(s, it)
    case Scanned(v, n, c) => ObjectLoop(s, c, ObjNext, Insert(table, key, v, n))
    case Failed => Failed
  }

  /** The index of the first `{`, or the end of input when there is none. */
  function FirstBrace(s: string, i: nat := 0): (r: nat)
    requires i <= |s|
    ensures i <= r <= |s|
    ensures r < |s| ==> s[r] == '{'
    ensures forall k :: i <= k < r ==> s[k] != '{'
    decreases |s| - i
  {
    if i < |s| && s[i] != '{' then FirstBrace(s, i + 1) else i
  }

  /**
    `json_parse`: the table of the first object in the input.  Without any
    `{` this is an empty table; None stands for the freed table the C code
    hands back when the object is malformed.
  */
  function ParsedTable(s: string): (r: Option<Table>)
    ensures r.Some? ==> |r.value| == BUCKETS
  {
    match ScanObject(s, FirstBrace(s))
    case Scanned(v, _, _) => Some(v.buckets)
    case Failed => None
  }

  /** `parse_value`: dispatches to the scanner the first character selects. */
  method ParseValue(s: string, i: nat) returns (r: Scan)
    ensures r == ScanValue(s, i)
    decreases |s| - i, 3
  {
    if i >= |s| {
      return Failed;
    }
    var c := s[i];
    if c == '"' {
      r := ParseString(s, i);
    } else if c == 't' || c == 'f' {
      r := ParseBool(s, i);
    } else if c == '-' || IsDecDigit(c) {
      r := ParseNumber(s, i);
    } else if c == 'n' {
      r := ParseNull(s, i);
    } else if c == '[' {
      r := ParseArray(s, i);
    } else if c == '{' {
      r := ParseObject(s, i);
    } else {
      r := Failed;
    }
  }

  /**
    The element step of states S1 and S3: `parse_value` at `it` and, when it
    succeeds, `list_add` of its result; the array machine then goes on after
    the value in S2.
  */
  method AddElement(l: List<Value>, s: string, it: nat, ghost state: ArrayState) returns (v: Scan)
    requires l.Valid() && it < |s| && !IsWhitespace(s[it])
    requires (state.ArrFirst? && s[it] != ']') || state.ArrValue?
    modifies l.Repr
    ensures l.Valid() && fresh(l.Repr - old(l.Repr))
    ensures v == ScanValue(s, it)
    ensures l.Contents == if v.Scanned? then old(l.Contents) + [Blob(v.value, v.size)] else old(l.Contents)
    ensures ArrayLoop(s, it, state, old(l.Contents)) ==
      if v.Scanned? then ArrayLoop(s, v.cursor, ArrNext, l.Contents) else Failed
    decreases |s| - it, 4
  {
    assert ArrayLoop(s, it, state, l.Contents) == ArrayElement(s, it, l.Contents);
    v := ParseValue(s, it);
    if v.Scanned? {
      l.Add(v.value, v.size);
    }
  }

  /**
    `parse_array`: allocates a list and fills it with `list_add` as the
    machine meets elements.  A closing bracket leaves the loop for the
    success exit, as does the end of input.
  */
  method ParseArray(s: string, start: nat) returns (r: Scan)
    ensures r == ScanArray(s, start)
    decreases |s| - start, 2
  {
    var l := new List<Value>();
    var state := ArrOpen;
    var it := start;
    ghost var added := l.Contents;
    while it < |s|
      invariant l.Valid() && fresh(l.Repr) && l.Contents == added
      invariant start <= it && (state.ArrOpen? <==> it == start)
      invariant ArrayLoop(s, it, state, added) == ScanArray(s, start)
      decreases |s| - it
    {
      var c := s[it];
      match state {
        case ArrOpen =>
          if c == '[' {
            state := ArrFirst;
          } else {
            return Failed;
          }
        case ArrFirst =>
          if c == ']' {
            break;
          } else if IsWhitespace(c) {
            state := ArrFirst;
          } else {
            var v := AddElement(l, s, it, state);
            if v.Failed? {
              return Failed;
            }
            added := l.Contents;
            state := ArrNext;
            it := v.cursor - 1;
          }
        case ArrNext =>
          if c == ',' {
            state := ArrValue;
          } else if c == ']' {
            break;
          } else if IsWhitespace(c) {
            state := ArrNext;
          } else {
            return Failed;
          }
        case ArrValue =>
          if IsWhitespace(c) {
            state := ArrValue;
          } else {
            var v := AddElement(l, s, it, state);
            if v.Failed? {
              return Failed;
            }
            added := l.Contents;
            state := ArrNext;
            it := v.cursor - 1;
          }
      }
      it := it + 1;
    }
    var items := l.Elements();
    return Scanned(Array(items), ListSize, it + 1);
  }

  /**
    The member step of state S3: `parse_value` at `it` and, when it
    succeeds, `hashtable_set` of its result under `key`; the object machine
    then goes on after the value in S4.
  */
  method SetMember(ht: HashTable<Value>, s: string, it: nat, key: string) returns (v: Scan)
    requires ht.Valid() && it < |s| && !IsWhitespace(s[it])
    modifies ht.buckets
    ensures ht.Valid()
    ensures v == ScanValue(s, it)
    ensures ht.buckets[..] == if v.Scanned? then Insert(old(ht.buckets[..]), key, v.value, v.size) else old(ht.buckets[..])
    ensures ObjectLoop(s, it, ObjValue(key), old(ht.buckets[..])) ==
      if v.Scanned? then ObjectLoop(s, v.cursor, ObjNext, ht.buckets[..]) else Failed
    decreases |s| - it, 4
  {
    assert ObjectLoop(s, it, ObjValue(key), ht.buckets[..]) == ObjectMember(s, it, key, ht.buckets[..]);
    v := ParseValue(s, it);
    if v.Scanned? {
      ht.Set(key, v.value, v.size);
    }
  }

  /** In S1, a quoted key moves the object machine to S2 with that key, after the closing quote. */
  lemma KeyStep(s: string, it: nat, table: Table)
    requires |table| == BUCKETS && it < |s| && s[it] == '"'
    ensures var k := ScanString(s, it);
      ObjectLoop(s, it, ObjKey, table) ==
        if k.Scanned? then ObjectLoop(s, k.cursor, ObjColon(k.value.text), table) else Failed
  {
  }

  /**
    `parse_object`: allocates a table and fills it with `hashtable_set` as
    the machine meets members.  A closing brace leaves the loop for the
    success exit, as does the end of input.
  */
  method ParseObject(s: string, start: nat) returns (r: Scan)
    ensures r == ScanObject(s, start)
    decreases |s| - start, 2
  {
    var ht := new HashTable<Value>();
    var state := ObjOpen;
    var it := start;
    ghost var table := ht.buckets[..];
    while it < |s|
      invariant ht.Valid() && fresh(ht.buckets) && ht.buckets[..] == table
      invariant start <= it && (state.ObjOpen? <==> it == start)
      invariant ObjectLoop(s, it, state, table) == ScanObject(s, start)
      decreases |s| - it
    {
      var c := s[it];
      match state {
        case ObjOpen =>
          if c == '{' {
            state := ObjKey;
          } else {
            return Failed;
          }
        case ObjKey =>
          if c == '}' {
            break;
          } else if IsWhitespace(c) {
            state := ObjKey;
          } else if c == '"' {
            KeyStep(s, it, table);
            var k := ParseString(s, it);
            if k.Failed? {
              return Failed;
            }
            state := ObjColon(k.value.text);
            it := k.cursor - 1;
          }
        case ObjColon(key) =>
          if c == ':' {
            state := ObjValue(key);
          } else if IsWhitespace(c) {
            state := ObjColon(key);
          } else {
            return Failed;
          }
        case ObjValue(key) =>
          if IsWhitespace(c) {
            state := ObjValue(key);
          } else {
            var v := SetMember(ht, s, it, key);
            if v.Failed? {
              return Failed;
            }
            table := ht.buckets[..];
            state := ObjNext;
            it := v.cursor - 1;
          }
        case ObjNext =>
          if c == ',' {
            state := ObjKey;
          } else if c == '}' {
            break;
          } else if IsWhitespace(c) {
            state := ObjNext;
          } else {
            return Failed;
          }
      }
      it := it + 1;
    }
    return Scanned(Object(ht.buckets[..]), TableSize, it + 1);
  }

  /** `json_parse`: skips to the first `{` and parses the object there; the C string ends at its first NUL. */
  method JsonParse(s: string) returns (t: Option<Table>)
    requires NulFree(s)
    ensures t == ParsedTable(s)
  {
    var i := 0;
    while i < |s| && s[i] != '{'
      invariant i <= |s| && FirstBrace(s, i) == FirstBrace(s)
      decreases |s| - i
    {
      i := i + 1;
    }
    var r := ParseObject(s, i);
    if r.Scanned? {
      return Some(r.value.buckets);
    }
    return None;
  }
}
