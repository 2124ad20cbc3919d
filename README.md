# json_parser in Dafny

A model of lbbasilio/json_parser, a small C library that turns a JSON text into
nested containers:

- `json_parser.c` holds hand-written state machines for strings, numbers,
  `true`/`false` and `null`, and the recursive parsers for arrays and objects.
- `list.h` is the singly-linked list that arrays fill.
- `hashtable.h` is the 11-bucket chained hash table that objects fill.
- `arena.h` is a bump allocator.

The input is a `string` (`seq<char>`) without NUL characters. Index `|s|` plays
the part of the terminating NUL, and a cursor is an index into `s`. Each Dafny
`char` stands for one C `char`, that is one byte; sizes and hash buckets agree
with the C code only for characters below 256 (see "Left out").

**Scanners.** Each scanner comes in two forms that are proved equal:

- a pure function `ScanX(s, i)`, which says what `parse_x(s + i, ...)` stores,
  which size it reports and which cursor it returns;
- a method `ParseX(s, i)`, which runs the C code step by step. Its `ensures`
  is `r == ScanX(s, i)`. `ParseString`, `ParseNumber` and `ParseBool` keep the
  C states as a datatype. `ParseNull` keeps the number of matched characters
  of `null` as a counter, which is what its states S0–S3 stand for.
  `ParseValue` has no machine: it only dispatches on the first character.

A `Scan` is `Scanned(value, size, cursor)` or `Failed`. `Failed` means the C
code reported size 0.

**Reference grammars.** Strings and numbers also get a grammar stated without
any scanning: tokens for string bodies, sign/integer/fraction/exponent for
numbers. Soundness and completeness lemmas tie each scanner to its grammar.

**Arrays and objects.** The array and object machines are the functions
`ArrayLoop` and `ObjectLoop`, one step per character. They mirror the C
`switch`, including its quirks, which are kept as written:

- raw control characters are accepted inside strings;
- in the state that waits for a key, any other character is skipped;
- `}` right after `,` closes an object, while `[1,]` is rejected;
- running out of input inside an array or object ends in success;
- `parse_null` reports size 8 even when the literal does not match.

`ParseArray` and `ParseObject` fill a real `CupList.List` and a real
`CupHashTable.HashTable` in place, and are proved equal to those functions.

`JsonFacts` states what the results hold. An array holds the values of its
text, and an object's table is filled with the members of its text, in the
order they appear. The text between them is only what the machines pass over:
whitespace, the `,` and `:` separators, and in an object the characters that
S1 skips. None of that can start a value or a key, so nothing of the text is
dropped.

**Containers.**

- The list is a chain of `Node` objects, with a ghost sequence of its contents.
- The hash table is an array of 11 chains. Each chain is a sequence of
  entries.
- The arena keeps its pointers as offsets from `base`.

Modules:

| module | file | models |
|---|---|---|
| `Wrappers` | wrappers.dfy | `Option`, the stand-in for a pointer that may be NULL |
| `CupList` | list.dfy | list.h |
| `CupHashTable` | hashtable.dfy | hashtable.h |
| `ArenaAlloc` | arena.dfy | arena.h |
| `JsonValues` | json_values.dfy | the values and sizes the parsers store |
| `JsonChars` | json_chars.dfy | the six character classifiers |
| `JsonStrings` | json_strings.dfy | `parse_string` |
| `JsonNumbers` | json_numbers.dfy | `parse_number` |
| `JsonLiterals` | json_literals.dfy | `parse_bool`, `parse_null` |
| `JsonParser` | json_parser.dfy | `parse_value`, `parse_array`, `parse_object`, `json_parse` |
| `JsonFacts` | json_facts.dfy | properties of the whole parser and its edge cases |

## Model

| member | source | states |
|---|---|---|
| JsonChars.IsWhitespace | json_parser.c:13-17 | Holds exactly for space, tab, carriage return and line feed. |
| JsonChars.IsEscapable | json_parser.c:19-23 | Holds exactly for `"`, `\`, `/`, `b`, `f`, `n`, `r` and `t`. |
| JsonChars.IsHexDigit | json_parser.c:25-29 | Holds exactly for `0`–`9`, `A`–`F` and `a`–`f`. |
| JsonChars.IsDecDigit | json_parser.c:31-35 | Holds exactly for `0`–`9`. |
| JsonChars.IsPosDigit | json_parser.c:37-41 | Holds exactly for `1`–`9`. |
| JsonChars.IsNumDelim | json_parser.c:43-47 | Holds exactly for whitespace, `,`, `]` and `}`. |
| JsonChars.NulFree | json_parser.c:56 | No character before the terminator is NUL: the C loops stop at the first NUL, so that is where the input ends. |
| JsonValues.DecimalValue | json_parser.c:165 | The integer a text of decimal digits spells, negated when it starts with `-`: the value `atoll` reads from an accepted integer that fits in `int64_t`. |
| JsonChars.ClassRelations | json_parser.c:13-47 | Positive digits are exactly the decimal digits other than `0`. Decimal digits are hex digits. Whitespace is a number delimiter. No delimiter can occur inside a number. `u` is not among the escapable characters. |
| JsonStrings.StringEnd | json_parser.c:56-79 | The closing position it finds is at or after the start of the body and holds a `"`. |
| JsonStrings.ScanString | json_parser.c:49-90 | On success: the input has `"` at `i`, the text is exactly the characters between the quotes, size is text length + 1, and the cursor is one past a closing `"`. |
| JsonStrings.ScanStringSound | json_parser.c:56-86 | Every accepted string body splits into tokens: a plain character other than `"` and `\`, a `\` with one of `"\/bfnrt`, or `\u` with four hex digits. |
| JsonStrings.ScanStringComplete | json_parser.c:56-86 | A `"`, any sequence of such tokens and a closing `"` are always accepted. The text is that body, size is its length + 1, and the cursor is past the closing quote. |
| JsonStrings.ParseString | json_parser.c:49-90 | The S0–S6 machine returns exactly `ScanString`, failing on a wrong first character, a bad escape, a non-hex digit or end of input. |
| JsonNumbers.NumberTransition | json_parser.c:101-149 | The machine accepts only on a delimiter, and only in a state where a complete number has been read. |
| JsonNumbers.NumberRun | json_parser.c:100-152 | An accepted run ends at or after its start, on a delimiter. |
| JsonNumbers.NumberEnd | json_parser.c:100-152 | An accepted number is non-empty and ends on a delimiter. |
| JsonNumbers.ScanNumber | json_parser.c:92-171 | Succeeds exactly when the machine accepts. Size is 8. The cursor stays on the delimiter. A double keeps the text up to the delimiter. An integer is the decimal value of that text. |
| JsonNumbers.LayoutSound | json_parser.c:100-152 | Every accepted number splits into a sign, integer digits, an optional fraction and an optional exponent. It is a float exactly when it has a fraction or an exponent. |
| JsonNumbers.LayoutComplete | json_parser.c:100-152 | Every text laid out that way and followed by a delimiter is accepted, with the same end and the same float flag. |
| JsonNumbers.ScanNumberSound | json_parser.c:100-170 | Every accepted number is a well-formed number of the grammar: `0` or a non-zero digit followed by digits, a fraction with at least one digit, an exponent with an optional sign and at least one digit. The consumed text is its spelling, and the stored value is the grammar's. |
| JsonNumbers.ScanNumberComplete | json_parser.c:100-170 | Every well-formed number followed by a delimiter is accepted, as a double exactly when it has a fraction or an exponent, with the cursor on the delimiter. |
| JsonNumbers.ParseNumber | json_parser.c:92-171 | The S0–S9 machine, with `is_float` set in S5 and S7, returns exactly `ScanNumber`. |
| JsonLiterals.ScanBool | json_parser.c:173-226 | Succeeds exactly when `true` or `false` is spelled at `i`, storing that truth value with size 8. The cursor is one past the literal, and the next character is not inspected. |
| JsonLiterals.BoolMismatch | json_parser.c:183-213 | A character the machine does not expect means that neither literal is spelled at the start. |
| JsonLiterals.BoolInputEnds | json_parser.c:215-217 | Input that ends inside a literal means that neither literal is spelled at the start. |
| JsonLiterals.ParseBool | json_parser.c:173-226 | The S0–S7 machine returns exactly `ScanBool`. |
| JsonLiterals.CommonPrefix | json_parser.c:235-250 | Returns how many leading characters of the literal match, where the match stops because the input ends or a character differs. |
| JsonLiterals.CommonPrefixUnique | json_parser.c:235-250 | A matching prefix that cannot be extended is the common prefix. |
| JsonLiterals.ScanNull | json_parser.c:228-258 | Always reports size 8. The value is `Null` exactly when `null` is spelled, with the cursor past it. Otherwise the value is the all-ones pointer, and the cursor is one past the longest matched prefix of `null`, so past `i` by at most 4. |
| JsonLiterals.ParseNull | json_parser.c:228-258 | The S0–S3 machine returns exactly `ScanNull`. |
| JsonParser.ScanValue | json_parser.c:374-387 | On success the kind of value is fixed by the first character: `"` gives a string, `t`/`f` a bool, `-` or a digit a number, `n` a null, `[` an array, `{` an object. The size is non-zero and the cursor moves forward. |
| JsonParser.ParseValue | json_parser.c:374-387 | The dispatch returns exactly `ScanValue`, and Failed on any other character or at end of input. |
| JsonParser.ScanArray | json_parser.c:320-372 | On success the value is an array of size 16 and the cursor is past the start. `JsonFacts.ArrayElementsScanned` states which elements it holds: every value of the array's text, in order, and nothing else. |
| JsonParser.ArrayLoop | json_parser.c:327-366 | The same shape from any state of the array machine. |
| JsonParser.ArrayElement | json_parser.c:336-344 | The same shape after an element step. |
| JsonParser.AddElement | json_parser.c:337-341 | Returns `ScanValue` at `it` and appends its result to the list, or leaves the list alone if the scan failed. The array machine then continues in S2 after the value. |
| JsonParser.ParseArray | json_parser.c:320-372 | Filling a fresh `List` with `Add` yields exactly `ScanArray`, elements in order. |
| JsonParser.ScanObject | json_parser.c:263-318 | On success the value is an 11-bucket table of size 96 and the cursor is past the start. `JsonFacts.ScanObjectMembers` states which members it holds: every member of the object's text, set in order, so the last one under a key wins. |
| JsonParser.ObjectLoop | json_parser.c:271-314 | The same shape from any state of the object machine. |
| JsonParser.ObjectMember | json_parser.c:292-304 | The same shape after a member step. |
| JsonParser.SetMember | json_parser.c:292-304 | Returns `ScanValue` at `it` and stores its result under the key with `Insert`, or leaves the table alone if the scan failed. The object machine then continues in S4 after the value. |
| JsonParser.KeyStep | json_parser.c:278-286 | A quoted key moves S1 to S2 with that key, after the closing quote, or fails with the key. |
| JsonParser.ParseObject | json_parser.c:263-318 | Filling a fresh `HashTable` with `Set` yields exactly `ScanObject`. |
| JsonParser.FirstBrace | json_parser.c:393 | Returns the first `{` at or after `i`, or the end of input: no `{` comes before it. |
| JsonParser.ParsedTable | json_parser.c:389-396 | Every table `json_parse` hands back has 11 buckets. |
| JsonParser.JsonParse | json_parser.c:389-396 | For a NUL-free input, skipping to the first `{` and parsing there returns exactly `ParsedTable`. |
| JsonFacts.ObjectLoopWellFormed | json_parser.c:299 | Starting from a well-formed table, the object machine ends with a well-formed table and loses no key. |
| JsonFacts.ParsedTableWellFormed | json_parser.c:389-396 | Every returned table is well-formed, and a lookup finds a key exactly when the key is stored. |
| JsonFacts.GapHoldsNoValue | json_parser.c:374-387 | No value starts at whitespace, `,` or `:`. So a gap made only of these holds no element or member value. |
| JsonFacts.GapHoldsNoKey | json_parser.c:49-60 | No string starts without `"`. So the characters S1 and S4 pass over hold no key. |
| JsonFacts.ColonGap | json_parser.c:288-297 | From S2 or S3, the machine passes only whitespace and, in S2, exactly one `:`. It then reaches the first other character, where the value is read, or the end of input. In S3 only whitespace is passed. |
| JsonFacts.ObjectLoopMembers | json_parser.c:271-314 | From S1 or S4, the final table is the starting table with the members read set one after another, first to last. The text holds only those members: before the first key, what S1 skips (after a comma when started in S4); between a key and its value, whitespace and one `:`; between a value and the next key, whitespace, one `,`, then what S1 skips. After the last value comes whitespace and, optionally, a `,` and skipped characters. The text ends at the closing `}`, or at the end of input, where a last key may still await its value. |
| JsonFacts.KeyMember | json_parser.c:278-287 | The same from a `"` in S1. The key read there starts the first member, unless the input ends before its value. |
| JsonFacts.MemberFrom | json_parser.c:288-304 | The same for a key at `kp` whose value starts at `vp` after the colon. That member is the first one set. |
| JsonFacts.ScanObjectMembers | json_parser.c:263-318 | A scanned object's table is the empty table with its members set in the order they appear, and its text, from `{`, holds no other member (the gaps of `ObjectLoopMembers`). Keys and values lie at increasing positions. A key maps to the value of its last occurrence, and a key that never occurs maps to nothing. |
| JsonFacts.InsertAllLookups | json_parser.c:299 | In a table filled from empty by setting members in order, a key finds the value of its last member and an absent key finds nothing. |
| JsonFacts.MembersIncrease | json_parser.c:276-304 | Members in order lie at increasing positions: a key before its value, a value before the next key. |
| JsonFacts.IncreasingFromFirst | json_parser.c:327-366 | In a strictly increasing sequence of positions, the first is the least. |
| JsonFacts.EmptyObjectExample | json_parser.c:273-277 | `{}` is an empty table, and the cursor is one past the `}`. |
| JsonFacts.ScannedInOrderCons | json_parser.c:336-344 | A value scanned at some position, put in front of values that start after its end past whitespace and one `,`, keeps the values in order. |
| JsonFacts.ArrayItemsScanned | json_parser.c:327-366 | From S1, S2 or S3 the array machine only appends, and it appends, in order, the values it reads. The text holds no other value. Before the first value comes whitespace (one `,` as well when started in S2), and between two values whitespace and exactly one `,`. After the last value comes whitespace, with a `,` only when the input ends. The text ends at the closing `]`, or at the end of input. |
| JsonFacts.ArrayTextBlank | json_parser.c:334-351 | Whitespace read in S1, S2 or S3 leaves the array text of the same shape. |
| JsonFacts.ArrayTextComma | json_parser.c:346 | The comma read in S2 is the one separator allowed before the next value. |
| JsonFacts.ElementScanned | json_parser.c:336-344 | The same after one element step: the value read at `it` is the first appended. |
| JsonFacts.ArrayTextCons | json_parser.c:336-347 | An element followed by the text S2 reads after it is an array text starting at that element. |
| JsonFacts.ElementsIncrease | json_parser.c:327-366 | Values in order lie at strictly increasing positions, the first being the least. |
| JsonFacts.ArrayElementsScanned | json_parser.c:320-366 | The elements of a scanned array are the values of its text, from `[`, in the order they appear, with their non-zero sizes. They lie at strictly increasing positions. The text holds no other value: the gaps of `ArrayItemsScanned` around them hold none, by `GapHoldsNoValue`. |
| JsonFacts.EmptyArrayExample | json_parser.c:331-335 | `[]` is the empty list, and the cursor is one past the `]`. |
| JsonFacts.OneLetterKey | json_parser.c:56-62 | `"a"` scans as the text `a` with size 2. |
| JsonFacts.OneDigitValue | json_parser.c:104-119 | A single non-zero digit followed by a delimiter is the integer it spells, with size 8, and the cursor is on the delimiter. |
| JsonFacts.ArrayTrailingCommaRejected | json_parser.c:351-359 | After a comma, `]` is an error. |
| JsonFacts.ArrayTrailingCommaExample | json_parser.c:346-359 | `[1,]` is rejected. |
| JsonFacts.SingletonArray | json_parser.c:331-347 | `[v]` is the one-element list holding the scanned value and its size. |
| JsonFacts.SingletonObject | json_parser.c:273-307 | `{"k":v}` is the empty table with that single member inserted, and the cursor is past the `}`. |
| JsonFacts.SingletonObjectLookup | json_parser.c:299 | Looking up `k` in the table of `{"k":v}` finds the scanned value. |
| JsonFacts.OpenStep | json_parser.c:273-275 | At `{` the object machine waits for a key with an empty table. |
| JsonFacts.CloseStep | json_parser.c:306-314 | After a member, `}` closes the object with the table built so far. |
| JsonFacts.KeyColonStep | json_parser.c:276-291 | A key and a colon lead to waiting for that key's value. |
| JsonFacts.ValueStep | json_parser.c:292-304 | A value is inserted under the pending key, and the machine waits for `,` or `}`. |
| JsonFacts.ObjectTrailingCommaExample | json_parser.c:276-307 | `{"a":1,}` is accepted. |
| JsonFacts.DuplicateKeyScans | json_parser.c:278-304 | Where the keys and values of `{"a":1,"a":2}` are scanned. |
| JsonFacts.DuplicateKeyTable | json_parser.c:299 | `{"a":1,"a":2}` yields both insertions, the second over the first. |
| JsonFacts.DuplicateKeyExample | json_parser.c:299 | In that table, `a` maps to 2: the later value wins. |
| JsonFacts.TruncatedObjectExample | json_parser.c:311-314 | `{"a"` is accepted as an empty table: the input ends before the colon. |
| JsonFacts.StrayCharacterExample | json_parser.c:276-287 | `{x}` is an empty table: the stray `x` is skipped. |
| JsonFacts.MalformedNullExample | json_parser.c:228-258 | In the model, `[nul]` is a one-element array holding the all-ones pointer with size 8, and the mismatch consumes the `]`. The C `list_add` would `memcpy` from that pointer; see "Left out". |
| JsonFacts.NumberRejections | json_parser.c:100-152 | `01`, `1.`, `1e` and a number cut off by the end of input are rejected. |
| JsonFacts.DoubleAcceptance | json_parser.c:154-170 | `-0.5e+3` followed by `]` is kept as the double text `-0.5e+3`, with the cursor on `]`. |
| JsonFacts.IntegerAcceptance | json_parser.c:154-170 | `-12` followed by a space is the integer -12, with the cursor on the space. |
| CupList.List.constructor | list.h:33-38 | `list_alloc` gives an empty list: `head` NULL and `count` 0. |
| CupList.List.Get | list.h:52-63 | Past the end: NULL and size 0. Otherwise: the element at `index` and its size. The list is not changed. |
| CupList.List.Set | list.h:65-77 | Past the end nothing changes. Otherwise only the element at `index` is replaced. `count`, the chain and the other elements are unchanged. |
| CupList.List.Add | list.h:79-93 | Appends at the tail: the contents gain exactly the new element at the end, and `count` grows by 1 and stays the chain's length. |
| CupList.List.Pop | list.h:95-116 | Empty list: NULL and size 0, nothing changes. Otherwise it returns the last element and its size and removes it, leaving the prefix. `count` stays the chain's length. |
| CupList.List.Elements | list.h:52-63 | The chain read out in order, as `ParseArray` reads back the list it filled. It gives exactly the ghost contents. |
| CupList.AddThenPop | list.h:79-116 | `list_add` then `list_pop` returns the added data and size, and restores the contents and `count`. |
| CupHashTable.CharWord | hashtable.h:35 | A `char`, sign-extended as the C promotion does, is a 64-bit word. |
| CupHashTable.HashState | hashtable.h:33-35 | The accumulator stays below 2^64. |
| CupHashTable.Hash | hashtable.h:31-37 | The bucket index is below `BUCKETS`. |
| CupHashTable.CalcHash | hashtable.h:31-37 | The loop `hash = c + 31 * hash` in `uint64_t`, then `% 11`, computes `Hash(key)`, which is below 11. |
| CupHashTable.IndexOf | hashtable.h:51-55 | Returns the first position in the chain with that key, or the chain length when there is none. |
| CupHashTable.Lookup | hashtable.h:47-58 | Finds nothing exactly when no entry of bucket `Hash(key)` has the key. Otherwise it finds the data of the first entry there that does. |
| CupHashTable.Insert | hashtable.h:61-90 | Keeps 11 buckets and changes no bucket but `Hash(key)`. What it does there is given by `InsertShape`, `LookupInsertSame` and `LookupInsertOther`. |
| CupHashTable.WellFormed | hashtable.h:61-90 | The invariant `hashtable_set` keeps: 11 buckets, every entry in the bucket of its key, and no key twice in one chain. |
| CupHashTable.InsertAll | json_parser.c:299 | Setting a sequence of entries one after another, as `parse_object` does with its members, keeps 11 buckets. |
| CupHashTable.LookupInsertEntry | hashtable.h:61-90 | After one set, a lookup of the key just set finds its new data. A lookup of any other key is unchanged. |
| CupHashTable.LookupInsertAllAbsent | hashtable.h:61-90 | After setting entries none of which has a given key, that key's lookup is unchanged. |
| CupHashTable.LookupInsertAllLast | hashtable.h:61-90 | After setting a sequence of entries, a key's lookup finds the data of the last entry set under it. |
| CupHashTable.EmptyBuckets | hashtable.h:39-45 | 11 buckets, all empty. |
| CupHashTable.EmptyIsWellFormed | hashtable.h:39-45 | The empty table is well-formed, stores no key, and every lookup finds nothing. |
| CupHashTable.HashTable.constructor | hashtable.h:39-45 | `hashtable_alloc`: `bucket_count` is 11 and every bucket is empty. |
| CupHashTable.HashTable.Get | hashtable.h:47-58 | Returns the data of the first entry with that key in bucket `Hash(key)`, or NULL. |
| CupHashTable.HashTable.Set | hashtable.h:61-90 | The buckets become `Insert` of the old ones, and well-formedness is kept. |
| CupHashTable.LookupInsertSame | hashtable.h:61-90 | After setting `k` to `d`, getting `k` yields `d`. |
| CupHashTable.LookupInsertOther | hashtable.h:63-89 | Setting `k` leaves every other key's lookup unchanged. |
| CupHashTable.InsertShape | hashtable.h:67-84 | Only bucket `Hash(key)` changes. An existing key keeps its place and the chain keeps its length. A new key adds exactly one entry at the end of the chain. |
| CupHashTable.IndexOfUnique | hashtable.h:51-55 | The first matching position is the only one that satisfies `IndexOf`'s contract. |
| CupHashTable.InsertedChainKeys | hashtable.h:67-84 | The rewritten chain keeps the old keys in place and grows by one entry, the new key, exactly when the key was absent. |
| CupHashTable.InsertPreservesWellFormed | hashtable.h:63-84 | Setting a key keeps every entry in its own key's bucket and the keys of a chain distinct. |
| CupHashTable.InsertKeys | hashtable.h:61-90 | The stored keys after a set are the old keys plus the key just set. |
| CupHashTable.LookupFindsStoredKeys | hashtable.h:47-58 | In a well-formed table, a lookup finds a key exactly when the key is stored. |
| ArenaAlloc.Arena.constructor | arena.h:24-39 | Records the capacity, with the head at `base`. |
| ArenaAlloc.Create | arena.h:24-39 | NULL exactly when an allocation fails. Otherwise a fresh arena with the given capacity and nothing used. |
| ArenaAlloc.Arena.Alloc | arena.h:41-52 | NULL and no change for 0 bytes or more than what is left. Otherwise it returns the old head and advances the head by `bytes`. `0 <= head <= capacity` is kept. |
| ArenaAlloc.AllocTwice | arena.h:49-51 | Two successful allocations are adjacent and increasing: the second starts where the first ends. |
| ArenaAlloc.Arena.Checkpoint | arena.h:54-57 | Returns the head, which lies in the block, and changes nothing. |
| ArenaAlloc.Arena.Rollback | arena.h:59-63 | As written, the head becomes `RollbackHead`, which never differs from the old head. The invariant is kept. |
| ArenaAlloc.RollbackNeverMoves | arena.h:61-62 | For a head inside the block, the guard as written never moves it, whatever the checkpoint. |
| ArenaAlloc.RollbackKeepsAllocation | arena.h:61-62 | Capacity 16, a checkpoint at offset 0, one 8-byte allocation: the rollback leaves the head at 8. |
| ArenaAlloc.RestoredHead | arena.h:61-62 | With the intended guard, a checkpoint inside the block becomes the head, and the head stays in the block. |
| ArenaAlloc.Arena.RollbackToCheckpoint | arena.h:59-63 | The head becomes `RestoredHead`, and the invariant is kept. |
| ArenaAlloc.AllocThenRestore | arena.h:54-63 | With the intended rollback, checkpoint → alloc → rollback restores the head. |

## Left out

- Memory management is not modelled: `malloc`, `free`, `memcpy`, `memset`, the leaks, and the footprint released by `list_free`, `hashtable_free` and `arena_destroy`. The leaks include the scratch buffer of `parse_number` and the keys `parse_object` never frees.
  - The buffer that is one byte short for the `strcpy` of a new key is not modelled either.
  - Values are copied as Dafny values, so the shallow copy of nested lists and tables is not modelled. Neither is the `memcpy` of 8 bytes from the pointer that `parse_null` stores. For a `null` element or member, whether matched (NULL) or mismatched (all ones), `list_add` and `hashtable_set` would fault in C. The model stores the pointer value itself, as in `MalformedNullExample`.
- JsonParser.ParsedTable: on failure `json_parse` returns the table `parse_object` has already freed. The model returns `None` there.
- JsonNumbers.ScanNumber: `atof` and `atoll` are not modelled. A double keeps its accepted text. An integer is the exact decimal value of its text, which agrees with `atoll` only within the `int64_t` range. The model does not state what happens on overflow, where `atoll` is undefined.
- JsonNumbers.ScanNumber: the C copy handed to `atof`/`atoll` also includes the delimiter, which those functions ignore. The model keeps the text up to the delimiter.
- Cursors past the end are not modelled faithfully. Several scans at the end of input return a pointer one past the terminating NUL:
  - a failed scan;
  - a mismatched `null` cut off by the end of input, which still succeeds;
  - an array or an object cut off by the end of input, which also succeeds (json_parser.c:312-314 and 364-366).

  In C, an enclosing array or object loop then reads beyond the buffer. The model treats every cursor at or past `|s|` as end of input, so those loops end in success.
- The character classifiers of C also accept the NUL byte, because `strchr` finds the terminator. The input here holds no NUL, so this is not modelled. `JsonParse` requires `NulFree`. The scanners are stated for any string, and on a string with a NUL inside they go on where the C code would stop.
- Characters are not bytes. Each Dafny `char` stands for one C `char`, and the model agrees with the C code only when every character is below 256. A character above 255 has no single-byte counterpart in C.
- CupHashTable.CharWord: reduces a character `% 256` before the sign extension, so `Hash` treats a character above 255 like the byte it reduces to. For example `Ł` and `A` hash alike.
- JsonStrings.ScanString: the text and size count characters, so `"é"` as one character has size 2, while C, reading UTF-8, sees two bytes and reports 3.
- Recursion depth, and with it stack exhaustion on deeply nested input, is not modelled.
- The `Json_Object` tree API, `json_parse2`, `json_delete` and the `JSON_ERROR_*` codes of json_parser.h are declared without any implementation. They are not part of this model.
- CupHashTable.HashTable.Valid states only the shape: 11 buckets and `bucket_count`. Well-formedness, meaning every entry sits in its key's bucket and no chain repeats a key, is stated as the separate predicate `WellFormed`. It is carried by the constructor's and `Set`'s postconditions and by `ParsedTableWellFormed`.
- CupHashTable.HashTable: each bucket is a sequence of entries rather than a chain of node objects. The chain order is the `next` order, but aliasing between nodes is not modelled.
- ArenaAlloc.Arena.Alloc: the NULL guard of arena.h:43 for a NULL arena or a NULL `base` is not modelled, because an `Arena` object always exists and has a block. `Create` returns no arena when the block cannot be had, as `arena_create` frees the arena and returns NULL then.
- ArenaAlloc.Create: whether `malloc` succeeds is a parameter, since allocation is outside the model.

## Findings

| source | as written | input that shows it | evidently intended | confidence | as-written member | corrected member |
|---|---|---|---|---|---|---|
| arena.h:61 | the head moves only when `base >= checkpoint && checkpoint >= base + capacity`, which has no solution for a non-empty arena, so a rollback never moves the head | capacity 16; checkpoint at offset 0; allocate 8 bytes; the rollback to the checkpoint leaves the head at offset 8 | restore any checkpoint inside the block: `checkpoint >= base && checkpoint <= base + capacity` | not executed | ArenaAlloc.RollbackKeepsAllocation | ArenaAlloc.AllocThenRestore |
