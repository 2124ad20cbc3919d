/**
  Properties of the parser as a whole: the tables it builds are well-formed
  hash tables filled member by member in order of appearance, so that the
  last value under a key wins; arrays keep their elements in order; and the
  edge cases of the C machines (trailing commas, duplicate keys, input that
  ends early, skipped characters, a malformed `null`, rejected and accepted
  numbers) behave as the code is written.
*/
module JsonFacts {
  import opened Wrappers
  import opened CupList
  import opened CupHashTable
  import opened JsonChars
  import opened JsonValues
  import opened JsonStrings
  import opened JsonNumbers
  import opened JsonLiterals
  import opened JsonParser

  /** Members only ever go in through `Insert`, so the object machine keeps its table well-formed and loses no key. */
  lemma {:induction false} ObjectLoopWellFormed(s: string, it: nat, state: ObjectState, table: Table)
    requires WellFormed(table)
    requires ObjectLoop(s, it, state, table).Scanned?
    ensures WellFormed(ObjectLoop(s, it, state, table).value.buckets)
    ensures Keys(table) <= Keys(ObjectLoop(s, it, state, table).value.buckets)
    decreases |s| - it, if state.ObjOpen? then 1 else 5
  {
    if it >= |s| {
    } else {
      match state
      case ObjOpen =>
        ObjectLoopWellFormed(s, it + 1, ObjKey, table);
      case ObjKey =>
        if s[it] == '}' {
        } else if IsWhitespace(s[it]) {
          ObjectLoopWellFormed(s, it + 1, ObjKey, table);
        } else if s[it] == '"' {
          var k := ScanString(s, it);
          ObjectLoopWellFormed(s, k.cursor, ObjColon(k.value.text), table);
        } else {
          ObjectLoopWellFormed(s, it + 1, ObjKey, table);
        }
      case ObjColon(key) =>
        if s[it] == ':' {
          ObjectLoopWellFormed(s, it + 1, ObjValue(key), table);
        } else {
          ObjectLoopWellFormed(s, it + 1, ObjColon(key), table);
        }
      case ObjValue(key) =>
        if IsWhitespace(s[it]) {
          ObjectLoopWellFormed(s, it + 1, ObjValue(key), table);
        } else {
          var v := ScanValue(s, it);
          var next := Insert(table, key, v.value, v.size);
          InsertPreservesWellFormed(table, key, v.value, v.size);
          InsertKeys(table, key, v.value, v.size);
          ObjectLoopWellFormed(s, v.cursor, ObjNext, next);
        }
      case ObjNext =>
        if s[it] == ',' {
          ObjectLoopWellFormed(s, it + 1, ObjKey, table);
        } else if s[it] == '}' {
        } else {
          ObjectLoopWellFormed(s, it + 1, ObjNext, table);
        }
    }
  }

  /** Every table `json_parse` returns is a well-formed hash table, on which `Lookup` finds exactly the stored keys. */
  lemma ParsedTableWellFormed(s: string)
    requires ParsedTable(s).Some?
    ensures WellFormed(ParsedTable(s).value)
    ensures forall key :: Lookup(ParsedTable(s).value, key).Some? <==> key in Keys(ParsedTable(s).value)
  {
    EmptyIsWellFormed<Value>();
    ObjectLoopWellFormed(s, FirstBrace(s), ObjOpen, EmptyBuckets());
    forall key {
      LookupFindsStoredKeys(ParsedTable(s).value, key);
    }
  }

  // What the array and object machines let through between the values they
  // read, each read left to right as the machines do.  These gaps are what
  // makes the lemmas below complete: no value starts with whitespace, `,`
  // or `:`, and no key without `"` (GapHoldsNoValue, GapHoldsNoKey), so a
  // text whose gaps are of these kinds holds no element or member besides
  // the ones listed.

  /** Positions `a` up to `b` are whitespace inside the input. */
  predicate Blank(s: string, a: nat, b: nat)
    decreases b - a
  {
    a >= b || (a < |s| && IsWhitespace(s[a]) && Blank(s, a + 1, b))
  }

  /** Positions `a` up to `b` hold exactly one `sep`, with only whitespace around it. */
  predicate Sep(s: string, a: nat, b: nat, sep: char)
    decreases b - a
  {
    a < b && a < |s| &&
    if s[a] == sep then Blank(s, a + 1, b) else IsWhitespace(s[a]) && Sep(s, a + 1, b, sep)
  }

  /** Positions `a` up to `b` hold neither `"` nor `}`: what S1 of `parse_object` passes over. */
  predicate KeyGap(s: string, a: nat, b: nat)
    decreases b - a
  {
    a >= b || (a < |s| && s[a] != '"' && s[a] != '}' && KeyGap(s, a + 1, b))
  }

  /** From the end of a member's value to the next key: whitespace, one comma, then what S1 passes over. */
  predicate NextGap(s: string, a: nat, b: nat)
    decreases b - a
  {
    a < b && a < |s| &&
    if s[a] == ',' then KeyGap(s, a + 1, b) else IsWhitespace(s[a]) && NextGap(s, a + 1, b)
  }

  /** Where an array or object text stops: at its closing character, or at the end of input when it is cut off. */
  function Stop(s: string, r: Scan): (e: nat)
    ensures e <= |s|
    ensures e < |s| <==> r.Scanned? && 0 < r.cursor <= |s|
  {
    if r.Scanned? && 0 < r.cursor <= |s| then r.cursor - 1 else |s|
  }

  /** A text that stops before the end of input stops at `close`. */
  predicate ClosedBy(s: string, r: Scan, close: char)
  {
    Stop(s, r) < |s| ==> s[Stop(s, r)] == close
  }

  /** Within a blank gap or one holding a single comma or colon no value starts. */
  lemma {:induction false} GapHoldsNoValue(s: string, a: nat, b: nat)
    requires Blank(s, a, b) || Sep(s, a, b, ',') || Sep(s, a, b, ':')
    ensures forall p :: a <= p < b ==> ScanValue(s, p).Failed?
    decreases b - a
  {
    if a < b {
      assert IsWhitespace(s[a]) || s[a] == ',' || s[a] == ':';
      GapHoldsNoValue(s, a + 1, b);
    }
  }

  /** Within what S1 and S4 pass over no key starts, since a key starts with `"`. */
  lemma {:induction false} GapHoldsNoKey(s: string, a: nat, b: nat)
    requires KeyGap(s, a, b) || NextGap(s, a, b)
    ensures forall p :: a <= p < b ==> ScanString(s, p).Failed?
    decreases b - a
  {
    if a < b {
      assert s[a] != '"';
      GapHoldsNoKey(s, a + 1, b);
    }
  }

  /** `m` is the member whose key is the string scanned at `kp` and whose value is the one scanned at `vp`, past a colon. */
  ghost predicate MemberAt(s: string, kp: nat, vp: nat, m: Entry<Value>)
  {
    && ScanString(s, kp).Scanned? && Sep(s, ScanString(s, kp).cursor, vp, ':')
    && ScanValue(s, vp).Scanned?
    && m == Entry(ScanString(s, kp).value.text, ScanValue(s, vp).value, ScanValue(s, vp).size)
  }

  /**
    `ms` are, in order, the members whose keys were scanned at `kps` and
    whose values at `vps`: between a key and its value only whitespace and
    one colon, and between a value and the next key only whitespace, one
    comma and characters other than `"` and `}`.
  */
  ghost predicate MembersInOrder(s: string, kps: seq<nat>, vps: seq<nat>, ms: seq<Entry<Value>>)
    decreases |ms|
  {
    && |kps| == |ms| && |vps| == |ms|
    && (|ms| > 0 ==>
          && MemberAt(s, kps[0], vps[0], ms[0])
          && (|ms| > 1 ==> NextGap(s, ScanValue(s, vps[0]).cursor, kps[1]))
          && MembersInOrder(s, kps[1..], vps[1..], ms[1..]))
  }

  /** After a key, input cut off before its value: only whitespace and at most one colon. */
  predicate ColonTail(s: string, c: nat)
  {
    Blank(s, c, |s|) || Sep(s, c, |s|, ':')
  }

  /** From `a`, S1 passes over characters up to a key that never gets its value. */
  ghost predicate PendingKey(s: string, a: nat)
    decreases |s| - a
  {
    a < |s| &&
    if s[a] == '"' then ScanString(s, a).Scanned? && ColonTail(s, ScanString(s, a).cursor)
    else s[a] != '}' && PendingKey(s, a + 1)
  }

  /** From S1 at `a` with no member left, up to where the object stops at `e`. */
  ghost predicate KeyTail(s: string, a: nat, e: nat)
  {
    && (a <= e || e == |s|)
    && (KeyGap(s, a, e) || (e == |s| && PendingKey(s, a)))
  }

  /** From S4 at `a`: whitespace, then a comma and what `KeyTail` allows. */
  ghost predicate CommaTail(s: string, a: nat, e: nat)
    decreases |s| - a
  {
    a < |s| &&
    if s[a] == ',' then KeyTail(s, a + 1, e) else IsWhitespace(s[a]) && CommaTail(s, a + 1, e)
  }

  /** From `state` (S1 or S4) at `a` with no member left, up to where the object stops at `e`. */
  ghost predicate ObjectTail(s: string, state: ObjectState, a: nat, e: nat)
  {
    if state.ObjNext? then (a <= e || e == |s|) && (Blank(s, a, e) || CommaTail(s, a, e))
    else KeyTail(s, a, e)
  }

  /**
    The object text read from `state` (S1 or S4) at `it` to where `r`
    stops: up to the first key what that state passes over, after the last
    value what S4 lets through, and the closing `}` unless cut off.
  */
  ghost predicate ObjectText(s: string, it: nat, state: ObjectState, kps: seq<nat>, vps: seq<nat>, r: Scan)
  {
    && |kps| == |vps|
    && (|kps| > 0 ==>
          && it <= kps[0]
          && (if state.ObjNext? then NextGap(s, it, kps[0]) else KeyGap(s, it, kps[0]))
          && ScanValue(s, vps[|vps| - 1]).Scanned?
          && ObjectTail(s, ObjNext, ScanValue(s, vps[|vps| - 1]).cursor, Stop(s, r)))
    && (|kps| == 0 ==> ObjectTail(s, state, it, Stop(s, r)))
    && ClosedBy(s, r, '}')
  }

  /**
    From S2 or S3 at `it`, the object machine passes over whitespace and, in
    S2, one colon, and reaches the value at `vp`, or the end of input.
  */
  lemma {:induction false} ColonGap(s: string, it: nat, state: ObjectState, table: Table) returns (vp: nat)
    requires |table| == BUCKETS && it <= |s|
    requires state.ObjColon? || state.ObjValue?
    requires ObjectLoop(s, it, state, table).Scanned?
    ensures it <= vp <= |s|
    ensures ObjectLoop(s, it, state, table) == ObjectLoop(s, vp, ObjValue(state.key), table)
    ensures vp < |s| ==> !IsWhitespace(s[vp])
    ensures vp < |s| ==> if state.ObjColon? then Sep(s, it, vp, ':') else Blank(s, it, vp)
    ensures vp == |s| ==> if state.ObjColon? then ColonTail(s, it) else Blank(s, it, vp)
    decreases |s| - it
  {
    vp := it;
    if it < |s| {
      if state.ObjColon? {
        if s[it] == ':' {
          assert ObjectLoop(s, it, state, table) == ObjectLoop(s, it + 1, ObjValue(state.key), table);
          vp := ColonGap(s, it + 1, ObjValue(state.key), table);
        } else {
          assert ObjectLoop(s, it, state, table) == ObjectLoop(s, it + 1, state, table);
          vp := ColonGap(s, it + 1, state, table);
        }
      } else if IsWhitespace(s[it]) {
        assert ObjectLoop(s, it, state, table) == ObjectLoop(s, it + 1, state, table);
        vp := ColonGap(s, it + 1, state, table);
      }
    }
  }

  /**
    From S1 or S4, the object machine fills its table by setting, first to
    last, the members it reads, and every member of the text it reads is
    among them: what lies between them is only what the machine passes over.
  */
  lemma {:induction false} ObjectLoopMembers(s: string, it: nat, state: ObjectState, table: Table)
      returns (kps: seq<nat>, vps: seq<nat>, ms: seq<Entry<Value>>)
    requires |table| == BUCKETS
    requires state.ObjKey? || state.ObjNext?
    requires ObjectLoop(s, it, state, table).Scanned?
    ensures MembersInOrder(s, kps, vps, ms)
    ensures ObjectText(s, it, state, kps, vps, ObjectLoop(s, it, state, table))
    ensures ObjectLoop(s, it, state, table).value.buckets == InsertAll(table, ms)
    decreases |s| - it, 2
  {
    kps, vps, ms := [], [], [];
    if it < |s| {
      var r := ObjectLoop(s, it, state, table);
      match state
      case ObjKey =>
        if s[it] == '}' {
        } else if s[it] == '"' {
          kps, vps, ms := KeyMember(s, it, table);
        } else {
          assert r == ObjectLoop(s, it + 1, ObjKey, table);
          kps, vps, ms := ObjectLoopMembers(s, it + 1, ObjKey, table);
        }
      case ObjNext =>
        if s[it] == ',' {
          assert r == ObjectLoop(s, it + 1, ObjKey, table);
          kps, vps, ms := ObjectLoopMembers(s, it + 1, ObjKey, table);
        } else if s[it] == '}' {
        } else {
          assert r == ObjectLoop(s, it + 1, ObjNext, table);
          kps, vps, ms := ObjectLoopMembers(s, it + 1, ObjNext, table);
        }
    }
  }

  /** A key read in S1 at `it`: the member it starts, if its value is there, comes first. */
  lemma {:induction false} KeyMember(s: string, it: nat, table: Table)
      returns (kps: seq<nat>, vps: seq<nat>, ms: seq<Entry<Value>>)
    requires |table| == BUCKETS && it < |s| && s[it] == '"'
    requires ObjectLoop(s, it, ObjKey, table).Scanned?
    ensures MembersInOrder(s, kps, vps, ms)
    ensures ObjectText(s, it, ObjKey, kps, vps, ObjectLoop(s, it, ObjKey, table))
    ensures ObjectLoop(s, it, ObjKey, table).value.buckets == InsertAll(table, ms)
    decreases |s| - it, 1
  {
    var k := ScanString(s, it);
    KeyStep(s, it, table);
    var vp := ColonGap(s, k.cursor, ObjColon(k.value.text), table);
    if vp < |s| {
      kps, vps, ms := MemberFrom(s, it, vp, table);
    } else {
      kps, vps, ms := [], [], [];
      assert Stop(s, ObjectLoop(s, it, ObjKey, table)) == |s|;
    }
  }

  /**
    A member whose key is scanned at `kp` and whose value starts at `vp`,
    past the colon: it is set first, then the members after it.
  */
  lemma {:induction false} MemberFrom(s: string, kp: nat, vp: nat, table: Table)
      returns (kps: seq<nat>, vps: seq<nat>, ms: seq<Entry<Value>>)
    requires |table| == BUCKETS && kp < vp < |s| && !IsWhitespace(s[vp])
    requires ScanString(s, kp).Scanned? && Sep(s, ScanString(s, kp).cursor, vp, ':')
    requires ObjectLoop(s, vp, ObjValue(ScanString(s, kp).value.text), table).Scanned?
    ensures MembersInOrder(s, kps, vps, ms)
    ensures ObjectText(s, kp, ObjKey, kps, vps, ObjectLoop(s, vp, ObjValue(ScanString(s, kp).value.text), table))
    ensures |kps| > 0 && kps[0] == kp
    ensures ObjectLoop(s, vp, ObjValue(ScanString(s, kp).value.text), table).value.buckets == InsertAll(table, ms)
    decreases |s| - kp, 0
  {
    var key := ScanString(s, kp).value.text;
    var v := ScanValue(s, vp);
    var m := Entry(key, v.value, v.size);
    var next := Insert(table, m.key, m.data, m.size);
    assert ObjectLoop(s, vp, ObjValue(key), table) == ObjectLoop(s, v.cursor, ObjNext, next);
    assert MemberAt(s, kp, vp, m);
    var kps', vps', ms' := ObjectLoopMembers(s, v.cursor, ObjNext, next);
    kps, vps, ms := [kp] + kps', [vp] + vps', [m] + ms';
    assert ms[1..] == ms';
    assert vps[|vps| - 1] == if |ms'| == 0 then vp else vps'[|vps'| - 1];
  }

  /**
    `parse_object` fills its table by `hashtable_set` of each member it
    reads, in the order they appear, and every member of its text is read;
    so a key maps to the value of its last occurrence, and a key that never
    occurs is not in the table.
  */
  lemma ScanObjectMembers(s: string, i: nat) returns (kps: seq<nat>, vps: seq<nat>, ms: seq<Entry<Value>>)
    requires ScanObject(s, i).Scanned?
    ensures MembersInOrder(s, kps, vps, ms)
    ensures i < |s| ==> s[i] == '{' && ObjectText(s, i + 1, ObjKey, kps, vps, ScanObject(s, i))
    ensures i >= |s| ==> ms == []
    ensures forall j :: 0 <= j < |ms| ==> i < kps[j] < vps[j]
    ensures forall j :: 0 <= j < |ms| - 1 ==> vps[j] < kps[j + 1]
    ensures ScanObject(s, i).value.buckets == InsertAll(EmptyBuckets(), ms)
    ensures forall key, j :: LastWith(ms, key, j) ==> Lookup(ScanObject(s, i).value.buckets, key) == Some(ms[j].data)
    ensures forall key :: (forall j :: 0 <= j < |ms| ==> ms[j].key != key) ==> Lookup(ScanObject(s, i).value.buckets, key) == None
  {
    if i >= |s| {
      kps, vps, ms := [], [], [];
    } else {
      assert ScanObject(s, i) == ObjectLoop(s, i + 1, ObjKey, EmptyBuckets());
      kps, vps, ms := ObjectLoopMembers(s, i + 1, ObjKey, EmptyBuckets());
    }
    MembersIncrease(s, kps, vps, ms);
    InsertAllLookups(ms);
  }

  /** Setting `ms` into the empty table: a key maps to its last value, and a key not among them to nothing. */
  lemma InsertAllLookups(ms: seq<Entry<Value>>)
    ensures forall key, j :: LastWith(ms, key, j) ==> Lookup(InsertAll(EmptyBuckets(), ms), key) == Some(ms[j].data)
    ensures forall key :: (forall j :: 0 <= j < |ms| ==> ms[j].key != key) ==> Lookup(InsertAll(EmptyBuckets(), ms), key) == None
  {
    EmptyIsWellFormed<Value>();
    forall key, j | LastWith(ms, key, j)
      ensures Lookup(InsertAll(EmptyBuckets(), ms), key) == Some(ms[j].data)
    {
      LookupInsertAllLast(EmptyBuckets(), ms, key, j);
    }
    forall key | forall j :: 0 <= j < |ms| ==> ms[j].key != key
      ensures Lookup(InsertAll(EmptyBuckets(), ms), key) == None
    {
      LookupInsertAllAbsent(EmptyBuckets(), ms, key);
    }
  }

  /** Members in order sit at increasing positions: each key before its value, each value before the next key. */
  lemma {:induction false} MembersIncrease(s: string, kps: seq<nat>, vps: seq<nat>, ms: seq<Entry<Value>>)
    requires MembersInOrder(s, kps, vps, ms)
    ensures forall j :: 0 <= j < |ms| ==> kps[0] <= kps[j] < vps[j]
    ensures forall j :: 0 <= j < |ms| - 1 ==> vps[j] < kps[j + 1]
    decreases |ms|
  {
    if |ms| > 0 {
      var ks, vs := kps[1..], vps[1..];
      MembersIncrease(s, ks, vs, ms[1..]);
      SepBefore(s, ScanString(s, kps[0]).cursor, vps[0], ':');
      if |ms| > 1 {
        NextGapBefore(s, ScanValue(s, vps[0]).cursor, kps[1]);
      }
      assert forall j :: 0 < j < |ms| ==> kps[j] == ks[j - 1] && vps[j] == vs[j - 1];
    }
  }

  /** A gap with a separator is never empty. */
  lemma SepBefore(s: string, a: nat, b: nat, sep: char)
    requires Sep(s, a, b, sep)
    ensures a < b
  {
  }

  /** Nor is the gap from a value to the next key. */
  lemma NextGapBefore(s: string, a: nat, b: nat)
    requires NextGap(s, a, b)
    ensures a < b
  {
  }

  /** In a strictly increasing sequence, the first element is the least. */
  lemma {:induction false} IncreasingFromFirst(xs: seq<nat>)
    requires forall k :: 0 <= k < |xs| - 1 ==> xs[k] < xs[k + 1]
    ensures forall k :: 0 <= k < |xs| ==> xs[0] <= xs[k]
  {
    if |xs| > 1 {
      var init := xs[..|xs| - 1];
      IncreasingFromFirst(init);
      assert forall k :: 0 <= k < |init| ==> xs[0] <= init[k] == xs[k];
      assert xs[|xs| - 2] < xs[|xs| - 1];
    }
  }

  /** `{}` is an empty table, read to one past its `}`. */
  lemma EmptyObjectExample()
    ensures ScanObject("{}", 0) == Scanned(Object(EmptyBuckets()), TableSize, 2)
  {
    var s := "{}";
    assert s[0] == '{' && s[1] == '}';
    assert ScanObject(s, 0) == ObjectLoop(s, 1, ObjKey, EmptyBuckets());
  }

  /**
    `elems` are, in order, the values scanned at the positions `ps`, with
    only whitespace and one comma between the end of one and the start of
    the next.
  */
  ghost predicate ScannedInOrder(s: string, ps: seq<nat>, elems: seq<Blob<Value>>)
  {
    && |ps| == |elems|
    && (forall k :: 0 <= k < |ps| ==> ScanValue(s, ps[k]).Scanned?)
    && (forall k :: 0 <= k < |ps| ==> elems[k] == Blob(ScanValue(s, ps[k]).value, ScanValue(s, ps[k]).size))
    && (forall k :: 0 <= k < |ps| - 1 ==> Sep(s, ScanValue(s, ps[k]).cursor, ps[k + 1], ','))
  }

  /**
    From `state` (S1, S2 or S3) at `a` with no element left, up to where the
    array stops at `e`: whitespace, and a comma only when the input is cut off.
  */
  predicate ArrayTail(s: string, state: ArrayState, a: nat, e: nat)
  {
    && (a <= e || e == |s|)
    && if state.ArrNext? then Blank(s, a, e) || (e == |s| && Sep(s, a, e, ','))
       else if state.ArrValue? then e == |s| && Blank(s, a, e)
       else Blank(s, a, e)
  }

  /**
    The array text read from `state` (S1, S2 or S3) at `it` to where `r`
    stops: whitespace (after S2, one comma) up to the first element, after
    the last element what S2 lets through, and the closing `]` unless cut off.
  */
  ghost predicate ArrayText(s: string, it: nat, state: ArrayState, ps: seq<nat>, r: Scan)
  {
    && (|ps| > 0 ==>
          && it <= ps[0]
          && (if state.ArrNext? then Sep(s, it, ps[0], ',') else Blank(s, it, ps[0]))
          && ScanValue(s, ps[|ps| - 1]).Scanned?
          && ArrayTail(s, ArrNext, ScanValue(s, ps[|ps| - 1]).cursor, Stop(s, r)))
    && (|ps| == 0 ==> ArrayTail(s, state, it, Stop(s, r)))
    && ClosedBy(s, r, ']')
  }

  /** A value scanned at `p` put in front of the values read after it. */
  lemma ScannedInOrderCons(s: string, p: nat, ps: seq<nat>, b: Blob<Value>, elems: seq<Blob<Value>>)
    requires ScanValue(s, p).Scanned? && b == Blob(ScanValue(s, p).value, ScanValue(s, p).size)
    requires ScannedInOrder(s, ps, elems)
    requires |ps| > 0 ==> Sep(s, ScanValue(s, p).cursor, ps[0], ',')
    ensures ScannedInOrder(s, [p] + ps, [b] + elems)
  {
    var qs, es := [p] + ps, [b] + elems;
    assert forall k :: 0 < k < |qs| ==> qs[k] == ps[k - 1] && es[k] == elems[k - 1];
    forall k | 0 <= k < |qs| - 1
      ensures Sep(s, ScanValue(s, qs[k]).cursor, qs[k + 1], ',')
    {
      if k == 0 {
        assert qs[1] == ps[0];
      } else {
        assert Sep(s, ScanValue(s, ps[k - 1]).cursor, ps[k], ',');
      }
    }
  }

  /**
    From S1, S2 or S3 the array machine only appends, and what it appends
    are, in order, the values it reads; every value of the text it reads is
    among them, since only whitespace and commas lie between them.
  */
  lemma {:induction false} ArrayItemsScanned(s: string, it: nat, state: ArrayState, items: seq<Blob<Value>>)
      returns (ps: seq<nat>)
    requires !state.ArrOpen? && ArrayLoop(s, it, state, items).Scanned?
    ensures items <= ArrayLoop(s, it, state, items).value.items
    ensures ScannedInOrder(s, ps, ArrayLoop(s, it, state, items).value.items[|items|..])
    ensures ArrayText(s, it, state, ps, ArrayLoop(s, it, state, items))
    decreases |s| - it
  {
    ps := [];
    if it < |s| {
      var r := ArrayLoop(s, it, state, items);
      match state
      case ArrFirst =>
        if s[it] == ']' {
        } else if IsWhitespace(s[it]) {
          assert r == ArrayLoop(s, it + 1, ArrFirst, items);
          ps := ArrayItemsScanned(s, it + 1, ArrFirst, items);
          ArrayTextBlank(s, it, ArrFirst, ps, r);
        } else {
          ps := ElementScanned(s, it, items);
        }
      case ArrNext =>
        if s[it] == ',' {
          assert r == ArrayLoop(s, it + 1, ArrValue, items);
          ps := ArrayItemsScanned(s, it + 1, ArrValue, items);
          ArrayTextComma(s, it, ps, r);
        } else if s[it] == ']' {
        } else {
          assert r == ArrayLoop(s, it + 1, ArrNext, items);
          ps := ArrayItemsScanned(s, it + 1, ArrNext, items);
          ArrayTextBlank(s, it, ArrNext, ps, r);
        }
      case ArrValue =>
        if IsWhitespace(s[it]) {
          assert r == ArrayLoop(s, it + 1, ArrValue, items);
          ps := ArrayItemsScanned(s, it + 1, ArrValue, items);
          ArrayTextBlank(s, it, ArrValue, ps, r);
        } else {
          ps := ElementScanned(s, it, items);
        }
    }
  }

  /** Whitespace in front of an array text leaves it of the same kind. */
  lemma ArrayTextBlank(s: string, it: nat, state: ArrayState, ps: seq<nat>, r: Scan)
    requires it < |s| && IsWhitespace(s[it]) && !state.ArrOpen?
    requires ArrayText(s, it + 1, state, ps, r)
    ensures ArrayText(s, it, state, ps, r)
  {
  }

  /** The comma S2 reads in front of the array text from S3. */
  lemma ArrayTextComma(s: string, it: nat, ps: seq<nat>, r: Scan)
    requires it < |s| && s[it] == ','
    requires ArrayText(s, it + 1, ArrValue, ps, r)
    ensures ArrayText(s, it, ArrNext, ps, r)
  {
  }

  /** An element read at `it`: it is the first of the values the machine appends from there. */
  lemma {:induction false} ElementScanned(s: string, it: nat, items: seq<Blob<Value>>) returns (ps: seq<nat>)
    requires it < |s| && ArrayElement(s, it, items).Scanned?
    ensures items <= ArrayElement(s, it, items).value.items
    ensures ScannedInOrder(s, ps, ArrayElement(s, it, items).value.items[|items|..])
    ensures |ps| > 0 && ps[0] == it
    ensures ArrayText(s, it, ArrFirst, ps, ArrayElement(s, it, items))
    decreases |s| - it, 4
  {
    var v := ScanValue(s, it);
    var b := Blob(v.value, v.size);
    var more := items + [b];
    var r := ArrayElement(s, it, items);
    assert r == ArrayLoop(s, v.cursor, ArrNext, more);
    var rest := ArrayItemsScanned(s, v.cursor, ArrNext, more);
    var after := r.value.items[|more|..];
    ScannedInOrderCons(s, it, rest, b, after);
    assert r.value.items[|items|..] == [b] + after;
    ArrayTextCons(s, it, rest, r);
    ps := [it] + rest;
  }

  /** The array text from an element at `it`: that element, then what follows it in S2. */
  lemma ArrayTextCons(s: string, it: nat, rest: seq<nat>, r: Scan)
    requires ScanValue(s, it).Scanned?
    requires ArrayText(s, ScanValue(s, it).cursor, ArrNext, rest, r)
    ensures ArrayText(s, it, ArrFirst, [it] + rest, r)
  {
    var ps := [it] + rest;
    assert ps[|ps| - 1] == if |rest| == 0 then it else rest[|rest| - 1];
  }

  /** Values in order sit at increasing positions. */
  lemma ElementsIncrease(s: string, ps: seq<nat>, elems: seq<Blob<Value>>)
    requires ScannedInOrder(s, ps, elems)
    ensures forall k :: 0 <= k < |ps| ==> ps[0] <= ps[k]
    ensures forall k :: 0 <= k < |ps| - 1 ==> ps[k] < ps[k + 1]
  {
    forall k | 0 <= k < |ps| - 1
      ensures ps[k] < ps[k + 1]
    {
      assert Sep(s, ScanValue(s, ps[k]).cursor, ps[k + 1], ',');
    }
    IncreasingFromFirst(ps);
  }

  /**
    A scanned array holds, in the order they appear, the values read at
    increasing positions inside its text, and no others: before the first,
    between two and after the last lie only whitespace and the commas that
    separate them.  `[]` is the empty list.
  */
  lemma ArrayElementsScanned(s: string, i: nat) returns (ps: seq<nat>)
    requires ScanArray(s, i).Scanned?
    ensures ScannedInOrder(s, ps, ScanArray(s, i).value.items)
    ensures i < |s| ==> s[i] == '[' && ArrayText(s, i + 1, ArrFirst, ps, ScanArray(s, i))
    ensures i >= |s| ==> ps == []
    ensures forall k :: 0 <= k < |ps| ==> i < ps[k]
    ensures forall k :: 0 <= k < |ps| - 1 ==> ps[k] < ps[k + 1]
    ensures forall k :: 0 <= k < |ScanArray(s, i).value.items| ==> ScanArray(s, i).value.items[k].size > 0
  {
    if i >= |s| {
      ps := [];
    } else {
      assert ScanArray(s, i) == ArrayLoop(s, i + 1, ArrFirst, []);
      ps := ArrayItemsScanned(s, i + 1, ArrFirst, []);
      assert ScanArray(s, i).value.items[0..] == ScanArray(s, i).value.items;
    }
    ElementsIncrease(s, ps, ScanArray(s, i).value.items);
  }

  /** `[]` is an empty list, read to one past its `]`. */
  lemma EmptyArrayExample()
    ensures ScanArray("[]", 0) == Scanned(Array([]), ListSize, 2)
  {
    var s := "[]";
    assert s[0] == '[' && s[1] == ']';
    assert ScanArray(s, 0) == ArrayLoop(s, 1, ArrFirst, []);
  }

  /** The key `"a"` at `i`. */
  lemma OneLetterKey(s: string, i: nat)
    requires i + 2 < |s| && s[i] == '"' && s[i + 1] == 'a' && s[i + 2] == '"'
    ensures ScanString(s, i) == Scanned(Str("a"), 2, i + 3)
  {
    assert StringEnd(s, i + 1) == Some(i + 2);
    assert s[i + 1..i + 2] == "a";
  }

  /** A one-digit integer at `i`, followed by a delimiter. */
  lemma OneDigitValue(s: string, i: nat)
    requires i + 1 < |s| && IsPosDigit(s[i]) && IsNumDelim(s[i + 1])
    ensures ScanValue(s, i) == Scanned(Int(s[i] as int - '0' as int), WordSize, i + 1)
  {
    ClassRelations(s[i + 1]);
    assert NumberRun(s, i + 1, NumLead) == Some(Ending(i + 1, false));
    assert NumberEnd(s, i) == Some(Ending(i + 1, false));
    assert ScanNumber(s, i) == Scanned(Int(DecimalValue(s[i..i + 1])), WordSize, i + 1);
    assert s[i..i + 1] == [s[i]];
    assert [s[i]][..0] == [];
    assert DigitsValue([s[i]]) == 10 * DigitsValue([]) + (s[i] as int - '0' as int);
  }

  /** After a comma, a closing bracket is an error: `[1,]` is rejected. */
  lemma ArrayTrailingCommaRejected(s: string, it: nat, items: seq<Blob<Value>>)
    requires it < |s| && s[it] == ']'
    ensures ArrayLoop(s, it, ArrValue, items) == Failed
  {
    assert ScanValue(s, it) == Failed;
  }

  lemma ArrayTrailingCommaExample()
    ensures ScanArray("[1,]", 0) == Failed
  {
    var s := "[1,]";
    OneDigitValue(s, 1);
    ArrayTrailingCommaRejected(s, 3, [Blob(Int(1), WordSize)]);
  }

  /** A one-element array `[v]`: the list holds exactly the scanned value and its size. */
  lemma SingletonArray(s: string, i: nat)
    requires i + 1 < |s| && s[i] == '[' && !IsWhitespace(s[i + 1]) && s[i + 1] != ']'
    requires ScanValue(s, i + 1).Scanned?
    requires ScanValue(s, i + 1).cursor < |s| && s[ScanValue(s, i + 1).cursor] == ']'
    ensures var v := ScanValue(s, i + 1);
      ScanArray(s, i) == Scanned(Array([Blob(v.value, v.size)]), ListSize, v.cursor + 1)
  {
    var v := ScanValue(s, i + 1);
    assert ArrayLoop(s, i + 1, ArrFirst, []) == ArrayElement(s, i + 1, []);
    assert [] + [Blob(v.value, v.size)] == [Blob(v.value, v.size)];
    assert ArrayLoop(s, v.cursor, ArrNext, [Blob(v.value, v.size)]) == Scanned(Array([Blob(v.value, v.size)]), ListSize, v.cursor + 1);
  }

  /** A one-member object `{"k":v}`: the table is the empty table with that one member inserted. */
  lemma SingletonObject(s: string, i: nat, key: string, kc: nat, val: Value, size: nat, vc: nat)
    requires i + 1 < |s| && s[i] == '{'
    requires ScanString(s, i + 1) == Scanned(Str(key), |key| + 1, kc)
    requires kc + 1 < |s| && s[kc] == ':' && !IsWhitespace(s[kc + 1])
    requires ScanValue(s, kc + 1) == Scanned(val, size, vc)
    requires vc < |s| && s[vc] == '}'
    ensures ScanObject(s, i) == Scanned(Object(Insert(EmptyBuckets(), key, val, size)), TableSize, vc + 1)
  {
    var e := EmptyBuckets<Value>();
    OpenStep(s, i);
    KeyColonStep(s, i + 1, e, key, kc);
    ValueStep(s, kc + 1, key, e, val, size, vc);
    CloseStep(s, vc, Insert(e, key, val, size));
  }

  /** In the table of `{"k":v}`, looking the key up finds the scanned value. */
  lemma SingletonObjectLookup(s: string, i: nat, key: string, kc: nat, val: Value, size: nat, vc: nat)
    requires i + 1 < |s| && s[i] == '{'
    requires ScanString(s, i + 1) == Scanned(Str(key), |key| + 1, kc)
    requires kc + 1 < |s| && s[kc] == ':' && !IsWhitespace(s[kc + 1])
    requires ScanValue(s, kc + 1) == Scanned(val, size, vc)
    requires vc < |s| && s[vc] == '}'
    ensures ScanObject(s, i).Scanned? && Lookup(ScanObject(s, i).value.buckets, key) == Some(val)
  {
    SingletonObject(s, i, key, kc, val, size, vc);
    LookupInsertSame(EmptyBuckets<Value>(), key, val, size);
  }

  /** At an opening brace, the object machine waits for the first key with an empty table. */
  lemma OpenStep(s: string, i: nat)
    requires i < |s| && s[i] == '{'
    ensures ScanObject(s, i) == ObjectLoop(s, i + 1, ObjKey, EmptyBuckets())
  {
  }

  /** After a member, `}` closes the object with the table built so far. */
  lemma CloseStep(s: string, it: nat, table: Table)
    requires |table| == BUCKETS && it < |s| && s[it] == '}'
    ensures ObjectLoop(s, it, ObjNext, table) == Scanned(Object(table), TableSize, it + 1)
  {
  }

  /** Waiting for a key, `}` closes the object, so a comma before `}` is accepted. */
  lemma ObjectTrailingCommaExample()
    ensures ScanObject("{\"a\":1,}", 0).Scanned?
  {
    var s := "{\"a\":1,}";
    assert s[1] == '"' && s[2] == 'a' && s[3] == '"';
    OneLetterKey(s, 1);
    assert s[5] == '1' && s[6] == ',';
    OneDigitValue(s, 5);
    var e := EmptyBuckets<Value>();
    var t := Insert(e, "a", Int(1), WordSize);
    OpenStep(s, 0);
    KeyColonStep(s, 1, e, "a", 4);
    ValueStep(s, 5, "a", e, Int(1), WordSize, 6);
    assert ObjectLoop(s, 6, ObjNext, t) == ObjectLoop(s, 7, ObjKey, t);
    assert ObjectLoop(s, 7, ObjKey, t) == Scanned(Object(t), TableSize, 8);
  }

  /** Waiting for a key: a quoted key and a colon right after it lead to waiting for that key's value. */
  lemma KeyColonStep(s: string, it: nat, table: Table, key: string, kc: nat)
    requires |table| == BUCKETS && it < |s| && s[it] == '"'
    requires ScanString(s, it) == Scanned(Str(key), |key| + 1, kc)
    requires kc < |s| && s[kc] == ':'
    ensures ObjectLoop(s, it, ObjKey, table) == ObjectLoop(s, kc + 1, ObjValue(key), table)
  {
    KeyStep(s, it, table);
  }

  /** Waiting for a value: a value there is inserted under the key, and the machine waits for `,` or `}`. */
  lemma ValueStep(s: string, it: nat, key: string, table: Table, val: Value, size: nat, vc: nat)
    requires |table| == BUCKETS && it < |s| && !IsWhitespace(s[it])
    requires ScanValue(s, it) == Scanned(val, size, vc)
    ensures ObjectLoop(s, it, ObjValue(key), table) == ObjectLoop(s, vc, ObjNext, Insert(table, key, val, size))
  {
  }

  /** The input `{"a":1,"a":2}`. */
  const DuplicateKeyText: string := "{\"a\":1,\"a\":2}"

  /** The keys and values of `{"a":1,"a":2}`, each where the object loop finds it. */
  lemma DuplicateKeyScans(s: string)
    requires s == DuplicateKeyText
    ensures FirstBrace(s) == 0
    ensures ScanString(s, 1) == Scanned(Str("a"), 2, 4)
    ensures ScanValue(s, 5) == Scanned(Int(1), WordSize, 6)
    ensures ScanString(s, 7) == Scanned(Str("a"), 2, 10)
    ensures ScanValue(s, 11) == Scanned(Int(2), WordSize, 12)
  {
    assert s[0] == '{' && s[1] == '"' && s[2] == 'a' && s[3] == '"';
    OneLetterKey(s, 1);
    assert s[5] == '1' && s[6] == ',';
    OneDigitValue(s, 5);
    assert s[7] == '"' && s[8] == 'a' && s[9] == '"';
    OneLetterKey(s, 7);
    assert s[11] == '2' && s[12] == '}';
    OneDigitValue(s, 11);
  }

  /** `{"a":1,"a":2}` stores both members, the second one over the first. */
  lemma DuplicateKeyTable(s: string, t0: Table)
    requires s == DuplicateKeyText && t0 == EmptyBuckets()
    ensures ParsedTable(s) ==
      Some(Insert(Insert(t0, "a", Int(1), WordSize), "a", Int(2), WordSize))
  {
    DuplicateKeyScans(s);
    InsertShape(t0, "a", Int(1), WordSize);
    var t1 := Insert(t0, "a", Int(1), WordSize);
    var t2 := Insert(t1, "a", Int(2), WordSize);
    KeyColonStep(s, 1, t0, "a", 4);
    ValueStep(s, 5, "a", t0, Int(1), WordSize, 6);
    KeyColonStep(s, 7, t1, "a", 10);
    ValueStep(s, 11, "a", t1, Int(2), WordSize, 12);
    assert ObjectLoop(s, 6, ObjNext, t1) == ObjectLoop(s, 7, ObjKey, t1);
    assert ObjectLoop(s, 12, ObjNext, t2) == Scanned(Object(t2), TableSize, 13);
    assert ScanObject(s, 0) == ObjectLoop(s, 1, ObjKey, t0);
  }

  /** A key given twice keeps the value stored last. */
  lemma DuplicateKeyExample(s: string)
    requires s == DuplicateKeyText
    ensures ParsedTable(s).Some?
    ensures Lookup(ParsedTable(s).value, "a") == Some(Int(2))
  {
    var t0 := EmptyBuckets<Value>();
    DuplicateKeyTable(s, t0);
    InsertShape(t0, "a", Int(1), WordSize);
    LookupInsertSame(Insert(t0, "a", Int(1), WordSize), "a", Int(2), WordSize);
  }
  /** A key that the input cuts off before its colon is dropped, and the object is still accepted. */
  lemma TruncatedObjectExample(s: string)
    requires s == "{\"a\""
    ensures ParsedTable(s) == Some(EmptyBuckets())
  {
    var e := EmptyBuckets<Value>();
    assert s[0] == '{' && s[1] == '"' && s[2] == 'a' && s[3] == '"';
    OneLetterKey(s, 1);
    OpenStep(s, 0);
    KeyStep(s, 1, e);
    assert ObjectLoop(s, 4, ObjColon("a"), e) == Scanned(Object(e), TableSize, 5);
  }

  /** Waiting for a key, a stray character is skipped: `{x}` is an empty object. */
  lemma StrayCharacterExample(s: string)
    requires s == "{x}"
    ensures ParsedTable(s) == Some(EmptyBuckets())
  {
    var e := EmptyBuckets<Value>();
    assert s[0] == '{' && s[1] == 'x' && s[2] == '}';
    OpenStep(s, 0);
    assert ObjectLoop(s, 1, ObjKey, e) == ObjectLoop(s, 2, ObjKey, e);
  }

  /**
    A malformed `null` is an element all the same: in `[nul]` the mismatch
    at `]` stores the all-ones pointer with size 8 and consumes the bracket,
    after which the input ends and the array is accepted.
  */
  lemma MalformedNullExample(s: string)
    requires s == "[nul]"
    ensures ScanArray(s, 0) == Scanned(Array([Blob(NullMismatch, WordSize)]), ListSize, 6)
  {
    assert s[0] == '[' && s[1] == 'n' && s[2] == 'u' && s[3] == 'l' && s[4] == ']';
    assert s[1..4] == "null"[..3];
    CommonPrefixUnique(s, 1, "null", 3);
    assert ScanValue(s, 1) == Scanned(NullMismatch, WordSize, 5);
    assert ArrayLoop(s, 1, ArrFirst, []) == ArrayElement(s, 1, []);
    assert [] + [Blob(NullMismatch, WordSize)] == [Blob(NullMismatch, WordSize)];
  }
  /** A leading zero followed by a digit, a point or marker without digits, and a number the input cuts off are all rejected. */
  lemma NumberRejections()
    ensures ScanNumber("01,", 0) == Failed
    ensures ScanNumber("1.,", 0) == Failed
    ensures ScanNumber("1e,", 0) == Failed
    ensures ScanNumber("12", 0) == Failed
  {
    assert NumberEnd("01,", 0) == None;
    assert NumberEnd("1.,", 0) == None;
    assert NumberEnd("1e,", 0) == None;
    assert NumberEnd("12", 0) == None;
  }

  /** A number with a fraction or an exponent is kept as its text. */
  lemma DoubleAcceptance()
    ensures ScanNumber("-0.5e+3]", 0) == Scanned(Double("-0.5e+3"), WordSize, 7)
  {
    assert NumberEnd("-0.5e+3]", 0) == Some(Ending(7, true));
  }

  /** A number without a fraction or an exponent is read as an integer; the delimiter is not part of it. */
  lemma IntegerAcceptance()
    ensures ScanNumber("-12 ", 0) == Scanned(Int(-12), WordSize, 3)
  {
    assert NumberEnd("-12 ", 0) == Some(Ending(3, false));
    assert "-12 "[0..3] == "-12";
    assert DecimalValue("-12") == -DigitsValue("12");
    assert DigitsValue("12") == 10 * DigitsValue("1") + 2;
  }
}
