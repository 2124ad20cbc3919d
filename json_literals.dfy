/**
  `parse_bool` and `parse_null`: the scanners for the literals `true`,
  `false` and `null`.  Neither looks at the character after the literal.
*/
module JsonLiterals {
  import opened JsonValues

  /** Whether `lit` is spelled at `i`. */
  predicate SpelledAt(s: string, i: nat, lit: string)
  {
    i + |lit| <= |s| && s[i..i + |lit|] == lit
  }

  /** The outcome of `parse_bool(s + i, ...)`: the stored 64-bit 1 or 0, size 8, cursor just past the literal. */
  function ScanBool(s: string, i: nat): (r: Scan)
    ensures r.Scanned? <==> SpelledAt(s, i, "true") || SpelledAt(s, i, "false")
    ensures r.Scanned? ==> r.size == WordSize && r.value.Bool?
    ensures r.Scanned? && r.value.b ==> SpelledAt(s, i, "true") && r.cursor == i + 4
    ensures r.Scanned? && !r.value.b ==> SpelledAt(s, i, "false") && r.cursor == i + 5
  {
    if SpelledAt(s, i, "true") then Scanned(Bool(true), WordSize, i + 4)
    else if SpelledAt(s, i, "false") then Scanned(Bool(false), WordSize, i + 5)
    else Failed
  }

  /**
    The states of the `parse_bool` machine: S0 is `BoolStart`, S1 to S3 are
    `TrueMatched(1)` to `TrueMatched(3)`, S4 to S7 are `FalseMatched(1)` to
    `FalseMatched(4)`.
  */
  datatype BoolState = BoolStart | TrueMatched(n: nat) | FalseMatched(n: nat)

  /** One more matching character extends a matched prefix of `lit`. */
  lemma PrefixGrows(s: string, i: nat, lit: string, n: nat)
    requires n < |lit| && i + n < |s| && s[i..i + n] == lit[..n] && s[i + n] == lit[n]
    ensures s[i..i + n + 1] == lit[..n + 1]
  {
    assert s[i..i + n + 1] == s[i..i + n] + [s[i + n]];
    assert lit[..n + 1] == lit[..n] + [lit[n]];
  }

  /** A spelled literal has its `n`-th character at `i + n`. */
  lemma SpelledChar(s: string, i: nat, lit: string, n: nat)
    requires n < |lit|
    ensures SpelledAt(s, i, lit) ==> i + n < |s| && s[i + n] == lit[n]
  {
    if SpelledAt(s, i, lit) {
      assert s[i + n] == s[i..i + |lit|][n];
    }
  }

  /** How far the `parse_bool` machine has got: the start of the literal it is in. */
  ghost predicate BoolProgress(s: string, start: nat, it: nat, state: BoolState)
  {
    && start <= it
    && (state.BoolStart? ==> it == start)
    && (state.TrueMatched? ==>
          1 <= state.n <= 3 && it == start + state.n <= |s| && s[start..it] == "true"[..state.n] && s[start] == 't')
    && (state.FalseMatched? ==>
          1 <= state.n <= 4 && it == start + state.n <= |s| && s[start..it] == "false"[..state.n] && s[start] == 'f')
  }

  /** The character the machine needs next, if it is to stay inside a literal. */
  predicate BoolExpects(state: BoolState, c: char)
  {
    match state
    case BoolStart => c == 't' || c == 'f'
    case TrueMatched(n) => n < 4 && c == "true"[n]
    case FalseMatched(n) => n < 5 && c == "false"[n]
  }

  /** A character the machine does not expect means that neither literal is spelled at the start. */
  lemma BoolMismatch(s: string, start: nat, it: nat, state: BoolState)
    requires BoolProgress(s, start, it, state) && it < |s| && !BoolExpects(state, s[it])
    ensures ScanBool(s, start) == Failed
  {
    match state
    case BoolStart =>
      SpelledChar(s, start, "true", 0);
      SpelledChar(s, start, "false", 0);
    case TrueMatched(n) =>
      SpelledChar(s, start, "true", n);
      SpelledChar(s, start, "false", 0);
    case FalseMatched(n) =>
      SpelledChar(s, start, "true", 0);
      SpelledChar(s, start, "false", n);
  }

  /** Input that ends inside a literal means that neither literal is spelled at the start. */
  lemma BoolInputEnds(s: string, start: nat, it: nat, state: BoolState)
    requires BoolProgress(s, start, it, state) && it >= |s|
    ensures ScanBool(s, start) == Failed
  {
    match state
    case BoolStart =>
    case TrueMatched(n) =>
      SpelledChar(s, start, "false", 0);
    case FalseMatched(n) =>
      SpelledChar(s, start, "true", 0);
  }

  /** `parse_bool`: the state machine, matching one character of the literal per step. */
  method ParseBool(s: string, start: nat) returns (r: Scan)
    ensures r == ScanBool(s, start)
  {
    var state := BoolStart;
    var it := start;
    while it < |s|
      invariant BoolProgress(s, start, it, state)
      decreases |s| - it
    {
      var c := s[it];
      if !BoolExpects(state, c) {
        BoolMismatch(s, start, it, state);
        return Failed;
      }
      match state {
        case BoolStart =>
          assert s[start..it + 1] == [c];
          state := if c == 't' then TrueMatched(1) else FalseMatched(1);
        case TrueMatched(n) =>
          PrefixGrows(s, start, "true", n);
          if n == 3 {
            assert "true"[..4] == "true";
            return Scanned(Bool(true), WordSize, it + 1);
          }
          state := TrueMatched(n + 1);
        case FalseMatched(n) =>
          PrefixGrows(s, start, "false", n);
          if n == 4 {
            assert "false"[..5] == "false";
            return Scanned(Bool(false), WordSize, it + 1);
          }
          state := FalseMatched(n + 1);
      }
      it := it + 1;
    }
    BoolInputEnds(s, start, it, state);
    return Failed;
  }

  /** How many leading characters of `lit` are spelled at `i`: the length of the common prefix. */
  function CommonPrefix(s: string, i: nat, lit: string): (m: nat)
    ensures m <= |lit| && (i <= |s| ==> i + m <= |s|)
    ensures i + m <= |s| ==> s[i..i + m] == lit[..m]
    ensures m < |lit| ==> i + m >= |s| || s[i + m] != lit[m]
    decreases |lit|
  {
    if lit == [] || i >= |s| || s[i] != lit[0] then 0
    else 1 + CommonPrefix(s, i + 1, lit[1..])
  }

  /** The common prefix is the one length that matches and cannot be extended. */
  lemma {:induction false} CommonPrefixUnique(s: string, i: nat, lit: string, m: nat)
    requires m <= |lit| && i + m <= |s| && s[i..i + m] == lit[..m]
    requires m < |lit| ==> i + m >= |s| || s[i + m] != lit[m]
    ensures CommonPrefix(s, i, lit) == m
    decreases m
  {
    if m > 0 {
      assert s[i] == s[i..i + m][0];
      assert s[i + 1..i + m] == s[i..i + m][1..];
      assert lit[1..][..m - 1] == lit[..m][1..];
      CommonPrefixUnique(s, i + 1, lit[1..], m - 1);
    }
  }

  /**
    The outcome of `parse_null(s + i, ...)`.  The size is 8 whatever happens;
    on a mismatch the stored pointer is the all-ones value and the cursor is
    one past the first character that does not match (or past the end).
  */
  function ScanNull(s: string, i: nat): (r: Scan)
    ensures r.Scanned? && r.size == WordSize
    ensures r.value == Null <==> SpelledAt(s, i, "null")
    ensures r.value == Null ==> r.cursor == i + 4
    ensures r.value != Null ==> r.value == NullMismatch && i < r.cursor <= i + 4
    ensures r.value == NullMismatch ==> r.cursor == i + CommonPrefix(s, i, "null") + 1
  {
    var m := CommonPrefix(s, i, "null");
    if m == 4 then Scanned(Null, WordSize, i + 4) else Scanned(NullMismatch, WordSize, i + m + 1)
  }

  /** `parse_null`: the state machine; state Sk means that `k` characters of `null` have matched. */
  method ParseNull(s: string, start: nat) returns (r: Scan)
    ensures r == ScanNull(s, start)
  {
    var matched := 0;
    var it := start;
    while it < |s|
      invariant matched <= 3 && it == start + matched
      invariant matched > 0 ==> it <= |s|
      invariant start <= |s| ==> s[start..it] == "null"[..matched]
      decreases |s| - it
    {
      if s[it] != "null"[matched] {
        break;
      }
      PrefixGrows(s, start, "null", matched);
      if matched == 3 {
        CommonPrefixUnique(s, start, "null", 4);
        return Scanned(Null, WordSize, it + 1);
      }
      matched := matched + 1;
      it := it + 1;
    }
    if start <= |s| {
      CommonPrefixUnique(s, start, "null", matched);
    }
    return Scanned(NullMismatch, WordSize, it + 1);
  }
}
