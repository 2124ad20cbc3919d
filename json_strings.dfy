/**
  `parse_string`: the scanner for a quoted string.  The text between the
  quotes is kept verbatim; escape sequences are checked, not decoded.
*/
module JsonStrings {
  import opened Wrappers
  import opened JsonChars
  import opened JsonValues

  /**
    Where the body that starts at `j` is closed: the index of the first
    double quote that is not part of an escape sequence, or None when the
    body holds a malformed escape or the input ends first.
  */
  function StringEnd(s: string, j: nat): (r: Option<nat>)
    ensures r.Some? ==> j <= r.value < |s| && s[r.value] == '"'
    decreases |s| - j
  {
    if j >= |s| then None
    else if s[j] == '"' then Some(j)
    else if s[j] != '\\' then StringEnd(s, j + 1)
    else if j + 1 >= |s| then None
    else if s[j + 1] == 'u' then
      if j + 5 < |s| && IsHexDigit(s[j + 2]) && IsHexDigit(s[j + 3])
         && IsHexDigit(s[j + 4]) && IsHexDigit(s[j + 5])
      then StringEnd(s, j + 6)
      else None
    else if IsEscapable(s[j + 1]) then StringEnd(s, j + 2)
    else None
  }

  /**
    The outcome of `parse_string(s + i, ...)`: on success the verbatim body,
    the size `len` (body length + 1) and the cursor one past the closing quote.
  */
  function ScanString(s: string, i: nat): (r: Scan)
    ensures r.Scanned? ==>
      && i < |s| && s[i] == '"'
      && r.value.Str? && r.size == |r.value.text| + 1 && r.size > 0
      && i + 2 <= r.cursor <= |s| && s[r.cursor - 1] == '"'
      && r.value.text == s[i + 1..r.cursor - 1]
  {
    if i < |s| && s[i] == '"' then
      match StringEnd(s, i + 1)
      case Some(k) => Scanned(Str(s[i + 1..k]), k - i, k + 1)
      case None => Failed
    else Failed
  }

  // A reference grammar for string bodies, stated without any scanning.

  /** One unit of a string body: a plain character, a two-character escape, or `\u` and four hex digits. */
  predicate IsStringToken(tok: string)
  {
    || (|tok| == 1 && tok[0] != '"' && tok[0] != '\\')
    || (|tok| == 2 && tok[0] == '\\' && IsEscapable(tok[1]))
    || (|tok| == 6 && tok[0] == '\\' && tok[1] == 'u'
        && IsHexDigit(tok[2]) && IsHexDigit(tok[3]) && IsHexDigit(tok[4]) && IsHexDigit(tok[5]))
  }

  function Concat(toks: seq<string>): string
  {
    if toks == [] then [] else toks[0] + Concat(toks[1..])
  }

  predicate AllTokens(toks: seq<string>)
  {
    forall k :: 0 <= k < |toks| ==> IsStringToken(toks[k])
  }

  /** A string body is a sequence of tokens. */
  ghost predicate IsStringBody(t: string)
  {
    exists toks :: AllTokens(toks) && Concat(toks) == t
  }

  /** What `StringEnd` skips over splits into tokens. */
  lemma {:induction false} StringEndTokens(s: string, j: nat) returns (toks: seq<string>)
    requires StringEnd(s, j).Some?
    ensures AllTokens(toks) && Concat(toks) == s[j..StringEnd(s, j).value]
    decreases |s| - j
  {
    var k := StringEnd(s, j).value;
    if s[j] == '"' {
      toks := [];
    } else {
      var w := if s[j] != '\\' then 1 else if s[j + 1] == 'u' then 6 else 2;
      assert StringEnd(s, j + w) == StringEnd(s, j);
      var rest := StringEndTokens(s, j + w);
      toks := [s[j..j + w]] + rest;
      assert IsStringToken(s[j..j + w]);
      assert toks[1..] == rest;
      assert s[j..k] == s[j..j + w] + s[j + w..k];
    }
  }

  /** Skipping one token of the body does not change where the body is closed. */
  lemma StringEndSkipsToken(s: string, j: nat, tok: string)
    requires IsStringToken(tok)
    requires j + |tok| <= |s| && s[j..j + |tok|] == tok
    ensures StringEnd(s, j) == StringEnd(s, j + |tok|)
  {
    assert s[j] == tok[0];
    if |tok| == 2 {
      assert s[j + 1] == tok[1];
    } else if |tok| == 6 {
      assert s[j + 1] == tok[1] && s[j + 2] == tok[2] && s[j + 3] == tok[3];
      assert s[j + 4] == tok[4] && s[j + 5] == tok[5];
    }
  }

  /** A slice that spells `a + b` splits into a slice spelling `a` and one spelling `b`. */
  lemma SplitSlice(s: string, j: nat, w: nat, len: nat, a: string, b: string)
    requires j + len <= |s| && |a| == w && w + |b| == len
    requires s[j..j + len] == a + b
    ensures s[j..j + w] == a && s[j + w..j + len] == b
  {
    assert s[j..j + w] == s[j..j + len][..w];
    assert s[j + w..j + len] == s[j..j + len][w..];
  }

  /** A body made of tokens and closed by a quote is scanned up to exactly that quote. */
  lemma {:induction false} StringEndFromTokens(s: string, j: nat, toks: seq<string>)
    requires AllTokens(toks)
    requires j + |Concat(toks)| < |s|
    requires s[j..j + |Concat(toks)|] == Concat(toks)
    requires s[j + |Concat(toks)|] == '"'
    ensures StringEnd(s, j) == Some(j + |Concat(toks)|)
    decreases |toks|
  {
    if toks != [] {
      var tok := toks[0];
      var rest := Concat(toks[1..]);
      var t := Concat(toks);
      assert t == tok + rest;
      assert AllTokens(toks[1..]);
      SplitSlice(s, j, |tok|, |t|, tok, rest);
      StringEndSkipsToken(s, j, tok);
      StringEndFromTokens(s, j + |tok|, toks[1..]);
    }
  }

  /** A successful scan stores a well-formed body, verbatim, that ends at the first closing quote. */
  lemma ScanStringSound(s: string, i: nat)
    requires ScanString(s, i).Scanned?
    ensures IsStringBody(ScanString(s, i).value.text)
  {
    var toks := StringEndTokens(s, i + 1);
  }

  /** A quote, a well-formed body and a closing quote are always accepted, with that body as the text. */
  lemma ScanStringComplete(s: string, i: nat, toks: seq<string>)
    requires AllTokens(toks)
    requires i < |s| && s[i] == '"'
    requires i + 1 + |Concat(toks)| < |s|
    requires s[i + 1..i + 1 + |Concat(toks)|] == Concat(toks)
    requires s[i + 1 + |Concat(toks)|] == '"'
    ensures ScanString(s, i) ==
      Scanned(Str(Concat(toks)), |Concat(toks)| + 1, i + |Concat(toks)| + 2)
  {
    StringEndFromTokens(s, i + 1, toks);
  }

  /** The states of the `parse_string` machine: S0, S1, S2 and S3..S6 (hex digits seen so far). */
  datatype StringState = StrOpen | StrBody | StrEscape | StrHex(seen: nat)

  /** How far the machine has got, in terms of `StringEnd` from the start of the body. */
  ghost predicate StringProgress(s: string, start: nat, it: nat, state: StringState)
  {
    match state
    case StrOpen => it == start
    case StrBody =>
      && start < it <= |s| && s[start] == '"'
      && StringEnd(s, start + 1) == StringEnd(s, it)
    case StrEscape =>
      && start + 2 <= it <= |s| && s[start] == '"' && s[it - 1] == '\\'
      && StringEnd(s, start + 1) == StringEnd(s, it - 1)
    case StrHex(n) =>
      && n <= 3 && start + 3 + n <= it <= |s| && s[start] == '"'
      && s[it - n - 2] == '\\' && s[it - n - 1] == 'u'
      && (forall m :: it - n <= m < it ==> IsHexDigit(s[m]))
      && StringEnd(s, start + 1) == StringEnd(s, it - n - 2)
  }

  /** `parse_string`: the state machine over the buffer, from the opening quote to the closing one. */
  method ParseString(s: string, start: nat) returns (r: Scan)
    ensures r == ScanString(s, start)
  {
    var state := StrOpen;
    var it := start;
    while it < |s|
      invariant StringProgress(s, start, it, state)
      decreases |s| - it
    {
      match state {
        case StrOpen =>
          if s[it] == '"' {
            state := StrBody;
          } else {
            return Failed;
          }
        case StrBody =>
          if s[it] == '\\' {
            state := StrEscape;
          } else if s[it] == '"' {
            var len := it - start;
            return Scanned(Str(s[start + 1..it]), len, it + 1);
          } else {
            state := StrBody;
          }
        case StrEscape =>
          if s[it] == 'u' {
            state := StrHex(0);
          } else if IsEscapable(s[it]) {
            state := StrBody;
          } else {
            return Failed;
          }
        case StrHex(n) =>
          if IsHexDigit(s[it]) {
            state := if n < 3 then StrHex(n + 1) else StrBody;
          } else {
            return Failed;
          }
      }
      it := it + 1;
    }
    return Failed;
  }
}
