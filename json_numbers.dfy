/**
  `parse_number`: the scanner for a number.  A number is only accepted when a
  delimiter follows it; the cursor is left on that delimiter.  Whether the
  text passed through a fraction or an exponent decides between the double
  and the 64-bit integer representation.
*/
module JsonNumbers {
  import opened Wrappers
  import opened JsonChars
  import opened JsonValues

  /** The first index at or after `j` that does not hold a decimal digit (or the end of input). */
  function DigitsEnd(s: string, j: nat): (r: nat)
    requires j <= |s|
    ensures j <= r <= |s|
    ensures forall m :: j <= m < r ==> IsDecDigit(s[m])
    ensures r < |s| ==> !IsDecDigit(s[r])
    decreases |s| - j
  {
    if j < |s| && IsDecDigit(s[j]) then DigitsEnd(s, j + 1) else j
  }

  predicate IsExponentMarker(c: char)
  {
    c == 'e' || c == 'E'
  }

  /** The states of the `parse_number` machine, S0 to S9. */
  datatype NumberState =
    | NumStart       // S0: nothing read
    | NumSign        // S1: after the minus sign
    | NumZero        // S2: after a leading 0
    | NumLead        // S3: after a non-zero leading digit
    | NumDigits      // S4: inside the integer digits
    | NumPoint       // S5: after the decimal point
    | NumFraction    // S6: inside the fraction digits
    | NumExponent    // S7: after `e` or `E`
    | NumExpSign     // S8: after the exponent's sign
    | NumExpDigits   // S9: inside the exponent digits

  /** What one character does to the machine: move to a state, accept the number before it, or reject. */
  datatype NumberStep = Goto(next: NumberState) | Accept | Reject

  /** The `switch` of `parse_number` on the current state and character. */
  function NumberTransition(state: NumberState, c: char): (r: NumberStep)
    ensures r.Accept? ==> IsNumDelim(c) && (IsIntegerEnd(state) || state.NumLead? || IsFloatState(state))
  {
    match state
    case NumStart =>
      if c == '-' then Goto(NumSign)
      else if c == '0' then Goto(NumZero)
      else if IsPosDigit(c) then Goto(NumLead)
      else Reject
    case NumSign =>
      if c == '0' then Goto(NumZero)
      else if IsPosDigit(c) then Goto(NumLead)
      else Reject
    case NumZero =>
      if c == '.' then Goto(NumPoint)
      else if IsExponentMarker(c) then Goto(NumExponent)
      else if IsNumDelim(c) then Accept
      else Reject
    case NumLead =>
      if c == '.' then Goto(NumPoint)
      else if IsExponentMarker(c) then Goto(NumExponent)
      else if IsDecDigit(c) then Goto(NumDigits)
      else if IsNumDelim(c) then Accept
      else Reject
    case NumDigits =>
      if c == '.' then Goto(NumPoint)
      else if IsExponentMarker(c) then Goto(NumExponent)
      else if IsDecDigit(c) then Goto(NumDigits)
      else if IsNumDelim(c) then Accept
      else Reject
    case NumPoint =>
      if IsDecDigit(c) then Goto(NumFraction) else Reject
    case NumFraction =>
      if IsExponentMarker(c) then Goto(NumExponent)
      else if IsDecDigit(c) then Goto(NumFraction)
      else if IsNumDelim(c) then Accept
      else Reject
    case NumExponent =>
      if c == '-' || c == '+' then Goto(NumExpSign)
      else if IsDecDigit(c) then Goto(NumExpDigits)
      else Reject
    case NumExpSign =>
      if IsDecDigit(c) then Goto(NumExpDigits) else Reject
    case NumExpDigits =>
      if IsDecDigit(c) then Goto(NumExpDigits)
      else if IsNumDelim(c) then Accept
      else Reject
  }

  /** The states reached only after a point or an exponent marker has been read (`is_float` set). */
  predicate IsFloatState(state: NumberState)
  {
    state.NumFraction? || state.NumExpSign? || state.NumExpDigits?
  }

  /** The states in which `is_float` is still clear. */
  predicate IsIntegerState(state: NumberState)
  {
    state.NumStart? || state.NumSign? || state.NumZero? || state.NumLead? || state.NumDigits?
  }

  /** The states after a complete integer part from which the machine may accept (S2 and S4). */
  predicate IsIntegerEnd(state: NumberState)
  {
    state.NumZero? || state.NumDigits?
  }

  /** Where a number ends and whether it is stored as a double. */
  datatype Ending = Ending(cursor: nat, isFloat: bool)

  /** Accepting at `d`: the number ends there when a delimiter is there. */
  function Delimited(s: string, d: nat, isFloat: bool): (r: Option<Ending>)
    requires d <= |s|
    ensures r.Some? <==> d < |s| && IsNumDelim(s[d])
    ensures r.Some? ==> r.value.cursor == d && r.value.isFloat == isFloat
  {
    if d < |s| && IsNumDelim(s[d]) then Some(Ending(d, isFloat)) else None
  }

  /**
    The machine run from `state` at `it` to the end: the end of the number
    and the `is_float` flag when a delimiter is accepted, None when a
    character is rejected or the input ends first.
  */
  function NumberRun(s: string, it: nat, state: NumberState): (r: Option<Ending>)
    requires it <= |s|
    ensures r.Some? ==> it <= r.value.cursor < |s| && IsNumDelim(s[r.value.cursor])
    decreases |s| - it
  {
    if it == |s| then None
    else
      match NumberTransition(state, s[it])
      case Goto(next) => NumberRun(s, it + 1, next)
      case Accept => Some(Ending(it, IsFloatState(state)))
      case Reject => None
  }

  /** Where the number at `i` ends, when one starts there. */
  function NumberEnd(s: string, i: nat): (r: Option<Ending>)
    ensures r.Some? ==> i < r.value.cursor < |s| && IsNumDelim(s[r.value.cursor])
  {
    if i >= |s| then None else NumberRun(s, i, NumStart)
  }

  /**
    The outcome of `parse_number(s + i, ...)`: the text up to the delimiter,
    kept as a double when it passed through a fraction or an exponent and
    read as an integer otherwise; the cursor is left on the delimiter.
  */
  function ScanNumber(s: string, i: nat): (r: Scan)
    ensures r.Scanned? <==> NumberEnd(s, i).Some?
    ensures r.Scanned? ==>
      && i < r.cursor < |s| && IsNumDelim(s[r.cursor]) && r.size == WordSize
      && (r.value.Double? || r.value.Int?)
      && (r.value.Double? ==> r.value.literal == s[i..r.cursor])
      && (r.value.Int? ==> r.value.n == DecimalValue(s[i..r.cursor]))
  {
    match NumberEnd(s, i)
    case None => Failed
    case Some(e) =>
      var text := s[i..e.cursor];
      Scanned(if e.isFloat then Double(text) else Int(DecimalValue(text)), WordSize, e.cursor)
  }

  // A reference grammar for numbers, stated without any scanning.

  datatype ExponentSyntax = ExponentSyntax(marker: char, sign: string, digits: string)

  /** A number split into its parts: sign, integer part, optional fraction, optional exponent. */
  datatype NumberSyntax = NumberSyntax(
    minus: bool, integer: string, fraction: Option<string>, exponent: Option<ExponentSyntax>)

  predicate AllDigits(t: string)
  {
    forall m :: 0 <= m < |t| ==> IsDecDigit(t[m])
  }

  /** An integer part: a lone `0`, or a non-zero digit followed by digits. */
  predicate WellFormedInteger(t: string)
  {
    t == "0" || (|t| > 0 && IsPosDigit(t[0]) && AllDigits(t[1..]))
  }

  predicate WellFormedFraction(f: Option<string>)
  {
    f.Some? ==> |f.value| > 0 && AllDigits(f.value)
  }

  predicate WellFormedExponent(e: Option<ExponentSyntax>)
  {
    e.Some? ==>
      && IsExponentMarker(e.value.marker)
      && (e.value.sign == "" || e.value.sign == "-" || e.value.sign == "+")
      && |e.value.digits| > 0 && AllDigits(e.value.digits)
  }

  predicate WellFormedNumber(n: NumberSyntax)
  {
    WellFormedInteger(n.integer) && WellFormedFraction(n.fraction) && WellFormedExponent(n.exponent)
  }

  function SpellExponent(e: Option<ExponentSyntax>): string
  {
    match e
    case None => ""
    case Some(x) => [x.marker] + x.sign + x.digits
  }

  function SpellSign(n: NumberSyntax): string
  {
    if n.minus then "-" else ""
  }

  /** What follows the integer part: the fraction and the exponent. */
  function SpellTail(f: Option<string>, e: Option<ExponentSyntax>): string
  {
    match f
    case None => SpellExponent(e)
    case Some(d) => "." + d + SpellExponent(e)
  }

  /** The text of a number. */
  function Spell(n: NumberSyntax): string
  {
    SpellSign(n) + n.integer + SpellTail(n.fraction, n.exponent)
  }

  /** The numbers the scanner stores as a double: those with a fraction or an exponent. */
  predicate IsFloatSyntax(n: NumberSyntax)
  {
    n.fraction.Some? || n.exponent.Some?
  }

  /** The value a number of that syntax is stored as. */
  function StoredValue(n: NumberSyntax): Value
  {
    if IsFloatSyntax(n) then Double(Spell(n)) else Int(DecimalValue(Spell(n)))
  }

  // Facts about slices, kept apart from the machine.

  /** Slices spelling `x` and `z` around a middle slice join into one slice. */
  lemma JoinSlices(s: string, a: nat, b: nat, c: nat, d: nat, x: string, z: string)
    requires a <= b <= c <= d <= |s| && s[a..b] == x && s[c..d] == z
    ensures s[a..d] == x + s[b..c] + z
  {
    assert s[a..d] == s[a..c] + s[c..d];
    assert s[a..c] == s[a..b] + s[b..c];
  }

  /** A slice spelling `x + y` splits into a slice spelling each part. */
  lemma SplitSlice2(s: string, a: nat, x: string, y: string)
    requires a + |x + y| <= |s| && s[a..a + |x + y|] == x + y
    ensures s[a..a + |x|] == x && s[a + |x|..a + |x + y|] == y
  {
    var w := s[a..a + |x + y|];
    assert s[a..a + |x|] == w[..|x|];
    assert s[a + |x|..a + |x + y|] == w[|x|..];
  }

  /** A slice spelling `x + y + z` splits into slices spelling each part. */
  lemma SplitSlice3(s: string, a: nat, x: string, y: string, z: string)
    requires a + |x + y + z| <= |s| && s[a..a + |x + y + z|] == x + y + z
    ensures s[a..a + |x|] == x
    ensures s[a + |x|..a + |x| + |y|] == y
    ensures s[a + |x| + |y|..a + |x + y + z|] == z
  {
    SplitSlice2(s, a, x + y, z);
    SplitSlice2(s, a, x, y);
  }

  /** The characters under a slice that spells digits are digits. */
  lemma DigitsOfSlice(s: string, k: nat, t: string)
    requires k + |t| <= |s| && s[k..k + |t|] == t && AllDigits(t)
    ensures forall m :: k <= m < k + |t| ==> IsDecDigit(s[m])
  {
    forall m | k <= m < k + |t|
      ensures IsDecDigit(s[m])
    {
      assert s[m] == t[m - k];
    }
  }

  /** A stretch of digit characters spells digits. */
  lemma SliceDigits(s: string, a: nat, b: nat)
    requires a <= b <= |s| && forall m :: a <= m < b ==> IsDecDigit(s[m])
    ensures AllDigits(s[a..b])
  {
    forall m | 0 <= m < b - a
      ensures IsDecDigit(s[a..b][m])
    {
      assert s[a..b][m] == s[a + m];
    }
  }

  /** `DigitsEnd` stops exactly after a run of digits followed by a non-digit. */
  lemma {:induction false} DigitsEndAt(s: string, j: nat, d: nat)
    requires j <= d <= |s| && forall m :: j <= m < d ==> IsDecDigit(s[m])
    requires d < |s| ==> !IsDecDigit(s[d])
    ensures DigitsEnd(s, j) == d
    decreases d - j
  {
    if j < d {
      DigitsEndAt(s, j + 1, d);
    }
  }

  // The text of each part of the grammar, read off slices.

  /** An exponent's marker at `e`, its sign up to `k` and its digits up to `d`. */
  lemma ExponentText(s: string, e: nat, k: nat, d: nat, ex: Option<ExponentSyntax>)
    requires e < k <= d <= |s| && ex == Some(ExponentSyntax(s[e], s[e + 1..k], s[k..d]))
    ensures e + |SpellExponent(ex)| == d
    ensures s[e..e + |SpellExponent(ex)|] == SpellExponent(ex)
  {
    assert s[e..e + 1] == [s[e]];
    JoinSlices(s, e, e + 1, k, d, [s[e]], s[k..d]);
  }

  /** A point at `e`, its digits up to `f`, and an exponent spelled from `f`. */
  lemma FractionText(s: string, e: nat, f: nat, frac: Option<string>, ex: Option<ExponentSyntax>)
    requires e < f && f + |SpellExponent(ex)| <= |s| && s[e] == '.' && frac == Some(s[e + 1..f])
    requires s[f..f + |SpellExponent(ex)|] == SpellExponent(ex)
    ensures e + |SpellTail(frac, ex)| == f + |SpellExponent(ex)|
    ensures s[e..e + |SpellTail(frac, ex)|] == SpellTail(frac, ex)
  {
    assert s[e..e + 1] == ".";
    JoinSlices(s, e, e + 1, f, f + |SpellExponent(ex)|, ".", SpellExponent(ex));
  }

  /** A sign up to `k`, an integer part up to `e` and a tail spelled from `e`. */
  lemma NumberText(s: string, i: nat, k: nat, e: nat, n: NumberSyntax)
    requires i <= k <= e <= |s| && e + |SpellTail(n.fraction, n.exponent)| <= |s|
    requires s[i..k] == SpellSign(n) && n.integer == s[k..e]
    requires s[e..e + |SpellTail(n.fraction, n.exponent)|] == SpellTail(n.fraction, n.exponent)
    ensures i + |Spell(n)| == e + |SpellTail(n.fraction, n.exponent)|
    ensures s[i..i + |Spell(n)|] == Spell(n)
  {
    var tail := SpellTail(n.fraction, n.exponent);
    JoinSlices(s, i, k, e, e + |tail|, SpellSign(n), tail);
  }

  /** The characters of a spelled exponent. */
  lemma ExponentParts(s: string, e: nat, ex: Option<ExponentSyntax>)
    requires ex.Some? && WellFormedExponent(ex)
    requires e + |SpellExponent(ex)| <= |s| && s[e..e + |SpellExponent(ex)|] == SpellExponent(ex)
    ensures |SpellExponent(ex)| == 1 + |ex.value.sign| + |ex.value.digits|
    ensures s[e] == ex.value.marker && (ex.value.sign != "" ==> s[e + 1] == ex.value.sign[0])
    ensures forall m :: e + 1 + |ex.value.sign| <= m < e + |SpellExponent(ex)| ==> IsDecDigit(s[m])
  {
    var x := ex.value;
    var k := e + 1 + |x.sign|;
    SplitSlice3(s, e, [x.marker], x.sign, x.digits);
    assert s[e] == s[e..e + 1][0];
    if x.sign != "" {
      assert s[e + 1] == s[e + 1..k][0];
    }
    DigitsOfSlice(s, k, x.digits);
  }

  /** The characters of a spelled fraction and where its exponent is spelled. */
  lemma FractionParts(s: string, e: nat, frac: Option<string>, ex: Option<ExponentSyntax>)
    requires frac.Some? && WellFormedFraction(frac)
    requires e + |SpellTail(frac, ex)| <= |s| && s[e..e + |SpellTail(frac, ex)|] == SpellTail(frac, ex)
    ensures |SpellTail(frac, ex)| == 1 + |frac.value| + |SpellExponent(ex)|
    ensures s[e] == '.'
    ensures forall m :: e + 1 <= m < e + 1 + |frac.value| ==> IsDecDigit(s[m])
    ensures var f := e + 1 + |frac.value|; s[f..f + |SpellExponent(ex)|] == SpellExponent(ex)
  {
    SplitSlice3(s, e, ".", frac.value, SpellExponent(ex));
    assert s[e] == s[e..e + 1][0];
    DigitsOfSlice(s, e + 1, frac.value);
  }

  /** The characters of a spelled integer part. */
  lemma IntegerParts(s: string, k: nat, t: string)
    requires WellFormedInteger(t) && k + |t| <= |s| && s[k..k + |t|] == t
    ensures s[k] == t[0]
    ensures forall m :: k + 1 <= m < k + |t| ==> IsDecDigit(s[m])
  {
    assert s[k] == s[k..k + |t|][0];
    assert t == [t[0]] + t[1..];
    SplitSlice2(s, k, [t[0]], t[1..]);
    DigitsOfSlice(s, k + 1, t[1..]);
  }

  // How the machine moves over the parts of a number.

  /** The looping states S4, S6 and S9 pass over a run of digits unchanged. */
  lemma {:induction false} DigitsRun(s: string, j: nat, state: NumberState)
    requires j <= |s| && (state.NumDigits? || state.NumFraction? || state.NumExpDigits?)
    ensures NumberRun(s, j, state) == NumberRun(s, DigitsEnd(s, j), state)
    decreases |s| - j
  {
    if j < |s| && IsDecDigit(s[j]) {
      assert NumberRun(s, j, state) == NumberRun(s, j + 1, state);
      DigitsRun(s, j + 1, state);
    }
  }

  /** S3, after the first non-zero digit, behaves exactly as S4. */
  lemma LeadIsDigits(s: string, j: nat)
    requires j <= |s|
    ensures NumberRun(s, j, NumLead) == NumberRun(s, j, NumDigits)
  {
    if j < |s| {
      assert NumberTransition(NumLead, s[j]) == NumberTransition(NumDigits, s[j]);
    }
  }

  /** S4 at a non-digit behaves exactly as S2. */
  lemma DigitsEndIsZero(s: string, j: nat)
    requires j <= |s| && (j < |s| ==> !IsDecDigit(s[j]))
    ensures NumberRun(s, j, NumDigits) == NumberRun(s, j, NumZero)
  {
    if j < |s| {
      assert NumberTransition(NumDigits, s[j]) == NumberTransition(NumZero, s[j]);
    }
  }

  /** S0 at anything but a minus sign behaves exactly as S1. */
  lemma StartIsSign(s: string, j: nat)
    requires j < |s| && s[j] != '-'
    ensures NumberRun(s, j, NumStart) == NumberRun(s, j, NumSign)
  {
    assert NumberTransition(NumStart, s[j]) == NumberTransition(NumSign, s[j]);
  }

  /** S9 from `j`: a run of digits, then the delimiter. */
  lemma ExponentDigitsRun(s: string, j: nat)
    requires j <= |s|
    ensures NumberRun(s, j, NumExpDigits) == Delimited(s, DigitsEnd(s, j), true)
  {
    DigitsRun(s, j, NumExpDigits);
  }

  /** S7 after the marker: an optional sign, a digit, then S9. */
  lemma ExponentRun(s: string, j: nat) returns (k: nat)
    requires j <= |s| && NumberRun(s, j, NumExponent).Some?
    ensures k == j || (k == j + 1 && (s[j] == '-' || s[j] == '+'))
    ensures k < |s| && IsDecDigit(s[k]) && k < DigitsEnd(s, k)
    ensures NumberRun(s, j, NumExponent) == Delimited(s, DigitsEnd(s, k), true)
  {
    k := if s[j] == '-' || s[j] == '+' then j + 1 else j;
    assert NumberRun(s, j, NumExponent) == NumberRun(s, k + 1, NumExpDigits);
    assert DigitsEnd(s, k) == DigitsEnd(s, k + 1);
    ExponentDigitsRun(s, k + 1);
  }

  /** S5 at `j`: a digit, from which S6 takes over. */
  lemma PointRun(s: string, j: nat)
    requires j <= |s| && NumberRun(s, j, NumPoint).Some?
    ensures j < |s| && IsDecDigit(s[j]) && j < DigitsEnd(s, j)
    ensures NumberRun(s, j, NumPoint) == NumberRun(s, j, NumFraction)
  {
    assert NumberRun(s, j, NumPoint) == NumberRun(s, j + 1, NumFraction);
  }

  /** S6 from `j`: a run of digits, then an exponent marker or the delimiter. */
  lemma FractionRun(s: string, j: nat)
    requires j <= |s|
    ensures NumberRun(s, j, NumFraction) == NumberRun(s, DigitsEnd(s, j), NumFraction)
  {
    DigitsRun(s, j, NumFraction);
  }

  /** S2 from `j`: a point, an exponent marker or the delimiter. */
  lemma ZeroRun(s: string, j: nat)
    requires j <= |s|
    ensures NumberRun(s, j, NumZero) ==
      if j < |s| && s[j] == '.' then NumberRun(s, j + 1, NumPoint)
      else if j < |s| && IsExponentMarker(s[j]) then NumberRun(s, j + 1, NumExponent)
      else Delimited(s, j, false)
  {
  }

  /** S1 from `k`: a lone `0` leads to S2, a non-zero digit and its run to S4 at the end of the run, which acts as S2. */
  lemma SignRun(s: string, k: nat) returns (e: nat)
    requires k < |s| && (s[k] == '0' || IsPosDigit(s[k]))
    ensures k < e <= |s| && NumberRun(s, k, NumSign) == NumberRun(s, e, NumZero)
    ensures (e == k + 1 && s[k] == '0') || (IsPosDigit(s[k]) && e == DigitsEnd(s, k + 1))
  {
    if s[k] == '0' {
      e := k + 1;
    } else {
      assert NumberRun(s, k, NumSign) == NumberRun(s, k + 1, NumLead);
      LeadIsDigits(s, k + 1);
      DigitsRun(s, k + 1, NumDigits);
      e := DigitsEnd(s, k + 1);
      DigitsEndIsZero(s, e);
    }
  }

  // Where the parts of an accepted number lie in the input.

  /**
    The positions of an accepted number that starts at `i`: the integer part
    is `[k, e)`, the fraction digits `(e, f)`, the exponent sign `(f, m)`, the
    exponent digits `[m, d)`, and the delimiter is at `d`.  An absent
    fraction has `f == e`, an absent exponent `m == d == f`.
  */
  datatype Layout = Layout(k: nat, e: nat, f: nat, m: nat, d: nat)

  predicate DigitsBetween(s: string, a: nat, b: nat)
  {
    a <= b <= |s| && forall p :: a <= p < b ==> IsDecDigit(s[p])
  }

  predicate IntegerLaidOut(s: string, k: nat, e: nat)
  {
    k < e <= |s| && ((e == k + 1 && s[k] == '0') || (IsPosDigit(s[k]) && DigitsBetween(s, k + 1, e)))
  }

  predicate ExponentLaidOut(s: string, f: nat, m: nat, d: nat)
  {
    && f < m < d < |s| && IsExponentMarker(s[f])
    && (m == f + 1 || (m == f + 2 && (s[f + 1] == '-' || s[f + 1] == '+')))
    && DigitsBetween(s, m, d) && IsNumDelim(s[d])
  }

  /** What is left after the digits before `f`: the delimiter, or an exponent and then the delimiter. */
  predicate EndLaidOut(s: string, f: nat, m: nat, d: nat)
  {
    (f == m == d && d < |s| && IsNumDelim(s[d])) || ExponentLaidOut(s, f, m, d)
  }

  /** What is left after the integer part, which ends at `e`. */
  predicate TailLaidOut(s: string, e: nat, f: nat, m: nat, d: nat)
  {
    || (f == e && EndLaidOut(s, e, m, d))
    || (e + 1 < f <= |s| && s[e] == '.' && DigitsBetween(s, e + 1, f) && EndLaidOut(s, f, m, d))
  }

  predicate LaidOut(s: string, i: nat, L: Layout)
  {
    && i <= L.k <= i + 1 && L.k < |s| && (L.k == i + 1 <==> s[i] == '-')
    && IntegerLaidOut(s, L.k, L.e) && TailLaidOut(s, L.e, L.f, L.m, L.d)
  }

  // What the machine accepts is laid out so.

  lemma ExponentRunSound(s: string, f: nat) returns (m: nat, d: nat)
    requires f < |s| && IsExponentMarker(s[f]) && NumberRun(s, f + 1, NumExponent).Some?
    ensures ExponentLaidOut(s, f, m, d) && NumberRun(s, f + 1, NumExponent) == Some(Ending(d, true))
  {
    m := ExponentRun(s, f + 1);
    d := DigitsEnd(s, m);
  }

  lemma FractionEndSound(s: string, f: nat) returns (m: nat, d: nat)
    requires f <= |s| && (f < |s| ==> !IsDecDigit(s[f])) && NumberRun(s, f, NumFraction).Some?
    ensures EndLaidOut(s, f, m, d) && NumberRun(s, f, NumFraction) == Some(Ending(d, true))
  {
    if f < |s| && IsExponentMarker(s[f]) {
      assert NumberRun(s, f, NumFraction) == NumberRun(s, f + 1, NumExponent);
      m, d := ExponentRunSound(s, f);
    } else {
      m, d := f, f;
      assert NumberRun(s, f, NumFraction) == Delimited(s, f, true);
    }
  }

  lemma TailSound(s: string, e: nat) returns (f: nat, m: nat, d: nat)
    requires e <= |s| && NumberRun(s, e, NumZero).Some?
    ensures TailLaidOut(s, e, f, m, d) && NumberRun(s, e, NumZero) == Some(Ending(d, d > e))
  {
    ZeroRun(s, e);
    if s[e] == '.' {
      PointRun(s, e + 1);
      FractionRun(s, e + 1);
      f := DigitsEnd(s, e + 1);
      m, d := FractionEndSound(s, f);
    } else if IsExponentMarker(s[e]) {
      f := e;
      m, d := ExponentRunSound(s, e);
    } else {
      f, m, d := e, e, e;
    }
  }

  lemma IntegerRunSound(s: string, k: nat) returns (e: nat)
    requires k <= |s| && NumberRun(s, k, NumSign).Some?
    ensures IntegerLaidOut(s, k, e) && NumberRun(s, k, NumSign) == NumberRun(s, e, NumZero)
  {
    assert k < |s| && (s[k] == '0' || IsPosDigit(s[k]));
    e := SignRun(s, k);
  }

  /** Every accepted number is laid out as the grammar's parts, and is a double exactly when it has a fraction or an exponent. */
  lemma LayoutSound(s: string, i: nat) returns (L: Layout)
    requires NumberEnd(s, i).Some?
    ensures LaidOut(s, i, L) && NumberEnd(s, i) == Some(Ending(L.d, L.d > L.e))
  {
    var k := if s[i] == '-' then i + 1 else i;
    if s[i] == '-' {
      assert NumberRun(s, i, NumStart) == NumberRun(s, k, NumSign);
    } else {
      StartIsSign(s, i);
    }
    var e := IntegerRunSound(s, k);
    var f, m, d := TailSound(s, e);
    L := Layout(k, e, f, m, d);
  }

  // Whatever is laid out so is accepted.

  lemma ExponentRunComplete(s: string, f: nat, m: nat, d: nat)
    requires ExponentLaidOut(s, f, m, d)
    ensures NumberRun(s, f + 1, NumExponent) == Some(Ending(d, true))
  {
    ClassRelations(s[d]);
    DigitsEndAt(s, m + 1, d);
    assert NumberRun(s, f + 1, NumExponent) == NumberRun(s, m + 1, NumExpDigits);
    ExponentDigitsRun(s, m + 1);
  }

  lemma FractionEndComplete(s: string, f: nat, m: nat, d: nat)
    requires EndLaidOut(s, f, m, d)
    ensures f < |s| && !IsDecDigit(s[f])
    ensures NumberRun(s, f, NumFraction) == Some(Ending(d, true))
  {
    ClassRelations(s[f]);
    if d != f {
      ExponentRunComplete(s, f, m, d);
      assert NumberRun(s, f, NumFraction) == NumberRun(s, f + 1, NumExponent);
    }
  }

  lemma TailComplete(s: string, e: nat, f: nat, m: nat, d: nat)
    requires TailLaidOut(s, e, f, m, d)
    ensures e < |s| && !IsDecDigit(s[e])
    ensures NumberRun(s, e, NumZero) == Some(Ending(d, d > e))
  {
    ZeroRun(s, e);
    ClassRelations(s[e]);
    if f == e {
      if d != e {
        ExponentRunComplete(s, e, m, d);
      }
    } else {
      FractionEndComplete(s, f, m, d);
      DigitsEndAt(s, e + 2, f);
      assert NumberRun(s, e + 1, NumPoint) == NumberRun(s, e + 2, NumFraction);
      DigitsRun(s, e + 2, NumFraction);
    }
  }

  lemma IntegerRunComplete(s: string, k: nat, e: nat)
    requires IntegerLaidOut(s, k, e) && e < |s| && !IsDecDigit(s[e])
    ensures NumberRun(s, k, NumSign) == NumberRun(s, e, NumZero)
  {
    var e' := SignRun(s, k);
    if s[k] != '0' {
      DigitsEndAt(s, k + 1, e);
    }
  }

  /** Every number laid out as the grammar's parts is accepted, as a double exactly when it has a fraction or an exponent. */
  lemma LayoutComplete(s: string, i: nat, L: Layout)
    requires LaidOut(s, i, L)
    ensures NumberEnd(s, i) == Some(Ending(L.d, L.d > L.e))
  {
    TailComplete(s, L.e, L.f, L.m, L.d);
    IntegerRunComplete(s, L.k, L.e);
    if s[i] == '-' {
      assert NumberRun(s, i, NumStart) == NumberRun(s, L.k, NumSign);
    } else {
      StartIsSign(s, i);
    }
  }

  // Layouts and the grammar describe the same texts.

  /** The number of the grammar a layout spells. */
  function SyntaxOf(s: string, i: nat, L: Layout): (n: NumberSyntax)
    requires LaidOut(s, i, L)
    ensures n.minus <==> L.k == i + 1
    ensures n.fraction.Some? <==> L.f > L.e
    ensures n.exponent.Some? <==> L.d > L.f
  {
    NumberSyntax(
      L.k == i + 1,
      s[L.k..L.e],
      if L.f > L.e then Some(s[L.e + 1..L.f]) else None,
      if L.d > L.f then Some(ExponentSyntax(s[L.f], s[L.f + 1..L.m], s[L.m..L.d])) else None)
  }

  /** The exponent a layout's end spells, if any. */
  lemma EndText(s: string, f: nat, m: nat, d: nat, ex: Option<ExponentSyntax>)
    requires EndLaidOut(s, f, m, d)
    requires ex == if d > f then Some(ExponentSyntax(s[f], s[f + 1..m], s[m..d])) else None
    ensures WellFormedExponent(ex)
    ensures f + |SpellExponent(ex)| == d && s[f..f + |SpellExponent(ex)|] == SpellExponent(ex)
  {
    if d > f {
      SliceDigits(s, m, d);
      ExponentText(s, f, m, d, ex);
    } else {
      assert s[f..d] == [];
    }
  }

  /** The fraction and exponent a layout's tail spells. */
  lemma TailText(s: string, e: nat, f: nat, m: nat, d: nat, frac: Option<string>, ex: Option<ExponentSyntax>)
    requires TailLaidOut(s, e, f, m, d)
    requires frac == if f > e then Some(s[e + 1..f]) else None
    requires ex == if d > f then Some(ExponentSyntax(s[f], s[f + 1..m], s[m..d])) else None
    ensures WellFormedFraction(frac) && WellFormedExponent(ex)
    ensures e + |SpellTail(frac, ex)| == d && s[e..e + |SpellTail(frac, ex)|] == SpellTail(frac, ex)
  {
    EndText(s, f, m, d, ex);
    if f > e {
      SliceDigits(s, e + 1, f);
      FractionText(s, e, f, frac, ex);
    }
  }

  /** The integer part a layout spells. */
  lemma IntegerText(s: string, k: nat, e: nat)
    requires IntegerLaidOut(s, k, e)
    ensures WellFormedInteger(s[k..e])
  {
    if s[k] != '0' {
      SliceDigits(s, k + 1, e);
      assert s[k..e][1..] == s[k + 1..e];
    }
  }

  /** A layout spells a well-formed number whose text is the input from `i` to the delimiter. */
  lemma SyntaxOfLayout(s: string, i: nat, L: Layout) returns (n: NumberSyntax)
    requires LaidOut(s, i, L)
    ensures n == SyntaxOf(s, i, L) && WellFormedNumber(n)
    ensures i + |Spell(n)| == L.d && s[i..i + |Spell(n)|] == Spell(n)
  {
    n := SyntaxOf(s, i, L);
    TailText(s, L.e, L.f, L.m, L.d, n.fraction, n.exponent);
    IntegerText(s, L.k, L.e);
    if L.k == i + 1 {
      assert s[i..L.k] == [s[i]];
    }
    assert s[i..L.k] == SpellSign(n);
    NumberText(s, i, L.k, L.e, n);
  }

  /** The three parts of a spelled number, each at its place. */
  lemma SpelledParts(s: string, i: nat, n: NumberSyntax)
    requires i + |Spell(n)| <= |s| && s[i..i + |Spell(n)|] == Spell(n)
    ensures |Spell(n)| == |SpellSign(n)| + |n.integer| + |SpellTail(n.fraction, n.exponent)|
    ensures s[i..i + |SpellSign(n)|] == SpellSign(n)
    ensures s[i + |SpellSign(n)|..i + |SpellSign(n)| + |n.integer|] == n.integer
    ensures s[i + |SpellSign(n)| + |n.integer|..i + |Spell(n)|] == SpellTail(n.fraction, n.exponent)
  {
    SplitSlice3(s, i, SpellSign(n), n.integer, SpellTail(n.fraction, n.exponent));
  }

  /** What follows the digits of a spelled number is laid out as an exponent, if any, and the delimiter. */
  lemma EndOfSyntax(s: string, f: nat, ex: Option<ExponentSyntax>) returns (m: nat)
    requires WellFormedExponent(ex)
    requires f + |SpellExponent(ex)| < |s| && s[f..f + |SpellExponent(ex)|] == SpellExponent(ex)
    requires IsNumDelim(s[f + |SpellExponent(ex)|])
    ensures EndLaidOut(s, f, m, f + |SpellExponent(ex)|)
    ensures f + |SpellExponent(ex)| > f <==> ex.Some?
  {
    m := f;
    if ex.Some? {
      ExponentParts(s, f, ex);
      m := f + 1 + |ex.value.sign|;
    }
  }

  /** What follows the integer part of a spelled number is laid out as a fraction and an exponent. */
  lemma TailOfSyntax(s: string, e: nat, frac: Option<string>, ex: Option<ExponentSyntax>) returns (f: nat, m: nat)
    requires WellFormedFraction(frac) && WellFormedExponent(ex)
    requires e + |SpellTail(frac, ex)| < |s| && s[e..e + |SpellTail(frac, ex)|] == SpellTail(frac, ex)
    requires IsNumDelim(s[e + |SpellTail(frac, ex)|])
    ensures TailLaidOut(s, e, f, m, e + |SpellTail(frac, ex)|)
    ensures f > e <==> frac.Some?
    ensures e + |SpellTail(frac, ex)| > f <==> ex.Some?
  {
    f := e;
    if frac.Some? {
      FractionParts(s, e, frac, ex);
      f := e + 1 + |frac.value|;
    }
    m := EndOfSyntax(s, f, ex);
  }

  /** A spelled integer part is laid out as one. */
  lemma IntegerOfSyntax(s: string, k: nat, t: string)
    requires WellFormedInteger(t) && k + |t| <= |s| && s[k..k + |t|] == t
    ensures IntegerLaidOut(s, k, k + |t|) && (s[k] == '0' || IsPosDigit(s[k]))
  {
    IntegerParts(s, k, t);
  }

  /** A number of the grammar spelled from `i` and followed by a delimiter is laid out up to that delimiter. */
  lemma LayoutOfSyntax(s: string, i: nat, n: NumberSyntax) returns (L: Layout)
    requires WellFormedNumber(n)
    requires i + |Spell(n)| < |s| && s[i..i + |Spell(n)|] == Spell(n)
    requires IsNumDelim(s[i + |Spell(n)|])
    ensures LaidOut(s, i, L) && L.d == i + |Spell(n)|
    ensures L.d > L.e <==> IsFloatSyntax(n)
  {
    SpelledParts(s, i, n);
    var k := i + |SpellSign(n)|;
    if n.minus {
      assert s[i] == s[i..k][0];
    }
    var e := k + |n.integer|;
    IntegerOfSyntax(s, k, n.integer);
    var f, m := TailOfSyntax(s, e, n.fraction, n.exponent);
    L := Layout(k, e, f, m, i + |Spell(n)|);
  }

  // What the scanner stores.

  /** Every accepted number is one of the grammar, stored as a double exactly when it has a fraction or an exponent. */
  lemma ScanNumberSound(s: string, i: nat) returns (n: NumberSyntax)
    requires ScanNumber(s, i).Scanned?
    ensures WellFormedNumber(n)
    ensures Spell(n) == s[i..ScanNumber(s, i).cursor]
    ensures ScanNumber(s, i).value == StoredValue(n)
  {
    var L := LayoutSound(s, i);
    n := SyntaxOfLayout(s, i, L);
  }

  /** Every number of the grammar followed by a delimiter is accepted, stored as its syntax says. */
  lemma ScanNumberComplete(s: string, i: nat, n: NumberSyntax)
    requires WellFormedNumber(n)
    requires i + |Spell(n)| < |s| && s[i..i + |Spell(n)|] == Spell(n)
    requires IsNumDelim(s[i + |Spell(n)|])
    ensures ScanNumber(s, i) == Scanned(StoredValue(n), WordSize, i + |Spell(n)|)
  {
    var L := LayoutOfSyntax(s, i, n);
    LayoutComplete(s, i, L);
  }

  /**
    `parse_number`: the state machine.  `is_float` is set whenever state S5
    or S7 handles a character; on success the cursor stays on the delimiter.
  */
  method ParseNumber(s: string, start: nat) returns (r: Scan)
    ensures r == ScanNumber(s, start)
  {
    if start >= |s| {
      return Failed;
    }
    var state := NumStart;
    var isFloat := false;
    var it := start;
    while it < |s|
      invariant start <= it <= |s|
      invariant state.NumStart? ==> it == start
      invariant NumberRun(s, it, state) == NumberEnd(s, start)
      invariant IsIntegerState(state) ==> !isFloat
      invariant IsFloatState(state) ==> isFloat
      decreases |s| - it
    {
      if state.NumPoint? || state.NumExponent? {
        isFloat := true;
      }
      match NumberTransition(state, s[it]) {
        case Goto(next) =>
          state := next;
        case Accept =>
          var len := it - start;
          var value := if isFloat then Double(s[start..start + len]) else Int(DecimalValue(s[start..start + len]));
          return Scanned(value, WordSize, it);
        case Reject =>
          return Failed;
      }
      it := it + 1;
    }
    return Failed;
  }
}
