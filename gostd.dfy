/**
 * The pieces of Go's standard library that the streaming core calls, modelled
 * on their documented behaviour: strings.Split with a one-character separator,
 * strconv.ParseUint(s, 10, 8), and bufio.Reader.ReadString.
 */
module GoStd {
  import opened Wrappers

  // ---------------------------------------------------------------------------
  // strings.Split / strings.Join
  // ---------------------------------------------------------------------------

  /** Number of occurrences of `c` in `s`. */
  function Count(s: string, c: char): nat
  {
    if s == [] then 0 else (if s[0] == c then 1 else 0) + Count(s[1..], c)
  }

  /**
   * strings.Split(s, string(sep)): the pieces between the separators. An empty
   * string yields one empty piece, and two adjacent separators an empty piece.
   */
  function Split(s: string, sep: char): (pieces: seq<string>)
    ensures |pieces| == Count(s, sep) + 1
    ensures forall i :: 0 <= i < |pieces| ==> sep !in pieces[i]
  {
    if s == [] then [""]
    else
      var rest := Split(s[1..], sep);
      if s[0] == sep then [""] + rest
      else [[s[0]] + rest[0]] + rest[1..]
  }

  /** strings.Join(pieces, string(sep)). */
  function Join(pieces: seq<string>, sep: char): string
  {
    if |pieces| == 0 then ""
    else if |pieces| == 1 then pieces[0]
    else pieces[0] + [sep] + Join(pieces[1..], sep)
  }

  /** Joining the pieces again gives back the string that was split. */
  lemma {:induction false} JoinSplit(s: string, sep: char)
    ensures Join(Split(s, sep), sep) == s
  {
    if s != [] {
      JoinSplit(s[1..], sep);
      var rest := Split(s[1..], sep);
      if s[0] == sep {
        assert Split(s, sep) == [""] + rest;
        assert ([""] + rest)[1..] == rest;
      } else {
        var pieces := [[s[0]] + rest[0]] + rest[1..];
        assert Split(s, sep) == pieces;
        if |rest| > 1 {
          assert pieces[1..] == rest[1..];
        }
      }
    }
  }

  /** Splitting a string that starts with a separator-free prefix `p`. */
  lemma {:induction false} SplitPrefix(p: string, rest: string, sep: char)
    requires sep !in p
    ensures Split(p + rest, sep) == [p + Split(rest, sep)[0]] + Split(rest, sep)[1..]
  {
    if p != [] {
      SplitPrefix(p[1..], rest, sep);
      assert (p + rest)[1..] == p[1..] + rest;
      assert (p + rest)[0] == p[0];
      assert [p[0]] + (p[1..] + Split(rest, sep)[0]) == p + Split(rest, sep)[0];
    } else {
      var pieces := Split(rest, sep);
      assert p + rest == rest && p + pieces[0] == pieces[0];
      assert [pieces[0]] + pieces[1..] == pieces;
    }
  }

  /** Splitting separator-free pieces joined by the separator gives back the pieces. */
  lemma {:induction false} SplitJoin(pieces: seq<string>, sep: char)
    requires |pieces| > 0
    requires forall i :: 0 <= i < |pieces| ==> sep !in pieces[i]
    ensures Split(Join(pieces, sep), sep) == pieces
  {
    if |pieces| == 1 {
      SplitPrefix(pieces[0], "", sep);
      assert pieces[0] + "" == pieces[0];
    } else {
      var tail := Join(pieces[1..], sep);
      SplitJoin(pieces[1..], sep);
      assert Split([sep] + tail, sep) == [""] + Split(tail, sep);
      assert pieces[0] + [sep] + tail == pieces[0] + ([sep] + tail);
      SplitPrefix(pieces[0], [sep] + tail, sep);
      var after := Split([sep] + tail, sep);
      assert after[0] == "" && after[1..] == pieces[1..];
      assert pieces[0] + after[0] == pieces[0];
      assert Split(Join(pieces, sep), sep) == [pieces[0]] + pieces[1..];
    }
  }

  // ---------------------------------------------------------------------------
  // strconv.ParseUint(s, 10, 8)
  // ---------------------------------------------------------------------------

  const MAX_UINT8 := 255

  /** What a *strconv.NumError of ParseUint says went wrong. */
  datatype NumErrorKind = ErrSyntax | ErrRange

  /** A *strconv.NumError; `num` is the whole text that was parsed. */
  datatype NumError = NumError(num: string, kind: NumErrorKind)

  predicate IsDigit(c: char)
  {
    '0' <= c <= '9'
  }

  function Digit(c: char): nat
    requires IsDigit(c)
  {
    c as int - '0' as int
  }

  predicate AllDigits(s: string)
  {
    forall i :: 0 <= i < |s| ==> IsDigit(s[i])
  }

  /** Positional decimal value of a digit string, the reference for ParseUint8. */
  function DecimalValue(s: string): nat
    requires AllDigits(s)
  {
    if s == [] then 0 else DecimalValue(s[..|s| - 1]) * 10 + Digit(s[|s| - 1])
  }

  /**
   * strconv.ParseUint(s, 10, 8). The empty string is a syntax error; the digits
   * are then consumed left to right, and the first non-digit is a syntax error
   * while the first digit that pushes the value past 255 is a range error,
   * whichever comes first. No sign, prefix or underscore is accepted in base 10.
   */
  function ParseUint8(s: string): (r: Result<nat, NumError>)
    ensures r.Ok? ==> r.value <= MAX_UINT8
    ensures r.Err? ==> r.error.num == s
  {
    if s == [] then Err(NumError(s, ErrSyntax)) else Accumulate(s, s, 0)
  }

  /** The digit loop of ParseUint: `n` is the value of the digits consumed so far. */
  function Accumulate(s0: string, s: string, n: nat): (r: Result<nat, NumError>)
    requires n <= MAX_UINT8
    ensures r.Ok? ==> r.value <= MAX_UINT8
    ensures r.Err? ==> r.error.num == s0
  {
    if s == [] then Ok(n)
    else if !IsDigit(s[0]) then Err(NumError(s0, ErrSyntax))
    else if n * 10 + Digit(s[0]) > MAX_UINT8 then Err(NumError(s0, ErrRange))
    else Accumulate(s0, s[1..], n * 10 + Digit(s[0]))
  }

  /** The value of the digits in `s` read after an already-read value `n`. */
  function ValueAfter(n: nat, s: string): nat
    requires AllDigits(s)
    decreases |s|
  {
    if s == [] then n else ValueAfter(n * 10 + Digit(s[0]), s[1..])
  }

  lemma {:induction false} ValueAfterAtLeast(n: nat, s: string)
    requires AllDigits(s)
    ensures ValueAfter(n, s) >= n
    decreases |s|
  {
    if s != [] {
      ValueAfterAtLeast(n * 10 + Digit(s[0]), s[1..]);
    }
  }

  lemma {:induction false} ValueAfterSnoc(n: nat, s: string, c: char)
    requires AllDigits(s) && IsDigit(c)
    ensures AllDigits(s + [c])
    ensures ValueAfter(n, s + [c]) == ValueAfter(n, s) * 10 + Digit(c)
    decreases |s|
  {
    assert AllDigits(s + [c]) by {
      forall i | 0 <= i < |s + [c]| ensures IsDigit((s + [c])[i]) {
        if i < |s| { assert (s + [c])[i] == s[i]; }
      }
    }
    if s != [] {
      assert (s + [c])[1..] == s[1..] + [c];
      ValueAfterSnoc(n * 10 + Digit(s[0]), s[1..], c);
    }
  }

  lemma {:induction false} DecimalValueIsValueAfter(s: string)
    requires AllDigits(s)
    ensures DecimalValue(s) == ValueAfter(0, s)
  {
    if s != [] {
      var init := s[..|s| - 1];
      DecimalValueIsValueAfter(init);
      ValueAfterSnoc(0, init, s[|s| - 1]);
      assert init + [s[|s| - 1]] == s;
    }
  }

  lemma {:induction false} AccumulateSpec(s0: string, s: string, n: nat)
    requires n <= MAX_UINT8
    ensures Accumulate(s0, s, n).Ok? <==> AllDigits(s) && ValueAfter(n, s) <= MAX_UINT8
    ensures Accumulate(s0, s, n).Ok? ==> Accumulate(s0, s, n).value == ValueAfter(n, s)
    ensures AllDigits(s) && ValueAfter(n, s) > MAX_UINT8 ==>
              Accumulate(s0, s, n) == Err(NumError(s0, ErrRange))
  {
    if s != [] {
      assert AllDigits(s) ==> AllDigits(s[1..]) by {
        if AllDigits(s) {
          forall i | 0 <= i < |s[1..]| ensures IsDigit(s[1..][i]) { assert s[1..][i] == s[i + 1]; }
        }
      }
      if IsDigit(s[0]) {
        var m := n * 10 + Digit(s[0]);
        if m > MAX_UINT8 {
          if AllDigits(s) { ValueAfterAtLeast(m, s[1..]); }
        } else {
          AccumulateSpec(s0, s[1..], m);
        }
      }
    }
  }

  /**
   * The error Accumulate reaches is decided by the digits before the first
   * non-digit: a digit prefix past 255 is a range error, whatever follows,
   * and a non-digit after a prefix of value up to 255 is a syntax error.
   */
  lemma {:induction false} AccumulatePrefix(s0: string, s: string, n: nat, k: nat)
    requires n <= MAX_UINT8 && k <= |s| && AllDigits(s[..k])
    ensures ValueAfter(n, s[..k]) > MAX_UINT8 ==> Accumulate(s0, s, n) == Err(NumError(s0, ErrRange))
    ensures k < |s| && !IsDigit(s[k]) && ValueAfter(n, s[..k]) <= MAX_UINT8 ==>
              Accumulate(s0, s, n) == Err(NumError(s0, ErrSyntax))
    decreases k
  {
    if k > 0 {
      var p := s[..k];
      assert IsDigit(s[0]) by { assert p[0] == s[0]; }
      var m := n * 10 + Digit(s[0]);
      assert AllDigits(p[1..]) by {
        forall i | 0 <= i < |p[1..]| ensures IsDigit(p[1..][i]) { assert p[1..][i] == p[i + 1]; }
      }
      assert ValueAfter(n, p) == ValueAfter(m, p[1..]);
      if m > MAX_UINT8 {
        ValueAfterAtLeast(m, p[1..]);
      } else {
        assert s[1..][..k - 1] == p[1..];
        AccumulatePrefix(s0, s[1..], m, k - 1);
      }
    }
  }

  /**
   * ParseUint8 succeeds exactly on non-empty digit strings (leading zeros
   * allowed) whose decimal value is at most 255, and then returns that value.
   * Otherwise the empty string is a syntax error, and the digits before the
   * first non-digit decide: a range error once they pass 255, else a syntax
   * error.
   */
  lemma ParseUint8Spec(s: string)
    ensures ParseUint8(s).Ok? <==> s != [] && AllDigits(s) && DecimalValue(s) <= MAX_UINT8
    ensures ParseUint8(s).Ok? ==> ParseUint8(s).value == DecimalValue(s)
    ensures s == [] ==> ParseUint8(s) == Err(NumError(s, ErrSyntax))
    ensures s != [] && AllDigits(s) && DecimalValue(s) > MAX_UINT8 ==>
              ParseUint8(s) == Err(NumError(s, ErrRange))
    ensures forall k :: 0 <= k < |s| && AllDigits(s[..k]) && !IsDigit(s[k]) && DecimalValue(s[..k]) <= MAX_UINT8 ==>
              ParseUint8(s) == Err(NumError(s, ErrSyntax))
    ensures forall k :: 0 <= k <= |s| && AllDigits(s[..k]) && DecimalValue(s[..k]) > MAX_UINT8 ==>
              ParseUint8(s) == Err(NumError(s, ErrRange))
  {
    if s != [] {
      AccumulateSpec(s, s, 0);
      if AllDigits(s) { DecimalValueIsValueAfter(s); }
      forall k | 0 <= k <= |s| && AllDigits(s[..k])
        ensures k < |s| && !IsDigit(s[k]) && DecimalValue(s[..k]) <= MAX_UINT8 ==> ParseUint8(s) == Err(NumError(s, ErrSyntax))
        ensures DecimalValue(s[..k]) > MAX_UINT8 ==> ParseUint8(s) == Err(NumError(s, ErrRange))
      {
        DecimalValueIsValueAfter(s[..k]);
        AccumulatePrefix(s, s, 0, k);
      }
    }
  }

  /** Decimal rendering of a natural number without leading zeros (strconv.Itoa). */
  function FormatDecimal(n: nat): (s: string)
    ensures s != [] && AllDigits(s)
  {
    var d := ['0', '1', '2', '3', '4', '5', '6', '7', '8', '9'][n % 10];
    if n < 10 then [d] else FormatDecimal(n / 10) + [d]
  }

  lemma {:induction false} FormatDecimalValue(n: nat)
    ensures DecimalValue(FormatDecimal(n)) == n
  {
    var s := FormatDecimal(n);
    if n >= 10 {
      FormatDecimalValue(n / 10);
      assert s[..|s| - 1] == FormatDecimal(n / 10);
    }
  }

  /** ParseUint8 reads back every value 0..255 that FormatDecimal renders. */
  lemma ParseFormatUint8(n: nat)
    requires n <= MAX_UINT8
    ensures ParseUint8(FormatDecimal(n)) == Ok(n)
    ensures ' ' !in FormatDecimal(n) && ';' !in FormatDecimal(n)
  {
    FormatDecimalValue(n);
    ParseUint8Spec(FormatDecimal(n));
    var s := FormatDecimal(n);
    assert forall i :: 0 <= i < |s| ==> IsDigit(s[i]);
  }

  // ---------------------------------------------------------------------------
  // bufio.Reader.ReadString
  // ---------------------------------------------------------------------------

  /** How an input ends once its data is used up: io.EOF, or another read error. */
  datatype ReadEnd = EOF | ReadFailure(cause: string)

  /**
   * bufio.Reader.ReadString(delim) over the data `rest` still unread: the data
   * up to and including the first `delim` with a nil error, or, when no `delim`
   * is left, all of `rest` together with the error the input ends with.
   */
  function ReadString(rest: string, delim: char, end: ReadEnd): (r: (string, Option<ReadEnd>))
    ensures r.0 <= rest
    ensures r.1.None? <==> delim in rest
    ensures r.1.None? ==> |r.0| > 0 && r.0[|r.0| - 1] == delim && delim !in r.0[..|r.0| - 1]
    ensures r.1.Some? ==> r.0 == rest && r.1 == Some(end)
  {
    if rest == [] then ("", Some(end))
    else if rest[0] == delim then ([delim], None)
    else
      var (line, err) := ReadString(rest[1..], delim, end);
      ([rest[0]] + line, err)
  }
}
