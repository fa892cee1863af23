/**
 * The small part of the Java platform the Wi-Fi Direct peer synchronisation
 * relies on: null references, the exceptions that can escape a callback,
 * `String.split` with a one-character separator, `String.startsWith`,
 * `Integer.parseInt` and the decimal rendering of a number.
 */
module JavaLang {

  /** A Java reference that may be null. */
  datatype Option<T> = None | Some(value: T)

  /** The unchecked exceptions that can escape the modelled callbacks. */
  datatype Exception =
    | ArrayIndexOutOfBounds
    | NumberFormat
    | IllegalArgument
    | NullPointer

  datatype Result<T> = Ok(value: T) | Err(error: Exception)

  /** How a `void` Java method ends: normally or by throwing. */
  datatype Outcome = Normal | Thrown(error: Exception)

  /** String concatenation renders a null reference as "null". */
  function Show(s: Option<string>): string
  {
    if s.None? then "null" else s.value
  }

  predicate StartsWith(s: string, prefix: string)
  {
    |prefix| <= |s| && s[..|prefix|] == prefix
  }

  // ---------------------------------------------------------------------
  // String.split
  // ---------------------------------------------------------------------

  /** Every piece of `s` between occurrences of `sep`, empty pieces included. */
  function Pieces(s: string, sep: char): (r: seq<string>)
    ensures |r| >= 1
    ensures forall i | 0 <= i < |r| :: sep !in r[i]
  {
    if s == [] then [""]
    else
      var rest := Pieces(s[1..], sep);
      if s[0] == sep then [""] + rest
      else [[s[0]] + rest[0]] + rest[1..]
  }

  /** Drops the empty strings at the end of `xs`, as `split` with limit 0 does. */
  function StripTrailingEmpty(xs: seq<string>): (r: seq<string>)
    ensures |r| <= |xs| && r == xs[..|r|]
    ensures |r| > 0 ==> r[|r| - 1] != ""
    ensures forall i | |r| <= i < |xs| :: xs[i] == ""
  {
    if xs == [] then []
    else if xs[|xs| - 1] == "" then StripTrailingEmpty(xs[..|xs| - 1])
    else xs
  }

  /**
   * `s.split(sep)` for a separator that is one ordinary character: the whole
   * string when the separator does not occur, otherwise the pieces without
   * the trailing empty ones (a leading empty piece is kept).
   */
  function Split(s: string, sep: char): seq<string>
  {
    if sep !in s then [s] else StripTrailingEmpty(Pieces(s, sep))
  }

  lemma {:induction false} PiecesWithoutSeparator(s: string, sep: char)
    requires sep !in s
    ensures Pieces(s, sep) == [s]
  {
    if s != [] {
      PiecesWithoutSeparator(s[1..], sep);
      assert [s[0]] + s[1..] == s;
    }
  }

  /** Joining two strings with the separator joins their pieces. */
  lemma {:induction false} PiecesOfJoin(a: string, b: string, sep: char)
    ensures Pieces(a + [sep] + b, sep) == Pieces(a, sep) + Pieces(b, sep)
  {
    var s := a + [sep] + b;
    if a == [] {
      assert s[0] == sep && s[1..] == b;
    } else {
      assert s[0] == a[0];
      assert s[1..] == a[1..] + [sep] + b;
      PiecesOfJoin(a[1..], b, sep);
    }
  }

  /** A string with a character other than the separator has a non-empty piece. */
  lemma {:induction false} SomePieceNonEmpty(s: string, sep: char, k: nat)
    requires k < |s| && s[k] != sep
    ensures exists i :: 0 <= i < |Pieces(s, sep)| && Pieces(s, sep)[i] != ""
  {
    var r := Pieces(s, sep);
    if s[0] != sep {
      assert r[0] != "";
    } else {
      SomePieceNonEmpty(s[1..], sep, k - 1);
      var i :| 0 <= i < |Pieces(s[1..], sep)| && Pieces(s[1..], sep)[i] != "";
      assert r[i + 1] == Pieces(s[1..], sep)[i];
    }
  }

  /** `split` yields at least one string when some character is not the separator. */
  lemma SplitNonEmpty(s: string, sep: char, k: nat)
    requires k < |s| && s[k] != sep
    ensures |Split(s, sep)| > 0
  {
    if sep in s {
      SomePieceNonEmpty(s, sep, k);
      var xs := Pieces(s, sep);
      var i :| 0 <= i < |xs| && xs[i] != "";
      var r := StripTrailingEmpty(xs);
      assert i < |r|;
    }
  }

  /** When `s` does not end with the separator, `split` keeps every piece. */
  lemma SplitKeepsAllPieces(s: string, sep: char)
    requires s == [] || s[|s| - 1] != sep
    ensures Split(s, sep) == Pieces(s, sep)
  {
    if sep !in s {
      PiecesWithoutSeparator(s, sep);
    } else {
      var i :| 0 <= i < |s| && s[i] == sep;
      var a, b := s[..i], s[i + 1..];
      assert s == a + [sep] + b;
      PiecesOfJoin(a, b, sep);
      LastPieceOf(b, sep);
    }
  }

  /** The last piece of a non-empty string that does not end with the separator is not empty. */
  lemma {:induction false} LastPieceOf(s: string, sep: char)
    requires s != [] && s[|s| - 1] != sep
    ensures Pieces(s, sep)[|Pieces(s, sep)| - 1] != ""
  {
    if |s| > 1 {
      LastPieceOf(s[1..], sep);
    }
  }

  // ---------------------------------------------------------------------
  // Decimal numbers
  // ---------------------------------------------------------------------

  predicate IsDigit(c: char)
  {
    '0' <= c <= '9'
  }

  function DigitValue(c: char): nat
    requires IsDigit(c)
  {
    (c as int - '0' as int) as nat
  }

  function DigitChar(d: nat): (c: char)
    requires d < 10
    ensures IsDigit(c) && DigitValue(c) == d
  {
    ('0' as int + d) as char
  }

  /** Value of a string of decimal digits, most significant first. */
  function DigitsValue(s: string): nat
    requires forall i | 0 <= i < |s| :: IsDigit(s[i])
  {
    if s == [] then 0 else DigitsValue(s[..|s| - 1]) * 10 + DigitValue(s[|s| - 1])
  }

  /** `Long.toString` of a non-negative number. */
  function Decimal(n: nat): (r: string)
    ensures |r| > 0
    ensures forall i | 0 <= i < |r| :: IsDigit(r[i])
  {
    if n < 10 then [DigitChar(n)] else Decimal(n / 10) + [DigitChar(n % 10)]
  }

  const MIN_INT: int := -0x8000_0000
  const MAX_INT: int := 0x7fff_ffff

  /**
   * `Integer.parseInt`: an optional sign, then at least one digit and nothing
   * else, and a value that fits in 32 bits; anything else throws
   * NumberFormatException (None here).
   */
  function ParseInt(s: string): (r: Option<int>)
    ensures r.Some? ==> MIN_INT <= r.value <= MAX_INT
  {
    if s == [] then None
    else
      var digits := if s[0] == '-' || s[0] == '+' then s[1..] else s;
      if digits == [] || exists i | 0 <= i < |digits| :: !IsDigit(digits[i]) then None
      else
        var magnitude: int := DigitsValue(digits);
        var v := if s[0] == '-' then -magnitude else magnitude;
        if MIN_INT <= v <= MAX_INT then Some(v) else None
  }

  lemma {:induction false} DigitsOfDecimal(n: nat)
    ensures DigitsValue(Decimal(n)) == n
  {
    if n >= 10 {
      DigitsOfDecimal(n / 10);
      var s := Decimal(n);
      assert s[..|s| - 1] == Decimal(n / 10);
    }
  }

  /** `Integer.parseInt` reads back what `toString` wrote, for every int-sized count. */
  lemma DecimalRoundTrip(n: nat)
    requires n <= MAX_INT
    ensures ParseInt(Decimal(n)) == Some(n)
  {
    DigitsOfDecimal(n);
    var s := Decimal(n);
    assert IsDigit(s[0]);
  }
}
