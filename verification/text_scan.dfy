/** The two pieces of C++ text handling the loaders rely on: splitting a line
    into whitespace-separated words (`std::istringstream >> std::string`) and
    `sscanf` with `%d` conversions and literal characters. */
module TextScan {
  import opened Wrappers
  import opened Decimal

  /** The characters `isspace` accepts in the "C" locale: space, `\t`,
      `\n`, `\v`, `\f` and `\r`. */
  predicate IsSpace(c: char) {
    c == ' ' || ('\t' <= c <= '\r')
  }

  /** A word as stream extraction produces it: non-empty, no whitespace. */
  predicate IsWord(w: string) {
    |w| > 0 && forall i :: 0 <= i < |w| ==> !IsSpace(w[i])
  }

  /** Length of the run of non-space characters at the start of `s`. */
  function WordLength(s: string): (n: nat)
    ensures n <= |s|
    ensures forall i :: 0 <= i < n ==> !IsSpace(s[i])
    ensures n < |s| ==> IsSpace(s[n])
  {
    if |s| == 0 || IsSpace(s[0]) then 0 else 1 + WordLength(s[1..])
  }

  /** The words of a line, in order: what repeated `>>` into a string yields. */
  function Tokens(s: string): (ts: seq<string>)
    ensures forall i :: 0 <= i < |ts| ==> IsWord(ts[i])
    decreases |s|
  {
    if |s| == 0 then []
    else if IsSpace(s[0]) then Tokens(s[1..])
    else
      var n := WordLength(s);
      [s[..n]] + Tokens(s[n..])
  }

  /** The `i`-th word of a line, or the empty string when the line has fewer
      words: a `std::string` left untouched by a failed extraction. */
  function TokenOr(ts: seq<string>, i: nat): string {
    if i < |ts| then ts[i] else ""
  }

  /** The words after the first: what follows a line's prefix. */
  function Args(words: seq<string>): seq<string> {
    if |words| > 0 then words[1..] else []
  }

  predicate AllSpace(s: string) {
    forall i :: 0 <= i < |s| ==> IsSpace(s[i])
  }

  /** Leading whitespace of any kind and length is skipped. */
  lemma {:induction false} TokensSkipSpace(ws: string, s: string)
    requires AllSpace(ws)
    ensures Tokens(ws + s) == Tokens(s)
    decreases |ws|
  {
    if |ws| == 0 {
      assert ws + s == s;
    } else {
      var t := ws + s;
      assert t[0] == ws[0] && IsSpace(t[0]);
      assert t[1..] == ws[1..] + s;
      TokensSkipSpace(ws[1..], s);
    }
  }

  /** A word ends at any non-empty run of whitespace (spaces, tabs, a
      trailing `\r`, ...), which separates it from the words after. */
  lemma TokensWordThenSpace(w: string, sep: string, s: string)
    requires IsWord(w) && |sep| > 0 && AllSpace(sep)
    ensures Tokens(w + sep + s) == [w] + Tokens(s)
  {
    var t := w + (sep + s);
    assert w + sep + s == t;
    assert (sep + s)[0] == sep[0];
    WordLengthOfWord(w, sep + s);
    assert t[0] == w[0] && !IsSpace(t[0]);
    assert t[..|w|] == w;
    assert t[|w|..] == sep + s;
    TokensSkipSpace(sep, s);
  }

  /** Words joined by single spaces: the inverse of `Tokens`. */
  function Unwords(ws: seq<string>): string {
    if |ws| == 0 then ""
    else if |ws| == 1 then ws[0]
    else ws[0] + " " + Unwords(ws[1..])
  }

  lemma {:induction false} WordLengthOfWord(w: string, rest: string)
    requires IsWord(w)
    requires |rest| == 0 || IsSpace(rest[0])
    ensures WordLength(w + rest) == |w|
    decreases |w|
  {
    var s := w + rest;
    assert s[0] == w[0] && !IsSpace(s[0]);
    assert WordLength(s) == 1 + WordLength(s[1..]);
    if |w| > 1 {
      assert s[1..] == w[1..] + rest;
      assert IsWord(w[1..]) by {
        forall i | 0 <= i < |w[1..]| ensures !IsSpace(w[1..][i]) {
          assert w[1..][i] == w[i + 1];
        }
      }
      WordLengthOfWord(w[1..], rest);
    } else {
      assert s[1..] == rest;
    }
  }

  /** Splitting words that were joined by spaces gives the words back. */
  lemma {:induction false} TokensUnwords(ws: seq<string>)
    requires forall i :: 0 <= i < |ws| ==> IsWord(ws[i])
    ensures Tokens(Unwords(ws)) == ws
  {
    if |ws| == 0 {
    } else if |ws| == 1 {
      var w := ws[0];
      WordLengthOfWord(w, "");
      assert w + "" == w;
      assert w[|w|..] == "";
    } else {
      var w := ws[0];
      var rest := " " + Unwords(ws[1..]);
      var s := w + rest;
      assert Unwords(ws) == s;
      WordLengthOfWord(w, rest);
      assert s[..|w|] == w;
      assert s[|w|..] == rest;
      assert rest[1..] == Unwords(ws[1..]);
      TokensUnwords(ws[1..]);
      assert Tokens(rest) == Tokens(Unwords(ws[1..]));
      assert ws == [w] + ws[1..];
    }
  }

  /** Length of the run of decimal digits at the start of `s`. */
  function DigitRun(s: string): (n: nat)
    ensures n <= |s|
    ensures AllDigits(s[..n])
    ensures n < |s| ==> !IsDigit(s[n])
  {
    if |s| == 0 || !IsDigit(s[0]) then 0
    else
      var k := DigitRun(s[1..]);
      assert s[..1 + k] == [s[0]] + s[1..][..k];
      1 + k
  }

  /** The number a `%d` reads once whitespace is skipped: an optional sign
      and at least one digit, as many digits as there are. Yields the value
      and the number of characters consumed. The value is unbounded: a C
      `int` that overflows is undefined behaviour. */
  function ScanNumber(s: string): (r: Option<(int, nat)>)
    ensures r.Some? ==> 0 < r.value.1 <= |s|
  {
    var signed := |s| > 0 && (s[0] == '+' || s[0] == '-');
    var start := if signed then 1 else 0;
    var n := DigitRun(s[start..]);
    if n == 0 then None
    else
      var magnitude: int := FromDigits(s[start..][..n]);
      var value: int := if signed && s[0] == '-' then -magnitude else magnitude;
      Some((value, start + n))
  }

  /** One `%d` conversion: leading whitespace is skipped, then the number
      is read. Fails at once on a character that is neither whitespace, a
      sign nor a digit. */
  function ScanInt(s: string): (r: Option<(int, nat)>)
    ensures r.Some? ==> 0 < r.value.1 <= |s|
    ensures |s| > 0 && !IsSpace(s[0]) && !IsDigit(s[0]) && s[0] != '+' && s[0] != '-' ==> r.None?
    decreases |s|
  {
    if |s| > 0 && IsSpace(s[0]) then
      match ScanInt(s[1..])
      case None => None
      case Some((v, n)) => Some((v, n + 1))
    else ScanNumber(s)
  }

  /** A directive of a `sscanf` format: a `%d` conversion or a literal
      non-space character that must match exactly. */
  datatype Directive = IntConv | Lit(c: char)

  /** The number of `%d` directives in a format: the most `sscanf` can
      return. */
  function Conversions(fmt: seq<Directive>): (n: nat)
    ensures n <= |fmt|
  {
    if |fmt| == 0 then 0 else (if fmt[0] == IntConv then 1 else 0) + Conversions(fmt[1..])
  }

  /** The values `sscanf(s, fmt, ...)` stores, in order; the count it returns
      is the length. Scanning stops at the first directive that fails. An
      input that ends before the first conversion makes `sscanf` return EOF,
      which every caller here compares like zero conversions. */
  function Scan(fmt: seq<Directive>, s: string): (vals: seq<int>)
    ensures |vals| <= Conversions(fmt)
    decreases |fmt|
  {
    if |fmt| == 0 then []
    else
      match fmt[0]
      case IntConv =>
        (match ScanInt(s)
         case None => []
         case Some((v, n)) => [v] + Scan(fmt[1..], s[n..]))
      case Lit(c) =>
        if |s| > 0 && s[0] == c then Scan(fmt[1..], s[1..]) else []
  }

  lemma DigitRunOfDigits(d: string, rest: string)
    requires AllDigits(d)
    requires |rest| == 0 || !IsDigit(rest[0])
    ensures DigitRun(d + rest) == |d|
    decreases |d|
  {
    var s := d + rest;
    if |d| > 0 {
      assert s[0] == d[0] && IsDigit(s[0]);
      assert s[1..] == d[1..] + rest;
      DigitRunOfDigits(d[1..], rest);
      assert DigitRun(s) == 1 + DigitRun(s[1..]);
    } else {
      assert s == rest;
    }
  }

  /** A `%d` conversion reads back exactly the decimal rendering of a
      number when the next character is not a digit. */
  lemma ScanIntOfNat(n: nat, rest: string)
    requires |rest| == 0 || !IsDigit(rest[0])
    ensures ScanInt(NatToString(n) + rest) == Some((n as int, |NatToString(n)|))
  {
    var d := NatToString(n);
    var s := d + rest;
    assert s[0] == d[0];
    assert s[0..] == s;
    DigitRunOfDigits(d, rest);
    assert s[..|d|] == d;
  }

  /** Scanning a conversion over a rendered number moves on to the rest. */
  lemma ScanIntConvOfNat(fmt: seq<Directive>, n: nat, rest: string)
    requires |rest| == 0 || !IsDigit(rest[0])
    ensures Scan([IntConv] + fmt, NatToString(n) + rest) == [n as int] + Scan(fmt, rest)
  {
    ScanIntOfNat(n, rest);
    var s := NatToString(n) + rest;
    assert s[|NatToString(n)|..] == rest;
    assert ([IntConv] + fmt)[1..] == fmt;
  }

  /** A literal that matches moves on to the rest. */
  lemma ScanLitMatch(fmt: seq<Directive>, c: char, rest: string)
    ensures Scan([Lit(c)] + fmt, [c] + rest) == Scan(fmt, rest)
  {
    assert ([Lit(c)] + fmt)[1..] == fmt;
    assert ([c] + rest)[1..] == rest;
  }

  /** A `%d` skips any leading whitespace: the conversion after it is the
      same, with the whitespace counted as consumed. */
  lemma {:induction false} ScanIntSkipsSpace(ws: string, s: string)
    requires AllSpace(ws)
    ensures ScanInt(s).None? ==> ScanInt(ws + s).None?
    ensures ScanInt(s).Some? ==> ScanInt(ws + s) == Some((ScanInt(s).value.0, ScanInt(s).value.1 + |ws|))
    decreases |ws|
  {
    if |ws| == 0 {
      assert ws + s == s;
    } else {
      var t := ws + s;
      assert t[0] == ws[0] && IsSpace(t[0]);
      assert t[1..] == ws[1..] + s;
      ScanIntSkipsSpace(ws[1..], s);
    }
  }

  /** A sign directly before a run of digits: `-` negates, `+` does not. */
  lemma ScanNumberSigned(sign: char, d: string, rest: string)
    requires sign == '+' || sign == '-'
    requires |d| > 0 && AllDigits(d)
    requires |rest| == 0 || !IsDigit(rest[0])
    ensures ScanNumber([sign] + (d + rest)).Some?
    ensures ScanNumber([sign] + (d + rest)).value.0 == if sign == '-' then -(FromDigits(d) as int) else FromDigits(d) as int
    ensures ScanNumber([sign] + (d + rest)).value.1 == 1 + |d|
  {
    var s := [sign] + (d + rest);
    assert s[0] == sign;
    assert s[1..] == d + rest;
    DigitRunOfDigits(d, rest);
    assert s[1..][..|d|] == d;
  }

  /** `%d` over an optional sign and the digits of `n`. */
  lemma ScanIntOfSignedDigits(sign: string, n: nat, rest: string)
    requires sign == "" || sign == "+" || sign == "-"
    requires |rest| == 0 || !IsDigit(rest[0])
    ensures ScanInt(sign + (NatToString(n) + rest)).Some?
    ensures ScanInt(sign + (NatToString(n) + rest)).value.0 == if sign == "-" then -(n as int) else n as int
    ensures ScanInt(sign + (NatToString(n) + rest)).value.1 == |sign| + |NatToString(n)|
  {
    var d := NatToString(n);
    var t := sign + (d + rest);
    if sign == "" {
      assert t == d + rest;
      ScanIntOfNat(n, rest);
    } else {
      assert t == [sign[0]] + (d + rest);
      assert t[0] == sign[0] && !IsSpace(t[0]);
      assert ScanInt(t) == ScanNumber(t);
      ScanNumberSigned(sign[0], d, rest);
    }
  }

  /** `%d` over whitespace, an optional sign and the digits of `n` reads
      `n` or `-n` and consumes exactly those characters. */
  lemma ScanIntOfSignedNat(ws: string, sign: string, n: nat, rest: string)
    requires AllSpace(ws)
    requires sign == "" || sign == "+" || sign == "-"
    requires |rest| == 0 || !IsDigit(rest[0])
    ensures ScanInt(ws + (sign + (NatToString(n) + rest))).Some?
    ensures ScanInt(ws + (sign + (NatToString(n) + rest))).value.0 == if sign == "-" then -(n as int) else n as int
    ensures ScanInt(ws + (sign + (NatToString(n) + rest))).value.1 == |ws| + |sign| + |NatToString(n)|
  {
    ScanIntOfSignedDigits(sign, n, rest);
    ScanIntSkipsSpace(ws, sign + (NatToString(n) + rest));
  }
}
