/** The JavaScript string and number built-ins the trigger-box driver leans on:
    Number#toString / toFixed(0) on integers, String#padStart, String#split,
    Array#join and the global parseInt, over strings as sequences of chars. */
module JsText {

  datatype Option<+T> = None | Some(value: T)

  datatype Result<+T, +E> = Ok(value: T) | Err(error: E)

  /** A value parseInt can produce: an integer, or NaN when no digit was read. */
  datatype JsNumber = Num(n: int) | NaN

  predicate IsDigit(c: char) { '0' <= c <= '9' }

  function DigitChar(d: nat): (c: char)
    requires d < 10
    ensures IsDigit(c)
  {
    (('0' as int) + d) as char
  }

  /** Value of a character as a digit in any radix up to 36; 36 for a non-digit. */
  function CharValue(c: char): (v: nat)
    ensures v <= 36
  {
    if '0' <= c <= '9' then c as int - '0' as int
    else if 'a' <= c <= 'z' then c as int - 'a' as int + 10
    else if 'A' <= c <= 'Z' then c as int - 'A' as int + 10
    else 36
  }

  /** Decimal rendering of a natural number, as toString() and toFixed(0) give it. */
  function Decimal(n: nat): (s: string)
    ensures |s| >= 1
    ensures forall i :: 0 <= i < |s| ==> IsDigit(s[i])
  {
    if n < 10 then [DigitChar(n)] else Decimal(n / 10) + [DigitChar(n % 10)]
  }

  function Repeat(c: char, k: nat): (s: string)
    ensures |s| == k
    ensures forall i :: 0 <= i < k ==> s[i] == c
  {
    seq(k, _ => c)
  }

  /** String#padStart(width, fill): fill on the left up to the width, never truncate. */
  function PadStart(s: string, width: nat, fill: char): (r: string)
  {
    if |s| >= width then s else Repeat(fill, width - |s|) + s
  }

  predicate StartsWith(s: string, prefix: string)
  {
    |prefix| <= |s| && s[..|prefix|] == prefix
  }

  /** String#slice(1): drop the first character, if any. */
  function DropFirst(s: string): string
  {
    if s == [] then [] else s[1..]
  }

  /** Position of the first occurrence of c in s, or |s| when there is none. */
  function IndexOf(s: string, c: char): (i: nat)
    ensures i <= |s|
    ensures forall j :: 0 <= j < i ==> s[j] != c
    ensures i < |s| ==> s[i] == c
  {
    if s == [] then 0 else if s[0] == c then 0 else 1 + IndexOf(s[1..], c)
  }

  /** String#split with a one-character separator. */
  function Split(s: string, sep: char): (parts: seq<string>)
    ensures |parts| >= 1
    ensures forall k :: 0 <= k < |parts| ==> sep !in parts[k]
    decreases |s|
  {
    var i := IndexOf(s, sep);
    if i == |s| then [s] else [s[..i]] + Split(s[i + 1..], sep)
  }

  /** Array#join(sep). */
  function Join(parts: seq<string>, sep: string): string
  {
    if |parts| == 0 then ""
    else if |parts| == 1 then parts[0]
    else parts[0] + sep + Join(parts[1..], sep)
  }

  lemma JoinCons(x: string, rest: seq<string>, sep: string)
    requires rest != []
    ensures Join([x] + rest, sep) == x + sep + Join(rest, sep)
  {
    assert ([x] + rest)[1..] == rest;
  }

  /** Cut s into fields of exactly `width` characters separated by `sep`;
      None when s does not have that shape. The reading a fixed-width field list gets. */
  function SplitFixed(s: string, width: nat, sep: char): Option<seq<string>>
    decreases |s|
  {
    if |s| == width then Some([s])
    else if |s| > width && s[width] == sep then
      match SplitFixed(s[width + 1..], width, sep)
      case Some(rest) => Some([s[..width]] + rest)
      case None => None
    else None
  }

  /** The StrWhiteSpaceChar code points parseInt skips (the Zs category beyond
      U+0020 and U+00A0 is not modelled). */
  predicate IsJsSpace(c: char)
  {
    c as int in {0x09, 0x0A, 0x0B, 0x0C, 0x0D, 0x20, 0xA0, 0x2028, 0x2029, 0xFEFF}
  }

  function TrimStart(s: string): (r: string)
    ensures |r| <= |s|
  {
    if s != [] && IsJsSpace(s[0]) then TrimStart(s[1..]) else s
  }

  /** Length of the longest prefix of s made of digits of the radix. */
  function DigitRun(s: string, radix: nat): (k: nat)
    ensures k <= |s|
    ensures forall i :: 0 <= i < k ==> CharValue(s[i]) < radix
    ensures k < |s| ==> CharValue(s[k]) >= radix
  {
    if s == [] || CharValue(s[0]) >= radix then 0 else 1 + DigitRun(s[1..], radix)
  }

  /** Positional value of a digit string, most significant digit first. */
  function DigitsValue(s: string, radix: nat): nat
  {
    if s == [] then 0 else DigitsValue(s[..|s| - 1], radix) * radix + CharValue(s[|s| - 1])
  }

  /** The digits parseInt reads from a sign-free string: a 0x prefix switches to
      base 16 when the radix is 0 or 16, and the longest run of digits of the base
      is read; None when that run is empty. A radix of 0 stands for an absent radix. */
  function ReadDigits(unsigned: string, radix: int): Option<nat>
  {
    var hex := (radix == 0 || radix == 16) && |unsigned| >= 2 && unsigned[0] == '0'
               && (unsigned[1] == 'x' || unsigned[1] == 'X');
    var base := if hex then 16 else if radix == 0 then 10 else if radix < 0 then 0 else radix;
    var body := if hex then unsigned[2..] else unsigned;
    var k := DigitRun(body, base);
    if k == 0 then None else Some(DigitsValue(body[..k], base))
  }

  function StripSign(s: string): string
  {
    if |s| > 0 && (s[0] == '-' || s[0] == '+') then s[1..] else s
  }

  /** The global parseInt(input, radix): skip leading white space, take an optional
      sign, then read digits as ReadDigits does; NaN when the radix is neither 0 nor
      in 2..36, or when no digit follows. */
  function ParseInt(input: string, radix: int): JsNumber
  {
    if radix != 0 && (radix < 2 || radix > 36) then NaN
    else
      var s := TrimStart(input);
      match ReadDigits(StripSign(s), radix)
      case None => NaN
      case Some(v) =>
        var magnitude: int := v;
        Num(if |s| > 0 && s[0] == '-' then -magnitude else magnitude)
  }

  /** A character that ends a decimal number for parseInt without turning a
      leading "0" into a hexadecimal prefix. */
  predicate EndsNumber(rest: string)
  {
    rest == [] || (!IsDigit(rest[0]) && rest[0] != 'x' && rest[0] != 'X')
  }

  // ---------------------------------------------------------------------------
  // Lemmas

  /** parseInt is NaN for a radix other than 0 (absent) and 2..36, and when no
      digit follows the white space and the sign; its result is negative only
      after a leading '-'. */
  lemma ParseIntNaN(input: string, radix: int)
    ensures radix != 0 && (radix < 2 || radix > 36) ==> ParseInt(input, radix) == NaN
    ensures StripSign(TrimStart(input)) == [] ==> ParseInt(input, radix) == NaN
    ensures ParseInt(input, radix).Num? && ParseInt(input, radix).n < 0 ==>
      |TrimStart(input)| > 0 && TrimStart(input)[0] == '-'
  {
  }

  lemma {:induction false} DecimalValue(n: nat)
    ensures DigitsValue(Decimal(n), 10) == n
    decreases n
  {
    if n >= 10 {
      var s := Decimal(n);
      assert s[..|s| - 1] == Decimal(n / 10);
      DecimalValue(n / 10);
    }
  }

  /** Only zero is written with a leading zero. */
  lemma {:induction false} DecimalLeadingDigit(n: nat)
    ensures Decimal(n)[0] == '0' ==> n == 0
    decreases n
  {
    if n >= 10 {
      assert Decimal(n)[0] == Decimal(n / 10)[0];
      DecimalLeadingDigit(n / 10);
    }
  }

  lemma {:induction false} DecimalWidth(n: nat)
    ensures n < 10 ==> |Decimal(n)| == 1
    ensures n < 100 ==> |Decimal(n)| <= 2
    ensures n < 1000 ==> |Decimal(n)| <= 3
    ensures n < 10000 ==> |Decimal(n)| <= 4
    decreases n
  {
    if n >= 10 { DecimalWidth(n / 10); }
  }

  lemma {:induction false} DigitRunPrefix(s: string, rest: string, radix: nat)
    requires forall i :: 0 <= i < |s| ==> CharValue(s[i]) < radix
    requires rest == [] || CharValue(rest[0]) >= radix
    ensures DigitRun(s + rest, radix) == |s|
  {
    if s != [] {
      assert (s + rest)[1..] == s[1..] + rest;
      DigitRunPrefix(s[1..], rest, radix);
    }
  }

  /** Leading zeros do not change the value of a digit string. */
  lemma {:induction false} DigitsValueLeadingZeros(k: nat, s: string, radix: nat)
    ensures DigitsValue(Repeat('0', k) + s, radix) == DigitsValue(s, radix)
    decreases |s|, k
  {
    var z := Repeat('0', k);
    if s == [] {
      if k > 0 {
        assert (z + s)[..k - 1] == Repeat('0', k - 1) + [];
        DigitsValueLeadingZeros(k - 1, [], radix);
      }
    } else {
      assert (z + s)[..|z + s| - 1] == z + s[..|s| - 1];
      DigitsValueLeadingZeros(k, s[..|s| - 1], radix);
    }
  }

  lemma {:induction false} TrimStartSpaces(k: nat, s: string)
    ensures TrimStart(Repeat(' ', k) + s) == TrimStart(s)
    decreases k
  {
    if k > 0 {
      var t := Repeat(' ', k) + s;
      assert t[0] == ' ';
      assert IsJsSpace(t[0]) by { assert t[0] as int == 0x20; }
      assert t[1..] == Repeat(' ', k - 1) + s;
      assert TrimStart(t) == TrimStart(t[1..]);
      TrimStartSpaces(k - 1, s);
    } else {
      assert Repeat(' ', k) + s == s;
    }
  }

  /** A decimal rendering followed by a terminator is read back in full. */
  lemma ReadDigitsDecimal(n: nat, rest: string, radix: int)
    requires radix == 0 || radix == 10
    requires EndsNumber(rest)
    ensures ReadDigits(Decimal(n) + rest, radix) == Some(n)
  {
    var d := Decimal(n);
    var s := d + rest;
    DecimalLeadingDigit(n);
    if n == 0 {
      DecimalWidth(n);
      assert |d| == 1;
    }
    assert !(|s| >= 2 && s[0] == '0' && (s[1] == 'x' || s[1] == 'X')) by {
      if |s| >= 2 && s[0] == '0' { assert |d| == 1 && s[1] == rest[0]; }
    }
    DigitRunPrefix(d, rest, 10);
    assert s[..|d|] == d;
    DecimalValue(n);
  }

  /** parseInt reads back a decimal rendering, after any run of leading spaces and
      before any text that cannot continue the number. */
  lemma ParseIntDecimal(k: nat, n: nat, rest: string, radix: int)
    requires radix == 0 || radix == 10
    requires EndsNumber(rest)
    ensures ParseInt(Repeat(' ', k) + Decimal(n) + rest, radix) == Num(n)
  {
    var d := Decimal(n);
    var s := d + rest;
    assert Repeat(' ', k) + d + rest == Repeat(' ', k) + s;
    TrimStartSpaces(k, s);
    assert TrimStart(s) == s by { assert IsDigit(s[0]); }
    assert StripSign(s) == s by { assert IsDigit(s[0]); }
    ReadDigitsDecimal(n, rest, radix);
  }

  /** padStart to width 4 of a decimal rendering of at most four digits: the
      fill, then the digits, four characters in all. */
  lemma PadStartDecimal(n: nat, fill: char)
    requires n <= 9999
    ensures |PadStart(Decimal(n), 4, fill)| == 4
    ensures PadStart(Decimal(n), 4, fill) == Repeat(fill, 4 - |Decimal(n)|) + Decimal(n)
  {
    DecimalWidth(n);
  }

  /** parseInt reads back a zero-padded decimal rendering. */
  lemma ParseIntZeroPadded(k: nat, n: nat, radix: int)
    requires radix == 0 || radix == 10
    ensures ParseInt(Repeat('0', k) + Decimal(n), radix) == Num(n)
  {
    var d := Decimal(n);
    var s := Repeat('0', k) + d;
    assert forall i :: 0 <= i < |s| ==> IsDigit(s[i]);
    assert TrimStart(s) == s by { assert !IsJsSpace(s[0]); }
    assert StripSign(s) == s;
    assert !(s[0] == '0' && |s| >= 2 && (s[1] == 'x' || s[1] == 'X')) by {
      if |s| >= 2 { assert IsDigit(s[1]); }
    }
    DigitRunPrefix(s, [], 10);
    assert s + [] == s;
    assert s[..|s|] == s;
    DigitsValueLeadingZeros(k, d, 10);
    DecimalValue(n);
  }

  /** A string is its part before position i, its character at i and its part after. */
  lemma Reassemble(s: string, i: nat)
    requires i < |s|
    ensures s[..i] + [s[i]] + s[i + 1..] == s
  {
  }

  lemma {:induction false} JoinSplit(s: string, c: char)
    ensures Join(Split(s, c), [c]) == s
    decreases |s|
  {
    var i := IndexOf(s, c);
    if i < |s| {
      var head, rest := s[..i], s[i + 1..];
      assert Split(s, c) == [head] + Split(rest, c);
      JoinCons(head, Split(rest, c), [c]);
      JoinSplit(rest, c);
      Reassemble(s, i);
    } else {
      assert Split(s, c) == [s];
    }
  }

  lemma {:induction false} IndexOfAfter(p: string, c: char, q: string)
    requires c !in p
    ensures IndexOf(p + [c] + q, c) == |p|
    decreases |p|
  {
    if p != [] {
      assert (p + [c] + q)[1..] == p[1..] + [c] + q;
      IndexOfAfter(p[1..], c, q);
    }
  }

  lemma {:induction false} SplitJoin(parts: seq<string>, c: char)
    requires |parts| >= 1
    requires forall k :: 0 <= k < |parts| ==> c !in parts[k]
    ensures Split(Join(parts, [c]), c) == parts
    decreases |parts|
  {
    if |parts| == 1 {
      assert IndexOf(parts[0], c) == |parts[0]|;
    } else {
      var tail := Join(parts[1..], [c]);
      IndexOfAfter(parts[0], c, tail);
      var s := parts[0] + [c] + tail;
      assert Join(parts, [c]) == s;
      assert s[..|parts[0]|] == parts[0];
      assert s[|parts[0]| + 1..] == tail;
      assert Split(s, c) == [parts[0]] + Split(tail, c);
      SplitJoin(parts[1..], c);
      assert parts == [parts[0]] + parts[1..];
    }
  }

  lemma ConcatAssoc(a: string, b: string, c: string)
    ensures a + b + c == a + (b + c)
  {
  }

  /** The text after the first separator, up to the next one, is Split's second field. */
  lemma {:induction false} SplitSecondField(p: string, c: char, q: string, r: string)
    requires c !in p && c !in q
    requires r == [] || r[0] == c
    ensures |Split(p + [c] + q + r, c)| >= 2
    ensures Split(p + [c] + q + r, c)[1] == q
  {
    var s := p + [c] + q + r;
    assert s == p + [c] + (q + r);
    IndexOfAfter(p, c, q + r);
    assert s[|p| + 1..] == q + r;
    if r == [] {
      assert IndexOf(q, c) == |q|;
    } else {
      assert q + r == q + [c] + r[1..];
      IndexOfAfter(q, c, r[1..]);
      assert (q + r)[..|q|] == q;
    }
  }

  lemma {:induction false} SplitFixedJoin(parts: seq<string>, width: nat, c: char)
    requires |parts| >= 1
    requires forall k :: 0 <= k < |parts| ==> |parts[k]| == width
    ensures SplitFixed(Join(parts, [c]), width, c) == Some(parts)
    decreases |parts|
  {
    if |parts| > 1 {
      var tail := Join(parts[1..], [c]);
      var s := parts[0] + [c] + tail;
      assert Join(parts, [c]) == s;
      assert |s| > width && s[width] == c;
      assert s[..width] == parts[0];
      assert s[width + 1..] == tail;
      SplitFixedJoin(parts[1..], width, c);
      assert SplitFixed(s, width, c) == Some([parts[0]] + parts[1..]);
      assert parts == [parts[0]] + parts[1..];
    } else {
      assert parts == [parts[0]];
    }
  }
}
