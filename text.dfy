/** The JavaScript string operations the handlers rely on:
    `String.prototype.trim` (also applied by Mongoose's `trim: true` setters),
    `toLowerCase`, the ObjectId test `/^[0-9a-fA-F]{24}$/`, and `parseInt`. */
module Text {
  import opened Common

  /** JavaScript's WhiteSpace and LineTerminator code points, which `trim` and
      `parseInt` skip. */
  predicate IsWhitespace(c: char) {
    || c == ' ' || c == '\t' || c == '\n' || c == '\r' || c == '\U{B}' || c == '\U{C}'
    || c == '\U{A0}' || c == '\U{1680}' || ('\U{2000}' <= c <= '\U{200A}')
    || c == '\U{2028}' || c == '\U{2029}' || c == '\U{202F}' || c == '\U{205F}'
    || c == '\U{3000}' || c == '\U{FEFF}'
  }

  /** Drops leading whitespace. */
  function TrimStart(s: string): string {
    if |s| > 0 && IsWhitespace(s[0]) then TrimStart(s[1..]) else s
  }

  /** Drops trailing whitespace. */
  function TrimEnd(s: string): string {
    if |s| > 0 && IsWhitespace(s[|s| - 1]) then TrimEnd(s[..|s| - 1]) else s
  }

  /** `TrimStart` leaves the suffix of `s` that follows its longest all-whitespace prefix. */
  lemma {:induction false} TrimStartShape(s: string)
    ensures var r := TrimStart(s);
            && |r| <= |s| && r == s[|s| - |r|..]
            && (forall k :: 0 <= k < |s| - |r| ==> IsWhitespace(s[k]))
            && (r == [] || !IsWhitespace(r[0]))
  {
    if |s| > 0 && IsWhitespace(s[0]) {
      TrimStartShape(s[1..]);
      var r := TrimStart(s[1..]);
      assert s[1..][|s| - 1 - |r|..] == s[|s| - |r|..];
      assert forall k :: 1 <= k < |s| - |r| ==> s[k] == s[1..][k - 1];
    }
  }

  /** `TrimEnd` leaves the prefix of `s` that precedes its longest all-whitespace suffix. */
  lemma {:induction false} TrimEndShape(s: string)
    ensures var r := TrimEnd(s);
            && |r| <= |s| && r == s[..|r|]
            && (forall k :: |r| <= k < |s| ==> IsWhitespace(s[k]))
            && (r == [] || !IsWhitespace(r[|r| - 1]))
  {
    if |s| > 0 && IsWhitespace(s[|s| - 1]) {
      TrimEndShape(s[..|s| - 1]);
      var r := TrimEnd(s[..|s| - 1]);
      assert s[..|s| - 1][..|r|] == s[..|r|];
      assert forall k :: |r| <= k < |s| - 1 ==> s[k] == s[..|s| - 1][k];
    }
  }

  /** `s.trim()`. */
  function Trim(s: string): string {
    TrimEnd(TrimStart(s))
  }

  /** A string that neither starts nor ends with whitespace: what a `trim: true`
      setter leaves behind. */
  predicate IsTrimmed(s: string) {
    s == [] || (!IsWhitespace(s[0]) && !IsWhitespace(s[|s| - 1]))
  }

  /** What `trim` promises: a slice of `s` with only whitespace cut off either end,
      that neither starts nor ends with whitespace. */
  lemma TrimIsCore(s: string)
    ensures |Trim(s)| <= |s|
    ensures IsTrimmed(Trim(s))
    ensures Trim(s) == [] <==> forall k :: 0 <= k < |s| ==> IsWhitespace(s[k])
  {
    var t := TrimStart(s);
    var r := TrimEnd(t);
    TrimStartShape(s);
    TrimEndShape(t);
    if r != [] {
      assert r[0] == t[0];
    } else {
      assert t == [];
    }
  }

  /** `trim` leaves a trimmed string as it is. */
  lemma TrimmedIsFixed(s: string)
    requires IsTrimmed(s)
    ensures Trim(s) == s
  {
    if s != [] {
      assert TrimStart(s) == s;
      assert TrimEnd(s) == s;
    }
  }

  /** Trimming twice is trimming once. */
  lemma TrimIdempotent(s: string)
    ensures Trim(Trim(s)) == Trim(s)
  {
    TrimIsCore(s);
    TrimmedIsFixed(Trim(s));
  }

  /** The characters whose JavaScript lower case is a single ASCII letter: the ASCII
      capitals and the Kelvin sign. */
  predicate FoldsToAscii(c: char) {
    ('A' <= c <= 'Z') || c == '\U{212A}'
  }

  /** `c.toLowerCase()` on the characters of `FoldsToAscii`; every other character is
      kept. */
  function LowerChar(c: char): (l: char)
    ensures !FoldsToAscii(l)
    ensures FoldsToAscii(c) ==> 'a' <= l <= 'z'
    ensures !FoldsToAscii(c) ==> l == c
  {
    if 'A' <= c <= 'Z' then (c as int + 32) as char
    else if c == '\U{212A}' then 'k'
    else c
  }

  /** `s.toLowerCase()` restricted to the ASCII letters and the Kelvin sign: the string
      keeps its length, no character of `FoldsToAscii` is left, and every other
      character stays where it was. */
  function ToLower(s: string): (r: string)
    ensures |r| == |s|
    ensures forall i :: 0 <= i < |r| ==> !FoldsToAscii(r[i])
    ensures forall i :: 0 <= i < |s| && !FoldsToAscii(s[i]) ==> r[i] == s[i]
  {
    seq(|s|, i requires 0 <= i < |s| => LowerChar(s[i]))
  }

  /** A string without capitals to fold is its own lower case. */
  lemma LowerFixed(s: string)
    requires forall i :: 0 <= i < |s| ==> !FoldsToAscii(s[i])
    ensures ToLower(s) == s
  {
  }

  /** Lowering twice is lowering once. */
  lemma ToLowerIdempotent(s: string)
    ensures ToLower(ToLower(s)) == ToLower(s)
  {
    LowerFixed(ToLower(s));
  }

  predicate IsHexDigit(c: char) {
    ('0' <= c <= '9') || ('a' <= c <= 'f') || ('A' <= c <= 'F')
  }

  /** The test `/^[0-9a-fA-F]{24}$/`: exactly 24 hexadecimal digits (JavaScript's
      `$` without the `m` flag matches only at the end of the input). */
  predicate IsObjectIdShaped(s: string) {
    |s| == 24 && forall i :: 0 <= i < |s| ==> IsHexDigit(s[i])
  }

  /** A hexadecimal digit as `ObjectId.toString` writes it: no capital letters. */
  predicate IsLowerHex(c: char) {
    ('0' <= c <= '9') || ('a' <= c <= 'f')
  }

  /** The `_id` a string names once Mongoose casts it to an ObjectId: 24 hexadecimal
      digits, in either case, name the id whose `toString` is their lower-case form.
      Any other string is kept as it is, and matches no id the database generated. */
  function IdKey(s: string): (k: string)
    ensures IsObjectIdShaped(s) ==> && |k| == 24
                                    && forall i :: 0 <= i < 24 ==> IsLowerHex(k[i]) && k[i] == LowerChar(s[i])
    ensures !IsObjectIdShaped(s) ==> k == s
  {
    if IsObjectIdShaped(s) then ToLower(s) else s
  }

  /** Casting ignores the case of the hexadecimal letters. */
  lemma IdKeyIgnoresCase(s: string, s': string)
    requires IsObjectIdShaped(s) && |s'| == |s|
    requires forall i :: 0 <= i < |s| ==> LowerChar(s'[i]) == LowerChar(s[i])
    ensures IsObjectIdShaped(s') && IdKey(s') == IdKey(s)
  {
    forall i | 0 <= i < |s'| ensures IsHexDigit(s'[i]) {
      assert IsHexDigit(s[i]);
    }
  }

  /** A cast id casts to itself. */
  lemma IdKeyIdempotent(s: string)
    ensures IdKey(IdKey(s)) == IdKey(s)
  {
    if IsObjectIdShaped(s) {
      var k := IdKey(s);
      assert IsObjectIdShaped(k);
      assert IdKey(k) == k;
    }
  }

  /** The value of `c` as a digit in base 36, or 36 when it is not one. */
  function DigitValue(c: char): (d: nat)
    ensures d <= 36
  {
    if '0' <= c <= '9' then c as int - '0' as int
    else if 'a' <= c <= 'z' then c as int - 'a' as int + 10
    else if 'A' <= c <= 'Z' then c as int - 'A' as int + 10
    else 36
  }

  /** The longest prefix of `s` made of digits of the given radix. */
  function DigitPrefix(s: string, radix: nat): (r: string)
    ensures |r| <= |s| && r == s[..|r|]
    ensures forall k :: 0 <= k < |r| ==> DigitValue(r[k]) < radix
    ensures |r| == |s| || DigitValue(s[|r|]) >= radix
  {
    if |s| > 0 && DigitValue(s[0]) < radix then [s[0]] + DigitPrefix(s[1..], radix) else []
  }

  /** The number a digit string denotes in the given radix, most significant first. */
  function DigitsValue(ds: string, radix: nat): nat {
    if ds == [] then 0
    else DigitsValue(ds[..|ds| - 1], radix) * radix + (if DigitValue(ds[|ds| - 1]) < radix then DigitValue(ds[|ds| - 1]) else 0)
  }

  /** `parseInt(s)` without a radix: skip leading whitespace, read an optional sign,
      read base 16 after a `0x`/`0X` prefix and base 10 otherwise, and use the
      longest digit prefix; `None` is `NaN`. */
  function ParseInt(s: string): Option<int> {
    ParseSigned(TrimStart(s))
  }

  function ParseSigned(t: string): Option<int> {
    if |t| > 0 && t[0] == '-' then
      match ParseUnsigned(t[1..])
      case None => None
      case Some(v) => Some(-v)
    else if |t| > 0 && t[0] == '+' then ParseUnsigned(t[1..])
    else ParseUnsigned(t)
  }

  function ParseUnsigned(u: string): Option<int> {
    if |u| >= 2 && u[0] == '0' && (u[1] == 'x' || u[1] == 'X') then ParseDigits(u[2..], 16)
    else ParseDigits(u, 10)
  }

  function ParseDigits(w: string, radix: nat): Option<int> {
    var ds := DigitPrefix(w, radix);
    if ds == [] then None else Some(DigitsValue(ds, radix))
  }

  /** The decimal digits of a natural number, as `String(n)` writes them. */
  function NatDigits(n: nat): (r: string)
    ensures |r| >= 1 && forall k :: 0 <= k < |r| ==> '0' <= r[k] <= '9'
    ensures n >= 10 ==> r[0] != '0'
  {
    if n < 10 then [('0' as int + n) as char]
    else NatDigits(n / 10) + [('0' as int + n % 10) as char]
  }

  /** `String(n)` for an integer `n`. */
  function Decimal(n: int): string {
    if n < 0 then "-" + NatDigits(-n) else NatDigits(n)
  }

  lemma {:induction false} NatDigitsValue(n: nat)
    ensures DigitsValue(NatDigits(n), 10) == n
  {
    var r := NatDigits(n);
    if n >= 10 {
      assert r[..|r| - 1] == NatDigits(n / 10);
      NatDigitsValue(n / 10);
    }
  }

  lemma {:induction false} AllDigitsPrefix(ds: string)
    requires forall k :: 0 <= k < |ds| ==> '0' <= ds[k] <= '9'
    ensures DigitPrefix(ds, 10) == ds
  {
    if |ds| > 0 {
      AllDigitsPrefix(ds[1..]);
    }
  }

  /** A count sent as a JSON integer is read back by `parseInt` as that integer. */
  lemma ParseIntDecimal(n: int)
    ensures ParseInt(Decimal(n)) == Some(n)
  {
    var m: nat := if n < 0 then -n else n;
    var ds := NatDigits(m);
    var s := Decimal(n);
    assert s[0] == '-' || '0' <= s[0] <= '9';
    assert !IsWhitespace(s[0]);
    assert TrimStart(s) == s;
    AllDigitsPrefix(ds);
    NatDigitsValue(m);
    assert ParseDigits(ds, 10) == Some(m);
    assert ParseUnsigned(ds) == Some(m);
    if n < 0 {
      assert s[1..] == ds;
    }
  }
}
