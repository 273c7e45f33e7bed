/**
 * Small value-level helpers shared by every page of the platform: PHP's
 * notion of an "empty" string, decimal rendering of integers as PHP string
 * interpolation does it, `bin2hex`, `substr($s, 0, n)` and `trim`.
 */
module Common {

  datatype Option<+T> = None | Some(value: T)

  /** PHP's `empty()` applied to a string: both "" and "0" count as empty. */
  predicate PhpEmpty(s: string)
  {
    s == "" || s == "0"
  }

  /**
   * Store faults. Each handler issues its store statements in a fixed order
   * and numbers them from 0; `failAt == Some(k)` says that statement k raises
   * (PDO error wrapped by the data-access layer), `None` that none does.
   */
  predicate Raises(failAt: Option<nat>, k: nat)
  {
    failAt == Some(k)
  }

  // ---------------------------------------------------------------------
  // Decimal rendering, as used by "{$n}" interpolation of integers
  // ---------------------------------------------------------------------

  predicate IsDigit(c: char)
  {
    '0' <= c <= '9'
  }

  predicate AllDigits(s: string)
  {
    forall i :: 0 <= i < |s| ==> IsDigit(s[i])
  }

  function DigitChar(d: nat): (c: char)
    requires d < 10
    ensures IsDigit(c) && (c as int) - ('0' as int) == d
  {
    (('0' as int) + d) as char
  }

  /** Decimal digits of `n`, most significant first, without leading zeros. */
  function NatToString(n: nat): (r: string)
    ensures |r| >= 1 && AllDigits(r)
    ensures r[0] == '0' ==> n == 0 && r == "0"
    decreases n
  {
    if n < 10 then [DigitChar(n)] else NatToString(n / 10) + [DigitChar(n % 10)]
  }

  /** Decimal rendering of a possibly negative integer. */
  function IntToString(i: int): (r: string)
    ensures |r| >= 1
    ensures i < 0 <==> r[0] == '-'
  {
    if i < 0 then "-" + NatToString(-i) else NatToString(i)
  }

  /** The value a string of decimal digits denotes (the partner of NatToString). */
  function ParseNat(s: string): nat
    requires AllDigits(s)
  {
    if s == [] then 0 else ParseNat(s[..|s| - 1]) * 10 + ((s[|s| - 1] as int) - ('0' as int))
  }

  /** The digits after the optional sign read back as the magnitude of the number. */
  lemma IntToStringReadsBack(i: int)
    ensures var r := IntToString(i);
      (i >= 0 ==> AllDigits(r) && ParseNat(r) == i) &&
      (i < 0 ==> AllDigits(r[1..]) && ParseNat(r[1..]) == -i)
  {
    if i < 0 {
      assert IntToString(i)[1..] == NatToString(-i);
      ParseNatToString(-i);
    } else {
      ParseNatToString(i);
    }
  }

  lemma {:induction false} ParseNatToString(n: nat)
    ensures ParseNat(NatToString(n)) == n
    decreases n
  {
    if n >= 10 {
      var s := NatToString(n);
      assert s[..|s| - 1] == NatToString(n / 10);
      ParseNatToString(n / 10);
    }
  }

  /** Decimal rendering loses nothing: distinct numbers print differently. */
  lemma NatToStringInjective(m: nat, n: nat)
    requires NatToString(m) == NatToString(n)
    ensures m == n
  {
    ParseNatToString(m);
    ParseNatToString(n);
  }

  // ---------------------------------------------------------------------
  // bin2hex
  // ---------------------------------------------------------------------

  /** An octet, as returned by `random_bytes`. */
  type Byte = b: int | 0 <= b < 256

  predicate IsHexChar(c: char)
  {
    ('0' <= c <= '9') || ('a' <= c <= 'f')
  }

  predicate AllHex(s: string)
  {
    forall i :: 0 <= i < |s| ==> IsHexChar(s[i])
  }

  function HexDigit(d: nat): (c: char)
    requires d < 16
    ensures IsHexChar(c)
  {
    if d < 10 then (('0' as int) + d) as char else (('a' as int) + d - 10) as char
  }

  function HexValue(c: char): (d: nat)
    requires IsHexChar(c)
    ensures d < 16
    ensures forall e: nat :: e < 16 && c == HexDigit(e) ==> d == e
  {
    if c <= '9' then (c as int) - ('0' as int) else (c as int) - ('a' as int) + 10
  }

  /** PHP `bin2hex`: two lower-case hexadecimal digits per byte, high nibble first. */
  function Bin2Hex(b: seq<Byte>): (r: string)
    ensures |r| == 2 * |b| && AllHex(r)
  {
    if b == [] then []
    else [HexDigit(b[0] / 16), HexDigit(b[0] % 16)] + Bin2Hex(b[1..])
  }

  /** The inverse of Bin2Hex on strings of even length made of hex digits. */
  function Hex2Bin(s: string): seq<Byte>
    requires |s| % 2 == 0 && AllHex(s)
  {
    if s == [] then []
    else [HexValue(s[0]) * 16 + HexValue(s[1])] + Hex2Bin(s[2..])
  }

  lemma {:induction false} Hex2BinOfBin2Hex(b: seq<Byte>)
    ensures Hex2Bin(Bin2Hex(b)) == b
  {
    if b != [] {
      var h := Bin2Hex(b);
      var hi, lo := b[0] / 16, b[0] % 16;
      assert HexValue(h[0]) == hi;
      assert HexValue(h[1]) == lo;
      assert h[2..] == Bin2Hex(b[1..]);
      Hex2BinOfBin2Hex(b[1..]);
    }
  }

  /** Distinct random byte strings give distinct tokens. */
  lemma Bin2HexInjective(a: seq<Byte>, b: seq<Byte>)
    requires Bin2Hex(a) == Bin2Hex(b)
    ensures a == b
  {
    Hex2BinOfBin2Hex(a);
    Hex2BinOfBin2Hex(b);
  }

  // ---------------------------------------------------------------------
  // substr($s, 0, n)
  // ---------------------------------------------------------------------

  /** PHP `substr($s, 0, n)` for n >= 0: the longest prefix of `s` of length at most n. */
  function Truncate(s: string, n: nat): (r: string)
    ensures |r| <= n && r <= s
    ensures |s| <= n ==> r == s
    ensures |s| > n ==> |r| == n
  {
    if |s| <= n then s else s[..n]
  }

  // ---------------------------------------------------------------------
  // trim($s)
  // ---------------------------------------------------------------------

  /** The characters PHP's `trim` strips by default: space, \t, \n, \r, \0 and \x0B. */
  predicate IsTrimmed(c: char)
  {
    c == ' ' || c == '\t' || c == '\n' || c == '\r' || c == '\0' || c == '\U{000B}'
  }

  /** How many strippable characters `s` starts with. */
  function Leading(s: string): (n: nat)
    ensures n <= |s|
  {
    if s != [] && IsTrimmed(s[0]) then 1 + Leading(s[1..]) else 0
  }

  /** The length of `s` once its trailing strippable characters are dropped. */
  function Kept(s: string): (n: nat)
    ensures n <= |s|
  {
    if s != [] && IsTrimmed(s[|s| - 1]) then Kept(s[..|s| - 1]) else |s|
  }

  /** The leading run is all strippable, and the character after it is not. */
  lemma {:induction false} LeadingStripped(s: string)
    ensures forall k :: 0 <= k < Leading(s) ==> IsTrimmed(s[k])
    ensures Leading(s) < |s| ==> !IsTrimmed(s[Leading(s)])
  {
    if s != [] && IsTrimmed(s[0]) {
      var t := s[1..];
      LeadingStripped(t);
      forall k | 1 <= k < Leading(s)
        ensures IsTrimmed(s[k])
      {
        assert s[k] == t[k - 1];
      }
      assert Leading(s) < |s| ==> s[Leading(s)] == t[Leading(t)];
    }
  }

  /** Everything from `Kept(s)` on is strippable, and the last kept character is not. */
  lemma {:induction false} TrailingStripped(s: string)
    ensures forall k :: Kept(s) <= k < |s| ==> IsTrimmed(s[k])
    ensures Kept(s) > 0 ==> !IsTrimmed(s[Kept(s) - 1])
  {
    if s != [] && IsTrimmed(s[|s| - 1]) {
      var p := s[..|s| - 1];
      TrailingStripped(p);
      forall k | Kept(s) <= k < |p|
        ensures IsTrimmed(s[k])
      {
        assert s[k] == p[k];
      }
      assert Kept(s) > 0 ==> s[Kept(s) - 1] == p[Kept(p) - 1];
    }
  }

  /**
   * PHP `trim`: `s` with its leading and trailing default-stripped characters
   * removed; the result neither starts nor ends with a strippable character.
   */
  function Trim(s: string): (r: string)
    ensures |r| <= |s|
    ensures r != [] ==> !IsTrimmed(r[0]) && !IsTrimmed(r[|r| - 1])
  {
    var l := s[Leading(s)..];
    LeadingStripped(s);
    TrailingStripped(l);
    l[..Kept(l)]
  }

  /** `r` is `s[i..j]` and everything outside `[i, j)` is strippable. */
  predicate CutsOnlyStrippable(s: string, r: string, i: nat, j: nat)
  {
    i <= j <= |s| && r == s[i..j] &&
    (forall k :: 0 <= k < i ==> IsTrimmed(s[k])) &&
    (forall k :: j <= k < |s| ==> IsTrimmed(s[k]))
  }

  /** Cutting a strippable prefix and then a strippable suffix leaves a slice of `s`. */
  lemma CutsCompose(s: string, i: nat, n: nat)
    requires i <= |s| && n <= |s| - i
    requires forall k :: 0 <= k < i ==> IsTrimmed(s[k])
    requires forall k :: n <= k < |s| - i ==> IsTrimmed(s[i..][k])
    ensures CutsOnlyStrippable(s, s[i..][..n], i, i + n)
  {
    forall k | i + n <= k < |s|
      ensures IsTrimmed(s[k])
    {
      assert s[k] == s[i..][k - i];
    }
  }

  /**
   * Trim keeps a contiguous slice of its input, `s[i..j]`, and cuts away only
   * strippable characters.
   */
  lemma TrimIsSlice(s: string) returns (i: nat, j: nat)
    ensures CutsOnlyStrippable(s, Trim(s), i, j)
  {
    i := Leading(s);
    var n := Kept(s[i..]);
    LeadingStripped(s);
    TrailingStripped(s[i..]);
    CutsCompose(s, i, n);
    j := i + n;
  }

  // ---------------------------------------------------------------------
  // FILTER_SANITIZE_EMAIL
  // ---------------------------------------------------------------------

  /** The characters FILTER_SANITIZE_EMAIL keeps: ASCII letters, digits and !#$%&'*+-=?^_`{|}~@.[] */
  predicate IsEmailChar(c: char)
  {
    ('a' <= c <= 'z') || ('A' <= c <= 'Z') || ('0' <= c <= '9') || c in EmailPunctuation
  }

  const EmailPunctuation: set<char> :=
    {'!', '#', '$', '%', '&', '\'', '*', '+', '-', '=', '?', '^', '_', '`', '{', '|', '}', '~', '@', '.', '[', ']'}

  /** `filter_input(INPUT_POST, 'email', FILTER_SANITIZE_EMAIL)`: every other character is removed. */
  function SanitizeEmail(s: string): (r: string)
    ensures |r| <= |s|
    ensures forall i :: 0 <= i < |r| ==> IsEmailChar(r[i])
  {
    if s == [] then []
    else
      var n := |s| - 1;
      SanitizeEmail(s[..n]) + (if IsEmailChar(s[n]) then [s[n]] else [])
  }

  /** Appending an allowed character appends it to the sanitized text. */
  lemma SanitizeAppendAllowed(p: string, c: char)
    requires IsEmailChar(c)
    ensures SanitizeEmail(p + [c]) == SanitizeEmail(p) + [c]
  {
    assert (p + [c])[..|p|] == p;
  }

  /** An address made only of allowed characters passes through unchanged. */
  lemma {:induction false} SanitizeKeepsCleanEmail(s: string)
    requires forall i :: 0 <= i < |s| ==> IsEmailChar(s[i])
    ensures SanitizeEmail(s) == s
  {
    if s != [] {
      var n := |s| - 1;
      var p := s[..n];
      assert s == p + [s[n]];
      SanitizeKeepsCleanEmail(p);
      SanitizeAppendAllowed(p, s[n]);
    }
  }

  /** Sanitizing works character by character: it distributes over concatenation. */
  lemma {:induction false} SanitizeDistributes(a: string, b: string)
    ensures SanitizeEmail(a + b) == SanitizeEmail(a) + SanitizeEmail(b)
  {
    if b == [] {
      assert a + b == a;
    } else {
      var n := |b| - 1;
      SanitizeDistributes(a, b[..n]);
      assert (a + b)[..|a + b| - 1] == a + b[..n];
      assert (a + b)[|a + b| - 1] == b[n];
    }
  }

  /** Every allowed character survives, as often as it occurs; nothing else does. */
  lemma {:induction false} SanitizeKeepsAllowed(s: string)
    ensures forall c :: IsEmailChar(c) ==> multiset(SanitizeEmail(s))[c] == multiset(s)[c]
    ensures forall c :: !IsEmailChar(c) ==> multiset(SanitizeEmail(s))[c] == 0
  {
    if s != [] {
      var n := |s| - 1;
      SanitizeKeepsAllowed(s[..n]);
      assert s == s[..n] + [s[n]];
      assert multiset(s) == multiset(s[..n]) + multiset{s[n]};
    }
  }

  /** A POST field read with `?? ''`: an absent field is the empty string. */
  function Posted(field: Option<string>): string
  {
    if field.Some? then field.value else ""
  }

  /** A POST email field read through FILTER_SANITIZE_EMAIL; an absent field reads as empty. */
  function PostedEmail(field: Option<string>): string
  {
    if field.Some? then SanitizeEmail(field.value) else ""
  }

  /** Sanitizing twice is the same as sanitizing once. */
  lemma SanitizeIdempotent(s: string)
    ensures SanitizeEmail(SanitizeEmail(s)) == SanitizeEmail(s)
  {
    SanitizeKeepsCleanEmail(SanitizeEmail(s));
  }
}
