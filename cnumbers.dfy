/** C integers as the program meets them: the 32-bit `int` of its records,
    the narrowing of a JSON integer into it, `atoi`, and the `%d` conversion
    of `snprintf`. */
module CNumbers {
  import opened CStrings

  /** A C `int`: 32 bits, two's complement. */
  newtype int32 = x: int | -0x8000_0000 <= x < 0x8000_0000

  const Int64Min: int := -0x8000_0000_0000_0000
  const Int64Max: int := 0x7fff_ffff_ffff_ffff

  /** Assigning a wider integer to an `int`: the low 32 bits, read as two's
      complement (GCC's documented conversion). */
  function Wrap32(x: int): (r: int32)
    ensures (x - r as int) % 0x1_0000_0000 == 0
    ensures -0x8000_0000 <= x < 0x8000_0000 ==> r as int == x
  {
    ((x + 0x8000_0000) % 0x1_0000_0000 - 0x8000_0000) as int32
  }

  /** `strtol`'s saturation to the range of a 64-bit `long`. */
  function Clamp64(x: int): (r: int)
    ensures Int64Min <= r <= Int64Max
    ensures Int64Min <= x <= Int64Max ==> r == x
  {
    if x < Int64Min then Int64Min else if x > Int64Max then Int64Max else x
  }

  /** '0' to '9'. */
  predicate IsDigit(b: byte)
  {
    48 <= b <= 57
  }

  /** `isspace` in the C locale: space, and '\t' to '\r'. */
  predicate IsSpace(b: byte)
  {
    b == 32 || 9 <= b <= 13
  }

  /** `s` without its leading white space. */
  function SkipSpace(s: seq<byte>): (r: seq<byte>)
    ensures |r| <= |s| && r == s[|s| - |r|..]
    ensures r == [] || !IsSpace(r[0])
    ensures forall i :: 0 <= i < |s| - |r| ==> IsSpace(s[i])
  {
    if s != [] && IsSpace(s[0]) then SkipSpace(s[1..]) else s
  }

  /** The longest run of decimal digits that `s` starts with. */
  function DigitRun(s: seq<byte>): (r: seq<byte>)
    ensures r <= s && forall i :: 0 <= i < |r| ==> IsDigit(r[i])
    ensures |r| < |s| ==> !IsDigit(s[|r|])
  {
    if s != [] && IsDigit(s[0]) then [s[0]] + DigitRun(s[1..]) else []
  }

  /** The number a run of decimal digits spells, most significant first. */
  function DigitsValue(d: seq<byte>): nat
    requires forall i :: 0 <= i < |d| ==> IsDigit(d[i])
  {
    if d == [] then 0
    else
      assert IsDigit(d[|d| - 1]);
      DigitsValue(d[..|d| - 1]) * 10 + (d[|d| - 1] as int - 48)
  }

  /** `atoi(s)` as glibc computes it, `(int) strtol(s, NULL, 10)`: skip white
      space, read an optional sign and the digits after it, saturate to a
      `long`, narrow to an `int`. A string with no digits gives 0. */
  function Atoi(s: seq<byte>): (r: int32)
    ensures (forall i :: 0 <= i < |s| ==> !IsDigit(s[i])) ==> r == 0
  {
    var t := SkipSpace(s);
    var negative := |t| > 0 && t[0] == 45;
    var unsigned := if |t| > 0 && (t[0] == 45 || t[0] == 43) then t[1..] else t;
    var magnitude: int := DigitsValue(DigitRun(unsigned));
    Wrap32(Clamp64(if negative then -magnitude else magnitude))
  }

  /** The decimal digits of `n`, most significant first, without leading
      zeros. */
  function FormatNat(n: nat): (r: seq<byte>)
    ensures |r| > 0 && forall i :: 0 <= i < |r| ==> IsDigit(r[i])
  {
    if n < 10 then [(48 + n) as byte] else FormatNat(n / 10) + [(48 + n % 10) as byte]
  }

  /** The `%d` conversion of `printf`: a minus sign for negative numbers,
      then the digits. */
  function FormatInt(n: int): (r: seq<byte>)
    ensures NUL !in r && |r| > 0
    ensures r[0] == 45 <==> n < 0
    ensures forall i :: 0 < i < |r| ==> IsDigit(r[i])
    ensures n >= 0 ==> IsDigit(r[0])
  {
    if n < 0 then [45] + FormatNat(-n) else FormatNat(n)
  }

  lemma {:induction false} DigitsValueOfFormatNat(n: nat)
    ensures DigitsValue(FormatNat(n)) == n
  {
    if n >= 10 {
      var d := FormatNat(n);
      assert d[..|d| - 1] == FormatNat(n / 10);
      DigitsValueOfFormatNat(n / 10);
    }
  }

  lemma {:induction false} DigitRunOfDigits(d: seq<byte>)
    requires forall i :: 0 <= i < |d| ==> IsDigit(d[i])
    ensures DigitRun(d) == d
  {
    if d != [] {
      DigitRunOfDigits(d[1..]);
    }
  }

  /** `atoi` reads back what `%d` writes: the conversion of a population or
      a year written as decimal text is exact. */
  lemma AtoiFormatInt(n: int32)
    ensures Atoi(FormatInt(n as int)) == n
  {
    var s := FormatInt(n as int);
    var m: nat := if n < 0 then -(n as int) else n as int;
    var d := FormatNat(m);
    assert IsDigit(d[0]);
    assert !IsSpace(s[0]);
    assert SkipSpace(s) == s;
    DigitRunOfDigits(d);
    DigitsValueOfFormatNat(m);
    if n < 0 {
      assert s == [45] + d && s[1..] == d;
      assert Atoi(s) == Wrap32(Clamp64(-(m as int)));
    } else {
      assert s == d && s[0] != 45 && s[0] != 43;
      assert Atoi(s) == Wrap32(Clamp64(m));
    }
  }

  /** A number below `10^k` has at most `k` digits (and at least one). */
  lemma {:induction false} FormatNatLength(n: nat, k: nat)
    requires k > 0 && n < Pow10(k)
    ensures |FormatNat(n)| <= k
  {
    if n < 10 {
      assert |FormatNat(n)| == 1;
    } else {
      FormatNatLength(n / 10, k - 1);
    }
  }

  function Pow10(k: nat): nat
  {
    if k == 0 then 1 else 10 * Pow10(k - 1)
  }

  /** The `%d` text of an `int` takes at most 11 bytes: a sign and ten
      digits. */
  lemma FormatInt32Length(n: int32)
    ensures |FormatInt(n as int)| <= 11
  {
    assert Pow10(10) == 10000000000;
    FormatNatLength(if n < 0 then -(n as int) else n as int, 10);
  }
}
