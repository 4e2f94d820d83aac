/** C character buffers: bytes, the C string a buffer holds, and the two libc
    routines that fill the program's fixed-size fields, `strncpy` and
    `snprintf`, together with the byte-wise ordering of `strcmp`. */
module CStrings {

  /** A C `char`, read as an unsigned byte (as `strcmp` compares them). */
  newtype byte = b: int | 0 <= b < 256

  const NUL: byte := 0

  /** The bytes of an ASCII text (a C string literal of the program). */
  function Ascii(s: string): (r: seq<byte>)
    ensures |r| == |s|
    ensures forall i :: 0 <= i < |s| && s[i] as int < 256 ==> r[i] as int == s[i] as int
  {
    seq(|s|, i requires 0 <= i < |s| => (s[i] as int % 256) as byte)
  }

  /** A text of nonzero 8-bit characters has no NUL byte. */
  lemma AsciiNulFree(s: string)
    requires forall i :: 0 <= i < |s| ==> 0 < s[i] as int < 256
    ensures NUL !in Ascii(s)
  {
  }

  /** Such a text is its own C string. */
  lemma AsciiIsCString(s: string)
    requires forall i :: 0 <= i < |s| ==> 0 < s[i] as int < 256
    ensures CStr(Ascii(s)) == Ascii(s)
  {
    AsciiNulFree(s);
    CStrOfNulFree(Ascii(s));
  }

  /** The C string a buffer holds: its bytes before the first NUL, or all of
      them when it holds none. */
  function CStr(s: seq<byte>): (r: seq<byte>)
    ensures r <= s && NUL !in r
    ensures |r| < |s| ==> s[|r|] == NUL
  {
    if s == [] || s[0] == NUL then [] else [s[0]] + CStr(s[1..])
  }

  /** A NUL-free sequence is its own C string. */
  lemma CStrOfNulFree(s: seq<byte>)
    requires NUL !in s
    ensures CStr(s) == s
  {
  }

  /** The C string of a buffer is fixed by the position of its first NUL. */
  lemma CStrAt(s: seq<byte>, k: nat)
    requires k < |s| && s[k] == NUL && NUL !in s[..k]
    ensures CStr(s) == s[..k]
  {
    var r := CStr(s);
    assert |r| <= k;
  }

  /** Reading a C string back out of its own bytes changes nothing. */
  lemma CStrIdempotent(s: seq<byte>)
    ensures CStr(CStr(s)) == CStr(s)
  {
    CStrOfNulFree(CStr(s));
  }

  /** The first `n` bytes of `s`, or all of `s` when it is shorter. */
  function Truncate(s: seq<byte>, n: nat): (r: seq<byte>)
    ensures |r| == (if |s| < n then |s| else n) && r <= s
  {
    if |s| <= n then s else s[..n]
  }

  /** A `char[size]` field of a zero-initialised record: its last byte is
      NUL, and no write of the program reaches it, so it always holds a C
      string of at most `size - 1` bytes. */
  ghost predicate Terminated(a: array<byte>, size: nat)
    reads a
  {
    size > 0 && a.Length == size && a[size - 1] == NUL
  }

  // ---------------------------------------------------------------- strncpy

  /** The buffer after `strncpy(dst, src, n)`: its first `n` bytes are the C
      string of `src`, cut at `n` bytes and padded with NULs; the bytes from
      `n` on are left as they were. */
  function StrNCpy(dst: seq<byte>, src: seq<byte>, n: nat): (r: seq<byte>)
    requires n <= |dst|
    ensures |r| == |dst| && r[n..] == dst[n..]
    ensures forall i :: 0 <= i < n ==> r[i] == (if i < |CStr(src)| then src[i] else NUL)
  {
    var c := Truncate(CStr(src), n);
    c + seq(n - |c|, _ => NUL) + dst[n..]
  }

  /** Copying into a field with `strncpy(field, src, sizeof(field) - 1)`
      leaves the field holding the C string of `src` cut to `sizeof(field) - 1`
      bytes, and keeps the field's final NUL. */
  lemma {:induction false} StrNCpyReadsBack(dst: seq<byte>, src: seq<byte>, n: nat)
    requires n < |dst| && dst[n] == NUL
    ensures StrNCpy(dst, src, n)[n] == NUL
    ensures CStr(StrNCpy(dst, src, n)) == Truncate(CStr(src), n)
  {
    var r := StrNCpy(dst, src, n);
    var c := Truncate(CStr(src), n);
    var k := |c|;
    assert r[..k] == c by {
      forall i | 0 <= i < k ensures r[i] == c[i] {
        assert CStr(src)[i] == src[i];
      }
    }
    assert r[k] == NUL by {
      if k < n {
        assert k == |CStr(src)|;
      }
    }
    CStrAt(r, k);
  }

  /** `strncpy(dst, src, n)`: copy bytes of `src` up to its terminator (here
      also the end of the sequence) but at most `n`, then pad with NULs up to
      `n`. */
  method StrNCpyInto(dst: array<byte>, src: seq<byte>, n: nat)
    requires n <= dst.Length
    modifies dst
    ensures dst[..] == StrNCpy(old(dst[..]), src, n)
  {
    ghost var c := CStr(src);
    var i := 0;
    while i < n && i < |src| && src[i] != NUL
      invariant i <= n && i <= |c|
      invariant forall j :: 0 <= j < i ==> dst[j] == src[j]
      invariant forall j :: i <= j < dst.Length ==> dst[j] == old(dst[j])
    {
      dst[i] := src[i];
      i := i + 1;
    }
    assert i == |Truncate(c, n)|;
    while i < n
      invariant |Truncate(c, n)| <= i <= n
      invariant forall j :: 0 <= j < |Truncate(c, n)| ==> dst[j] == src[j]
      invariant forall j :: |Truncate(c, n)| <= j < i ==> dst[j] == NUL
      invariant forall j :: i <= j < dst.Length ==> dst[j] == old(dst[j])
    {
      dst[i] := NUL;
      i := i + 1;
    }
    ghost var r := StrNCpy(old(dst[..]), src, n);
    assert forall j :: 0 <= j < dst.Length ==> dst[..][j] == r[j];
  }

  /** `strncpy(field, src, sizeof(field) - 1)` on a terminated field, read
      back: the field holds the C string of `src` cut to `sizeof(field) - 1`
      bytes and stays terminated. */
  method StrNCpyField(field: array<byte>, src: seq<byte>)
    requires field.Length > 0 && field[field.Length - 1] == NUL
    modifies field
    ensures field[field.Length - 1] == NUL
    ensures CStr(field[..]) == Truncate(CStr(src), field.Length - 1)
  {
    StrNCpyReadsBack(field[..], src, field.Length - 1);
    StrNCpyInto(field, src, field.Length - 1);
  }

  // --------------------------------------------------------------- snprintf

  /** The buffer after `snprintf(dst, sizeof(dst), fmt, ...)` whose formatted
      output is `text`: as much of `text` as fits before the last byte, then a
      NUL; the bytes after that NUL are left as they were. */
  function SnPrintf(dst: seq<byte>, text: seq<byte>): (r: seq<byte>)
    requires |dst| > 0
    ensures |r| == |dst|
    ensures r[..|Truncate(text, |dst| - 1)|] == Truncate(text, |dst| - 1)
    ensures r[|Truncate(text, |dst| - 1)|] == NUL
    ensures r[|Truncate(text, |dst| - 1)| + 1..] == dst[|Truncate(text, |dst| - 1)| + 1..]
  {
    var t := Truncate(text, |dst| - 1);
    t + [NUL] + dst[|t| + 1..]
  }

  /** What `snprintf` leaves in a field, read back as a C string: the
      formatted text cut to `sizeof(field) - 1` bytes. */
  lemma SnPrintfReadsBack(dst: seq<byte>, text: seq<byte>)
    requires |dst| > 0 && NUL !in text
    ensures dst[|dst| - 1] == NUL ==> SnPrintf(dst, text)[|dst| - 1] == NUL
    ensures CStr(SnPrintf(dst, text)) == Truncate(text, |dst| - 1)
  {
    var r := SnPrintf(dst, text);
    var t := Truncate(text, |dst| - 1);
    assert NUL !in r[..|t|];
    CStrAt(r, |t|);
  }

  /** `snprintf(dst, dst.Length, ...)` with formatted output `text`. */
  method SnPrintfInto(dst: array<byte>, text: seq<byte>)
    requires dst.Length > 0
    modifies dst
    ensures dst[..] == SnPrintf(old(dst[..]), text)
  {
    var i := 0;
    while i < dst.Length - 1 && i < |text|
      invariant i <= dst.Length - 1 && i <= |text|
      invariant forall j :: 0 <= j < i ==> dst[j] == text[j]
      invariant forall j :: i <= j < dst.Length ==> dst[j] == old(dst[j])
    {
      dst[i] := text[i];
      i := i + 1;
    }
    dst[i] := NUL;
    ghost var r := SnPrintf(old(dst[..]), text);
    assert i == |Truncate(text, dst.Length - 1)|;
    assert forall j :: 0 <= j < dst.Length ==> dst[..][j] == r[j];
  }

  /** `snprintf(field, sizeof(field), ...)` with NUL-free output `text`,
      read back: the field holds `text` cut to `sizeof(field) - 1` bytes and
      stays terminated. */
  method SnPrintfField(field: array<byte>, text: seq<byte>)
    requires field.Length > 0 && field[field.Length - 1] == NUL && NUL !in text
    modifies field
    ensures field[field.Length - 1] == NUL
    ensures CStr(field[..]) == Truncate(text, field.Length - 1)
  {
    SnPrintfReadsBack(field[..], text);
    SnPrintfInto(field, text);
  }

  // ----------------------------------------------------------------- strcmp

  /** `strcmp(a, b) < 0` for the C strings `a` and `b`: at the first byte
      where they differ, `a`'s is smaller, or `a` is a proper prefix of `b`. */
  function Below(a: seq<byte>, b: seq<byte>): (r: bool)
    ensures a < b ==> r
    ensures b < a ==> !r
  {
    if a == [] || b == [] then a == [] && b != []
    else if a[0] != b[0] then a[0] < b[0]
    else Below(a[1..], b[1..])
  }

  /** After a common prefix of length `k`, the first differing byte decides
      the comparison. */
  lemma {:induction false} BelowAtFirstDifference(a: seq<byte>, b: seq<byte>, k: nat)
    requires k < |a| && k < |b| && a[..k] == b[..k] && a[k] != b[k]
    ensures Below(a, b) <==> a[k] < b[k]
  {
    if k > 0 {
      assert a[0] == a[..k][0] == b[..k][0] == b[0];
      assert a[1..][..k - 1] == a[..k][1..] == b[..k][1..] == b[1..][..k - 1];
      BelowAtFirstDifference(a[1..], b[1..], k - 1);
    }
  }

  /** The usual lexicographic order: `a` is a proper prefix of `b`, or both
      share a prefix after which `a` has the smaller byte. */
  ghost predicate Lexicographic(a: seq<byte>, b: seq<byte>)
  {
    (a < b) || exists k :: 0 <= k < |a| && k < |b| && a[..k] == b[..k] && a[k] < b[k]
  }

  /** Dropping a common first byte does not change the lexicographic order. */
  lemma LexicographicTail(a: seq<byte>, b: seq<byte>)
    requires a != [] && b != [] && a[0] == b[0]
    ensures Lexicographic(a, b) <==> Lexicographic(a[1..], b[1..])
  {
    if a[1..] < b[1..] {
      assert a < b;
    }
    if a < b {
      assert a[1..] < b[1..];
    }
    if k :| 0 <= k < |a[1..]| && k < |b[1..]| && a[1..][..k] == b[1..][..k] && a[1..][k] < b[1..][k] {
      assert a[..k + 1] == b[..k + 1];
    }
    if k :| 0 <= k < |a| && k < |b| && a[..k] == b[..k] && a[k] < b[k] {
      assert k > 0;
      assert a[1..][..k - 1] == a[..k][1..] == b[..k][1..] == b[1..][..k - 1];
    }
  }

  /** `Below` is the lexicographic order. */
  lemma {:induction false} BelowIsLexicographic(a: seq<byte>, b: seq<byte>)
    ensures Below(a, b) <==> Lexicographic(a, b)
  {
    if a == [] || b == [] {
    } else if a[0] != b[0] {
      if Below(a, b) {
        assert a[..0] == b[..0];
      }
    } else {
      BelowIsLexicographic(a[1..], b[1..]);
      LexicographicTail(a, b);
    }
  }

  lemma {:induction false} BelowIrreflexive(a: seq<byte>)
    ensures !Below(a, a)
  {
    if a != [] {
      BelowIrreflexive(a[1..]);
    }
  }

  lemma {:induction false} BelowTransitive(a: seq<byte>, b: seq<byte>, c: seq<byte>)
    requires Below(a, b) && Below(b, c)
    ensures Below(a, c)
  {
    if a != [] && a[0] == b[0] && b[0] == c[0] {
      BelowTransitive(a[1..], b[1..], c[1..]);
    }
  }

  lemma BelowAsymmetric(a: seq<byte>, b: seq<byte>)
    requires Below(a, b)
    ensures !Below(b, a)
  {
    if Below(b, a) {
      BelowTransitive(a, b, a);
      BelowIrreflexive(a);
    }
  }

  lemma {:induction false} BelowTotal(a: seq<byte>, b: seq<byte>)
    requires a != b
    ensures Below(a, b) || Below(b, a)
  {
    if a != [] && b != [] && a[0] == b[0] {
      assert a == [a[0]] + a[1..] && b == [b[0]] + b[1..];
      BelowTotal(a[1..], b[1..]);
    }
  }

  /** `strcmp(a, b) <= 0`, the order the holiday search relies on, is
      transitive. */
  lemma AtMostTransitive(a: seq<byte>, b: seq<byte>, c: seq<byte>)
    requires !Below(b, a) && !Below(c, b)
    ensures !Below(c, a)
  {
    if Below(c, a) {
      if a == b {
      } else if b == c {
      } else {
        BelowTotal(a, b);
        BelowTotal(b, c);
        BelowTransitive(a, b, c);
        BelowTransitive(c, a, b);
      }
    }
  }
}
