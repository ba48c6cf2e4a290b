/** The string and memory helpers of the interpreter: `strcmp`, `strlen2` and
    `memcpy2`. A pointer is an `Option` (None is NULL) over the bytes it points
    to; a C string is a buffer holding a terminator somewhere. */
module CString {
  import opened Optional

  /** The string terminator; the zero-filled tape also reads it as blank. */
  const NUL: char := '\0'

  /** The error code the helpers return (`ERROR` in the source). */
  const ERROR: int := -1

  /** The unit `memcpy2` copies. */
  newtype byte = b: int | 0 <= b < 0x100

  /** A value of `size_t` on a 64-bit target. */
  type SizeT = n: int | 0 <= n < 0x1_0000_0000_0000_0000

  /** A buffer is a valid C string when a terminator occurs in it. */
  predicate Terminated(buf: seq<char>) {
    NUL in buf
  }

  /** The numeric value `strcmp` subtracts, for a character read from a string. */
  function Code(c: char): int {
    c as int
  }

  /** The characters of `buf` before its first terminator (all of `buf` if it has none). */
  function Content(buf: seq<char>): (s: seq<char>)
    ensures |s| <= |buf| && s == buf[..|s|]
    ensures NUL !in s
    ensures |s| < |buf| ==> buf[|s|] == NUL
  {
    if |buf| == 0 || buf[0] == NUL then [] else [buf[0]] + Content(buf[1..])
  }

  /** Lexicographic order on character codes, in which a proper prefix comes first. */
  predicate LexLess(a: seq<char>, b: seq<char>) {
    |b| > 0 && (|a| == 0 || a[0] < b[0] || (a[0] == b[0] && LexLess(a[1..], b[1..])))
  }

  /** `strcmp`: walks both strings in step until the first terminator of `p1`
      or the first difference, and returns the difference of the codes there. */
  function StrCmp(p1: seq<char>, p2: seq<char>): (r: int)
    requires Terminated(p1) && Terminated(p2)
    ensures r == 0 <==> Content(p1) == Content(p2)
    ensures r < 0 <==> LexLess(Content(p1), Content(p2))
    ensures r > 0 <==> LexLess(Content(p2), Content(p1))
    decreases |p1|
  {
    var c1, c2 := p1[0], p2[0];
    if c1 == NUL || c1 != c2 then
      Code(c1) - Code(c2)
    else
      TailTerminated(p1);
      TailTerminated(p2);
      LexLessCons(c1, Content(p1[1..]), Content(p2[1..]));
      LexLessCons(c1, Content(p2[1..]), Content(p1[1..]));
      StrCmp(p1[1..], p2[1..])
  }

  /** Dropping a leading non-terminator keeps a C string a C string, and takes
      that character off its content. */
  lemma TailTerminated(p: seq<char>)
    requires Terminated(p) && p[0] != NUL
    ensures Terminated(p[1..])
    ensures Content(p) == [p[0]] + Content(p[1..])
  {
    var k :| 0 <= k < |p| && p[k] == NUL;
    assert p[1..][k - 1] == NUL;
  }

  /** A common first character does not decide the order. */
  lemma LexLessCons(c: char, x: seq<char>, y: seq<char>)
    ensures LexLess([c] + x, [c] + y) <==> LexLess(x, y)
  {
    assert ([c] + x)[1..] == x && ([c] + y)[1..] == y;
  }

  /** A proper prefix precedes the longer sequence. */
  lemma {:induction false} PrefixPrecedes(a: seq<char>, b: seq<char>)
    requires |a| < |b| && a == b[..|a|]
    ensures LexLess(a, b)
  {
    if |a| > 0 {
      PrefixPrecedes(a[1..], b[1..]);
    }
  }

  /** A string compares less than every string it is a proper prefix of. */
  lemma StrCmpPrefixIsLess(p1: seq<char>, p2: seq<char>)
    requires Terminated(p1) && Terminated(p2)
    requires |Content(p1)| < |Content(p2)| && Content(p1) == Content(p2)[..|Content(p1)|]
    ensures StrCmp(p1, p2) < 0
  {
    PrefixPrecedes(Content(p1), Content(p2));
  }

  /** A label stored with its terminator reads back as itself. */
  lemma {:induction false} ContentOfTerminated(a: seq<char>)
    requires NUL !in a
    ensures Content(a + [NUL]) == a
  {
    if |a| > 0 {
      assert (a + [NUL])[1..] == a[1..] + [NUL];
      ContentOfTerminated(a[1..]);
    }
  }

  /** `strcmp(a, b) == 0` is exactly equality of the labels, which is how the
      interpreter compares states. */
  lemma LabelsCompareEqual(a: seq<char>, b: seq<char>)
    requires NUL !in a && NUL !in b
    ensures StrCmp(a + [NUL], b + [NUL]) == 0 <==> a == b
  {
    ContentOfTerminated(a);
    ContentOfTerminated(b);
  }

  /** `strlen2`: ERROR for NULL, otherwise the index of the first terminator. */
  method StrLen2(s: Option<seq<char>>) returns (r: int)
    requires s.Some? ==> Terminated(s.value)
    ensures s.None? <==> r == ERROR
    ensures s.Some? ==> 0 <= r < |s.value| && s.value[r] == NUL
    ensures s.Some? ==> forall j :: 0 <= j < r ==> s.value[j] != NUL
    ensures s.Some? ==> r == |Content(s.value)|
  {
    if s.None? {
      return ERROR;
    }
    var buf := s.value;
    var size := 0;
    while buf[size] != NUL
      invariant 0 <= size < |buf|
      invariant NUL in buf[size..]
      invariant forall j :: 0 <= j < size ==> buf[j] != NUL
      decreases |buf| - size
    {
      assert buf[size..] == [buf[size]] + buf[size + 1..];
      size := size + 1;
    }
    r := size;
  }

  /** The `(error_code)len` conversion of a `size_t` to a 32-bit `int`, which
      keeps the low 32 bits as a two's-complement value. */
  function AsErrorCode(n: SizeT): (r: int)
    ensures -0x8000_0000 <= r < 0x8000_0000
    ensures (n - r) % 0x1_0000_0000 == 0
    ensures n < 0x8000_0000 ==> r == n
  {
    var low := n % 0x1_0000_0000;
    if low < 0x8000_0000 then low else low - 0x1_0000_0000
  }

  /** `memcpy2`: copies the first `len` bytes of `src` over `dest`. The result
      is ERROR when either pointer is NULL or `len` is zero. */
  method MemCpy2(dest: Option<seq<byte>>, src: Option<seq<byte>>, len: SizeT)
    returns (r: int, out: Option<seq<byte>>)
    requires dest.Some? && src.Some? ==> len <= |dest.value| && len <= |src.value|
    ensures dest.None? || src.None? || len == 0 ==> r == ERROR && out == dest
    ensures dest.Some? && src.Some? && len > 0 ==>
              && out.Some?
              && |out.value| == |dest.value|
              && out.value[..len] == src.value[..len]
              && out.value[len..] == dest.value[len..]
              && r == AsErrorCode(len)
  {
    if dest.None? || src.None? || len == 0 {
      return ERROR, dest;
    }
    var d, s := dest.value, src.value;
    var i := 0;
    while i < len
      invariant 0 <= i <= len
      invariant |d| == |dest.value|
      invariant d[..i] == s[..i]
      invariant d[i..] == dest.value[i..]
    {
      d := d[i := s[i]];
      i := i + 1;
    }
    r, out := AsErrorCode(len), Some(d);
  }
}
