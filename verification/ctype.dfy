/** Character classification and case folding of the C library in the "C"
    locale, C strings (NUL-terminated character buffers), and the program's
    in-place `to_lower`. A byte of a file is modelled as a `char`. */
module CType {

  /** `isspace` in the "C" locale: space, tab, newline, vertical tab,
      form feed and carriage return ('\t' .. '\r' are 9 .. 13). */
  predicate IsSpace(c: char)
    ensures IsSpace(c) <==> c as int in {32, 9, 10, 11, 12, 13}
  {
    c == ' ' || '\t' <= c <= '\r'
  }

  predicate IsUpper(c: char) {
    'A' <= c <= 'Z'
  }

  /** `tolower` in the "C" locale: only the 26 ASCII capitals change. */
  function Lower(c: char): (d: char)
    ensures !IsUpper(d)
    ensures d == c <==> !IsUpper(c)
    ensures 'a' <= d <= 'z' <==> 'a' <= c <= 'z' || IsUpper(c)
    ensures IsSpace(d) <==> IsSpace(c)
    ensures d == '\0' <==> c == '\0'
  {
    if IsUpper(c) then (c as int + 32) as char else c
  }

  /** Every character of `s` passed through `tolower`. */
  function FoldCase(s: string): string
  {
    seq(|s|, i requires 0 <= i < |s| => Lower(s[i]))
  }

  predicate NulFree(s: string) {
    forall k :: 0 <= k < |s| ==> s[k] != '\0'
  }

  /** The C string held by a buffer: everything before its first NUL
      (`strcmp` and `to_lower` stop there). */
  function CStr(s: string): (r: string)
    ensures |r| <= |s| && r == s[..|r|]
    ensures NulFree(r)
    ensures |r| < |s| ==> s[|r|] == '\0'
  {
    if s == [] || s[0] == '\0' then [] else [s[0]] + CStr(s[1..])
  }

  /** What `to_lower` leaves in a buffer: the characters before the first
      NUL are lowered, the NUL and everything after it are untouched. */
  function LowerCString(s: string): (r: string)
    ensures |r| == |s|
    ensures forall k :: 0 <= k < |s| ==> r[k] == if k < |CStr(s)| then Lower(s[k]) else s[k]
  {
    if s == [] || s[0] == '\0' then s else [Lower(s[0])] + LowerCString(s[1..])
  }

  /** Lowering a buffer twice gives what lowering it once gives. */
  lemma {:induction false} LowerCStringIdempotent(s: string)
    ensures LowerCString(LowerCString(s)) == LowerCString(s)
  {
    if s != [] && s[0] != '\0' {
      LowerCStringIdempotent(s[1..]);
      assert LowerCString(s) == [Lower(s[0])] + LowerCString(s[1..]);
    }
  }

  /** The C string left by `to_lower` is the case-folded C string. */
  lemma {:induction false} CStrOfLowered(s: string)
    ensures CStr(LowerCString(s)) == FoldCase(CStr(s))
  {
    if s != [] && s[0] != '\0' {
      CStrOfLowered(s[1..]);
      assert LowerCString(s) == [Lower(s[0])] + LowerCString(s[1..]);
    }
  }

  /** A buffer whose first |w| + 1 cells are `w` and a NUL holds the C
      string `CStr(w)`, whatever follows. */
  lemma {:induction false} CStrOfTerminated(a: string, w: string)
    requires |w| < |a| && a[..|w| + 1] == w + ['\0']
    ensures CStr(a) == CStr(w)
  {
    if w != [] {
      assert a[0] == w[0];
      if w[0] != '\0' {
        assert a[1..][..|w[1..]| + 1] == w[1..] + ['\0'];
        CStrOfTerminated(a[1..], w[1..]);
      }
    }
  }

  /** A string without NUL is its own C string. */
  lemma {:induction false} NulFreeCStr(s: string)
    requires NulFree(s)
    ensures CStr(s) == s
  {
    if s != [] {
      NulFreeCStr(s[1..]);
    }
  }

  /** Case folding keeps exactly the C-string structure: no NUL is created
      or removed. */
  lemma {:induction false} CStrOfFolded(s: string)
    ensures CStr(FoldCase(s)) == FoldCase(CStr(s))
  {
    if s != [] && s[0] != '\0' {
      assert FoldCase(s)[1..] == FoldCase(s[1..]);
      CStrOfFolded(s[1..]);
    }
  }

  /** A NUL at index `k` ends the C string at or before `k`. */
  lemma {:induction false} CStrStopsAtNul(s: string, k: nat)
    requires k < |s| && s[k] == '\0'
    ensures |CStr(s)| <= k
  {
    if k > 0 && s[0] != '\0' {
      CStrStopsAtNul(s[1..], k - 1);
    }
  }

  /** `to_lower(str)`: lowers `str` in place up to its terminating NUL. */
  method ToLower(str: array<char>)
    requires exists k :: 0 <= k < str.Length && str[k] == '\0'
    modifies str
    ensures str[..] == LowerCString(old(str[..]))
  {
    ghost var s := str[..];
    ghost var n := |CStr(s)|;
    ghost var nul :| 0 <= nul < str.Length && str[nul] == '\0';
    CStrStopsAtNul(s, nul);
    var i := 0;
    while str[i] != '\0'
      invariant 0 <= i <= n
      invariant forall k :: 0 <= k < i ==> str[k] == Lower(s[k])
      invariant forall k :: i <= k < str.Length ==> str[k] == s[k]
      decreases n - i
    {
      str[i] := Lower(str[i]);
      i := i + 1;
    }
    CStrStopsAtNul(s, i);
    assert str[..] == LowerCString(s);
  }
}
