// C string conventions used by the launcher: fixed-size character buffers
// terminated by the first NUL, measured with strlen and filled with strncpy.

module CStrings {

  /**
   * A text value: the characters of a C string up to (not including) its
   * terminator. Each char stands for one C char, that is one byte: lengths,
   * MAXINPUT and Backspace all count bytes, not Unicode characters.
   */
  type Name = seq<char>

  const Nul: char := '\0'

  predicate NulFree(s: seq<char>)
  {
    forall i :: 0 <= i < |s| ==> s[i] != Nul
  }

  /** strlen over a buffer: the index of the first NUL, or the whole length if there is none. */
  function CStrLen(s: seq<char>): (n: nat)
    ensures n <= |s|
    ensures NulFree(s[..n])
    ensures n < |s| ==> s[n] == Nul
  {
    if s == [] || s[0] == Nul then 0
    else
      var rest := CStrLen(s[1..]);
      assert s[..1 + rest] == [s[0]] + s[1..][..rest];
      1 + rest
  }

  /** The string a buffer holds: everything before its first NUL. */
  function CString(s: seq<char>): (r: Name)
    ensures NulFree(r) && r <= s
    ensures |r| == |s| || s[|r|] == Nul
  {
    s[..CStrLen(s)]
  }

  /**
   * The first n elements of s: the characters strncpy(dst, s, n) copies,
   * or the first n results a capped collection keeps.
   */
  function Truncate<T>(s: seq<T>, n: nat): (r: seq<T>)
    ensures r <= s
    ensures |r| == if |s| <= n then |s| else n
  {
    if |s| <= n then s else s[..n]
  }

  /** The first NUL of a buffer is where strlen says it is: the NUL-free prefix is unique. */
  lemma {:induction false} CStrLenAt(s: seq<char>, n: nat)
    requires n <= |s| && NulFree(s[..n])
    requires n < |s| ==> s[n] == Nul
    ensures CStrLen(s) == n
  {
    if n > 0 {
      assert s[..n][0] == s[0];
      assert s[1..][..n - 1] == s[..n][1..];
      CStrLenAt(s[1..], n - 1);
    }
  }

  /** A NUL-free string is its own C string. */
  lemma CStringOfNulFree(s: seq<char>)
    requires NulFree(s)
    ensures CString(s) == s
  {
    assert s[..|s|] == s;
    CStrLenAt(s, |s|);
  }
}
