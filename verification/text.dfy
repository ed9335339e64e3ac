/** String helpers the JavaScript code relies on: `toUpperCase` (room codes)
    and `trim` (form inputs). Strings are sequences of Unicode scalar values. */
module Text {
  import opened Common

  /** ASCII part of `String.prototype.toUpperCase`. Created room codes are
      drawn from the nanoid alphabet `A-Za-z0-9_-`, where this is the whole
      mapping. A code typed by a user or taken from a URL may hold other
      characters, which the full mapping can turn into ASCII (`ß` to `SS`,
      `ı` to `I`, `ſ` to `S`); those are left unchanged here. */
  function UpperChar(c: char): (u: char)
    ensures 'a' <= c <= 'z' ==> u as int == c as int - 32
    ensures !('a' <= c <= 'z') ==> u == c
    ensures !('a' <= u <= 'z')
  {
    if 'a' <= c <= 'z' then (c as int - 32) as char else c
  }

  function ToUpper(s: string): (r: string)
    ensures |r| == |s|
    ensures forall i :: 0 <= i < |s| ==> r[i] == UpperChar(s[i])
  {
    if |s| == 0 then [] else [UpperChar(s[0])] + ToUpper(s[1..])
  }

  /** Upper-casing twice is upper-casing once, so a looked-up code is stable. */
  lemma ToUpperIdempotent(s: string)
    ensures ToUpper(ToUpper(s)) == ToUpper(s)
  {
  }

  /** Position of the first occurrence of `c` in `s`, if any. */
  function IndexOf(s: string, c: char): (r: Option<nat>)
    ensures r.Some? ==> r.value < |s| && s[r.value] == c
    ensures r.Some? ==> forall j :: 0 <= j < r.value ==> s[j] != c
    ensures r.None? ==> forall j :: 0 <= j < |s| ==> s[j] != c
  {
    if |s| == 0 then None
    else if s[0] == c then Some(0)
    else match IndexOf(s[1..], c)
      case Some(i) => Some(i + 1)
      case None => None
  }

  /** The characters `String.prototype.trim` strips: ECMAScript WhiteSpace
      (TAB, VT, FF, SP, NBSP, ZWNBSP and the Unicode `Zs` category) and
      LineTerminator (LF, CR, LS, PS). */
  predicate IsJsSpace(c: char) {
    || c == '\t' || c == '\n' || c == '\U{B}' || c == '\U{C}' || c == '\r' || c == ' '
    || c == '\U{A0}' || c == '\U{1680}' || ('\U{2000}' <= c <= '\U{200A}')
    || c == '\U{2028}' || c == '\U{2029}' || c == '\U{202F}' || c == '\U{205F}'
    || c == '\U{3000}' || c == '\U{FEFF}'
  }

  function TrimStart(s: string): (r: string)
    ensures |r| <= |s| && r == s[|s| - |r|..]
    ensures forall i :: 0 <= i < |s| - |r| ==> IsJsSpace(s[i])
    ensures |r| > 0 ==> !IsJsSpace(r[0])
  {
    if |s| > 0 && IsJsSpace(s[0]) then TrimStart(s[1..]) else s
  }

  function TrimEnd(s: string): (r: string)
    ensures |r| <= |s| && r == s[..|r|]
    ensures forall i :: |r| <= i < |s| ==> IsJsSpace(s[i])
    ensures |r| > 0 ==> !IsJsSpace(r[|r| - 1])
  {
    if |s| > 0 && IsJsSpace(s[|s| - 1]) then TrimEnd(s[..|s| - 1]) else s
  }

  /** `String.prototype.trim`. */
  function Trim(s: string): (r: string)
  {
    TrimEnd(TrimStart(s))
  }

  /** How many characters `trim` drops from the front. */
  function LeadingSpace(s: string): nat {
    |s| - |TrimStart(s)|
  }

  /** `trim` removes exactly a whitespace prefix and a whitespace suffix and
      keeps no whitespace at either end. */
  lemma TrimIsInfix(s: string)
    ensures LeadingSpace(s) + |Trim(s)| <= |s|
    ensures Trim(s) == s[LeadingSpace(s)..LeadingSpace(s) + |Trim(s)|]
    ensures forall i :: 0 <= i < LeadingSpace(s) ==> IsJsSpace(s[i])
    ensures forall i :: LeadingSpace(s) + |Trim(s)| <= i < |s| ==> IsJsSpace(s[i])
    ensures |Trim(s)| > 0 ==> !IsJsSpace(Trim(s)[0]) && !IsJsSpace(Trim(s)[|Trim(s)| - 1])
  {
    var t := TrimStart(s);
    var e := TrimEnd(t);
    SliceOfSuffix(s, LeadingSpace(s), |e|);
    SuffixSpace(s, t, LeadingSpace(s), |e|);
  }

  /** Whitespace at the end of a suffix of `s` is whitespace at the end of `s`. */
  lemma SuffixSpace(s: string, t: string, a: nat, n: nat)
    requires a + |t| == |s| && t == s[a..] && n <= |t|
    requires forall i :: n <= i < |t| ==> IsJsSpace(t[i])
    ensures forall i :: a + n <= i < |s| ==> IsJsSpace(s[i])
  {
    forall i | a + n <= i < |s|
      ensures IsJsSpace(s[i])
    {
      assert s[i] == t[i - a];
    }
  }

  lemma SliceOfSuffix(s: string, a: nat, n: nat)
    requires a + n <= |s|
    ensures s[a..][..n] == s[a..a + n]
  {
  }

  /** `s.trim().length > 0` holds exactly when `s` has a non-whitespace
      character: the test the client's form gating uses. */
  lemma {:induction false} TrimNonEmptyIff(s: string)
    ensures |Trim(s)| > 0 <==> exists i :: 0 <= i < |s| && !IsJsSpace(s[i])
  {
    TrimIsInfix(s);
    if |Trim(s)| > 0 {
      assert s[LeadingSpace(s)] == Trim(s)[0];
    }
  }
}
