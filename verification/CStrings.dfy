/** The two string comparisons of the loader. */
module CStrings {

  /** A string as C sees it: the terminator is not in it. */
  predicate IsCString(s: string) {
    forall i :: 0 <= i < |s| ==> s[i] != '\0'
  }

  /** The character at position i, at the end the terminator. */
  function At(s: string, i: nat): char
    requires i <= |s|
  {
    if i < |s| then s[i] else '\0'
  }

  function ToUpper(c: char): char {
    if 'a' <= c <= 'z' then (c as int - 'a' as int + 'A' as int) as char else c
  }

  function Upper(s: string): (u: string)
    ensures |u| == |s| && forall i :: 0 <= i < |s| ==> u[i] == ToUpper(s[i])
  {
    seq(|s|, i requires 0 <= i < |s| => ToUpper(s[i]))
  }

  /** Equal but for the case of letters. */
  predicate SameName(s: string, t: string) {
    Upper(s) == Upper(t)
  }

  method StrCmp(s: string, t: string) returns (r: int)
    requires IsCString(s) && IsCString(t)
    ensures r == 0 <==> s == t
  {
    var i := 0;
    while At(s, i) != '\0' && At(s, i) == At(t, i)
      invariant 0 <= i <= |s| && i <= |t| && s[..i] == t[..i]
      decreases |s| - i
    {
      i := i + 1;
    }
    r := At(s, i) as int - At(t, i) as int;
  }

  lemma SameNameAt(s: string, t: string)
    ensures SameName(s, t) <==> |s| == |t| && forall i :: 0 <= i < |s| ==> ToUpper(s[i]) == ToUpper(t[i])
  {
    if SameName(s, t) {
      assert forall i :: 0 <= i < |s| ==> Upper(s)[i] == Upper(t)[i];
    }
  }

  /** The same character, or the small and the capital letter of one kind. */
  predicate SameLetter(c: char, d: char) {
    || c == d
    || ('a' <= c <= 'z' && c as int - 32 == d as int)
    || ('a' <= d <= 'z' && d as int - 32 == c as int)
  }

  /** Names are the same when they have the same letters, each small or capital. */
  lemma SameLetters(s: string, t: string)
    ensures SameName(s, t) <==> |s| == |t| && forall i :: 0 <= i < |s| ==> SameLetter(s[i], t[i])
  {
    SameNameAt(s, t);
    if |s| == |t| {
      forall i | 0 <= i < |s|
        ensures SameLetter(s[i], t[i]) <==> ToUpper(s[i]) == ToUpper(t[i])
      {}
    }
  }

  /** The result is the difference of the characters as they are, but they are compared in upper case; it is
      zero exactly for equal names all the same. */
  method StrCaseCmp(s: string, t: string) returns (r: int)
    requires IsCString(s) && IsCString(t)
    ensures r == 0 <==> SameName(s, t)
  {
    var i := 0;
    while At(s, i) != '\0' && ToUpper(At(s, i)) == ToUpper(At(t, i))
      invariant 0 <= i <= |s| && i <= |t| && forall j :: 0 <= j < i ==> ToUpper(s[j]) == ToUpper(t[j])
      decreases |s| - i
    {
      i := i + 1;
    }
    r := At(s, i) as int - At(t, i) as int;
    SameNameAt(s, t);
  }
}
