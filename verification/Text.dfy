/** Characters and strings as the JavaScript source sees them: a string is a
    sequence of characters, and the two regular-expression classes the scanners
    test are character predicates. */
module Text {

  datatype Option<+T> = None | Some(value: T)

  /** The class \s of JavaScript, which is also what trim() strips. */
  predicate IsSpace(c: char) {
    || c == ' ' || '\t' <= c <= '\r' || c == '\U{00A0}' || c == '\U{1680}'
    || '\U{2000}' <= c <= '\U{200A}' || c == '\U{2028}' || c == '\U{2029}'
    || c == '\U{202F}' || c == '\U{205F}' || c == '\U{3000}' || c == '\U{FEFF}'
  }

  /** The class [A-Za-z0-9_$]. */
  predicate IsWordChar(c: char) {
    'A' <= c <= 'Z' || 'a' <= c <= 'z' || '0' <= c <= '9' || c == '_' || c == '$'
  }

  predicate IsQuote(c: char) {
    c == '\'' || c == '"' || c == '`'
  }

  function UpperChar(c: char): char {
    if 'a' <= c <= 'z' then (c as int - 32) as char else c
  }

  /** toUpperCase() on a word, whose letters are all ASCII. */
  function Upper(s: string): string {
    seq(|s|, i requires 0 <= i < |s| => UpperChar(s[i]))
  }

  predicate Blank(s: string) {
    forall k :: 0 <= k < |s| ==> IsSpace(s[k])
  }

  /** First index at or after i that holds no white space, or |s|. */
  function SkipSpace(s: string, i: nat): (k: nat)
    requires i <= |s|
    ensures i <= k <= |s|
    ensures forall m :: i <= m < k ==> IsSpace(s[m])
    ensures k < |s| ==> !IsSpace(s[k])
    decreases |s| - i
  {
    if i < |s| && IsSpace(s[i]) then SkipSpace(s, i + 1) else i
  }

  /** Length of s without its trailing white space. */
  function TrimmedLength(s: string): (n: nat)
    ensures n <= |s|
    ensures n > 0 ==> !IsSpace(s[n - 1])
    ensures forall m :: n <= m < |s| ==> IsSpace(s[m])
  {
    if s != "" && IsSpace(s[|s| - 1]) then TrimmedLength(s[..|s| - 1]) else |s|
  }

  /** trim(): no white space left at either end. */
  function Trim(s: string): (t: string)
    ensures t != "" ==> !IsSpace(t[0]) && !IsSpace(t[|t| - 1])
    ensures t == "" <==> Blank(s)
  {
    var k := SkipSpace(s, 0);
    s[k..][..TrimmedLength(s[k..])]
  }

  /** What is already trimmed stays as it is. */
  lemma TrimIdentity(s: string)
    requires s != "" ==> !IsSpace(s[0]) && !IsSpace(s[|s| - 1])
    ensures Trim(s) == s
  {
    assert s[0..] == s;
    assert s[..|s|] == s;
  }

  /** A word is made of letters in either case, digits, '_' and '$'. */
  lemma WordCharIs(c: char)
    ensures IsWordChar(c) <==> 'A' <= UpperChar(c) <= 'Z' || c in "0123456789" || c in "_$"
  {
    if '0' <= c <= '9' { assert "0123456789"[c as int - '0' as int] == c; }
    assert "_$"[0] == '_' && "_$"[1] == '$';
  }

  /** White space: tab, line feed, vertical tab, form feed, carriage return, the
      space separators of Unicode, the line and paragraph separator and the byte
      order mark. */
  lemma SpaceIs(c: char)
    ensures IsSpace(c)
            <==> c as int in {9, 10, 11, 12, 13, 32, 0xA0, 0x1680, 0x2028, 0x2029, 0x202F, 0x205F, 0x3000, 0xFEFF}
                 || 0x2000 <= c as int <= 0x200A
  {
  }
}
