/** Character classes, names that are safe as path components, and runs of blanks. */
module Characters {
  predicate IsSpace(c: char) {
    c == ' ' || '\t' <= c <= '\r'
  }

  predicate IsAlpha(c: char) {
    'a' <= c <= 'z' || 'A' <= c <= 'Z'
  }

  predicate IsDigit(c: char) {
    '0' <= c <= '9'
  }

  predicate IsIdentifierStart(c: char) {
    IsAlpha(c) || c == '_'
  }

  predicate IsIdentifierCharacter(c: char) {
    IsIdentifierStart(c) || IsDigit(c)
  }

  predicate IsSafeCharacter(c: char) {
    IsAlpha(c) || IsDigit(c) || c == '-' || c == '_' || c == '.'
  }

  /** A name that stays inside the directory it is put in. */
  predicate IsSafeName(name: string) {
    name != "" && name != "." && name != ".." && forall i :: 0 <= i < |name| ==> IsSafeCharacter(name[i])
  }

  function Spaces(n: nat): (r: string)
    ensures |r| == n && forall i :: 0 <= i < n ==> r[i] == ' '
  {
    seq(n, _ => ' ')
  }
}
