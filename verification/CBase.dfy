/** What the C library's strings and characters are, and optional results. A C char is modelled by a char. */
module CBase {

  const NUL: char := '\0'

  predicate IsDigit(c: char) { '0' <= c <= '9' }

  predicate IsSpace(c: char) { c == ' ' || '\t' <= c <= '\r' }

  // isspace
  lemma SpacesAre(c: char)
    ensures IsSpace(c) <==> c in " \t\n\U{B}\U{C}\r"
  {
  }

  datatype Option<+T> = None | Some(value: T)

  // w stands at p, with a NUL behind it.
  ghost predicate Terminated(b: seq<char>, p: nat, w: string) {
    p + |w| < |b| && b[p..p + |w|] == w && b[p + |w|] == NUL
  }

  /** A C string w stands at p of the buffer. */
  ghost predicate CString(b: seq<char>, p: nat, w: string) {
    Terminated(b, p, w) && NUL !in w
  }

  // First position of c in s, or |s|: strchr.
  function IndexOf(s: string, c: char): (i: nat)
    ensures i <= |s| && (i < |s| <==> c in s) && (i < |s| ==> s[i] == c)
    ensures forall k :: 0 <= k < i ==> s[k] != c
  {
    if s == "" || s[0] == c then 0 else 1 + IndexOf(s[1..], c)
  }
}
