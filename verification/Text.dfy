/** std::find and std::search over the bytes of a buffer. */
module Text {

  // The index of the first c in s, or |s|.
  function Find(s: string, c: char): (i: nat)
    ensures i <= |s|
    ensures i < |s| ==> s[i] == c
    ensures forall j :: 0 <= j < i ==> s[j] != c
  {
    if s == [] || s[0] == c then 0 else 1 + Find(s[1..], c)
  }

  lemma SameString(s: string, t: string)
    requires |s| == |t| && forall i :: 0 <= i < |s| ==> s[i] == t[i]
    ensures s == t
  {
  }

  predicate IsCRLF(s: string, i: int) {
    0 <= i && i + 1 < |s| && s[i] == '\r' && s[i + 1] == '\n'
  }

  // The index of the first CR LF in s, or -1.
  function FindCRLF(s: string): (i: int)
    ensures i == -1 || IsCRLF(s, i)
    ensures forall j :: IsCRLF(s, j) ==> 0 <= i <= j
  {
    if |s| < 2 then -1
    else if s[0] == '\r' && s[1] == '\n' then 0
    else
      var i := FindCRLF(s[1..]);
      assert forall j :: IsCRLF(s, j) ==> IsCRLF(s[1..], j - 1);
      if i < 0 then -1 else i + 1
  }

  lemma FindIs(s: string, c: char, i: nat)
    requires i <= |s| && (i < |s| ==> s[i] == c)
    requires forall j :: 0 <= j < i ==> s[j] != c
    ensures Find(s, c) == i
  {
  }

  lemma FindCRLFIs(s: string, i: int)
    requires IsCRLF(s, i) && forall j :: 0 <= j < i ==> !IsCRLF(s, j)
    ensures FindCRLF(s) == i
  {
  }

  lemma FindCRLFNone(s: string)
    requires forall j :: !IsCRLF(s, j)
    ensures FindCRLF(s) == -1
  {
  }

  /** Bytes that arrive later do not move the first CR LF. */
  lemma FindCRLFExtends(s: string, t: string)
    requires FindCRLF(s) >= 0
    ensures FindCRLF(s + t) == FindCRLF(s)
  {
    var i := FindCRLF(s);
    forall j | 0 <= j < i ensures !IsCRLF(s + t, j) {
      assert IsCRLF(s + t, j) ==> IsCRLF(s, j);
    }
    FindCRLFIs(s + t, i);
  }
}
