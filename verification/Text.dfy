/** White space in text. */
module Text {
  /** `unicode.IsSpace`. */
  predicate IsSpace(c: char) {
    || '\t' <= c <= '\r'
    || '\U{2000}' <= c <= '\U{200A}'
    || c in {' ', '\U{85}', '\U{A0}', '\U{1680}', '\U{2028}', '\U{2029}', '\U{202F}', '\U{205F}', '\U{3000}'}
  }

  /** The code points that Unicode counts as white space. */
  lemma SpacesAre(c: char)
    ensures IsSpace(c)
       <==> c as int in {0x9, 0xA, 0xB, 0xC, 0xD, 0x20, 0x85, 0xA0, 0x1680, 0x2000, 0x2001, 0x2002, 0x2003, 0x2004,
                         0x2005, 0x2006, 0x2007, 0x2008, 0x2009, 0x200A, 0x2028, 0x2029, 0x202F, 0x205F, 0x3000}
  {}

  predicate Blank(s: string) {
    forall i :: 0 <= i < |s| ==> IsSpace(s[i])
  }

  /** `strings.TrimSpace`. */
  function Trim(s: string): string
    decreases |s|
  {
    if s == "" then ""
    else if IsSpace(s[0]) then Trim(s[1..])
    else if IsSpace(s[|s| - 1]) then Trim(s[..|s| - 1])
    else s
  }

  /** Trimming removes white space at both ends, all of it, and nothing else. */
  lemma {:induction false} TrimMeans(s: string) returns (before: string, after: string)
    ensures s == before + Trim(s) + after && Blank(before) && Blank(after)
    ensures Trim(s) != "" ==> !IsSpace(Trim(s)[0]) && !IsSpace(Trim(s)[|Trim(s)| - 1])
    decreases |s|
  {
    hide IsSpace, Blank;
    before, after := "", "";
    if s == "" {
      BlankJoins("", "");
    } else if IsSpace(s[0]) {
      before, after := TrimMeans(s[1..]);
      before := SpaceBefore(s, before, Trim(s[1..]), after);
    } else if IsSpace(s[|s| - 1]) {
      before, after := TrimMeans(s[..|s| - 1]);
      after := SpaceAfter(s, before, Trim(s[..|s| - 1]), after);
    } else {
      BlankJoins("", "");
    }
  }

  lemma BlankJoins(a: string, b: string)
    ensures Blank(a + b) <==> Blank(a) && Blank(b)
    ensures Blank("")
  {
    hide IsSpace;
    assert Blank(a + b) ==> forall i :: 0 <= i < |a| ==> a[i] == (a + b)[i];
    assert Blank(a + b) ==> forall i :: 0 <= i < |b| ==> b[i] == (a + b)[|a| + i];
  }

  lemma SpaceBefore(s: string, before: string, middle: string, after: string) returns (r: string)
    requires s != "" && IsSpace(s[0]) && s[1..] == before + middle + after && Blank(before)
    ensures s == r + middle + after && Blank(r)
  {
    hide IsSpace;
    r := [s[0]] + before;
  }

  lemma SpaceAfter(s: string, before: string, middle: string, after: string) returns (r: string)
    requires s != "" && IsSpace(s[|s| - 1]) && s[..|s| - 1] == before + middle + after && Blank(after)
    ensures s == before + middle + r && Blank(r)
  {
    hide IsSpace;
    r := after + [s[|s| - 1]];
  }

  lemma TrimmedIsNotBlank(s: string)
    ensures Blank(Trim(s)) <==> Blank(s)
    ensures Blank(s) <==> Trim(s) == ""
  {
    hide IsSpace, Trim;
    var before, after := TrimMeans(s);
    assert forall i :: 0 <= i < |Trim(s)| ==> Trim(s)[i] == s[|before| + i];
  }
}
