/** Trimming a text of the characters in a class at both ends. */
module Trimming {

  function TrimStart(s: string, isSpace: char -> bool): (t: string)
    ensures t != "" ==> !isSpace(t[0])
    ensures |t| <= |s|
  {
    if s != "" && isSpace(s[0]) then TrimStart(s[1..], isSpace) else s
  }

  function TrimEnd(s: string, isSpace: char -> bool): (t: string)
    ensures t != "" ==> !isSpace(t[|t| - 1])
    ensures t <= s
  {
    if s != "" && isSpace(s[|s| - 1]) then TrimEnd(s[..|s| - 1], isSpace) else s
  }

  function Trim(s: string, isSpace: char -> bool): string {
    TrimEnd(TrimStart(s, isSpace), isSpace)
  }

  predicate IsTrimmed(s: string, isSpace: char -> bool) {
    s == "" || (!isSpace(s[0]) && !isSpace(s[|s| - 1]))
  }

  /** Trimming leaves exactly the texts alone that have no space at either end, and yields such a text. */
  lemma TrimmedExactly(s: string, isSpace: char -> bool)
    ensures IsTrimmed(Trim(s, isSpace), isSpace)
    ensures Trim(s, isSpace) == s <==> IsTrimmed(s, isSpace)
  {
    var t := TrimStart(s, isSpace);
    assert Trim(s, isSpace) != "" ==> Trim(s, isSpace)[0] == t[0];
  }

  predicate AllSpace(s: string, isSpace: char -> bool) {
    forall i :: 0 <= i < |s| ==> isSpace(s[i])
  }

  /** Only spaces are taken away, at the two ends. */
  lemma {:induction false} TrimTakesSpaces(s: string, isSpace: char -> bool) returns (front: string, back: string)
    ensures s == front + Trim(s, isSpace) + back && AllSpace(front, isSpace) && AllSpace(back, isSpace)
    decreases |s|
  {
    if s != "" && isSpace(s[0]) {
      front, back := TrimTakesSpaces(s[1..], isSpace);
      front := [s[0]] + front;
      assert s == [s[0]] + s[1..];
    } else {
      front := "";
      back := TrimEndTakesSpaces(s, isSpace);
    }
  }

  lemma {:induction false} TrimEndTakesSpaces(s: string, isSpace: char -> bool) returns (back: string)
    ensures s == TrimEnd(s, isSpace) + back && AllSpace(back, isSpace)
  {
    if s != "" && isSpace(s[|s| - 1]) {
      back := TrimEndTakesSpaces(s[..|s| - 1], isSpace);
      back := back + [s[|s| - 1]];
      assert s == s[..|s| - 1] + [s[|s| - 1]];
    } else {
      back := "";
    }
  }
}

/** `strings.TrimSpace` of Go. */
module GoText {
  import opened Trimming

  /** The characters `strings.TrimSpace` removes. */
  predicate IsSpace(c: char) {
    c == ' ' || '\t' <= c <= '\r' || c == '\U{0085}' || c == '\U{00A0}' || c == '\U{1680}'
      || '\U{2000}' <= c <= '\U{200A}'
    || c == '\U{2028}' || c == '\U{2029}' || c == '\U{202F}' || c == '\U{205F}' || c == '\U{3000}'
  }

  function TrimSpace(s: string): string {
    Trim(s, IsSpace)
  }

  /** The white space of Unicode. */
  const SPACES := "\t\n\U{000B}\U{000C}\r \U{0085}\U{00A0}\U{1680}\U{2000}\U{2001}\U{2002}\U{2003}\U{2004}\U{2005}"
                  + "\U{2006}\U{2007}\U{2008}\U{2009}\U{200A}\U{2028}\U{2029}\U{202F}\U{205F}\U{3000}"

  /** A text is its trimmed form with nothing but white space around it, and that has none at its ends. */
  lemma TrimSpaceExactly(s: string) returns (front: string, back: string)
    ensures var t := TrimSpace(s);
            && s == front + t + back && (forall i :: 0 <= i < |front| ==> front[i] in SPACES)
            && (forall i :: 0 <= i < |back| ==> back[i] in SPACES)
            && (t != "" ==> t[0] !in SPACES && t[|t| - 1] !in SPACES)
  {
    front, back := TrimTakesSpaces(s, IsSpace);
    TrimmedExactly(s, IsSpace);
    forall c ensures IsSpace(c) <==> c in SPACES {
      SpaceExactly(c);
    }
  }

  lemma SpaceExactly(c: char)
    ensures IsSpace(c) <==> c in SPACES
  {
  }
}
