/** The parts of Go's strings package the model-name code relies on. */
module Text {

  /** unicode.IsSpace. */
  predicate IsSpace(c: char) {
    c == '\t' || c == '\n' || c == '\U{0B}' || c == '\U{0C}' || c == '\r' || c == ' '
    || c == '\U{85}' || c == '\U{A0}' || c == '\U{1680}' || '\U{2000}' <= c <= '\U{200A}'
    || c == '\U{2028}' || c == '\U{2029}' || c == '\U{202F}' || c == '\U{205F}' || c == '\U{3000}'
  }

  function TrimLeft(s: string, cut: char -> bool): (t: string)
    ensures t != [] ==> !cut(t[0])
    ensures |t| <= |s| && t == s[|s| - |t|..] && forall i :: 0 <= i < |s| - |t| ==> cut(s[i])
  {
    if s == [] || !cut(s[0]) then s else TrimLeft(s[1..], cut)
  }

  function TrimRight(s: string, cut: char -> bool): (t: string)
    ensures t != [] ==> !cut(t[|t| - 1])
    ensures t <= s && forall i :: |t| <= i < |s| ==> cut(s[i])
  {
    if s == [] || !cut(s[|s| - 1]) then s else TrimRight(s[..|s| - 1], cut)
  }

  function TrimFunc(s: string, cut: char -> bool): (t: string)
    ensures t != [] ==> !cut(t[0]) && !cut(t[|t| - 1])
  {
    TrimRight(TrimLeft(s, cut), cut)
  }

  /** strings.TrimSpace. */
  function Trim(s: string): (t: string)
    ensures t != [] ==> !IsSpace(t[0]) && !IsSpace(t[|t| - 1])
  {
    TrimFunc(s, IsSpace)
  }

  lemma TrimNothing(s: string, cut: char -> bool)
    requires s == [] || (!cut(s[0]) && !cut(s[|s| - 1]))
    ensures TrimFunc(s, cut) == s
  {
  }

  lemma TrimTwice(s: string)
    ensures Trim(Trim(s)) == Trim(s)
  {
    TrimNothing(Trim(s), IsSpace);
  }

  /** strings.Join. */
  function Join(names: seq<string>, sep: char): string {
    if names == [] then ""
    else if |names| == 1 then names[0]
    else names[0] + [sep] + Join(names[1..], sep)
  }

  /** strings.Split by one character. */
  function Split(s: string, sep: char): (parts: seq<string>)
    ensures |parts| >= 1
    ensures forall i :: 0 <= i < |parts| ==> sep !in parts[i]
  {
    if s == "" then [""]
    else
      var rest := Split(s[1..], sep);
      if s[0] == sep then [""] + rest else [[s[0]] + rest[0]] + rest[1..]
  }

  lemma {:induction false} SplitAtFirst(name: string, sep: char, rest: string)
    requires sep !in name
    ensures Split(name + [sep] + rest, sep) == [name] + Split(rest, sep)
    ensures Split(name, sep) == [name]
  {
    if name != "" {
      assert name[0] in name && name == [name[0]] + name[1..];
      SplitAtFirst(name[1..], sep, rest);
      assert (name + [sep] + rest)[1..] == name[1..] + [sep] + rest;
    } else {
      assert ([sep] + rest)[1..] == rest;
      assert name + [sep] + rest == [sep] + rest;
    }
  }

  /** Splitting undoes joining, for names without the separator. */
  lemma {:induction false} SplitUndoesJoin(names: seq<string>, sep: char)
    requires names != [] && forall n :: n in names ==> sep !in n
    ensures Split(Join(names, sep), sep) == names
  {
    assert names[0] in names;
    SplitAtFirst(names[0], sep, Join(names[1..], sep));
    if |names| > 1 {
      SplitUndoesJoin(names[1..], sep);
      assert names == [names[0]] + names[1..];
    }
  }

  /** A joined list begins and ends as its names do. */
  lemma {:induction false} JoinEnds(names: seq<string>, sep: char)
    requires names != [] && forall n :: n in names ==> n != "" && sep !in n
    ensures var j := Join(names, sep); j != "" && j[0] != sep && j[|j| - 1] != sep
  {
    var first := names[0];
    assert first in names && first[0] in first && first[|first| - 1] in first;
    if |names| > 1 {
      forall n | n in names[1..] ensures n in names {}
      JoinEnds(names[1..], sep);
    }
  }
}
