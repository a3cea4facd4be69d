/** The `str` methods used on territory names: `replace`, `split(sep)[0]`,
    `title` and `startswith`. Case mapping covers ASCII letters; every
    non-ASCII character counts as a lower-case letter that case mapping
    leaves unchanged. */
module Text {

  predicate StartsWith(s: string, prefix: string) {
    |prefix| <= |s| && s[..|prefix|] == prefix
  }

  /** `pat` occurs in `s` at position `i`. */
  predicate OccursAt(s: string, pat: string, i: int) {
    0 <= i && i + |pat| <= |s| && s[i..i + |pat|] == pat
  }

  /** `s.replace(pat, rep)` for a non-empty `pat`: occurrences are replaced
      left to right, and the text a replacement produces is not searched again. */
  function Replace(s: string, pat: string, rep: string): string
    requires |pat| > 0
    decreases |s|
  {
    if |s| < |pat| then s
    else if s[..|pat|] == pat then rep + Replace(s[|pat|..], pat, rep)
    else [s[0]] + Replace(s[1..], pat, rep)
  }

  /** Replacing one character by another works character by character. */
  lemma {:induction false} ReplaceChar(s: string, a: char, b: char)
    ensures |Replace(s, [a], [b])| == |s|
    ensures forall i :: 0 <= i < |s| ==>
      Replace(s, [a], [b])[i] == (if s[i] == a then b else s[i])
  {
    if |s| > 0 {
      ReplaceChar(s[1..], a, b);
      assert s[..1] == [s[0]];
    }
  }

  /** A text in which `pat` does not occur is left as it is. */
  lemma {:induction false} ReplaceWithoutOccurrence(s: string, pat: string, rep: string)
    requires |pat| > 0
    requires forall i :: !OccursAt(s, pat, i)
    ensures Replace(s, pat, rep) == s
    decreases |s|
  {
    if |s| >= |pat| {
      assert !OccursAt(s, pat, 0);
      forall i ensures !OccursAt(s[1..], pat, i) {
        if OccursAt(s[1..], pat, i) {
          assert s[1..][i..i + |pat|] == s[i + 1..i + 1 + |pat|];
          assert OccursAt(s, pat, i + 1);
        }
      }
      ReplaceWithoutOccurrence(s[1..], pat, rep);
    }
  }

  /** Text that lacks the first character of `pat` is left as it is. */
  lemma {:induction false} ReplaceWithoutFirstChar(s: string, pat: string, rep: string)
    requires |pat| > 0 && pat[0] !in s
    ensures Replace(s, pat, rep) == s
    decreases |s|
  {
    if |s| >= |pat| {
      assert s[..|pat|][0] == s[0];
      assert pat[0] !in s[1..];
      ReplaceWithoutFirstChar(s[1..], pat, rep);
    }
  }

  /** An occurrence at the start is replaced and the search goes on after it. */
  lemma ReplaceAtStart(pat: string, rest: string, rep: string)
    requires |pat| > 0
    ensures Replace(pat + rest, pat, rep) == rep + Replace(rest, pat, rep)
  {
    assert (pat + rest)[..|pat|] == pat;
    assert (pat + rest)[|pat|..] == rest;
  }

  /** `s.split(sep)[0]` for a non-empty `sep`: the text before the first
      occurrence of `sep`, or all of `s` when there is none. */
  function CutAtFirst(s: string, sep: string): (r: string)
    requires |sep| > 0
    ensures StartsWith(s, r)
    ensures r == s || OccursAt(s, sep, |r|)
    ensures forall i :: 0 <= i < |r| ==> !OccursAt(s, sep, i)
    decreases |s|
  {
    if |s| < |sep| then s
    else if s[..|sep|] == sep then []
    else
      var t := CutAtFirst(s[1..], sep);
      forall i | 1 <= i <= |t| + 1 {
        OccursShift(s, sep, i);
      }
      assert t == s[1..] ==> [s[0]] + t == s;
      [s[0]] + t
  }

  /** An occurrence after the first character is one in the rest of the text. */
  lemma OccursShift(s: string, pat: string, i: int)
    requires 1 <= i && |s| > 0
    ensures OccursAt(s, pat, i) == OccursAt(s[1..], pat, i - 1)
  {
    if i + |pat| <= |s| {
      assert s[1..][i - 1..i - 1 + |pat|] == s[i..i + |pat|];
    }
  }

  /** Text that lacks the last character of `sep` is not cut. */
  lemma CutAtFirstWithoutLastChar(s: string, sep: string)
    requires |sep| > 0 && sep[|sep| - 1] !in s
    ensures CutAtFirst(s, sep) == s
  {
  }

  predicate IsUpper(c: char) {
    'A' <= c <= 'Z'
  }

  predicate IsLower(c: char) {
    'a' <= c <= 'z' || (c as int) >= 0x80
  }

  predicate IsCased(c: char) {
    IsUpper(c) || IsLower(c)
  }

  function ToUpper(c: char): char {
    if 'a' <= c <= 'z' then (c as int - 32) as char else c
  }

  function ToLower(c: char): char {
    if 'A' <= c <= 'Z' then (c as int + 32) as char else c
  }

  /** What `title` makes of `s[i]`: a cased character that follows a cased
      one is lower-cased, any other cased character is upper-cased, and an
      uncased one is kept. */
  function TitleAt(s: string, i: nat): char
    requires i < |s|
  {
    if !IsCased(s[i]) then s[i]
    else if i > 0 && IsCased(s[i - 1]) then ToLower(s[i])
    else ToUpper(s[i])
  }

  /** The loop of CPython's `str.title`, from the character after one whose
      casedness is `previousIsCased`. */
  function TitleFrom(s: string, previousIsCased: bool): (r: string)
    ensures |r| == |s|
    ensures forall i :: 0 < i < |s| ==> r[i] == TitleAt(s, i)
    ensures |s| > 0 ==> r[0] == (if !IsCased(s[0]) then s[0]
                                 else if previousIsCased then ToLower(s[0])
                                 else ToUpper(s[0]))
  {
    if s == [] then []
    else
      var c := s[0];
      var head := if IsUpper(c) then (if previousIsCased then ToLower(c) else c)
                  else if IsLower(c) then (if previousIsCased then c else ToUpper(c))
                  else c;
      var tail := TitleFrom(s[1..], IsCased(c));
      assert forall i :: 1 < i < |s| ==> TitleAt(s[1..], i - 1) == TitleAt(s, i);
      [head] + tail
  }

  /** `s.title()`. */
  function Title(s: string): (r: string)
    ensures |r| == |s|
    ensures forall i :: 0 <= i < |s| ==> r[i] == TitleAt(s, i)
  {
    TitleFrom(s, false)
  }

  /** Case mapping keeps a character's casedness. */
  lemma CasePreserved(c: char)
    ensures IsCased(ToUpper(c)) == IsCased(c) && IsCased(ToLower(c)) == IsCased(c)
    ensures ToUpper(ToUpper(c)) == ToUpper(c) && ToLower(ToUpper(c)) == ToLower(c)
    ensures ToLower(ToLower(c)) == ToLower(c) && ToUpper(ToLower(c)) == ToUpper(c)
  {
  }

  /** Title-casing a title-cased string changes nothing. */
  lemma TitleIdempotent(s: string)
    ensures Title(Title(s)) == Title(s)
  {
    var t := Title(s);
    forall i | 0 <= i < |s|
      ensures TitleAt(t, i) == t[i]
    {
      CasePreserved(s[i]);
      if i > 0 {
        CasePreserved(s[i - 1]);
      }
    }
  }

  /** `title` changes letters only: it neither removes nor introduces a
      given uncased character. */
  lemma TitleKeepsUncased(s: string, c: char)
    requires !IsCased(c)
    ensures c in Title(s) <==> c in s
  {
    forall i | 0 <= i < |s|
      ensures Title(s)[i] == c <==> s[i] == c
    {
      CasePreserved(s[i]);
    }
  }

  /** Replacing one character by another commutes with concatenation. */
  lemma ReplaceCharAppend(a: string, b: string, x: char, y: char)
    ensures Replace(a + b, [x], [y]) == Replace(a, [x], [y]) + Replace(b, [x], [y])
  {
    ReplaceChar(a + b, x, y);
    ReplaceChar(a, x, y);
    ReplaceChar(b, x, y);
  }

  /** Text is cut at a separator whose last character shows up nowhere
      before that separator's end. */
  lemma CutAtFirstBefore(a: string, sep: string, b: string)
    requires |sep| > 0
    requires sep[|sep| - 1] !in a && sep[|sep| - 1] !in sep[..|sep| - 1]
    ensures CutAtFirst(a + sep + b, sep) == a
  {
    var s := a + sep + b;
    var r := CutAtFirst(s, sep);
    assert s[|a|..|a| + |sep|] == sep;
    assert OccursAt(s, sep, |a|);
    var k := |r| + |sep| - 1;
    assert s[k] == s[|r|..|r| + |sep|][|sep| - 1];
    assert |r| == |a|;
    assert s[..|a|] == a;
  }

  /** Text that lacks the first character of `pat` has no occurrence of it. */
  lemma NoOccurrenceWithoutFirstChar(s: string, pat: string)
    requires |pat| > 0 && pat[0] !in s
    ensures forall i :: !OccursAt(s, pat, i)
  {
    forall i ensures !OccursAt(s, pat, i) {
      if 0 <= i && i + |pat| <= |s| {
        assert s[i..i + |pat|][0] == s[i];
      }
    }
  }

  /** Title-casing works word by word: where the join is next to an uncased
      character the two halves do not influence each other. */
  lemma TitleAppend(a: string, b: string)
    requires a == [] || b == [] || !IsCased(a[|a| - 1]) || !IsCased(b[0])
    ensures Title(a + b) == Title(a) + Title(b)
  {
    var s := a + b;
    forall i | 0 <= i < |s|
      ensures Title(s)[i] == (Title(a) + Title(b))[i]
    {
      if i >= |a| {
        assert s[i] == b[i - |a|];
        assert i - 1 >= |a| ==> s[i - 1] == b[i - 1 - |a|];
      }
    }
  }
  /** `sep.join(ws)`: the words with `sep` between neighbours. */
  function Join(ws: seq<string>, sep: string): string
  {
    if |ws| == 0 then []
    else if |ws| == 1 then ws[0]
    else ws[0] + sep + Join(ws[1..], sep)
  }

  /** A character in neither the words nor the separator is not in the join. */
  lemma {:induction false} NotInJoin(ws: seq<string>, sep: string, c: char)
    requires c !in sep && forall i :: 0 <= i < |ws| ==> c !in ws[i]
    ensures c !in Join(ws, sep)
  {
    if |ws| > 1 {
      NotInJoin(ws[1..], sep, c);
    }
  }

  /** Replacing the separator character of a join whose words lack it
      changes the separator and nothing else. */
  lemma {:induction false} ReplaceCharJoin(ws: seq<string>, a: char, b: char)
    requires forall i :: 0 <= i < |ws| ==> a !in ws[i]
    ensures Replace(Join(ws, [a]), [a], [b]) == Join(ws, [b])
  {
    if |ws| == 1 {
      ReplaceWithoutFirstChar(ws[0], [a], [b]);
    } else if |ws| > 1 {
      ReplaceCharJoin(ws[1..], a, b);
      ReplaceCharAppend(ws[0] + [a], Join(ws[1..], [a]), a, b);
      ReplaceCharAppend(ws[0], [a], a, b);
      ReplaceWithoutFirstChar(ws[0], [a], [b]);
      assert Replace([a], [a], [b]) == [b];
    }
  }

  /** `title` applied to each word. */
  function TitleAll(ws: seq<string>): (r: seq<string>)
    ensures |r| == |ws| && forall i :: 0 <= i < |ws| ==> r[i] == Title(ws[i])
  {
    if ws == [] then [] else [Title(ws[0])] + TitleAll(ws[1..])
  }

  /** Title-casing words joined by spaces title-cases each word. */
  lemma {:induction false} TitleJoin(ws: seq<string>)
    ensures Title(Join(ws, " ")) == Join(TitleAll(ws), " ")
  {
    if |ws| > 1 {
      TitleJoin(ws[1..]);
      TitleAppend(ws[0], " ");
      TitleAppend(ws[0] + " ", Join(ws[1..], " "));
      assert TitleAll(ws)[1..] == TitleAll(ws[1..]);
      assert Title(" ") == " ";
    }
  }
}
