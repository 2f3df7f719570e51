/**
 Multi-line comments in the shader editor. The highlighter gets the text line by line and carries one
 bit from line to line; the module compares that with one pass over the whole document.
 */
module CommentScan {
  // ---------- The document, character by character ----------

  predicate StartsAt(doc: string, i: nat) {
    i + 1 < |doc| && doc[i] == '/' && doc[i + 1] == '*'
  }

  predicate EndsAt(doc: string, i: nat) {
    i + 1 < |doc| && doc[i] == '*' && doc[i + 1] == '/'
  }

  /** In front of character `i` a comment is open. An end may overlap the start of its comment. */
  predicate InComment(doc: string, carried: bool, i: nat)
    requires i <= |doc|
    decreases i, 0
  {
    if i == 0 then carried
    else
      (InComment(doc, carried, i - 1) || StartsAt(doc, i - 1))
      && !(InComment(doc, carried, i - 1) && i > 1 && EndsAt(doc, i - 2))
  }

  /** Character `i` belongs to a comment. `carried` says that the text begins inside one. */
  predicate Marked(doc: string, carried: bool, i: nat)
    requires i < |doc|
  {
    InComment(doc, carried, i) || StartsAt(doc, i)
  }

  // ---------- One line ----------

  /** Nothing starts from `from` up to `end`, so nothing is marked there. */
  lemma {:induction false} Outside(text: string, carried: bool, from: nat, end: nat)
    requires from <= end <= |text| && !InComment(text, carried, from)
    requires forall i :: from <= i < end ==> !StartsAt(text, i)
    ensures !InComment(text, carried, end) && forall i :: from <= i < end ==> !Marked(text, carried, i)
    decreases end
  {
    if from == end {
    } else {
      Outside(text, carried, from, end - 1);
    }
  }

  /** A comment is open at `s`, or starts there, and no end lies from `s` up to `e`. */
  lemma {:induction false} Inside(text: string, carried: bool, s: nat, e: nat)
    requires s <= e < |text| && Marked(text, carried, s) && (InComment(text, carried, s) ==> s == 0)
    requires forall i :: s <= i < e ==> !EndsAt(text, i)
    ensures InComment(text, carried, e + 1) && forall i :: s <= i <= e ==> Marked(text, carried, i)
    decreases e
  {
    if s == e {
    } else {
      Inside(text, carried, s, e - 1);
    }
  }

  /** The comment that is open at `s` ends with the `*` and `/` at `e`. */
  lemma {:induction false} Ending(text: string, carried: bool, s: nat, e: nat)
    requires s <= e && EndsAt(text, e) && Marked(text, carried, s) && (InComment(text, carried, s) ==> s == 0)
    requires forall i :: s <= i < e ==> !EndsAt(text, i)
    ensures !InComment(text, carried, e + 2) && forall i :: s <= i < e + 2 ==> Marked(text, carried, i)
  {
    Inside(text, carried, s, e);
  }

  /** The first place from `from` on where the two characters stand, or -1. */
  method IndexIn(text: string, a: char, b: char, from: nat) returns (index: int)
    requires from <= |text|
    ensures index == -1 || (from <= index && index + 1 < |text| && text[index] == a && text[index + 1] == b)
    ensures forall i :: from <= i < (if index == -1 then |text| - 1 else index) ==> !(text[i] == a && text[i + 1] == b)
  {
    var i := from;
    while i + 1 < |text|
      invariant from <= i <= |text|
      invariant forall k :: from <= k < i && k + 1 < |text| ==> !(text[k] == a && text[k + 1] == b)
    {
      if text[i] == a && text[i + 1] == b {
        return i;
      }
      i := i + 1;
    }
    index := -1;
  }

  /** The characters from `from` up to `end` get the comment format. */
  method SetFormat(marks: array<bool>, from: nat, end: nat)
    requires from <= end <= marks.Length
    modifies marks
    ensures forall i :: 0 <= i < marks.Length ==> marks[i] == (old(marks[i]) || from <= i < end)
  {
    var i := from;
    while i < end
      invariant from <= i <= end
      invariant forall k :: 0 <= k < marks.Length ==> marks[k] == (old(marks[k]) || from <= k < i)
    {
      marks[i] := true;
      i := i + 1;
    }
  }

  /** Highlights one line; `carried` is the state behind the line before. */
  method HighlightBlock(text: string, carried: bool) returns (marks: array<bool>, state: bool)
    ensures fresh(marks) && marks.Length == |text|
    ensures forall i :: 0 <= i < |text| ==> marks[i] == Marked(text, carried, i)
    ensures state == InComment(text, carried, |text|)
  {
    marks := new bool[|text|](i => false);
    state := false;
    var startIndex := 0;
    if !carried {
      startIndex := IndexIn(text, '/', '*', 0);
      Outside(text, carried, 0, if startIndex == -1 then |text| else startIndex);
    }
    while startIndex >= 0
      invariant -1 <= startIndex <= |text|
      invariant var done := if startIndex == -1 then |text| else startIndex;
                && (forall i :: 0 <= i < done ==> marks[i] == Marked(text, carried, i))
                && (forall i :: done <= i < |text| ==> !marks[i])
      invariant startIndex == -1 ==> state == InComment(text, carried, |text|)
      invariant startIndex >= 0 ==> !state && (InComment(text, carried, startIndex) ==> startIndex == 0)
      invariant 0 <= startIndex < |text| ==> Marked(text, carried, startIndex)
      invariant startIndex == |text| ==> InComment(text, carried, |text|)
      decreases if startIndex == -1 then -1 else |text| - startIndex, !state
    {
      var endIndex := IndexIn(text, '*', '/', startIndex);
      var next;
      if endIndex == -1 {
        state := true;
        next := |text|;
        if startIndex < |text| {
          Inside(text, carried, startIndex, |text| - 1);
        }
      } else {
        next := endIndex + 2;
        Ending(text, carried, startIndex, endIndex);
      }
      SetFormat(marks, startIndex, next);
      startIndex := IndexIn(text, '/', '*', next);
      if endIndex != -1 {
        Outside(text, carried, next, if startIndex == -1 then |text| else startIndex);
      }
    }
  }

  // ---------- The whole document ----------

  /** The lines, each with its newline. */
  function Document(lines: seq<string>, n: nat): string
    requires n <= |lines|
  {
    if n == 0 then "" else Document(lines, n - 1) + lines[n - 1] + "\n"
  }

  /** The state that the highlighter carries into line `n`. */
  function Carried(lines: seq<string>, n: nat): bool
    requires n <= |lines|
  {
    if n == 0 then false else InComment(lines[n - 1], Carried(lines, n - 1), |lines[n - 1]|)
  }

  /** A line in the middle of a document, behind a newline. */
  ghost predicate LineAt(doc: string, at: nat, line: string) {
    && at + |line| < |doc| && doc[at..at + |line|] == line && doc[at + |line|] == '\n'
    && (at > 0 ==> doc[at - 1] == '\n') && '\n' !in line
  }

  lemma {:induction false} LineScan(doc: string, at: nat, line: string, carried: bool, i: nat)
    requires LineAt(doc, at, line) && InComment(doc, false, at) == carried && i <= |line|
    ensures InComment(doc, false, at + i) == InComment(line, carried, i)
    ensures i < |line| ==> Marked(doc, false, at + i) == Marked(line, carried, i)
    ensures i == |line| ==> InComment(doc, false, at + i + 1) == InComment(line, carried, i)
  {
    forall k: nat | k < |line| ensures doc[at + k] == line[k] {
      assert doc[at..at + |line|][k] == line[k];
    }
    if i == 0 {
    } else {
      LineScan(doc, at, line, carried, i - 1);
    }
  }

  lemma {:induction false} LinePlace(lines: seq<string>, n: nat, k: nat)
    requires n < k <= |lines| && forall l :: l in lines ==> '\n' !in l
    ensures |Document(lines, n)| < |Document(lines, k)|
    ensures LineAt(Document(lines, k), |Document(lines, n)|, lines[n])
    decreases k
  {
    var doc := Document(lines, k);
    if n < k - 1 {
      LinePlace(lines, n, k - 1);
      var before := Document(lines, k - 1);
      assert doc[..|before|] == before;
      var at, line := |Document(lines, n)|, lines[n];
      assert doc[at..at + |line|] == before[at..at + |line|];
    } else {
      var at := |Document(lines, n)|;
      assert lines[n] in lines;
      assert doc[at..at + |lines[n]|] == lines[n];
      if n > 0 {
        assert doc[..at] == Document(lines, n);
        assert doc[at - 1] == Document(lines, n)[at - 1];
      }
    }
  }

  /** The state carried into a line is the state of one pass over the whole document. */
  lemma {:induction false} CarriedIsScanned(lines: seq<string>, n: nat, k: nat)
    requires n <= k <= |lines| && forall l :: l in lines ==> '\n' !in l
    ensures |Document(lines, n)| <= |Document(lines, k)|
    ensures InComment(Document(lines, k), false, |Document(lines, n)|) == Carried(lines, n)
    decreases n
  {
    if n == 0 {
    } else {
      CarriedIsScanned(lines, n - 1, k);
      LinePlace(lines, n - 1, k);
      LineScan(Document(lines, k), |Document(lines, n - 1)|, lines[n - 1], Carried(lines, n - 1), |lines[n - 1]|);
    }
  }

  /** Line by line, with one carried bit, exactly the characters are marked that one pass over the
      newline-joined document marks. */
  lemma {:induction false} LineByLine(lines: seq<string>, n: nat, i: nat)
    requires n < |lines| && i < |lines[n]| && forall l :: l in lines ==> '\n' !in l
    ensures |Document(lines, n)| + i < |Document(lines, |lines|)|
    ensures Marked(lines[n], Carried(lines, n), i)
            <==> Marked(Document(lines, |lines|), false, |Document(lines, n)| + i)
  {
    CarriedIsScanned(lines, n, |lines|);
    LinePlace(lines, n, |lines|);
    LineScan(Document(lines, |lines|), |Document(lines, n)|, lines[n], Carried(lines, n), i);
  }

  ghost predicate Lacks(text: string, c: char) {
    forall i :: 0 <= i < |text| ==> text[i] != c
  }

  /** In a text with one comment exactly the comment with its delimiters is marked. */
  lemma {:induction false} OneComment(a: string, b: string, c: string, text: string, i: nat)
    requires text == a + "/*" + b + "*/" + c && i < |text|
    requires Lacks(a, '/') && Lacks(b, '/') && Lacks(b, '*') && Lacks(c, '/')
    ensures Marked(text, false, i) <==> |a| <= i < |a| + |b| + 4
    ensures !InComment(text, false, |text|)
  {
    var s, e := |a|, |a| + 2 + |b|;
    assert text[s] == '/' && text[s + 1] == '*' && text[e] == '*' && text[e + 1] == '/';
    assert forall k :: 0 <= k < s ==> text[k] == a[k];
    assert forall k :: s + 2 <= k < e ==> text[k] == b[k - s - 2];
    assert forall k :: e + 2 <= k < |text| ==> text[k] == c[k - e - 2];
    Outside(text, false, 0, s);
    Ending(text, false, s, e);
    Outside(text, false, e + 2, |text|);
  }

  /** A text without a second delimiter of its comment is marked from the first one to its end, and the
      comment goes on in the next line. */
  lemma {:induction false} OpenComment(a: string, b: string, text: string, i: nat)
    requires text == a + "/*" + b && i < |text| && Lacks(a, '/') && Lacks(b, '/')
    ensures Marked(text, false, i) <==> |a| <= i
    ensures InComment(text, false, |text|)
  {
    var s := |a|;
    assert text[s] == '/' && text[s + 1] == '*';
    assert forall k :: 0 <= k < s ==> text[k] == a[k];
    assert forall k :: s + 2 <= k < |text| ==> text[k] == b[k - s - 2];
    Outside(text, false, 0, s);
    Inside(text, false, s, |text| - 1);
  }
}
