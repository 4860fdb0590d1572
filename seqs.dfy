/** Sequence helpers shared by the scripts: order-preserving filtering, and joining/splitting lines. */
module Seqs {

  /** `r` is obtained from `s` by deleting elements, keeping the order of the rest. */
  predicate Subsequence<T(==)>(r: seq<T>, s: seq<T>)
    decreases |s|
  {
    if r == [] then true
    else if s == [] then false
    else (r[|r| - 1] == s[|s| - 1] && Subsequence(r[..|r| - 1], s[..|s| - 1]))
         || Subsequence(r, s[..|s| - 1])
  }

  /**
   * The elements of `s` that satisfy `keep`, in their original order: what a
   * list comprehension with an `if` clause, or a loop that appends, produces.
   */
  function Filter<T(==,!new)>(s: seq<T>, keep: T -> bool): (r: seq<T>)
    ensures forall x :: x in r <==> x in s && keep(x)
    ensures forall x :: multiset(r)[x] == if keep(x) then multiset(s)[x] else 0
    ensures Subsequence(r, s)
    decreases |s|
  {
    if s == [] then []
    else
      var init := Filter(s[..|s| - 1], keep);
      assert s == s[..|s| - 1] + [s[|s| - 1]];
      if keep(s[|s| - 1]) then init + [s[|s| - 1]] else init
  }

  /** Lines joined with a separator character, as `sep.join(lines)` does. */
  function Join(lines: seq<string>, sep: char): string
    decreases |lines|
  {
    if lines == [] then ""
    else if |lines| == 1 then lines[0]
    else Join(lines[..|lines| - 1], sep) + [sep] + lines[|lines| - 1]
  }

  /** Cuts text at every separator character, as `text.split(sep)` does: the inverse of Join. */
  function Split(text: string, sep: char): (r: seq<string>)
    ensures |r| >= 1
    decreases |text|
  {
    if text == [] then [""]
    else
      var init := Split(text[..|text| - 1], sep);
      var c := text[|text| - 1];
      if c == sep then init + [""]
      else init[..|init| - 1] + [init[|init| - 1] + [c]]
  }

  /** Appending a separator-free piece to text extends only its last line. */
  lemma {:induction false} SplitAppend(text: string, piece: string, sep: char)
    requires sep !in piece
    ensures var a := Split(text, sep); var b := Split(text + piece, sep);
      |b| == |a| && b[..|a| - 1] == a[..|a| - 1] && b[|a| - 1] == a[|a| - 1] + piece
    decreases |piece|
  {
    if piece != [] {
      var p := piece[..|piece| - 1];
      SplitAppend(text, p, sep);
      assert text + piece == (text + p) + [piece[|piece| - 1]];
      assert (text + piece)[..|text + piece| - 1] == text + p;
    } else {
      assert text + piece == text;
    }
  }

  /** A separator at the end of text opens a new, empty last line. */
  lemma SplitSeparator(text: string, sep: char)
    ensures Split(text + [sep], sep) == Split(text, sep) + [""]
  {
    assert (text + [sep])[..|text + [sep]| - 1] == text;
  }

  /** Splitting joined lines gives the lines back when no line holds the separator. */
  lemma {:induction false} SplitJoin(lines: seq<string>, sep: char)
    requires |lines| >= 1
    requires forall i :: 0 <= i < |lines| ==> sep !in lines[i]
    ensures Split(Join(lines, sep), sep) == lines
    decreases |lines|
  {
    if |lines| == 1 {
      SplitNone(lines[0], sep);
    } else {
      var init, last := lines[..|lines| - 1], lines[|lines| - 1];
      SplitJoin(init, sep);
      JoinSnoc(lines, sep);
      SplitAddLine(Join(init, sep), last, sep);
    }
  }

  /** The joined text starts with the first line and ends with the last; two lines or more put a separator between. */
  lemma {:induction false} JoinEnds(lines: seq<string>, sep: char)
    requires |lines| > 0
    ensures var r := Join(lines, sep);
      && |lines[0]| <= |r| && r[..|lines[0]|] == lines[0]
      && |lines[|lines| - 1]| <= |r| && r[|r| - |lines[|lines| - 1]|..] == lines[|lines| - 1]
      && (|lines| > 1 ==> sep in r)
    decreases |lines|
  {
    if |lines| > 1 {
      var init := lines[..|lines| - 1];
      JoinEnds(init, sep);
      JoinSnoc(lines, sep);
      var j := Join(init, sep);
      assert init[0] == lines[0];
      assert (j + [sep] + lines[|lines| - 1])[..|lines[0]|] == j[..|lines[0]|];
      assert (j + [sep] + lines[|lines| - 1])[|j| + 1..] == lines[|lines| - 1];
      assert (j + [sep] + lines[|lines| - 1])[|j|] == sep;
    }
  }

  /** Joining one more line adds a separator and the line. */
  lemma JoinSnoc(lines: seq<string>, sep: char)
    requires |lines| >= 2
    ensures Join(lines, sep) == Join(lines[..|lines| - 1], sep) + [sep] + lines[|lines| - 1]
    ensures lines == lines[..|lines| - 1] + [lines[|lines| - 1]]
  {
  }

  /** Text without a separator is one line. */
  lemma SplitNone(text: string, sep: char)
    requires sep !in text
    ensures Split(text, sep) == [text]
  {
    SplitAppend("", text, sep);
    assert "" + text == text;
  }

  /** One more character either opens a new line (a separator) or extends the last line. */
  lemma SplitSnoc(text: string, c: char, sep: char)
    ensures var init := Split(text, sep);
      Split(text + [c], sep) == if c == sep then init + [""] else init[..|init| - 1] + [init[|init| - 1] + [c]]
  {
    assert (text + [c])[..|text + [c]| - 1] == text;
  }

  /** Splitting at a separator in the middle splits each side independently. */
  lemma {:induction false} SplitConcat(a: string, b: string, sep: char)
    ensures Split(a + [sep] + b, sep) == Split(a, sep) + Split(b, sep)
    decreases |b|
  {
    if b == [] {
      assert a + [sep] + b == a + [sep];
      SplitSeparator(a, sep);
    } else {
      var b' := b[..|b| - 1];
      SplitConcat(a, b', sep);
      SplitConcatStep(a, b', b[|b| - 1], sep);
      assert b == b' + [b[|b| - 1]];
    }
  }

  /** The step of SplitConcat: one more character on the right-hand side. */
  lemma SplitConcatStep(a: string, b: string, c: char, sep: char)
    requires Split(a + [sep] + b, sep) == Split(a, sep) + Split(b, sep)
    ensures Split(a + [sep] + (b + [c]), sep) == Split(a, sep) + Split(b + [c], sep)
  {
    var t := a + [sep] + b;
    assert a + [sep] + (b + [c]) == t + [c];
    if c == sep {
      SplitSnoc(t, c, sep);
      SplitSnoc(b, c, sep);
      AppendEmptyLine(Split(a, sep), Split(b, sep));
    } else {
      ExtendSplit(Split(t, sep), Split(a, sep), Split(b, sep), t, b, c, sep);
    }
  }

  lemma ExtendSplit(st: seq<string>, sa: seq<string>, sb: seq<string>, t: string, b: string, c: char, sep: char)
    requires c != sep && st == Split(t, sep) && sb == Split(b, sep) && st == sa + sb
    ensures Split(t + [c], sep) == sa + Split(b + [c], sep)
  {
    SplitSnoc(t, c, sep);
    ExtendLastLine(sa, sb, c);
    SplitSnoc(b, c, sep);
  }

  lemma AppendEmptyLine(sa: seq<string>, sb: seq<string>)
    ensures (sa + sb) + [""] == sa + (sb + [""])
  {
  }

  lemma ExtendLastLine(sa: seq<string>, sb: seq<string>, c: char)
    requires |sb| > 0
    ensures var st := sa + sb;
      st[..|st| - 1] + [st[|st| - 1] + [c]] == sa + (sb[..|sb| - 1] + [sb[|sb| - 1] + [c]])
  {
    var st := sa + sb;
    assert st[..|st| - 1] == sa + sb[..|sb| - 1];
  }

  /** Separator-free text appended to text extends its last line. */
  lemma ExtendLine(text: string, piece: string, sep: char, lines: seq<string>, last: string)
    requires sep !in piece
    requires Split(text, sep) == lines + [last]
    ensures Split(text + piece, sep) == lines + [last + piece]
  {
    SplitAppend(text, piece, sep);
    var a, b := Split(text, sep), Split(text + piece, sep);
    assert a[..|lines|] == lines && a[|lines|] == last;
    assert b == b[..|lines|] + [b[|lines|]];
  }

  /** A separator-free line added after a separator becomes one more line. */
  lemma SplitAddLine(text: string, line: string, sep: char)
    requires sep !in line
    ensures Split(text + [sep] + line, sep) == Split(text, sep) + [line]
  {
    SplitConcat(text, line, sep);
    SplitNone(line, sep);
  }

  /** Separator-free text after a line break fills the new, empty last line. */
  lemma LineStart(text: string, done: seq<string>, piece: string)
    requires Split(text, '\n') == done + [""]
    requires '\n' !in piece
    ensures Split(text + piece, '\n') == done + [piece]
  {
    ExtendLine(text, piece, '\n', done, "");
    assert "" + piece == piece;
  }

  /** A line break closes the last line and opens an empty one. */
  lemma LineBreak(text: string, done: seq<string>, last: string)
    requires Split(text, '\n') == done + [last]
    ensures Split(text + "\n", '\n') == done + [last, ""]
  {
    assert text + "\n" == text + ['\n'];
    SplitSeparator(text, '\n');
  }

  /** A separator-free line fills the empty last line and is closed by a line break. */
  lemma WholeLine(text: string, done: seq<string>, line: string)
    requires Split(text, '\n') == done + [""]
    requires '\n' !in line
    ensures Split(text + line + "\n", '\n') == done + [line, ""]
  {
    LineStart(text, done, line);
    LineBreak(text + line, done, line);
  }

  /** Two line breaks close the last line and leave a blank line and an empty one. */
  lemma BlankLine(text: string, done: seq<string>, last: string)
    requires Split(text, '\n') == done + [last]
    ensures Split(text + "\n\n", '\n') == done + [last, "", ""]
  {
    assert text + "\n\n" == text + ['\n'] + ['\n'];
    SplitSeparator(text, '\n');
    SplitSeparator(text + ['\n'], '\n');
  }

  /** A space and a word end the current line, then a blank line follows. */
  lemma SpaceWordBlank(text: string, done: seq<string>, last: string, word: string)
    requires Split(text, '\n') == done + [last]
    requires '\n' !in word
    ensures Split(text + " " + word + "\n\n", '\n') == done + [last + " " + word, "", ""]
  {
    ExtendLine(text, " ", '\n', done, last);
    ExtendLine(text + " ", word, '\n', done, last + " ");
    BlankLine(text + " " + word, done, last + " " + word);
  }

  /** "(<pct>%)" fills the empty last line, a blank line follows, and a final line closes the text. */
  lemma PercentLines(text: string, done: seq<string>, pct: string, final: string)
    requires Split(text, '\n') == done + [""]
    requires '\n' !in pct && '\n' !in final
    ensures Split(text + "(" + pct + "%)" + "\n\n" + final, '\n') == done + ["(" + pct + "%)", "", final]
  {
    LineStart(text, done, "(");
    ExtendLine(text + "(", pct, '\n', done, "(");
    PercentThenLastLine(text + "(" + pct, done, "(" + pct, final);
  }

  /** "%)" ends the current line, a blank line follows, and a final line closes the text. */
  lemma PercentThenLastLine(text: string, done: seq<string>, last: string, final: string)
    requires Split(text, '\n') == done + [last]
    requires '\n' !in final
    ensures Split(text + "%)" + "\n\n" + final, '\n') == done + [last + "%)", "", final]
  {
    ExtendLine(text, "%)", '\n', done, last);
    BlankLine(text + "%)", done, last + "%)");
    assert Split(text + "%)" + "\n\n", '\n') == (done + [last + "%)", ""]) + [""];
    LineStart(text + "%)" + "\n\n", done + [last + "%)", ""], final);
  }
}
