/** Which lines of a configuration file the stripping of SaveConfig.dfy comments
    out, told from the text of the lines. */
module Overrides {
  import opened Bytes
  import opened Text
  import opened SaveConfig

  predicate CommentSign(c: char) { c == '#' || c == ';' }

  predicate Uncommented(s: string) { forall i :: 0 <= i < |s| ==> !CommentSign(s[i]) }

  lemma {:induction false} BeforeCommentSplits(s: string, tail: string)
    requires Uncommented(s)
    ensures BeforeComment(s + tail) == s + BeforeComment(tail)
    decreases |s|
  {
    if s == "" {
      assert s + tail == tail;
    } else {
      assert (s + tail)[1..] == s[1..] + tail;
      BeforeCommentSplits(s[1..], tail);
    }
  }

  /** What follows the bracket of a section header: blanks, and maybe a comment. */
  predicate Trailing(tail: string) {
    exists n :: 0 <= n <= |tail| && AllBlank(tail[..n]) && (n < |tail| ==> CommentSign(tail[n]))
  }

  lemma TrailingVanishes(tail: string)
    requires Trailing(tail)
    ensures AllBlank(BeforeComment(tail))
  {
    var n :| 0 <= n <= |tail| && AllBlank(tail[..n]) && (n < |tail| ==> CommentSign(tail[n]));
    var blanks, rest := tail[..n], tail[n..];
    BlanksUncommented(blanks);
    hide IsSpace;
    BeforeCommentSplits(blanks, rest);
    assert tail == blanks + rest;
    assert BeforeComment(rest) == "";
    assert blanks + "" == blanks;
  }

  lemma {:induction false} TrimLeftDrops(blanks: string, s: string)
    requires AllBlank(blanks)
    ensures TrimLeft(blanks + s) == TrimLeft(s)
    decreases |blanks|
  {
    if blanks == "" {
      assert blanks + s == s;
    } else {
      assert (blanks + s)[1..] == blanks[1..] + s;
      TrimLeftDrops(blanks[1..], s);
    }
  }

  lemma TrimBoth(l: string, name: string, r: string)
    requires AllBlank(l) && AllBlank(r)
    requires name != "" ==> !IsSpace(name[0]) && !IsSpace(name[|name| - 1])
    ensures Trim(l + name + r) == name
  {
    hide IsSpace;
    assert l + name + r == l + (name + r);
    TrimLeftDrops(l, name + r);
    if name == "" {
      assert name + r == r;
      TrimLeftDrops(r, "");
      assert r + "" == r;
    } else {
      assert TrimLeft(name + r) == name + r;
      TrimRightIgnoresBlanks(name, r);
    }
  }

  /** A section header: blanks around the name do not belong to it. */
  function Header(l: string, name: string, r: string, tail: string): string {
    "[" + l + name + r + "]" + tail
  }

  predicate SectionName(name: string) {
    Uncommented(name) && (name != "" ==> !IsSpace(name[0]) && !IsSpace(name[|name| - 1]))
  }

  lemma HeaderKind(l: string, name: string, r: string, tail: string)
    requires AllBlank(l) && AllBlank(r) && SectionName(name) && Trailing(tail)
    ensures KindOf(Header(l, name, r, tail)) == Section(name)
  {
    var inner := l + name + r;
    var bracketed := "[" + inner + "]";
    hide IsSpace, TrimRight, TrimLeft, BeforeComment;
    BlanksUncommented(l);
    BlanksUncommented(r);
    BeforeCommentSplits(bracketed, tail);
    assert Header(l, name, r, tail) == bracketed + tail;
    TrailingVanishes(tail);
    TrimRightIgnoresBlanks(bracketed, BeforeComment(tail));
    BracketStays(bracketed);
    assert Pruned(bracketed + tail) == bracketed;
    assert Inner(bracketed) == inner;
    TrimBoth(l, name, r);
    BracketNoBlank();
  }

  lemma BracketNoBlank()
    ensures !IsSpace('[')
  {
  }

  lemma BlanksUncommented(s: string)
    requires AllBlank(s)
    ensures Uncommented(s)
  {
  }

  lemma BracketStays(s: string)
    requires s != "" && s[|s| - 1] == ']'
    ensures TrimRight(s) == s
  {
  }

  // ---------- Fields ----------

  predicate AllWord(s: string) { forall i :: 0 <= i < |s| ==> IsWord(s[i]) }

  /** The characters of option names. */
  lemma WordCharacters(c: char)
    ensures IsWord(c) <==> c in "ABCDEFGHIJKLMNOPQRSTUVWXYZ" || c in "abcdefghijklmnopqrstuvwxyz" || c in "0123456789_"
  {
    Alphabet(c, 'A', "ABCDEFGHIJKLMNOPQRSTUVWXYZ");
    Alphabet(c, 'a', "abcdefghijklmnopqrstuvwxyz");
    Alphabet(c, '0', "0123456789");
    assert "0123456789_" == "0123456789" + "_";
  }

  /** Consecutive characters from `first` on. */
  lemma Alphabet(c: char, first: char, s: string)
    requires forall i :: 0 <= i < |s| ==> s[i] as int == first as int + i
    ensures c in s <==> first as int <= c as int < first as int + |s|
  {
    if first as int <= c as int < first as int + |s| { assert s[c as int - first as int] == c; }
  }

  lemma WordIsText(c: char)
    requires IsWord(c)
    ensures !IsSpace(c) && !CommentSign(c) && c != '['
  {
  }

  lemma {:induction false} LeadingWordSplits(field: string, rest: string)
    requires AllWord(field) && (rest != "" ==> !IsWord(rest[0]))
    ensures LeadingWord(field + rest) == field
    decreases |field|
  {
    hide IsWord;
    if field == "" {
      assert field + rest == rest;
    } else {
      assert (field + rest)[1..] == field[1..] + rest;
      LeadingWordSplits(field[1..], rest);
      assert [field[0]] + field[1..] == field;
    }
  }

  /** A line that starts with an option name, alone or followed by anything that
      is no part of a name. */
  lemma FieldKind(field: string, rest: string)
    requires field != "" && AllWord(field) && (rest != "" ==> !IsWord(rest[0]))
    ensures KindOf(field + rest) == Field(field)
  {
    hide IsWord, IsSpace, TrimRight, BeforeComment;
    forall i | 0 <= i < |field| ensures !IsSpace(field[i]) && !CommentSign(field[i]) && field[i] != '[' { WordIsText(field[i]); }
    BeforeCommentSplits(field, rest);
    var after := BeforeComment(rest);
    TrimRightAdds(field, after);
    KeptStart(rest);
    LeadingWordSplits(field, TrimRight(after));
    assert (field + TrimRight(after))[0] == field[0];
  }

  /** What is left of a text before a comment, trimmed, starts as the text does. */
  lemma KeptStart(s: string)
    ensures Pruned(s) != "" ==> s != "" && Pruned(s)[0] == s[0]
  {
  }

  // ---------- Lines by their first character ----------

  lemma NotBracketNoSection(line: string)
    requires line == "" || line[0] != '['
    ensures !KindOf(line).Section?
  {
    hide IsSpace, IsWord;
    KeptStart(line);
  }

  /** Empty lines, comments and lines that start with a blank. */
  predicate Between(line: string) {
    line == "" || IsSpace(line[0]) || CommentSign(line[0])
  }

  lemma BetweenKind(line: string)
    requires Between(line)
    ensures KindOf(line) == Blank || KindOf(line) == Continuation
  {
    KeptStart(line);
  }

  /** Some character that is neither blank nor in a comment. */
  predicate HasText(line: string) {
    exists q :: 0 <= q < |line| && !IsSpace(line[q]) && Uncommented(line[..q + 1])
  }

  lemma {:induction false} TrimKeepsText(s: string, q: nat)
    requires q < |s| && !IsSpace(s[q])
    ensures TrimRight(s) != ""
    decreases |s|
  {
    if IsSpace(s[|s| - 1]) { TrimKeepsText(s[..|s| - 1], q); }
  }

  lemma ContinuationKind(line: string)
    requires line != "" && IsSpace(line[0]) && HasText(line)
    ensures KindOf(line) == Continuation
  {
    hide IsSpace;
    var q :| 0 <= q < |line| && !IsSpace(line[q]) && Uncommented(line[..q + 1]);
    BeforeCommentSplits(line[..q + 1], line[q + 1..]);
    assert line[..q + 1] + line[q + 1..] == line;
    TrimKeepsText(BeforeComment(line), q);
    KeptStart(line);
  }

  // ---------- Which lines are commented out ----------

  lemma {:induction false} SectionStays(lines: seq<string>, i: nat, j: nat)
    requires i <= j <= |lines|
    requires forall k :: i <= k < j ==> lines[k] == "" || lines[k][0] != '['
    ensures SectionAt(lines, j) == SectionAt(lines, i)
    decreases j
  {
    hide KindOf;
    if i < j {
      NotBracketNoSection(lines[j - 1]);
      SectionStays(lines, i, j - 1);
    }
  }

  lemma {:induction false} DuplicateStays(has: HasOption, lines: seq<string>, j: nat, m: nat)
    requires j <= m <= |lines| && forall k :: j <= k < m ==> Between(lines[k])
    ensures DuplicateAt(has, lines, m) == DuplicateAt(has, lines, j)
    decreases m
  {
    hide KindOf, Between;
    if j < m {
      BetweenKind(lines[m - 1]);
      DuplicateStays(has, lines, j, m - 1);
    }
  }

  /** The lines a text has when some are commented out. */
  predicate LineComesOut(has: HasOption, lines: seq<string>, j: nat, commented: bool)
    requires lines != [] && j < |lines| && forall i :: 0 <= i < |lines| ==> '\n' !in lines[i]
  {
    var out := Lines(StripDuplicates(has, Join(lines)));
    |out| == |lines| && out[j] == if commented then "#" + lines[j] else lines[j]
  }

  lemma ComesOut(has: HasOption, lines: seq<string>, j: nat)
    requires lines != [] && j < |lines| && forall i :: 0 <= i < |lines| ==> '\n' !in lines[i]
    ensures LineComesOut(has, lines, j, Overridden(has, lines, j))
  {
    hide Overridden, Lines, Join;
    LinesJoin(lines);
    StrippedLines(has, Join(lines));
  }

  /** A field is commented out exactly if the other configuration has the option
      in the section of the last header before it, whatever stands in between ... */
  lemma FieldInSection(has: HasOption, lines: seq<string>, i: nat, j: nat,
                       l: string, name: string, r: string, tail: string, field: string, rest: string)
    requires forall k :: 0 <= k < |lines| ==> '\n' !in lines[k]
    requires i < j < |lines| && lines[i] == Header(l, name, r, tail) && lines[j] == field + rest
    requires AllBlank(l) && AllBlank(r) && SectionName(name) && Trailing(tail)
    requires forall k :: i < k < j ==> lines[k] == "" || lines[k][0] != '['
    requires field != "" && AllWord(field) && (rest != "" ==> !IsWord(rest[0]))
    ensures LineComesOut(has, lines, j, has(Some(name), field))
  {
    hide KindOf, LineComesOut, Header;
    HeaderKind(l, name, r, tail);
    FieldKind(field, rest);
    SectionStays(lines, i + 1, j);
    ComesOut(has, lines, j);
  }

  /** ... or in no section, when there is no header before it ... */
  lemma FieldBeforeSections(has: HasOption, lines: seq<string>, j: nat, field: string, rest: string)
    requires forall k :: 0 <= k < |lines| ==> '\n' !in lines[k]
    requires j < |lines| && lines[j] == field + rest
    requires forall k :: 0 <= k < j ==> lines[k] == "" || lines[k][0] != '['
    requires field != "" && AllWord(field) && (rest != "" ==> !IsWord(rest[0]))
    ensures LineComesOut(has, lines, j, has(None, field))
  {
    hide KindOf, LineComesOut;
    FieldKind(field, rest);
    SectionStays(lines, 0, j);
    ComesOut(has, lines, j);
  }

  /** ... and so are the lines that continue its value. */
  lemma ContinuationFollows(has: HasOption, lines: seq<string>, j: nat, m: nat, field: string, rest: string)
    requires forall k :: 0 <= k < |lines| ==> '\n' !in lines[k]
    requires j < m < |lines| && lines[j] == field + rest
    requires field != "" && AllWord(field) && (rest != "" ==> !IsWord(rest[0]))
    requires forall k :: j < k < m ==> Between(lines[k])
    requires lines[m] != "" && IsSpace(lines[m][0]) && HasText(lines[m])
    ensures forall commented :: LineComesOut(has, lines, j, commented) ==> LineComesOut(has, lines, m, commented)
  {
    hide KindOf, LineComesOut, Between, HasText;
    FieldKind(field, rest);
    ContinuationKind(lines[m]);
    DuplicateStays(has, lines, j + 1, m);
    ComesOut(has, lines, j);
    ComesOut(has, lines, m);
    EitherWay(has, lines, j);
  }

  lemma EitherWay(has: HasOption, lines: seq<string>, j: nat)
    requires lines != [] && j < |lines| && forall i :: 0 <= i < |lines| ==> '\n' !in lines[i]
    ensures !(LineComesOut(has, lines, j, true) && LineComesOut(has, lines, j, false))
  {
    assert |"#" + lines[j]| != |lines[j]|;
  }

  /** Headers, comments, empty lines and lines of blanks are never touched. */
  lemma OthersStay(has: HasOption, lines: seq<string>, j: nat)
    requires forall k :: 0 <= k < |lines| ==> '\n' !in lines[k]
    requires j < |lines| && (lines[j] == "" || lines[j][0] == '[' || CommentSign(lines[j][0]) || AllBlank(lines[j]))
    ensures LineComesOut(has, lines, j, false)
  {
    hide LineComesOut;
    OtherKind(lines[j]);
    ComesOut(has, lines, j);
  }

  lemma OtherKind(line: string)
    requires line == "" || line[0] == '[' || CommentSign(line[0]) || AllBlank(line)
    ensures KindOf(line) == Blank || KindOf(line).Section?
  {
    hide IsWord, TrimRight;
    if line != "" && line[0] == '[' {
      BracketBegins(line);
    } else if line != "" && !CommentSign(line[0]) {
      KeptBlank(line);
    }
  }

  lemma BracketBegins(line: string)
    requires line != "" && line[0] == '['
    ensures Pruned(line) != "" && Pruned(line)[0] == '[' && !IsSpace('[')
  {
    assert BeforeComment(line)[0] == '[';
    TrimKeepsText(BeforeComment(line), 0);
  }

  lemma KeptBlank(line: string)
    requires AllBlank(line)
    ensures Pruned(line) == ""
  {
    assert Pruned(line) <= line;
  }
}
