/** The string operations of Python that the configuration and pin code use. */
module Text {
  /** str.isspace for one character. */
  predicate IsSpace(c: char) {
    || '\t' <= c <= '\r'
    || '\U{1c}' <= c <= ' '
    || c == '\U{85}' || c == '\U{a0}' || c == '\U{1680}' || '\U{2000}' <= c <= '\U{200a}'
    || c == '\U{2028}' || c == '\U{2029}' || c == '\U{202f}' || c == '\U{205f}' || c == '\U{3000}'
  }

  /** str.rstrip() */
  function TrimRight(s: string): (t: string)
    ensures t <= s
    ensures t != "" ==> !IsSpace(t[|t| - 1])
  {
    if s != "" && IsSpace(s[|s| - 1]) then TrimRight(s[..|s| - 1]) else s
  }

  /** str.lstrip() */
  function TrimLeft(s: string): (t: string)
    ensures |t| <= |s| && t == s[|s| - |t|..]
    ensures t != "" ==> !IsSpace(t[0])
  {
    if s != "" && IsSpace(s[0]) then TrimLeft(s[1..]) else s
  }

  /** str.strip() */
  function Trim(s: string): string { TrimRight(TrimLeft(s)) }

  /** s.split('\n') */
  function Lines(s: string): (lines: seq<string>)
    ensures lines != []
    ensures forall i :: 0 <= i < |lines| ==> '\n' !in lines[i]
  {
    if s == "" then [""]
    else
      var rest := Lines(s[1..]);
      if s[0] == '\n' then [""] + rest else [[s[0]] + rest[0]] + rest[1..]
  }

  /** '\n'.join(lines) */
  function Join(lines: seq<string>): string {
    if lines == [] then "" else if |lines| == 1 then lines[0] else lines[0] + "\n" + Join(lines[1..])
  }

  lemma {:induction false} JoinLines(s: string)
    ensures Join(Lines(s)) == s
  {
    if s != "" {
      JoinLines(s[1..]);
      var rest := Lines(s[1..]);
      if s[0] == '\n' {
        assert Lines(s)[1..] == rest;
        assert "" + "\n" + s[1..] == s;
      } else {
        assert Lines(s)[1..] == rest[1..];
        if |rest| == 1 {
          assert [s[0]] + s[1..] == s;
        } else {
          assert ([s[0]] + rest[0]) + "\n" + Join(rest[1..]) == [s[0]] + (rest[0] + "\n" + Join(rest[1..]));
        }
      }
    }
  }

  /** The lines of a text that starts with a line. */
  lemma {:induction false} LinesFirst(line: string, s: string)
    requires '\n' !in line
    ensures Lines(line) == [line]
    ensures Lines(line + "\n" + s) == [line] + Lines(s)
    decreases |line|
  {
    if line == "" {
      assert ("" + "\n" + s)[1..] == s;
    } else {
      LinesFirst(line[1..], s);
      assert (line + "\n" + s)[1..] == line[1..] + "\n" + s;
      assert [line[0]] + line[1..] == line;
    }
  }

  lemma {:induction false} LinesJoin(lines: seq<string>)
    requires lines != [] && forall i :: 0 <= i < |lines| ==> '\n' !in lines[i]
    ensures Lines(Join(lines)) == lines
  {
    if |lines| == 1 {
      LinesFirst(lines[0], "");
    } else {
      LinesJoin(lines[1..]);
      LinesFirst(lines[0], Join(lines[1..]));
    }
  }

  lemma {:induction false} TrimRightAdds(s: string, t: string)
    requires s != "" && !IsSpace(s[|s| - 1])
    ensures TrimRight(s + t) == s + TrimRight(t)
    decreases |t|
  {
    if t == "" {
      assert s + t == s;
    } else if IsSpace(t[|t| - 1]) {
      assert (s + t)[..|s + t| - 1] == s + t[..|t| - 1];
      TrimRightAdds(s, t[..|t| - 1]);
    }
  }

  /** A text's lines after one more character in front. */
  function CharBefore(c: char, lines: seq<string>): (r: seq<string>)
    requires lines != []
    ensures r != []
  {
    if c == '\n' then [""] + lines else [[c] + lines[0]] + lines[1..]
  }

  lemma LinesCons(s: string)
    requires s != ""
    ensures Lines(s) == CharBefore(s[0], Lines(s[1..]))
  {
  }

  /** Two texts' lines when one follows the other: the line at the seam is one line. */
  function Glue(a: seq<string>, b: seq<string>): seq<string>
    requires a != [] && b != []
  {
    a[..|a| - 1] + ([a[|a| - 1] + b[0]] + b[1..])
  }

  lemma GlueBefore(c: char, a: seq<string>, b: seq<string>)
    requires a != [] && b != []
    ensures CharBefore(c, Glue(a, b)) == Glue(CharBefore(c, a), b)
  {
    if c == '\n' {
      GlueMany("", a, b);
    } else if |a| == 1 {
      assert [c] + (a[0] + b[0]) == ([c] + a[0]) + b[0];
    } else {
      assert a == [a[0]] + a[1..];
      GlueMany(a[0], a[1..], b);
      GlueMany([c] + a[0], a[1..], b);
    }
  }

  lemma GlueMany(line: string, more: seq<string>, b: seq<string>)
    requires more != [] && b != []
    ensures Glue([line] + more, b) == [line] + Glue(more, b)
  {
    assert ([line] + more)[..|more|] == [line] + more[..|more| - 1];
  }

  lemma {:induction false} LinesConcat(a: string, b: string)
    ensures Lines(a + b) == Glue(Lines(a), Lines(b))
    decreases |a|
  {
    hide Glue, CharBefore;
    if a == "" {
      assert a + b == b;
      GlueNothing(Lines(b));
    } else {
      assert (a + b)[1..] == a[1..] + b;
      LinesCons(a);
      LinesCons(a + b);
      LinesConcat(a[1..], b);
      GlueBefore(a[0], Lines(a[1..]), Lines(b));
    }
  }

  lemma GlueNothing(b: seq<string>)
    requires b != []
    ensures Glue(Lines(""), b) == b
  {
    assert Lines("") == [""] && "" + b[0] == b[0];
  }
}
