/** Commenting out the options SAVE_CONFIG overrides (_strip_duplicates of
    configfile.py), and what saving twice does to a file. */
module SaveConfig {
  import opened Bytes
  import opened Text
  import opened Autosave

  // ---------- One line ----------

  datatype Kind = Blank | Continuation | Section(name: string) | Field(name: string)

  /** comment_r.sub('', line) */
  function BeforeComment(line: string): (r: string)
    ensures r <= line
  {
    if line == "" || line[0] == '#' || line[0] == ';' then "" else [line[0]] + BeforeComment(line[1..])
  }

  function Pruned(line: string): string { TrimRight(BeforeComment(line)) }

  predicate IsWord(c: char) {
    'A' <= c <= 'Z' || 'a' <= c <= 'z' || '0' <= c <= '9' || c == '_'
  }

  /** value_r.sub('', line) */
  function LeadingWord(line: string): string {
    if line == "" || !IsWord(line[0]) then "" else [line[0]] + LeadingWord(line[1..])
  }

  /** s[1:-1] */
  function Inner(s: string): string {
    if |s| < 2 then "" else s[1..|s| - 1]
  }

  function KindOfPruned(pruned: string): Kind {
    if pruned == "" then Blank
    else if IsSpace(pruned[0]) then Continuation
    else if pruned[0] == '[' then Section(Trim(Inner(pruned)))
    else Field(LeadingWord(pruned))
  }

  function KindOf(line: string): Kind { KindOfPruned(Pruned(line)) }

  // ---------- All lines ----------

  /** has_option of the other configuration. */
  type HasOption = (Option<string>, string) -> bool

  /** The section in force after the first k lines. */
  function SectionAt(lines: seq<string>, k: nat): Option<string>
    requires k <= |lines|
  {
    if k == 0 then None
    else
      match KindOf(lines[k - 1])
      case Section(name) => Some(name)
      case _ => SectionAt(lines, k - 1)
  }

  /** Whether the last section or field among the first k lines is an overridden field. */
  function DuplicateAt(has: HasOption, lines: seq<string>, k: nat): bool
    requires k <= |lines|
  {
    if k == 0 then false
    else
      match KindOf(lines[k - 1])
      case Section(_) => false
      case Field(name) => has(SectionAt(lines, k - 1), name)
      case _ => DuplicateAt(has, lines, k - 1)
  }

  /** The lines to comment out: overridden fields and what continues them. */
  predicate Overridden(has: HasOption, lines: seq<string>, i: nat)
    requires i < |lines|
  {
    match KindOf(lines[i])
    case Field(name) => has(SectionAt(lines, i), name)
    case Continuation => DuplicateAt(has, lines, i)
    case _ => false
  }

  function Stripped(has: HasOption, lines: seq<string>): (r: seq<string>)
    ensures |r| == |lines|
    ensures forall i :: 0 <= i < |r| ==> r[i] == if Overridden(has, lines, i) then "#" + lines[i] else lines[i]
  {
    seq(|lines|, i requires 0 <= i < |lines| => if Overridden(has, lines, i) then "#" + lines[i] else lines[i])
  }

  function StripDuplicates(has: HasOption, data: string): string {
    Join(Stripped(has, Lines(data)))
  }

  method StripDuplicateFields(has: HasOption, data: string) returns (r: string)
    ensures r == StripDuplicates(has, data)
  {
    hide Pruned, Trim, Inner, LeadingWord, IsSpace, Overridden;
    var lines := Lines(data);
    ghost var original := lines;
    var section: Option<string> := None;
    var isDupField := false;
    for lineno := 0 to |lines|
      invariant |lines| == |original|
      invariant section == SectionAt(original, lineno) && isDupField == DuplicateAt(has, original, lineno)
      invariant forall j :: 0 <= j < lineno ==> lines[j] == if Overridden(has, original, j) then "#" + original[j] else original[j]
      invariant forall j :: lineno <= j < |lines| ==> lines[j] == original[j]
    {
      LineDecides(has, original, lineno);
      var pruned := Pruned(lines[lineno]);
      if pruned == "" { continue; }
      if IsSpace(pruned[0]) {
        if isDupField { lines := lines[lineno := "#" + lines[lineno]]; }
        continue;
      }
      isDupField := false;
      if pruned[0] == '[' {
        section := Some(Trim(Inner(pruned)));
        continue;
      }
      var field := LeadingWord(pruned);
      if has(section, field) {
        isDupField := true;
        lines := lines[lineno := "#" + lines[lineno]];
      }
    }
    assert lines == Stripped(has, original);
    return Join(lines);
  }

  /** One line's effect on the state and on itself, by its kind. */
  lemma LineDecides(has: HasOption, lines: seq<string>, i: nat)
    requires i < |lines|
    ensures var pruned := Pruned(lines[i]);
      if pruned == "" then
        !Overridden(has, lines, i) && SectionAt(lines, i + 1) == SectionAt(lines, i)
        && DuplicateAt(has, lines, i + 1) == DuplicateAt(has, lines, i)
      else if IsSpace(pruned[0]) then
        (Overridden(has, lines, i) <==> DuplicateAt(has, lines, i)) && SectionAt(lines, i + 1) == SectionAt(lines, i)
        && DuplicateAt(has, lines, i + 1) == DuplicateAt(has, lines, i)
      else if pruned[0] == '[' then
        !Overridden(has, lines, i) && SectionAt(lines, i + 1) == Some(Trim(Inner(pruned))) && !DuplicateAt(has, lines, i + 1)
      else
        (Overridden(has, lines, i) <==> has(SectionAt(lines, i), LeadingWord(pruned)))
        && SectionAt(lines, i + 1) == SectionAt(lines, i)
        && (DuplicateAt(has, lines, i + 1) <==> has(SectionAt(lines, i), LeadingWord(pruned)))
  {
    hide Pruned, Trim, Inner, LeadingWord, IsSpace;
    assert KindOf(lines[i]) == KindOfPruned(Pruned(lines[i]));
  }

  // ---------- Idempotence ----------

  lemma CommentIsBlank(line: string)
    ensures KindOf("#" + line) == Blank
  {
    assert BeforeComment("#" + line) == "";
  }

  /** After stripping, the sections are the same and no field is a duplicate. */
  lemma {:induction false} StrippedState(has: HasOption, lines: seq<string>, k: nat)
    requires k <= |lines|
    ensures SectionAt(Stripped(has, lines), k) == SectionAt(lines, k)
    ensures !DuplicateAt(has, Stripped(has, lines), k)
  {
    hide KindOf, Stripped, Overridden;
    if k > 0 {
      var stripped := Stripped(has, lines);
      StrippedState(has, lines, k - 1);
      if Overridden(has, lines, k - 1) {
        assert stripped[k - 1] == "#" + lines[k - 1];
        CommentIsBlank(lines[k - 1]);
        OverriddenKind(has, lines, k - 1);
      } else {
        assert stripped[k - 1] == lines[k - 1];
        KeptKind(has, lines, k - 1);
      }
    }
  }

  lemma OverriddenKind(has: HasOption, lines: seq<string>, i: nat)
    requires i < |lines| && Overridden(has, lines, i)
    ensures KindOf(lines[i]).Field? || KindOf(lines[i]).Continuation?
  {
    hide KindOf;
  }

  lemma KeptKind(has: HasOption, lines: seq<string>, i: nat)
    requires i < |lines| && !Overridden(has, lines, i)
    ensures KindOf(lines[i]).Field? ==> !has(SectionAt(lines, i), KindOf(lines[i]).name)
  {
    hide KindOf;
  }

  lemma StrippedNothingOverridden(has: HasOption, lines: seq<string>, i: nat)
    requires i < |lines|
    ensures !Overridden(has, Stripped(has, lines), i)
  {
    hide KindOf;
    StrippedState(has, lines, i);
    if Overridden(has, lines, i) { CommentIsBlank(lines[i]); }
  }

  /** Stripping is idempotent, and changes lines only by putting '#' in front. */
  lemma StripIdempotent(has: HasOption, data: string)
    ensures StripDuplicates(has, StripDuplicates(has, data)) == StripDuplicates(has, data)
  {
    hide Overridden, Lines, Join;
    var lines := Stripped(has, Lines(data));
    StrippedLines(has, data);
    forall i | 0 <= i < |lines| ensures Stripped(has, lines)[i] == lines[i] {
      StrippedNothingOverridden(has, Lines(data), i);
    }
    assert Stripped(has, lines) == lines;
  }

  lemma StrippedLines(has: HasOption, data: string)
    ensures Lines(StripDuplicates(has, data)) == Stripped(has, Lines(data))
  {
    hide Overridden, Lines, Join;
    LinesJoin(Stripped(has, Lines(data)));
  }

  // ---------- Trailing blanks do not matter ----------

  predicate AllBlank(s: string) { forall i :: 0 <= i < |s| ==> IsSpace(s[i]) }

  lemma {:induction false} TrimRightIgnoresBlanks(s: string, blanks: string)
    requires AllBlank(blanks)
    ensures TrimRight(s + blanks) == TrimRight(s)
    decreases |blanks|
  {
    if blanks == "" {
      assert s + blanks == s;
    } else {
      assert (s + blanks)[..|s + blanks| - 1] == s + blanks[..|blanks| - 1];
      TrimRightIgnoresBlanks(s, blanks[..|blanks| - 1]);
    }
  }

  lemma {:induction false} CommentIgnoresBlanks(line: string, blanks: string)
    requires AllBlank(blanks)
    ensures BeforeComment(line + blanks) == BeforeComment(line)
         || (BeforeComment(line) == line && BeforeComment(line + blanks) == line + blanks)
    decreases |line| + |blanks|
  {
    if line == "" {
      assert line + blanks == blanks;
      if blanks != "" {
        CommentIgnoresBlanks("", blanks[1..]);
        assert "" + blanks[1..] == blanks[1..];
        assert [blanks[0]] + blanks[1..] == blanks;
      }
    } else if line[0] != '#' && line[0] != ';' {
      assert (line + blanks)[1..] == line[1..] + blanks;
      CommentIgnoresBlanks(line[1..], blanks);
      assert [line[0]] + line[1..] == line;
      assert [line[0]] + (line[1..] + blanks) == line + blanks;
    }
  }

  lemma KindIgnoresBlanks(line: string, blanks: string)
    requires AllBlank(blanks)
    ensures KindOf(line + blanks) == KindOf(line)
  {
    CommentIgnoresBlanks(line, blanks);
    TrimRightIgnoresBlanks(line, blanks);
  }

  /** Lines of the same kinds are overridden alike. */
  predicate SameKinds(a: seq<string>, b: seq<string>, k: nat)
    requires k <= |a| && k <= |b|
  {
    forall i :: 0 <= i < k ==> KindOf(a[i]) == KindOf(b[i])
  }

  lemma {:induction false} SameKindsSameState(has: HasOption, a: seq<string>, b: seq<string>, k: nat)
    requires k <= |a| && k <= |b| && SameKinds(a, b, k)
    ensures SectionAt(a, k) == SectionAt(b, k) && DuplicateAt(has, a, k) == DuplicateAt(has, b, k)
  {
    hide KindOf;
    if k > 0 { SameKindsSameState(has, a, b, k - 1); }
  }

  /** A text's lines after one more character at its end. */
  function CharAfter(lines: seq<string>, c: char): seq<string>
    requires lines != []
  {
    var n := |lines| - 1;
    if c == '\n' then lines + [""] else lines[..n] + [lines[n] + [c]]
  }

  lemma CharsCommute(b: char, lines: seq<string>, c: char)
    requires lines != []
    ensures CharBefore(b, CharAfter(lines, c)) == CharAfter(CharBefore(b, lines), c)
  {
    if b == '\n' {
      AfterMany("", lines, c);
    } else if |lines| == 1 {
      OneLine(b, lines[0], c);
      assert lines == [lines[0]];
    } else {
      ManyLines(b, lines[0], lines[1..], c);
      assert lines == [lines[0]] + lines[1..];
    }
  }

  lemma OneLine(b: char, line: string, c: char)
    requires b != '\n'
    ensures CharBefore(b, CharAfter([line], c)) == CharAfter(CharBefore(b, [line]), c)
  {
    assert ([b] + line) + [c] == [b] + (line + [c]);
    assert CharBefore(b, [line]) == [[b] + line];
  }

  lemma ManyLines(b: char, line: string, more: seq<string>, c: char)
    requires b != '\n' && more != []
    ensures CharBefore(b, CharAfter([line] + more, c)) == CharAfter(CharBefore(b, [line] + more), c)
  {
    AfterMany(line, more, c);
    AfterMany([b] + line, more, c);
    assert ([line] + more)[1..] == more && ([line] + CharAfter(more, c))[1..] == CharAfter(more, c);
  }

  lemma AfterMany(line: string, more: seq<string>, c: char)
    requires more != []
    ensures CharAfter([line] + more, c) == [line] + CharAfter(more, c)
  {
    assert ([line] + more)[..|more|] == [line] + more[..|more| - 1];
  }

  lemma {:induction false} LinesSnoc(s: string, c: char)
    ensures Lines(s + [c]) == CharAfter(Lines(s), c)
    decreases |s|
  {
    hide CharAfter, CharBefore;
    if s == "" {
      LinesOfChar(c);
      assert "" + [c] == [c];
    } else {
      assert (s + [c])[1..] == s[1..] + [c];
      LinesCons(s);
      LinesCons(s + [c]);
      LinesSnoc(s[1..], c);
      CharsCommute(s[0], Lines(s[1..]), c);
    }
  }

  lemma LinesOfChar(c: char)
    ensures Lines([c]) == CharAfter(Lines(""), c)
  {
    assert [c][1..] == "" && Lines("") == [""];
    assert [c] + "" == "" + [c];
  }

  /** The lines of the right-trimmed text are of the same kinds as the first lines of the text. */
  lemma {:induction false} TrimmedTextLines(s: string)
    ensures var t := Lines(TrimRight(s));
            |t| <= |Lines(s)| && SameKinds(t, Lines(s), |t|)
  {
    hide KindOf, Lines;
    if s != "" && IsSpace(s[|s| - 1]) {
      var shorter, c := s[..|s| - 1], s[|s| - 1];
      TrimmedTextLines(shorter);
      assert s == shorter + [c];
      LinesSnoc(shorter, c);
      var last := Lines(shorter)[|Lines(shorter)| - 1];
      KindIgnoresBlanks(last, [c]);
    }
  }

  // ---------- Saving twice ----------

  /** SAVE_CONFIG on the user's text of a file. */
  function SaveOver(has: HasOption, regular: string, settings: string): string {
    Save(StripDuplicates(has, regular), settings)
  }

  /** The user's text that a save leaves behind needs no more stripping. */
  lemma KeptIsStripped(has: HasOption, data: string)
    ensures StripDuplicates(has, Kept(StripDuplicates(has, data))) == Kept(StripDuplicates(has, data))
  {
    hide Overridden, Lines, Join, KindOf, TrimRight;
    var s := StripDuplicates(has, data);
    var r := TrimRight(s);
    var lines := Lines(r + "\n");
    LinesSnoc(r, '\n');
    TrimmedTextLines(s);
    StrippedLines(has, data);
    forall i | 0 <= i < |lines| ensures !Overridden(has, lines, i) {
      if i < |Lines(r)| {
        assert lines[i] == Lines(r)[i];
        StrippedNothingOverridden(has, Lines(data), i);
        SameOverridden(has, lines, Lines(s), i);
      } else {
        EmptyNotOverridden(has, lines, i);
      }
    }
    assert Stripped(has, lines) == lines;
    JoinLines(r + "\n");
  }

  lemma SameOverridden(has: HasOption, a: seq<string>, b: seq<string>, i: nat)
    requires i < |a| && i < |b| && SameKinds(a, b, i + 1)
    ensures Overridden(has, a, i) == Overridden(has, b, i)
  {
    hide KindOf;
    SameKindsSameState(has, a, b, i);
  }

  lemma EmptyNotOverridden(has: HasOption, lines: seq<string>, i: nat)
    requires i < |lines| && lines[i] == ""
    ensures !Overridden(has, lines, i)
  {
  }

  // ---------- The marker ----------

  predicate MarkerLine(lines: seq<string>, from: nat) {
    exists i :: from <= i < |lines| && PREFIX <= lines[i]
  }

  lemma {:induction false} FirstLineStarts(s: string, p: string)
    requires '\n' !in p
    ensures p <= s <==> p <= Lines(s)[0]
    decreases |p|
  {
    if p != "" && s != "" && s[0] == p[0] {
      FirstLineStarts(s[1..], p[1..]);
      assert p <= s <==> p[1..] <= s[1..];
      assert Lines(s)[0][1..] == Lines(s[1..])[0];
      assert p <= Lines(s)[0] <==> p[1..] <= Lines(s[1..])[0];
    }
  }

  /** The marker occurs in a text exactly when a line after the first starts with its prefix. */
  lemma {:induction false} MarkerIffLine(s: string)
    ensures Contains(s, MARKER) <==> MarkerLine(Lines(s), 1)
  {
    hide FindFrom;
    if s == "" {
      NoMarkerInEmpty();
    } else {
      MarkerIffLine(s[1..]);
      MarkerShifts(s);
      var rest := Lines(s[1..]);
      FirstLineStarts(s[1..], PREFIX);
      if s[0] == '\n' {
        assert Lines(s)[1..] == rest;
        MarkerLineShifts([""], rest);
      } else {
        assert Lines(s)[1..] == rest[1..];
        MarkerLineTail(Lines(s), rest);
      }
    }
  }

  lemma NoMarkerInEmpty()
    ensures !Contains("", MARKER) && Lines("") == [""]
  {
  }

  lemma MarkerShifts(s: string)
    requires s != ""
    ensures Contains(s, MARKER) <==> (s[0] == '\n' && PREFIX <= s[1..]) || Contains(s[1..], MARKER)
  {
    OccursFirst(s);
    forall p: nat ensures Occurs(s, MARKER, p + 1) <==> Occurs(s[1..], MARKER, p) {
      if p + 6 <= |s| { assert s[p + 1..p + 6] == s[1..][p..p + 5]; }
    }
    ContainsIff(s);
    ContainsIff(s[1..]);
    if p: nat :| Occurs(s, MARKER, p) {
      if p > 0 { assert Occurs(s[1..], MARKER, p - 1); }
    }
    if p: nat :| Occurs(s[1..], MARKER, p) {
      assert Occurs(s, MARKER, p + 1);
    }
  }

  lemma ContainsIff(s: string)
    ensures Contains(s, MARKER) <==> exists p: nat :: Occurs(s, MARKER, p)
  {
  }

  lemma OccursFirst(s: string)
    requires s != ""
    ensures Occurs(s, MARKER, 0) <==> s[0] == '\n' && PREFIX <= s[1..]
  {
    if |s| >= 5 {
      assert s[..5] == [s[0]] + s[1..][..4];
      assert MARKER == "\n" + PREFIX;
    }
  }

  lemma MarkerLineShifts(first: seq<string>, rest: seq<string>)
    requires |first| == 1 && rest != []
    ensures MarkerLine(first + rest, 1) <==> PREFIX <= rest[0] || MarkerLine(rest, 1)
  {
    var all := first + rest;
    if i :| 1 <= i < |all| && PREFIX <= all[i] { assert all[i] == rest[i - 1]; }
    if PREFIX <= rest[0] { assert PREFIX <= all[1]; }
    if i :| 1 <= i < |rest| && PREFIX <= rest[i] { assert PREFIX <= all[i + 1]; }
  }

  lemma MarkerLineTail(a: seq<string>, b: seq<string>)
    requires a != [] && b != [] && a[1..] == b[1..]
    ensures MarkerLine(a, 1) <==> MarkerLine(b, 1)
  {
    assert |a| == |b|;
    forall i | 1 <= i < |a| ensures a[i] == b[i] {
      assert a[i] == a[1..][i - 1] && b[i] == b[1..][i - 1];
    }
  }

  /** No configuration parser has an option without a name; so stripping never
      brings a marker into user text free of it. */
  lemma StripMakesNoMarker(has: HasOption, data: string)
    requires forall section :: !has(section, "")
    ensures Contains(StripDuplicates(has, data), MARKER) <==> Contains(data, MARKER)
  {
    hide Overridden, Lines, Join, Contains;
    MarkerIffLine(data);
    MarkerIffLine(StripDuplicates(has, data));
    StrippedLines(has, data);
    var lines := Lines(data);
    forall i | 0 <= i < |lines|
      ensures PREFIX <= lines[i] <==> PREFIX <= Stripped(has, lines)[i]
    {
      StripKeepsPrefix(has, lines, i);
    }
  }

  lemma StripKeepsPrefix(has: HasOption, lines: seq<string>, i: nat)
    requires i < |lines| && forall section :: !has(section, "")
    ensures PREFIX <= lines[i] <==> PREFIX <= Stripped(has, lines)[i]
  {
    var line := lines[i];
    if PREFIX <= line {
      assert BeforeComment(line) == "";
    } else if PREFIX <= "#" + line {
      assert ("#" + line)[1] == line[0] && ("#" + line)[2] == line[1];
      StarComment(line);
    }
  }

  lemma StarComment(line: string)
    requires |line| >= 2 && line[0] == '*' && line[1] == '#'
    ensures KindOf(line) == Field("")
  {
    assert BeforeComment(line[1..]) == "";
    assert BeforeComment(line) == ['*'] + "";
    assert Pruned(line) == "*";
    assert LeadingWord("*") == "";
  }

  /** The whole round trip for user text free of the marker. */
  lemma SaveOverReadsBack(has: HasOption, regular: string, settings: string)
    requires !Contains(regular, MARKER) && forall section :: !has(section, "")
    ensures FindAutosaveData(SaveOver(has, regular, settings))
         == (Kept(StripDuplicates(has, regular)), Settled(settings))
  {
    hide Contains, TrimRight, StripDuplicates, FindAutosaveData, Save;
    var s := StripDuplicates(has, regular);
    StripMakesNoMarker(has, regular);
    if Contains(TrimRight(s), MARKER) { ContainsInPrefix(TrimRight(s), s); }
    SaveReadsBackIff(s, settings);
  }

  lemma ContainsInPrefix(t: string, s: string)
    requires t <= s && Contains(t, MARKER)
    ensures Contains(s, MARKER)
  {
    var p := FindFrom(t, MARKER, 0).value;
    assert s[p..p + 5] == t[p..p + 5];
    assert Occurs(s, MARKER, p);
  }

  // ---------- Saving the same settings again ----------

  /** Saving the same settings again writes the identical file. */
  lemma SaveTwice(has: HasOption, regular: string, settings: string)
    requires !Contains(TrimRight(StripDuplicates(has, regular)), MARKER)
    ensures var file := SaveOver(has, regular, settings);
            SaveOver(has, FindAutosaveData(file).0, settings) == file
  {
    hide StripDuplicates, TrimRight, FindAutosaveData, Contains, Block;
    var s := StripDuplicates(has, regular);
    SaveReadsBackIff(s, settings);
    KeptIsStripped(has, regular);
    TrimKept(s);
  }

  lemma TrimKept(s: string)
    ensures TrimRight(Kept(s)) == TrimRight(s)
  {
    TrimRightIgnoresBlanks(TrimRight(s), "\n");
  }

  /** What is read as the user's text is free of the marker, or the whole file. */
  lemma RegularOrAll(data: string)
    ensures !Contains(FindAutosaveData(data).0, MARKER) || FindAutosaveData(data).0 == data
  {
    hide Header, Trim, Contains, Tampered, AllUnprefixed, Join, Lines;
  }

  lemma SameUserText(a: string, b: string, settings: string)
    requires Save(a, settings) == Save(b, settings)
    ensures TrimRight(a) == TrimRight(b)
  {
    hide TrimRight, Block;
    var x, y, block := TrimRight(a), TrimRight(b), Block(settings);
    assert |x| == |y|;
    assert (x + block)[..|x|] == x && (y + block)[..|y|] == y;
  }

  /** The number of characters that are not blank. */
  function Ink(s: string): nat {
    if s == "" then 0 else (if IsSpace(s[0]) then 0 else 1) + Ink(s[1..])
  }

  lemma {:induction false} InkConcat(a: string, b: string)
    ensures Ink(a + b) == Ink(a) + Ink(b)
    decreases |a|
  {
    hide IsSpace;
    if a == "" {
      assert a + b == b;
    } else {
      assert (a + b)[1..] == a[1..] + b;
      InkConcat(a[1..], b);
    }
  }

  lemma {:induction false} InkOfTrimmed(s: string)
    ensures Ink(TrimRight(s)) == Ink(s)
    decreases |s|
  {
    hide IsSpace;
    if s != "" && IsSpace(s[|s| - 1]) {
      var shorter, last := s[..|s| - 1], s[|s| - 1..];
      InkOfTrimmed(shorter);
      assert s == shorter + last;
      InkConcat(shorter, last);
      assert last[1..] == "";
    }
  }

  lemma {:induction false} JoinedInk(a: seq<string>, b: seq<string>)
    requires |a| == |b| && forall i :: 0 <= i < |a| ==> Ink(a[i]) <= Ink(b[i])
    ensures Ink(Join(a)) <= Ink(Join(b))
  {
    hide Ink;
    if |a| > 1 {
      JoinedInk(a[1..], b[1..]);
      JoinInk(a);
      JoinInk(b);
    }
  }

  lemma JoinInk(lines: seq<string>)
    requires |lines| > 1
    ensures Ink(Join(lines)) == Ink(lines[0]) + Ink("\n") + Ink(Join(lines[1..]))
  {
    hide Ink;
    InkConcat(lines[0] + "\n", Join(lines[1..]));
    InkConcat(lines[0], "\n");
  }

  /** Stripping adds characters and takes none away. */
  lemma StrippedInk(has: HasOption, data: string)
    ensures Ink(data) <= Ink(StripDuplicates(has, data))
  {
    hide Overridden, Lines, Join, Ink;
    var lines := Lines(data);
    forall i | 0 <= i < |lines| ensures Ink(lines[i]) <= Ink(Stripped(has, lines)[i]) {
      InkConcat("#", lines[i]);
    }
    JoinedInk(lines, Stripped(has, lines));
    JoinLines(data);
  }

  lemma {:induction false} InkAt(s: string, i: nat)
    requires i < |s| && !IsSpace(s[i])
    ensures Ink(s) > 0
    decreases i
  {
    hide IsSpace;
    if i > 0 { InkAt(s[1..], i - 1); }
  }

  lemma BlockHasInk(settings: string)
    ensures Ink(Block(settings)) > 0
  {
    hide Header, TrimRight, Prefixed, Lines, Join, Ink;
    HeaderShape();
    var title := TrimRight(Header());
    var rest := AllPrefixed(Lines(settings)) + [""];
    assert ["\n" + title] + AllPrefixed(Lines(settings)) + [""] == ["\n" + title] + rest;
    assert (["\n" + title] + rest)[1..] == rest;
    JoinInk(["\n" + title] + rest);
    assert title[1] == Header()[1] == MARKER[1] by { assert Header()[..|MARKER|][1] == Header()[1]; }
    InkAt("\n" + title, 2);
  }

  /** A file is not what is saved with all of it as the user's text. */
  lemma WholeFileGrows(has: HasOption, r: string, settings: string)
    ensures TrimRight(StripDuplicates(has, Save(r, settings))) != TrimRight(r)
  {
    hide StripDuplicates, TrimRight, Block, Ink;
    var file := Save(r, settings);
    InkConcat(TrimRight(r), Block(settings));
    InkOfTrimmed(r);
    BlockHasInk(settings);
    StrippedInk(has, file);
    InkOfTrimmed(StripDuplicates(has, file));
  }

  /** Saving the same settings again writes the identical file exactly when the
      user's text, stripped, is free of the marker. */
  lemma SaveTwiceIff(has: HasOption, regular: string, settings: string)
    requires forall section :: !has(section, "")
    ensures var file := SaveOver(has, regular, settings);
            (SaveOver(has, FindAutosaveData(file).0, settings) == file
             <==> !Contains(TrimRight(StripDuplicates(has, regular)), MARKER))
  {
    hide StripDuplicates, TrimRight, FindAutosaveData, Contains, Save;
    var s := StripDuplicates(has, regular);
    var file := SaveOver(has, regular, settings);
    var again := FindAutosaveData(file).0;
    if !Contains(TrimRight(s), MARKER) {
      SaveTwice(has, regular, settings);
    } else if SaveOver(has, again, settings) == file {
      SameUserText(StripDuplicates(has, again), s, settings);
      RegularOrAll(file);
      WholeFileGrows(has, s, settings);
      StripMakesNoMarker(has, again);
      ContainsInPrefix(TrimRight(StripDuplicates(has, again)), StripDuplicates(has, again));
      assert false;
    }
  }
}
