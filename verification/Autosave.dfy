/** The SAVE_CONFIG block of configfile.py: writing it, finding it again, and
    commenting out the options it overrides. */
module Autosave {
  import opened Bytes
  import opened Text

  const MARKER := "\n#*# "
  const PREFIX := "#*# "

  /** AUTOSAVE_HEADER */
  function Header(): string {
    MARKER + "<---------------------- SAVE_CONFIG ---------------------->" +
    MARKER + "DO NOT EDIT THIS BLOCK OR BELOW. The contents are auto-generated." +
    "\n#*#" + "\n"
  }

  // ---------- Searching ----------

  predicate Occurs(data: string, pattern: string, p: nat) {
    p + |pattern| <= |data| && data[p..p + |pattern|] == pattern
  }

  /** str.find from position p on. */
  function FindFrom(data: string, pattern: string, p: nat): (r: Option<nat>)
    ensures r.Some? ==> r.value >= p && Occurs(data, pattern, r.value)
    ensures r.Some? ==> forall q :: p <= q < r.value ==> !Occurs(data, pattern, q)
    ensures r.None? ==> forall q :: p <= q ==> !Occurs(data, pattern, q)
    decreases |data| - p
  {
    if p + |pattern| > |data| then None
    else if Occurs(data, pattern, p) then Some(p)
    else FindFrom(data, pattern, p + 1)
  }

  predicate Contains(data: string, pattern: string) {
    FindFrom(data, pattern, 0).Some?
  }

  // ---------- Reading ----------

  predicate ForeignLine(line: string) {
    !("#*#" <= line) || (|line| >= 4 && !(PREFIX <= line))
  }

  /** line[4:] */
  function Unprefixed(line: string): string {
    if |line| <= 4 then "" else line[4..]
  }

  function AllUnprefixed(lines: seq<string>): (r: seq<string>)
    ensures |r| == |lines| && forall i :: 0 <= i < |r| ==> r[i] == Unprefixed(lines[i])
  {
    seq(|lines|, i requires 0 <= i < |lines| => Unprefixed(lines[i]))
  }

  predicate Tampered(saved: string) {
    saved != "" && exists i :: 0 <= i < |Lines(saved)| && ForeignLine(Lines(saved)[i])
  }

  /** _find_autosave_data: the user's text and the saved text; a file whose
      block was tampered with is all the user's. */
  function FindAutosaveData(data: string): (string, string) {
    var pos := FindFrom(data, Header(), 0);
    var regular := if pos.Some? then data[..pos.value] else data;
    var saved := if pos.Some? then Trim(data[pos.value + |Header()|..]) else "";
    if Contains(regular, MARKER) then (data, "")
    else if Tampered(saved) then (data, "")
    else (regular, Join([""] + AllUnprefixed(Lines(saved)) + [""]))
  }

  method ReadAutosave(data: string) returns (regular: string, autosave: string)
    ensures (regular, autosave) == FindAutosaveData(data)
  {
    hide Header, Trim, ForeignLine, Contains, Unprefixed, Lines, Join;
    regular := data;
    var saved := "";
    var pos := FindFrom(data, Header(), 0);
    if pos.Some? {
      regular := data[..pos.value];
      saved := Trim(data[pos.value + |Header()|..]);
    }
    if Contains(regular, MARKER) { return data, ""; }
    var lines := Lines(saved);
    var out := [""];
    for i := 0 to |lines|
      invariant saved != "" ==> forall j :: 0 <= j < i ==> !ForeignLine(lines[j])
      invariant out == [""] + AllUnprefixed(lines[..i])
    {
      if ForeignLine(lines[i]) && saved != "" {
        assert Tampered(saved);
        return data, "";
      }
      UnprefixedAppend(lines, i);
      assert [""] + (AllUnprefixed(lines[..i]) + [Unprefixed(lines[i])]) == ([""] + AllUnprefixed(lines[..i])) + [Unprefixed(lines[i])];
      out := out + [Unprefixed(lines[i])];
    }
    assert lines[..|lines|] == lines;
    out := out + [""];
    return regular, Join(out);
  }

  lemma UnprefixedAppend(lines: seq<string>, i: nat)
    requires i < |lines|
    ensures AllUnprefixed(lines[..i + 1]) == AllUnprefixed(lines[..i]) + [Unprefixed(lines[i])]
  {
    hide Unprefixed;
  }

  // ---------- Writing ----------

  function Prefixed(line: string): string { Trim(PREFIX + line) }

  function AllPrefixed(lines: seq<string>): (r: seq<string>)
    ensures |r| == |lines| && forall i :: 0 <= i < |r| ==> r[i] == Prefixed(lines[i])
  {
    seq(|lines|, i requires 0 <= i < |lines| => Prefixed(lines[i]))
  }

  /** The block SAVE_CONFIG appends for the saved settings. */
  function Block(settings: string): string {
    Join(["\n" + TrimRight(Header())] + AllPrefixed(Lines(settings)) + [""])
  }

  /** The file SAVE_CONFIG writes. */
  function Save(regular: string, settings: string): string {
    TrimRight(regular) + Block(settings)
  }

  method WriteAutosave(regular: string, settings: string) returns (data: string)
    ensures data == Save(regular, settings)
  {
    hide Header, Trim, TrimRight;
    var source := Lines(settings);
    var lines: seq<string> := [];
    for i := 0 to |source|
      invariant lines == AllPrefixed(source[..i])
    {
      assert AllPrefixed(source[..i + 1]) == AllPrefixed(source[..i]) + [Prefixed(source[i])];
      lines := lines + [Trim(PREFIX + source[i])];
    }
    assert source[..|source|] == source;
    lines := ["\n" + TrimRight(Header())] + lines;
    lines := lines + [""];
    return TrimRight(regular) + Join(lines);
  }

  // ---------- Reading back what was written ----------

  lemma HeaderShape()
    ensures |Header()| > |MARKER| && Header()[..|MARKER|] == MARKER
    ensures Header() == TrimRight(Header()) + "\n"
  {
    var body := MARKER + "<---------------------- SAVE_CONFIG ---------------------->" +
                MARKER + "DO NOT EDIT THIS BLOCK OR BELOW. The contents are auto-generated." + "\n#*#";
    assert body[|body| - 1] == '#';
    TrimRightAdds(body, "\n");
    assert TrimRight("\n") == "" by { assert "\n"[..0] == ""; }
    assert body + "" == body;
  }

  /** A prefixed line is the prefix and the line without trailing blanks, and a
      blank one is the bare prefix. */
  lemma PrefixedShape(line: string)
    ensures Prefixed(line) == "#*#" + (if TrimRight(line) == "" then "" else " " + TrimRight(line))
  {
    var s := PREFIX + line;
    assert TrimLeft(s) == s;
    assert s == "#*#" + (" " + line);
    TrimRightAdds("#*#", " " + line);
    TrimRightAfterBlank(line);
  }

  lemma {:induction false} TrimRightAfterBlank(line: string)
    ensures TrimRight(" " + line) == if TrimRight(line) == "" then "" else " " + TrimRight(line)
    decreases |line|
  {
    if line == "" {
      assert (" " + line)[..0] == "";
    } else if IsSpace(line[|line| - 1]) {
      assert (" " + line)[..|" " + line| - 1] == " " + line[..|line| - 1];
      TrimRightAfterBlank(line[..|line| - 1]);
    }
  }

  lemma PrefixedReadsBack(line: string)
    ensures !ForeignLine(Prefixed(line)) && Unprefixed(Prefixed(line)) == TrimRight(line)
    ensures Prefixed(line) != "" && !IsSpace(Prefixed(line)[|Prefixed(line)| - 1]) && !IsSpace(Prefixed(line)[0])
    ensures '\n' !in line ==> '\n' !in Prefixed(line)
  {
    PrefixedShape(line);
    hide TrimRight, Prefixed;
    var t := TrimRight(line);
    if t != "" {
      assert "#*#" + (" " + t) == PREFIX + t;
      WithPrefix(t);
      assert forall i :: 0 <= i < |t| ==> t[i] == line[i];
    } else {
      assert "#*#" + "" == "#*#";
    }
  }

  lemma WithPrefix(t: string)
    requires t != ""
    ensures !ForeignLine(PREFIX + t) && Unprefixed(PREFIX + t) == t
    ensures (PREFIX + t)[|PREFIX + t| - 1] == t[|t| - 1] && (PREFIX + t)[0] == '#'
    ensures '\n' !in t ==> '\n' !in PREFIX + t
  {
  }

  lemma {:induction false} JoinAppend(lines: seq<string>)
    requires lines != []
    ensures Join(lines + [""]) == Join(lines) + "\n"
  {
    if |lines| == 1 {
      assert (lines + [""])[1..] == [""];
      assert lines[0] + "\n" + "" == lines[0] + "\n";
    } else {
      assert (lines + [""])[1..] == lines[1..] + [""];
      JoinAppend(lines[1..]);
      assert lines[0] + "\n" + (Join(lines[1..]) + "\n") == (lines[0] + "\n" + Join(lines[1..])) + "\n";
    }
  }

  lemma {:induction false} JoinEnds(lines: seq<string>)
    requires lines != [] && forall i :: 0 <= i < |lines| ==> lines[i] != "" && !IsSpace(lines[i][0]) && !IsSpace(lines[i][|lines[i]| - 1])
    ensures Join(lines) != "" && !IsSpace(Join(lines)[0]) && !IsSpace(Join(lines)[|Join(lines)| - 1])
  {
    if |lines| > 1 { JoinEnds(lines[1..]); }
  }

  /** The body below the header reads back as the lines that went in. */
  lemma BodyReadsBack(settings: string)
    ensures var lines := AllPrefixed(Lines(settings));
            && Trim(Join(lines + [""])) == Join(lines) != ""
            && Lines(Join(lines)) == lines
            && (forall i :: 0 <= i < |lines| ==> !ForeignLine(lines[i]) && Unprefixed(lines[i]) == TrimRight(Lines(settings)[i]))
  {
    hide Prefixed, ForeignLine, Unprefixed, TrimRight, IsSpace, Join, Lines;
    var source := Lines(settings);
    var lines := AllPrefixed(source);
    forall i | 0 <= i < |lines|
      ensures !ForeignLine(lines[i]) && Unprefixed(lines[i]) == TrimRight(source[i])
      ensures lines[i] != "" && !IsSpace(lines[i][0]) && !IsSpace(lines[i][|lines[i]| - 1]) && '\n' !in lines[i]
    {
      PrefixedReadsBack(source[i]);
    }
    JoinAppend(lines);
    JoinEnds(lines);
    TrimNewline(Join(lines));
    LinesJoin(lines);
  }

  lemma TrimNewline(s: string)
    requires s != "" && !IsSpace(s[0]) && !IsSpace(s[|s| - 1])
    ensures Trim(s + "\n") == s && TrimRight(s + "\n") == s
  {
    assert TrimLeft(s + "\n") == s + "\n";
    TrimRightAdds(s, "\n");
    assert TrimRight("\n") == "" by { assert "\n"[..0] == ""; }
    assert s + "" == s;
  }

  /** The file, seen as user text, newline, header, body. */
  lemma SaveShape(regular: string, settings: string)
    ensures Save(regular, settings)
         == (TrimRight(regular) + "\n") + Header() + Join(AllPrefixed(Lines(settings)) + [""])
  {
    hide Header, TrimRight, Prefixed, Lines;
    HeaderShape();
    var head, rest := "\n" + TrimRight(Header()), AllPrefixed(Lines(settings)) + [""];
    assert [head] + AllPrefixed(Lines(settings)) + [""] == [head] + rest;
    assert ([head] + rest)[1..] == rest;
    JoinedParts(TrimRight(regular), TrimRight(Header()), Join(rest));
  }

  lemma JoinedParts(user: string, header: string, body: string)
    ensures user + (("\n" + header) + "\n" + body) == (user + "\n") + (header + "\n") + body
  {
  }

  /** In trimmed text r free of the marker, followed by an empty line, the marker
      cannot begin before the end of that line. */
  lemma NoEarlierMarker(r: string, rest: string, p: nat)
    requires !Contains(r, MARKER) && (r != "" ==> !IsSpace(r[|r| - 1]))
    requires rest != "" && rest[0] == '\n' && p <= |r|
    ensures !Occurs(r + "\n" + rest, MARKER, p)
  {
    var t := r + "\n" + rest;
    if p + 5 <= |r| {
      assert t[p..p + 5] == r[p..p + 5];
      assert !Occurs(r, MARKER, p);
    } else if p == |r| {
      MarkerDiffers(t, p, 1);
    } else if p == |r| - 1 {
      assert t[p] == r[p];
      MarkerDiffers(t, p, 0);
    } else {
      assert t[|r|] == '\n';
      MarkerDiffers(t, p, |r| - p);
    }
  }

  lemma MarkerDiffers(t: string, p: nat, k: nat)
    requires k < 5 && p + k < |t| && t[p + k] != MARKER[k]
    ensures !Occurs(t, MARKER, p)
  {
    if p + 5 <= |t| { assert t[p..p + 5][k] == t[p + k]; }
  }

  lemma HeaderStartsWithMarker(t: string, p: nat)
    requires Occurs(t, Header(), p)
    ensures Occurs(t, MARKER, p)
  {
    HeaderShape();
    hide Header;
    assert t[p..p + |Header()|][..5] == t[p..p + 5];
  }

  lemma FoundAt(t: string, pattern: string, p: nat)
    requires Occurs(t, pattern, p) && forall q :: 0 <= q < p ==> !Occurs(t, pattern, q)
    ensures FindFrom(t, pattern, 0) == Some(p)
  {
    var r := FindFrom(t, pattern, 0);
    assert r.Some?;
  }

  /** Adding a newline to trimmed text does not make a marker. */
  lemma NewlineMakesNoMarker(r: string)
    ensures Contains(r + "\n", MARKER) <==> Contains(r, MARKER)
  {
    var t := r + "\n";
    forall p: nat ensures Occurs(t, MARKER, p) <==> Occurs(r, MARKER, p) {
      if p + 5 == |t| {
        MarkerDiffers(t, p, 4);
      } else if p + 5 <= |r| {
        assert t[p..p + 5] == r[p..p + 5];
      }
    }
  }

  /** The user's text as SAVE_CONFIG leaves it. */
  function Kept(regular: string): string { TrimRight(regular) + "\n" }

  /** Every saved line without trailing blanks, between two newlines. */
  function Settled(settings: string): string {
    Join([""] + TrimmedLines(Lines(settings)) + [""])
  }

  function TrimmedLines(lines: seq<string>): (r: seq<string>)
    ensures |r| == |lines| && forall i :: 0 <= i < |r| ==> r[i] == TrimRight(lines[i])
  {
    seq(|lines|, i requires 0 <= i < |lines| => TrimRight(lines[i]))
  }

  /** Reading back what SAVE_CONFIG writes recovers the right-trimmed user text
      plus one newline and every saved line without trailing blanks, exactly when
      the marker does not occur in the user text. */
  lemma SaveReadsBackIff(regular: string, settings: string)
    ensures FindAutosaveData(Save(regular, settings)) == (Kept(regular), Settled(settings))
       <==> !Contains(TrimRight(regular), MARKER)
  {
    hide Header, TrimRight, Trim, Join, Contains;
    SaveShape(regular, settings);
    HeaderShape();
    NewlineMakesNoMarker(TrimRight(regular));
    if !Contains(TrimRight(regular), MARKER) {
      SaveReadsBack(regular, settings);
    } else {
      assert |Save(regular, settings)| > |Kept(regular)|;
    }
  }

  lemma HeaderFoundWhereWritten(r: string, rest: string)
    requires !Contains(r, MARKER) && (r != "" ==> !IsSpace(r[|r| - 1]))
    ensures FindFrom((r + "\n") + Header() + rest, Header(), 0) == Some(|r| + 1)
  {
    HeaderShape();
    hide Header, Contains, Occurs, IsSpace;
    var h := Header();
    var t := (r + "\n") + h + rest;
    OccursBetween(r + "\n", h, rest);
    assert h[0] == h[..|MARKER|][0] == '\n';
    LineBreakBetween(r, h, rest);
    forall q | 0 <= q < |r| + 1 ensures !Occurs(t, h, q) {
      NoEarlierMarker(r, h + rest, q);
      if Occurs(t, h, q) { HeaderStartsWithMarker(t, q); }
    }
    FoundAt(t, h, |r| + 1);
  }

  lemma OccursBetween(before: string, pattern: string, behind: string)
    ensures Occurs(before + pattern + behind, pattern, |before|)
  {
  }

  lemma LineBreakBetween(r: string, h: string, rest: string)
    requires h != ""
    ensures (r + "\n") + h + rest == r + "\n" + (h + rest) && (h + rest)[0] == h[0]
  {
  }

  lemma SaveReadsBack(regular: string, settings: string)
    requires !Contains(TrimRight(regular), MARKER)
    ensures FindAutosaveData(Save(regular, settings)) == (Kept(regular), Settled(settings))
  {
    hide Header, TrimRight, Trim, Join, Contains, ForeignLine, Prefixed, Unprefixed, Save;
    var r, lines := TrimRight(regular), AllPrefixed(Lines(settings));
    var body := Join(lines + [""]);
    var t := (r + "\n") + Header() + body;
    SaveShape(regular, settings);
    HeaderFoundWhereWritten(r, body);
    assert t[..|r| + 1] == r + "\n" && t[|r| + 1 + |Header()|..] == body;
    NewlineMakesNoMarker(r);
    BodyReadsBack(settings);
    assert !Tampered(Join(lines));
    assert AllUnprefixed(lines) == TrimmedLines(Lines(settings));
  }

  // ---------- Files that are read ----------

  /** A file without the marker is all the user's, and nothing was saved. */
  lemma PlainFile(data: string)
    requires !Contains(data, MARKER)
    ensures FindAutosaveData(data) == (data, "\n\n")
  {
    hide Contains, Header;
    if FindFrom(data, Header(), 0).Some? {
      HeaderStartsWithMarker(data, FindFrom(data, Header(), 0).value);
      ContainsMarker(data, FindFrom(data, Header(), 0).value);
      assert false;
    }
    NothingSaved();
  }

  lemma ContainsMarker(data: string, p: nat)
    requires Occurs(data, MARKER, p)
    ensures Contains(data, MARKER)
  {
  }

  lemma NothingSaved()
    ensures Lines("") == [""] && Join([""] + AllUnprefixed(Lines("")) + [""]) == "\n\n"
  {
    assert AllUnprefixed([""]) == [""];
    assert [""] + [""] + [""] == ["", "", ""];
    assert ["", "", ""][1..] == ["", ""] && ["", ""][1..] == [""];
    assert Join(["", ""]) == "\n";
    assert "" + "\n" + "\n" == "\n\n";
  }

  /** A line of the saved block that someone has changed: it does not start with
      the three characters of the prefix, or goes on without the blank. */
  predicate Edited(line: string) {
    |line| < 3 || line[0] != '#' || line[1] != '*' || line[2] != '#' || (|line| > 3 && line[3] != ' ')
  }

  lemma EditedIsForeign(line: string)
    ensures ForeignLine(line) <==> Edited(line)
  {
    if |line| >= 3 { assert line[..3] == "#*#" <==> line[0] == '#' && line[1] == '*' && line[2] == '#'; }
    if |line| >= 4 { assert line[..4] == "#*# " <==> line[0] == '#' && line[1] == '*' && line[2] == '#' && line[3] == ' '; }
  }

  /** What stands above the header: nothing, or text ended by a line break, free of
      the marker and without blanks before that break. */
  predicate Above(text: string) {
    text == "" || (text[|text| - 1] == '\n' && !Contains(text, MARKER) && (|text| > 1 ==> !IsSpace(text[|text| - 2])))
  }

  lemma HeaderFound(above: string, body: string)
    requires Above(above)
    ensures FindFrom(above + Header() + body, Header(), 0) == Some(|above|) && !Contains(above, MARKER)
  {
    hide Header, Contains, IsSpace;
    if above == "" {
      OccursBetween("", Header(), body);
      FoundAt(above + Header() + body, Header(), 0);
      ShortHasNoMarker(above);
    } else {
      var user := above[..|above| - 1];
      assert user + "\n" == above;
      NewlineMakesNoMarker(user);
      HeaderFoundWhereWritten(user, body);
    }
  }

  lemma ShortHasNoMarker(s: string)
    requires |s| < 5
    ensures !Contains(s, MARKER)
  {
  }

  /** A file with a block below the header is all the user's exactly if a line of
      the block, blanks around the whole left out, was edited; otherwise what is
      above the header is the user's, and what was saved are the lines of the
      block without their prefixes. */
  lemma BlockIsRead(above: string, body: string)
    requires Above(above)
    ensures var data, block := above + Header() + body, Trim(body);
            if block != "" && exists i :: 0 <= i < |Lines(block)| && Edited(Lines(block)[i])
            then FindAutosaveData(data) == (data, "")
            else
              && FindAutosaveData(data).0 == above
              && Lines(FindAutosaveData(data).1) == [""] + AllUnprefixed(Lines(block)) + [""]
  {
    hide Header, Contains, Trim, ForeignLine, Unprefixed, Lines, Edited, IsSpace, Above;
    var data, block := above + Header() + body, Trim(body);
    HeaderFound(above, body);
    BlockParts(above, Header(), body);
    forall i | 0 <= i < |Lines(block)| ensures ForeignLine(Lines(block)[i]) <==> Edited(Lines(block)[i]) {
      EditedIsForeign(Lines(block)[i]);
    }
    assert Tampered(block) <==> block != "" && exists i :: 0 <= i < |Lines(block)| && Edited(Lines(block)[i]);
    if !Tampered(block) { UnprefixedRead(block); }
  }

  lemma BlockParts(above: string, header: string, body: string)
    ensures var data := above + header + body;
            data[..|above|] == above && data[|above| + |header|..] == body
  {
  }

  lemma UnprefixedRead(block: string)
    ensures var out := [""] + AllUnprefixed(Lines(block)) + [""]; Lines(Join(out)) == out
  {
    hide Lines, Join;
    var out := [""] + AllUnprefixed(Lines(block)) + [""];
    forall i | 0 <= i < |out| ensures '\n' !in out[i] {
      if 0 < i < |out| - 1 { assert out[i] == Unprefixed(Lines(block)[i - 1]); }
    }
    LinesJoin(out);
  }
}
