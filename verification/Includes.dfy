/** Recursive includes of configfile.py (_parse_config, _resolve_include). A
    file is its lines with comments stripped; an include line is represented by
    the sorted files its pattern matches, named by absolute path. */
module Includes {
  import opened Bytes

  type Path = string

  datatype Item = Line(text: string) | Include(refs: seq<Path>, wildcard: bool)

  type Files = map<Path, seq<Item>>

  datatype Error = Recursive | Missing

  /** Lines handed to the configuration parser in one call, with their file. */
  datatype Unit = Unit(file: Path, lines: seq<string>)

  type Expansion = Result<seq<Unit>, Error>

  /** Buffered lines are parsed as a unit, if there are any. */
  function Flushed(file: Path, buffer: seq<string>): seq<Unit> {
    if buffer == [] then [] else [Unit(file, buffer)]
  }

  /** All lines of some units. */
  function TextOf(units: seq<Unit>): seq<string> {
    if units == [] then [] else units[0].lines + TextOf(units[1..])
  }

  function Then(r: Expansion, next: Expansion): Expansion {
    match r
    case Err(e) => Err(e)
    case Ok(units) => After(units, next)
  }

  lemma Shrinks(files: Files, visited: set<Path>, path: Path)
    requires path in files && path !in visited
    ensures |files.Keys - (visited + {path})| == |files.Keys - visited| - 1
  {
    assert files.Keys - (visited + {path}) == (files.Keys - visited) - {path};
  }

  /** The units a file contributes, in order, while the files of `visited` are open. */
  function Expand(files: Files, path: Path, visited: set<Path>): Expansion
    decreases |files.Keys - visited|, 0, 0
  {
    if path !in files then Err(Missing)
    else if path in visited then Err(Recursive)
    else
      Shrinks(files, visited, path);
      ExpandItems(files, path, files[path], [], visited + {path})
  }

  /** The same for the rest of a file, with lines already buffered. */
  function ExpandItems(files: Files, path: Path, items: seq<Item>, buffer: seq<string>, visited: set<Path>): Expansion
    decreases |files.Keys - visited|, 2, |items|
  {
    if items == [] then Ok(Flushed(path, buffer))
    else
      match items[0]
      case Line(text) => ExpandItems(files, path, items[1..], buffer + [text], visited)
      case Include(refs, wildcard) =>
        if refs == [] && !wildcard then Err(Missing)
        else
          var first := ExpandRefs(files, refs, visited);
          if first.Err? then first
          else After(Flushed(path, buffer), Then(first, ExpandItems(files, path, items[1..], [], visited)))
  }

  function ExpandRefs(files: Files, refs: seq<Path>, visited: set<Path>): Expansion
    decreases |files.Keys - visited|, 1, |refs|
  {
    if refs == [] then Ok([])
    else
      var first := Expand(files, refs[0], visited);
      if first.Err? then first else Then(first, ExpandRefs(files, refs[1..], visited))
  }

  class ConfigReader {
    const files: Files
    var visited: set<Path>
    /** Everything handed to the configuration parser, in order. */
    var fed: seq<Unit>

    constructor (files: Files)
      ensures this.files == files && visited == {} && fed == []
    {
      this.files, visited, fed := files, {}, [];
    }

    /** _parse_config_buffer */
    method ParseBuffer(buffer: seq<string>, path: Path) returns (emptied: seq<string>)
      modifies this`fed
      ensures emptied == [] && fed == old(fed) + Flushed(path, buffer)
    {
      emptied := [];
      if buffer == [] { return; }
      fed := fed + [Unit(path, buffer)];
    }

    /** Reading a file and _parse_config on it. */
    method ParseConfig(path: Path) returns (r: Option<Error>)
      modifies this
      ensures Expand(files, path, old(visited)).Err? <==> r.Some?
      ensures r.Some? ==> Expand(files, path, old(visited)) == Err(r.value)
      ensures r == None ==> visited == old(visited) && fed == old(fed) + Expand(files, path, old(visited)).value
      decreases |files.Keys - visited|, 0, 0
    {
      if path !in files { return Some(Missing); }
      if path in visited { return Some(Recursive); }
      hide After, Flushed;
      ghost var before := fed;
      Shrinks(files, visited, path);
      visited := visited + {path};
      var items := files[path];
      var buffer: seq<string> := [];
      ghost var done: seq<Unit> := [];
      AfterNothing(ExpandItems(files, path, items, [], visited));
      for i := 0 to |items|
        invariant visited == old(visited) + {path}
        invariant fed == before + done
        invariant ExpandItems(files, path, items, [], visited)
               == After(done, ExpandItems(files, path, items[i..], buffer, visited))
      {
        assert items[i..][0] == items[i] && items[i..][1..] == items[i + 1..];
        match items[i]
        case Line(text) =>
          buffer := buffer + [text];
        case Include(refs, wildcard) =>
          ghost var flushed := Flushed(path, buffer);
          buffer := ParseBuffer(buffer, path);
          if refs == [] && !wildcard {
            ErrorAfter(done, Missing);
            return Some(Missing);
          }
          ghost var included := ExpandRefs(files, refs, visited);
          r := ResolveInclude(refs);
          if r.Some? {
            ErrorAfter(done, r.value);
            return;
          }
          AfterTwice(done, flushed, included.value, ExpandItems(files, path, items[i + 1..], [], visited));
          Appended(before, done, flushed, included.value);
          done := done + (flushed + included.value);
      }
      AfterLast(done, Flushed(path, buffer));
      ghost var last := Flushed(path, buffer);
      buffer := ParseBuffer(buffer, path);
      Appended(before, done, last, []);
      assert last + [] == last;
      visited := visited - {path};
      return None;
    }

    method ResolveInclude(refs: seq<Path>) returns (r: Option<Error>)
      modifies this
      ensures ExpandRefs(files, refs, old(visited)).Err? <==> r.Some?
      ensures r.Some? ==> ExpandRefs(files, refs, old(visited)) == Err(r.value)
      ensures r == None ==> visited == old(visited) && fed == old(fed) + ExpandRefs(files, refs, old(visited)).value
      decreases |files.Keys - visited|, 1, 0
    {
      ghost var done: seq<Unit> := [];
      AfterNothing(ExpandRefs(files, refs, visited));
      for i := 0 to |refs|
        invariant visited == old(visited) && fed == old(fed) + done
        invariant ExpandRefs(files, refs, visited) == After(done, ExpandRefs(files, refs[i..], visited))
      {
        assert refs[i..][0] == refs[i] && refs[i..][1..] == refs[i + 1..];
        ghost var one := Expand(files, refs[i], visited);
        r := ParseConfig(refs[i]);
        if r.Some? { return; }
        AfterAfter(done, one.value, ExpandRefs(files, refs[i + 1..], visited));
        done := done + one.value;
      }
      assert done + [] == done;
      return None;
    }
  }

  lemma ErrorAfter(done: seq<Unit>, e: Error)
    ensures After(done, Expansion.Err(e)) == Err(e)
  {
  }

  lemma AfterLast(done: seq<Unit>, last: seq<Unit>)
    ensures After(done, Expansion.Ok(last)) == Ok(done + last)
  {
  }

  lemma AfterTwice(a: seq<Unit>, b: seq<Unit>, c: seq<Unit>, r: Expansion)
    ensures After(a, After(b, After(c, r))) == After(a + (b + c), r)
  {
    hide After;
    AfterAfter(b, c, r);
    AfterAfter(a, b + c, r);
  }

  lemma Appended(before: seq<Unit>, a: seq<Unit>, b: seq<Unit>, c: seq<Unit>)
    ensures ((before + a) + b) + c == before + (a + (b + c))
  {
  }

  // ---------- When it fails ----------

  /** File p has an include line that matches file q. */
  predicate Includes(files: Files, p: Path, q: Path) {
    p in files && exists i :: 0 <= i < |files[p]| && files[p][i].Include? && q in files[p][i].refs
  }

  /** A file that is not there, or one with an include line that names no file. */
  predicate Broken(files: Files, p: Path) {
    p !in files || exists i :: 0 <= i < |files[p]| && files[p][i].Include? && files[p][i].refs == [] && !files[p][i].wildcard
  }

  predicate Chain(files: Files, c: seq<Path>) {
    c != [] && forall i :: 0 <= i < |c| - 1 ==> Includes(files, c[i], c[i + 1])
  }

  /** A chain of includes that comes back to a file, or ends in a broken one. */
  predicate Fatal(files: Files, c: seq<Path>) {
    c != [] && (Broken(files, c[|c| - 1]) || exists i, j :: 0 <= i < j < |c| && c[i] == c[j])
  }

  /** How a chain shows which error was raised: a file that comes back, or a broken one. */
  predicate Shows(files: Files, c: seq<Path>, visited: set<Path>, e: Error) {
    c != [] && match e
      case Missing => Broken(files, c[|c| - 1])
      case Recursive => c[|c| - 1] in visited || exists i :: 0 <= i < |c| - 1 && c[i] == c[|c| - 1]
  }

  lemma ExtendShows(files: Files, p: Path, c: seq<Path>, visited: set<Path>, e: Error)
    requires Shows(files, c, visited + {p}, e)
    ensures Shows(files, [p] + c, visited, e)
  {
    hide Broken;
    var d := [p] + c;
    assert d[|d| - 1] == c[|c| - 1];
    if e == Recursive {
      if i :| 0 <= i < |c| - 1 && c[i] == c[|c| - 1] {
        assert d[i + 1] == d[|d| - 1];
      } else if c[|c| - 1] == p {
        assert d[0] == d[|d| - 1];
      }
    }
  }

  /** A chain that ends badly with the files of `visited` open below it. */
  predicate FatalWith(files: Files, c: seq<Path>, visited: set<Path>) {
    c != [] && (Fatal(files, c) || c[|c| - 1] in visited)
  }

  lemma ExtendChain(files: Files, p: Path, c: seq<Path>, visited: set<Path>)
    requires Chain(files, c) && Includes(files, p, c[0]) && FatalWith(files, c, visited + {p})
    ensures Chain(files, [p] + c) && FatalWith(files, [p] + c, visited)
  {
    var d := [p] + c;
    forall i | 0 <= i < |d| - 1 ensures Includes(files, d[i], d[i + 1]) {
      if i > 0 { assert Includes(files, c[i - 1], c[i]); }
    }
    if i, j :| 0 <= i < j < |c| && c[i] == c[j] {
      assert d[i + 1] == d[j + 1];
    } else if c[|c| - 1] == p {
      assert d[0] == d[|d| - 1];
    }
    assert d[|d| - 1] == c[|c| - 1];
  }

  /** A failing expansion has a fatal chain to show for it ... */
  lemma {:induction false} FailureHasChain(files: Files, path: Path, visited: set<Path>) returns (c: seq<Path>)
    requires Expand(files, path, visited).Err?
    ensures Chain(files, c) && c[0] == path && FatalWith(files, c, visited)
    ensures Shows(files, c, visited, Expand(files, path, visited).error)
    decreases |files.Keys - visited|, 0, 0
  {
    c := [path];
    if path in files && path !in visited {
      Shrinks(files, visited, path);
      var rest := ItemsFailureHasChain(files, path, 0, [], visited + {path});
      if rest != [] {
        ExtendChain(files, path, rest, visited);
        ExtendShows(files, path, rest, visited, Expand(files, path, visited).error);
        c := [path] + rest;
      }
    }
  }

  /** The chain goes on from an include line of the file, unless the line that
      fails is one that names no file. */
  lemma {:induction false} ItemsFailureHasChain(files: Files, path: Path, i: nat, buffer: seq<string>, visited: set<Path>)
    returns (c: seq<Path>)
    requires path in files && i <= |files[path]|
    requires ExpandItems(files, path, files[path][i..], buffer, visited).Err?
    ensures c == [] ==>
              Broken(files, path) && ExpandItems(files, path, files[path][i..], buffer, visited).error == Missing
    ensures c != [] ==>
              && Chain(files, c) && Includes(files, path, c[0]) && FatalWith(files, c, visited)
              && Shows(files, c, visited, ExpandItems(files, path, files[path][i..], buffer, visited).error)
    decreases |files.Keys - visited|, 2, |files[path]| - i
  {
    var items := files[path];
    assert items[i..][1..] == items[i + 1..];
    match items[i] {
      case Line(text) => c := ItemsFailureHasChain(files, path, i + 1, buffer + [text], visited);
      case Include(refs, wildcard) =>
        if refs == [] && !wildcard {
          c := [];
        } else if ExpandRefs(files, refs, visited).Err? {
          c := RefsFailureHasChain(files, refs, visited);
          assert items[i].Include? && c[0] in items[i].refs;
        } else {
          c := ItemsFailureHasChain(files, path, i + 1, [], visited);
        }
    }
  }

  lemma {:induction false} RefsFailureHasChain(files: Files, refs: seq<Path>, visited: set<Path>) returns (c: seq<Path>)
    requires ExpandRefs(files, refs, visited).Err?
    ensures Chain(files, c) && c[0] in refs && FatalWith(files, c, visited)
    ensures Shows(files, c, visited, ExpandRefs(files, refs, visited).error)
    decreases |files.Keys - visited|, 1, |refs|
  {
    if Expand(files, refs[0], visited).Err? {
      c := FailureHasChain(files, refs[0], visited);
    } else {
      c := RefsFailureHasChain(files, refs[1..], visited);
    }
  }

  lemma {:induction false} ItemsSucceed(files: Files, path: Path, items: seq<Item>, buffer: seq<string>, visited: set<Path>, i: nat)
    requires ExpandItems(files, path, items, buffer, visited).Ok? && i < |items| && items[i].Include?
    ensures (items[i].refs != [] || items[i].wildcard) && ExpandRefs(files, items[i].refs, visited).Ok?
    decreases |items|
  {
    if i > 0 { ItemsSucceed(files, path, items[1..], if items[0].Line? then buffer + [items[0].text] else [], visited, i - 1); }
  }

  lemma {:induction false} RefsSucceed(files: Files, refs: seq<Path>, visited: set<Path>, q: Path)
    requires ExpandRefs(files, refs, visited).Ok? && q in refs
    ensures Expand(files, q, visited).Ok?
    decreases |refs|
  {
    if q != refs[0] { RefsSucceed(files, refs[1..], visited, q); }
  }

  /** ... and a successful one allows no chain into an open file, into a broken
      one, or back into itself. */
  lemma {:induction false} SuccessHasNoChain(files: Files, visited: set<Path>, c: seq<Path>)
    requires Chain(files, c) && Expand(files, c[0], visited).Ok?
    ensures !Broken(files, c[|c| - 1])
    ensures forall i :: 0 <= i < |c| ==> c[i] !in visited
    ensures forall i, j :: 0 <= i < j < |c| ==> c[i] != c[j]
    decreases |c|
  {
    hide Broken;
    var p := c[0];
    Shrinks(files, visited, p);
    var open := visited + {p};
    assert ExpandItems(files, p, files[p], [], open).Ok?;
    if |c| == 1 {
      NotBroken(files, p, open);
    } else {
      assert Includes(files, p, c[1]);
      var i :| 0 <= i < |files[p]| && files[p][i].Include? && c[1] in files[p][i].refs;
      ItemsSucceed(files, p, files[p], [], open, i);
      RefsSucceed(files, files[p][i].refs, open, c[1]);
      var rest := c[1..];
      forall j | 0 <= j < |rest| - 1 ensures Includes(files, rest[j], rest[j + 1]) {
        assert Includes(files, c[j + 1], c[j + 2]);
      }
      SuccessHasNoChain(files, open, rest);
      assert forall k :: 0 < k < |c| ==> c[k] == rest[k - 1];
    }
  }

  lemma NotBroken(files: Files, p: Path, visited: set<Path>)
    requires p in files && ExpandItems(files, p, files[p], [], visited).Ok?
    ensures !Broken(files, p)
  {
    forall i | 0 <= i < |files[p]| && files[p][i].Include?
      ensures files[p][i].refs != [] || files[p][i].wildcard
    {
      ItemsSucceed(files, p, files[p], [], visited, i);
    }
  }

  /** Loading a file fails exactly when a chain of includes from it comes back to
      a file on the chain or reaches a broken file; a file reached twice along
      different chains is no failure. */
  lemma LoadFailsIff(files: Files, root: Path)
    ensures Expand(files, root, {}).Err? <==> exists c :: Chain(files, c) && c[0] == root && Fatal(files, c)
  {
    if Expand(files, root, {}).Err? {
      var c := FailureHasChain(files, root, {});
      assert Fatal(files, c);
    } else {
      forall c | Chain(files, c) && c[0] == root ensures !Fatal(files, c) {
        SuccessHasNoChain(files, {}, c);
      }
    }
  }

  // ---------- What it means ----------

  /** Every include line replaced by the contents of its files, once. */
  function Splice(files: Files, items: seq<Item>): seq<Item> {
    if items == [] then []
    else (if items[0].Line? then [items[0]] else Contents(files, items[0].refs)) + Splice(files, items[1..])
  }

  function Contents(files: Files, refs: seq<Path>): seq<Item> {
    if refs == [] then []
    else (if refs[0] in files then files[refs[0]] else []) + Contents(files, refs[1..])
  }

  function SpliceTimes(files: Files, items: seq<Item>, n: nat): seq<Item>
    decreases n
  {
    if n == 0 then items else SpliceTimes(files, Splice(files, items), n - 1)
  }

  function AsItems(lines: seq<string>): (items: seq<Item>)
    ensures |items| == |lines| && forall i :: 0 <= i < |lines| ==> items[i] == Line(lines[i])
  {
    if lines == [] then [] else [Line(lines[0])] + AsItems(lines[1..])
  }

  lemma {:induction false} SpliceConcat(files: Files, a: seq<Item>, b: seq<Item>)
    ensures Splice(files, a + b) == Splice(files, a) + Splice(files, b)
    decreases |a|
  {
    if a == [] {
      assert a + b == b;
    } else {
      assert (a + b)[1..] == a[1..] + b;
      SpliceConcat(files, a[1..], b);
    }
  }

  lemma {:induction false} SpliceTimesConcat(files: Files, a: seq<Item>, b: seq<Item>, n: nat)
    ensures SpliceTimes(files, a + b, n) == SpliceTimes(files, a, n) + SpliceTimes(files, b, n)
    decreases n
  {
    if n > 0 {
      SpliceConcat(files, a, b);
      SpliceTimesConcat(files, Splice(files, a), Splice(files, b), n - 1);
    }
  }

  lemma {:induction false} SpliceTimesLine(files: Files, text: string, n: nat)
    ensures SpliceTimes(files, [Line(text)], n) == [Line(text)]
    decreases n
  {
    if n > 0 {
      assert Splice(files, [Line(text)]) == [Line(text)] + [] == [Line(text)];
      SpliceTimesLine(files, text, n - 1);
    }
  }

  lemma {:induction false} SpliceTimesEmpty(files: Files, n: nat)
    ensures SpliceTimes(files, [], n) == []
    decreases n
  {
    if n > 0 { SpliceTimesEmpty(files, n - 1); }
  }

  lemma AsItemsConcat(a: seq<string>, b: seq<string>)
    ensures AsItems(a + b) == AsItems(a) + AsItems(b)
  {
  }

  lemma {:induction false} TextConcat(a: seq<Unit>, b: seq<Unit>)
    ensures TextOf(a + b) == TextOf(a) + TextOf(b)
    decreases |a|
  {
    if a == [] {
      assert a + b == b;
    } else {
      assert (a + b)[1..] == a[1..] + b;
      TextConcat(a[1..], b);
    }
  }

  lemma TextOfFlushed(path: Path, buffer: seq<string>)
    ensures TextOf(Flushed(path, buffer)) == buffer
  {
    if buffer != [] { assert [Unit(path, buffer)][1..] == []; }
  }

  /** The lines of a successful expansion, as items. */
  function TextItems(units: seq<Unit>): seq<Item> { AsItems(TextOf(units)) }

  lemma TextItemsConcat(a: seq<Unit>, b: seq<Unit>)
    ensures TextItems(a + b) == TextItems(a) + TextItems(b)
  {
    TextConcat(a, b);
    AsItemsConcat(TextOf(a), TextOf(b));
  }

  lemma {:induction false} ItemsSpliced(files: Files, path: Path, items: seq<Item>, buffer: seq<string>, visited: set<Path>, n: nat)
    requires ExpandItems(files, path, items, buffer, visited).Ok? && n > |files.Keys - visited|
    ensures TextItems(ExpandItems(files, path, items, buffer, visited).value) == AsItems(buffer) + SpliceTimes(files, items, n)
    decreases |files.Keys - visited|, 2, |items|
  {
    hide Expand, SpliceTimes, TextItems, AsItems, Flushed;
    if items == [] {
      SpliceTimesEmpty(files, n);
      FlushedItems(path, buffer);
      assert AsItems(buffer) + [] == AsItems(buffer);
    } else {
      var rest := items[1..];
      assert items == [items[0]] + rest;
      SpliceTimesConcat(files, [items[0]], rest, n);
      match items[0] {
        case Line(text) =>
          ItemsSpliced(files, path, rest, buffer + [text], visited, n);
          SpliceTimesLine(files, text, n);
          LineAfter(buffer, text, SpliceTimes(files, rest, n));
        case Include(refs, _) =>
          ItemsSpliced(files, path, rest, [], visited, n);
          RefsSpliced(files, refs, visited, n - 1);
          SpliceInclude(files, items[0], n);
          var included, more := ExpandRefs(files, refs, visited).value, ExpandItems(files, path, rest, [], visited).value;
          FlushedItems(path, buffer);
          TextItemsConcat(included, more);
          TextItemsConcat(Flushed(path, buffer), included + more);
          NoItems(SpliceTimes(files, rest, n));
      }
    }
  }

  lemma FlushedItems(path: Path, buffer: seq<string>)
    ensures TextItems(Flushed(path, buffer)) == AsItems(buffer)
  {
    TextOfFlushed(path, buffer);
  }

  lemma NoItems(items: seq<Item>)
    ensures AsItems([]) + items == items
  {
  }

  lemma LineAfter(buffer: seq<string>, text: string, items: seq<Item>)
    ensures AsItems(buffer + [text]) + items == AsItems(buffer) + ([Line(text)] + items)
  {
    AsItemsConcat(buffer, [text]);
    assert AsItems([text]) == [Line(text)];
  }

  lemma SpliceInclude(files: Files, item: Item, n: nat)
    requires item.Include? && n > 0
    ensures SpliceTimes(files, [item], n) == SpliceTimes(files, Contents(files, item.refs), n - 1)
  {
    assert Splice(files, [item]) == Contents(files, item.refs) + [] == Contents(files, item.refs);
  }

  lemma {:induction false} RefsSpliced(files: Files, refs: seq<Path>, visited: set<Path>, n: nat)
    requires ExpandRefs(files, refs, visited).Ok? && n >= |files.Keys - visited|
    ensures SpliceTimes(files, Contents(files, refs), n) == TextItems(ExpandRefs(files, refs, visited).value)
    decreases |files.Keys - visited|, 1, |refs|
  {
    if refs == [] {
      SpliceTimesEmpty(files, n);
    } else {
      var q := refs[0];
      Shrinks(files, visited, q);
      ItemsSpliced(files, q, files[q], [], visited + {q}, n);
      NoItems(SpliceTimes(files, files[q], n));
      hide SpliceTimes, ExpandItems, TextItems;
      RefsSpliced(files, refs[1..], visited, n);
      SpliceTimesConcat(files, files[q], Contents(files, refs[1..]), n);
      TextItemsConcat(Expand(files, q, visited).value, ExpandRefs(files, refs[1..], visited).value);
    }
  }

  /** A successful load feeds the parser the text one gets by replacing include
      lines with what they name until none is left; as many rounds as there
      are files are enough. */
  lemma LoadIsTextualInclusion(files: Files, root: Path)
    requires Expand(files, root, {}).Ok?
    ensures root in files
    ensures SpliceTimes(files, files[root], |files|) == TextItems(Expand(files, root, {}).value)
  {
    Shrinks(files, {}, root);
    assert files.Keys - {} == files.Keys;
    assert |files.Keys| == |files|;
    ItemsSpliced(files, root, files[root], [], {} + {root}, |files|);
    NoItems(SpliceTimes(files, files[root], |files|));
  }

  // ---------- The units ----------

  /** Lines i, i + 1, ... of the unit's file, between two include lines. */
  predicate RunAt(files: Files, u: Unit, i: nat) {
    && u.file in files && u.lines != []
    && var items, j := files[u.file], i + |u.lines|;
       && j <= |items| && items[i..j] == AsItems(u.lines)
       && (i == 0 || items[i - 1].Include?) && (j == |items| || items[j].Include?)
  }

  ghost predicate IsRun(files: Files, u: Unit) {
    exists i: nat :: RunAt(files, u, i)
  }

  /** The buffered lines are those just before line k, back to an include line. */
  predicate Buffered(items: seq<Item>, buffer: seq<string>, k: nat) {
    && |buffer| <= k <= |items| && items[k - |buffer|..k] == AsItems(buffer)
    && (k == |buffer| || items[k - |buffer| - 1].Include?)
  }

  lemma BufferGrows(items: seq<Item>, buffer: seq<string>, k: nat)
    requires Buffered(items, buffer, k) && k < |items| && items[k].Line?
    ensures Buffered(items, buffer + [items[k].text], k + 1)
  {
    AsItemsConcat(buffer, [items[k].text]);
    assert items[k - |buffer|..k + 1] == items[k - |buffer|..k] + [items[k]];
    assert AsItems([items[k].text]) == [items[k]];
  }

  lemma FlushedIsRun(files: Files, path: Path, buffer: seq<string>, k: nat, u: Unit)
    requires path in files && Buffered(files[path], buffer, k) && u in Flushed(path, buffer)
    requires k == |files[path]| || files[path][k].Include?
    ensures IsRun(files, u)
  {
    assert RunAt(files, u, k - |buffer|);
  }

  lemma UnitsOfInclude(files: Files, path: Path, items: seq<Item>, buffer: seq<string>, visited: set<Path>, u: Unit)
    requires items != [] && items[0].Include? && ExpandItems(files, path, items, buffer, visited).Ok?
    requires u in ExpandItems(files, path, items, buffer, visited).value
    ensures var refs, rest := items[0].refs, items[1..];
            && ExpandRefs(files, refs, visited).Ok? && ExpandItems(files, path, rest, [], visited).Ok?
            && (u in Flushed(path, buffer) || u in ExpandRefs(files, refs, visited).value
                || u in ExpandItems(files, path, rest, [], visited).value)
  {
    hide Flushed, ExpandRefs;
  }

  lemma {:induction false} ItemsAreRuns(files: Files, path: Path, buffer: seq<string>, k: nat, visited: set<Path>, u: Unit)
    requires path in files && Buffered(files[path], buffer, k)
    requires ExpandItems(files, path, files[path][k..], buffer, visited).Ok?
    requires u in ExpandItems(files, path, files[path][k..], buffer, visited).value
    ensures IsRun(files, u)
    decreases |files.Keys - visited|, 2, |files[path]| - k
  {
    hide IsRun, Flushed, Buffered, ExpandRefs;
    var items := files[path];
    BufferedWithin(items, buffer, k);
    if k == |items| {
      FlushedIsRun(files, path, buffer, k, u);
    } else {
      assert items[k..][0] == items[k] && items[k..][1..] == items[k + 1..];
      match items[k] {
        case Line(text) =>
          BufferGrows(items, buffer, k);
          ItemsAreRuns(files, path, buffer + [text], k + 1, visited, u);
        case Include(refs, _) =>
          UnitsOfInclude(files, path, items[k..], buffer, visited, u);
          hide ExpandItems;
          if u in Flushed(path, buffer) {
            FlushedIsRun(files, path, buffer, k, u);
          } else if u in ExpandRefs(files, refs, visited).value {
            RefsAreRuns(files, refs, visited, u);
          } else {
            NothingBuffered(items, k + 1);
            ItemsAreRuns(files, path, [], k + 1, visited, u);
          }
      }
    }
  }

  lemma BufferedWithin(items: seq<Item>, buffer: seq<string>, k: nat)
    requires Buffered(items, buffer, k)
    ensures k <= |items|
  {
  }

  lemma NothingBuffered(items: seq<Item>, k: nat)
    requires k <= |items| && (k == 0 || items[k - 1].Include?)
    ensures Buffered(items, [], k)
  {
  }

  lemma {:induction false} RefsAreRuns(files: Files, refs: seq<Path>, visited: set<Path>, u: Unit)
    requires ExpandRefs(files, refs, visited).Ok? && u in ExpandRefs(files, refs, visited).value
    ensures IsRun(files, u)
    decreases |files.Keys - visited|, 1, |refs|
  {
    hide IsRun;
    if u in Expand(files, refs[0], visited).value {
      UnitsAreRuns(files, refs[0], visited, u);
    } else {
      RefsAreRuns(files, refs[1..], visited, u);
    }
  }

  /** Every unit handed to the parser is all the lines of one file between two
      of its include lines, or its beginning or end, and never an empty one. */
  lemma {:induction false} UnitsAreRuns(files: Files, path: Path, visited: set<Path>, u: Unit)
    requires Expand(files, path, visited).Ok? && u in Expand(files, path, visited).value
    ensures IsRun(files, u)
    decreases |files.Keys - visited|, 0, 0
  {
    hide IsRun, Buffered;
    Shrinks(files, visited, path);
    NothingBuffered(files[path], 0);
    assert files[path][0..] == files[path];
    ItemsAreRuns(files, path, [], 0, visited + {path}, u);
  }
}
