/** PinResolver of pins.py: pin aliases kept flat while they are declared, and
    the translation of pin names in commands. */
module PinResolver {
  import opened Bytes
  import opened Text

  type Name = string
  type Aliases = map<Name, Name>

  datatype Error = AliasConflict | InvalidName | AliasOfActivePin | ReservedPin

  /** self.aliases.get(name, name) */
  function Resolve(m: Aliases, name: Name): Name {
    if name in m then m[name] else name
  }

  predicate ValidTarget(pin: Name) {
    forall i :: 0 <= i < |pin| ==> pin[i] !in "^~!:" && !IsSpace(pin[i])
  }

  /** Whether alias_pin goes through. */
  predicate AliasAccepted(m: Aliases, alias: Name, pin: Name) {
    (alias in m ==> m[alias] == pin) && ValidTarget(pin)
  }

  /** The dictionary after an accepted alias_pin. */
  function Aliased(m: Aliases, alias: Name, pin: Name): Aliases {
    var target := Resolve(m, pin);
    var added := m[alias := target];
    map k | k in added :: if added[k] == alias then target else added[k]
  }

  datatype Pins = Pins(aliases: Aliases, active: map<Name, Name>, reserved: map<Name, Name>, validate: bool)

  /** pin_fixup for one name. setdefault has run even when an error follows. */
  function UseName(p: Pins, name: Name): (Pins, Result<Name, Error>) {
    var pinId := Resolve(p.aliases, name);
    var q := if pinId in p.active then p else p.(active := p.active[pinId := name]);
    if name != q.active[pinId] && p.validate then (q, Err(AliasOfActivePin))
    else if pinId in p.reserved then (q, Err(ReservedPin))
    else (q, Ok(pinId))
  }

  /** update_command over the pin names of a command, up to the first error. */
  function UseNames(p: Pins, names: seq<Name>): (Pins, Result<seq<Name>, Error>)
    decreases |names|
  {
    if names == [] then (p, Ok([]))
    else
      var (q, r) := UseName(p, names[0]);
      match r
      case Err(e) => (q, Err(e))
      case Ok(pinId) =>
        var (q', more) := UseNames(q, names[1..]);
        (q', After([pinId], more))
  }

  // ---------- Pin names in the text of a command ----------

  /** The pattern [ _]pin= matches here. */
  predicate PinAt(s: string) {
    |s| >= 5 && s[0] in " _" && s[1..5] == "pin="
  }

  /** [^ ]* */
  function Word(s: string): (w: string)
    ensures w <= s && ' ' !in w
    ensures |w| < |s| ==> s[|w|] == ' '
  {
    if s == "" || s[0] == ' ' then "" else [s[0]] + Word(s[1..])
  }

  function PinNames(cmd: string): seq<Name>
    decreases |cmd|
  {
    if cmd == "" then []
    else if PinAt(cmd) then [Word(cmd[5..])] + PinNames(cmd[5 + |Word(cmd[5..])|..])
    else PinNames(cmd[1..])
  }

  /** The command with other names in their places. */
  function Substituted(cmd: string, names: seq<Name>): string
    requires |names| == |PinNames(cmd)|
    decreases |cmd|
  {
    if cmd == "" then ""
    else if PinAt(cmd) then cmd[..5] + names[0] + Substituted(cmd[5 + |Word(cmd[5..])|..], names[1..])
    else [cmd[0]] + Substituted(cmd[1..], names)
  }

  /** update_command: substitution with pin_fixup, left to right, up to the first error. */
  function Update(p: Pins, cmd: string): (Pins, Result<string, Error>)
    decreases |cmd|
  {
    if cmd == "" then (p, Ok(""))
    else if PinAt(cmd) then
      var name := Word(cmd[5..]);
      var (q, r) := UseName(p, name);
      match r
      case Err(e) => (q, Err(e))
      case Ok(pinId) =>
        var (q', more) := Update(q, cmd[5 + |name|..]);
        (q', After(cmd[..5] + pinId, more))
    else
      var (q, more) := Update(p, cmd[1..]);
      (q, After([cmd[0]], more))
  }

  class Resolver {
    const validateAliases: bool
    var reserved: map<Name, Name>
    var aliases: Aliases
    var activePins: map<Name, Name>

    ghost function Fields(): Pins
      reads this
    {
      Pins(aliases, activePins, reserved, validateAliases)
    }

    constructor (validateAliases: bool)
      ensures Fields() == Pins(map[], map[], map[], validateAliases)
    {
      this.validateAliases := validateAliases;
      reserved, aliases, activePins := map[], map[], map[];
    }

    method ReservePin(pin: Name, reserveName: Name) returns (ok: bool)
      modifies this`reserved
      ensures ok <==> pin !in old(reserved) || old(reserved)[pin] == reserveName
      ensures reserved == if ok then old(reserved)[pin := reserveName] else old(reserved)
    {
      if pin in reserved && reserved[pin] != reserveName { return false; }
      reserved := reserved[pin := reserveName];
      return true;
    }

    method AliasPin(alias: Name, pin: Name) returns (r: Option<Error>)
      modifies this`aliases
      ensures r == None <==> AliasAccepted(old(aliases), alias, pin)
      ensures r == Some(AliasConflict) <==> alias in old(aliases) && old(aliases)[alias] != pin
      ensures r.Some? ==> r.value == AliasConflict || r.value == InvalidName
      ensures aliases == if r == None then Aliased(old(aliases), alias, pin) else old(aliases)
    {
      if alias in aliases && aliases[alias] != pin { return Some(AliasConflict); }
      if !ValidTarget(pin) { return Some(InvalidName); }
      var target := if pin in aliases then aliases[pin] else pin;
      aliases := aliases[alias := target];
      ghost var added := aliases;
      var todo := aliases.Keys;
      while todo != {}
        invariant todo <= added.Keys == aliases.Keys
        invariant forall k :: k in todo ==> aliases[k] == added[k]
        invariant forall k :: k in added && k !in todo ==>
          aliases[k] == if added[k] == alias then target else added[k]
        decreases todo
      {
        var existing :| existing in todo;
        if aliases[existing] == alias {
          aliases := aliases[existing := target];
        }
        todo := todo - {existing};
      }
      assert aliases == Aliased(old(aliases), alias, pin);
      return None;
    }

    method FixupPin(name: Name) returns (r: Result<Name, Error>)
      modifies this`activePins
      ensures (Fields(), r) == UseName(old(Fields()), name)
    {
      var pinId := if name in aliases then aliases[name] else name;
      if pinId !in activePins { activePins := activePins[pinId := name]; }
      if name != activePins[pinId] && validateAliases { return Err(AliasOfActivePin); }
      if pinId in reserved { return Err(ReservedPin); }
      return Ok(pinId);
    }

    method UpdateCommand(cmd: string) returns (r: Result<string, Error>)
      modifies this`activePins
      ensures (Fields(), r) == Update(old(Fields()), cmd)
    {
      hide UseName, PinAt, Word;
      var out, rest := "", cmd;
      AfterNothing(Update(Fields(), cmd).1);
      while rest != ""
        invariant Update(old(Fields()), cmd).0 == Update(Fields(), rest).0
        invariant Update(old(Fields()), cmd).1 == After(out, Update(Fields(), rest).1)
        decreases |rest|
      {
        if PinAt(rest) {
          PinHasPrefix(rest);
          var name := Word(rest[5..]);
          var pinId := FixupPin(name);
          if pinId.Err? { return Err(pinId.error); }
          AfterAfter(out, rest[..5] + pinId.value, Update(Fields(), rest[5 + |name|..]).1);
          out := out + (rest[..5] + pinId.value);
          rest := rest[5 + |name|..];
        } else {
          AfterAfter(out, [rest[0]], Update(Fields(), rest[1..]).1);
          out := out + [rest[0]];
          rest := rest[1..];
        }
      }
      assert out + "" == out;
      return Ok(out);
    }
  }

  lemma PinHasPrefix(s: string)
    requires PinAt(s)
    ensures |s| >= 5
  {
  }

  /** What a command's text comes to: its names are used in order, and put back
      as pins when all are accepted. */
  lemma {:induction false} UpdateUsesNames(p: Pins, cmd: string)
    ensures Update(p, cmd).0 == UseNames(p, PinNames(cmd)).0
    ensures match UseNames(p, PinNames(cmd)).1
            case Err(e) => Update(p, cmd).1 == Err(e)
            case Ok(pins) => |pins| == |PinNames(cmd)| && Update(p, cmd).1 == Ok(Substituted(cmd, pins))
    decreases |cmd|
  {
    hide UseName, PinAt, Word;
    if cmd == "" {
    } else if PinAt(cmd) {
      PinHasPrefix(cmd);
      var name := Word(cmd[5..]);
      var rest := cmd[5 + |name|..];
      var (q, r) := UseName(p, name);
      var names := PinNames(cmd);
      assert names[0] == name && names[1..] == PinNames(rest);
      if r.Ok? {
        UpdateUsesNames(q, rest);
        var more := UseNames(q, PinNames(rest)).1;
        if more.Ok? {
          assert ([r.value] + more.value)[1..] == more.value;
        }
      }
    } else {
      UpdateUsesNames(p, cmd[1..]);
    }
  }

  /** Text that is no part of a prefix stays where it is. */
  lemma {:induction false} SubstitutedStarts(cmd: string, names: seq<Name>, w: string)
    requires |names| == |PinNames(cmd)| && ' ' !in w && '_' !in w
    ensures w <= Substituted(cmd, names) <==> w <= cmd
    decreases |cmd|
  {
    if w != "" && cmd != "" && !PinAt(cmd) {
      SubstitutedStarts(cmd[1..], names, w[1..]);
      assert w <= cmd <==> w[0] == cmd[0] && w[1..] <= cmd[1..];
      var t := Substituted(cmd, names);
      assert w <= t <==> w[0] == t[0] && w[1..] <= t[1..];
    }
  }

  lemma {:induction false} WordEnds(name: Name, rest: string)
    requires ' ' !in name && (rest == "" || rest[0] == ' ')
    ensures Word(name + rest) == name
  {
    var s := name + rest;
    if name == "" {
      assert s == rest;
    } else {
      assert s[0] == name[0] && s[1..] == name[1..] + rest;
      WordEnds(name[1..], rest);
      assert [name[0]] + name[1..] == name;
    }
  }

  /** A command with other names in it has those names and is otherwise the same. */
  lemma {:induction false} SubstitutedNames(cmd: string, names: seq<Name>)
    requires |names| == |PinNames(cmd)| && forall n :: n in names ==> ' ' !in n
    ensures PinNames(Substituted(cmd, names)) == names
    ensures Substituted(Substituted(cmd, names), PinNames(cmd)) == cmd
    ensures Substituted(cmd, names) == "" <==> cmd == ""
    ensures cmd != "" ==> Substituted(cmd, names)[0] == cmd[0]
    decreases |cmd|
  {
    hide Word, PinAt;
    var t := Substituted(cmd, names);
    if cmd == "" {
    } else if PinAt(cmd) {
      PinHasPrefix(cmd);
      var name := Word(cmd[5..]);
      var rest := cmd[5 + |name|..];
      SubstitutedNames(rest, names[1..]);
      var more := Substituted(rest, names[1..]);
      AtPin(cmd, names[0], more, [name] + PinNames(rest));
      assert cmd == cmd[..5] + name + rest;
    } else {
      SubstitutedNames(cmd[1..], names);
      SubstitutedStarts(cmd[1..], names, "pin=");
      NotPin(cmd, Substituted(cmd[1..], names));
      NoPinHere(cmd[0], Substituted(cmd[1..], names), PinNames(cmd));
      assert cmd == [cmd[0]] + cmd[1..];
    }
  }

  lemma NoPinHere(c: char, more: string, names: seq<Name>)
    requires !PinAt([c] + more) && |names| == |PinNames(more)|
    ensures PinNames([c] + more) == PinNames(more)
    ensures Substituted([c] + more, names) == [c] + Substituted(more, names)
  {
    hide PinAt, Word;
    assert ([c] + more)[1..] == more;
  }

  /** The name after a prefix is found, and another one put there. */
  lemma AtPin(cmd: string, name: Name, more: string, names: seq<Name>)
    requires PinAt(cmd) && ' ' !in name && (more == "" || more[0] == ' ')
    requires |names| == 1 + |PinNames(more)|
    ensures var t := cmd[..5] + name + more;
            && t != "" && t[0] == cmd[0] && PinNames(t) == [name] + PinNames(more)
            && Substituted(t, names) == cmd[..5] + names[0] + Substituted(more, names[1..])
  {
    hide Word;
    WordEnds(name, more);
    PrefixKept(cmd, name, more);
  }

  /** A name is what stands between "pin=" after a blank or an underscore and the
      next blank. */
  lemma NameAfterPrefix(prefix: char, name: Name, rest: string)
    requires prefix == ' ' || prefix == '_'
    requires ' ' !in name && (rest == "" || rest[0] == ' ')
    ensures PinNames([prefix] + "pin=" + name + rest) == [name] + PinNames(rest)
  {
    hide Word;
    var cmd := [prefix] + "pin=" + name + rest;
    assert cmd[1..5] == "pin=" && cmd[5..] == name + rest;
    WordEnds(name, rest);
    assert cmd[5 + |name|..] == rest;
  }

  predicate PinAtPosition(cmd: string, i: nat) {
    i + 5 <= |cmd| && (cmd[i] == ' ' || cmd[i] == '_') && cmd[i + 1..i + 5] == "pin="
  }

  /** Nothing else is one. */
  lemma {:induction false} NoNameIff(cmd: string)
    ensures PinNames(cmd) == [] <==> forall i: nat :: !PinAtPosition(cmd, i)
    decreases |cmd|
  {
    PinAtFront(cmd);
    hide PinAt, Word;
    if cmd != "" && !PinAt(cmd) {
      NoNameIff(cmd[1..]);
      forall i: nat ensures PinAtPosition(cmd, i + 1) <==> PinAtPosition(cmd[1..], i) {
        if i + 6 <= |cmd| { assert cmd[i + 2..i + 6] == cmd[1..][i + 1..i + 5]; }
      }
      if i: nat :| PinAtPosition(cmd, i) {
        assert PinAtPosition(cmd[1..], i - 1);
      }
      if i: nat :| PinAtPosition(cmd[1..], i) {
        assert PinAtPosition(cmd, i + 1);
      }
    }
  }

  lemma PinAtFront(cmd: string)
    ensures PinAt(cmd) <==> PinAtPosition(cmd, 0)
    ensures PinAt(cmd) ==> cmd != ""
  {
  }

  lemma PrefixKept(cmd: string, name: Name, more: string)
    requires PinAt(cmd)
    ensures var t := cmd[..5] + name + more;
            PinAt(t) && t[..5] == cmd[..5] && t[5..] == name + more && t[5 + |name|..] == more
  {
    assert (cmd[..5] + name + more)[1..5] == cmd[1..5];
  }

  lemma NotPin(cmd: string, more: string)
    requires cmd != "" && !PinAt(cmd) && ("pin=" <= more <==> "pin=" <= cmd[1..])
    ensures !PinAt([cmd[0]] + more)
  {
    var t := [cmd[0]] + more;
    if |more| >= 4 { assert t[1..5] == more[..4]; }
    if |cmd| >= 5 { assert cmd[1..5] == cmd[1..][..4]; }
  }

  // ---------- Aliases stay flat and mean connectedness ----------

  /** Resolving twice is resolving once. */
  ghost predicate Flat(m: Aliases) {
    forall x :: Resolve(m, Resolve(m, x)) == Resolve(m, x)
  }

  /** An accepted alias merges two classes of names and changes nothing else. */
  lemma AliasedResolves(m: Aliases, alias: Name, pin: Name, x: Name)
    requires Flat(m) && AliasAccepted(m, alias, pin)
    ensures Resolve(Aliased(m, alias, pin), x)
         == if Resolve(m, x) == Resolve(m, alias) then Resolve(m, pin) else Resolve(m, x)
  {
    assert Resolve(m, Resolve(m, alias)) == Resolve(m, alias);
    assert Resolve(m, Resolve(m, pin)) == Resolve(m, pin);
    assert Resolve(m, Resolve(m, x)) == Resolve(m, x);
  }

  lemma AliasedFlat(m: Aliases, alias: Name, pin: Name)
    requires Flat(m) && AliasAccepted(m, alias, pin)
    ensures Flat(Aliased(m, alias, pin))
  {
    hide Aliased, AliasAccepted, Resolve;
    var n := Aliased(m, alias, pin);
    forall x ensures Resolve(n, Resolve(n, x)) == Resolve(n, x) {
      AliasedResolves(m, alias, pin, x);
      AliasedResolves(m, alias, pin, Resolve(m, x));
      AliasedResolves(m, alias, pin, Resolve(m, pin));
      assert Resolve(m, Resolve(m, x)) == Resolve(m, x);
      assert Resolve(m, Resolve(m, pin)) == Resolve(m, pin);
    }
  }

  /** The alias declarations accepted so far, as given. */
  type Pairs = seq<(Name, Name)>

  predicate Linked(pairs: Pairs, x: Name, y: Name) {
    (x, y) in pairs || (y, x) in pairs
  }

  predicate Chain(pairs: Pairs, path: seq<Name>) {
    path != [] && forall i :: 0 <= i < |path| - 1 ==> Linked(pairs, path[i], path[i + 1])
  }

  ghost predicate Connected(pairs: Pairs, x: Name, y: Name) {
    exists path :: Chain(pairs, path) && path[0] == x && path[|path| - 1] == y
  }

  lemma ConnectedSelf(pairs: Pairs, x: Name)
    ensures Connected(pairs, x, x)
  {
    assert Chain(pairs, [x]);
  }

  lemma ConnectedLink(pairs: Pairs, x: Name, y: Name)
    requires Linked(pairs, x, y)
    ensures Connected(pairs, x, y)
  {
    assert Chain(pairs, [x, y]);
  }

  lemma ConnectedTrans(pairs: Pairs, x: Name, y: Name, z: Name)
    requires Connected(pairs, x, y) && Connected(pairs, y, z)
    ensures Connected(pairs, x, z)
  {
    var p :| Chain(pairs, p) && p[0] == x && p[|p| - 1] == y;
    var q :| Chain(pairs, q) && q[0] == y && q[|q| - 1] == z;
    var r := p + q[1..];
    forall i | 0 <= i < |r| - 1 ensures Linked(pairs, r[i], r[i + 1]) {
      if i < |p| - 1 {
        assert Linked(pairs, p[i], p[i + 1]);
      } else {
        var j := i - (|p| - 1);
        assert Linked(pairs, q[j], q[j + 1]);
      }
    }
    assert Chain(pairs, r);
  }

  lemma ConnectedSym(pairs: Pairs, x: Name, y: Name)
    requires Connected(pairs, x, y)
    ensures Connected(pairs, y, x)
  {
    var p :| Chain(pairs, p) && p[0] == x && p[|p| - 1] == y;
    var r := seq(|p|, i requires 0 <= i < |p| => p[|p| - 1 - i]);
    forall i | 0 <= i < |r| - 1 ensures Linked(pairs, r[i], r[i + 1]) {
      assert Linked(pairs, p[|p| - 2 - i], p[|p| - 1 - i]);
    }
    assert Chain(pairs, r);
  }

  lemma ConnectedMore(pairs: Pairs, extra: (Name, Name), x: Name, y: Name)
    requires Connected(pairs, x, y)
    ensures Connected(pairs + [extra], x, y)
  {
    var p :| Chain(pairs, p) && p[0] == x && p[|p| - 1] == y;
    assert Chain(pairs + [extra], p);
  }

  /** The dictionary after declarations, each accepted in its turn. */
  ghost predicate Declared(m: Aliases, pairs: Pairs)
    decreases |pairs|
  {
    if pairs == [] then m == map[]
    else
      var (alias, pin) := pairs[|pairs| - 1];
      exists before :: Declared(before, pairs[..|pairs| - 1]) && AliasAccepted(before, alias, pin)
        && m == Aliased(before, alias, pin)
  }

  /** Declared names resolve alike, and every name is linked to what it resolves to. */
  ghost predicate Faithful(m: Aliases, pairs: Pairs) {
    && Flat(m)
    && (forall i :: 0 <= i < |pairs| ==> Resolve(m, pairs[i].0) == Resolve(m, pairs[i].1))
    && (forall x :: Connected(pairs, x, Resolve(m, x)))
  }

  lemma FaithfulStep(m: Aliases, pairs: Pairs, alias: Name, pin: Name)
    requires Faithful(m, pairs) && AliasAccepted(m, alias, pin)
    ensures Faithful(Aliased(m, alias, pin), pairs + [(alias, pin)])
  {
    hide Aliased, AliasAccepted, Resolve, Connected;
    var n, more := Aliased(m, alias, pin), pairs + [(alias, pin)];
    AliasedFlat(m, alias, pin);
    forall i | 0 <= i < |more| ensures Resolve(n, more[i].0) == Resolve(n, more[i].1) {
      AliasedResolves(m, alias, pin, more[i].0);
      AliasedResolves(m, alias, pin, more[i].1);
    }
    forall x ensures Connected(more, x, Resolve(n, x)) {
      AliasedResolves(m, alias, pin, x);
      ConnectedMore(pairs, (alias, pin), x, Resolve(m, x));
      if Resolve(m, x) == Resolve(m, alias) {
        ConnectedMore(pairs, (alias, pin), alias, Resolve(m, alias));
        ConnectedMore(pairs, (alias, pin), pin, Resolve(m, pin));
        ConnectedSym(more, alias, Resolve(m, alias));
        assert more[|pairs|] == (alias, pin);
        ConnectedLink(more, alias, pin);
        ConnectedTrans(more, x, Resolve(m, alias), alias);
        ConnectedTrans(more, x, alias, pin);
        ConnectedTrans(more, x, pin, Resolve(m, pin));
      }
    }
  }

  lemma {:induction false} DeclaredFaithful(m: Aliases, pairs: Pairs)
    requires Declared(m, pairs)
    ensures Faithful(m, pairs)
    decreases |pairs|
  {
    hide Faithful, Aliased, AliasAccepted;
    if pairs == [] {
      EmptyFaithful();
    } else {
      var n := |pairs| - 1;
      var (alias, pin) := pairs[n];
      var before :| Declared(before, pairs[..n]) && AliasAccepted(before, alias, pin) && m == Aliased(before, alias, pin);
      DeclaredFaithful(before, pairs[..n]);
      FaithfulStep(before, pairs[..n], alias, pin);
      assert pairs[..n] + [(alias, pin)] == pairs;
    }
  }

  lemma EmptyFaithful()
    ensures Faithful(map[], [])
  {
    forall x ensures Connected([], x, Resolve(map[], x)) { ConnectedSelf([], x); }
  }

  lemma {:induction false} ChainResolves(m: Aliases, pairs: Pairs, path: seq<Name>)
    requires Faithful(m, pairs) && Chain(pairs, path)
    ensures Resolve(m, path[0]) == Resolve(m, path[|path| - 1])
    decreases |path|
  {
    hide Resolve, Flat, Connected;
    if |path| > 1 {
      assert Linked(pairs, path[0], path[1]);
      var i :| 0 <= i < |pairs| && (pairs[i] == (path[0], path[1]) || pairs[i] == (path[1], path[0]));
      forall j | 0 <= j < |path[1..]| - 1 ensures Linked(pairs, path[1..][j], path[1..][j + 1]) {
        assert Linked(pairs, path[j + 1], path[j + 2]);
      }
      ChainResolves(m, pairs, path[1..]);
    }
  }

  /** After any accepted declarations, cycles included: resolution is
      idempotent, and two names resolve to the same pin exactly when a chain of
      declarations connects them. */
  lemma ResolveIffConnected(m: Aliases, pairs: Pairs, x: Name, y: Name)
    requires Declared(m, pairs)
    ensures Resolve(m, Resolve(m, x)) == Resolve(m, x)
    ensures Resolve(m, x) == Resolve(m, y) <==> Connected(pairs, x, y)
  {
    hide Resolve, Connected, Declared;
    DeclaredFaithful(m, pairs);
    if Resolve(m, x) == Resolve(m, y) {
      ConnectedSym(pairs, y, Resolve(m, y));
      ConnectedTrans(pairs, x, Resolve(m, x), y);
    }
    if Connected(pairs, x, y) {
      ConnectedResolves(m, pairs, x, y);
    }
  }

  lemma ConnectedResolves(m: Aliases, pairs: Pairs, x: Name, y: Name)
    requires Faithful(m, pairs) && Connected(pairs, x, y)
    ensures Resolve(m, x) == Resolve(m, y)
  {
    hide Resolve, Faithful;
    var p :| Chain(pairs, p) && p[0] == x && p[|p| - 1] == y;
    ChainResolves(m, pairs, p);
  }

  // ---------- One name ----------

  /** What pin_fixup makes of a name: it is refused if its pin is in use under
      another name, with validation on, or reserved; otherwise it becomes the pin. */
  lemma UseNameOutcome(p: Pins, name: Name)
    ensures var pin, (q, r) := Resolve(p.aliases, name), UseName(p, name);
            && q.aliases == p.aliases && q.reserved == p.reserved && q.validate == p.validate
            && q.active == (if pin in p.active then p.active else p.active[pin := name])
            && (r == Ok(pin) <==> (!p.validate || pin !in p.active || p.active[pin] == name) && pin !in p.reserved)
            && (r == Err(AliasOfActivePin) <==> p.validate && pin in p.active && p.active[pin] != name)
            && (r.Err? ==> r.error == AliasOfActivePin || r.error == ReservedPin)
  {
  }

  /** Targets of aliases have no modifier characters and no blanks. */
  lemma ValidTargetIff(pin: Name)
    ensures ValidTarget(pin) <==>
            '^' !in pin && '~' !in pin && '!' !in pin && ':' !in pin && forall c :: c in pin ==> !IsSpace(c)
  {
    hide IsSpace;
    if ValidTarget(pin) {
      forall c | c in pin ensures c != '^' && c != '~' && c != '!' && c != ':' && !IsSpace(c) {
        var i :| 0 <= i < |pin| && pin[i] == c;
        assert c !in "^~!:";
      }
    }
  }

  // ---------- One name a pin ----------

  /** The names a command gets accepted, up to its first error. */
  function AcceptedNames(p: Pins, names: seq<Name>): seq<Name>
    decreases |names|
  {
    if names == [] then []
    else
      var (q, r) := UseName(p, names[0]);
      if r.Err? then [] else [names[0]] + AcceptedNames(q, names[1..])
  }

  /** Commands one after the other; an error ends its command only. */
  function RunCommands(p: Pins, commands: seq<seq<Name>>): (Pins, seq<Name>)
    decreases |commands|
  {
    if commands == [] then (p, [])
    else
      var (q, more) := RunCommands(UseNames(p, commands[0]).0, commands[1..]);
      (q, AcceptedNames(p, commands[0]) + more)
  }

  /** Every name in use is on file as the one name of its pin. */
  predicate OnFile(p: Pins, names: seq<Name>) {
    forall n :: n in names ==> Resolve(p.aliases, n) in p.active && p.active[Resolve(p.aliases, n)] == n
  }

  lemma UseNameOnFile(p: Pins, names: seq<Name>, name: Name)
    requires p.validate && OnFile(p, names)
    ensures var (q, r) := UseName(p, name);
            && q.aliases == p.aliases && q.validate && q.reserved == p.reserved
            && OnFile(q, names)
            && (r.Ok? ==> OnFile(q, names + [name]) && r.value == Resolve(p.aliases, name) && r.value !in p.reserved)
  {
  }

  lemma {:induction false} UseNamesOnFile(p: Pins, names: seq<Name>, command: seq<Name>)
    requires p.validate && OnFile(p, names)
    ensures var q := UseNames(p, command).0;
            && q.aliases == p.aliases && q.validate && q.reserved == p.reserved
            && OnFile(q, names + AcceptedNames(p, command))
    decreases |command|
  {
    hide UseName, OnFile;
    if command == [] {
      assert names + [] == names;
    } else {
      UseNameOnFile(p, names, command[0]);
      var (q, r) := UseName(p, command[0]);
      if r.Ok? {
        UseNamesOnFile(q, names + [command[0]], command[1..]);
        assert (names + [command[0]]) + AcceptedNames(q, command[1..]) == names + ([command[0]] + AcceptedNames(q, command[1..]));
      } else {
        assert names + [] == names;
      }
    }
  }

  lemma {:induction false} RunCommandsOnFile(p: Pins, names: seq<Name>, commands: seq<seq<Name>>)
    requires p.validate && OnFile(p, names)
    ensures RunCommands(p, commands).0.aliases == p.aliases
    ensures OnFile(RunCommands(p, commands).0, names + RunCommands(p, commands).1)
    decreases |commands|
  {
    hide UseNames, AcceptedNames, OnFile;
    if commands == [] {
      assert names + [] == names;
    } else {
      UseNamesOnFile(p, names, commands[0]);
      var q, first := UseNames(p, commands[0]).0, AcceptedNames(p, commands[0]);
      RunCommandsOnFile(q, names + first, commands[1..]);
      assert (names + first) + RunCommands(q, commands[1..]).1 == names + (first + RunCommands(q, commands[1..]).1);
    }
  }

  /** With the aliases fixed and validation on, no two different names are ever
      accepted for one physical pin, over all commands. */
  lemma OneNameAPin(p: Pins, commands: seq<seq<Name>>, a: Name, b: Name)
    requires p.validate
    requires a in RunCommands(p, commands).1 && b in RunCommands(p, commands).1
    requires Resolve(p.aliases, a) == Resolve(p.aliases, b)
    ensures a == b
  {
    hide RunCommands, Resolve;
    RunCommandsOnFile(p, [], commands);
    var (q, names) := RunCommands(p, commands);
    assert [] + names == names;
  }

  // ---------- Aliases declared between commands ----------

  /** No two of the names stand for one pin. */
  predicate OnePinEach(m: Aliases, names: seq<Name>) {
    forall a, b :: a in names && b in names && Resolve(m, a) == Resolve(m, b) ==> a == b
  }

  /** Whatever commands follow, no two names accepted, before or then, stand for one pin. */
  ghost predicate OneNameForever(p: Pins, names: seq<Name>) {
    forall commands :: OnePinEach(p.aliases, names + RunCommands(p, commands).1)
  }

  /** What commands keep while the aliases are fixed: `names` are those accepted. */
  ghost predicate InOrder(p: Pins, names: seq<Name>) {
    && p.validate && Flat(p.aliases) && OnFile(p, names)
    && forall pin :: pin in p.active ==> Resolve(p.aliases, p.active[pin]) == pin
  }

  predicate HasName(m: Aliases, names: seq<Name>, pin: Name) {
    exists n :: n in names && Resolve(m, n) == pin
  }

  lemma OnFileForever(p: Pins, names: seq<Name>)
    requires p.validate && OnFile(p, names)
    ensures OneNameForever(p, names)
  {
    hide RunCommands, Resolve;
    forall commands ensures OnePinEach(p.aliases, names + RunCommands(p, commands).1) {
      RunCommandsOnFile(p, names, commands);
    }
  }

  /** The names that stand for other pins. */
  function Others(m: Aliases, names: seq<Name>, pin: Name): (r: seq<Name>)
    ensures forall n :: n in r <==> n in names && Resolve(m, n) != pin
  {
    if names == [] then []
    else (if Resolve(m, names[0]) != pin then [names[0]] else []) + Others(m, names[1..], pin)
  }

  /** A name whose pin is reserved keeps it to itself. */
  lemma ReservedForever(p: Pins, names: seq<Name>, pin: Name)
    requires p.validate && pin in p.reserved
    requires OnFile(p, Others(p.aliases, names, pin))
    requires forall a, b :: a in names && b in names && Resolve(p.aliases, a) == pin == Resolve(p.aliases, b) ==> a == b
    ensures OneNameForever(p, names)
  {
    hide RunCommands, Resolve;
    var others := Others(p.aliases, names, pin);
    forall commands ensures OnePinEach(p.aliases, names + RunCommands(p, commands).1) {
      RunCommandsOnFile(p, others, commands);
      RunCommandsUnreserved(p, commands);
      var more := RunCommands(p, commands).1;
      forall a, b | a in names + more && b in names + more && Resolve(p.aliases, a) == Resolve(p.aliases, b)
        ensures a == b
      {
        if Resolve(p.aliases, a) != pin {
          assert a in others + more && b in others + more;
        }
      }
    }
  }

  lemma UseNameUnreserved(p: Pins, name: Name)
    ensures var (q, r) := UseName(p, name);
            && q.aliases == p.aliases && q.reserved == p.reserved
            && (r.Ok? ==> Resolve(p.aliases, name) !in p.reserved)
  {
  }

  lemma {:induction false} UseNamesUnreserved(p: Pins, names: seq<Name>)
    ensures UseNames(p, names).0.aliases == p.aliases && UseNames(p, names).0.reserved == p.reserved
    ensures forall n :: n in AcceptedNames(p, names) ==> Resolve(p.aliases, n) !in p.reserved
    decreases |names|
  {
    hide UseName, Resolve;
    if names != [] {
      UseNameUnreserved(p, names[0]);
      var (q, r) := UseName(p, names[0]);
      if r.Ok? { UseNamesUnreserved(q, names[1..]); }
    }
  }

  /** No name of a reserved pin is accepted. */
  lemma {:induction false} RunCommandsUnreserved(p: Pins, commands: seq<seq<Name>>)
    ensures forall n :: n in RunCommands(p, commands).1 ==> Resolve(p.aliases, n) !in p.reserved
    decreases |commands|
  {
    hide UseNames, AcceptedNames, Resolve;
    if commands != [] {
      UseNamesUnreserved(p, commands[0]);
      RunCommandsUnreserved(UseNames(p, commands[0]).0, commands[1..]);
    }
  }

  lemma OneNameCommand(p: Pins, name: Name)
    requires UseName(p, name).1.Ok?
    ensures RunCommands(p, [[name]]).1 == [name]
  {
    hide UseName;
    assert [[name]][1..] == [] && [name][1..] == [];
    assert AcceptedNames(p, [name]) == [name];
    assert RunCommands(p, [[name]]).1 == [name] + RunCommands(UseNames(p, [name]).0, []).1;
  }

  function Declare(p: Pins, alias: Name, pin: Name): Pins {
    p.(aliases := Aliased(p.aliases, alias, pin))
  }

  /** A name accepted before for the pin aliased away, and one in the way. */
  lemma SecondName(p: Pins, names: seq<Name>, n: Name, u: Name)
    requires n in names && n != u && Resolve(p.aliases, n) == Resolve(p.aliases, u)
    requires u in names || UseName(p, u).1.Ok?
    ensures !OneNameForever(p, names)
  {
    hide UseName, Resolve;
    if u in names {
      assert RunCommands(p, []).1 == [];
      assert !OnePinEach(p.aliases, names + RunCommands(p, []).1);
    } else {
      OneNameCommand(p, u);
      assert !OnePinEach(p.aliases, names + RunCommands(p, [[u]]).1);
    }
  }

  /** Declaring an alias while names are in use is safe exactly when it merges
      nothing, or no accepted name stood for the pin merged into another, or that
      other pin is reserved and no accepted name stands for it. */
  lemma LateAliasIff(p: Pins, names: seq<Name>, alias: Name, pin: Name)
    requires InOrder(p, names) && AliasAccepted(p.aliases, alias, pin)
    ensures var merged, target := Resolve(p.aliases, alias), Resolve(p.aliases, pin);
            OneNameForever(Declare(p, alias, pin), names) <==>
              || merged == target
              || !HasName(p.aliases, names, merged)
              || (target in p.reserved && !HasName(p.aliases, names, target))
  {
    hide Resolve, Aliased, Flat, AliasAccepted, UseName, OneNameForever, UseName, InOrder;
    var m, q := p.aliases, Declare(p, alias, pin);
    var merged, target := Resolve(m, alias), Resolve(m, pin);
    AfterDeclaring(p, names, alias, pin);
    NamesAfterDeclaring(p, names, alias, pin);
    if merged == target || !HasName(m, names, merged) {
      OnFileForever(q, names);
    } else {
      var n :| n in names && Resolve(m, n) == merged;
      if HasName(m, names, target) {
        var u :| u in names && Resolve(m, u) == target;
        SecondName(q, names, n, u);
      } else if target in p.reserved {
        ReservedForever(q, names, target);
      } else {
        SecondName(q, names, n, if target in p.active then p.active[target] else target);
      }
    }
  }

  /** The pins after a declaration, and a name that can be used for the target. */
  lemma AfterDeclaring(p: Pins, names: seq<Name>, alias: Name, pin: Name)
    requires InOrder(p, names) && AliasAccepted(p.aliases, alias, pin)
    ensures var m, q := p.aliases, Declare(p, alias, pin);
            var merged, target := Resolve(m, alias), Resolve(m, pin);
            && q.validate
            && (forall x :: Resolve(q.aliases, x) == if Resolve(m, x) == merged then target else Resolve(m, x))
            && (merged != target && target !in p.reserved ==>
                  var u := if target in p.active then p.active[target] else target;
                  Resolve(m, u) == target && UseName(q, u).1.Ok?)
  {
    hide Resolve, Aliased, Flat, AliasAccepted, UseName, OnFile;
    var m, q := p.aliases, Declare(p, alias, pin);
    var merged, target := Resolve(m, alias), Resolve(m, pin);
    forall x ensures Resolve(q.aliases, x) == if Resolve(m, x) == merged then target else Resolve(m, x) {
      AliasedResolves(m, alias, pin, x);
    }
    ResolveTwice(m, pin);
    var u := if target in p.active then p.active[target] else target;
    if merged != target && target !in p.reserved { Usable(q, u, target); }
  }

  /** The accepted names after a declaration. */
  lemma NamesAfterDeclaring(p: Pins, names: seq<Name>, alias: Name, pin: Name)
    requires InOrder(p, names) && AliasAccepted(p.aliases, alias, pin)
    ensures var m, q := p.aliases, Declare(p, alias, pin);
            var merged, target := Resolve(m, alias), Resolve(m, pin);
            && (merged == target || !HasName(m, names, merged) ==> OnFile(q, names))
            && (!HasName(m, names, target) ==> OnFile(q, Others(q.aliases, names, target)))
            && (forall a, b :: a in names && b in names && Resolve(m, a) == Resolve(m, b) ==> a == b)
  {
    hide Resolve, Aliased, Flat, AliasAccepted;
    var q := Declare(p, alias, pin);
    forall x ensures Resolve(q.aliases, x)
                  == if Resolve(p.aliases, x) == Resolve(p.aliases, alias) then Resolve(p.aliases, pin) else Resolve(p.aliases, x) {
      AliasedResolves(p.aliases, alias, pin, x);
    }
  }

  lemma ResolveTwice(m: Aliases, x: Name)
    requires Flat(m)
    ensures Resolve(m, Resolve(m, x)) == Resolve(m, x)
  {
  }

  lemma Usable(p: Pins, u: Name, pin: Name)
    requires Resolve(p.aliases, u) == pin && pin !in p.reserved
    requires pin in p.active ==> p.active[pin] == u
    ensures UseName(p, u).1.Ok?
  {
  }

  /** And it can happen: a name is used, then aliased to a pin that is then used too. */
  lemma LateAliasDefeatsValidation()
    ensures var p := Pins(map[], map[], map[], true);
            var (q, first) := UseNames(p, ["a"]);
            var m := Aliased(q.aliases, "a", "b");
            var second := UseNames(q.(aliases := m), ["b"]).1;
            && AliasAccepted(q.aliases, "a", "b") && first.Ok? && second.Ok?
            && Resolve(m, "a") == Resolve(m, "b")
  {
    var p := Pins(map[], map[], map[], true);
    assert UseNames(p, ["a"]).0 == UseName(p, "a").0 by { assert ["a"][1..] == []; }
    var q := UseName(p, "a").0;
    var m := Aliased(q.aliases, "a", "b");
    assert m["a"] == "b" && "b" !in m;
    assert UseNames(q.(aliases := m), ["b"]).1.Ok? by { assert ["b"][1..] == []; }
  }

  // ---------- Runs with declarations, reservations and commands in any order ----------

  datatype Event = Alias(alias: Name, pin: Name) | Reserve(pin: Name, reserveName: Name) | Command(names: seq<Name>)

  /** A resolver, and the names accepted so far. */
  datatype Run = Run(p: Pins, names: seq<Name>)

  function Step(r: Run, e: Event): Run {
    match e
    case Alias(alias, pin) =>
      if AliasAccepted(r.p.aliases, alias, pin) then r.(p := Declare(r.p, alias, pin)) else r
    case Reserve(pin, reserveName) =>
      if pin !in r.p.reserved || r.p.reserved[pin] == reserveName
      then r.(p := r.p.(reserved := r.p.reserved[pin := reserveName])) else r
    case Command(names) => Run(UseNames(r.p, names).0, r.names + AcceptedNames(r.p, names))
  }

  /** What the caller of alias_pin can see to: the pin that is merged into another
      has not been used. */
  predicate Careful(r: Run, e: Event) {
    e.Alias? ==>
      || Resolve(r.p.aliases, e.alias) == Resolve(r.p.aliases, e.pin)
      || Resolve(r.p.aliases, e.alias) !in r.p.active
  }

  predicate CarefulRun(r: Run, events: seq<Event>)
    decreases |events|
  {
    events == [] || (Careful(r, events[0]) && CarefulRun(Step(r, events[0]), events[1..]))
  }

  function RunAll(r: Run, events: seq<Event>): Run
    decreases |events|
  {
    if events == [] then r else RunAll(Step(r, events[0]), events[1..])
  }

  lemma UseNameInOrder(p: Pins, names: seq<Name>, name: Name)
    requires InOrder(p, names)
    ensures var (q, r) := UseName(p, name); InOrder(q, names) && (r.Ok? ==> InOrder(q, names + [name]))
  {
    hide Flat;
    UseNameOnFile(p, names, name);
  }

  lemma {:induction false} UseNamesInOrder(p: Pins, names: seq<Name>, command: seq<Name>)
    requires InOrder(p, names)
    ensures InOrder(UseNames(p, command).0, names + AcceptedNames(p, command))
    decreases |command|
  {
    hide UseName, InOrder;
    if command == [] {
      assert names + [] == names;
    } else {
      UseNameInOrder(p, names, command[0]);
      var (q, r) := UseName(p, command[0]);
      if r.Ok? {
        UseNamesInOrder(q, names + [command[0]], command[1..]);
        assert (names + [command[0]]) + AcceptedNames(q, command[1..]) == names + ([command[0]] + AcceptedNames(q, command[1..]));
      } else {
        assert names + [] == names;
      }
    }
  }

  lemma AliasInOrder(p: Pins, names: seq<Name>, alias: Name, pin: Name)
    requires InOrder(p, names) && AliasAccepted(p.aliases, alias, pin)
    requires Resolve(p.aliases, alias) == Resolve(p.aliases, pin) || Resolve(p.aliases, alias) !in p.active
    ensures InOrder(Declare(p, alias, pin), names)
  {
    hide Resolve, Aliased, AliasAccepted, UseName, Flat;
    AliasedFlat(p.aliases, alias, pin);
    AfterDeclaring(p, names, alias, pin);
    NamesAfterDeclaring(p, names, alias, pin);
  }

  lemma StepInOrder(r: Run, e: Event)
    requires InOrder(r.p, r.names) && Careful(r, e)
    ensures InOrder(Step(r, e).p, Step(r, e).names)
  {
    hide Resolve, Aliased, AliasAccepted, UseNames, AcceptedNames, Flat;
    match e {
      case Alias(alias, pin) =>
        if AliasAccepted(r.p.aliases, alias, pin) { AliasInOrder(r.p, r.names, alias, pin); }
      case Reserve(pin, reserveName) =>
      case Command(names) => UseNamesInOrder(r.p, r.names, names);
    }
  }

  /** With aliases declared at any time, as long as no used pin is merged into
      another, no two names are ever accepted for one pin. */
  lemma {:induction false} CarefulRunSafe(r: Run, events: seq<Event>)
    requires InOrder(r.p, r.names) && CarefulRun(r, events)
    ensures InOrder(RunAll(r, events).p, RunAll(r, events).names)
    ensures OneNameForever(RunAll(r, events).p, RunAll(r, events).names)
    decreases |events|
  {
    hide InOrder, Careful, Step, OneNameForever;
    if events == [] {
      InOrderForever(r.p, r.names);
    } else {
      StepInOrder(r, events[0]);
      CarefulRunSafe(Step(r, events[0]), events[1..]);
    }
  }

  lemma FreshInOrder()
    ensures InOrder(Pins(map[], map[], map[], true), [])
  {
  }

  lemma InOrderForever(p: Pins, names: seq<Name>)
    requires InOrder(p, names)
    ensures OneNameForever(p, names)
  {
    hide Flat;
    OnFileForever(p, names);
  }

  // ---------- Repeated declarations ----------

  /** Repeating an accepted alias is refused exactly when its target was itself
      an alias for something else: what is compared is the resolved pin. */
  lemma RepeatedAliasIff(m: Aliases, alias: Name, pin: Name)
    requires Flat(m) && AliasAccepted(m, alias, pin)
    ensures AliasAccepted(Aliased(m, alias, pin), alias, pin) <==> Resolve(m, pin) == pin
  {
  }

  /** As when b stands for c and a is declared to stand for b, twice. */
  lemma RepeatedAliasRefused()
    ensures var m := Aliased(map[], "b", "c");
            && AliasAccepted(map[], "b", "c") && AliasAccepted(m, "a", "b")
            && !AliasAccepted(Aliased(m, "a", "b"), "a", "b")
  {
    var m := Aliased(map[], "b", "c");
    assert m["b"] == "c" && "a" !in m;
    assert Aliased(m, "a", "b")["a"] == "c";
  }
}
