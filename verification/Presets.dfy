/** The skill preset editor (dream/presets.py: _write, set_active, _new_name and edit). Case folding and stripping are
    arbitrary functions; a revision, the SHA-256 of the file's bytes, is the file itself: equal exactly when the
    bytes are. */
module Presets {
  import opened Common

  datatype Result<T> = Ok(value: T) | Err

  const DEFAULT: string := "Default"
  const MAX_NAME: nat := 60
  const MAX_ITEM: nat := 240

  datatype Kind = Skills | Tools | Mcp | Plugins
  datatype Entry = Malformed | Lists(skills: seq<string>, tools: seq<string>, mcp: seq<string>, plugins: seq<string>)

  // data["active"] (Default when absent) and data["presets"].
  datatype Data = Data(active: string, mine: map<string, Entry>)
  // layout stands for how the file spells its data: every write spells it the same way.
  datatype File = Missing | Invalid(bytes: nat) | Saved(data: Data, layout: nat)

  datatype Op =
    | Create(value: string)
    | Assign(preset: string, kind: Kind, item: string, on: bool)
    | Rename(preset: string, to: string)
    | Delete(preset: string)
    | Reset(preset: string)

  function Get(entry: Entry, kind: Kind): seq<string>
    requires entry.Lists?
  {
    match kind
    case Skills => entry.skills
    case Tools => entry.tools
    case Mcp => entry.mcp
    case Plugins => entry.plugins
  }

  function With(entry: Entry, kind: Kind, items: seq<string>): (r: Entry)
    requires entry.Lists?
    ensures r.Lists? && Get(r, kind) == items
    ensures forall other: Kind :: other != kind ==> Get(r, other) == Get(entry, other)
  {
    match kind
    case Skills => entry.(skills := items)
    case Tools => entry.(tools := items)
    case Mcp => entry.(mcp := items)
    case Plugins => entry.(plugins := items)
  }

  // Every preset but Default: the owner's entries in front of the built-in ones.
  function Known(builtin: map<string, Entry>, mine: map<string, Entry>): map<string, Entry> {
    builtin + mine
  }

  // Those a session can use: a malformed entry is passed over, so a built-in under its name comes through.
  function Usable(builtin: map<string, Entry>, mine: map<string, Entry>): set<string> {
    (set n <- builtin) + (set n <- mine | n != DEFAULT && mine[n].Lists?)
  }

  predicate Apart(fold: string -> string, names: set<string>) {
    forall a, b :: a in names && b in names && fold(a) == fold(b) ==> a == b
  }

  // The choice stands for something, and no two names, Default included, differ in case alone.
  predicate Sane(builtin: map<string, Entry>, fold: string -> string, data: Data) {
    && (data.active == DEFAULT || data.active in Known(builtin, data.mine))
    && DEFAULT !in Known(builtin, data.mine)
    && Apart(fold, Known(builtin, data.mine).Keys + {DEFAULT})
  }

  predicate ProperName(name: string) {
    0 < |name| <= MAX_NAME && forall c <- name :: c as int >= 32
  }

  predicate Unused(fold: string -> string, name: string, taken: set<string>) {
    fold(name) != fold(DEFAULT) && forall t <- taken :: fold(t) != fold(name)
  }

  // ---- what an edit does -----------------------------------------------------------------------------------

  // Removing every spelling of the item and putting it last, or not.
  function Without(fold: string -> string, items: seq<string>, item: string): seq<string> {
    if items == [] then []
    else
      var front, last := Without(fold, items[..|items| - 1], item), items[|items| - 1];
      if fold(last) != fold(item) then front + [last] else front
  }

  lemma {:induction false} WithoutIsExact(fold: string -> string, items: seq<string>, item: string)
    ensures forall v :: multiset(Without(fold, items, item))[v] ==
                          if fold(v) == fold(item) then 0 else multiset(items)[v]
  {
    if items != [] {
      var front, last := items[..|items| - 1], items[|items| - 1];
      assert items == front + [last];
      WithoutIsExact(fold, front, item);
    }
  }

  // kept is what of was is no spelling of the item, in the order it stood.
  ghost predicate InOrder(fold: string -> string, was: seq<string>, kept: seq<string>, item: string, places: seq<nat>) {
    && |places| == |kept| && (forall j, k :: 0 <= j < k < |places| ==> places[j] < places[k])
    && (forall k :: 0 <= k < |places| ==> places[k] < |was| && kept[k] == was[places[k]])
    && (forall i :: 0 <= i < |was| ==> (i in places <==> fold(was[i]) != fold(item)))
  }

  // Where the others stand.
  function Places(fold: string -> string, items: seq<string>, item: string): seq<nat> {
    if items == [] then []
    else
      var n := |items| - 1;
      Places(fold, items[..n], item) + if fold(items[n]) != fold(item) then [n] else []
  }

  lemma {:induction false} WithoutIsInOrder(fold: string -> string, items: seq<string>, item: string)
    ensures InOrder(fold, items, Without(fold, items, item), item, Places(fold, items, item))
  {
    if items != [] {
      hide InOrder;
      var n := |items| - 1;
      WithoutIsInOrder(fold, items[..n], item);
      InOrderNext(fold, items[..n], Without(fold, items[..n], item), item, Places(fold, items[..n], item), items[n]);
      assert items == items[..n] + [items[n]];
      assert Places(fold, items[..n], item) + [] == Places(fold, items[..n], item);
    }
  }

  lemma InOrderNext(fold: string -> string, was: seq<string>, kept: seq<string>, item: string, places: seq<nat>, v: string)
    requires InOrder(fold, was, kept, item, places)
    ensures if fold(v) != fold(item) then InOrder(fold, was + [v], kept + [v], item, places + [|was|])
            else InOrder(fold, was + [v], kept, item, places)
  {
    assert |was| !in places;
    if fold(v) != fold(item) {
      var longer := places + [|was|];
      assert longer[|places|] == |was|;
      assert forall i :: 0 <= i < |was| ==> (i in longer <==> i in places) && (was + [v])[i] == was[i];
    } else {
      assert forall i :: 0 <= i < |was| ==> (was + [v])[i] == was[i];
    }
  }

  // An edit is allowed for the file as it is.
  predicate Allowed(builtin: map<string, Entry>, fold: string -> string, strip: string -> string, mine: map<string, Entry>,
                    op: Op)
  {
    var known := Known(builtin, mine);
    match op
    case Create(value) => ProperName(strip(value)) && Unused(fold, strip(value), known.Keys)
    case Assign(n, kind, item, on) => n != DEFAULT && n in known && 0 < |item| <= MAX_ITEM && known[n].Lists?
    case Rename(n, to) =>
      && n != DEFAULT && n in known && n !in builtin
      && ProperName(strip(to)) && Unused(fold, strip(to), known.Keys - {n})
    case Delete(n) => n != DEFAULT && n in known && n !in builtin
    case Reset(n) => n != DEFAULT && n in builtin && n in mine
  }

  // A name no preset has, nor Default, however they are spelled, this one preset apart.
  ghost predicate IsFree(builtin: map<string, Entry>, fold: string -> string, mine: map<string, Entry>, name: string,
                         apart: set<string>)
  {
    && 1 <= |name| <= 60 && (forall c <- name :: c as int >= 32)
    && fold(name) != fold("Default")
    && (forall t <- builtin :: t !in apart ==> fold(t) != fold(name))
    && (forall t <- mine :: t !in apart ==> fold(t) != fold(name))
  }

  // What the owner may do, by the two files: make a preset of a free name; assign to any preset that is no malformed one;
  // rename and delete his own, reset an edited built-in one; and nothing of Default.
  lemma AllowedExactly(builtin: map<string, Entry>, fold: string -> string, strip: string -> string,
                       mine: map<string, Entry>, op: Op)
    ensures Allowed(builtin, fold, strip, mine, op) <==>
              match op
              case Create(value) => IsFree(builtin, fold, mine, strip(value), {})
              case Assign(n, _, item, _) =>
                && n != "Default" && 1 <= |item| <= 240
                && (if n in mine then mine[n].Lists? else n in builtin && builtin[n].Lists?)
              case Rename(n, to) =>
                n != "Default" && n in mine && n !in builtin && IsFree(builtin, fold, mine, strip(to), {n})
              case Delete(n) => n != "Default" && n in mine && n !in builtin
              case Reset(n) => n != "Default" && n in mine && n in builtin
  {
    var known := Known(builtin, mine);
    assert known.Keys == builtin.Keys + mine.Keys;
    match op {
      case Create(value) => FreeIsUnused(builtin, fold, mine, strip(value), {});
      case Rename(n, to) => FreeIsUnused(builtin, fold, mine, strip(to), {n});
      case _ =>
    }
  }

  lemma FreeIsUnused(builtin: map<string, Entry>, fold: string -> string, mine: map<string, Entry>, name: string,
                     apart: set<string>)
    ensures IsFree(builtin, fold, mine, name, apart)
       <==> ProperName(name) && Unused(fold, name, Known(builtin, mine).Keys - apart)
  {
    assert Known(builtin, mine).Keys == builtin.Keys + mine.Keys;
  }

  // What it does to the presets that are known, and to the choice.
  ghost predicate Effect(builtin: map<string, Entry>, fold: string -> string, strip: string -> string, before: Data, after: Data,
                   op: Op)
    requires Allowed(builtin, fold, strip, before.mine, op)
  {
    var was, now := Known(builtin, before.mine), Known(builtin, after.mine);
    match op
    case Create(value) =>
      strip(value) !in was && now == was[strip(value) := Lists([], [], [], [])] && after.active == before.active
    case Assign(n, kind, item, on) =>
      && now.Keys == was.Keys && (forall m <- was :: m != n ==> now[m] == was[m]) && after.active == before.active
      && now[n].Lists? && (forall other: Kind :: other != kind ==> Get(now[n], other) == Get(was[n], other))
      && Assigned(fold, Get(was[n], kind), Get(now[n], kind), item, on)
    case Rename(n, to) =>
      && (strip(to) !in was || strip(to) == n) && now == (was - {n})[strip(to) := was[n]]
      && after.active == if before.active == n then strip(to) else before.active
    case Delete(n) => now == was - {n} && after.active == if before.active == n then DEFAULT else before.active
    case Reset(n) => now == was[n := builtin[n]] && after.active == before.active
  }

  // Other items stay as they were and where they were; this one is there once, last and as spelled, or not at all.
  ghost predicate Assigned(fold: string -> string, was: seq<string>, now: seq<string>, item: string, on: bool) {
    && (forall v :: fold(v) != fold(item) ==> multiset(now)[v] == multiset(was)[v])
    && (forall v :: fold(v) == fold(item) ==> multiset(now)[v] == if on && v == item then 1 else 0)
    && KeepsOrder(fold, was, now, item, on)
  }

  ghost predicate KeepsOrder(fold: string -> string, was: seq<string>, now: seq<string>, item: string, on: bool) {
    exists kept: seq<string>, places: seq<nat> ::
      now == (if on then kept + [item] else kept) && InOrder(fold, was, kept, item, places)
  }

  lemma AssignedByAppending(fold: string -> string, items: seq<string>, item: string, on: bool)
    ensures Assigned(fold, items, Without(fold, items, item) + if on then [item] else [], item, on)
  {
    hide KeepsOrder;
    var kept := Without(fold, items, item);
    WithoutIsExact(fold, items, item);
    OrderKeptByAppending(fold, items, item, on);
    if !on {
      assert kept + [] == kept;
    }
  }

  lemma OrderKeptByAppending(fold: string -> string, items: seq<string>, item: string, on: bool)
    ensures KeepsOrder(fold, items, Without(fold, items, item) + if on then [item] else [], item, on)
  {
    hide InOrder, Without;
    var kept := Without(fold, items, item);
    WithoutIsInOrder(fold, items, item);
    assert kept + [] == kept;
  }

  lemma CreateWorks(builtin: map<string, Entry>, fold: string -> string, strip: string -> string,
                    mine: map<string, Entry>, active: string, value: string)
    requires Allowed(builtin, fold, strip, mine, Create(value))
    ensures Effect(builtin, fold, strip, Data(active, mine),
                   Data(active, mine[strip(value) := Lists([], [], [], [])]), Create(value))
  {
  }

  lemma AssignWorks(builtin: map<string, Entry>, fold: string -> string, strip: string -> string,
                    mine: map<string, Entry>, active: string, name: string, kind: Kind, item: string, on: bool)
    requires Allowed(builtin, fold, strip, mine, Assign(name, kind, item, on))
    ensures var entry := Known(builtin, mine)[name];
            var items := Without(fold, Get(entry, kind), item) + if on then [item] else [];
            Effect(builtin, fold, strip, Data(active, mine), Data(active, mine[name := With(entry, kind, items)]),
                   Assign(name, kind, item, on))
  {
    hide Assigned, Without;
    AssignedByAppending(fold, Get(Known(builtin, mine)[name], kind), item, on);
  }

  lemma RenameWorks(builtin: map<string, Entry>, fold: string -> string, strip: string -> string,
                    mine: map<string, Entry>, active: string, name: string, to: string)
    requires Allowed(builtin, fold, strip, mine, Rename(name, to))
    ensures Effect(builtin, fold, strip, Data(active, mine),
                   Data(if active == name then strip(to) else active, (mine - {name})[strip(to) := mine[name]]),
                   Rename(name, to))
  {
  }

  lemma DropWorks(builtin: map<string, Entry>, fold: string -> string, strip: string -> string,
                  mine: map<string, Entry>, active: string, name: string, op: Op)
    requires op == Delete(name) || op == Reset(name)
    requires Allowed(builtin, fold, strip, mine, op)
    ensures Effect(builtin, fold, strip, Data(active, mine),
                   Data(if op.Delete? && active == name then DEFAULT else active, mine - {name}), op)
  {
  }

  // Whatever an allowed edit does, the choice and the names stay sound.
  lemma EffectKeepsSane(builtin: map<string, Entry>, fold: string -> string, strip: string -> string, before: Data,
                        after: Data, op: Op)
    requires Sane(builtin, fold, before) && Allowed(builtin, fold, strip, before.mine, op)
    requires Effect(builtin, fold, strip, before, after, op)
    ensures Sane(builtin, fold, after)
  {
    hide Assigned, ProperName, Apart, Known;
    var was, now := Known(builtin, before.mine), Known(builtin, after.mine);
    match op {
      case Create(value) =>
        assert now.Keys == was.Keys + {strip(value)};
        ApartAdded(fold, was.Keys, strip(value));
      case Assign(n, kind, item, on) =>
      case Rename(n, to) =>
        assert now.Keys == was.Keys - {n} + {strip(to)};
        ApartAmong(fold, was.Keys, was.Keys - {n});
        ApartAdded(fold, was.Keys - {n}, strip(to));
      case Delete(n) =>
        assert now.Keys == was.Keys - {n};
        ApartAmong(fold, was.Keys, was.Keys - {n});
      case Reset(n) =>
        assert n in was by { assert n in Known(builtin, before.mine) by { BuiltinIsKnown(builtin, before.mine, n); } }
        assert now.Keys == was.Keys;
    }
  }

  lemma ApartAdded(fold: string -> string, names: set<string>, name: string)
    requires Apart(fold, names + {DEFAULT}) && Unused(fold, name, names)
    ensures Apart(fold, names + {name} + {DEFAULT}) && name != DEFAULT
  {
  }

  lemma ApartAmong(fold: string -> string, names: set<string>, fewer: set<string>)
    requires Apart(fold, names + {DEFAULT}) && fewer <= names
    ensures Apart(fold, fewer + {DEFAULT})
  {
  }

  lemma BuiltinIsKnown(builtin: map<string, Entry>, mine: map<string, Entry>, name: string)
    requires name in builtin
    ensures name in Known(builtin, mine)
  {
  }

  // No edit loses a built-in preset, and all but Assign and Reset leave what it holds alone.
  lemma BuiltinsStay(builtin: map<string, Entry>, fold: string -> string, strip: string -> string, before: Data,
                     after: Data, op: Op, name: string)
    requires Sane(builtin, fold, before) && Allowed(builtin, fold, strip, before.mine, op)
    requires Effect(builtin, fold, strip, before, after, op)
    requires name in builtin
    ensures name in Known(builtin, after.mine)
    ensures !(op.Assign? && op.preset == name) && !(op.Reset? && op.preset == name) ==>
              Known(builtin, after.mine)[name] == Known(builtin, before.mine)[name]
  {
  }

  // Editing a built-in preset and resetting it is as if it was never edited.
  lemma ResetUndoesAssign(builtin: map<string, Entry>, fold: string -> string, strip: string -> string, d0: Data,
                          d1: Data, d2: Data, name: string, kind: Kind, item: string, on: bool)
    requires name in builtin && name !in d0.mine && name != DEFAULT
    requires Allowed(builtin, fold, strip, d0.mine, Assign(name, kind, item, on))
    requires Effect(builtin, fold, strip, d0, d1, Assign(name, kind, item, on))
    requires Allowed(builtin, fold, strip, d1.mine, Reset(name))
    requires Effect(builtin, fold, strip, d1, d2, Reset(name))
    ensures Known(builtin, d2.mine) == Known(builtin, d0.mine) && d2.active == d0.active
  {
    var k0, k1, k2 := Known(builtin, d0.mine), Known(builtin, d1.mine), Known(builtin, d2.mine);
    assert k2.Keys == k1.Keys == k0.Keys;
    forall m <- k0
      ensures k2[m] == k0[m]
    {
    }
  }

  // _read_user, of a file that can be read
  function DataOf(file: File): Data
    requires !file.Invalid?
  {
    if file.Saved? then file.data else Data(DEFAULT, map[])
  }

  // ---- the editor ------------------------------------------------------------------------------------------

  class Editor {
    const builtin: map<string, Entry>
    const fold: string -> string
    const strip: string -> string
    var file: File

    function Read(): Data
      reads this
      requires !file.Invalid?
    {
      DataOf(file)
    }

    ghost predicate Valid()
      reads this
    {
      !file.Invalid? ==> Sane(builtin, fold, Read())
    }

    constructor (builtin: map<string, Entry>, fold: string -> string, strip: string -> string)
      requires Apart(fold, builtin.Keys + {DEFAULT}) && DEFAULT !in builtin
      ensures Valid() && file == Missing
      ensures this.builtin == builtin && this.fold == fold && this.strip == strip
    {
      this.builtin, this.fold, this.strip := builtin, fold, strip;
      file := Missing;
      new;
      assert Known(builtin, map[]) == builtin;
    }

    // The choice for the next session. Without a revision it changes nothing but the choice.
    method SetActive(name: string, expected: Option<File>) returns (ok: bool)
      requires Valid()
      modifies this
      ensures Valid()
      ensures ok <==> !old(file).Invalid? && (expected.Some? ==> expected.value == old(file)) &&
                      (name == DEFAULT || name in builtin ||
                       (name in old(Read()).mine && old(Read()).mine[name].Lists?))
      ensures ok ==> file == Saved(old(Read()).(active := name), 0)
      ensures !ok ==> file == old(file)
    {
      if file.Invalid? || (expected.Some? && expected.value != file) {
        return false;
      }
      var data := Read();
      if name != DEFAULT && name !in Usable(builtin, data.mine) {
        return false;
      }
      file := Saved(data.(active := name), 0);
      ok := true;
    }

    // An edit is made exactly when the caller saw the file as it is and the edit is allowed; otherwise the file is
    // untouched.
    method Edit(op: Op, expected: Option<File>) returns (r: Result<string>)
      requires Valid()
      modifies this
      ensures Valid()
      ensures r.Ok? <==> !old(file).Invalid? && expected == Some(old(file)) &&
                         Allowed(builtin, fold, strip, old(Read()).mine, op)
      ensures r.Ok? ==> file.Saved? && file.layout == 0 && Effect(builtin, fold, strip, old(Read()), file.data, op)
      // the answer is the name the preset has, or had, when it is gone
      ensures r.Ok? ==> r.value == match op case Create(value) => strip(value) case Rename(_, to) => strip(to)
                                            case _ => op.preset
      ensures r.Err? ==> file == old(file)
    {
      hide Sane;
      if expected.None? || file.Invalid? || expected.value != file {
        return Err;
      }
      var data := Read();
      r := Change(data.mine, data.active, op);
    }

    // The change itself, on the owner's entries and the choice.
    method Change(mine: map<string, Entry>, active: string, op: Op) returns (r: Result<string>)
      requires Sane(builtin, fold, Data(active, mine))
      modifies `file
      ensures r.Ok? <==> Allowed(builtin, fold, strip, mine, op)
      ensures r.Ok? ==> file.Saved? && file.layout == 0 && Effect(builtin, fold, strip, Data(active, mine), file.data, op)
      ensures r.Ok? ==> Sane(builtin, fold, file.data)
      ensures r.Ok? ==> r.value == match op case Create(value) => strip(value) case Rename(_, to) => strip(to)
                                            case _ => op.preset
      ensures r.Err? ==> file == old(file)
    {
      hide Effect, Sane, Without, ProperName, Unused, Usable;
      var known := Known(builtin, mine);
      var mine1, active1 := mine, active;
      if op.Create? {
        var name := strip(op.value);
        if !ProperName(name) || !Unused(fold, name, known.Keys) {
          return Err;
        }
        mine1 := mine[name := Lists([], [], [], [])];
        CreateWorks(builtin, fold, strip, mine, active, op.value);
        r := Ok(name);
      } else {
        var name := op.preset;
        if name == DEFAULT || name !in known {
          return Err;
        }
        r := Ok(name);
        match op {
          case Assign(_, kind, item, on) =>
            if !(0 < |item| <= MAX_ITEM) || known[name].Malformed? {
              return Err;
            }
            var kept := Without(fold, Get(known[name], kind), item);
            mine1 := mine[name := With(known[name], kind, kept + if on then [item] else [])];
            AssignWorks(builtin, fold, strip, mine, active, name, kind, item, on);
          case Rename(_, to) =>
            if name in builtin {
              return Err;
            }
            var renamed := strip(to);
            if !ProperName(renamed) || !Unused(fold, renamed, known.Keys - {name}) {
              return Err;
            }
            mine1 := (mine - {name})[renamed := mine[name]];
            if active == name {
              active1 := renamed;
            }
            RenameWorks(builtin, fold, strip, mine, active, name, to);
            r := Ok(renamed);
          case Delete(_) =>
            if name in builtin {
              return Err;
            }
            mine1 := mine - {name};
            if active == name {
              active1 := DEFAULT;
            }
            DropWorks(builtin, fold, strip, mine, active, name, op);
          case Reset(_) =>
            if !(name in builtin && name in mine) {
              return Err;
            }
            mine1 := mine - {name};
            DropWorks(builtin, fold, strip, mine, active, name, op);
        }
      }
      EffectKeepsSane(builtin, fold, strip, Data(active, mine), Data(active1, mine1), op);
      file := Saved(Data(active1, mine1), 0);
    }
  }

  // ---- whole runs ------------------------------------------------------------------------------------------

  // An edit, or a choice, with the revision its caller saw.
  datatype Command = Editing(op: Op, seen: Option<File>) | Choosing(name: string, seen: Option<File>)

  // When a command is accepted: the file is the one its caller saw, and it is allowed there.
  predicate Accepts(builtin: map<string, Entry>, fold: string -> string, strip: string -> string, c: Command,
                    before: File)
  {
    && !before.Invalid?
    && match c
       case Editing(op, seen) => seen == Some(before) && Allowed(builtin, fold, strip, DataOf(before).mine, op)
       case Choosing(name, seen) =>
         && (seen.Some? ==> seen.value == before)
         && (name == DEFAULT || name in builtin || (name in DataOf(before).mine && DataOf(before).mine[name].Lists?))
  }

  // What a command makes of the file: nothing when it is refused, else what it says.
  ghost predicate Follows(builtin: map<string, Entry>, fold: string -> string, strip: string -> string, c: Command,
                          accepted: bool, before: File, after: File)
  {
    && (accepted <==> Accepts(builtin, fold, strip, c, before))
    && (!accepted ==> after == before)
    && (accepted ==>
          && !after.Invalid?
          && match c
             case Editing(op, _) => Effect(builtin, fold, strip, DataOf(before), DataOf(after), op)
             case Choosing(name, _) => DataOf(after) == DataOf(before).(active := name))
  }

  ghost predicate Sound(builtin: map<string, Entry>, fold: string -> string, file: File) {
    && !file.Invalid? && Sane(builtin, fold, DataOf(file))
    && forall name <- builtin :: name in Known(builtin, DataOf(file).mine)
  }

  // From no file at all, any edits and choices with any revisions: the choice and the names stay sound and the built-ins
  // there in every file on the way, and no accepted command works on a file its caller did not see.
  method Run(builtin: map<string, Entry>, fold: string -> string, strip: string -> string, commands: seq<Command>)
    returns (accepted: seq<bool>, files: seq<File>)
    requires Apart(fold, builtin.Keys + {DEFAULT}) && DEFAULT !in builtin
    ensures |accepted| == |commands| && |files| == |commands| + 1 && files[0] == Missing
    ensures forall i :: 0 <= i < |files| ==> Sound(builtin, fold, files[i])
    ensures forall i :: 0 <= i < |commands| ==>
              Follows(builtin, fold, strip, commands[i], accepted[i], files[i], files[i + 1])
  {
    hide Sane, Allowed, Effect, Apart, Known, Usable;
    var editor := new Editor(builtin, fold, strip);
    accepted, files := [], [editor.file];
    IsSound(builtin, fold, editor.file);
    for i := 0 to |commands|
      invariant fresh(editor) && editor.Valid() && editor.builtin == builtin && editor.fold == fold && editor.strip == strip
      invariant |accepted| == i && |files| == i + 1 && files[0] == Missing && files[i] == editor.file
      invariant forall k :: 0 <= k <= i ==> Sound(builtin, fold, files[k])
      invariant forall k :: 0 <= k < i ==>
                  Follows(builtin, fold, strip, commands[k], accepted[k], files[k], files[k + 1])
    {
      var ok := Obey(editor, commands[i]);
      IsSound(builtin, fold, editor.file);
      accepted, files := accepted + [ok], files + [editor.file];
    }
  }

  lemma IsSound(builtin: map<string, Entry>, fold: string -> string, file: File)
    requires !file.Invalid? && Sane(builtin, fold, DataOf(file))
    ensures Sound(builtin, fold, file)
  {
  }

  method Obey(editor: Editor, c: Command) returns (ok: bool)
    requires editor.Valid() && !editor.file.Invalid?
    modifies editor
    ensures editor.Valid() && !editor.file.Invalid?
    ensures Follows(editor.builtin, editor.fold, editor.strip, c, ok, old(editor.file), editor.file)
  {
    hide Sane, Allowed, Effect, Apart, Known, Usable;
    match c {
      case Editing(op, seen) =>
        var r := editor.Edit(op, seen);
        ok := r.Ok?;
      case Choosing(name, seen) =>
        ok := editor.SetActive(name, seen);
    }
  }

  // Of two edits made from the same sight of the file the later is accepted only if the file is as it was then.
  lemma NothingIsOverwritten(builtin: map<string, Entry>, fold: string -> string, strip: string -> string,
                             commands: seq<Command>, accepted: seq<bool>, files: seq<File>, i: nat, j: nat)
    requires |accepted| == |commands| && |files| == |commands| + 1 && i < j < |commands|
    requires forall k :: 0 <= k < |commands| ==>
               Follows(builtin, fold, strip, commands[k], accepted[k], files[k], files[k + 1])
    requires commands[i].Editing? && commands[j].Editing? && commands[i].seen == commands[j].seen
    ensures accepted[i] && accepted[j] ==> files[j] == files[i]
    ensures accepted[i] && files[j] != files[i] ==> !accepted[j] && files[j + 1] == files[j]
  {
    hide Allowed, Effect;
    assert Follows(builtin, fold, strip, commands[i], accepted[i], files[i], files[i + 1]);
    assert Follows(builtin, fold, strip, commands[j], accepted[j], files[j], files[j + 1]);
  }
}
