/**
 * `FunctionObject._build`: the table of formatter functions loaded once from
 * the definitions file, and the map from argument name and position to
 * the value given for it.
 */
module Catalog {
  import opened Wrappers
  import opened Errors
  import opened Strings

  /** The `name` entry of a definitions group: a single string or a list of strings. */
  datatype NameField = OneName(name: string) | NameList(names: seq<string>)

  /** One group of the definitions file: its names and its raw argument descriptors ([] when absent). */
  datatype RawGroup = RawGroup(names: NameField, args: seq<string>)

  /** A table entry: the main name and the argument descriptors, each `[name, kind, ...]`. */
  datatype FunctionDef = FunctionDef(id: string, args: seq<seq<string>>)

  type Definitions = map<string, FunctionDef>

  /** Arguments are stored under their declared name and under their position. */
  datatype ArgKey = Named(name: string) | Pos(index: nat)

  /** A checked function call: its main name and every declared argument's value or None. */
  datatype Func = Func(name: string, args: map<ArgKey, Option<string>>)

  /** `[a.strip() for a in parts]` */
  function StripAll(parts: seq<string>): (r: seq<string>)
    ensures |r| == |parts|
    ensures forall k :: 0 <= k < |r| ==> r[k] == Strip(parts[k])
  {
    seq(|parts|, k requires 0 <= k < |parts| => Strip(parts[k]))
  }

  /**
   * The comma-separated fields of a raw name or descriptor, stripped: one more
   * than the commas, each free of commas and of surrounding whitespace.
   */
  function Fields(raw: string): (r: seq<string>)
    ensures |r| == Count(raw, ',') + 1
    ensures forall k :: 0 <= k < |r| ==> ',' !in r[k] && IsStripped(r[k])
  {
    StripAllFacts(raw, ',');
    StripAll(Split(raw, ','))
  }

  /** Stripping keeps the pieces of a split free of the separator and leaves no whitespace at their ends. */
  lemma StripAllFacts(s: string, c: char)
    ensures forall k :: 0 <= k < |Split(s, c)| ==>
      c !in StripAll(Split(s, c))[k] && IsStripped(StripAll(Split(s, c))[k])
  {
    var parts := Split(s, c);
    SplitPiecesAvoidSeparator(s, c);
    forall k | 0 <= k < |parts|
      ensures c !in StripAll(parts)[k] && IsStripped(StripAll(parts)[k])
    {
      StripSpec(parts[k]);
    }
  }

  /** The fields of each raw text: the alias lists of a group's names, or its argument descriptors. */
  function FieldLists(raws: seq<string>): (r: seq<seq<string>>)
    ensures |r| == |raws|
    ensures forall k :: 0 <= k < |r| ==> r[k] == Fields(raws[k])
  {
    seq(|raws|, k requires 0 <= k < |raws| => Fields(raws[k]))
  }

  /** A single name is treated as a one-element list. */
  function RawNames(f: NameField): seq<string> {
    match f
    case OneName(n) => [n]
    case NameList(ns) => ns
  }

  /** Each alias in turn is bound to `def`. */
  function Register(m: Definitions, aliases: seq<string>, def: FunctionDef): Definitions
    decreases |aliases|
  {
    if aliases == [] then m
    else Register(m, aliases[..|aliases| - 1], def)[aliases[|aliases| - 1] := def]
  }

  /** A group once read: the alias list of each of its names, and its descriptors. */
  datatype GroupDef = GroupDef(aliasLists: seq<seq<string>>, args: seq<seq<string>>)

  function ReadGroup(g: RawGroup): GroupDef {
    GroupDef(FieldLists(RawNames(g.names)), FieldLists(g.args))
  }

  function ReadGroups(groups: seq<RawGroup>): (r: seq<GroupDef>)
    ensures |r| == |groups|
    ensures forall i :: 0 <= i < |r| ==> r[i] == ReadGroup(groups[i])
  {
    seq(|groups|, i requires 0 <= i < |groups| => ReadGroup(groups[i]))
  }

  /**
   * Each alias list in turn binds all of its aliases to its first alias and the
   * group's descriptors (a list is never empty, since `split` never returns []).
   */
  function AddNames(m: Definitions, lists: seq<seq<string>>, args: seq<seq<string>>): Definitions
    decreases |lists|
  {
    if lists == [] then m
    else
      var prev := AddNames(m, lists[..|lists| - 1], args);
      var aliases := lists[|lists| - 1];
      if aliases == [] then prev else Register(prev, aliases, FunctionDef(aliases[0], args))
  }

  /** The table built from the groups read, in file order. */
  function Table(defs: seq<GroupDef>): Definitions
    decreases |defs|
  {
    if defs == [] then map[]
    else
      var g := defs[|defs| - 1];
      AddNames(Table(defs[..|defs| - 1]), g.aliasLists, g.args)
  }

  /** The table the definitions file yields. */
  function Load(groups: seq<RawGroup>): Definitions {
    Table(ReadGroups(groups))
  }

  /** Registering binds exactly the aliases to `def` and leaves every other entry alone. */
  lemma {:induction false} RegisterAt(m: Definitions, aliases: seq<string>, def: FunctionDef, k: string)
    ensures k in Register(m, aliases, def) <==> k in m || k in aliases
    ensures k in aliases ==> Register(m, aliases, def)[k] == def
    ensures k in m && k !in aliases ==> Register(m, aliases, def)[k] == m[k]
    decreases |aliases|
  {
    if aliases != [] {
      var n := |aliases| - 1;
      RegisterAt(m, aliases[..n], def, k);
      assert aliases == aliases[..n] + [aliases[n]];
    }
  }

  /** A key is in the table after the names are added iff it was before or some alias list has it. */
  lemma {:induction false} AddNamesHas(m: Definitions, lists: seq<seq<string>>, args: seq<seq<string>>, k: string)
    ensures k in AddNames(m, lists, args) <==> k in m || exists j :: 0 <= j < |lists| && k in lists[j]
    decreases |lists|
  {
    if lists != [] {
      var n := |lists| - 1;
      var aliases := lists[n];
      AddNamesHas(m, lists[..n], args, k);
      if aliases != [] {
        RegisterAt(AddNames(m, lists[..n], args), aliases, FunctionDef(aliases[0], args), k);
      }
      if exists j :: 0 <= j < |lists| && k in lists[j] {
        var j :| 0 <= j < |lists| && k in lists[j];
        if j < n {
          assert lists[..n][j] == lists[j];
        }
      }
    }
  }

  /** An alias maps to the entry of the LAST alias list that has it, whose first alias is the id. */
  lemma {:induction false} AddNamesLatest(m: Definitions, lists: seq<seq<string>>, args: seq<seq<string>>, k: string, j: nat)
    requires j < |lists| && k in lists[j]
    requires forall j' :: j < j' < |lists| ==> k !in lists[j']
    ensures k in AddNames(m, lists, args)
    ensures AddNames(m, lists, args)[k] == FunctionDef(lists[j][0], args)
    decreases |lists|
  {
    var n := |lists| - 1;
    var aliases := lists[n];
    if aliases != [] {
      RegisterAt(AddNames(m, lists[..n], args), aliases, FunctionDef(aliases[0], args), k);
    }
    if j < n {
      AddNamesLatest(m, lists[..n], args, k, j);
    }
  }

  /** A key no alias list has keeps its old entry. */
  lemma {:induction false} AddNamesKeeps(m: Definitions, lists: seq<seq<string>>, args: seq<seq<string>>, k: string)
    requires k in m && forall j :: 0 <= j < |lists| ==> k !in lists[j]
    ensures k in AddNames(m, lists, args) && AddNames(m, lists, args)[k] == m[k]
    decreases |lists|
  {
    if lists != [] {
      var n := |lists| - 1;
      var aliases := lists[n];
      AddNamesKeeps(m, lists[..n], args, k);
      if aliases != [] {
        RegisterAt(AddNames(m, lists[..n], args), aliases, FunctionDef(aliases[0], args), k);
      }
    }
  }

  /** Every alias of every name of every group is in the table. */
  lemma {:induction false} TableCovers(defs: seq<GroupDef>, i: nat, j: nat, k: string)
    requires i < |defs| && j < |defs[i].aliasLists| && k in defs[i].aliasLists[j]
    ensures k in Table(defs)
    decreases |defs|
  {
    var n := |defs| - 1;
    AddNamesHas(Table(defs[..n]), defs[n].aliasLists, defs[n].args, k);
    if i < n {
      TableCovers(defs[..n], i, j, k);
    }
  }

  /**
   * Every entry comes from a name that lists its key: its id is that name's
   * first alias and its descriptors are that group's.
   */
  lemma {:induction false} TableEntriesFromNames(defs: seq<GroupDef>, k: string)
    requires k in Table(defs)
    ensures exists i, j ::
      && 0 <= i < |defs| && 0 <= j < |defs[i].aliasLists| && k in defs[i].aliasLists[j]
      && Table(defs)[k] == FunctionDef(defs[i].aliasLists[j][0], defs[i].args)
    decreases |defs|
  {
    var n := |defs| - 1;
    var prev := Table(defs[..n]);
    var lists := defs[n].aliasLists;
    AddNamesHas(prev, lists, defs[n].args, k);
    if exists j :: 0 <= j < |lists| && k in lists[j] {
      var j :| 0 <= j < |lists| && k in lists[j];
      while exists j' :: j < j' < |lists| && k in lists[j']
        invariant 0 <= j < |lists| && k in lists[j]
        decreases |lists| - j
      {
        var next :| j < next < |lists| && k in lists[next];
        j := next;
      }
      AddNamesLatest(prev, lists, defs[n].args, k, j);
    } else {
      AddNamesKeeps(prev, lists, defs[n].args, k);
      TableEntriesFromNames(defs[..n], k);
      var i, j :|
        && 0 <= i < n && 0 <= j < |defs[..n][i].aliasLists| && k in defs[..n][i].aliasLists[j]
        && prev[k] == FunctionDef(defs[..n][i].aliasLists[j][0], defs[..n][i].args);
    }
  }

  /** A later group overrides an earlier one for the keys it lists, and only for those. */
  lemma TableLaterGroupWins(defs: seq<GroupDef>, g: GroupDef, k: string)
    requires k in Table(defs) && forall j :: 0 <= j < |g.aliasLists| ==> k !in g.aliasLists[j]
    ensures k in Table(defs + [g]) && Table(defs + [g])[k] == Table(defs)[k]
  {
    assert (defs + [g])[..|defs|] == defs;
    AddNamesKeeps(Table(defs), g.aliasLists, g.args, k);
  }

  /** The number of descriptors whose kind is `man` (mandatory). */
  function Mandatory(descs: seq<seq<string>>): (n: nat)
    requires forall k :: 0 <= k < |descs| ==> |descs[k]| >= 2
    ensures n <= |descs|
    decreases |descs|
  {
    if descs == [] then 0
    else Mandatory(descs[..|descs| - 1]) + (if descs[|descs| - 1][1] == "man" then 1 else 0)
  }

  /** The value given for position `i`, or None when fewer were given. */
  function GivenAt(given: seq<string>, i: nat): Option<string> {
    if i < |given| then Some(given[i]) else None
  }

  /** The argument map: each descriptor's name and position bound to its value, later names winning. */
  function ArgMap(descs: seq<seq<string>>, given: seq<string>): map<ArgKey, Option<string>>
    requires forall k :: 0 <= k < |descs| ==> |descs[k]| >= 1
    decreases |descs|
  {
    if descs == [] then map[]
    else
      var n := |descs| - 1;
      ArgMap(descs[..n], given)[Named(descs[n][0]) := GivenAt(given, n)][Pos(n) := GivenAt(given, n)]
  }

  /** Every declared position is present and holds the given value or None. */
  lemma {:induction false} ArgMapPositions(descs: seq<seq<string>>, given: seq<string>)
    requires forall k :: 0 <= k < |descs| ==> |descs[k]| >= 1
    ensures forall i :: 0 <= i < |descs| ==>
      Pos(i) in ArgMap(descs, given) && ArgMap(descs, given)[Pos(i)] == GivenAt(given, i)
    decreases |descs|
  {
    if descs != [] {
      var n := |descs| - 1;
      ArgMapPositions(descs[..n], given);
    }
  }

  /** A declared name holds the value of the last descriptor with that name. */
  lemma {:induction false} ArgMapNames(descs: seq<seq<string>>, given: seq<string>, i: nat)
    requires forall k :: 0 <= k < |descs| ==> |descs[k]| >= 1
    requires i < |descs| && forall j :: i < j < |descs| ==> descs[j][0] != descs[i][0]
    ensures Named(descs[i][0]) in ArgMap(descs, given)
    ensures ArgMap(descs, given)[Named(descs[i][0])] == GivenAt(given, i)
    decreases |descs|
  {
    var n := |descs| - 1;
    if i < n {
      assert descs[..n][i] == descs[i];
      forall j | i < j < n ensures descs[..n][j][0] != descs[..n][i][0] {
        assert descs[..n][j] == descs[j];
      }
      ArgMapNames(descs[..n], given, i);
    }
  }

  /** No key is present but the declared names and positions. */
  lemma {:induction false} ArgMapKeys(descs: seq<seq<string>>, given: seq<string>, key: ArgKey)
    requires forall k :: 0 <= k < |descs| ==> |descs[k]| >= 1
    requires key in ArgMap(descs, given)
    ensures key.Pos? ==> key.index < |descs|
    ensures key.Named? ==> exists i :: 0 <= i < |descs| && descs[i][0] == key.name
    decreases |descs|
  {
    var n := |descs| - 1;
    if key != Pos(n) && key != Named(descs[n][0]) {
      ArgMapKeys(descs[..n], given, key);
      if key.Named? {
        var i :| 0 <= i < n && descs[..n][i][0] == key.name;
        assert descs[..n][i] == descs[i];
      }
    }
  }

  /** The descriptors have a kind wherever `_build` reads one. */
  predicate HasKinds(descs: seq<seq<string>>) {
    forall k :: 0 <= k < |descs| ==> |descs[k]| >= 2
  }

  /**
   * `FunctionObject(name, given)` against the table `defs`: the unknown-name,
   * missing-kind, too-many and too-few errors, in the order the code raises them.
   */
  function BuildFunction(defs: Definitions, name: string, given: seq<string>): (r: Result<Func, Error>)
    ensures name !in defs ==> r == Err(UnknownFunction(name))
    ensures r.Ok? <==>
      name in defs && HasKinds(defs[name].args) && Mandatory(defs[name].args) <= |given| <= |defs[name].args|
    ensures name in defs && HasKinds(defs[name].args) && |given| > |defs[name].args| ==>
      r == Err(TooManyArgs(defs[name].id, |defs[name].args|, |given|))
    ensures name in defs && HasKinds(defs[name].args) && |given| < Mandatory(defs[name].args) ==>
      r == Err(TooFewArgs(defs[name].id, Mandatory(defs[name].args), |given|))
    ensures r.Ok? ==> r.value.name == defs[name].id
    ensures r.Ok? ==> HasKinds(defs[name].args) && r.value.args == ArgMap(defs[name].args, given)
  {
    if name !in defs then Err(UnknownFunction(name))
    else
      var d := defs[name];
      if !HasKinds(d.args) then Err(MalformedArgDescriptor(d.id))
      else if |given| > |d.args| then Err(TooManyArgs(d.id, |d.args|, |given|))
      else if |given| < Mandatory(d.args) then Err(TooFewArgs(d.id, Mandatory(d.args), |given|))
      else Ok(Func(d.id, ArgMap(d.args, given)))
  }

  /** The table cache shared by every function object, filled on first use. */
  class FunctionCatalog {
    const groups: seq<RawGroup>
    var defs: Option<Definitions>

    ghost predicate Valid()
      reads this
    {
      defs.Some? ==> defs.value == Load(groups)
    }

    constructor (groups: seq<RawGroup>)
      ensures Valid() && this.groups == groups && defs == None
    {
      this.groups := groups;
      defs := None;
    }

    /** Reads the groups in order; later groups and later names override earlier ones. */
    static method LoadDefinitions(groups: seq<RawGroup>) returns (defs: Definitions)
      ensures defs == Load(groups)
    {
      defs := map[];
      ghost var read := ReadGroups(groups);
      for i := 0 to |groups|
        invariant defs == Table(read[..i])
      {
        var g := groups[i];
        var args := ReadArgs(g.args);
        var names := RawNames(g.names);
        assert read[i] == GroupDef(FieldLists(names), args);
        TableSnoc(read, i);
        defs := AddNamesOf(defs, names, args);
      }
      assert read[..|groups|] == read;
    }

    /** The table of one more group is the previous table with that group's names added. */
    static lemma TableSnoc(read: seq<GroupDef>, i: nat)
      requires i < |read|
      ensures Table(read[..i + 1]) == AddNames(Table(read[..i]), read[i].aliasLists, read[i].args)
    {
      assert read[..i + 1][..i] == read[..i];
    }

    /** `args.append([a.strip() for a in raw_arg.split(',')])` for each raw argument. */
    static method ReadArgs(rawArgs: seq<string>) returns (args: seq<seq<string>>)
      ensures args == FieldLists(rawArgs)
    {
      args := [];
      for a := 0 to |rawArgs|
        invariant args == FieldLists(rawArgs[..a])
      {
        args := args + [StripAll(Split(rawArgs[a], ','))];
      }
      assert rawArgs[..|rawArgs|] == rawArgs;
    }

    /** Binds every alias of every raw name to the raw name's first alias. */
    static method AddNamesOf(m: Definitions, names: seq<string>, args: seq<seq<string>>) returns (defs: Definitions)
      ensures defs == AddNames(m, FieldLists(names), args)
    {
      defs := m;
      ghost var lists := FieldLists(names);
      for j := 0 to |names|
        invariant defs == AddNames(m, lists[..j], args)
      {
        var allowed := Fields(names[j]);
        AddNamesSnoc(m, lists, j, args);
        defs := RegisterAll(defs, allowed, FunctionDef(allowed[0], args));
      }
      assert lists[..|names|] == lists;
    }

    /** Taking one more alias list registers its aliases on top of the earlier ones. */
    static lemma AddNamesSnoc(m: Definitions, lists: seq<seq<string>>, j: nat, args: seq<seq<string>>)
      requires j < |lists| && lists[j] != []
      ensures AddNames(m, lists[..j + 1], args)
           == Register(AddNames(m, lists[..j], args), lists[j], FunctionDef(lists[j][0], args))
    {
      assert lists[..j + 1][..j] == lists[..j];
    }

    /** The alias loop of `_load_definitions`: every alias bound to `def`, in order. */
    static method RegisterAll(start: Definitions, aliases: seq<string>, def: FunctionDef) returns (defs: Definitions)
      ensures defs == Register(start, aliases, def)
    {
      defs := start;
      for t := 0 to |aliases|
        invariant defs == Register(start, aliases[..t], def)
      {
        assert aliases[..t + 1][..t] == aliases[..t];
        defs := defs[aliases[t] := def];
      }
      assert aliases[..|aliases|] == aliases;
    }

    /** The argument loop of `_build`: every descriptor's name and position bound to its value. */
    static method MapArgs(descs: seq<seq<string>>, given: seq<string>) returns (args: map<ArgKey, Option<string>>)
      requires HasKinds(descs)
      ensures args == ArgMap(descs, given)
    {
      args := map[];
      for index := 0 to |descs|
        invariant args == ArgMap(descs[..index], given)
      {
        assert descs[..index + 1][..index] == descs[..index];
        var value := if index < |given| then Some(given[index]) else None;
        args := args[Named(descs[index][0]) := value][Pos(index) := value];
      }
      assert descs[..|descs|] == descs;
    }

    /** `FunctionObject(name, given)`: loads the table on first use, then checks and maps the arguments. */
    method Build(name: string, given: seq<string>) returns (res: Result<Func, Error>)
      requires Valid()
      modifies this
      ensures Valid() && defs == Some(Load(groups))
      ensures res == BuildFunction(Load(groups), name, given)
    {
      if defs.None? {
        var loaded := LoadDefinitions(groups);
        defs := Some(loaded);
      }
      var table := defs.value;
      if name !in table {
        return Err(UnknownFunction(name));
      }
      var d := table[name];
      var n := |given|;
      var allowed := |d.args|;
      if !HasKinds(d.args) {
        return Err(MalformedArgDescriptor(d.id));
      }
      var mandatory := Mandatory(d.args);
      if n > allowed {
        return Err(TooManyArgs(d.id, allowed, n));
      }
      if n < mandatory {
        return Err(TooFewArgs(d.id, mandatory, n));
      }
      var args := MapArgs(d.args, given);
      res := Ok(Func(d.id, args));
    }
  }
}
