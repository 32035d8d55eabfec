/**
 Losses of the compiler that can be seen at one object of a schema, each with its exact condition and for any shape
 of what stands around it: required names, keywords beside a reference, constants and enumerations, and
 properties whose names a dialect is not told.
 */
module SchemaLosses {
  import opened Wrappers
  import opened ProviderSchema
  import opened SchemaProjection
  import opened SchemaMeaning
  import opened SchemaDirections

  /** Some instance passes the compiled schema and not its source. */
  ghost predicate AcceptsMore(p: Json, s: Json, depth: nat, holds: Assertions)
    requires s.Obj?
  {
    exists x: Json :: AcceptsCompiled(p, x, holds) && !Accepts(s, x, Canonical, DefinitionsIn(s), depth, holds)
  }

  // ----- what the key loop writes -----

  /** Some kept member of the source is written under this name. */
  predicate NameKept(members: seq<Member>, name: Text, d: Dialect) {
    exists i | 0 <= i < |members| :: Writes(members[i], name, d)
  }

  predicate Writes(m: Member, name: Text, d: Dialect) {
    !Dropped(m.key, d) && ImageKey(m.key) == name
  }

  predicate LastWrite(members: seq<Member>, i: nat, name: Text, d: Dialect) {
    i < |members| && Writes(members[i], name, d) && forall k | i < k < |members| :: !Writes(members[k], name, d)
  }

  /** What one member writes. */
  function ImageOf(m: Member, d: Dialect, defs: Definitions, stack: set<string>): Json
    requires Project(m.value, d, defs, stack).Ok?
  {
    var value := Project(m.value, d, defs, stack).value;
    if m.key == Const then Arr([value]) else value
  }

  lemma NameKeptPrefix(members: seq<Member>, name: Text, d: Dialect)
    requires members != []
    ensures NameKept(members, name, d)
            <==> NameKept(members[..|members| - 1], name, d) || Writes(members[|members| - 1], name, d)
  {
    var n := |members| - 1;
    if NameKept(members, name, d) && !Writes(members[n], name, d) {
      var i :| 0 <= i < |members| && Writes(members[i], name, d);
      assert Writes(members[..n][i], name, d);
    }
    if NameKept(members[..n], name, d) {
      var i :| 0 <= i < n && Writes(members[..n][i], name, d);
      assert Writes(members[i], name, d);
    }
  }

  /** One pass of the loop. */
  lemma LastEntry(members: seq<Member>, d: Dialect, defs: Definitions, stack: set<string>, projected: seq<Member>)
    returns (before: seq<Member>)
    requires members != [] && ProjectMembers(members, d, defs, stack) == Ok(projected)
    ensures ProjectMembers(members[..|members| - 1], d, defs, stack) == Ok(before)
    ensures
      var last := members[|members| - 1];
      if Dropped(last.key, d) then projected == before
      else
        && Project(last.value, d, defs, stack).Ok?
        && projected == Put(before, ImageKey(last.key), ImageOf(last, d, defs, stack))
  {
    before := ProjectMembers(members[..|members| - 1], d, defs, stack).value;
  }

  /**
   The projected dictionary has exactly the names that some kept member writes, and under each of them what the
   last such member wrote, wherever it stands and whatever its value.
   */
  lemma {:induction false} LastWriteWins(members: seq<Member>, d: Dialect, defs: Definitions, stack: set<string>,
                                         projected: seq<Member>, i: nat, name: Text)
    requires ProjectMembers(members, d, defs, stack) == Ok(projected)
    ensures UniqueKeys(projected) && (HasKey(projected, name) <==> NameKept(members, name, d))
    ensures LastWrite(members, i, name, d) ==>
              && HasKey(projected, name)
              && Project(members[i].value, d, defs, stack).Ok?
              && Get(projected, name) == ImageOf(members[i], d, defs, stack)
    decreases members
  {
    if members == [] {
      assert projected == [];
    } else {
      var before := LastEntry(members, d, defs, stack, projected);
      LastWriteWins(members[..|members| - 1], d, defs, stack, before, i, name);
      NameKeptPrefix(members, name, d);
      LastWritePrefix(members, i, name, d);
      var last := members[|members| - 1];
      if !Dropped(last.key, d) { PutAt(before, ImageKey(last.key), ImageOf(last, d, defs, stack), name); }
    }
  }

  /** The last write of a list is its last member, or the last write of the rest that this member leaves alone. */
  lemma LastWritePrefix(members: seq<Member>, i: nat, name: Text, d: Dialect)
    requires members != []
    ensures LastWrite(members, i, name, d) <==>
              if i == |members| - 1 then Writes(members[i], name, d)
              else LastWrite(members[..|members| - 1], i, name, d) && !Writes(members[|members| - 1], name, d)
  {
    var n := |members| - 1;
    if i < n && LastWrite(members[..n], i, name, d) && !Writes(members[n], name, d) {
      forall k | i < k < |members| ensures !Writes(members[k], name, d) {
        if k < n { assert members[..n][k] == members[k]; }
      }
    }
    if i < n && LastWrite(members, i, name, d) {
      forall k | i < k < n ensures !Writes(members[..n][k], name, d) {
        assert members[..n][k] == members[k];
      }
    }
  }

  /** One assignment, seen at one name. */
  lemma PutAt(members: seq<Member>, key: Text, value: Json, name: Text)
    requires UniqueKeys(members)
    ensures UniqueKeys(Put(members, key, value))
    ensures HasKey(Put(members, key, value), name) <==> name == key || HasKey(members, name)
    ensures name == key ==> Get(Put(members, key, value), name) == value
    ensures name != key && HasKey(members, name) ==> Get(Put(members, key, value), name) == Get(members, name)
  {
    PutGet(members, key, value);
  }

  /**
   Told by the keywords themselves: definitions and the two keywords of pydantic never survive, five limits do not
   survive for Gemini, const is written as enum, and every other key of the source is kept under its own name.
   */
  lemma KeywordsWritten(members: seq<Member>, d: Dialect, defs: Definitions, stack: set<string>, projected: seq<Member>,
                        name: Text)
    requires ProjectMembers(members, d, defs, stack) == Ok(projected)
    ensures HasKey(projected, name) <==>
              || (name == Enum && HasKey(members, Const))
              || (&& HasKey(members, name) && name !in {Const, Defs, DecimalPlaces, MaxDigits}
                  && !(d == Gemini && name in {Pattern, MinLength, MaxLength, MinItems, MaxItems}))
  {
    LastWriteWins(members, d, defs, stack, projected, 0, name);
    if HasKey(members, name) && Writes(members[IndexOf(members, name)], name, d) {
      assert NameKept(members, name, d);
    }
    if name == Enum && HasKey(members, Const) {
      assert Writes(members[IndexOf(members, Const)], name, d);
    }
  }

  lemma CompileProjects(members: seq<Member>, d: Dialect, p: Json)
    requires Compile(Obj(members), d) == Ok(p)
    ensures p.Obj? && Project(Obj(members), d, DefinitionsIn(Obj(members)), {}) == Ok(p)
  {
  }

  /** The projection of an object, at any depth, is closed and holds no reference. */
  lemma CompiledObject(members: seq<Member>, d: Dialect, defs: Definitions, stack: set<string>, p: Json)
    returns (projected: seq<Member>)
    requires !HasKey(members, Ref) && Project(Obj(members), d, defs, stack) == Ok(p)
    ensures ProjectMembers(members, d, defs, stack) == Ok(projected)
    ensures p == Obj(Close(projected, d)) && UniqueKeys(projected) && !HasKey(p.members, Ref)
    ensures PropertiesOf(p.members) == PropertiesOf(projected) && (HasProperties(p.members) <==> HasProperties(projected))
  {
    projected := ObjectProjection(members, d, defs, stack, p);
    LastWriteWins(members, d, defs, stack, projected, 0, Ref);
    ProjectIsClean(Obj(members), d, defs, stack);
    CleanHasNoReference(p.members, d);
    CloseFacts(projected, d);
    CloseAt(projected, d, Properties);
  }

  lemma CleanHasNoReference(members: seq<Member>, d: Dialect)
    requires Clean(Obj(members), d)
    ensures !HasKey(members, Ref)
  {
    CleanObj(members, d);
  }

  /** Closing adds two names and changes nothing else. */
  lemma CloseAt(projected: seq<Member>, d: Dialect, key: Text)
    requires UniqueKeys(projected)
    ensures
      var closes := d != Gemini && HasProperties(projected) && key in {Required, AdditionalProperties};
      && (HasKey(Close(projected, d), key) <==> HasKey(projected, key) || closes)
      && (HasKey(projected, key) && !closes ==> Get(Close(projected, d), key) == Get(projected, key))
  {
    if d != Gemini && HasProperties(projected) {
      var names := Arr(Names(PropertiesOf(projected)));
      PutGet(projected, Required, names);
      PutGet(Put(projected, Required, names), AdditionalProperties, Bool(false));
    }
  }

  // ----- required names -----

  /**
   For any object schema at any depth: of the objects that its strict projection accepts, a required list of the source
   is met iff it names keys of the projected properties only.
   */
  lemma RequiredKeptIff(members: seq<Member>, required: Json, d: Dialect, defs: Definitions, stack: set<string>, p: Json,
                        x: Json, depth: nat, holds: Assertions)
    requires d != Gemini && !HasKey(members, Ref) && Project(Obj(members), d, defs, stack) == Ok(p)
    requires HasProperties(p.members) && required.Arr? && x.Obj? && AcceptsCompiled(p, x, holds)
    ensures Meets(Required, required, members, x, Canonical, defs, depth, holds)
            <==> NamesAmong(required, PropertiesOf(p.members))
  {
    var projected := CompiledObject(members, d, defs, stack, p);
    CompiledIsExact(projected, x, d, holds);
    ExactNames(x, PropertiesOf(projected), required, members, defs, depth, holds);
  }

  /** Which names those are, read off the source; a dictionary that itself has a properties object is closed, too. */
  lemma CompiledNames(members: seq<Member>, d: Dialect, defs: Definitions, stack: set<string>, p: Json, name: Text)
    requires UniqueKeys(members) && !HasKey(members, Ref) && Project(Obj(members), d, defs, stack) == Ok(p)
    requires HasProperties(members) && !HasKey(PropertiesOf(members), Ref)
    ensures HasProperties(p.members)
    ensures
      var compiled := PropertiesOf(p.members);
      HasKey(compiled, name) <==>
        || NameKept(PropertiesOf(members), name, d)
        || (d != Gemini && HasProperties(compiled) && name in {Required, AdditionalProperties})
  {
    var projected := CompiledObject(members, d, defs, stack, p);
    var i := IndexOf(members, Properties);
    OnlyProperties(members, i, d);
    LastWriteWins(members, d, defs, stack, projected, i, Properties);
    var inner := ObjectProjection(PropertiesOf(members), d, defs, stack, Get(projected, Properties));
    LastWriteWins(PropertiesOf(members), d, defs, stack, inner, 0, name);
    CloseAt(inner, d, name);
    CloseAt(inner, d, Properties);
  }

  lemma OnlyProperties(members: seq<Member>, i: nat, d: Dialect)
    requires UniqueKeys(members) && i < |members| && members[i].key == Properties
    ensures LastWrite(members, i, Properties, d)
  {
    forall k | i < k < |members| ensures members[k].key != Properties {
      assert members[i].key != members[k].key;
    }
  }

  /** A required list of the source that names another key makes the schema weaker, as soon as it accepts some object. */
  lemma RequiredLoses(members: seq<Member>, m: Member, d: Dialect, p: Json, x: Json, depth: nat, holds: Assertions)
    requires d != Gemini && !HasKey(members, Ref) && Compile(Obj(members), d) == Ok(p) && HasProperties(p.members)
    requires m in members && m.key == Required && m.value.Arr? && x.Obj? && AcceptsCompiled(p, x, holds)
    requires !NamesAmong(m.value, PropertiesOf(p.members))
    ensures AcceptsMore(p, Obj(members), depth, holds)
  {
    var defs := DefinitionsIn(Obj(members));
    CompileProjects(members, d, p);
    RequiredKeptIff(members, m.value, d, defs, {}, p, x, depth, holds);
    InMembers(m, members);
    assert !Accepts(Obj(members), x, Canonical, defs, depth, holds);
  }

  /** The members of an object schema give a strict reading nothing to lose. */
  ghost predicate InnerSafe(members: seq<Member>) {
    forall m | m in members && m.value < Obj(members) :: SafeIn(m.key, m.value, Strict)
  }

  /** With nothing else to lose, the schema is weaker iff it accepts some object and requires a name that is not kept. */
  lemma RequiredLostIff(members: seq<Member>, d: Dialect, p: Json, depth: nat, holds: Assertions)
    requires d != Gemini && Compile(Obj(members), d) == Ok(p)
    requires Regular(Obj(members), d) && RegularDefinitions(DefinitionsIn(Obj(members)), d)
    requires depth >= |DefinitionsIn(Obj(members))|
    requires HasProperties(members) && !HasKey(members, Ref) && InnerSafe(members)
    requires forall name | name in DefinitionsIn(Obj(members)) :: Safe(DefinitionsIn(Obj(members))[name], Strict)
    ensures AcceptsMore(p, Obj(members), depth, holds)
            <==> !RootNamed(members) && exists x: Json :: x.Obj? && AcceptsCompiled(p, x, holds)
  {
    var defs := DefinitionsIn(Obj(members));
    forall x: Json | AcceptsCompiled(p, x, holds)
      ensures Accepts(Obj(members), x, Canonical, defs, depth, holds) <==> !x.Obj? || RootNamed(members)
    {
      CompiledMeaning(Obj(members), d, p, x, depth, holds);
      RootIff(members, x, defs, depth, holds);
    }
  }

  lemma RootIff(members: seq<Member>, x: Json, defs: Definitions, depth: nat, holds: Assertions)
    requires HasProperties(members) && !HasKey(members, Ref)
    requires InnerSafe(members) && forall name | name in defs :: Safe(defs[name], Strict)
    requires Accepts(Obj(members), x, Strict, defs, depth, holds)
    ensures Accepts(Obj(members), x, Canonical, defs, depth, holds) <==> !x.Obj? || RootNamed(members)
  {
    if !x.Obj? || RootNamed(members) {
      forall m | m in members && m.value < Obj(members)
        ensures AlongIn(m.key, m.value, members, x, Strict, defs, depth, holds)
      {
        SafeIsAlongIn(m, members, x, Strict, defs, depth, holds);
      }
      AlongAccepts(Obj(members), x, Strict, Canonical, defs, depth, holds);
    }
    if x.Obj? && Accepts(Obj(members), x, Canonical, defs, depth, holds) {
      forall m | m in members && m.key == Required
        ensures NamesAmong(m.value, Visible(PropertiesOf(members), Strict))
      {
        InMembers(m, members);
        if m.value.Arr? { RequiredIff(members, m.value, x, defs, depth, holds); }
      }
    }
  }

  // ----- keywords beside a reference -----

  /**
   Keywords beside a reference are dropped in every dialect. An instance that passes the compiled schema and violates
   one of them makes it weaker; with nothing else to lose, a strict compiled schema is weaker iff there is one.
   */
  lemma SiblingsLostIff(members: seq<Member>, d: Dialect, p: Json, depth: nat, holds: Assertions)
    requires HasKey(members, Ref) && Compile(Obj(members), d) == Ok(p)
    requires UniqueKeys(members) && RegularDefinitions(DefinitionsIn(Obj(members)), d)
    requires depth >= |DefinitionsIn(Obj(members))|
    ensures
      var defs := DefinitionsIn(Obj(members));
      var violated := exists x: Json :: AcceptsCompiled(p, x, holds) && !SiblingsMet(members, x, defs, depth, holds);
      && (violated ==> AcceptsMore(p, Obj(members), depth, holds))
      && (d != Gemini && (forall name | name in defs :: Safe(defs[name], Strict)) ==>
            (AcceptsMore(p, Obj(members), depth, holds) <==> violated))
  {
    var s, defs := Obj(members), DefinitionsIn(Obj(members));
    forall x: Json | AcceptsCompiled(p, x, holds) && !SiblingsMet(members, x, defs, depth, holds)
      ensures !Accepts(s, x, Canonical, defs, depth, holds)
    {
    }
    if d != Gemini && forall name | name in defs :: Safe(defs[name], Strict) {
      forall x: Json | AcceptsCompiled(p, x, holds)
        ensures Accepts(s, x, Canonical, defs, depth, holds) <==> SiblingsMet(members, x, defs, depth, holds)
      {
        CompiledMeaning(s, d, p, x, depth, holds);
        TargetAccepts(members, x, defs, depth, holds);
      }
    }
  }

  lemma TargetAccepts(members: seq<Member>, x: Json, defs: Definitions, depth: nat, holds: Assertions)
    requires HasKey(members, Ref) && forall name | name in defs :: Safe(defs[name], Strict)
    requires Accepts(Obj(members), x, Strict, defs, depth, holds)
    ensures Accepts(Obj(members), x, Canonical, defs, depth, holds) <==> SiblingsMet(members, x, defs, depth, holds)
  {
    var name := ResolveReference(Get(members, Ref), defs, {}).value;
    WeakerAcceptsMore(defs[name], x, Strict, Canonical, defs, depth - 1, holds);
  }

  // ----- constants and enumerations -----

  /** The last of the members that are written to enum. */
  predicate LastChoice(members: seq<Member>, i: nat) {
    && i < |members| && members[i].key in {Const, Enum}
    && forall k | i < k < |members| :: members[k].key !in {Const, Enum}
  }

  /** What the source demands by const and enum. */
  predicate ChoiceMet(members: seq<Member>, x: Json) {
    && (HasKey(members, Const) ==> x == Get(members, Const))
    && (HasKey(members, Enum) && Get(members, Enum).Arr? ==> x in Get(members, Enum).items)
  }

  /** The values that are left of them: the projections of what the last one names. */
  function Survivors(m: Member, d: Dialect, defs: Definitions, stack: set<string>): (r: seq<Json>)
    requires Project(m.value, d, defs, stack).Ok?
  {
    var value := Project(m.value, d, defs, stack).value;
    if m.key == Const then [value] else if value.Arr? then value.items else []
  }

  /** A projected object has one enum, with the survivors. */
  lemma CompiledEnum(members: seq<Member>, i: nat, d: Dialect, defs: Definitions, stack: set<string>, p: Json)
    requires !HasKey(members, Ref) && LastChoice(members, i) && (members[i].key == Enum ==> members[i].value.Arr?)
    requires Project(Obj(members), d, defs, stack) == Ok(p)
    ensures Project(members[i].value, d, defs, stack).Ok? && !HasKey(p.members, Ref)
    ensures HasKey(p.members, Enum) && Get(p.members, Enum) == Arr(Survivors(members[i], d, defs, stack))
  {
    var projected := CompiledObject(members, d, defs, stack, p);
    assert LastWrite(members, i, Enum, d);
    LastWriteWins(members, d, defs, stack, projected, i, Enum);
    CloseAt(projected, d, Enum);
  }

  /**
   For any constants and enumerations, in any order, beside any other keywords and at any depth: an instance that passes
   the projected object is a survivor, so one that violates the const or the enum of the source exists iff some survivor
   does.
   */
  lemma ChoiceLostIff(members: seq<Member>, i: nat, d: Dialect, defs: Definitions, stack: set<string>, p: Json,
                      holds: Assertions)
    requires !HasKey(members, Ref) && LastChoice(members, i) && (members[i].key == Enum ==> members[i].value.Arr?)
    requires Project(Obj(members), d, defs, stack) == Ok(p)
    ensures Project(members[i].value, d, defs, stack).Ok?
    ensures
      var survivors := Survivors(members[i], d, defs, stack);
      && (forall x: Json | AcceptsCompiled(p, x, holds) :: x in survivors)
      && ((exists x: Json :: AcceptsCompiled(p, x, holds) && !ChoiceMet(members, x))
          <==> exists v | v in survivors :: AcceptsCompiled(p, v, holds) && !ChoiceMet(members, v))
  {
    CompiledEnum(members, i, d, defs, stack, p);
    var survivors := Survivors(members[i], d, defs, stack);
    forall x: Json | AcceptsCompiled(p, x, holds) ensures x in survivors {
      InMembers(Member(Enum, Get(p.members, Enum)), p.members);
      assert Meets(Enum, Get(p.members, Enum), p.members, x, Canonical, NO_DEFINITIONS, 0, holds);
    }
  }

  /** An object whose constraining members are a const, an enum, or both. */
  predicate OnlyChoices(members: seq<Member>) {
    && UniqueKeys(members)
    && (HasKey(members, Enum) ==> Get(members, Enum).Arr?)
    && forall m | m in members :: m.key in {Const, Enum} || Annotation(m.key)
  }

  lemma {:induction false} ProjectedKeys(members: seq<Member>, d: Dialect, defs: Definitions, stack: set<string>,
                                         projected: seq<Member>)
    requires forall m | m in members :: m.key in {Const, Enum} || Annotation(m.key)
    requires ProjectMembers(members, d, defs, stack) == Ok(projected)
    ensures forall m | m in projected :: m.key == Enum || Annotation(m.key)
  {
    forall m | m in projected ensures m.key == Enum || Annotation(m.key) {
      var k :| 0 <= k < |projected| && projected[k] == m;
      assert HasKey(projected, m.key);
      LastWriteWins(members, d, defs, stack, projected, 0, m.key);
      var i :| 0 <= i < |members| && Writes(members[i], m.key, d);
      assert members[i] in members;
    }
  }

  /** An object whose only constraining member is one enum. */
  lemma EnumOnly(members: seq<Member>, x: Json, mode: Mode, defs: Definitions, depth: nat, holds: Assertions)
    requires UniqueKeys(members) && HasKey(members, Enum) && Get(members, Enum).Arr?
    requires forall m | m in members :: m.key == Enum || Annotation(m.key)
    ensures Accepts(Obj(members), x, mode, defs, depth, holds) <==> x in Get(members, Enum).items
  {
    var enum := Member(Enum, Get(members, Enum));
    InMembers(enum, members);
    forall m | m in members && m.key == Enum ensures m == enum {
      var i :| 0 <= i < |members| && members[i] == m;
      GetAt(members, i);
    }
    assert !HasKey(members, Ref);
  }

  lemma OneChoice(members: seq<Member>, m: Member, x: Json, defs: Definitions, depth: nat, holds: Assertions)
    requires OnlyChoices(members) && m in members
    ensures HasKey(members, m.key) && m.value == Get(members, m.key) && m.value < Obj(members) && m.key != Ref
    ensures Meets(m.key, m.value, members, x, Canonical, defs, depth, holds)
            <==> (m.key == Const ==> x == m.value) && (m.key == Enum ==> x in m.value.items)
  {
    var i :| 0 <= i < |members| && members[i] == m;
    GetAt(members, i);
    InMembers(m, members);
  }

  lemma ChoicesOnly(members: seq<Member>, x: Json, defs: Definitions, depth: nat, holds: Assertions)
    requires OnlyChoices(members)
    ensures Accepts(Obj(members), x, Canonical, defs, depth, holds) <==> ChoiceMet(members, x)
  {
    if HasKey(members, Enum) { OneChoice(members, Member(Enum, Get(members, Enum)), x, defs, depth, holds); }
    if HasKey(members, Const) { OneChoice(members, Member(Const, Get(members, Const)), x, defs, depth, holds); }
    forall m | m in members
      ensures m.key != Ref && (ChoiceMet(members, x) ==> Meets(m.key, m.value, members, x, Canonical, defs, depth, holds))
    {
      OneChoice(members, m, x, defs, depth, holds);
    }
    assert !HasKey(members, Ref);
  }

  /** Such a schema compiles to one that allows exactly the survivors. */
  lemma CompiledChoice(members: seq<Member>, i: nat, d: Dialect, p: Json, x: Json, holds: Assertions)
    requires OnlyChoices(members) && LastChoice(members, i) && Compile(Obj(members), d) == Ok(p)
    ensures Project(members[i].value, d, DefinitionsIn(Obj(members)), {}).Ok?
    ensures AcceptsCompiled(p, x, holds) <==> x in Survivors(members[i], d, DefinitionsIn(Obj(members)), {})
  {
    var defs := DefinitionsIn(Obj(members));
    ChoiceAt(members, i);
    CompileProjects(members, d, p);
    CompiledEnum(members, i, d, defs, {}, p);
    var projected := CompiledObject(members, d, defs, {}, p);
    ProjectedKeys(members, d, defs, {}, projected);
    assert !HasKey(projected, Properties);
    EnumOnly(projected, x, Canonical, NO_DEFINITIONS, 0, holds);
  }

  lemma ChoiceAt(members: seq<Member>, i: nat)
    requires OnlyChoices(members) && LastChoice(members, i)
    ensures !HasKey(members, Ref) && HasKey(members, members[i].key) && members[i].value == Get(members, members[i].key)
    ensures members[i].key == Enum ==> members[i].value.Arr?
  {
    GetAt(members, i);
  }

  /**
   The exact condition, in every dialect and for constants of any shape: the schema is weakened iff a survivor violates
   the const or the enum. A const alone is weakened iff its value is not clean, that is, iff the compiler changes it.
   */
  lemma ChoicesWeakenedIff(members: seq<Member>, i: nat, d: Dialect, p: Json, depth: nat, holds: Assertions)
    requires OnlyChoices(members) && LastChoice(members, i) && Compile(Obj(members), d) == Ok(p)
    ensures Project(members[i].value, d, DefinitionsIn(Obj(members)), {}).Ok?
    ensures AcceptsMore(p, Obj(members), depth, holds)
            <==> exists v | v in Survivors(members[i], d, DefinitionsIn(Obj(members)), {}) :: !ChoiceMet(members, v)
    ensures HasKey(members, Const) && !HasKey(members, Enum) ==>
              (AcceptsMore(p, Obj(members), depth, holds) <==> !Clean(Get(members, Const), d))
  {
    var s, defs := Obj(members), DefinitionsIn(Obj(members));
    CompiledChoice(members, i, d, p, Null, holds);
    var survivors := Survivors(members[i], d, defs, {});
    forall x: Json
      ensures AcceptsCompiled(p, x, holds) && !Accepts(s, x, Canonical, defs, depth, holds)
              <==> x in survivors && !ChoiceMet(members, x)
    {
      CompiledChoice(members, i, d, p, x, holds);
      ChoicesOnly(members, x, defs, depth, holds);
    }
    ChoiceAt(members, i);
    if HasKey(members, Const) && !HasKey(members, Enum) {
      ProjectionIsIdempotent(members[i].value, d, defs, {});
      assert survivors == [Project(members[i].value, d, defs, {}).value];
      assert survivors[0] in survivors;
    }
  }
}
