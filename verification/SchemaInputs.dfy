/** An input for each way in which a compiled schema accepts more, or less, than its source. */
module SchemaInputs {
  import opened Wrappers
  import opened ProviderSchema
  import opened SchemaProjection
  import opened SchemaMeaning
  import opened SchemaDirections
  import opened SchemaLosses

  /** The compiled schema accepts x, the canonical one does not. */
  ghost predicate LetsThrough(s: Json, d: Dialect, x: Json, holds: Assertions)
    requires s.Obj?
  {
    && Compile(s, d).Ok? && AcceptsCompiled(Compile(s, d).value, x, holds)
    && !Accepts(s, x, Canonical, DefinitionsIn(s), |DefinitionsIn(s)|, holds)
  }

  /** A schema without references and definitions. */
  lemma PlainCompiles(s: Json, d: Dialect)
    requires s.Obj? && !HasKey(s.members, Defs) && RefsBelow(s, d, map[], map[], 0)
    ensures Compile(s, d).Ok? && DefinitionsIn(s) == map[]
  {
    AcyclicCompiles(s, d, map[], {}, map[], 0);
    assert !HasKey(s.members, Ref);
  }

  function Demanding(property: seq<Member>, name: Text): Json {
    Obj([Member(Properties, Obj(property)), Member(Required, Arr([Str(name)]))])
  }

  lemma DemandingShape(property: seq<Member>, name: Text, d: Dialect)
    requires d != Gemini && UniqueKeys(property)
    requires forall p | p in property :: p.value == Obj([]) && Survives(p.key, d)
    ensures
      var s := Demanding(property, name);
      && Compile(s, d).Ok? && DefinitionsIn(s) == map[] && Regular(s, d)
      && !HasKey(s.members, Ref) && HasProperties(s.members) && PropertiesOf(s.members) == property
  {
    var s := Demanding(property, name);
    assert s.members[0].key == Properties && s.members[1].key == Required;
    assert !HasKey(property, Ref) by {
      forall m | m in property ensures m.key != Ref {
      }
    }
    DictionaryIsPlain(property, d);
    PlainCompiles(s, d);
    DemandingIsRegular(s, property, name, d);
  }

  lemma DemandingIsRegular(s: Json, property: seq<Member>, name: Text, d: Dialect)
    requires s == Demanding(property, name) && UniqueKeys(property)
    requires forall p | p in property :: p.value == Obj([]) && Survives(p.key, d)
    ensures Regular(s, d)
  {
    forall p | p in property ensures Regular(p.value, d) {
      assert p.value == Obj([]);
    }
    assert RegularValue(Required, Arr([Str(name)]), d);
  }

  lemma DictionaryIsPlain(property: seq<Member>, d: Dialect)
    requires !HasKey(property, Ref) && forall p | p in property :: p.value == Obj([])
    ensures RefsBelow(Obj(property), d, map[], map[], 0)
  {
    assert !HasKey([], Ref);
  }

  /** Where no property is kept, the compiled schema allows the empty object, which the source's required list rejects. */
  lemma DemandIsLost(property: seq<Member>, name: Text, d: Dialect, holds: Assertions)
    requires d != Gemini && UniqueKeys(property)
    requires forall p | p in property :: p.value == Obj([]) && Dropped(p.key, d)
    ensures LetsThrough(Demanding(property, name), d, Obj([]), holds)
  {
    var s := Demanding(property, name);
    DemandingShape(property, name, d);
    NoneVisible(property, d);
    CompiledMeaning(s, d, Compile(s, d).value, Obj([]), 0, holds);
    EmptyAccepted(s, property, name, holds);
    RequiredIff(s.members, Arr([Str(name)]), Obj([]), map[], 0, holds);
    assert s.members[1] in s.members;
    InMembers(s.members[1], s.members);
    assert Arr([Str(name)]).items[0].Str? && !HasKey([], name);
  }

  lemma NoneVisible(property: seq<Member>, d: Dialect)
    requires d != Gemini && forall p | p in property :: Dropped(p.key, d)
    ensures Visible(property, Strict) == []
  {
    var visible := Visible(property, Strict);
    assert forall m :: m !in visible;
  }

  lemma EmptyAccepted(s: Json, property: seq<Member>, name: Text, holds: Assertions)
    requires s == Demanding(property, name) && !HasKey(s.members, Ref) && HasProperties(s.members)
    requires Visible(property, Strict) == []
    ensures Accepts(s, Obj([]), Strict, map[], 0, holds)
  {
  }

  /** A required name that is not a property, in either strict dialect. */
  lemma RequiredOutsidePropertiesIsLost(name: Text, d: Dialect, holds: Assertions)
    requires d != Gemini
    ensures LetsThrough(Demanding([], name), d, Obj([]), holds)
  {
    DemandIsLost([], name, d, holds);
  }

  /** A required name that is a property, but one that the compiler takes for a keyword of pydantic's. */
  lemma RequiredHiddenPropertyIsLost(d: Dialect, holds: Assertions)
    requires d != Gemini
    ensures LetsThrough(Demanding([Member(DecimalPlaces, Obj([]))], DecimalPlaces), d, Obj([]), holds)
  {
    DemandIsLost([Member(DecimalPlaces, Obj([]))], DecimalPlaces, d, holds);
  }

  function Referring(): Json {
    Obj([Member(Defs, Obj([Member(Other("A"), Obj([]))])), Member(Ref, Str(Reference("A"))),
         Member(Other("minimum"), Num(5.0))])
  }

  /** A minimum beside a reference: any instance that it rejects is let through, in every dialect. */
  lemma SiblingIsLost(d: Dialect, x: Json, holds: Assertions)
    requires !holds(Other("minimum"), Num(5.0), x)
    ensures LetsThrough(Referring(), d, x, holds)
  {
    SiblingCompiles(Referring(), d);
    var minimum := Referring().members[2];
    MinimumIsLost(Referring(), minimum, d, x, holds);
  }

  lemma MinimumIsLost(s: Json, minimum: Member, d: Dialect, x: Json, holds: Assertions)
    requires s.Obj? && HasKey(s.members, Ref) && minimum in s.members && Compile(s, d) == Ok(Obj([]))
    requires minimum == Member(Other("minimum"), Num(5.0)) && !holds(minimum.key, minimum.value, x)
    ensures LetsThrough(s, d, x, holds)
  {
    InMembers(minimum, s.members);
    assert !Meets(minimum.key, minimum.value, s.members, x, Canonical, DefinitionsIn(s), |DefinitionsIn(s)|, holds);
    EmptySchemaAccepts(x, holds);
  }

  lemma EmptySchemaAccepts(x: Json, holds: Assertions)
    ensures AcceptsCompiled(Obj([]), x, holds)
  {
    assert !HasKey([], Ref);
  }

  lemma SiblingCompiles(s: Json, d: Dialect)
    requires s == Referring()
    ensures HasKey(s.members, Ref) && Compile(s, d) == Ok(Obj([]))
  {
    assert s.members[0].key == Defs && s.members[1].key == Ref;
    assert Get(s.members, Ref) == Str(Reference("A"));
    var entries := [Member(Other("A"), Obj([]))];
    OneDefinition(entries);
    assert Get(s.members, Defs) == Obj(entries);
    ReferenceCompiles(s.members, entries, d);
  }

  lemma OneDefinition(entries: seq<Member>)
    requires entries == [Member(Other("A"), Obj([]))]
    ensures DefinitionsOf(entries) == map["A" := Obj([])]
  {
    assert entries[..0] == [] && DefinitionsOf([]) == map[];
  }

  lemma ReferenceCompiles(members: seq<Member>, entries: seq<Member>, d: Dialect)
    requires HasKey(members, Ref) && Get(members, Ref) == Str(Reference("A"))
    requires HasKey(members, Defs) && Get(members, Defs) == Obj(entries) && DefinitionsOf(entries) == map["A" := Obj([])]
    ensures Compile(Obj(members), d) == Ok(Obj([]))
  {
    var defs := DefinitionsOf(entries);
    assert ResolveReference(Get(members, Ref), defs, {}) == Ok("A");
    assert {} + {"A"} == {"A"};
    EmptyProjects(d, defs, {"A"});
  }

  lemma EmptyProjects(d: Dialect, defs: Definitions, stack: set<string>)
    ensures Project(Obj([]), d, defs, stack) == Ok(Obj([]))
  {
    assert !HasKey([], Ref) && !HasKey([], Properties);
  }

  /** A constant in which the compiler drops a key: the constant itself is no longer an answer, the empty object is. */
  lemma ConstIsChanged(d: Dialect, holds: Assertions)
    ensures
      var value := Obj([Member(DecimalPlaces, Num(1.0))]);
      LetsThrough(Obj([Member(Const, value)]), d, Obj([]), holds)
  {
    var value := Obj([Member(DecimalPlaces, Num(1.0))]);
    var s := Obj([Member(Const, value)]);
    assert s.members[0].key == Const;
    PlainCompiles(s, d);
    CompiledChoice(s.members, 0, d, Compile(s, d).value, Obj([]), holds);
    ChoicesOnly(s.members, Obj([]), map[], 0, holds);
    DroppedProjects(value, d);
  }

  lemma DroppedProjects(value: Json, d: Dialect)
    requires value == Obj([Member(DecimalPlaces, Num(1.0))])
    ensures Project(value, d, map[], {}) == Ok(Obj([]))
  {
    assert value.members[..0] == [] && !HasKey(value.members, Ref) && !HasKey([], Properties);
    assert ProjectMembers([], d, map[], {}) == Ok([]);
    assert ProjectMembers(value.members, d, map[], {}) == Ok([]);
  }

  function ConstThenEnum(): Json {
    Obj([Member(Const, Num(1.0)), Member(Enum, Arr([Num(1.0), Num(2.0)]))])
  }

  /** A const written before an enum is lost: 2.0 is an answer where the canonical schema demands 1.0. */
  lemma ConstBesideEnumIsLost(d: Dialect, holds: Assertions)
    ensures LetsThrough(ConstThenEnum(), d, Num(2.0), holds)
  {
    var values := [Num(1.0), Num(2.0)];
    ConstThenEnumShape(ConstThenEnum(), values, d);
    assert values[1] == Num(2.0);
    EarlierConstIsLost(ConstThenEnum(), values, d, Num(2.0), holds);
  }

  lemma ConstThenEnumShape(s: Json, values: seq<Json>, d: Dialect)
    requires s == ConstThenEnum() && values == [Num(1.0), Num(2.0)]
    ensures OnlyChoices(s.members) && HasKey(s.members, Const) && Get(s.members, Const) == Num(1.0)
    ensures LastChoice(s.members, 1) && s.members[1] == Member(Enum, Arr(values))
    ensures Compile(s, d).Ok? && DefinitionsIn(s) == map[] && Clean(Arr(values), d)
  {
    assert s.members[0].key == Const && s.members[1].key == Enum;
    NumbersCompile(s, values, d);
  }

  lemma NumbersCompile(s: Json, values: seq<Json>, d: Dialect)
    requires s.Obj? && !HasKey(s.members, Defs) && !HasKey(s.members, Ref)
    requires forall m | m in s.members :: m.value == Arr(values) || m.value.Num?
    requires forall i | 0 <= i < |values| :: values[i].Num?
    ensures Compile(s, d).Ok? && DefinitionsIn(s) == map[] && Clean(Arr(values), d)
  {
    assert RefsBelow(Arr(values), d, map[], map[], 0);
    PlainCompiles(s, d);
  }

  lemma EarlierConstIsLost(s: Json, values: seq<Json>, d: Dialect, x: Json, holds: Assertions)
    requires s.Obj? && OnlyChoices(s.members) && HasKey(s.members, Const) && Get(s.members, Const) != x && x in values
    requires LastChoice(s.members, 1) && s.members[1] == Member(Enum, Arr(values))
    requires Compile(s, d).Ok? && DefinitionsIn(s) == map[] && Clean(Arr(values), d)
    ensures LetsThrough(s, d, x, holds)
  {
    CleanIsFixed(Arr(values), d, map[], {});
    CompiledChoice(s.members, 1, d, Compile(s, d).value, x, holds);
    ChoicesOnly(s.members, x, map[], 0, holds);
  }

  function Closing(property: seq<Member>): Json {
    Obj([Member(Properties, Obj(property)), Member(AdditionalProperties, Bool(false))])
  }

  /** Gemini rejects a property whose name its compiler takes for a limit, where no other property is allowed. */
  lemma HiddenPropertyIsRejected(holds: Assertions)
    ensures
      var s, x := Closing([Member(Pattern, Obj([]))]), Obj([Member(Pattern, Null)]);
      && Compile(s, Gemini).Ok? && !AcceptsCompiled(Compile(s, Gemini).value, x, holds)
      && Accepts(s, x, Canonical, DefinitionsIn(s), 0, holds)
  {
    var property := [Member(Pattern, Obj([]))];
    var s, x := Closing(property), Obj([Member(Pattern, Null)]);
    HiddenShape(s, property);
    HiddenIsAccepted(s, property, x, holds);
    assert s.members[1] in s.members && x.members[0] in x.members;
    OtherIsRejected(s, Compile(s, Gemini).value, x, x.members[0], holds);
  }

  lemma OtherIsRejected(s: Json, p: Json, x: Json, y: Member, holds: Assertions)
    requires s.Obj? && Regular(s, Gemini) && Compile(s, Gemini) == Ok(p) && DefinitionsIn(s) == map[]
    requires !HasKey(s.members, Ref) && Member(AdditionalProperties, Bool(false)) in s.members
    requires x.Obj? && y in x.members && Hidden(y.key, Lax)
    ensures !AcceptsCompiled(p, x, holds)
  {
    CompiledMeaning(s, Gemini, p, x, 0, holds);
    VisibleKeys(PropertiesOf(s.members), Lax);
    InMembers(Member(AdditionalProperties, Bool(false)), s.members);
    assert !Accepts(Bool(false), y.value, Lax, map[], 0, holds);
    assert !Meets(AdditionalProperties, Bool(false), s.members, x, Lax, map[], 0, holds);
  }

  lemma HiddenShape(s: Json, property: seq<Member>)
    requires property == [Member(Pattern, Obj([]))]
    requires s == Closing(property)
    ensures Compile(s, Gemini).Ok? && DefinitionsIn(s) == map[] && Regular(s, Gemini)
    ensures !HasKey(s.members, Ref) && HasProperties(s.members) && PropertiesOf(s.members) == property
  {
    assert s.members[0].key == Properties && s.members[1].key == AdditionalProperties;
    DictionaryIsPlain(property, Gemini);
    PlainCompiles(s, Gemini);
  }

  lemma HiddenIsAccepted(s: Json, property: seq<Member>, x: Json, holds: Assertions)
    requires property == [Member(Pattern, Obj([]))] && x == Obj([Member(Pattern, Null)])
    requires s == Closing(property)
    requires !HasKey(s.members, Ref) && PropertiesOf(s.members) == property
    ensures Accepts(s, x, Canonical, map[], 0, holds)
  {
    AllVisible(property);
    assert property[0].key == Pattern && HasKey(property, Pattern);
    forall key | HasKey(x.members, key) ensures key == Pattern {
    }
    forall y | y in x.members ensures y.key == Pattern {
    }
    assert !HasKey([], Ref);
  }
}
