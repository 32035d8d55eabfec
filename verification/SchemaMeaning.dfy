/**
 What a schema accepts, over the keywords the result schema uses, and how the projection of each
 dialect relates to it.
 */
module SchemaMeaning {
  import opened Wrappers
  import opened ProviderSchema
  import opened SchemaProjection

  /**
   How a schema is read. Canonical is the standard reading. Strict and Lax read it as the dialects are told it: without
   the keywords beside a reference and without properties whose names the compiler drops. Strict also reads every
   properties keyword as "all of these and no others"; Lax ignores the length and pattern keywords.
   */
  datatype Mode = Canonical | Strict | Lax

  function ModeOf(d: Dialect): Mode {
    if d == Gemini then Lax else Strict
  }

  /** The verdict of every other keyword (type, minimum, ...) on an instance. */
  type Assertions = (Text, Json, Json) -> bool

  predicate Limit(key: Text) {
    key in {Pattern, MinLength, MaxLength, MinItems, MaxItems}
  }

  predicate Annotation(key: Text) {
    || key in {Defs, DecimalPlaces, MaxDigits}
    || key == Other("title") || key == Other("description") || key == Other("default") || key == Other("examples")
  }

  function PropertiesOf(members: seq<Member>): seq<Member> {
    if HasKey(members, Properties) && Get(members, Properties).Obj? then Get(members, Properties).members else []
  }

  predicate HasProperties(members: seq<Member>) {
    HasKey(members, Properties) && Get(members, Properties).Obj?
  }

  /** The compiler takes a property of this name for one of the keywords it drops. */
  predicate Hidden(name: Text, mode: Mode) {
    || (mode != Canonical && name in {Defs, DecimalPlaces, MaxDigits})
    || (mode == Lax && Limit(name))
  }

  /** The members that are left, in order. */
  function Visible(members: seq<Member>, mode: Mode): (r: seq<Member>)
    ensures forall m :: m in r <==> m in members && !Hidden(m.key, mode)
  {
    if members == [] then []
    else
      var last := members[|members| - 1];
      assert members == members[..|members| - 1] + [last];
      Visible(members[..|members| - 1], mode) + (if Hidden(last.key, mode) then [] else [last])
  }

  lemma {:induction false} AllVisible(members: seq<Member>)
    ensures Visible(members, Canonical) == members
  {
    if members != [] {
      AllVisible(members[..|members| - 1]);
      assert members == members[..|members| - 1] + [members[|members| - 1]];
    }
  }

  lemma VisibleKeys(members: seq<Member>, mode: Mode)
    ensures forall key :: HasKey(Visible(members, mode), key) <==> HasKey(members, key) && !Hidden(key, mode)
  {
    var visible := Visible(members, mode);
    forall key | HasKey(visible, key) ensures HasKey(members, key) && !Hidden(key, mode) {
      var m := visible[IndexOf(visible, key)];
      assert m in visible && m in members;
      var i :| 0 <= i < |members| && members[i] == m;
    }
    forall key | HasKey(members, key) && !Hidden(key, mode) ensures HasKey(visible, key) {
      var m := members[IndexOf(members, key)];
      assert m in visible;
      var i :| 0 <= i < |visible| && visible[i] == m;
    }
  }

  /**
   References are followed at most depth times in a row. The keywords beside a reference apply as well, as section
   8.2.3.1 of JSON Schema Core 2020-12 says.
   */
  ghost predicate Accepts(s: Json, x: Json, mode: Mode, defs: Definitions, depth: nat, holds: Assertions)
    decreases depth, s, 0
  {
    match s
    case Bool(flag) => flag
    case Obj(members) =>
      if HasKey(members, Ref) then
        var target := ResolveReference(Get(members, Ref), defs, {});
        && depth > 0 && target.Ok? && Accepts(defs[target.value], x, mode, defs, depth - 1, holds)
        && (mode == Canonical ==>
              forall m | m in members && m.value < s && m.key != Ref ::
                Meets(m.key, m.value, members, x, mode, defs, depth, holds))
      else
        forall m | m in members && m.value < s :: Meets(m.key, m.value, members, x, mode, defs, depth, holds)
    case _ => true
  }

  /** One keyword of a schema object; its sibling keywords are in members. */
  ghost predicate Meets(key: Text, value: Json, members: seq<Member>, x: Json, mode: Mode, defs: Definitions, depth: nat,
                        holds: Assertions)
    decreases depth, value, 1
  {
    match key
    case Properties =>
      value.Obj? && x.Obj? ==>
        && (forall p | p in value.members && p.value < value && !Hidden(p.key, mode) && HasKey(x.members, p.key) ::
              Accepts(p.value, Get(x.members, p.key), mode, defs, depth, holds))
        && (mode == Strict ==>
              HasAll(x.members, Visible(value.members, mode)) && HasOnly(x.members, Visible(value.members, mode)))
    case Required =>
      (mode == Strict && HasProperties(members))
      || (value.Arr? && x.Obj? ==> forall n | n in value.items && n.Str? :: HasKey(x.members, n.text))
    case AdditionalProperties =>
      (mode == Strict && HasProperties(members))
      || (x.Obj? ==> forall y | y in x.members && !HasKey(Visible(PropertiesOf(members), mode), y.key) ::
                       Accepts(value, y.value, mode, defs, depth, holds))
    case Items => x.Arr? ==> forall e | e in x.items :: Accepts(value, e, mode, defs, depth, holds)
    case AnyOf => value.Arr? ==> exists i | 0 <= i < |value.items| :: Accepts(value.items[i], x, mode, defs, depth, holds)
    case Enum => value.Arr? ==> x in value.items
    case Const => x == value
    case _ => (if Limit(key) then mode == Lax else Annotation(key)) || holds(key, value, x)
  }

  predicate HasAll(members: seq<Member>, properties: seq<Member>) {
    forall i | 0 <= i < |properties| :: HasKey(members, properties[i].key)
  }

  predicate HasOnly(members: seq<Member>, properties: seq<Member>) {
    forall i | 0 <= i < |members| :: HasKey(properties, members[i].key)
  }

  // ----- the schemas the compiler is for -----

  /** A property that the compiler keeps under its name, or drops. */
  predicate Survives(key: Text, d: Dialect) {
    key !in {Ref, Const} && (d == Gemini || key != Properties)
  }

  /**
   Schemas whose shape the compiler expects: no property is called $ref or const, nor properties in the strict
   dialects; a const does not stand beside an enum; and what is not a schema, constants included, is left as it is.
   */
  ghost predicate Regular(s: Json, d: Dialect)
    decreases s, 0
  {
    match s
    case Bool(_) => true
    case Obj(members) =>
      && UniqueKeys(members)
      && (!HasKey(members, Ref) ==>
            && NoEnumBesideConst(members)
            && forall m | m in members && m.value < s :: RegularValue(m.key, m.value, d))
    case _ => false
  }

  ghost predicate RegularValue(key: Text, value: Json, d: Dialect)
    decreases value, 1
  {
    match key
    case Properties =>
      && value.Obj? && UniqueKeys(value.members)
      && forall p | p in value.members && p.value < value ::
           Survives(p.key, d) && (Dropped(p.key, d) || Regular(p.value, d))
    case Items => Regular(value, d)
    case AdditionalProperties => Regular(value, d)
    case AnyOf => value.Arr? && forall i | 0 <= i < |value.items| :: Regular(value.items[i], d)
    case Enum => value.Arr? && Clean(value, d)
    case Required => value.Arr? && forall i | 0 <= i < |value.items| :: value.items[i].Str?
    case _ => Annotation(key) || Clean(value, d)
  }

  ghost predicate RegularDefinitions(defs: Definitions, d: Dialect) {
    forall name | name in defs :: Regular(defs[name], d)
  }

  // ----- how single members are projected -----

  lemma InMembers(m: Member, members: seq<Member>)
    requires m in members
    ensures m.value < m < Obj(members) && m.value < Obj(members)
  {
    var i :| 0 <= i < |members| && members[i] == m;
    assert members[i] < Obj(members);
  }

  predicate IsImage(m: Member, image: Member, d: Dialect, defs: Definitions, stack: set<string>) {
    && !Dropped(m.key, d)
    && Project(m.value, d, defs, stack).Ok?
    && var value := Project(m.value, d, defs, stack).value;
       image == if m.key == Const then Member(Enum, Arr([value])) else Member(m.key, value)
  }

  function ImageKey(key: Text): Text {
    if key == Const then Enum else key
  }

  /** The members that are not dropped, in order. */
  function Kept(members: seq<Member>, d: Dialect): (r: seq<Member>)
    ensures forall m :: m in r <==> m in members && !Dropped(m.key, d)
  {
    Visible(members, ModeOf(d))
  }

  predicate NoEnumBesideConst(members: seq<Member>) {
    forall m, n | m in members && n in members :: !(m.key == Const && n.key == Enum)
  }

  /** Without a const beside an enum, members are projected one by one. */
  lemma {:induction false} MemberImages(members: seq<Member>, d: Dialect, defs: Definitions, stack: set<string>,
                                        projected: seq<Member>)
    requires UniqueKeys(members) && NoEnumBesideConst(members)
    requires ProjectMembers(members, d, defs, stack) == Ok(projected)
    ensures |projected| == |Kept(members, d)| && UniqueKeys(projected)
    ensures forall i | 0 <= i < |projected| :: IsImage(Kept(members, d)[i], projected[i], d, defs, stack)
    decreases members
  {
    if members != [] {
      var front := members[..|members| - 1];
      var last := members[|members| - 1];
      assert forall m | m in front :: m in members;
      var before := ProjectMembers(front, d, defs, stack).value;
      MemberImages(front, d, defs, stack, before);
      if !Dropped(last.key, d) {
        KeyIsNew(members, d, defs, stack, before);
        assert projected == before + [projected[|before|]];
      }
    }
  }

  lemma KeyIsNew(members: seq<Member>, d: Dialect, defs: Definitions, stack: set<string>, before: seq<Member>)
    requires members != [] && UniqueKeys(members) && NoEnumBesideConst(members)
    requires |before| == |Kept(members[..|members| - 1], d)|
    requires forall i | 0 <= i < |before| :: IsImage(Kept(members[..|members| - 1], d)[i], before[i], d, defs, stack)
    ensures !HasKey(before, ImageKey(members[|members| - 1].key))
  {
    var front := members[..|members| - 1];
    var last := members[|members| - 1];
    forall i | 0 <= i < |before| ensures before[i].key != ImageKey(last.key) {
      var m := Kept(front, d)[i];
      assert m in front && m in members && last in members;
      var k :| 0 <= k < |front| && front[k] == m;
      assert members[k].key != members[|members| - 1].key;
    }
  }

  /** A properties dictionary keeps the names that are not dropped, and projects their schemas. */
  lemma {:induction false} PropertiesImage(props: seq<Member>, d: Dialect, defs: Definitions, stack: set<string>,
                                           projected: seq<Member>)
    requires UniqueKeys(props) && forall p | p in props :: Survives(p.key, d)
    requires ProjectMembers(props, d, defs, stack) == Ok(projected)
    ensures PropertyImages(Kept(props, d), projected, d, defs, stack)
    decreases props
  {
    if props != [] {
      var front := props[..|props| - 1];
      var last := props[|props| - 1];
      assert last in props && forall p | p in front :: p in props;
      var before := ProjectMembers(front, d, defs, stack).value;
      PropertiesImage(front, d, defs, stack, before);
      if !Dropped(last.key, d) {
        NameIsNew(props, d, defs, stack, before);
        assert projected == before + [projected[|before|]];
      }
    }
  }

  predicate PropertyImages(kept: seq<Member>, projected: seq<Member>, d: Dialect, defs: Definitions, stack: set<string>) {
    && |projected| == |kept|
    && forall i | 0 <= i < |kept| ::
         projected[i].key == kept[i].key && Project(kept[i].value, d, defs, stack) == Ok(projected[i].value)
  }

  lemma NameIsNew(props: seq<Member>, d: Dialect, defs: Definitions, stack: set<string>, before: seq<Member>)
    requires props != [] && UniqueKeys(props)
    requires PropertyImages(Kept(props[..|props| - 1], d), before, d, defs, stack)
    ensures !HasKey(before, props[|props| - 1].key)
  {
    var front := props[..|props| - 1];
    forall i | 0 <= i < |before| ensures before[i].key != props[|props| - 1].key {
      var p := Kept(front, d)[i];
      assert p in front;
      var k :| 0 <= k < |front| && front[k] == p;
      assert props[k] == p;
    }
  }

  // ----- the projection keeps the meaning -----

  const NO_DEFINITIONS: Definitions := map[]

  /** The standard reading of a compiled schema; it has no references to follow. */
  ghost predicate AcceptsCompiled(p: Json, x: Json, holds: Assertions) {
    Accepts(p, x, Canonical, NO_DEFINITIONS, 0, holds)
  }

  ghost predicate MeetsCompiled(m: Member, members: seq<Member>, x: Json, holds: Assertions) {
    Meets(m.key, m.value, members, x, Canonical, NO_DEFINITIONS, 0, holds)
  }

  predicate SameNames(p: seq<Member>, q: seq<Member>) {
    |p| == |q| && forall i | 0 <= i < |p| :: p[i].key == q[i].key
  }

  predicate Exact(x: Json, properties: seq<Member>) {
    x.Obj? ==> HasAll(x.members, properties) && HasOnly(x.members, properties)
  }

  predicate Overwritten(key: Text, members: seq<Member>, d: Dialect) {
    d != Gemini && HasProperties(members) && key in {Required, AdditionalProperties}
  }

  /** How a member of the source schema and its image relate. */
  ghost predicate Agrees(m: Member, image: Member, members: seq<Member>, closed: seq<Member>, x: Json, d: Dialect,
                         defs: Definitions, depth: nat, holds: Assertions) {
    if Overwritten(m.key, members, d) then true
    else if m.key == Properties && d != Gemini then
      image.value.Obj?
      && (Meets(m.key, m.value, members, x, Strict, defs, depth, holds) <==>
            MeetsCompiled(image, closed, x, holds) && Exact(x, image.value.members))
    else
      Meets(m.key, m.value, members, x, ModeOf(d), defs, depth, holds) <==> MeetsCompiled(image, closed, x, holds)
  }

  /**
   A compiled schema accepts exactly the instances that its source accepts in the dialect's reading,
   once references may be followed through every definition.
   */
  lemma {:induction false} ProjectionMeaning(s: Json, x: Json, d: Dialect, defs: Definitions, stack: set<string>,
                                             depth: nat, holds: Assertions, p: Json)
    requires Regular(s, d) && RegularDefinitions(defs, d)
    requires Project(s, d, defs, stack) == Ok(p)
    requires depth >= |defs.Keys - stack|
    ensures AcceptsCompiled(p, x, holds) <==> Accepts(s, x, ModeOf(d), defs, depth, holds)
    decreases defs.Keys - stack, s, 1
  {
    if s.Obj? {
      if HasKey(s.members, Ref) {
        var name := ReferenceCase(s.members, x, d, defs, stack, depth, holds, p);
        FewerLeft(defs, stack, name);
        DefinitionMeaning(name, x, d, defs, stack + {name}, depth - 1, holds, p);
      } else {
        ObjectCase(s.members, x, d, defs, stack, depth, holds, p);
      }
    }
  }

  lemma {:induction false} DefinitionMeaning(name: string, x: Json, d: Dialect, defs: Definitions, stack: set<string>,
                                             depth: nat, holds: Assertions, p: Json)
    requires name in defs && RegularDefinitions(defs, d)
    requires Project(defs[name], d, defs, stack) == Ok(p)
    requires depth >= |defs.Keys - stack|
    ensures AcceptsCompiled(p, x, holds) <==> Accepts(defs[name], x, ModeOf(d), defs, depth, holds)
    decreases defs.Keys - stack, defs[name], 2
  {
    ProjectionMeaning(defs[name], x, d, defs, stack, depth, holds, p);
  }

  lemma {:induction false} ObjectCase(members: seq<Member>, x: Json, d: Dialect, defs: Definitions, stack: set<string>,
                                      depth: nat, holds: Assertions, p: Json)
    requires !HasKey(members, Ref) && Regular(Obj(members), d) && RegularDefinitions(defs, d)
    requires Project(Obj(members), d, defs, stack) == Ok(p)
    requires depth >= |defs.Keys - stack|
    ensures AcceptsCompiled(p, x, holds) <==> Accepts(Obj(members), x, ModeOf(d), defs, depth, holds)
    decreases defs.Keys - stack, Obj(members), 0, 1
  {
    var projected := ObjectProjection(members, d, defs, stack, p);
    MembersMeaning(members, projected, x, d, defs, stack, depth, holds);
    ObjectMeaning(members, projected, x, d, defs, stack, depth, holds);
  }

  lemma ObjectProjection(members: seq<Member>, d: Dialect, defs: Definitions, stack: set<string>, p: Json)
    returns (projected: seq<Member>)
    requires !HasKey(members, Ref) && Project(Obj(members), d, defs, stack) == Ok(p)
    ensures ProjectMembers(members, d, defs, stack) == Ok(projected) && p == Obj(Close(projected, d))
  {
    projected := ProjectMembers(members, d, defs, stack).value;
  }

  lemma FewerLeft(defs: Definitions, stack: set<string>, name: string)
    requires name in defs && name !in stack
    ensures defs.Keys - (stack + {name}) < defs.Keys - stack
  {
    assert name in defs.Keys - stack && name !in defs.Keys - (stack + {name});
  }

  lemma ReferenceCase(members: seq<Member>, x: Json, d: Dialect, defs: Definitions, stack: set<string>,
                      depth: nat, holds: Assertions, p: Json) returns (name: string)
    requires HasKey(members, Ref) && Project(Obj(members), d, defs, stack) == Ok(p)
    requires depth >= |defs.Keys - stack|
    ensures name in defs && name !in stack && Project(defs[name], d, defs, stack + {name}) == Ok(p)
    ensures depth > 0 && depth - 1 >= |defs.Keys - (stack + {name})|
    ensures Accepts(Obj(members), x, ModeOf(d), defs, depth, holds)
            <==> Accepts(defs[name], x, ModeOf(d), defs, depth - 1, holds)
  {
    name := ResolveReference(Get(members, Ref), defs, stack).value;
    assert defs.Keys - (stack + {name}) == (defs.Keys - stack) - {name};
    assert ResolveReference(Get(members, Ref), defs, {}) == Ok(name);
  }

  lemma {:induction false} MembersMeaning(members: seq<Member>, projected: seq<Member>, x: Json, d: Dialect,
                                          defs: Definitions, stack: set<string>, depth: nat, holds: Assertions)
    requires Regular(Obj(members), d) && !HasKey(members, Ref) && RegularDefinitions(defs, d)
    requires ProjectMembers(members, d, defs, stack) == Ok(projected)
    requires depth >= |defs.Keys - stack|
    ensures ObjectImage(members, projected, x, d, defs, stack, depth, holds)
    decreases defs.Keys - stack, Obj(members), 0, 0
  {
    var closed, kept := Close(projected, d), Kept(members, d);
    CloseKeepsNames(members, d, defs, stack, projected);
    forall i | 0 <= i < |kept|
      ensures Agrees(kept[i], projected[i], members, closed, x, d, defs, depth, holds)
    {
      KeptMember(members, kept, i, d);
      MemberMeaning(kept[i], projected[i], members, closed, x, d, defs, stack, depth, holds);
    }
  }

  lemma KeptMember(members: seq<Member>, kept: seq<Member>, i: nat, d: Dialect)
    requires Regular(Obj(members), d) && !HasKey(members, Ref) && kept == Kept(members, d) && i < |kept|
    ensures kept[i].value < Obj(members) && RegularValue(kept[i].key, kept[i].value, d) && kept[i].key != Ref
  {
    var m := kept[i];
    assert m in kept;
    InMembers(m, members);
  }

  // ----- siblings: the names of the properties dictionary -----

  lemma DictionaryImage(value: Json, d: Dialect, defs: Definitions, stack: set<string>)
    requires RegularValue(Properties, value, d) && Project(value, d, defs, stack).Ok?
    ensures
      var image := Project(value, d, defs, stack).value;
      && image.Obj? && SameNames(Kept(value.members, d), image.members)
      && PropertyImages(Kept(value.members, d), image.members, d, defs, stack)
  {
    forall p | p in value.members ensures Survives(p.key, d) {
      InMembers(p, value.members);
    }
    PropertiesImage(value.members, d, defs, stack, ProjectMembers(value.members, d, defs, stack).value);
  }

  predicate ImagesOf(kept: seq<Member>, projected: seq<Member>, d: Dialect, defs: Definitions, stack: set<string>) {
    && UniqueKeys(projected) && |projected| == |kept|
    && forall i | 0 <= i < |projected| :: IsImage(kept[i], projected[i], d, defs, stack)
  }

  lemma PropertiesKept(members: seq<Member>, kept: seq<Member>, projected: seq<Member>, d: Dialect, defs: Definitions,
                       stack: set<string>)
    requires kept == Kept(members, d) && ImagesOf(kept, projected, d, defs, stack) && HasKey(members, Properties)
    ensures HasKey(projected, Properties)
    ensures Project(Get(members, Properties), d, defs, stack) == Ok(Get(projected, Properties))
  {
    var m := Member(Properties, Get(members, Properties));
    assert m in kept;
    var i :| 0 <= i < |kept| && kept[i] == m;
    assert IsImage(kept[i], projected[i], d, defs, stack);
    GetAt(projected, i);
  }

  lemma NoPropertiesAdded(members: seq<Member>, kept: seq<Member>, projected: seq<Member>, d: Dialect, defs: Definitions,
                          stack: set<string>)
    requires kept == Kept(members, d) && ImagesOf(kept, projected, d, defs, stack) && !HasKey(members, Properties)
    ensures !HasKey(projected, Properties)
  {
    forall i | 0 <= i < |projected| ensures projected[i].key != Properties {
      assert IsImage(kept[i], projected[i], d, defs, stack);
      var m := kept[i];
      assert m in members;
      var k :| 0 <= k < |members| && members[k] == m;
    }
  }

  lemma MembersAreDistinct(members: seq<Member>, d: Dialect)
    requires Regular(Obj(members), d) && !HasKey(members, Ref)
    ensures UniqueKeys(members) && NoEnumBesideConst(members)
  {
  }

  lemma PropertiesAreRegular(members: seq<Member>, d: Dialect)
    requires Regular(Obj(members), d) && !HasKey(members, Ref) && HasKey(members, Properties)
    ensures RegularValue(Properties, Get(members, Properties), d)
  {
    InMembers(Member(Properties, Get(members, Properties)), members);
  }

  lemma NamesKept(members: seq<Member>, d: Dialect, defs: Definitions, stack: set<string>, projected: seq<Member>)
    requires Regular(Obj(members), d) && !HasKey(members, Ref)
    requires ProjectMembers(members, d, defs, stack) == Ok(projected)
    ensures ImagesOf(Kept(members, d), projected, d, defs, stack)
    ensures HasProperties(members) <==> HasProperties(projected)
    ensures SameNames(Kept(PropertiesOf(members), d), PropertiesOf(projected))
  {
    MembersAreDistinct(members, d);
    MemberImages(members, d, defs, stack, projected);
    if HasKey(members, Properties) {
      PropertiesKept(members, Kept(members, d), projected, d, defs, stack);
      PropertiesAreRegular(members, d);
      DictionaryImage(Get(members, Properties), d, defs, stack);
    } else {
      NoPropertiesAdded(members, Kept(members, d), projected, d, defs, stack);
    }
  }

  lemma CloseKeepsNames(members: seq<Member>, d: Dialect, defs: Definitions, stack: set<string>, projected: seq<Member>)
    requires Regular(Obj(members), d) && !HasKey(members, Ref)
    requires ProjectMembers(members, d, defs, stack) == Ok(projected)
    ensures ImagesOf(Kept(members, d), projected, d, defs, stack)
    ensures HasProperties(members) <==> HasProperties(projected)
    ensures SameNames(Kept(PropertiesOf(members), d), PropertiesOf(Close(projected, d)))
    ensures PropertiesOf(Close(projected, d)) == PropertiesOf(projected)
  {
    NamesKept(members, d, defs, stack, projected);
    CloseFacts(projected, d);
  }

  /** The members of a closed object. */
  lemma CloseFacts(projected: seq<Member>, d: Dialect)
    requires UniqueKeys(projected)
    ensures PropertiesOf(Close(projected, d)) == PropertiesOf(projected)
    ensures d != Gemini && HasProperties(projected) ==>
              forall m :: m in Close(projected, d) <==>
                            || m == Member(AdditionalProperties, Bool(false))
                            || m == Member(Required, Arr(Names(PropertiesOf(projected))))
                            || (m in projected && m.key !in {Required, AdditionalProperties})
  {
    if d != Gemini && HasProperties(projected) {
      var names := Arr(Names(PropertiesOf(projected)));
      PutGet(projected, Required, names);
      PutGet(Put(projected, Required, names), AdditionalProperties, Bool(false));
    }
  }

  lemma SameNamesSameKeys(p: seq<Member>, q: seq<Member>)
    requires SameNames(p, q)
    ensures forall k :: HasKey(p, k) <==> HasKey(q, k)
  {
    forall k | HasKey(p, k) ensures HasKey(q, k) {
      assert q[IndexOf(p, k)].key == k;
    }
    forall k | HasKey(q, k) ensures HasKey(p, k) {
      assert p[IndexOf(q, k)].key == k;
    }
  }

  lemma SameNamesExact(x: Json, p: seq<Member>, q: seq<Member>)
    requires SameNames(p, q)
    ensures Exact(x, p) <==> Exact(x, q)
  {
    SameNamesSameKeys(p, q);
  }

  // ----- one member -----

  lemma {:induction false} MemberMeaning(m: Member, image: Member, members: seq<Member>, closed: seq<Member>, x: Json,
                                         d: Dialect, defs: Definitions, stack: set<string>, depth: nat, holds: Assertions)
    requires RegularDefinitions(defs, d) && RegularValue(m.key, m.value, d)
    requires m.key != Ref && IsImage(m, image, d, defs, stack)
    requires depth >= |defs.Keys - stack|
    requires SameNames(Kept(PropertiesOf(members), d), PropertiesOf(closed))
    ensures Agrees(m, image, members, closed, x, d, defs, depth, holds)
    decreases defs.Keys - stack, m.value, 4
  {
    match m.key {
      case Properties => DictionaryMeaning(m.value, image.value, closed, x, d, defs, stack, depth, holds);
      case AdditionalProperties =>
        if !Overwritten(m.key, members, d) {
          AdditionalMeaning(m.value, image.value, members, closed, x, d, defs, stack, depth, holds);
        }
      case Items => ItemsMeaning(m.value, image.value, members, closed, x, d, defs, stack, depth, holds);
      case AnyOf => AnyOfMeaning(m.value, image.value, members, closed, x, d, defs, stack, depth, holds);
      case _ => PlainMeaning(m, image, members, closed, x, d, defs, stack, depth, holds);
    }
  }

  lemma {:induction false} ItemsMeaning(value: Json, image: Json, members: seq<Member>, closed: seq<Member>, x: Json,
                                        d: Dialect, defs: Definitions, stack: set<string>, depth: nat, holds: Assertions)
    requires RegularDefinitions(defs, d) && Regular(value, d) && Project(value, d, defs, stack) == Ok(image)
    requires depth >= |defs.Keys - stack|
    ensures Meets(Items, value, members, x, ModeOf(d), defs, depth, holds)
            <==> MeetsCompiled(Member(Items, image), closed, x, holds)
    decreases defs.Keys - stack, value, 3
  {
    ItemsUnfold(value, members, x, ModeOf(d), defs, depth, holds);
    ItemsUnfold(image, closed, x, Canonical, NO_DEFINITIONS, 0, holds);
    if x.Arr? {
      ForEach(value, image, x.items, d, defs, stack, depth, holds);
    }
  }

  ghost predicate EachAccepted(value: Json, instances: seq<Json>, mode: Mode, defs: Definitions, depth: nat,
                               holds: Assertions) {
    forall e | e in instances :: Accepts(value, e, mode, defs, depth, holds)
  }

  lemma ItemsUnfold(value: Json, members: seq<Member>, x: Json, mode: Mode, defs: Definitions, depth: nat,
                    holds: Assertions)
    ensures Meets(Items, value, members, x, mode, defs, depth, holds)
            <==> (x.Arr? ==> EachAccepted(value, x.items, mode, defs, depth, holds))
  {
  }

  lemma {:induction false} AnyOfMeaning(value: Json, image: Json, members: seq<Member>, closed: seq<Member>, x: Json,
                                        d: Dialect, defs: Definitions, stack: set<string>, depth: nat, holds: Assertions)
    requires RegularDefinitions(defs, d) && RegularValue(AnyOf, value, d) && Project(value, d, defs, stack) == Ok(image)
    requires depth >= |defs.Keys - stack|
    ensures Meets(AnyOf, value, members, x, ModeOf(d), defs, depth, holds)
            <==> MeetsCompiled(Member(AnyOf, image), closed, x, holds)
    decreases defs.Keys - stack, value, 3
  {
    var images := ArrayProjection(value, d, defs, stack, image);
    AnyOfUnfolds(value.items, members, x, ModeOf(d), defs, depth, holds);
    AnyOfUnfolds(images, closed, x, Canonical, NO_DEFINITIONS, 0, holds);
    AlternativesMeaning(value.items, images, x, d, defs, stack, depth, holds);
  }

  lemma ArrayProjection(value: Json, d: Dialect, defs: Definitions, stack: set<string>, image: Json)
    returns (images: seq<Json>)
    requires value.Arr? && Project(value, d, defs, stack) == Ok(image)
    ensures image == Arr(images) && ProjectItems(value.items, d, defs, stack) == Ok(images)
  {
    images := image.items;
  }

  ghost predicate SomeAccepts(items: seq<Json>, x: Json, mode: Mode, defs: Definitions, depth: nat, holds: Assertions) {
    exists i | 0 <= i < |items| :: Accepts(items[i], x, mode, defs, depth, holds)
  }

  lemma AnyOfUnfolds(items: seq<Json>, members: seq<Member>, x: Json, mode: Mode, defs: Definitions, depth: nat,
                     holds: Assertions)
    ensures Meets(AnyOf, Arr(items), members, x, mode, defs, depth, holds)
            <==> SomeAccepts(items, x, mode, defs, depth, holds)
  {
  }

  lemma PlainMeaning(m: Member, image: Member, members: seq<Member>, closed: seq<Member>, x: Json, d: Dialect,
                     defs: Definitions, stack: set<string>, depth: nat, holds: Assertions)
    requires m.key !in {Ref, Properties, Items, AdditionalProperties, AnyOf} && RegularValue(m.key, m.value, d)
    requires IsImage(m, image, d, defs, stack)
    ensures Agrees(m, image, members, closed, x, d, defs, depth, holds)
  {
    if !Annotation(m.key) {
      PlainIsFixed(m.key, m.value, d, defs, stack);
    }
  }

  lemma {:induction false} AdditionalMeaning(value: Json, image: Json, members: seq<Member>, closed: seq<Member>, x: Json,
                                             d: Dialect, defs: Definitions, stack: set<string>, depth: nat,
                                             holds: Assertions)
    requires RegularDefinitions(defs, d) && Regular(value, d) && Project(value, d, defs, stack) == Ok(image)
    requires depth >= |defs.Keys - stack|
    requires SameNames(Kept(PropertiesOf(members), d), PropertiesOf(closed)) && !Overwritten(AdditionalProperties, members, d)
    ensures Meets(AdditionalProperties, value, members, x, ModeOf(d), defs, depth, holds)
            <==> MeetsCompiled(Member(AdditionalProperties, image), closed, x, holds)
    decreases defs.Keys - stack, value, 3
  {
    AdditionalUnfolds(value, members, x, ModeOf(d), defs, depth, holds);
    AdditionalUnfolds(image, closed, x, Canonical, NO_DEFINITIONS, 0, holds);
    AllVisible(PropertiesOf(closed));
    if x.Obj? {
      ForEach(value, image, Values(x.members), d, defs, stack, depth, holds);
      AdditionalAgrees(value, image, Kept(PropertiesOf(members), d), PropertiesOf(closed), x, ModeOf(d), defs, depth, holds);
    }
  }

  lemma AdditionalUnfolds(value: Json, members: seq<Member>, x: Json, mode: Mode, defs: Definitions, depth: nat,
                          holds: Assertions)
    requires mode != Strict || !HasProperties(members)
    ensures Meets(AdditionalProperties, value, members, x, mode, defs, depth, holds)
            <==> (x.Obj? ==> OthersAccepted(value, Visible(PropertiesOf(members), mode), x, mode, defs, depth, holds))
  {
  }

  ghost predicate OthersAccepted(value: Json, properties: seq<Member>, x: Json, mode: Mode, defs: Definitions, depth: nat,
                                 holds: Assertions)
    requires x.Obj?
  {
    forall y | y in x.members && !HasKey(properties, y.key) :: Accepts(value, y.value, mode, defs, depth, holds)
  }

  lemma AdditionalAgrees(value: Json, image: Json, p: seq<Member>, q: seq<Member>, x: Json, mode: Mode, defs: Definitions,
                         depth: nat, holds: Assertions)
    requires x.Obj? && SameNames(p, q)
    requires forall e | e in Values(x.members) ::
               AcceptsCompiled(image, e, holds) <==> Accepts(value, e, mode, defs, depth, holds)
    ensures OthersAccepted(value, p, x, mode, defs, depth, holds)
            <==> OthersAccepted(image, q, x, Canonical, NO_DEFINITIONS, 0, holds)
  {
    SameNamesSameKeys(p, q);
    ValuesIn(x.members);
    forall y | y in x.members
      ensures AcceptsCompiled(image, y.value, holds) <==> Accepts(value, y.value, mode, defs, depth, holds)
    {
      assert y.value in Values(x.members);
    }
  }

  function Values(members: seq<Member>): (r: seq<Json>)
    ensures |r| == |members| && forall i | 0 <= i < |r| :: r[i] == members[i].value
  {
    seq(|members|, i requires 0 <= i < |members| => members[i].value)
  }

  lemma ValuesIn(members: seq<Member>)
    ensures forall y | y in members :: y.value in Values(members)
  {
    forall y | y in members ensures y.value in Values(members) {
      var i :| 0 <= i < |members| && members[i] == y;
      assert Values(members)[i] == y.value;
    }
  }

  /** One schema applied to many instances. */
  lemma {:induction false} ForEach(s: Json, p: Json, instances: seq<Json>, d: Dialect, defs: Definitions,
                                   stack: set<string>, depth: nat, holds: Assertions)
    requires RegularDefinitions(defs, d) && Regular(s, d) && Project(s, d, defs, stack) == Ok(p)
    requires depth >= |defs.Keys - stack|
    ensures forall e | e in instances ::
              AcceptsCompiled(p, e, holds) <==> Accepts(s, e, ModeOf(d), defs, depth, holds)
    decreases defs.Keys - stack, s, 2
  {
    forall e | e in instances
      ensures AcceptsCompiled(p, e, holds) <==> Accepts(s, e, ModeOf(d), defs, depth, holds)
    {
      ProjectionMeaning(s, e, d, defs, stack, depth, holds, p);
    }
  }

  /** Many schemas applied to one instance. */
  lemma {:induction false} AlternativesMeaning(items: seq<Json>, images: seq<Json>, x: Json, d: Dialect, defs: Definitions,
                                               stack: set<string>, depth: nat, holds: Assertions)
    requires RegularDefinitions(defs, d) && forall i | 0 <= i < |items| :: Regular(items[i], d)
    requires ProjectItems(items, d, defs, stack) == Ok(images)
    requires depth >= |defs.Keys - stack|
    ensures |images| == |items|
    ensures forall i | 0 <= i < |items| ::
              AcceptsCompiled(images[i], x, holds) <==> Accepts(items[i], x, ModeOf(d), defs, depth, holds)
    decreases defs.Keys - stack, items
  {
    ItemImages(items, d, defs, stack, images);
    forall i | 0 <= i < |items|
      ensures AcceptsCompiled(images[i], x, holds) <==> Accepts(items[i], x, ModeOf(d), defs, depth, holds)
    {
      ProjectionMeaning(items[i], x, d, defs, stack, depth, holds, images[i]);
    }
  }

  lemma PlainIsFixed(key: Text, value: Json, d: Dialect, defs: Definitions, stack: set<string>)
    requires key !in {Properties, Items, AdditionalProperties, AnyOf} && !Annotation(key) && RegularValue(key, value, d)
    ensures Project(value, d, defs, stack) == Ok(value)
  {
    assert Clean(value, d);
    CleanIsFixed(value, d, defs, stack);
  }

  lemma {:induction false} ItemImages(items: seq<Json>, d: Dialect, defs: Definitions, stack: set<string>,
                                      projected: seq<Json>)
    requires ProjectItems(items, d, defs, stack) == Ok(projected)
    ensures |projected| == |items|
    ensures forall i | 0 <= i < |items| :: Project(items[i], d, defs, stack) == Ok(projected[i])
    decreases items
  {
    if items != [] {
      ItemImages(items[..|items| - 1], d, defs, stack, ProjectItems(items[..|items| - 1], d, defs, stack).value);
    }
  }

  /** The properties keyword, whose strict reading also fixes the names. */
  lemma {:induction false} DictionaryMeaning(value: Json, image: Json, closed: seq<Member>, x: Json, d: Dialect,
                                             defs: Definitions, stack: set<string>, depth: nat, holds: Assertions)
    requires RegularDefinitions(defs, d) && RegularValue(Properties, value, d)
    requires Project(value, d, defs, stack) == Ok(image)
    requires depth >= |defs.Keys - stack|
    ensures image.Obj? && SameNames(Kept(value.members, d), image.members)
    ensures Meets(Properties, value, closed, x, ModeOf(d), defs, depth, holds) <==>
              MeetsCompiled(Member(Properties, image), closed, x, holds) && (d == Gemini || Exact(x, image.members))
    decreases defs.Keys - stack, value, 2
  {
    DictionaryImage(value, d, defs, stack);
    SameNamesExact(x, Kept(value.members, d), image.members);
    PropertiesUnfold(value, closed, x, ModeOf(d), defs, depth, holds);
    PropertiesUnfold(image, closed, x, Canonical, NO_DEFINITIONS, 0, holds);
    AllVisible(image.members);
    if x.Obj? {
      EachMeaning(value, Kept(value.members, d), image.members, x, d, defs, stack, depth, holds);
    }
  }

  lemma {:induction false} EachMeaning(value: Json, props: seq<Member>, images: seq<Member>, x: Json, d: Dialect,
                                       defs: Definitions, stack: set<string>, depth: nat, holds: Assertions)
    requires RegularDefinitions(defs, d) && RegularValue(Properties, value, d) && props == Kept(value.members, d)
    requires x.Obj? && SameNames(props, images) && PropertyImages(props, images, d, defs, stack)
    requires depth >= |defs.Keys - stack|
    ensures EachHolds(props, x, ModeOf(d), defs, depth, holds) <==> EachHolds(images, x, Canonical, NO_DEFINITIONS, 0, holds)
    decreases defs.Keys - stack, value, 1
  {
    forall i | 0 <= i < |props| && HasKey(x.members, props[i].key)
      ensures AcceptsCompiled(images[i].value, Get(x.members, props[i].key), holds)
              <==> Accepts(props[i].value, Get(x.members, props[i].key), ModeOf(d), defs, depth, holds)
    {
      KeptProperty(value, props[i], d);
      ProjectionMeaning(props[i].value, Get(x.members, props[i].key), d, defs, stack, depth, holds, images[i].value);
    }
    DictionaryAgrees(props, images, x, ModeOf(d), defs, depth, holds);
  }

  /** The properties keyword speaks of the visible properties. */
  lemma PropertiesUnfold(value: Json, members: seq<Member>, x: Json, mode: Mode, defs: Definitions, depth: nat,
                         holds: Assertions)
    requires value.Obj?
    ensures Meets(Properties, value, members, x, mode, defs, depth, holds) <==>
              (x.Obj? ==>
                 && EachHolds(Visible(value.members, mode), x, mode, defs, depth, holds)
                 && (mode == Strict ==> Exact(x, Visible(value.members, mode))))
  {
    if x.Obj? {
      var visible := Visible(value.members, mode);
      forall p | p in visible ensures p.value < value && p.value < Obj(visible) {
        InMembers(p, value.members);
        InMembers(p, visible);
      }
    }
  }

  lemma KeptProperty(value: Json, p: Member, d: Dialect)
    requires RegularValue(Properties, value, d) && p in Kept(value.members, d)
    ensures p in value.members && p.value < value && Regular(p.value, d)
  {
    InMembers(p, value.members);
  }

  ghost predicate EachHolds(props: seq<Member>, x: Json, mode: Mode, defs: Definitions, depth: nat, holds: Assertions)
    requires x.Obj?
  {
    forall p | p in props && p.value < Obj(props) && HasKey(x.members, p.key) ::
      Accepts(p.value, Get(x.members, p.key), mode, defs, depth, holds)
  }

  lemma DictionaryAgrees(props: seq<Member>, images: seq<Member>, x: Json, mode: Mode, defs: Definitions, depth: nat,
                         holds: Assertions)
    requires x.Obj? && SameNames(props, images)
    requires forall i | 0 <= i < |props| && HasKey(x.members, props[i].key) ::
               AcceptsCompiled(images[i].value, Get(x.members, props[i].key), holds)
               <==> Accepts(props[i].value, Get(x.members, props[i].key), mode, defs, depth, holds)
    ensures EachHolds(props, x, mode, defs, depth, holds) <==> EachHolds(images, x, Canonical, NO_DEFINITIONS, 0, holds)
  {
    if EachHolds(props, x, mode, defs, depth, holds) {
      forall p | p in images && p.value < Obj(images) && HasKey(x.members, p.key)
        ensures Accepts(p.value, Get(x.members, p.key), Canonical, NO_DEFINITIONS, 0, holds)
      {
        var i :| 0 <= i < |images| && images[i] == p;
        InMembers(props[i], props);
      }
    }
    if EachHolds(images, x, Canonical, NO_DEFINITIONS, 0, holds) {
      forall p | p in props && p.value < Obj(props) && HasKey(x.members, p.key)
        ensures Accepts(p.value, Get(x.members, p.key), mode, defs, depth, holds)
      {
        var i :| 0 <= i < |props| && props[i] == p;
        InMembers(images[i], images);
        assert AcceptsCompiled(images[i].value, Get(x.members, props[i].key), holds);
      }
    }
  }

  // ----- one object -----

  /** The facts that the two directions below share. */
  ghost predicate ObjectImage(members: seq<Member>, projected: seq<Member>, x: Json, d: Dialect, defs: Definitions,
                              stack: set<string>, depth: nat, holds: Assertions) {
    && Regular(Obj(members), d) && !HasKey(members, Ref)
    && ProjectMembers(members, d, defs, stack) == Ok(projected)
    && ImagesOf(Kept(members, d), projected, d, defs, stack)
    && (forall i | 0 <= i < |projected| ::
          Agrees(Kept(members, d)[i], projected[i], members, Close(projected, d), x, d, defs, depth, holds))
  }

  lemma RequiredMeansAll(closed: seq<Member>, properties: seq<Member>, x: Json, holds: Assertions)
    ensures MeetsCompiled(Member(Required, Arr(Names(properties))), closed, x, holds)
            <==> (x.Obj? ==> HasAll(x.members, properties))
  {
    var names := Names(properties);
    if x.Obj? {
      if forall n | n in names && n.Str? :: HasKey(x.members, n.text) {
        forall i | 0 <= i < |properties| ensures HasKey(x.members, properties[i].key) {
          assert names[i] == Str(properties[i].key) && names[i] in names;
        }
      }
    }
  }

  lemma AdditionalMeansOnly(closed: seq<Member>, x: Json, holds: Assertions)
    ensures MeetsCompiled(Member(AdditionalProperties, Bool(false)), closed, x, holds)
            <==> (x.Obj? ==> HasOnly(x.members, PropertiesOf(closed)))
  {
    var properties := PropertiesOf(closed);
    AllVisible(properties);
    if x.Obj? {
      if forall y | y in x.members :: HasKey(properties, y.key) {
        forall i | 0 <= i < |x.members| ensures HasKey(properties, x.members[i].key) {
          assert x.members[i] in x.members;
        }
      }
    }
  }

  /** Closing fixes exactly the names of the properties dictionary. */
  lemma ClosingIsExact(projected: seq<Member>, x: Json, d: Dialect, holds: Assertions)
    requires UniqueKeys(projected) && d != Gemini && HasProperties(projected)
    ensures
      var closed := Close(projected, d);
      var names := Arr(Names(PropertiesOf(projected)));
      (MeetsCompiled(Member(Required, names), closed, x, holds)
       && MeetsCompiled(Member(AdditionalProperties, Bool(false)), closed, x, holds))
      <==> Exact(x, PropertiesOf(projected))
  {
    CloseFacts(projected, d);
    RequiredMeansAll(Close(projected, d), PropertiesOf(projected), x, holds);
    AdditionalMeansOnly(Close(projected, d), x, holds);
  }

  lemma ImageInClosed(members: seq<Member>, projected: seq<Member>, i: nat, d: Dialect, defs: Definitions,
                      stack: set<string>)
    requires UniqueKeys(projected) && i < |projected| == |Kept(members, d)|
    requires IsImage(Kept(members, d)[i], projected[i], d, defs, stack)
    requires HasProperties(members) <==> HasProperties(projected)
    requires !Overwritten(Kept(members, d)[i].key, members, d)
    ensures projected[i] in Close(projected, d)
  {
    CloseFacts(projected, d);
  }

  /** A compiled strict object fixes its names. */
  lemma CompiledIsExact(projected: seq<Member>, x: Json, d: Dialect, holds: Assertions)
    requires UniqueKeys(projected) && d != Gemini && HasProperties(projected) && !HasKey(Close(projected, d), Ref)
    requires AcceptsCompiled(Obj(Close(projected, d)), x, holds)
    ensures Exact(x, PropertiesOf(projected))
  {
    CloseFacts(projected, d);
    InMembers(Member(Required, Arr(Names(PropertiesOf(projected)))), Close(projected, d));
    InMembers(Member(AdditionalProperties, Bool(false)), Close(projected, d));
    ClosingIsExact(projected, x, d, holds);
  }

  lemma SourceAccepts(members: seq<Member>, projected: seq<Member>, x: Json, d: Dialect, defs: Definitions,
                      stack: set<string>, depth: nat, holds: Assertions, i: nat)
    requires ObjectImage(members, projected, x, d, defs, stack, depth, holds)
    requires AcceptsCompiled(Obj(Close(projected, d)), x, holds)
    requires i < |projected|
    ensures var m := Kept(members, d)[i];
            Meets(m.key, m.value, members, x, ModeOf(d), defs, depth, holds)
  {
    var m, closed := Kept(members, d)[i], Close(projected, d);
    CloseKeepsNames(members, d, defs, stack, projected);
    NoReference(members, projected, d, defs, stack);
    if !Overwritten(m.key, members, d) {
      ImageInClosed(members, projected, i, d, defs, stack);
      InMembers(projected[i], closed);
      assert MeetsCompiled(projected[i], closed, x, holds);
      assert Agrees(m, projected[i], members, closed, x, d, defs, depth, holds);
      if m.key == Properties && d != Gemini {
        GetAt(projected, i);
        CompiledIsExact(projected, x, d, holds);
      }
    } else {
      OverwrittenMeets(m, members, x, d, defs, depth, holds);
    }
  }

  lemma OverwrittenMeets(m: Member, members: seq<Member>, x: Json, d: Dialect, defs: Definitions, depth: nat,
                         holds: Assertions)
    requires Overwritten(m.key, members, d)
    ensures Meets(m.key, m.value, members, x, ModeOf(d), defs, depth, holds)
  {
  }

  lemma DroppedMeets(m: Member, members: seq<Member>, x: Json, d: Dialect, defs: Definitions, depth: nat,
                     holds: Assertions)
    requires Dropped(m.key, d)
    ensures Meets(m.key, m.value, members, x, ModeOf(d), defs, depth, holds)
  {
  }

  lemma KeptAccepts(members: seq<Member>, projected: seq<Member>, x: Json, d: Dialect, defs: Definitions,
                    stack: set<string>, depth: nat, holds: Assertions, i: nat)
    requires ObjectImage(members, projected, x, d, defs, stack, depth, holds)
    requires Accepts(Obj(members), x, ModeOf(d), defs, depth, holds)
    requires i < |projected| && !Overwritten(projected[i].key, members, d)
    ensures MeetsCompiled(projected[i], Close(projected, d), x, holds)
  {
    var m := Kept(members, d)[i];
    KeptMember(members, Kept(members, d), i, d);
    assert m in Kept(members, d);
    assert Meets(m.key, m.value, members, x, ModeOf(d), defs, depth, holds);
    assert IsImage(m, projected[i], d, defs, stack);
    assert Agrees(m, projected[i], members, Close(projected, d), x, d, defs, depth, holds);
  }

  lemma StrictProperties(value: Json, members: seq<Member>, x: Json, defs: Definitions, depth: nat, holds: Assertions)
    requires value.Obj? && Meets(Properties, value, members, x, Strict, defs, depth, holds)
    ensures Exact(x, Visible(value.members, Strict))
  {
  }

  lemma StrictIsExact(members: seq<Member>, projected: seq<Member>, x: Json, d: Dialect, defs: Definitions,
                      stack: set<string>, depth: nat, holds: Assertions)
    requires ObjectImage(members, projected, x, d, defs, stack, depth, holds)
    requires Accepts(Obj(members), x, ModeOf(d), defs, depth, holds)
    requires d != Gemini && HasProperties(members)
    ensures HasProperties(projected) && Exact(x, PropertiesOf(projected))
  {
    var m := Member(Properties, Get(members, Properties));
    InMembers(m, members);
    StrictProperties(m.value, members, x, defs, depth, holds);
    PropertiesAreRegular(members, d);
    PropertiesKept(members, Kept(members, d), projected, d, defs, stack);
    DictionaryImage(m.value, d, defs, stack);
    SameNamesExact(x, Kept(m.value.members, d), PropertiesOf(projected));
  }

  lemma ImageOfClosed(members: seq<Member>, projected: seq<Member>, d: Dialect, image: Member) returns (i: nat)
    requires UniqueKeys(projected) && (HasProperties(members) <==> HasProperties(projected))
    requires image in Close(projected, d) && !Overwritten(image.key, members, d)
    ensures i < |projected| && projected[i] == image
  {
    CloseFacts(projected, d);
    assert image in projected;
    i :| 0 <= i < |projected| && projected[i] == image;
  }

  lemma ClosedImage(members: seq<Member>, projected: seq<Member>, d: Dialect, image: Member)
    requires UniqueKeys(projected) && (HasProperties(members) <==> HasProperties(projected))
    requires image in Close(projected, d) && Overwritten(image.key, members, d)
    ensures image == Member(AdditionalProperties, Bool(false))
            || image == Member(Required, Arr(Names(PropertiesOf(projected))))
  {
    CloseFacts(projected, d);
  }

  lemma CompiledAccepts(members: seq<Member>, projected: seq<Member>, x: Json, d: Dialect, defs: Definitions,
                        stack: set<string>, depth: nat, holds: Assertions, image: Member)
    requires ObjectImage(members, projected, x, d, defs, stack, depth, holds)
    requires Accepts(Obj(members), x, ModeOf(d), defs, depth, holds)
    requires image in Close(projected, d)
    ensures MeetsCompiled(image, Close(projected, d), x, holds)
  {
    CloseKeepsNames(members, d, defs, stack, projected);
    if Overwritten(image.key, members, d) {
      ClosedImage(members, projected, d, image);
      StrictIsExact(members, projected, x, d, defs, stack, depth, holds);
      ClosingIsExact(projected, x, d, holds);
    } else {
      var i := ImageOfClosed(members, projected, d, image);
      KeptAccepts(members, projected, x, d, defs, stack, depth, holds, i);
    }
  }

  lemma ObjectMeaning(members: seq<Member>, projected: seq<Member>, x: Json, d: Dialect,
                      defs: Definitions, stack: set<string>, depth: nat, holds: Assertions)
    requires ObjectImage(members, projected, x, d, defs, stack, depth, holds)
    ensures AcceptsCompiled(Obj(Close(projected, d)), x, holds)
            <==> Accepts(Obj(members), x, ModeOf(d), defs, depth, holds)
  {
    var closed := Close(projected, d);
    CloseKeepsNames(members, d, defs, stack, projected);
    NoReference(members, projected, d, defs, stack);
    if AcceptsCompiled(Obj(closed), x, holds) {
      forall m | m in members && m.value < Obj(members)
        ensures Meets(m.key, m.value, members, x, ModeOf(d), defs, depth, holds)
      {
        if Dropped(m.key, d) {
          DroppedMeets(m, members, x, d, defs, depth, holds);
        } else {
          var kept := Kept(members, d);
          assert m in kept;
          var i :| 0 <= i < |kept| && kept[i] == m;
          SourceAccepts(members, projected, x, d, defs, stack, depth, holds, i);
        }
      }
    }
    if Accepts(Obj(members), x, ModeOf(d), defs, depth, holds) {
      forall image | image in closed && image.value < Obj(closed)
        ensures MeetsCompiled(image, closed, x, holds)
      {
        CompiledAccepts(members, projected, x, d, defs, stack, depth, holds, image);
      }
    }
  }

  lemma NoReference(members: seq<Member>, projected: seq<Member>, d: Dialect, defs: Definitions, stack: set<string>)
    requires !HasKey(members, Ref) && ImagesOf(Kept(members, d), projected, d, defs, stack)
    ensures !HasKey(Close(projected, d), Ref)
  {
    var kept := Kept(members, d);
    forall i | 0 <= i < |projected| ensures projected[i].key != Ref {
      assert kept[i] in kept;
      var k :| 0 <= k < |members| && members[k] == kept[i];
      assert IsImage(kept[i], projected[i], d, defs, stack);
    }
    CloseAddsNoReference(projected, d);
  }

  lemma CloseAddsNoReference(projected: seq<Member>, d: Dialect)
    requires UniqueKeys(projected) && forall i | 0 <= i < |projected| :: projected[i].key != Ref
    ensures !HasKey(Close(projected, d), Ref)
  {
    CloseFacts(projected, d);
    var closed := Close(projected, d);
    forall i | 0 <= i < |closed| ensures closed[i].key != Ref {
      assert closed[i] in closed;
    }
  }
}
