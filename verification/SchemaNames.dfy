/**
 The exact difference between neighbouring readings of a schema, at every depth: of the instances that the stronger
 reading accepts, the weaker one accepts exactly those that meet none of the things a dialect is not told.
 */
module SchemaNames {
  import opened Wrappers
  import opened ProviderSchema
  import opened SchemaProjection
  import opened SchemaMeaning
  import opened SchemaDirections

  /** A schema without parts: a type with its bounds, say. */
  predicate Flat(s: Json) {
    s.Obj? ==> forall m | m in s.members :: m.key !in {Ref, Properties, Items, AdditionalProperties, AnyOf}
  }

  /**
   The two readings do not take the instance for different alternatives: wherever it meets an anyOf, an alternative
   that the stronger reading accepts is flat, or the only one that the weaker reading accepts.
   */
  ghost predicate Unmixed(s: Json, x: Json, strong: Mode, weak: Mode, defs: Definitions, depth: nat, holds: Assertions)
    decreases depth, s, 0
  {
    s.Obj? ==>
      if HasKey(s.members, Ref) then
        var target := ResolveReference(Get(s.members, Ref), defs, {});
        depth > 0 && target.Ok? ==> Unmixed(defs[target.value], x, strong, weak, defs, depth - 1, holds)
      else
        forall m | m in s.members && m.value < s :: UnmixedIn(m.key, m.value, x, strong, weak, defs, depth, holds)
  }

  ghost predicate UnmixedIn(key: Text, value: Json, x: Json, strong: Mode, weak: Mode, defs: Definitions, depth: nat,
                            holds: Assertions)
    decreases depth, value, 1
  {
    match key
    case Properties =>
      value.Obj? && x.Obj? ==>
        forall p | p in value.members && p.value < value && HasKey(x.members, p.key) ::
          Unmixed(p.value, Get(x.members, p.key), strong, weak, defs, depth, holds)
    case AdditionalProperties =>
      x.Obj? ==> forall y | y in x.members :: Unmixed(value, y.value, strong, weak, defs, depth, holds)
    case Items => x.Arr? ==> forall e | e in x.items :: Unmixed(value, e, strong, weak, defs, depth, holds)
    case AnyOf =>
      value.Arr? ==>
        forall i, k | 0 <= i < |value.items| && 0 <= k < |value.items|
                      && Accepts(value.items[i], x, strong, defs, depth, holds)
                      && Accepts(value.items[k], x, weak, defs, depth, holds) ::
          Flat(value.items[i]) || (i == k && Unmixed(value.items[i], x, strong, weak, defs, depth, holds))
    case _ => true
  }

  lemma FlatIsAlong(s: Json, x: Json, strong: Mode, defs: Definitions, depth: nat, holds: Assertions)
    requires Flat(s)
    ensures Along(s, x, strong, defs, depth, holds)
  {
    if s.Obj? {
      assert !HasKey(s.members, Ref) && !HasProperties(s.members);
      forall m | m in s.members && m.value < s
        ensures AlongIn(m.key, m.value, s.members, x, strong, defs, depth, holds)
      {
        assert m.key !in {Ref, Properties, Items, AdditionalProperties, AnyOf};
      }
    }
  }

  /** What both readings accept is along the schema. */
  lemma {:induction false} BothAccept(s: Json, x: Json, strong: Mode, weak: Mode, defs: Definitions, depth: nat,
                                      holds: Assertions)
    requires Weaker(strong, weak) && Unmixed(s, x, strong, weak, defs, depth, holds)
    requires Accepts(s, x, strong, defs, depth, holds) && Accepts(s, x, weak, defs, depth, holds)
    ensures Along(s, x, strong, defs, depth, holds)
    decreases depth, s, 0
  {
    if s.Obj? {
      if HasKey(s.members, Ref) {
        var name := ResolveReference(Get(s.members, Ref), defs, {}).value;
        BothAccept(defs[name], x, strong, weak, defs, depth - 1, holds);
      } else {
        if strong == Strict && x.Obj? && HasProperties(s.members) { BothName(s.members, x, defs, depth, holds); }
        if strong == Canonical && x.Obj? { BothAllow(s.members, x, defs, depth, holds); }
        forall m | m in s.members && m.value < s
          ensures AlongIn(m.key, m.value, s.members, x, strong, defs, depth, holds)
        {
          BothMeet(m, s.members, x, strong, weak, defs, depth, holds);
        }
      }
    }
  }

  lemma BothName(members: seq<Member>, x: Json, defs: Definitions, depth: nat, holds: Assertions)
    requires !HasKey(members, Ref) && x.Obj? && HasProperties(members)
    requires Accepts(Obj(members), x, Strict, defs, depth, holds) && Accepts(Obj(members), x, Canonical, defs, depth, holds)
    ensures RootNamed(members)
  {
    forall m | m in members && m.key == Required
      ensures NamesAmong(m.value, Visible(PropertiesOf(members), Strict))
    {
      InMembers(m, members);
      if m.value.Arr? { RequiredIff(members, m.value, x, defs, depth, holds); }
    }
  }

  lemma BothAllow(members: seq<Member>, x: Json, defs: Definitions, depth: nat, holds: Assertions)
    requires !HasKey(members, Ref) && x.Obj? && Accepts(Obj(members), x, Lax, defs, depth, holds)
    ensures HiddenAllowed(members, x, defs, depth, holds)
  {
    VisibleKeys(PropertiesOf(members), Lax);
    forall m, y | m in members && m.key == AdditionalProperties && y in x.members
                  && HasKey(PropertiesOf(members), y.key) && Hidden(y.key, Lax)
      ensures Accepts(m.value, y.value, Lax, defs, depth, holds)
    {
      InMembers(m, members);
      assert Meets(m.key, m.value, members, x, Lax, defs, depth, holds);
    }
  }

  lemma {:induction false} BothMeet(m: Member, members: seq<Member>, x: Json, strong: Mode, weak: Mode, defs: Definitions,
                                    depth: nat, holds: Assertions)
    requires Weaker(strong, weak) && UnmixedIn(m.key, m.value, x, strong, weak, defs, depth, holds)
    requires Meets(m.key, m.value, members, x, strong, defs, depth, holds)
    requires Meets(m.key, m.value, members, x, weak, defs, depth, holds)
    ensures AlongIn(m.key, m.value, members, x, strong, defs, depth, holds)
    decreases depth, m.value, 1
  {
    match m.key {
      case Properties =>
        if m.value.Obj? && x.Obj? {
          forall p | p in m.value.members && p.value < m.value && !Hidden(p.key, Told(strong)) && HasKey(x.members, p.key)
            ensures Along(p.value, Get(x.members, p.key), strong, defs, depth, holds)
          {
            BothAccept(p.value, Get(x.members, p.key), strong, weak, defs, depth, holds);
          }
        }
      case AdditionalProperties =>
        if x.Obj? && !(strong == Strict && HasProperties(members)) {
          VisibleKeys(PropertiesOf(members), strong);
          VisibleKeys(PropertiesOf(members), weak);
          forall y | y in x.members && !HasKey(PropertiesOf(members), y.key)
            ensures Along(m.value, y.value, strong, defs, depth, holds)
          {
            BothAccept(m.value, y.value, strong, weak, defs, depth, holds);
          }
        }
      case Items =>
        if x.Arr? {
          forall e | e in x.items ensures Along(m.value, e, strong, defs, depth, holds) {
            BothAccept(m.value, e, strong, weak, defs, depth, holds);
          }
        }
      case AnyOf => if m.value.Arr? { BothChoose(m.value, x, strong, weak, defs, depth, holds); }
      case _ =>
    }
  }

  lemma {:induction false} BothChoose(value: Json, x: Json, strong: Mode, weak: Mode, defs: Definitions, depth: nat,
                                      holds: Assertions)
    requires Weaker(strong, weak) && value.Arr? && UnmixedIn(AnyOf, value, x, strong, weak, defs, depth, holds)
    requires exists i | 0 <= i < |value.items| :: Accepts(value.items[i], x, strong, defs, depth, holds)
    requires exists i | 0 <= i < |value.items| :: Accepts(value.items[i], x, weak, defs, depth, holds)
    ensures exists i | 0 <= i < |value.items| ::
              Accepts(value.items[i], x, strong, defs, depth, holds) && Along(value.items[i], x, strong, defs, depth, holds)
    decreases depth, value, 0
  {
    var i :| 0 <= i < |value.items| && Accepts(value.items[i], x, strong, defs, depth, holds);
    var k :| 0 <= k < |value.items| && Accepts(value.items[k], x, weak, defs, depth, holds);
    if Flat(value.items[i]) {
      FlatIsAlong(value.items[i], x, strong, defs, depth, holds);
    } else {
      BothAccept(value.items[i], x, strong, weak, defs, depth, holds);
    }
  }

  /** Of the instances that a reading accepts, the weaker reading accepts exactly those that are along the schema. */
  lemma AlongDecides(s: Json, x: Json, strong: Mode, weak: Mode, defs: Definitions, depth: nat, holds: Assertions)
    requires Weaker(strong, weak) && Accepts(s, x, strong, defs, depth, holds)
    requires Unmixed(s, x, strong, weak, defs, depth, holds)
    ensures Accepts(s, x, weak, defs, depth, holds) <==> Along(s, x, strong, defs, depth, holds)
  {
    if Accepts(s, x, weak, defs, depth, holds) { BothAccept(s, x, strong, weak, defs, depth, holds); }
    if Along(s, x, strong, defs, depth, holds) { AlongAccepts(s, x, strong, weak, defs, depth, holds); }
  }

  /**
   What OpenAI or Anthropic may answer beyond the canonical schema: an instance that the compiled schema accepts is
   accepted by the canonical one whenever it is along the schema, and, unless the readings take it for different
   alternatives of an anyOf, only then.
   */
  lemma StrictCompiledDecides(decoded: Json, d: Dialect, p: Json, x: Json, depth: nat, holds: Assertions)
    requires d != Gemini && Compile(decoded, d) == Ok(p)
    requires Regular(decoded, d) && RegularDefinitions(DefinitionsIn(decoded), d)
    requires depth >= |DefinitionsIn(decoded)| && AcceptsCompiled(p, x, holds)
    ensures
      var defs := DefinitionsIn(decoded);
      Along(decoded, x, Strict, defs, depth, holds) ==> Accepts(decoded, x, Canonical, defs, depth, holds)
    ensures
      var defs := DefinitionsIn(decoded);
      Unmixed(decoded, x, Strict, Canonical, defs, depth, holds) ==>
        (Accepts(decoded, x, Canonical, defs, depth, holds) <==> Along(decoded, x, Strict, defs, depth, holds))
  {
    var defs := DefinitionsIn(decoded);
    CompiledMeaning(decoded, d, p, x, depth, holds);
    if Along(decoded, x, Strict, defs, depth, holds) {
      AlongAccepts(decoded, x, Strict, Canonical, defs, depth, holds);
    }
    if Unmixed(decoded, x, Strict, Canonical, defs, depth, holds) {
      AlongDecides(decoded, x, Strict, Canonical, defs, depth, holds);
    }
  }

  /** The same for Gemini, in the other direction: which answers of the canonical schema its schema lets through. */
  lemma GeminiCompiledDecides(decoded: Json, p: Json, x: Json, depth: nat, holds: Assertions)
    requires Compile(decoded, Gemini) == Ok(p)
    requires Regular(decoded, Gemini) && RegularDefinitions(DefinitionsIn(decoded), Gemini)
    requires depth >= |DefinitionsIn(decoded)| && Accepts(decoded, x, Canonical, DefinitionsIn(decoded), depth, holds)
    ensures
      var defs := DefinitionsIn(decoded);
      Along(decoded, x, Canonical, defs, depth, holds) ==> AcceptsCompiled(p, x, holds)
    ensures
      var defs := DefinitionsIn(decoded);
      Unmixed(decoded, x, Canonical, Lax, defs, depth, holds) ==>
        (AcceptsCompiled(p, x, holds) <==> Along(decoded, x, Canonical, defs, depth, holds))
  {
    var defs := DefinitionsIn(decoded);
    CompiledMeaning(decoded, Gemini, p, x, depth, holds);
    if Along(decoded, x, Canonical, defs, depth, holds) {
      AlongAccepts(decoded, x, Canonical, Lax, defs, depth, holds);
    }
    if Unmixed(decoded, x, Canonical, Lax, defs, depth, holds) {
      AlongDecides(decoded, x, Canonical, Lax, defs, depth, holds);
    }
  }

  // ----- schemas whose alternatives are flat mix nothing -----

  ghost predicate FlatAlternatives(s: Json)
    decreases s, 0
  {
    s.Obj? && !HasKey(s.members, Ref) ==> forall m | m in s.members && m.value < s :: FlatIn(m.key, m.value)
  }

  ghost predicate FlatIn(key: Text, value: Json)
    decreases value, 1
  {
    match key
    case Properties => value.Obj? ==> forall p | p in value.members && p.value < value :: FlatAlternatives(p.value)
    case Items => FlatAlternatives(value)
    case AdditionalProperties => FlatAlternatives(value)
    case AnyOf => value.Arr? ==> forall i | 0 <= i < |value.items| :: Flat(value.items[i])
    case _ => true
  }

  lemma {:induction false} FlatIsUnmixed(s: Json, x: Json, strong: Mode, weak: Mode, defs: Definitions, depth: nat,
                                         holds: Assertions)
    requires FlatAlternatives(s) && forall name | name in defs :: FlatAlternatives(defs[name])
    ensures Unmixed(s, x, strong, weak, defs, depth, holds)
    decreases depth, s, 0
  {
    if s.Obj? {
      if HasKey(s.members, Ref) {
        var target := ResolveReference(Get(s.members, Ref), defs, {});
        if depth > 0 && target.Ok? { FlatIsUnmixed(defs[target.value], x, strong, weak, defs, depth - 1, holds); }
      } else {
        forall m | m in s.members && m.value < s
          ensures UnmixedIn(m.key, m.value, x, strong, weak, defs, depth, holds)
        {
          FlatIsUnmixedIn(m.key, m.value, x, strong, weak, defs, depth, holds);
        }
      }
    }
  }

  lemma {:induction false} FlatIsUnmixedIn(key: Text, value: Json, x: Json, strong: Mode, weak: Mode, defs: Definitions,
                                           depth: nat, holds: Assertions)
    requires FlatIn(key, value) && forall name | name in defs :: FlatAlternatives(defs[name])
    ensures UnmixedIn(key, value, x, strong, weak, defs, depth, holds)
    decreases depth, value, 1
  {
    match key {
      case Properties =>
        if value.Obj? && x.Obj? {
          forall p | p in value.members && p.value < value && HasKey(x.members, p.key)
            ensures Unmixed(p.value, Get(x.members, p.key), strong, weak, defs, depth, holds)
          {
            FlatIsUnmixed(p.value, Get(x.members, p.key), strong, weak, defs, depth, holds);
          }
        }
      case AdditionalProperties =>
        if x.Obj? {
          forall y | y in x.members ensures Unmixed(value, y.value, strong, weak, defs, depth, holds) {
            FlatIsUnmixed(value, y.value, strong, weak, defs, depth, holds);
          }
        }
      case Items =>
        if x.Arr? {
          forall e | e in x.items ensures Unmixed(value, e, strong, weak, defs, depth, holds) {
            FlatIsUnmixed(value, e, strong, weak, defs, depth, holds);
          }
        }
      case _ =>
    }
  }
}
