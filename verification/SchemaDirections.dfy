/**
 In which direction compiled schemas differ from their source: the strict dialects accept no more,
 Gemini accepts no less.
 */
module SchemaDirections {
  import opened Wrappers
  import opened ProviderSchema
  import opened SchemaProjection
  import opened SchemaMeaning

  predicate NamesAmong(required: Json, properties: seq<Member>) {
    required.Arr? ==>
      forall i | 0 <= i < |required.items| && required.items[i].Str? :: HasKey(properties, required.items[i].text)
  }

  /** From the strict reading to the standard one, and from the standard one to the lax one. */
  predicate Weaker(strong: Mode, weak: Mode) {
    (strong == Strict && weak == Canonical) || (strong == Canonical && weak == Lax)
  }

  /** Of two neighbouring readings, the one that drops names. */
  function Told(strong: Mode): Mode {
    if strong == Strict then Strict else Lax
  }

  /** Every required list of this object names properties that the strict dialects keep. */
  predicate RootNamed(members: seq<Member>) {
    forall m | m in members && m.key == Required :: NamesAmong(m.value, Visible(PropertiesOf(members), Strict))
  }

  // ----- what an instance must meet for a weaker reading to accept it too -----

  /**
   The instance, along its own structure, meets none of the things that a dialect is not told: for Strict, required
   names that the compiler does not keep as properties, and keywords beside a reference; for Canonical, an
   additionalProperties keyword that rejects a property whose name Gemini is not told.
   */
  ghost predicate Along(s: Json, x: Json, strong: Mode, defs: Definitions, depth: nat, holds: Assertions)
    decreases depth, s, 0
  {
    s.Obj? ==>
      if HasKey(s.members, Ref) then
        var target := ResolveReference(Get(s.members, Ref), defs, {});
        && (depth > 0 && target.Ok? ==> Along(defs[target.value], x, strong, defs, depth - 1, holds))
        && (strong == Strict ==> SiblingsMet(s.members, x, defs, depth, holds))
      else
        && (strong == Strict && x.Obj? && HasProperties(s.members) ==> RootNamed(s.members))
        && (strong == Canonical && x.Obj? ==> HiddenAllowed(s.members, x, defs, depth, holds))
        && forall m | m in s.members && m.value < s :: AlongIn(m.key, m.value, s.members, x, strong, defs, depth, holds)
  }

  ghost predicate AlongIn(key: Text, value: Json, members: seq<Member>, x: Json, strong: Mode, defs: Definitions,
                          depth: nat, holds: Assertions)
    decreases depth, value, 1
  {
    match key
    case Properties =>
      value.Obj? && x.Obj? ==>
        forall p | p in value.members && p.value < value && !Hidden(p.key, Told(strong)) && HasKey(x.members, p.key) ::
          Along(p.value, Get(x.members, p.key), strong, defs, depth, holds)
    case AdditionalProperties =>
      x.Obj? && !(strong == Strict && HasProperties(members)) ==>
        forall y | y in x.members && !HasKey(PropertiesOf(members), y.key) ::
          Along(value, y.value, strong, defs, depth, holds)
    case Items => x.Arr? ==> forall e | e in x.items :: Along(value, e, strong, defs, depth, holds)
    case AnyOf =>
      value.Arr? ==>
        exists i | 0 <= i < |value.items| ::
          Accepts(value.items[i], x, strong, defs, depth, holds) && Along(value.items[i], x, strong, defs, depth, holds)
    case _ => true
  }

  /** The keywords beside a reference hold in the standard reading. */
  ghost predicate SiblingsMet(members: seq<Member>, x: Json, defs: Definitions, depth: nat, holds: Assertions) {
    forall m | m in members && m.value < Obj(members) && m.key != Ref ::
      Meets(m.key, m.value, members, x, Canonical, defs, depth, holds)
  }

  /** What stands under a property name that Gemini is not told, additionalProperties accepts. */
  ghost predicate HiddenAllowed(members: seq<Member>, x: Json, defs: Definitions, depth: nat, holds: Assertions)
    requires x.Obj?
  {
    forall m, y | m in members && m.key == AdditionalProperties && y in x.members
                  && HasKey(PropertiesOf(members), y.key) && Hidden(y.key, Lax) ::
      Accepts(m.value, y.value, Lax, defs, depth, holds)
  }

  /** Whatever a reading accepts along such an instance, the weaker reading accepts. */
  lemma {:induction false} AlongAccepts(s: Json, x: Json, strong: Mode, weak: Mode, defs: Definitions, depth: nat,
                                        holds: Assertions)
    requires Weaker(strong, weak)
    requires Accepts(s, x, strong, defs, depth, holds) && Along(s, x, strong, defs, depth, holds)
    ensures Accepts(s, x, weak, defs, depth, holds)
    decreases depth, s, 0
  {
    if s.Obj? {
      if HasKey(s.members, Ref) {
        var name := ResolveReference(Get(s.members, Ref), defs, {}).value;
        AlongAccepts(defs[name], x, strong, weak, defs, depth - 1, holds);
      } else {
        forall m | m in s.members && m.value < s
          ensures Meets(m.key, m.value, s.members, x, weak, defs, depth, holds)
        {
          AlongMeets(m, s.members, x, strong, weak, defs, depth, holds);
        }
      }
    }
  }

  lemma {:induction false} AlongMeets(m: Member, members: seq<Member>, x: Json, strong: Mode, weak: Mode,
                                      defs: Definitions, depth: nat, holds: Assertions)
    requires Weaker(strong, weak) && m in members && m.value < Obj(members) && !HasKey(members, Ref)
    requires Accepts(Obj(members), x, strong, defs, depth, holds) && Along(Obj(members), x, strong, defs, depth, holds)
    ensures Meets(m.key, m.value, members, x, weak, defs, depth, holds)
    decreases depth, m.value, 5
  {
    assert Meets(m.key, m.value, members, x, strong, defs, depth, holds);
    assert AlongIn(m.key, m.value, members, x, strong, defs, depth, holds);
    match m.key {
      case Properties =>
        if m.value.Obj? && x.Obj? { AlongProperties(m.value, members, x, strong, weak, defs, depth, holds); }
      case Required =>
        if strong == Strict && HasProperties(members) && x.Obj? && m.value.Arr? {
          RequiredIff(members, m.value, x, defs, depth, holds);
        }
      case AdditionalProperties =>
        if strong == Strict && HasProperties(members) {
          NoOthers(members, m.value, x, defs, depth, holds);
        } else if x.Obj? {
          AlongOthers(m.value, members, x, strong, weak, defs, depth, holds);
        }
      case Items =>
        if x.Arr? {
          forall e | e in x.items ensures Accepts(m.value, e, weak, defs, depth, holds) {
            AlongAccepts(m.value, e, strong, weak, defs, depth, holds);
          }
        }
      case AnyOf =>
        if m.value.Arr? {
          var i :| 0 <= i < |m.value.items| && Accepts(m.value.items[i], x, strong, defs, depth, holds)
                   && Along(m.value.items[i], x, strong, defs, depth, holds);
          AlongAccepts(m.value.items[i], x, strong, weak, defs, depth, holds);
        }
      case _ =>
    }
  }

  lemma {:induction false} AlongProperties(value: Json, members: seq<Member>, x: Json, strong: Mode, weak: Mode,
                                           defs: Definitions, depth: nat, holds: Assertions)
    requires Weaker(strong, weak) && value.Obj? && x.Obj?
    requires Meets(Properties, value, members, x, strong, defs, depth, holds)
    requires AlongIn(Properties, value, members, x, strong, defs, depth, holds)
    ensures Meets(Properties, value, members, x, weak, defs, depth, holds)
    decreases depth, value, 3
  {
    if strong == Strict { NoHiddenName(value, members, x, defs, depth, holds); }
    forall p | p in value.members && p.value < value && !Hidden(p.key, weak) && HasKey(x.members, p.key)
      ensures Accepts(p.value, Get(x.members, p.key), weak, defs, depth, holds)
    {
      AlongAccepts(p.value, Get(x.members, p.key), strong, weak, defs, depth, holds);
    }
  }

  /** A strict reading leaves no room for a name that it does not see. */
  lemma NoHiddenName(value: Json, members: seq<Member>, x: Json, defs: Definitions, depth: nat, holds: Assertions)
    requires value.Obj? && x.Obj? && Meets(Properties, value, members, x, Strict, defs, depth, holds)
    ensures forall key | HasKey(x.members, key) :: HasKey(value.members, key) && !Hidden(key, Strict)
  {
    VisibleKeys(value.members, Strict);
    forall key | HasKey(x.members, key) ensures HasKey(Visible(value.members, Strict), key) {
      assert HasKey(Visible(value.members, Strict), x.members[IndexOf(x.members, key)].key);
    }
  }

  lemma {:induction false} AlongOthers(value: Json, members: seq<Member>, x: Json, strong: Mode, weak: Mode,
                                       defs: Definitions, depth: nat, holds: Assertions)
    requires Weaker(strong, weak) && x.Obj? && !(strong == Strict && HasProperties(members))
    requires Meets(AdditionalProperties, value, members, x, strong, defs, depth, holds)
    requires AlongIn(AdditionalProperties, value, members, x, strong, defs, depth, holds)
    requires strong == Canonical ==> HiddenAllowed(members, x, defs, depth, holds)
    requires Member(AdditionalProperties, value) in members
    ensures Meets(AdditionalProperties, value, members, x, weak, defs, depth, holds)
    decreases depth, value, 3
  {
    VisibleKeys(PropertiesOf(members), strong);
    VisibleKeys(PropertiesOf(members), weak);
    forall y | y in x.members && !HasKey(Visible(PropertiesOf(members), weak), y.key)
      ensures Accepts(value, y.value, weak, defs, depth, holds)
    {
      if !HasKey(PropertiesOf(members), y.key) { AlongAccepts(value, y.value, strong, weak, defs, depth, holds); }
    }
  }

  /** The standard reading of additionalProperties holds when all names are properties. */
  lemma NoOthers(members: seq<Member>, value: Json, x: Json, defs: Definitions, depth: nat, holds: Assertions)
    requires HasProperties(members) && !HasKey(members, Ref)
    requires Accepts(Obj(members), x, Strict, defs, depth, holds)
    ensures Meets(AdditionalProperties, value, members, x, Canonical, defs, depth, holds)
  {
    var properties := PropertiesOf(members);
    InMembers(Member(Properties, Obj(properties)), members);
    AllVisible(properties);
    if x.Obj? {
      NoHiddenName(Obj(properties), members, x, defs, depth, holds);
      forall y | y in x.members ensures HasKey(x.members, y.key) {
        var i :| 0 <= i < |x.members| && x.members[i] == y;
      }
    }
  }

  /** An object with exactly these names meets a required list iff the list names no other. */
  lemma ExactNames(x: Json, properties: seq<Member>, required: Json, members: seq<Member>, defs: Definitions, depth: nat,
                   holds: Assertions)
    requires x.Obj? && required.Arr? && Exact(x, properties)
    ensures Meets(Required, required, members, x, Canonical, defs, depth, holds) <==> NamesAmong(required, properties)
  {
    if NamesAmong(required, properties) {
      forall n | n in required.items && n.Str? ensures HasKey(x.members, n.text) {
        var i :| 0 <= i < |required.items| && required.items[i] == n;
        assert HasKey(x.members, properties[IndexOf(properties, n.text)].key);
      }
    }
    if forall n | n in required.items && n.Str? :: HasKey(x.members, n.text) {
      forall i | 0 <= i < |required.items| && required.items[i].Str? ensures HasKey(properties, required.items[i].text) {
        assert required.items[i] in required.items;
        assert HasKey(properties, x.members[IndexOf(x.members, required.items[i].text)].key);
      }
    }
  }

  /** In a strict reading these are the properties that are kept. */
  lemma RequiredIff(members: seq<Member>, required: Json, x: Json, defs: Definitions, depth: nat, holds: Assertions)
    requires HasProperties(members) && !HasKey(members, Ref) && x.Obj? && required.Arr?
    requires Accepts(Obj(members), x, Strict, defs, depth, holds)
    ensures Meets(Required, required, members, x, Canonical, defs, depth, holds)
            <==> NamesAmong(required, Visible(PropertiesOf(members), Strict))
  {
    var properties := PropertiesOf(members);
    InMembers(Member(Properties, Obj(properties)), members);
    StrictProperties(Obj(properties), members, x, defs, depth, holds);
    ExactNames(x, Visible(properties, Strict), required, members, defs, depth, holds);
  }

  // ----- schemas for which every instance is of that kind -----

  /**
   At every depth: for Strict, required lists name kept properties only and nothing but annotations stands beside
   a reference; for Canonical, no property beside additionalProperties has a name that Gemini is not told.
   */
  ghost predicate Safe(s: Json, strong: Mode)
    decreases s, 0
  {
    s.Obj? ==>
      if HasKey(s.members, Ref) then
        strong == Strict ==> forall m | m in s.members :: m.key == Ref || Annotation(m.key)
      else
        && (strong == Strict && HasProperties(s.members) ==> RootNamed(s.members))
        && (strong == Canonical && HasKey(s.members, AdditionalProperties) ==> NoneHidden(s.members))
        && forall m | m in s.members && m.value < s :: SafeIn(m.key, m.value, strong)
  }

  predicate NoneHidden(members: seq<Member>) {
    forall i | 0 <= i < |PropertiesOf(members)| :: !Hidden(PropertiesOf(members)[i].key, Lax)
  }

  ghost predicate SafeIn(key: Text, value: Json, strong: Mode)
    decreases value, 1
  {
    match key
    case Properties =>
      value.Obj? ==>
        forall p | p in value.members && p.value < value && !Hidden(p.key, Told(strong)) :: Safe(p.value, strong)
    case Items => Safe(value, strong)
    case AdditionalProperties => Safe(value, strong)
    case AnyOf => value.Arr? ==> forall i | 0 <= i < |value.items| :: Safe(value.items[i], strong)
    case _ => true
  }

  lemma {:induction false} SafeIsAlong(s: Json, x: Json, strong: Mode, defs: Definitions, depth: nat, holds: Assertions)
    requires strong != Lax && Safe(s, strong) && forall name | name in defs :: Safe(defs[name], strong)
    requires Accepts(s, x, strong, defs, depth, holds)
    ensures Along(s, x, strong, defs, depth, holds)
    decreases depth, s, 0
  {
    if s.Obj? {
      if HasKey(s.members, Ref) {
        var name := ResolveReference(Get(s.members, Ref), defs, {}).value;
        SafeIsAlong(defs[name], x, strong, defs, depth - 1, holds);
        if strong == Strict { AnnotationsAreMet(s.members, x, defs, depth, holds); }
      } else {
        SafeObjectIsAlong(s.members, x, strong, defs, depth, holds);
      }
    }
  }

  lemma {:induction false} SafeObjectIsAlong(members: seq<Member>, x: Json, strong: Mode, defs: Definitions, depth: nat,
                                             holds: Assertions)
    requires strong != Lax && !HasKey(members, Ref)
    requires Safe(Obj(members), strong) && forall name | name in defs :: Safe(defs[name], strong)
    requires Accepts(Obj(members), x, strong, defs, depth, holds)
    ensures Along(Obj(members), x, strong, defs, depth, holds)
    decreases depth, Obj(members), 0, 0
  {
    if strong == Canonical && x.Obj? { NothingHidden(members, x, defs, depth, holds); }
    forall m | m in members && m.value < Obj(members)
      ensures AlongIn(m.key, m.value, members, x, strong, defs, depth, holds)
    {
      SafeIsAlongIn(m, members, x, strong, defs, depth, holds);
    }
  }

  lemma AnnotationsAreMet(members: seq<Member>, x: Json, defs: Definitions, depth: nat, holds: Assertions)
    requires forall m | m in members :: m.key == Ref || Annotation(m.key)
    ensures SiblingsMet(members, x, defs, depth, holds)
  {
  }

  lemma NothingHidden(members: seq<Member>, x: Json, defs: Definitions, depth: nat, holds: Assertions)
    requires x.Obj? && (HasKey(members, AdditionalProperties) ==> NoneHidden(members))
    ensures HiddenAllowed(members, x, defs, depth, holds)
  {
    forall m | m in members && m.key == AdditionalProperties ensures HasKey(members, AdditionalProperties) {
      var i :| 0 <= i < |members| && members[i] == m;
    }
    forall key | HasKey(members, AdditionalProperties) && HasKey(PropertiesOf(members), key)
      ensures !Hidden(key, Lax)
    {
      assert !Hidden(PropertiesOf(members)[IndexOf(PropertiesOf(members), key)].key, Lax);
    }
  }

  lemma {:induction false} SafeIsAlongIn(m: Member, members: seq<Member>, x: Json, strong: Mode, defs: Definitions,
                                         depth: nat, holds: Assertions)
    requires strong != Lax && SafeIn(m.key, m.value, strong) && forall name | name in defs :: Safe(defs[name], strong)
    requires Meets(m.key, m.value, members, x, strong, defs, depth, holds)
    ensures AlongIn(m.key, m.value, members, x, strong, defs, depth, holds)
    decreases depth, m.value, 1
  {
    match m.key {
      case Properties =>
        if m.value.Obj? && x.Obj? {
          forall p | p in m.value.members && p.value < m.value && !Hidden(p.key, Told(strong)) && HasKey(x.members, p.key)
            ensures Along(p.value, Get(x.members, p.key), strong, defs, depth, holds)
          {
            SafeIsAlong(p.value, Get(x.members, p.key), strong, defs, depth, holds);
          }
        }
      case AdditionalProperties =>
        if x.Obj? && !(strong == Strict && HasProperties(members)) {
          VisibleKeys(PropertiesOf(members), strong);
          forall y | y in x.members && !HasKey(PropertiesOf(members), y.key)
            ensures Along(m.value, y.value, strong, defs, depth, holds)
          {
            SafeIsAlong(m.value, y.value, strong, defs, depth, holds);
          }
        }
      case Items =>
        if x.Arr? {
          forall e | e in x.items ensures Along(m.value, e, strong, defs, depth, holds) {
            SafeIsAlong(m.value, e, strong, defs, depth, holds);
          }
        }
      case AnyOf =>
        if m.value.Arr? {
          var i :| 0 <= i < |m.value.items| && Accepts(m.value.items[i], x, strong, defs, depth, holds);
          SafeIsAlong(m.value.items[i], x, strong, defs, depth, holds);
        }
      case _ =>
    }
  }

  /** Reading such a schema less strictly accepts every instance it accepted before. */
  lemma WeakerAcceptsMore(s: Json, x: Json, strong: Mode, weak: Mode, defs: Definitions, depth: nat, holds: Assertions)
    requires Weaker(strong, weak)
    requires Safe(s, strong) && forall name | name in defs :: Safe(defs[name], strong)
    requires Accepts(s, x, strong, defs, depth, holds)
    ensures Accepts(s, x, weak, defs, depth, holds)
  {
    SafeIsAlong(s, x, strong, defs, depth, holds);
    AlongAccepts(s, x, strong, weak, defs, depth, holds);
  }

  // ----- the compiler's promise -----

  function DefinitionsIn(decoded: Json): Definitions
    requires decoded.Obj?
  {
    if HasKey(decoded.members, Defs) && Get(decoded.members, Defs).Obj? then
      DefinitionsOf(Get(decoded.members, Defs).members)
    else map[]
  }

  /** The exact meaning of a compiled schema: its source in the reading of the dialect. */
  lemma CompiledMeaning(decoded: Json, d: Dialect, p: Json, x: Json, depth: nat, holds: Assertions)
    requires Compile(decoded, d) == Ok(p)
    requires Regular(decoded, d) && RegularDefinitions(DefinitionsIn(decoded), d)
    requires depth >= |DefinitionsIn(decoded)|
    ensures AcceptsCompiled(p, x, holds) <==> Accepts(decoded, x, ModeOf(d), DefinitionsIn(decoded), depth, holds)
  {
    var defs := DefinitionsIn(decoded);
    assert defs.Keys - {} == defs.Keys && |defs.Keys| == |defs|;
    ProjectionMeaning(decoded, x, d, defs, {}, depth, holds, p);
  }

  /** Whatever OpenAI or Anthropic may answer under their schema, the canonical schema accepts. */
  lemma StrictDialectsAcceptNoMore(decoded: Json, d: Dialect, p: Json, x: Json, depth: nat, holds: Assertions)
    requires d != Gemini && Compile(decoded, d) == Ok(p)
    requires Regular(decoded, d) && RegularDefinitions(DefinitionsIn(decoded), d)
    requires Safe(decoded, Strict) && forall name | name in DefinitionsIn(decoded) :: Safe(DefinitionsIn(decoded)[name], Strict)
    requires depth >= |DefinitionsIn(decoded)|
    ensures AcceptsCompiled(p, x, holds) ==> Accepts(decoded, x, Canonical, DefinitionsIn(decoded), depth, holds)
  {
    CompiledMeaning(decoded, d, p, x, depth, holds);
    if AcceptsCompiled(p, x, holds) {
      WeakerAcceptsMore(decoded, x, Strict, Canonical, DefinitionsIn(decoded), depth, holds);
    }
  }

  /** Whatever the canonical schema accepts, the Gemini schema lets through. */
  lemma GeminiAcceptsNoLess(decoded: Json, p: Json, x: Json, depth: nat, holds: Assertions)
    requires Compile(decoded, Gemini) == Ok(p)
    requires Regular(decoded, Gemini) && RegularDefinitions(DefinitionsIn(decoded), Gemini)
    requires Safe(decoded, Canonical) && forall name | name in DefinitionsIn(decoded) :: Safe(DefinitionsIn(decoded)[name], Canonical)
    requires depth >= |DefinitionsIn(decoded)|
    ensures Accepts(decoded, x, Canonical, DefinitionsIn(decoded), depth, holds) ==> AcceptsCompiled(p, x, holds)
  {
    CompiledMeaning(decoded, Gemini, p, x, depth, holds);
    if Accepts(decoded, x, Canonical, DefinitionsIn(decoded), depth, holds) {
      WeakerAcceptsMore(decoded, x, Canonical, Lax, DefinitionsIn(decoded), depth, holds);
    }
  }

  // ----- when compilation succeeds -----

  /** Every reference that is not itself dropped names a definition of a rank below the bound. */
  ghost predicate RefsBelow(v: Json, d: Dialect, defs: Definitions, rank: map<string, nat>, bound: nat)
    decreases v
  {
    match v
    case Arr(items) => forall i | 0 <= i < |items| :: RefsBelow(items[i], d, defs, rank, bound)
    case Obj(members) =>
      if HasKey(members, Ref) then
        var target := ResolveReference(Get(members, Ref), defs, {});
        target.Ok? && target.value in rank && rank[target.value] < bound
      else
        forall m | m in members && m.value < v && !Dropped(m.key, d) :: RefsBelow(m.value, d, defs, rank, bound)
    case _ => true
  }

  /** Definitions that refer only downwards always compile. */
  lemma {:induction false} AcyclicCompiles(v: Json, d: Dialect, defs: Definitions, stack: set<string>,
                                           rank: map<string, nat>, bound: nat)
    requires forall name | name in defs :: name in rank && RefsBelow(defs[name], d, defs, rank, rank[name])
    requires forall name | name in stack :: name in rank && rank[name] >= bound
    requires RefsBelow(v, d, defs, rank, bound)
    ensures Project(v, d, defs, stack).Ok?
    decreases bound, v, 1
  {
    match v {
      case Arr(items) => ItemsCompile(items, d, defs, stack, rank, bound);
      case Obj(members) =>
        if HasKey(members, Ref) {
          var name := ResolveReference(Get(members, Ref), defs, {}).value;
          assert ResolveReference(Get(members, Ref), defs, stack) == Ok(name);
          AcyclicCompiles(defs[name], d, defs, stack + {name}, rank, rank[name]);
        } else {
          forall m | m in members && !Dropped(m.key, d) ensures RefsBelow(m.value, d, defs, rank, bound) {
            InMembers(m, members);
          }
          MembersCompile(members, d, defs, stack, rank, bound);
        }
      case _ =>
    }
  }

  lemma {:induction false} ItemsCompile(items: seq<Json>, d: Dialect, defs: Definitions, stack: set<string>,
                                        rank: map<string, nat>, bound: nat)
    requires forall name | name in defs :: name in rank && RefsBelow(defs[name], d, defs, rank, rank[name])
    requires forall name | name in stack :: name in rank && rank[name] >= bound
    requires forall i | 0 <= i < |items| :: RefsBelow(items[i], d, defs, rank, bound)
    ensures ProjectItems(items, d, defs, stack).Ok?
    decreases bound, items, 0
  {
    if items != [] {
      ItemsCompile(items[..|items| - 1], d, defs, stack, rank, bound);
      AcyclicCompiles(items[|items| - 1], d, defs, stack, rank, bound);
    }
  }

  lemma {:induction false} MembersCompile(members: seq<Member>, d: Dialect, defs: Definitions, stack: set<string>,
                                          rank: map<string, nat>, bound: nat)
    requires forall name | name in defs :: name in rank && RefsBelow(defs[name], d, defs, rank, rank[name])
    requires forall name | name in stack :: name in rank && rank[name] >= bound
    requires forall m | m in members && !Dropped(m.key, d) :: RefsBelow(m.value, d, defs, rank, bound)
    ensures ProjectMembers(members, d, defs, stack).Ok?
    decreases bound, members, 0
  {
    if members != [] {
      var last := members[|members| - 1];
      assert last in members && last.value < last;
      MembersCompile(members[..|members| - 1], d, defs, stack, rank, bound);
      if !Dropped(last.key, d) { AcyclicCompiles(last.value, d, defs, stack, rank, bound); }
    }
  }
}
