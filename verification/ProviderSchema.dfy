/**
 The provider schema compiler: references are inlined, unsupported keywords dropped, const turned
 into enum, and objects closed for the strict dialects.
 */
module ProviderSchema {
  import opened Wrappers

  /** A JSON string, sorted by the keywords the compiler tests for. */
  datatype Text =
    | Ref | Defs | Const | Enum | Properties | Required | AdditionalProperties | Items | AnyOf
    | DecimalPlaces | MaxDigits                                  // written by pydantic only
    | Pattern | MinLength | MaxLength | MinItems | MaxItems      // not supported by Gemini
    | Reference(name: string)                                    // "#/$defs/" followed by name
    | Other(text: string)                                        // any other string

  datatype Member = Member(key: Text, value: Json)

  datatype Json =
    | Null
    | Bool(flag: bool)
    | Num(number: real)
    | Str(text: Text)
    | Arr(items: seq<Json>)
    | Obj(members: seq<Member>)      // in insertion order

  datatype Dialect = OpenAi | Anthropic | Gemini

  datatype SchemaError = InvalidOrRecursive | NotLocal | UnknownDefinition | RootNotObject | DefsNotObject | ProjectionFailed

  type Definitions = map<string, Json>

  // ----- dictionaries -----

  predicate HasKey(members: seq<Member>, key: Text) {
    exists i | 0 <= i < |members| :: members[i].key == key
  }

  function IndexOf(members: seq<Member>, key: Text): (i: nat)
    requires HasKey(members, key)
    ensures i < |members| && members[i].key == key
    ensures forall k | 0 <= k < i :: members[k].key != key
  {
    if members[0].key == key then 0
    else
      assert HasKey(members[1..], key) by {
        var i :| 0 <= i < |members| && members[i].key == key;
        assert members[1..][i - 1].key == key;
      }
      1 + IndexOf(members[1..], key)
  }

  function Get(members: seq<Member>, key: Text): (value: Json)
    requires HasKey(members, key)
    ensures Member(key, value) in members
  {
    members[IndexOf(members, key)].value
  }

  /** Assignment to a key: in place when the key is there, else at the end. */
  function Put(members: seq<Member>, key: Text, value: Json): (r: seq<Member>) {
    if HasKey(members, key) then members[IndexOf(members, key) := Member(key, value)]
    else members + [Member(key, value)]
  }

  predicate UniqueKeys(members: seq<Member>) {
    forall i, k | 0 <= i < k < |members| :: members[i].key != members[k].key
  }

  function Names(members: seq<Member>): (r: seq<Json>)
    ensures |r| == |members| && forall i | 0 <= i < |r| :: r[i] == Str(members[i].key)
  {
    seq(|members|, i requires 0 <= i < |members| => Str(members[i].key))
  }

  // ----- the projection -----

  predicate Dropped(key: Text, d: Dialect) {
    || key in {Defs, DecimalPlaces, MaxDigits}
    || (d == Gemini && key in {Pattern, MinLength, MaxLength, MinItems, MaxItems})
  }

  /** The name a $ref value refers to. Every name on the stack is a definition being expanded. */
  function ResolveReference(value: Json, defs: Definitions, stack: set<string>): (r: Result<string, SchemaError>)
    ensures r.Ok? ==> r.value in defs && r.value !in stack && value == Str(Reference(r.value))
  {
    if !value.Str? || (value.text.Reference? && value.text.name in stack) then Err(InvalidOrRecursive)
    else if !value.text.Reference? then Err(NotLocal)
    else if value.text.name == "" || '/' in value.text.name || value.text.name !in defs then Err(UnknownDefinition)
    else Ok(value.text.name)
  }

  function Project(v: Json, d: Dialect, defs: Definitions, stack: set<string>): Result<Json, SchemaError>
    decreases defs.Keys - stack, v
  {
    match v
    case Arr(items) =>
      (match ProjectItems(items, d, defs, stack)
       case Err(e) => Err(e)
       case Ok(projected) => Ok(Arr(projected)))
    case Obj(members) =>
      if HasKey(members, Ref) then
        match ResolveReference(Get(members, Ref), defs, stack)
        case Err(e) => Err(e)
        case Ok(name) => Project(defs[name], d, defs, stack + {name})
      else
        (match ProjectMembers(members, d, defs, stack)
         case Err(e) => Err(e)
         case Ok(projected) => Ok(Obj(Close(projected, d))))
    case _ => Ok(v)
  }

  function ProjectItems(items: seq<Json>, d: Dialect, defs: Definitions, stack: set<string>): Result<seq<Json>, SchemaError>
    decreases defs.Keys - stack, items
  {
    if items == [] then Ok([])
    else
      match ProjectItems(items[..|items| - 1], d, defs, stack)
      case Err(e) => Err(e)
      case Ok(front) =>
        match Project(items[|items| - 1], d, defs, stack)
        case Err(e) => Err(e)
        case Ok(last) => Ok(front + [last])
  }

  function ProjectMembers(members: seq<Member>, d: Dialect, defs: Definitions, stack: set<string>)
    : Result<seq<Member>, SchemaError>
    decreases defs.Keys - stack, members
  {
    if members == [] then Ok([])
    else
      match ProjectMembers(members[..|members| - 1], d, defs, stack)
      case Err(e) => Err(e)
      case Ok(front) =>
        var last := members[|members| - 1];
        assert last.value < last;
        if Dropped(last.key, d) then Ok(front)
        else
          match Project(last.value, d, defs, stack)
          case Err(e) => Err(e)
          case Ok(value) =>
            if last.key == Const then Ok(Put(front, Enum, Arr([value]))) else Ok(Put(front, last.key, value))
  }

  /** The strict dialects require every property and allow no other. */
  function Close(members: seq<Member>, d: Dialect): seq<Member> {
    if d != Gemini && HasKey(members, Properties) && Get(members, Properties).Obj? then
      Put(Put(members, Required, Arr(Names(Get(members, Properties).members))), AdditionalProperties, Bool(false))
    else
      members
  }

  function Spell(key: Text): string {
    match key
    case Ref => "$ref" case Defs => "$defs" case Const => "const" case Enum => "enum"
    case Properties => "properties" case Required => "required"
    case AdditionalProperties => "additionalProperties" case Items => "items" case AnyOf => "anyOf"
    case DecimalPlaces => "decimal_places" case MaxDigits => "max_digits" case Pattern => "pattern"
    case MinLength => "minLength" case MaxLength => "maxLength" case MinItems => "minItems"
    case MaxItems => "maxItems"
    case Reference(name) => "#/$defs/" + name
    case Other(text) => text
  }

  function DefinitionsOf(members: seq<Member>): Definitions {
    if members == [] then map[]
    else
      var last := members[|members| - 1];
      DefinitionsOf(members[..|members| - 1])[Spell(last.key) := last.value]
  }

  /** A name has the definition written last under it, and there is no other. */
  lemma {:induction false} DefinitionsGiven(members: seq<Member>, name: string)
    ensures name in DefinitionsOf(members) <==> exists i | 0 <= i < |members| :: Spell(members[i].key) == name
    ensures forall i | 0 <= i < |members| && Spell(members[i].key) == name ::
              (forall k | i < k < |members| :: Spell(members[k].key) != name) ==>
                DefinitionsOf(members)[name] == members[i].value
  {
    if members != [] {
      var n := |members| - 1;
      DefinitionsGiven(members[..n], name);
      forall i | 0 <= i < n && Spell(members[i].key) == name ensures name in DefinitionsOf(members[..n]) {
        assert members[..n][i] == members[i];
      }
      if name in DefinitionsOf(members[..n]) {
        var i :| 0 <= i < n && Spell(members[..n][i].key) == name;
        assert Spell(members[i].key) == name;
      }
      forall i | 0 <= i < n && Spell(members[i].key) == name && forall k | i < k < |members| :: Spell(members[k].key) != name
        ensures DefinitionsOf(members)[name] == members[i].value
      {
        assert members[..n][i] == members[i];
        assert forall k | i < k < n :: members[..n][k] == members[k];
      }
    }
  }

  function Compile(decoded: Json, d: Dialect): Result<Json, SchemaError> {
    if !decoded.Obj? then Err(RootNotObject)
    else
      var raw := if HasKey(decoded.members, Defs) then Get(decoded.members, Defs) else Obj([]);
      if !raw.Obj? then Err(DefsNotObject)
      else
        match Project(decoded, d, DefinitionsOf(raw.members), {})
        case Err(e) => Err(e)
        case Ok(projected) => if projected.Obj? then Ok(projected) else Err(ProjectionFailed)
  }

  // ----- the compiler as the source runs it -----

  method ProjectNode(v: Json, d: Dialect, defs: Definitions, stack: set<string>) returns (r: Result<Json, SchemaError>)
    ensures r == Project(v, d, defs, stack)
    decreases defs.Keys - stack, v, 1
  {
    match v {
      case Arr(items) =>
        var projected := ProjectList(items, d, defs, stack);
        return match projected case Ok(list) => Ok(Arr(list)) case Err(e) => Err(e);
      case Obj(members) =>
        if HasKey(members, Ref) {
          var resolved := ResolveReference(Get(members, Ref), defs, stack);
          if resolved.Err? {
            return Err(resolved.error);
          }
          r := ProjectNode(defs[resolved.value], d, defs, stack + {resolved.value});
          return;
        }
        var entries := ProjectEntries(members, d, defs, stack);
        if entries.Err? {
          return Err(entries.error);
        }
        var projected := entries.value;
        if d != Gemini && HasKey(projected, Properties) {
          var properties := Get(projected, Properties);
          if properties.Obj? {
            projected := Put(projected, Required, Arr(Names(properties.members)));
            projected := Put(projected, AdditionalProperties, Bool(false));
          }
        }
        return Ok(Obj(projected));
      case _ =>
        return Ok(v);
    }
  }

  /** The list comprehension of an array. */
  method ProjectList(items: seq<Json>, d: Dialect, defs: Definitions, stack: set<string>)
    returns (r: Result<seq<Json>, SchemaError>)
    ensures r == ProjectItems(items, d, defs, stack)
    decreases defs.Keys - stack, items, 0
  {
    var projected: seq<Json> := [];
    for i := 0 to |items|
      invariant ProjectItems(items[..i], d, defs, stack) == Ok(projected)
    {
      var item := ProjectNode(items[i], d, defs, stack);
      assert items[..i + 1][..i] == items[..i];
      if item.Err? {
        ItemsError(items, i + 1, d, defs, stack);
        return Err(item.error);
      }
      projected := projected + [item.value];
    }
    assert items[..|items|] == items;
    return Ok(projected);
  }

  /** The loop that fills the projected dictionary. */
  method ProjectEntries(members: seq<Member>, d: Dialect, defs: Definitions, stack: set<string>)
    returns (r: Result<seq<Member>, SchemaError>)
    ensures r == ProjectMembers(members, d, defs, stack)
    decreases defs.Keys - stack, members, 0
  {
    var projected: seq<Member> := [];
    for i := 0 to |members|
      invariant ProjectMembers(members[..i], d, defs, stack) == Ok(projected)
    {
      assert members[..i + 1][..i] == members[..i];
      var member := members[i];
      if Dropped(member.key, d) {
        continue;
      }
      assert member.value < member;
      var value := ProjectNode(member.value, d, defs, stack);
      if value.Err? {
        MembersError(members, i + 1, d, defs, stack);
        return Err(value.error);
      }
      if member.key == Const {
        projected := Put(projected, Enum, Arr([value.value]));
      } else {
        projected := Put(projected, member.key, value.value);
      }
    }
    assert members[..|members|] == members;
    return Ok(projected);
  }

  lemma {:induction false} ItemsError(items: seq<Json>, n: nat, d: Dialect, defs: Definitions, stack: set<string>)
    requires n <= |items| && ProjectItems(items[..n], d, defs, stack).Err?
    ensures ProjectItems(items, d, defs, stack) == ProjectItems(items[..n], d, defs, stack)
    decreases |items| - n
  {
    if n < |items| {
      assert items[..n + 1][..n] == items[..n];
      ItemsError(items, n + 1, d, defs, stack);
    } else {
      assert items[..n] == items;
    }
  }

  lemma {:induction false} MembersError(members: seq<Member>, n: nat, d: Dialect, defs: Definitions, stack: set<string>)
    requires n <= |members| && ProjectMembers(members[..n], d, defs, stack).Err?
    ensures ProjectMembers(members, d, defs, stack) == ProjectMembers(members[..n], d, defs, stack)
    decreases |members| - n
  {
    if n < |members| {
      assert members[..n + 1][..n] == members[..n];
      MembersError(members, n + 1, d, defs, stack);
    } else {
      assert members[..n] == members;
    }
  }
}
