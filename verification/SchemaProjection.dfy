/** What a compiled schema looks like, and that compiling it again changes nothing. */
module SchemaProjection {
  import opened Wrappers
  import opened ProviderSchema

  // ----- dictionaries -----

  lemma GetAt(members: seq<Member>, i: nat)
    requires UniqueKeys(members) && i < |members|
    ensures HasKey(members, members[i].key) && Get(members, members[i].key) == members[i].value
  {
  }

  /** An assignment changes the value of its key and of no other, and keys stay distinct. */
  lemma PutGet(members: seq<Member>, key: Text, value: Json)
    requires UniqueKeys(members)
    ensures UniqueKeys(Put(members, key, value))
    ensures HasKey(Put(members, key, value), key) && Get(Put(members, key, value), key) == value
    ensures forall k :: HasKey(Put(members, key, value), k) <==> k == key || HasKey(members, k)
    ensures forall k | k != key && HasKey(members, k) :: Get(Put(members, key, value), k) == Get(members, k)
    ensures forall m :: m in Put(members, key, value) <==> m == Member(key, value) || (m in members && m.key != key)
  {
    var after := Put(members, key, value);
    if HasKey(members, key) {
      var at := IndexOf(members, key);
      assert after[at].key == key;
      forall k | HasKey(members, k) ensures HasKey(after, k) {
        assert after[IndexOf(members, k)].key == k;
      }
      forall m | m in members && m.key != key ensures m in after {
        var i :| 0 <= i < |members| && members[i] == m;
        assert after[i] == m;
      }
    } else {
      assert after[|members|].key == key;
      forall k | HasKey(members, k) ensures HasKey(after, k) {
        assert after[IndexOf(members, k)].key == k;
      }
    }
    forall k | HasKey(members, k) && k != key ensures Get(after, k) == Get(members, k) {
      var i := IndexOf(members, k);
      assert after[i].key == k;
      GetAt(after, i);
    }
    GetAt(after, IndexOf(after, key));
  }

  /** Writing the value a key already has changes nothing. */
  lemma PutSame(members: seq<Member>, key: Text)
    requires HasKey(members, key)
    ensures Put(members, key, Get(members, key)) == members
  {
  }

  // ----- clean schemas -----

  predicate Closed(members: seq<Member>, d: Dialect) {
    d != Gemini && HasKey(members, Properties) && Get(members, Properties).Obj? ==>
      && HasKey(members, Required)
      && Get(members, Required) == Arr(Names(Get(members, Properties).members))
      && HasKey(members, AdditionalProperties)
      && Get(members, AdditionalProperties) == Bool(false)
  }

  /** No reference, definition, const or dropped keyword at any depth; strict objects are closed. */
  ghost predicate Clean(v: Json, d: Dialect)
    decreases v
  {
    match v
    case Arr(items) => forall i | 0 <= i < |items| :: Clean(items[i], d)
    case Obj(members) =>
      && CleanMembers(members, d)
      && Closed(members, d)
      && forall m | m in members :: m < v && m.value < m && Clean(m.value, d)
    case _ => true
  }

  predicate CleanMembers(members: seq<Member>, d: Dialect) {
    && UniqueKeys(members)
    && forall i | 0 <= i < |members| :: members[i].key !in {Ref, Const} && !Dropped(members[i].key, d)
  }

  ghost predicate CleanValues(members: seq<Member>, d: Dialect) {
    forall m | m in members :: Clean(m.value, d)
  }

  lemma CleanObj(members: seq<Member>, d: Dialect)
    ensures Clean(Obj(members), d) <==> CleanMembers(members, d) && Closed(members, d) && CleanValues(members, d)
  {
    forall m | m in members ensures m < Obj(members) && m.value < m {
      var i :| 0 <= i < |members| && members[i] == m;
      assert members[i] < Obj(members);
    }
  }

  /** Whatever compiles, compiles to a clean schema. */
  lemma {:induction false} ProjectIsClean(v: Json, d: Dialect, defs: Definitions, stack: set<string>)
    ensures
      var r := Project(v, d, defs, stack);
      r.Ok? ==> Clean(r.value, d)
    decreases defs.Keys - stack, v
  {
    match v {
      case Arr(items) => ItemsAreClean(items, d, defs, stack);
      case Obj(members) =>
        if HasKey(members, Ref) {
          var name := ResolveReference(Get(members, Ref), defs, stack);
          if name.Ok? { ProjectIsClean(defs[name.value], d, defs, stack + {name.value}); }
        } else {
          MembersAreClean(members, d, defs, stack);
          var projected := ProjectMembers(members, d, defs, stack);
          if projected.Ok? { CloseIsClean(projected.value, d); }
        }
      case _ =>
    }
  }

  lemma {:induction false} ItemsAreClean(items: seq<Json>, d: Dialect, defs: Definitions, stack: set<string>)
    ensures
      var r := ProjectItems(items, d, defs, stack);
      r.Ok? ==> forall i | 0 <= i < |r.value| :: Clean(r.value[i], d)
    decreases defs.Keys - stack, items
  {
    if items != [] {
      ItemsAreClean(items[..|items| - 1], d, defs, stack);
      ProjectIsClean(items[|items| - 1], d, defs, stack);
      var front := ProjectItems(items[..|items| - 1], d, defs, stack);
      var last := Project(items[|items| - 1], d, defs, stack);
      if front.Ok? && last.Ok? {
        assert forall i | 0 <= i < |front.value| :: Clean((front.value + [last.value])[i], d);
        assert (front.value + [last.value])[|front.value|] == last.value;
      }
    }
  }

  lemma {:induction false} MembersAreClean(members: seq<Member>, d: Dialect, defs: Definitions, stack: set<string>)
    requires !HasKey(members, Ref)
    ensures
      var r := ProjectMembers(members, d, defs, stack);
      r.Ok? ==> CleanMembers(r.value, d) && CleanValues(r.value, d)
    decreases defs.Keys - stack, members
  {
    if members != [] {
      var front := members[..|members| - 1];
      var last := members[|members| - 1];
      MembersAreClean(front, d, defs, stack);
      assert last.value < last;
      ProjectIsClean(last.value, d, defs, stack);
      var before := ProjectMembers(front, d, defs, stack);
      var value := Project(last.value, d, defs, stack);
      if before.Ok? && !Dropped(last.key, d) && value.Ok? {
        if last.key == Const {
          PutIsClean(before.value, Enum, Arr([value.value]), d);
        } else {
          PutIsClean(before.value, last.key, value.value, d);
        }
      }
    }
  }

  lemma PutIsClean(members: seq<Member>, key: Text, value: Json, d: Dialect)
    requires CleanMembers(members, d) && CleanValues(members, d)
    requires key !in {Ref, Const} && !Dropped(key, d) && Clean(value, d)
    ensures CleanMembers(Put(members, key, value), d) && CleanValues(Put(members, key, value), d)
  {
    PutGet(members, key, value);
  }

  lemma CloseIsClean(members: seq<Member>, d: Dialect)
    requires CleanMembers(members, d) && CleanValues(members, d)
    ensures Clean(Obj(Close(members, d)), d)
  {
    var closed := Close(members, d);
    if d != Gemini && HasKey(members, Properties) && Get(members, Properties).Obj? {
      var names := Arr(Names(Get(members, Properties).members));
      PutIsClean(members, Required, names, d);
      PutGet(members, Required, names);
      var required := Put(members, Required, names);
      PutIsClean(required, AdditionalProperties, Bool(false), d);
      PutGet(required, AdditionalProperties, Bool(false));
    }
    CleanObj(closed, d);
  }

  /** A clean schema is left as it is. */
  lemma {:induction false} CleanIsFixed(v: Json, d: Dialect, defs: Definitions, stack: set<string>)
    requires Clean(v, d)
    ensures Project(v, d, defs, stack) == Ok(v)
    decreases v
  {
    match v {
      case Arr(items) => ItemsAreFixed(items, d, defs, stack);
      case Obj(members) =>
        CleanObj(members, d);
        MembersAreFixed(members, d, defs, stack);
        if d != Gemini && HasKey(members, Properties) && Get(members, Properties).Obj? {
          PutSame(members, Required);
          PutSame(members, AdditionalProperties);
        }
      case _ =>
    }
  }

  lemma {:induction false} ItemsAreFixed(items: seq<Json>, d: Dialect, defs: Definitions, stack: set<string>)
    requires forall i | 0 <= i < |items| :: Clean(items[i], d)
    ensures ProjectItems(items, d, defs, stack) == Ok(items)
    decreases items
  {
    if items != [] {
      ItemsAreFixed(items[..|items| - 1], d, defs, stack);
      CleanIsFixed(items[|items| - 1], d, defs, stack);
      assert items == items[..|items| - 1] + [items[|items| - 1]];
    }
  }

  lemma {:induction false} MembersAreFixed(members: seq<Member>, d: Dialect, defs: Definitions, stack: set<string>)
    requires CleanMembers(members, d) && CleanValues(members, d)
    ensures ProjectMembers(members, d, defs, stack) == Ok(members)
    decreases members
  {
    if members != [] {
      var front := members[..|members| - 1];
      var last := members[|members| - 1];
      MembersAreFixed(front, d, defs, stack);
      assert last in members && last.value < last;
      CleanIsFixed(last.value, d, defs, stack);
      assert members == front + [last];
    }
  }

  /** The compiled schemas are exactly the fixed points, so compiling twice is compiling once. */
  lemma ProjectionIsIdempotent(v: Json, d: Dialect, defs: Definitions, stack: set<string>)
    ensures Clean(v, d) <==> Project(v, d, defs, stack) == Ok(v)
    ensures
      var r := Project(v, d, defs, stack);
      r.Ok? ==> forall otherDefs, otherStack :: Project(r.value, d, otherDefs, otherStack) == r
  {
    ProjectIsClean(v, d, defs, stack);
    if Clean(v, d) { CleanIsFixed(v, d, defs, stack); }
    var r := Project(v, d, defs, stack);
    if r.Ok? {
      forall otherDefs, otherStack
        ensures Project(r.value, d, otherDefs, otherStack) == r
      {
        CleanIsFixed(r.value, d, otherDefs, otherStack);
      }
    }
  }
}
