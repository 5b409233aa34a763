/**
 * The projection of a decoded response onto the members its type declares. Shapes may
 * name one another through a table, so they may be cyclic; values are finite.
 */
module DeclaredShapes {
  import opened Common

  datatype Json =
    | Undefined
    | Null
    | Bool(b: bool)
    | Num(n: real)
    | Str(s: string)
    | Arr(items: seq<Json>)
    | Obj(members: map<string, Json>)

  datatype Shape =
    | Any
    | Ref(name: string)
    | ArrayOf(item: Shape)
    | Members(members: map<string, Shape>)
    | Union(tag: string, arms: map<string, Shape>)

  type Table = map<string, Shape>

  predicate IsContainer(v: Json) {
    v.Arr? || v.Obj?
  }

  function MemberOf(v: Json, name: string): Json
    requires v.Obj?
  {
    if name in v.members then v.members[name] else Undefined
  }

  /** The value's tag names one of the arms. */
  predicate KnownArm(v: Json, tag: string, arms: map<string, Shape>)
    requires v.Obj?
  {
    MemberOf(v, tag).Str? && MemberOf(v, tag).s in arms
  }

  // ---------- Tables on which the projection ends ----------

  /** The table entry that the projection consults next while still on the very same value. */
  function EntryOf(t: Table, v: Json, s: Shape): (entry: Option<string>)
    ensures entry.Some? ==> entry.value in t
  {
    match s
    case Ref(name) => if name in t then Some(name) else None
    case Union(tag, arms) =>
      if v.Obj? && KnownArm(v, tag, arms) then EntryOf(t, v, arms[MemberOf(v, tag).s]) else None
    case _ => None
  }

  /** The entry consulted after `k` more on the same value. */
  function EntryAfter(t: Table, v: Json, s: Shape, k: nat): (entry: Option<string>)
    ensures entry.Some? ==> entry.value in t
  {
    if k == 0 then EntryOf(t, v, s)
    else
      var before := EntryAfter(t, v, s, k - 1);
      if before.None? then None else EntryOf(t, v, t[before.value])
  }

  /** On no object or array, the values that the projection goes into, does an entry lead back to itself. */
  ghost predicate NeverReturns(t: Table) {
    forall v, n, k: nat :: IsContainer(v) && n in t ==> EntryAfter(t, v, t[n], k) != Some(n)
  }

  ghost function Ahead(t: Table, v: Json, s: Shape): set<string> {
    set m | m in t && exists k: nat :: EntryAfter(t, v, s, k) == Some(m)
  }

  lemma {:induction false} AfterRef(t: Table, v: Json, name: string, k: nat)
    requires name in t
    ensures EntryAfter(t, v, Ref(name), k + 1) == EntryAfter(t, v, t[name], k)
  {
    if k > 0 {
      AfterRef(t, v, name, k - 1);
    }
  }

  lemma RefGoesDown(t: Table, v: Json, name: string)
    requires NeverReturns(t) && IsContainer(v) && name in t
    ensures Ahead(t, v, t[name]) < Ahead(t, v, Ref(name))
  {
    assert EntryAfter(t, v, Ref(name), 0) == Some(name);
    assert name !in Ahead(t, v, t[name]);
    forall m | m in Ahead(t, v, t[name])
      ensures m in Ahead(t, v, Ref(name))
    {
      var k: nat :| EntryAfter(t, v, t[name], k) == Some(m);
      AfterRef(t, v, name, k);
    }
  }

  lemma {:induction false} SameEntries(t: Table, v: Json, s: Shape, s': Shape, k: nat)
    requires EntryOf(t, v, s) == EntryOf(t, v, s')
    ensures EntryAfter(t, v, s, k) == EntryAfter(t, v, s', k)
  {
    if k > 0 {
      SameEntries(t, v, s, s', k - 1);
    }
  }

  lemma ArmStaysLevel(t: Table, v: Json, tag: string, arms: map<string, Shape>)
    requires v.Obj? && KnownArm(v, tag, arms)
    ensures Ahead(t, v, arms[MemberOf(v, tag).s]) == Ahead(t, v, Union(tag, arms))
  {
    forall k: nat
      ensures EntryAfter(t, v, arms[MemberOf(v, tag).s], k) == EntryAfter(t, v, Union(tag, arms), k)
    {
      SameEntries(t, v, arms[MemberOf(v, tag).s], Union(tag, arms), k);
    }
  }

  // ---------- The projection ----------

  function Keep(t: Table, v: Json, s: Shape): Json
    requires NeverReturns(t)
    decreases v, Ahead(t, v, s), s
  {
    if s.Any? || !IsContainer(v) then v
    else match s
      case Ref(name) =>
        if name !in t then v
        else
          RefGoesDown(t, v, name);
          Keep(t, v, t[name])
      case ArrayOf(item) =>
        if v.Arr? then Arr(seq(|v.items|, i requires 0 <= i < |v.items| => Keep(t, v.items[i], item))) else v
      case Union(tag, arms) =>
        if v.Arr? then v
        else if KnownArm(v, tag, arms) then
          var a := MemberOf(v, tag).s;
          ArmStaysLevel(t, v, tag, arms);
          Keep(t, v, arms[a])
        else Obj(map[tag := MemberOf(v, tag)])
      case Members(members) =>
        if v.Arr? then v
        else Obj(map n | n in members && n in v.members :: Keep(t, v.members[n], members[n]))
  }

  /** The projection as the program runs it, filling a fresh object member by member. */
  method KeepDeclared(t: Table, v: Json, s: Shape) returns (kept: Json)
    requires NeverReturns(t)
    ensures kept == Keep(t, v, s)
    decreases v, Ahead(t, v, s), s
  {
    if s.Any? || !IsContainer(v) {
      return v;
    }
    match s
    case Ref(name) =>
      if name !in t {
        return v;
      }
      RefGoesDown(t, v, name);
      kept := KeepDeclared(t, v, t[name]);
    case ArrayOf(item) =>
      if !v.Arr? {
        return v;
      }
      var items := [];
      for i := 0 to |v.items|
        invariant |items| == i
        invariant forall j :: 0 <= j < i ==> items[j] == Keep(t, v.items[j], item)
      {
        var one := KeepDeclared(t, v.items[i], item);
        items := items + [one];
      }
      kept := Arr(items);
    case Union(tag, arms) =>
      if v.Arr? {
        return v;
      }
      if !KnownArm(v, tag, arms) {
        return Obj(map[tag := MemberOf(v, tag)]);
      }
      ArmStaysLevel(t, v, tag, arms);
      kept := KeepDeclared(t, v, arms[MemberOf(v, tag).s]);
    case Members(members) =>
      if v.Arr? {
        return v;
      }
      var out: map<string, Json> := map[];
      var names := members.Keys;
      while names != {}
        invariant names <= members.Keys
        invariant out == map n | n in members && n !in names && n in v.members :: Keep(t, v.members[n], members[n])
        decreases names
      {
        var name :| name in names;
        names := names - {name};
        if name in v.members {
          var one := KeepDeclared(t, v.members[name], members[name]);
          out := out[name := one];
        }
      }
      kept := Obj(out);
  }

  // ---------- When it ends ----------

  /** The array of the results, if all are there. */
  function AllItems(results: seq<Option<Json>>): (all: Option<Json>)
    ensures all.Some? ==> forall i :: 0 <= i < |results| ==> results[i].Some?
  {
    if forall i :: 0 <= i < |results| ==> results[i].Some?
    then Some(Arr(seq(|results|, i requires 0 <= i < |results| => results[i].value)))
    else None
  }

  /** The object of the results, if all are there. */
  function AllMembers(results: map<string, Option<Json>>): (all: Option<Json>)
    ensures all.Some? ==> forall n :: n in results ==> results[n].Some?
  {
    if forall n :: n in results ==> results[n].Some? then Some(Obj(map n | n in results :: results[n].value)) else None
  }

  /**
   * The projection cut off `fuel` calls deep, on any table whatever: nothing where it would have to
   * go deeper.
   */
  function KeepFuel(t: Table, v: Json, s: Shape, fuel: nat): Option<Json>
    decreases fuel, 0
  {
    if fuel == 0 then None
    else if s.Any? || !IsContainer(v) then Some(v)
    else match s
      case Ref(name) => if name in t then KeepFuel(t, v, t[name], fuel - 1) else Some(v)
      case ArrayOf(item) => if v.Arr? then AllItems(ItemsFuel(t, v.items, item, fuel - 1)) else Some(v)
      case Union(tag, arms) =>
        if v.Arr? then Some(v)
        else if KnownArm(v, tag, arms) then KeepFuel(t, v, arms[MemberOf(v, tag).s], fuel - 1)
        else Some(Obj(map[tag := MemberOf(v, tag)]))
      case Members(members) =>
        if v.Arr? then Some(v) else AllMembers(MembersFuel(t, v.members, members, fuel - 1))
  }

  function ItemsFuel(t: Table, items: seq<Json>, item: Shape, fuel: nat): (results: seq<Option<Json>>)
    ensures |results| == |items|
    decreases fuel, 1
  {
    seq(|items|, i requires 0 <= i < |items| => KeepFuel(t, items[i], item, fuel))
  }

  function MembersFuel(t: Table, values: map<string, Json>, members: map<string, Shape>, fuel: nat)
    : map<string, Option<Json>>
    decreases fuel, 1
  {
    map n | n in members && n in values :: KeepFuel(t, values[n], members[n], fuel)
  }

  /** The projection ends: some depth is deep enough. */
  ghost predicate Ends(t: Table, v: Json, s: Shape) {
    exists fuel: nat :: KeepFuel(t, v, s, fuel).Some?
  }

  lemma {:induction false} MoreFuel(t: Table, v: Json, s: Shape, fuel: nat, more: nat)
    requires fuel <= more && KeepFuel(t, v, s, fuel).Some?
    ensures KeepFuel(t, v, s, more) == KeepFuel(t, v, s, fuel)
    decreases fuel, 1
  {
    if s.Ref? && IsContainer(v) && s.name in t {
      MoreFuel(t, v, t[s.name], fuel - 1, more - 1);
    } else if s.Union? && v.Obj? && KnownArm(v, s.tag, s.arms) {
      MoreFuel(t, v, s.arms[MemberOf(v, s.tag).s], fuel - 1, more - 1);
    } else if s.ArrayOf? && v.Arr? {
      MoreForArray(t, v, s.item, fuel, more);
    } else if s.Members? && v.Obj? {
      MoreForObject(t, v, s.members, fuel, more);
    }
  }

  lemma {:induction false} MoreForArray(t: Table, v: Json, item: Shape, fuel: nat, more: nat)
    requires fuel <= more && v.Arr? && KeepFuel(t, v, ArrayOf(item), fuel).Some?
    ensures KeepFuel(t, v, ArrayOf(item), more) == KeepFuel(t, v, ArrayOf(item), fuel)
    decreases fuel, 0
  {
    MoreForItems(t, v.items, item, fuel - 1, more - 1);
  }

  lemma {:induction false} MoreForObject(t: Table, v: Json, members: map<string, Shape>, fuel: nat, more: nat)
    requires fuel <= more && v.Obj? && KeepFuel(t, v, Members(members), fuel).Some?
    ensures KeepFuel(t, v, Members(members), more) == KeepFuel(t, v, Members(members), fuel)
    decreases fuel, 0
  {
    MoreForMembers(t, v.members, members, fuel - 1, more - 1);
  }

  lemma {:induction false} MoreForItems(t: Table, items: seq<Json>, item: Shape, fuel: nat, more: nat)
    requires fuel <= more && AllItems(ItemsFuel(t, items, item, fuel)).Some?
    ensures ItemsFuel(t, items, item, more) == ItemsFuel(t, items, item, fuel)
    decreases fuel, 2
  {
    var results, deeper := ItemsFuel(t, items, item, fuel), ItemsFuel(t, items, item, more);
    forall i | 0 <= i < |items|
      ensures deeper[i] == results[i]
    {
      assert results[i].Some?;
      MoreFuel(t, items[i], item, fuel, more);
    }
  }

  lemma {:induction false} MoreForMembers(t: Table, values: map<string, Json>, members: map<string, Shape>,
                                          fuel: nat, more: nat)
    requires fuel <= more && AllMembers(MembersFuel(t, values, members, fuel)).Some?
    ensures MembersFuel(t, values, members, more) == MembersFuel(t, values, members, fuel)
    decreases fuel, 2
  {
    var results, deeper := MembersFuel(t, values, members, fuel), MembersFuel(t, values, members, more);
    forall n | n in results
      ensures deeper[n] == results[n]
    {
      assert results[n].Some?;
      MoreFuel(t, values[n], members[n], fuel, more);
    }
  }

  ghost function Max(a: nat, b: nat): nat {
    if a < b then b else a
  }

  /** Deep enough for this value, and what is found then is the projection. */
  ghost predicate Enough(t: Table, v: Json, s: Shape, fuel: nat)
    requires NeverReturns(t)
  {
    KeepFuel(t, v, s, fuel) == Some(Keep(t, v, s))
  }

  /** Where no entry leads back to itself, every projection ends, and ends with `Keep`. */
  lemma {:induction false} EnoughFuel(t: Table, v: Json, s: Shape) returns (fuel: nat)
    requires NeverReturns(t)
    ensures Enough(t, v, s, fuel)
    decreases v, Ahead(t, v, s), s, 2
  {
    fuel := 1;
    if s.Ref? && IsContainer(v) && s.name in t {
      RefGoesDown(t, v, s.name);
      var deep := EnoughFuel(t, v, t[s.name]);
      fuel := deep + 1;
    } else if s.Union? && v.Obj? && KnownArm(v, s.tag, s.arms) {
      ArmStaysLevel(t, v, s.tag, s.arms);
      var deep := EnoughFuel(t, v, s.arms[MemberOf(v, s.tag).s]);
      fuel := deep + 1;
    } else if s.ArrayOf? && v.Arr? {
      fuel := EnoughForArray(t, v, s.item);
    } else if s.Members? && v.Obj? {
      fuel := EnoughForObject(t, v, s.members);
    }
  }

  lemma {:induction false} EnoughForItems(t: Table, v: Json, item: Shape) returns (deep: nat)
    requires NeverReturns(t) && v.Arr?
    ensures forall i :: 0 <= i < |v.items| ==> Enough(t, v.items[i], item, deep)
    decreases v, Ahead(t, v, ArrayOf(item)), ArrayOf(item), 0
  {
    deep := 0;
    for i := 0 to |v.items|
      invariant forall j :: 0 <= j < i ==> Enough(t, v.items[j], item, deep)
    {
      var before := deep;
      var one := EnoughFuel(t, v.items[i], item);
      deep := Max(deep, one);
      MoreFuel(t, v.items[i], item, one, deep);
      forall j | 0 <= j < i
        ensures Enough(t, v.items[j], item, deep)
      {
        MoreFuel(t, v.items[j], item, before, deep);
      }
    }
  }

  lemma {:induction false} EnoughForMembers(t: Table, v: Json, members: map<string, Shape>) returns (deep: nat)
    requires NeverReturns(t) && v.Obj?
    ensures forall n :: n in members && n in v.members ==> Enough(t, v.members[n], members[n], deep)
    decreases v, Ahead(t, v, Members(members)), Members(members), 0
  {
    var names := members.Keys * v.members.Keys;
    deep := 0;
    while names != {}
      invariant names <= members.Keys * v.members.Keys
      invariant forall n :: n in members && n in v.members && n !in names ==>
                              Enough(t, v.members[n], members[n], deep)
      decreases names
    {
      var name :| name in names;
      var before := deep;
      var one := EnoughFuel(t, v.members[name], members[name]);
      deep := Max(deep, one);
      MoreFuel(t, v.members[name], members[name], one, deep);
      forall n | n in members && n in v.members && n !in names
        ensures Enough(t, v.members[n], members[n], deep)
      {
        MoreFuel(t, v.members[n], members[n], before, deep);
      }
      names := names - {name};
    }
  }

  lemma {:induction false} EnoughForArray(t: Table, v: Json, item: Shape) returns (fuel: nat)
    requires NeverReturns(t) && v.Arr?
    ensures Enough(t, v, ArrayOf(item), fuel)
    decreases v, Ahead(t, v, ArrayOf(item)), ArrayOf(item), 1
  {
    var deep := EnoughForItems(t, v, item);
    var results := ItemsFuel(t, v.items, item, deep);
    assert AllItems(results).Some?;
    assert AllItems(results).value.items == Keep(t, v, ArrayOf(item)).items;
    fuel := deep + 1;
  }

  lemma {:induction false} EnoughForObject(t: Table, v: Json, members: map<string, Shape>) returns (fuel: nat)
    requires NeverReturns(t) && v.Obj?
    ensures Enough(t, v, Members(members), fuel)
    decreases v, Ahead(t, v, Members(members)), Members(members), 1
  {
    var deep := EnoughForMembers(t, v, members);
    var results := MembersFuel(t, v.members, members, deep);
    assert AllMembers(results).Some?;
    assert AllMembers(results).value.members == Keep(t, v, Members(members)).members;
    fuel := deep + 1;
  }

  /** What has ended has come to the end of the entries consulted on the value. */
  lemma {:induction false} EndsWithItsEntries(t: Table, v: Json, s: Shape, fuel: nat) returns (k: nat)
    requires IsContainer(v) && KeepFuel(t, v, s, fuel).Some?
    ensures EntryAfter(t, v, s, k).None?
    decreases fuel
  {
    k := 0;
    if s.Ref? && s.name in t {
      var before := EndsWithItsEntries(t, v, t[s.name], fuel - 1);
      AfterRef(t, v, s.name, before);
      k := before + 1;
    } else if s.Union? && v.Obj? && KnownArm(v, s.tag, s.arms) {
      k := EndsWithItsEntries(t, v, s.arms[MemberOf(v, s.tag).s], fuel - 1);
      SameEntries(t, v, s.arms[MemberOf(v, s.tag).s], s, k);
    }
  }

  lemma {:induction false} ReturningGoesOn(t: Table, v: Json, n: string, period: nat, k: nat)
    requires n in t && EntryAfter(t, v, t[n], period) == Some(n)
    ensures EntryAfter(t, v, Ref(n), k).Some?
    ensures EntryAfter(t, v, Ref(n), k + period + 1) == EntryAfter(t, v, Ref(n), k)
  {
    AfterRef(t, v, n, period);
    if k > 0 {
      ReturningGoesOn(t, v, n, period, k - 1);
    }
    if k > period + 1 {
      ReturningGoesOn(t, v, n, period, k - period - 1);
    } else if EntryAfter(t, v, Ref(n), k).None? {
      NothingAfterTheEnd(t, v, Ref(n), k, period + 1);
    }
  }

  /** On an object or array on which an entry leads back to itself, no depth is deep enough. */
  lemma ReturningNeverEnds(t: Table, v: Json, n: string, period: nat)
    requires IsContainer(v) && n in t && EntryAfter(t, v, t[n], period) == Some(n)
    ensures !Ends(t, v, t[n])
  {
    if fuel: nat :| KeepFuel(t, v, t[n], fuel).Some? {
      var k := EndsWithItsEntries(t, v, t[n], fuel);
      AfterRef(t, v, n, k);
      ReturningGoesOn(t, v, n, period, k + 1);
    }
  }

  /** The projection ends on every value and every entry exactly when no entry leads back to itself. */
  lemma EndsIffNeverReturns(t: Table)
    ensures (forall n, v :: n in t ==> Ends(t, v, t[n])) <==> NeverReturns(t)
  {
    if NeverReturns(t) {
      forall n, v | n in t
        ensures Ends(t, v, t[n])
      {
        var fuel := EnoughFuel(t, v, t[n]);
      }
    } else {
      var v, n, k: nat :| IsContainer(v) && n in t && EntryAfter(t, v, t[n], k) == Some(n);
      ReturningNeverEnds(t, v, n, k);
    }
  }

  lemma {:induction false} NothingAfterTheEnd(t: Table, v: Json, s: Shape, k: nat, later: nat)
    requires k <= later && EntryAfter(t, v, s, k).None?
    ensures EntryAfter(t, v, s, later).None?
  {
    if k < later {
      NothingAfterTheEnd(t, v, s, k, later - 1);
    }
  }

  /** Neither an entry nor an arm, at every depth of nested arms, is a bare reference. */
  predicate Plain(s: Shape) {
    match s
    case Ref(_) => false
    case Union(_, arms) => forall a :: a in arms ==> Plain(arms[a])
    case _ => true
  }

  lemma {:induction false} PlainHasNoEntry(t: Table, v: Json, s: Shape)
    requires Plain(s)
    ensures EntryOf(t, v, s).None?
  {
    if s.Union? && v.Obj? && KnownArm(v, s.tag, s.arms) {
      PlainHasNoEntry(t, v, s.arms[MemberOf(v, s.tag).s]);
    }
  }

  lemma PlainTablesNeverReturn(t: Table)
    requires forall n :: n in t ==> Plain(t[n])
    ensures NeverReturns(t)
  {
    forall v, n, k: nat | n in t
      ensures EntryAfter(t, v, t[n], k).None?
    {
      PlainHasNoEntry(t, v, t[n]);
      NothingAfterTheEnd(t, v, t[n], 0, k);
    }
  }

  /** That no entry is a bare reference is not enough: an arm may refer back to its own union. */
  lemma SelfReferringArmReturns()
    ensures var t: Table := map["A" := Union("type", map["x" := Ref("A")])];
            (forall n :: n in t ==> !t[n].Ref?) && !Ends(t, Obj(map["type" := Str("x")]), t["A"])
  {
    var t: Table := map["A" := Union("type", map["x" := Ref("A")])];
    var v := Obj(map["type" := Str("x")]);
    assert KnownArm(v, "type", map["x" := Ref("A")]);
    ReturningNeverEnds(t, v, "A", 0);
  }

  // ---------- Idempotence ----------

  /** The least value that a union with this tag takes to this arm. */
  function Bare(tag: string, a: string): Json {
    Obj(map[tag := Str(a)])
  }

  /**
   * The arm `a` keeps the tag that led to it: it is an allow-list that declares the tag, or keeps
   * objects as read, or is a reference to such an arm, or chooses among such arms by the same tag.
   */
  predicate ArmKeeps(t: Table, s: Shape, tag: string, a: string)
    requires NeverReturns(t)
    decreases Ahead(t, Bare(tag, a), s), s
  {
    match s
    case Any => true
    case ArrayOf(_) => true
    case Members(members) => tag in members
    case Ref(name) =>
      if name !in t then true
      else
        RefGoesDown(t, Bare(tag, a), name);
        ArmKeeps(t, t[name], tag, a)
    case Union(other, arms) =>
      if other != tag || a !in arms then other == tag
      else
        ArmStaysLevel(t, Bare(tag, a), tag, arms);
        ArmKeeps(t, arms[a], tag, a)
  }

  /** The tag and the arm that led to a shape, if an arm of a union did. */
  type Chosen = Option<(string, string)>

  /**
   * Every arm that a value can be taken to keeps its tag. Within an arm only objects with that tag
   * are met, so the items, the tag itself and the arms of other tags do not matter there.
   */
  predicate Tagged(t: Table, s: Shape, chosen: Chosen)
    requires NeverReturns(t)
    decreases s
  {
    match s
    case ArrayOf(item) => chosen.None? ==> Tagged(t, item, None)
    case Members(members) =>
      forall n :: n in members && (chosen.Some? ==> n != chosen.value.0) ==> Tagged(t, members[n], None)
    case Union(tag, arms) =>
      forall a :: a in arms && (chosen.Some? ==> chosen.value == (tag, a)) ==>
                    ArmKeeps(t, arms[a], tag, a) && Tagged(t, arms[a], Some((tag, a)))
    case _ => true
  }

  ghost predicate TaggedTable(t: Table)
    requires NeverReturns(t)
  {
    forall n :: n in t ==> Tagged(t, t[n], None)
  }

  /** The value is one that the choice led here with, and the shape keeps the tag. */
  predicate Led(t: Table, v: Json, s: Shape, chosen: Chosen)
    requires NeverReturns(t)
  {
    chosen.Some? ==>
      v.Obj? && MemberOf(v, chosen.value.0) == Str(chosen.value.1) && ArmKeeps(t, s, chosen.value.0, chosen.value.1)
  }

  ghost predicate Idempotent(t: Table, v: Json, s: Shape)
    requires NeverReturns(t)
  {
    Keep(t, Keep(t, v, s), s) == Keep(t, v, s)
  }

  lemma KeepIsContainer(t: Table, v: Json, s: Shape)
    requires NeverReturns(t)
    ensures Keep(t, v, s).Arr? <==> v.Arr?
    ensures Keep(t, v, s).Obj? <==> v.Obj?
    decreases v, Ahead(t, v, s), s
  {
    if IsContainer(v) {
      match s
      case Ref(name) =>
        if name in t {
          RefGoesDown(t, v, name);
          KeepIsContainer(t, v, t[name]);
        }
      case Union(tag, arms) =>
        if v.Obj? && KnownArm(v, tag, arms) {
          var a := MemberOf(v, tag).s;
          ArmStaysLevel(t, v, tag, arms);
          KeepIsContainer(t, v, arms[a]);
        }
      case _ =>
    }
  }

  /** An arm that keeps its tag keeps it on every object that is led to it. */
  lemma {:induction false} TagIsKept(t: Table, v: Json, s: Shape, tag: string, a: string)
    requires NeverReturns(t) && v.Obj? && MemberOf(v, tag) == Str(a) && ArmKeeps(t, s, tag, a)
    ensures var once := Keep(t, v, s); once.Obj? && MemberOf(once, tag) == Str(a)
    decreases Ahead(t, v, s), s
  {
    match s
    case Ref(name) =>
      if name in t {
        RefGoesDown(t, v, name);
        TagIsKept(t, v, t[name], tag, a);
      }
    case Union(_, arms) =>
      if a in arms {
        ArmStaysLevel(t, v, tag, arms);
        TagIsKept(t, v, arms[a], tag, a);
      }
    case _ =>
  }

  /** The second time the value is led to the same arm. */
  lemma SameArmTwice(t: Table, v: Json, tag: string, arms: map<string, Shape>)
    requires NeverReturns(t) && v.Obj? && KnownArm(v, tag, arms)
    requires ArmKeeps(t, arms[MemberOf(v, tag).s], tag, MemberOf(v, tag).s)
    ensures Idempotent(t, v, Union(tag, arms)) <==> Idempotent(t, v, arms[MemberOf(v, tag).s])
  {
    var a := MemberOf(v, tag).s;
    var once := Keep(t, v, arms[a]);
    TagIsKept(t, v, arms[a], tag, a);
    assert Keep(t, v, Union(tag, arms)) == once;
    assert KnownArm(once, tag, arms) && Keep(t, once, Union(tag, arms)) == Keep(t, once, arms[a]);
  }

  lemma {:induction false} KeepTwice(t: Table, v: Json, s: Shape, chosen: Chosen)
    requires NeverReturns(t) && TaggedTable(t) && Tagged(t, s, chosen) && Led(t, v, s, chosen)
    ensures Idempotent(t, v, s)
    decreases v, Ahead(t, v, s), s
  {
    KeepIsContainer(t, v, s);
    if IsContainer(v) {
      match s
      case Any =>
      case Ref(name) =>
        if name in t {
          RefGoesDown(t, v, name);
          KeepTwice(t, v, t[name], None);
        }
      case ArrayOf(item) =>
        if v.Arr? {
          forall i | 0 <= i < |v.items|
            ensures Idempotent(t, v.items[i], item)
          {
            KeepTwice(t, v.items[i], item, None);
          }
        }
      case Members(members) =>
        if v.Obj? {
          forall n | n in members && n in v.members
            ensures Idempotent(t, v.members[n], members[n])
          {
            if chosen.None? || n != chosen.value.0 {
              KeepTwice(t, v.members[n], members[n], None);
            }
          }
        }
      case Union(tag, arms) =>
        if v.Obj? && KnownArm(v, tag, arms) {
          var a := MemberOf(v, tag).s;
          ArmStaysLevel(t, v, tag, arms);
          KeepTwice(t, v, arms[a], Some((tag, a)));
          SameArmTwice(t, v, tag, arms);
        }
    }
  }

  lemma {:induction false} TagIsDropped(t: Table, s: Shape, tag: string, a: string)
    requires NeverReturns(t) && !ArmKeeps(t, s, tag, a)
    ensures var once := Keep(t, Bare(tag, a), s); once.Obj? && tag !in once.members
    decreases Ahead(t, Bare(tag, a), s), s
  {
    match s
    case Ref(name) =>
      RefGoesDown(t, Bare(tag, a), name);
      TagIsDropped(t, t[name], tag, a);
    case Union(other, arms) =>
      if other == tag {
        ArmStaysLevel(t, Bare(tag, a), tag, arms);
        TagIsDropped(t, arms[a], tag, a);
      } else {
        assert !KnownArm(Bare(tag, a), other, arms);
      }
    case _ =>
  }

  /** A value, led there by the choice, that the projection changes a second time. */
  lemma {:induction false} ChangedTwice(t: Table, s: Shape, chosen: Chosen) returns (v: Json)
    requires NeverReturns(t) && !Tagged(t, s, chosen)
    requires chosen.Some? ==> ArmKeeps(t, s, chosen.value.0, chosen.value.1)
    ensures Led(t, v, s, chosen) && !Idempotent(t, v, s)
    decreases s
  {
    match s
    case ArrayOf(item) =>
      var w := ChangedTwice(t, item, None);
      v := Arr([w]);
      ChangedInArray(t, item, w);
    case Members(members) =>
      var n :| n in members && (chosen.Some? ==> n != chosen.value.0) && !Tagged(t, members[n], None);
      var w := ChangedTwice(t, members[n], None);
      v := Obj(if chosen.Some? then map[chosen.value.0 := Str(chosen.value.1), n := w] else map[n := w]);
      ChangedInMember(t, members, n, v);
    case Union(tag, arms) =>
      var a :| a in arms && (chosen.Some? ==> chosen.value == (tag, a)) &&
               !(ArmKeeps(t, arms[a], tag, a) && Tagged(t, arms[a], Some((tag, a))));
      if ArmKeeps(t, arms[a], tag, a) {
        v := ChangedTwice(t, arms[a], Some((tag, a)));
        SameArmTwice(t, v, tag, arms);
      } else {
        v := Bare(tag, a);
        ChangedTag(t, tag, arms, a);
      }
  }

  lemma ChangedInArray(t: Table, item: Shape, w: Json)
    requires NeverReturns(t) && !Idempotent(t, w, item)
    ensures !Idempotent(t, Arr([w]), ArrayOf(item))
  {
    var once := Keep(t, Arr([w]), ArrayOf(item));
    assert once.items[0] == Keep(t, w, item);
    assert Keep(t, once, ArrayOf(item)).items[0] == Keep(t, Keep(t, w, item), item);
  }

  lemma ChangedInMember(t: Table, members: map<string, Shape>, n: string, v: Json)
    requires NeverReturns(t) && v.Obj? && n in members && n in v.members && !Idempotent(t, v.members[n], members[n])
    ensures !Idempotent(t, v, Members(members))
  {
    var once := Keep(t, v, Members(members));
    assert once.members[n] == Keep(t, v.members[n], members[n]);
    assert Keep(t, once, Members(members)).members[n] == Keep(t, Keep(t, v.members[n], members[n]), members[n]);
  }

  /** An arm that drops the tag: the second time no arm is known, and the tag comes back as missing. */
  lemma ChangedTag(t: Table, tag: string, arms: map<string, Shape>, a: string)
    requires NeverReturns(t) && a in arms && !ArmKeeps(t, arms[a], tag, a)
    ensures !Idempotent(t, Bare(tag, a), Union(tag, arms))
  {
    TagIsDropped(t, arms[a], tag, a);
    var once := Keep(t, Bare(tag, a), arms[a]);
    assert KnownArm(Bare(tag, a), tag, arms) && Keep(t, Bare(tag, a), Union(tag, arms)) == once;
    assert !KnownArm(once, tag, arms) && tag in Keep(t, once, Union(tag, arms)).members;
  }

  /**
   * On every table on which the projection ends: projecting twice is projecting once, for every
   * entry and every value, exactly when every arm that a value can be taken to keeps its tag.
   */
  lemma IdempotentIffTagged(t: Table)
    requires NeverReturns(t)
    ensures (forall n, v :: n in t ==> Idempotent(t, v, t[n])) <==> TaggedTable(t)
  {
    if TaggedTable(t) {
      forall n, v | n in t
        ensures Idempotent(t, v, t[n])
      {
        KeepTwice(t, v, t[n], None);
      }
    } else {
      var n :| n in t && !Tagged(t, t[n], None);
      var v := ChangedTwice(t, t[n], None);
    }
  }

  // ---------- What is kept, path by path ----------

  datatype Key = Name(name: string) | Index(index: nat)

  function Read(v: Json, path: seq<Key>): Option<Json> {
    if path == [] then Some(v)
    else match path[0]
      case Name(n) => if v.Obj? && n in v.members then Read(v.members[n], path[1..]) else None
      case Index(i) => if v.Arr? && i < |v.items| then Read(v.items[i], path[1..]) else None
  }

  /** The path stays within what the shape declares; below a mismatch of kind everything counts. */
  predicate Declared(t: Table, v: Json, s: Shape, path: seq<Key>)
    requires NeverReturns(t) && Read(v, path).Some?
    decreases v, Ahead(t, v, s), s
  {
    if path == [] then true
    else match s
      case Any => true
      case Ref(name) =>
        if name !in t then true
        else
          RefGoesDown(t, v, name);
          Declared(t, v, t[name], path)
      case ArrayOf(item) => v.Obj? || Declared(t, v.items[path[0].index], item, path[1..])
      case Members(members) =>
        v.Arr? ||
        (path[0].name in members && Declared(t, v.members[path[0].name], members[path[0].name], path[1..]))
      case Union(tag, arms) =>
        v.Arr? ||
        if KnownArm(v, tag, arms) then
          ArmStaysLevel(t, v, tag, arms);
          Declared(t, v, arms[MemberOf(v, tag).s], path)
        else path[0] == Name(tag)
  }

  /**
   * The path ends in the tag of a union whose arm is unknown, and the value has no such member; the
   * program then writes the tag as `undefined`.
   */
  predicate MissingTag(t: Table, v: Json, s: Shape, path: seq<Key>)
    requires NeverReturns(t)
    decreases v, Ahead(t, v, s), s
  {
    path != [] && IsContainer(v) && match s
    case Any => false
    case Ref(name) =>
      if name !in t then false
      else
        RefGoesDown(t, v, name);
        MissingTag(t, v, t[name], path)
    case ArrayOf(item) =>
      v.Arr? && path[0].Index? && path[0].index < |v.items| && MissingTag(t, v.items[path[0].index], item, path[1..])
    case Members(members) =>
      v.Obj? && path[0].Name? && path[0].name in v.members && path[0].name in members &&
        MissingTag(t, v.members[path[0].name], members[path[0].name], path[1..])
    case Union(tag, arms) =>
      if v.Arr? then false
      else if KnownArm(v, tag, arms) then
        ArmStaysLevel(t, v, tag, arms);
        MissingTag(t, v, arms[MemberOf(v, tag).s], path)
      else path == [Name(tag)] && tag !in v.members
  }

  /**
   * At every depth: of what could be read before, exactly the declared paths can be read after,
   * and a scalar there is unchanged; nothing else can be read but, as `undefined`, a missing tag.
   */
  lemma {:induction false} KeepsExactlyTheDeclared(t: Table, v: Json, s: Shape, path: seq<Key>)
    requires NeverReturns(t)
    ensures var before, after := Read(v, path), Read(Keep(t, v, s), path);
            if before.None? then after == if MissingTag(t, v, s, path) then Some(Undefined) else None
            else
              && (after.Some? <==> Declared(t, v, s, path))
              && (after.Some? && !IsContainer(before.value) ==> after == before)
              && (after.Some? ==> (after.value.Arr? <==> before.value.Arr?))
              && (after.Some? ==> (after.value.Obj? <==> before.value.Obj?))
    decreases v, Ahead(t, v, s), s
  {
    KeepIsContainer(t, v, s);
    if path != [] && IsContainer(v) {
      match s
      case Any =>
      case Ref(name) =>
        if name in t {
          RefGoesDown(t, v, name);
          KeepsExactlyTheDeclared(t, v, t[name], path);
        }
      case ArrayOf(item) =>
        if v.Arr? && path[0].Index? && path[0].index < |v.items| {
          KeepsExactlyTheDeclared(t, v.items[path[0].index], item, path[1..]);
        }
      case Members(members) =>
        if v.Obj? && path[0].Name? && path[0].name in v.members && path[0].name in members {
          KeepsExactlyTheDeclared(t, v.members[path[0].name], members[path[0].name], path[1..]);
        }
      case Union(tag, arms) =>
        if v.Obj? && KnownArm(v, tag, arms) {
          var a := MemberOf(v, tag).s;
          ArmStaysLevel(t, v, tag, arms);
          KeepsExactlyTheDeclared(t, v, arms[a], path);
        }
    }
  }
}
