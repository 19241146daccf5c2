/** Which types the generator has met when it comes to a field, and what that does to embedded structs. */
module SchemaWalk {
  import opened Wrappers
  import opened SchemaSpec
  import opened SchemaTheorems

  // ---------------------------------------------------------------------------
  // The graph of types.

  /** The struct type that a schema refers to, through pointers and slices. */
  function Target(types: Types, t: Type): Option<nat>
    decreases t
  {
    var u := Deref(t);
    if u.Slice? then Target(types, u.elem) else if IsNamedStruct(types, u) then Some(u.id) else None
  }

  /** The generator looks at the field's type. */
  predicate IsFollowed(f: Field) {
    f.embedded || !IsHidden(f)
  }

  predicate Refers(types: Types, j: nat, k: nat) {
    j < |types| && exists f :: f in types[j].fields && IsFollowed(f) && Target(types, f.typ) == Some(k)
  }

  /** A way through the graph that stays clear of the types already visited. */
  ghost predicate IsClear(types: Types, way: seq<nat>, visited: set<nat>) {
    && (forall i :: 0 <= i < |way| ==> way[i] !in visited)
    && (forall i :: 0 < i < |way| ==> Refers(types, way[i - 1], way[i]))
  }

  ghost predicate Joins(types: Types, way: seq<nat>, t: Type, k: nat) {
    way != [] && Target(types, t) == Some(way[0]) && way[|way| - 1] == k
  }

  /** From a type, a clear way leads to the struct type. */
  ghost predicate Reaches(types: Types, t: Type, visited: set<nat>, k: nat) {
    exists way :: Joins(types, way, t, k) && IsClear(types, way, visited)
  }

  ghost predicate AnyReaches(types: Types, fields: seq<Field>, visited: set<nat>, k: nat) {
    exists f :: f in fields && IsFollowed(f) && Reaches(types, f.typ, visited, k)
  }

  lemma ReachesFromFewer(types: Types, t: Type, before: set<nat>, after: set<nat>, k: nat)
    requires before <= after && Reaches(types, t, after, k)
    ensures Reaches(types, t, before, k)
  {
    var way :| Joins(types, way, t, k) && IsClear(types, way, after);
    assert IsClear(types, way, before);
  }

  lemma ReachesThrough(types: Types, id: nat, visited: set<nat>, k: nat)
    requires IsNamedStruct(types, Struct(id)) && id !in visited
    requires AnyReaches(types, types[id].fields, visited + {id}, k)
    ensures Reaches(types, Struct(id), visited, k)
  {
    var f :| f in types[id].fields && IsFollowed(f) && Reaches(types, f.typ, visited + {id}, k);
    var way :| Joins(types, way, f.typ, k) && IsClear(types, way, visited + {id});
    assert Refers(types, id, way[0]);
    assert IsClear(types, [id] + way, visited) && Joins(types, [id] + way, Struct(id), k);
  }

  // ---------------------------------------------------------------------------
  // What is visited is what can be reached.

  lemma {:induction false} NewIsReached(types: Types, t: Type, visited: set<nat>, k: nat)
    requires k in Build(types, t, visited).visited && k !in visited
    ensures Reaches(types, t, visited, k)
    decreases Unvisited(types, visited), 0, t
  {
    var u := Deref(t);
    if IsNamedStruct(types, u) {
      VisitingShrinks(types, visited, visited + {u.id});
      if k == u.id {
        assert Joins(types, [k], t, k) && IsClear(types, [k], visited);
      } else {
        NewIsGathered(types, types[u.id].fields, Gathered(map[], [], map[], visited + {u.id}), k);
        ReachesThrough(types, u.id, visited, k);
        SameTarget(types, t, u, visited, k);
      }
    } else if u.Slice? {
      NewIsReached(types, u.elem, visited, k);
      SameTarget(types, t, u.elem, visited, k);
    }
  }

  lemma SameTarget(types: Types, t: Type, u: Type, visited: set<nat>, k: nat)
    requires Target(types, t) == Target(types, u) && Reaches(types, u, visited, k)
    ensures Reaches(types, t, visited, k)
  {
    var way :| Joins(types, way, u, k) && IsClear(types, way, visited);
    assert Joins(types, way, t, k);
  }

  lemma {:induction false} NewIsGathered(types: Types, fields: seq<Field>, g: Gathered, k: nat)
    requires k in Gather(types, fields, g).visited && k !in g.visited
    ensures AnyReaches(types, fields, g.visited, k)
    decreases Unvisited(types, g.visited), 1, |fields|
  {
    var f, g' := fields[0], AddField(types, fields[0], g);
    assert f in fields;
    if k in g'.visited {
      NewIsReached(types, f.typ, g.visited, k);
    } else {
      VisitingShrinks(types, g.visited, g'.visited);
      NewIsGathered(types, fields[1..], g', k);
      var f' :| f' in fields[1..] && IsFollowed(f') && Reaches(types, f'.typ, g'.visited, k);
      ReachesFromFewer(types, f'.typ, g.visited, g'.visited, k);
    }
  }

  /** What newly visited types refer to has been visited too. */
  ghost predicate IsDone(types: Types, before: set<nat>, after: set<nat>) {
    forall j, k :: j in after - before && Refers(types, j, k) ==> k in after
  }

  ghost predicate TargetIn(types: Types, t: Type, visited: set<nat>) {
    Target(types, t).Some? ==> Target(types, t).value in visited
  }

  ghost predicate TargetsIn(types: Types, fields: seq<Field>, visited: set<nat>) {
    forall f :: f in fields && IsFollowed(f) ==> TargetIn(types, f.typ, visited)
  }

  lemma {:induction false} BuildIsDone(types: Types, t: Type, visited: set<nat>)
    ensures var b := Build(types, t, visited);
            IsDone(types, visited, b.visited) && TargetIn(types, t, b.visited) && "" !in b.defs
    decreases Unvisited(types, visited), 0, t
  {
    var u := Deref(t);
    if IsNamedStruct(types, u) {
      if u.id !in visited {
        VisitingShrinks(types, visited, visited + {u.id});
        GatherIsDone(types, types[u.id].fields, Gathered(map[], [], map[], visited + {u.id}));
        StructIsDone(types, u.id, visited, Build(types, t, visited).visited);
      }
    } else if u.Slice? {
      BuildIsDone(types, u.elem, visited);
    }
  }

  lemma StructIsDone(types: Types, id: nat, visited: set<nat>, after: set<nat>)
    requires id < |types| && IsDone(types, visited + {id}, after) && TargetsIn(types, types[id].fields, after)
    ensures IsDone(types, visited, after)
  {
    forall j, k | j in after - visited && Refers(types, j, k) ensures k in after {
      if j == id {
        var f :| f in types[id].fields && IsFollowed(f) && Target(types, f.typ) == Some(k);
        assert TargetIn(types, f.typ, after);
      } else {
        assert j in after - (visited + {id});
      }
    }
  }

  lemma {:induction false} GatherIsDone(types: Types, fields: seq<Field>, g: Gathered)
    requires "" !in g.defs
    ensures var r := Gather(types, fields, g);
            IsDone(types, g.visited, r.visited) && TargetsIn(types, fields, r.visited) && "" !in r.defs
    decreases Unvisited(types, g.visited), 1, |fields|
  {
    if fields != [] {
      var f, g' := fields[0], AddField(types, fields[0], g);
      if IsFollowed(f) {
        BuildIsDone(types, f.typ, g.visited);
      }
      VisitingShrinks(types, g.visited, g'.visited);
      GatherIsDone(types, fields[1..], g');
      JoinDone(types, g.visited, g'.visited, Gather(types, fields, g).visited);
      FirstTargetIn(types, fields, g'.visited, Gather(types, fields, g).visited);
    }
  }

  lemma FirstTargetIn(types: Types, fields: seq<Field>, before: set<nat>, after: set<nat>)
    requires fields != [] && before <= after && TargetsIn(types, fields[1..], after)
    requires IsFollowed(fields[0]) ==> TargetIn(types, fields[0].typ, before)
    ensures TargetsIn(types, fields, after)
  {
    assert fields == [fields[0]] + fields[1..];
  }

  lemma JoinDone(types: Types, a: set<nat>, b: set<nat>, c: set<nat>)
    requires a <= b <= c && IsDone(types, a, b) && IsDone(types, b, c)
    ensures IsDone(types, a, c)
  {
  }

  lemma {:induction false} ReachedIsVisited(types: Types, way: seq<nat>, before: set<nat>, after: set<nat>)
    requires IsDone(types, before, after) && way != [] && IsClear(types, way, before) && way[0] in after
    ensures way[|way| - 1] in after
    decreases |way|
  {
    if |way| > 1 {
      var shorter := way[..|way| - 1];
      ReachedIsVisited(types, shorter, before, after);
      assert Refers(types, way[|way| - 2], way[|way| - 1]);
    }
  }

  /** From a type the generator visits what a clear way leads to, and nothing else. */
  lemma VisitsWhatIsReached(types: Types, t: Type, visited: set<nat>, k: nat)
    ensures k in Build(types, t, visited).visited <==> k in visited || Reaches(types, t, visited, k)
  {
    if k in Build(types, t, visited).visited && k !in visited {
      NewIsReached(types, t, visited, k);
    }
    if Reaches(types, t, visited, k) {
      var way :| Joins(types, way, t, k) && IsClear(types, way, visited);
      BuildIsDone(types, t, visited);
      ReachedIsVisited(types, way, visited, Build(types, t, visited).visited);
    }
  }

  /** The same for a series of fields. */
  lemma GathersWhatIsReached(types: Types, fields: seq<Field>, g: Gathered, k: nat)
    requires "" !in g.defs
    ensures k in Gather(types, fields, g).visited <==> k in g.visited || AnyReaches(types, fields, g.visited, k)
  {
    var r := Gather(types, fields, g);
    if k in r.visited && k !in g.visited {
      NewIsGathered(types, fields, g, k);
    }
    if AnyReaches(types, fields, g.visited, k) {
      var f :| f in fields && IsFollowed(f) && Reaches(types, f.typ, g.visited, k);
      var way :| Joins(types, way, f.typ, k) && IsClear(types, way, g.visited);
      GatherIsDone(types, fields, g);
      assert TargetIn(types, f.typ, r.visited);
      ReachedIsVisited(types, way, g.visited, r.visited);
    }
  }

  // ---------------------------------------------------------------------------
  // Embedded structs.

  /** What is known before the first field of a struct. */
  function Start(id: nat, visited: set<nat>): Gathered {
    Gathered(map[], [], map[], visited + {id})
  }

  /** The definition of a struct type that has not been visited before. */
  function DefinitionOf(types: Types, id: nat, visited: set<nat>): Definition
    requires IsNamedStruct(types, Struct(id)) && id !in visited
  {
    Build(types, Struct(id), visited).defs[types[id].name]
  }

  /** A struct type has been met before a field: from outside, as the struct itself, or from an earlier field. */
  ghost predicate IsMet(types: Types, id: nat, visited: set<nat>, i: nat, e: nat)
    requires id < |types| && i <= |types[id].fields|
  {
    e in visited || e == id || AnyReaches(types, types[id].fields[..i], visited + {id}, e)
  }

  /** All types that have been met before a field. */
  function MetBefore(types: Types, id: nat, visited: set<nat>, i: nat): (met: set<nat>)
    requires id < |types| && i <= |types[id].fields|
    ensures visited + {id} <= met
  {
    Gather(types, types[id].fields[..i], Start(id, visited)).visited
  }

  lemma MetBeforeIsMet(types: Types, id: nat, visited: set<nat>, i: nat, e: nat)
    requires id < |types| && i <= |types[id].fields|
    ensures e in MetBefore(types, id, visited, i) <==> IsMet(types, id, visited, i, e)
  {
    GathersWhatIsReached(types, types[id].fields[..i], Start(id, visited), e);
  }

  /** The field brings the property into the definition of its struct. */
  ghost predicate Brings(types: Types, id: nat, visited: set<nat>, i: nat, k: string)
    requires id < |types| && i < |types[id].fields|
  {
    var f := types[id].fields[i];
    if f.embedded then
      var u := Deref(f.typ);
      && IsNamedStruct(types, u) && !IsMet(types, id, visited, i, u.id)
      && u.id !in MetBefore(types, id, visited, i)
      && k in DefinitionOf(types, u.id, MetBefore(types, id, visited, i)).properties
    else !IsHidden(f) && k == PropertyName(f)
  }

  lemma {:induction false} GatherSplits(types: Types, a: seq<Field>, b: seq<Field>, g: Gathered)
    ensures Gather(types, a + b, g) == Gather(types, b, Gather(types, a, g))
    decreases |a|
  {
    if a == [] {
      assert a + b == b;
    } else {
      assert (a + b)[1..] == a[1..] + b;
      GatherSplits(types, a[1..], b, AddField(types, a[0], g));
    }
  }

  /** One more field. */
  lemma GathersOneMore(types: Types, fields: seq<Field>, g: Gathered, i: nat)
    requires i < |fields|
    ensures Gather(types, fields[..i + 1], g) == AddField(types, fields[i], Gather(types, fields[..i], g))
  {
    var g' := Gather(types, fields[..i], g);
    assert fields[..i + 1] == fields[..i] + [fields[i]] && [fields[i]][1..] == [];
    GatherSplits(types, fields[..i], [fields[i]], g);
    assert Gather(types, [], AddField(types, fields[i], g')) == AddField(types, fields[i], g');
  }

  lemma FieldBrings(types: Types, id: nat, visited: set<nat>, i: nat, k: string)
    requires id < |types| && i < |types[id].fields|
    ensures k in Gather(types, types[id].fields[..i + 1], Start(id, visited)).properties
       <==> k in Gather(types, types[id].fields[..i], Start(id, visited)).properties || Brings(types, id, visited, i, k)
  {
    var f, g := types[id].fields[i], Gather(types, types[id].fields[..i], Start(id, visited));
    GathersOneMore(types, types[id].fields, Start(id, visited), i);
    if f.embedded {
      var u := Deref(f.typ);
      BuildIsDone(types, f.typ, g.visited);
      if IsNamedStruct(types, u) {
        MetBeforeIsMet(types, id, visited, i, u.id);
        assert Build(types, f.typ, g.visited) == Build(types, u, g.visited);
      }
    }
  }

  lemma {:induction false} FirstFieldsBring(types: Types, id: nat, visited: set<nat>, n: nat, k: string)
    requires id < |types| && n <= |types[id].fields|
    ensures k in Gather(types, types[id].fields[..n], Start(id, visited)).properties
       <==> exists i :: 0 <= i < n && Brings(types, id, visited, i, k)
  {
    if n > 0 {
      FirstFieldsBring(types, id, visited, n - 1, k);
      FieldBrings(types, id, visited, n - 1, k);
    }
  }

  /**
   The definition of a struct has the names of its visible fields and, of each embedded struct type that has not been
   met before, the properties of that type's own definition; and no others.
   */
  lemma EmbeddedIsFlattenedOnce(types: Types, id: nat, visited: set<nat>, k: string)
    requires IsNamedStruct(types, Struct(id)) && id !in visited
    ensures k in DefinitionOf(types, id, visited).properties
       <==> exists i :: 0 <= i < |types[id].fields| && Brings(types, id, visited, i, k)
  {
    var fields := types[id].fields;
    assert fields[..|fields|] == fields;
    FirstFieldsBring(types, id, visited, |fields|, k);
  }

  /** A field of its own brings its property unless it is not exported or has the tag "-". */
  lemma OwnFieldBrings(types: Types, id: nat, visited: set<nat>, i: nat, k: string)
    requires id < |types| && i < |types[id].fields| && !types[id].fields[i].embedded
    ensures var f := types[id].fields[i];
            Brings(types, id, visited, i, k) <==> f.exported && f.jsonTag != "-" && k == PropertyName(f)
  {
  }

  /** The field is the last one that brings the property. */
  ghost predicate BringsLast(types: Types, id: nat, visited: set<nat>, i: nat, k: string)
    requires id < |types| && i < |types[id].fields|
  {
    Brings(types, id, visited, i, k) && forall j :: i < j < |types[id].fields| ==> !Brings(types, id, visited, j, k)
  }

  /** A property as its field gives it: the schema of the field's type, or that in the definition of the embedded type. */
  ghost predicate IsGivenBy(types: Types, id: nat, visited: set<nat>, i: nat, k: string, s: Schema)
    requires id < |types| && i < |types[id].fields| && Brings(types, id, visited, i, k)
  {
    var f := types[id].fields[i];
    if f.embedded then
      s == DefinitionOf(types, Deref(f.typ).id, MetBefore(types, id, visited, i)).properties[k]
    else Describes(types, f.typ, s)
  }

  lemma FieldGives(types: Types, id: nat, visited: set<nat>, i: nat, k: string)
    requires id < |types| && i < |types[id].fields|
    requires k in Gather(types, types[id].fields[..i + 1], Start(id, visited)).properties
    ensures var s := Gather(types, types[id].fields[..i + 1], Start(id, visited)).properties[k];
            if Brings(types, id, visited, i, k) then IsGivenBy(types, id, visited, i, k, s)
            else
              var before := Gather(types, types[id].fields[..i], Start(id, visited)).properties;
              k in before && s == before[k]
  {
    var f, g := types[id].fields[i], Gather(types, types[id].fields[..i], Start(id, visited));
    GathersOneMore(types, types[id].fields, Start(id, visited), i);
    if f.embedded {
      var u := Deref(f.typ);
      BuildIsDone(types, f.typ, g.visited);
      if IsNamedStruct(types, u) {
        MetBeforeIsMet(types, id, visited, i, u.id);
        assert Build(types, f.typ, g.visited) == Build(types, u, g.visited);
      }
    } else {
      BuildDescribes(types, f.typ, g.visited);
    }
  }

  lemma {:induction false} FirstFieldsGive(types: Types, id: nat, visited: set<nat>, n: nat, i: nat, k: string)
    requires id < |types| && i < n <= |types[id].fields| && Brings(types, id, visited, i, k)
    requires forall j :: i < j < n ==> !Brings(types, id, visited, j, k)
    ensures k in Gather(types, types[id].fields[..n], Start(id, visited)).properties
    ensures IsGivenBy(types, id, visited, i, k, Gather(types, types[id].fields[..n], Start(id, visited)).properties[k])
  {
    FirstFieldsBring(types, id, visited, n, k);
    FieldGives(types, id, visited, n - 1, k);
    if i < n - 1 {
      FirstFieldsGive(types, id, visited, n - 1, i, k);
    }
  }

  /** Each property describes the type of the last field that brings it, or is that of the embedded type's definition. */
  lemma PropertyDescribesItsField(types: Types, id: nat, visited: set<nat>, i: nat, k: string)
    requires IsNamedStruct(types, Struct(id)) && id !in visited
    requires i < |types[id].fields| && BringsLast(types, id, visited, i, k)
    ensures k in DefinitionOf(types, id, visited).properties
    ensures IsGivenBy(types, id, visited, i, k, DefinitionOf(types, id, visited).properties[k])
  {
    var fields := types[id].fields;
    assert fields[..|fields|] == fields;
    FirstFieldsGive(types, id, visited, |fields|, i, k);
  }

  // ---------------------------------------------------------------------------
  // Required properties.

  /** The field makes the property a required one. */
  ghost predicate Requires(types: Types, id: nat, visited: set<nat>, i: nat, k: string)
    requires id < |types| && i < |types[id].fields|
  {
    var f := types[id].fields[i];
    if f.embedded then
      var u := Deref(f.typ);
      && IsNamedStruct(types, u) && !IsMet(types, id, visited, i, u.id)
      && u.id !in MetBefore(types, id, visited, i)
      && k in DefinitionOf(types, u.id, MetBefore(types, id, visited, i)).required
    else !IsHidden(f) && f.required && k == PropertyName(f)
  }

  lemma FieldRequires(types: Types, id: nat, visited: set<nat>, i: nat, k: string)
    requires id < |types| && i < |types[id].fields|
    ensures k in Gather(types, types[id].fields[..i + 1], Start(id, visited)).required
       <==> k in Gather(types, types[id].fields[..i], Start(id, visited)).required || Requires(types, id, visited, i, k)
  {
    var f, g := types[id].fields[i], Gather(types, types[id].fields[..i], Start(id, visited));
    GathersOneMore(types, types[id].fields, Start(id, visited), i);
    if f.embedded {
      var u := Deref(f.typ);
      BuildIsDone(types, f.typ, g.visited);
      if IsNamedStruct(types, u) {
        MetBeforeIsMet(types, id, visited, i, u.id);
        assert Build(types, f.typ, g.visited) == Build(types, u, g.visited);
      }
    }
  }

  lemma {:induction false} FirstFieldsRequire(types: Types, id: nat, visited: set<nat>, n: nat, k: string)
    requires id < |types| && n <= |types[id].fields|
    ensures k in Gather(types, types[id].fields[..n], Start(id, visited)).required
       <==> exists i :: 0 <= i < n && Requires(types, id, visited, i, k)
  {
    if n > 0 {
      FirstFieldsRequire(types, id, visited, n - 1, k);
      FieldRequires(types, id, visited, n - 1, k);
    }
  }

  /** A definition requires what its visible fields and its embedded types require, and nothing else. */
  lemma RequiredByFields(types: Types, id: nat, visited: set<nat>, k: string)
    requires IsNamedStruct(types, Struct(id)) && id !in visited
    ensures k in DefinitionOf(types, id, visited).required
       <==> exists i :: 0 <= i < |types[id].fields| && Requires(types, id, visited, i, k)
  {
    var fields := types[id].fields;
    assert fields[..|fields|] == fields;
    FirstFieldsRequire(types, id, visited, |fields|, k);
  }

  /** An embedded struct type that has been met before is passed over, as if its field were not there. */
  lemma MetIsPassedOver(types: Types, id: nat, visited: set<nat>, i: nat)
    requires id < |types| && i < |types[id].fields| && types[id].fields[i].embedded
    requires IsNamedStruct(types, Deref(types[id].fields[i].typ))
    requires IsMet(types, id, visited, i, Deref(types[id].fields[i].typ).id)
    ensures var fields := types[id].fields;
            Gather(types, fields, Start(id, visited)) == Gather(types, fields[..i] + fields[i + 1..], Start(id, visited))
  {
    var fields := types[id].fields;
    var g := Gather(types, fields[..i], Start(id, visited));
    MetBeforeIsMet(types, id, visited, i, Deref(fields[i].typ).id);
    assert g.defs + map[] == g.defs;
    assert AddField(types, fields[i], g) == g;
    assert fields == fields[..i] + fields[i..] && fields[i..][1..] == fields[i + 1..];
    GatherSplits(types, fields[..i], fields[i..], Start(id, visited));
    GatherSplits(types, fields[..i], fields[i + 1..], Start(id, visited));
  }

  /** `struct { F I; I }` lacks the property of `I` that `struct { I; F I }` has. */
  lemma EmbeddedAfterFieldIsLost()
    ensures var inner := StructDef("I", [Field("X", false, true, "", false, Simple(Text))]);
            var named, embedded := Field("F", false, true, "", false, Struct(1)), Field("I", true, true, "", false, Struct(1));
            && "X" !in DefinitionOf([StructDef("O", [named, embedded]), inner], 0, {}).properties
            && "X" in DefinitionOf([StructDef("O", [embedded, named]), inner], 0, {}).properties
  {
    var inner := StructDef("I", [Field("X", false, true, "", false, Simple(Text))]);
    var named, embedded := Field("F", false, true, "", false, Struct(1)), Field("I", true, true, "", false, Struct(1));
    FieldThenEmbedded([StructDef("O", [named, embedded]), inner]);
    EmbeddedThenField([StructDef("O", [embedded, named]), inner]);
  }

  lemma FieldThenEmbedded(types: Types)
    requires |types| == 2 && types[0].name != "" && types[1].name != "" && |types[0].fields| == 2
    requires types[0].fields[0] == Field("F", false, true, "", false, Struct(1))
    requires types[0].fields[1].embedded && types[0].fields[1].typ == Struct(1)
    ensures "X" !in DefinitionOf(types, 0, {}).properties
  {
    var fields := types[0].fields;
    assert "F"[0] != "X"[0];
    assert Joins(types, [1], Struct(1), 1) && IsClear(types, [1], {0});
    assert fields[0] in fields[..1] && IsFollowed(fields[0]) && Reaches(types, fields[0].typ, {} + {0}, 1);
    assert IsMet(types, 0, {}, 1, 1);
    EmbeddedIsFlattenedOnce(types, 0, {}, "X");
  }

  lemma EmbeddedThenField(types: Types)
    requires |types| == 2 && types[0].name != "" && types[1].name != "" && |types[0].fields| == 2
    requires types[0].fields[0].embedded && types[0].fields[0].typ == Struct(1)
    requires types[1].fields == [Field("X", false, true, "", false, Simple(Text))]
    ensures "X" in DefinitionOf(types, 0, {}).properties
  {
    BringsOn(types, 1, {0}, {0, 1}, "X");
    BringsOn(types, 0, {}, {0}, "X");
  }

  /** A type that is passed over may have come in by way of another: `struct { J; I }` where `J` embeds `I`. */
  lemma EmbeddedByWayOfAnother()
    ensures var i, x := Field("I", true, true, "", false, Struct(2)), Field("X", false, true, "", false, Simple(Text));
            var j := Field("J", true, true, "", false, Struct(1));
            var types := [StructDef("O", [j, i]), StructDef("J", [i]), StructDef("I", [x])];
            IsMet(types, 0, {}, 1, 2) && "X" in DefinitionOf(types, 0, {}).properties
  {
    var i, x := Field("I", true, true, "", false, Struct(2)), Field("X", false, true, "", false, Simple(Text));
    var j := Field("J", true, true, "", false, Struct(1));
    var types := [StructDef("O", [j, i]), StructDef("J", [i]), StructDef("I", [x])];
    assert Refers(types, 1, 2) by {
      assert i in types[1].fields && IsFollowed(i) && Target(types, i.typ) == Some(2);
    }
    assert Joins(types, [1, 2], Struct(1), 2) && IsClear(types, [1, 2], {} + {0});
    assert types[0].fields[..1] == [j];
    assert j in types[0].fields[..1] && IsFollowed(j) && Reaches(types, j.typ, {} + {0}, 2);
    BringsOn(types, 2, {0, 1}, {0, 1, 2}, "X");
    BringsOn(types, 1, {0}, {0, 1}, "X");
    BringsOn(types, 0, {}, {0}, "X");
  }

  /** The first field of a struct brings a property that it has, or that the definition of its embedded type has. */
  lemma BringsOn(types: Types, id: nat, visited: set<nat>, start: set<nat>, k: string)
    requires IsNamedStruct(types, Struct(id)) && id !in visited && start == visited + {id} && types[id].fields != []
    requires var f := types[id].fields[0];
             if f.embedded then
               && IsNamedStruct(types, f.typ) && f.typ.id !in start
               && k in DefinitionOf(types, f.typ.id, start).properties
             else !IsHidden(f) && k == PropertyName(f)
    ensures k in DefinitionOf(types, id, visited).properties
  {
    assert MetBefore(types, id, visited, 0) == start;
    assert Brings(types, id, visited, 0, k);
    EmbeddedIsFlattenedOnce(types, id, visited, k);
  }

  // ---------------------------------------------------------------------------
  // Where a definition comes from.

  /** From the type, with these types visited, the generator comes to enter a struct type when it has met those in `met`. */
  ghost predicate Enters(types: Types, t: Type, visited: set<nat>, id: nat, met: set<nat>)
    decreases Unvisited(types, visited), 1
  {
    match Target(types, t)
    case None => false
    case Some(j) =>
      && j < |types| && j !in visited
      && ((id == j && met == visited)
          || exists i :: 0 <= i < |types[j].fields| && EntersFrom(types, j, visited, i, id, met))
  }

  /** It does so from one field of a struct type that it has entered itself. */
  ghost predicate EntersFrom(types: Types, j: nat, visited: set<nat>, i: nat, id: nat, met: set<nat>)
    requires j < |types| && j !in visited && i < |types[j].fields|
    decreases Unvisited(types, visited), 0
  {
    VisitingShrinks(types, visited, MetBefore(types, j, visited, i));
    IsFollowed(types[j].fields[i]) && Enters(types, types[j].fields[i].typ, MetBefore(types, j, visited, i), id, met)
  }

  lemma {:induction false} TargetIsNamed(types: Types, t: Type)
    ensures Target(types, t).Some? ==> IsNamedStruct(types, Struct(Target(types, t).value))
    decreases t
  {
    if Deref(t).Slice? {
      TargetIsNamed(types, Deref(t).elem);
    }
  }

  /** What is built for a type is what is built for the struct type that it refers to. */
  lemma {:induction false} TargetIsBuilt(types: Types, t: Type, visited: set<nat>)
    ensures var b := Build(types, t, visited);
            match Target(types, t)
            case None => b.defs == map[] && b.visited == visited
            case Some(j) =>
              b.defs == Build(types, Struct(j), visited).defs && b.visited == Build(types, Struct(j), visited).visited
    decreases t
  {
    if Deref(t).Slice? {
      TargetIsBuilt(types, Deref(t).elem, visited);
    }
  }

  /** What is built for a struct type that is entered. */
  lemma EnteredIsBuilt(types: Types, j: nat, visited: set<nat>)
    requires IsNamedStruct(types, Struct(j)) && j !in visited
    ensures var g := Gather(types, types[j].fields, Start(j, visited));
            var b := Build(types, Struct(j), visited);
            b.visited == g.visited && b.defs == g.defs[types[j].name := DefinitionOf(types, j, visited)]
  {
  }

  ghost predicate Defines(types: Types, id: nat, visited: set<nat>, name: string, d: Definition) {
    && IsNamedStruct(types, Struct(id)) && id !in visited
    && types[id].name == name && d == DefinitionOf(types, id, visited)
  }

  /** The definition is that of a struct type of this name, as it is entered from the type. */
  ghost predicate ComesFrom(types: Types, t: Type, visited: set<nat>, name: string, d: Definition) {
    exists id: nat, met :: Enters(types, t, visited, id, met) && Defines(types, id, met, name, d)
  }

  ghost predicate ComesFromFields(types: Types, j: nat, visited: set<nat>, n: nat, name: string, d: Definition)
    requires j < |types| && j !in visited && n <= |types[j].fields|
  {
    exists i, id: nat, met ::
      0 <= i < n && EntersFrom(types, j, visited, i, id, met) && Defines(types, id, met, name, d)
  }

  lemma {:induction false} BuiltComesFrom(types: Types, t: Type, visited: set<nat>, name: string)
    requires name in Build(types, t, visited).defs
    ensures ComesFrom(types, t, visited, name, Build(types, t, visited).defs[name])
    decreases Unvisited(types, visited), 1, 0
  {
    TargetIsBuilt(types, t, visited);
    TargetIsNamed(types, t);
    var j := Target(types, t).value;
    EnteredIsBuilt(types, j, visited);
    var d := Build(types, t, visited).defs[name];
    if name == types[j].name {
      assert Enters(types, t, visited, j, visited) && Defines(types, j, visited, name, d);
    } else {
      var fields := types[j].fields;
      assert fields[..|fields|] == fields;
      GatheredComesFrom(types, j, visited, |fields|, name);
      var i, id: nat, met :|
        0 <= i < |fields| && EntersFrom(types, j, visited, i, id, met) && Defines(types, id, met, name, d);
      assert Enters(types, t, visited, id, met);
    }
  }

  lemma {:induction false} GatheredComesFrom(types: Types, j: nat, visited: set<nat>, n: nat, name: string)
    requires j < |types| && j !in visited && n <= |types[j].fields|
    requires name in Gather(types, types[j].fields[..n], Start(j, visited)).defs
    ensures ComesFromFields(types, j, visited, n, name, Gather(types, types[j].fields[..n], Start(j, visited)).defs[name])
    decreases Unvisited(types, visited), 0, n
  {
    if n > 0 {
      var f, met := types[j].fields[n - 1], MetBefore(types, j, visited, n - 1);
      var b := Build(types, f.typ, met);
      DefinesOneMore(types, j, visited, n - 1, name);
      if IsFollowed(f) && name in b.defs {
        VisitingShrinks(types, visited, met);
        BuiltComesFrom(types, f.typ, met, name);
        var id: nat, met' :| Enters(types, f.typ, met, id, met') && Defines(types, id, met', name, b.defs[name]);
        assert EntersFrom(types, j, visited, n - 1, id, met');
      } else {
        GatheredComesFrom(types, j, visited, n - 1, name);
      }
    }
  }

  lemma DefinesOneMore(types: Types, j: nat, visited: set<nat>, i: nat, name: string)
    requires j < |types| && i < |types[j].fields|
    ensures var fields := types[j].fields;
            var before, after := Gather(types, fields[..i], Start(j, visited)).defs, Gather(types, fields[..i + 1], Start(j, visited)).defs;
            var b := Build(types, fields[i].typ, MetBefore(types, j, visited, i));
            if IsFollowed(fields[i]) && name in b.defs then name in after && after[name] == b.defs[name]
            else (name in after <==> name in before) && (name in before ==> after[name] == before[name])
  {
    GathersOneMore(types, types[j].fields, Start(j, visited), i);
  }

  // ---------------------------------------------------------------------------
  // A type is entered once.

  lemma MetGrows(types: Types, id: nat, visited: set<nat>, i: nat, j: nat)
    requires id < |types| && i <= j <= |types[id].fields|
    ensures MetBefore(types, id, visited, i) <= MetBefore(types, id, visited, j)
  {
    var fields := types[id].fields;
    assert fields[..j] == fields[..i] + fields[i..j];
    GatherSplits(types, fields[..i], fields[i..j], Start(id, visited));
  }

  lemma {:induction false} DefinitionsStay(types: Types, fields: seq<Field>, g: Gathered, name: string)
    requires name in g.defs
    ensures name in Gather(types, fields, g).defs
    decreases |fields|
  {
    if fields != [] {
      DefinitionsStay(types, fields[1..], AddField(types, fields[0], g), name);
    }
  }

  /** What comes from one field is there after all fields. */
  lemma FromFieldStays(types: Types, j: nat, visited: set<nat>, i: nat, id: nat, name: string)
    requires IsNamedStruct(types, Struct(j)) && j !in visited && i < |types[j].fields| && IsFollowed(types[j].fields[i])
    requires var b := Build(types, types[j].fields[i].typ, MetBefore(types, j, visited, i)); id in b.visited && name in b.defs
    ensures id in MetBefore(types, j, visited, i + 1)
    ensures var b := Build(types, Struct(j), visited); id in b.visited && name in b.defs
  {
    var fields := types[j].fields;
    GathersOneMore(types, fields, Start(j, visited), i);
    var g := Gather(types, fields[..i + 1], Start(j, visited));
    assert fields == fields[..i + 1] + fields[i + 1..];
    GatherSplits(types, fields[..i + 1], fields[i + 1..], Start(j, visited));
    DefinitionsStay(types, fields[i + 1..], g, name);
    EnteredIsBuilt(types, j, visited);
  }

  /** A type that is entered is new, and has been visited and defined afterwards. */
  lemma {:induction false} EnteredIsDefined(types: Types, t: Type, visited: set<nat>, id: nat, met: set<nat>)
    requires Enters(types, t, visited, id, met)
    ensures IsNamedStruct(types, Struct(id)) && visited <= met && id !in met && id !in visited
    ensures id in Build(types, t, visited).visited && types[id].name in Build(types, t, visited).defs
    decreases Unvisited(types, visited)
  {
    TargetIsBuilt(types, t, visited);
    TargetIsNamed(types, t);
    var j := Target(types, t).value;
    if id == j && met == visited {
      EnteredIsBuilt(types, j, visited);
    } else {
      var i :| 0 <= i < |types[j].fields| && EntersFrom(types, j, visited, i, id, met);
      VisitingShrinks(types, visited, MetBefore(types, j, visited, i));
      EnteredIsDefined(types, types[j].fields[i].typ, MetBefore(types, j, visited, i), id, met);
      FromFieldStays(types, j, visited, i, id, types[id].name);
    }
  }

  /** From a later field a type is not entered again. */
  lemma NotFromLater(types: Types, j: nat, visited: set<nat>, i: nat, met: set<nat>, i': nat, met': set<nat>, id: nat)
    requires j < |types| && j !in visited && i < i' < |types[j].fields| && IsNamedStruct(types, Struct(j))
    requires EntersFrom(types, j, visited, i, id, met)
    ensures !EntersFrom(types, j, visited, i', id, met')
  {
    EnteredIsDefined(types, types[j].fields[i].typ, MetBefore(types, j, visited, i), id, met);
    FromFieldStays(types, j, visited, i, id, types[id].name);
    MetGrows(types, j, visited, i + 1, i');
    if EntersFrom(types, j, visited, i', id, met') {
      EnteredIsDefined(types, types[j].fields[i'].typ, MetBefore(types, j, visited, i'), id, met');
    }
  }

  /** What has been met when a type is entered is determined. */
  lemma {:induction false} EntersOnce(types: Types, t: Type, visited: set<nat>, id: nat, met: set<nat>, met': set<nat>)
    requires Enters(types, t, visited, id, met) && Enters(types, t, visited, id, met')
    ensures met == met'
    decreases Unvisited(types, visited)
  {
    TargetIsNamed(types, t);
    var j := Target(types, t).value;
    if id == j {
      EnteredAtOnce(types, t, visited, met);
      EnteredAtOnce(types, t, visited, met');
    } else {
      var i :| 0 <= i < |types[j].fields| && EntersFrom(types, j, visited, i, id, met);
      var i' :| 0 <= i' < |types[j].fields| && EntersFrom(types, j, visited, i', id, met');
      if i < i' {
        NotFromLater(types, j, visited, i, met, i', met', id);
      } else if i' < i {
        NotFromLater(types, j, visited, i', met', i, met, id);
      } else {
        VisitingShrinks(types, visited, MetBefore(types, j, visited, i));
        EntersOnce(types, types[j].fields[i].typ, MetBefore(types, j, visited, i), id, met, met');
      }
    }
  }

  lemma EnteredAtOnce(types: Types, t: Type, visited: set<nat>, met: set<nat>)
    requires Target(types, t).Some? && Enters(types, t, visited, Target(types, t).value, met)
    ensures met == visited
  {
    var j := Target(types, t).value;
    if met != visited {
      var i :| 0 <= i < |types[j].fields| && EntersFrom(types, j, visited, i, j, met);
      EnteredIsDefined(types, types[j].fields[i].typ, MetBefore(types, j, visited, i), j, met);
    }
  }

  // ---------------------------------------------------------------------------
  // Whole documents.

  function DefinitionsOf(types: Types, m: Meta): Definitions {
    RequestOf(types, m).defs + ResponseOf(types, m).defs
  }

  /** A route comes to a struct type through its request, or through its response with the types of the request visited. */
  ghost predicate EntersInRoute(types: Types, m: Meta, id: nat, met: set<nat>) {
    || (m.request.Some? && HasBody(m.verb) && Enters(types, m.request.value, {}, id, met))
    || (m.response.Some? && Enters(types, m.response.value, RequestOf(types, m).visited, id, met))
  }

  /** The route comes to a struct type of this name. */
  ghost predicate IsNamedIn(types: Types, m: Meta, name: string) {
    exists id: nat, met :: EntersInRoute(types, m, id, met) && NameOf(types, Struct(id)) == name
  }

  lemma RouteDefines(types: Types, m: Meta, name: string)
    ensures name in DefinitionsOf(types, m) <==> IsNamedIn(types, m, name)
  {
    if name in DefinitionsOf(types, m) {
      var id, met := RouteComesFrom(types, m, name);
      assert EntersInRoute(types, m, id, met) && NameOf(types, Struct(id)) == name;
    }
    if IsNamedIn(types, m, name) {
      var id: nat, met :| EntersInRoute(types, m, id, met) && NameOf(types, Struct(id)) == name;
      if m.request.Some? && HasBody(m.verb) && Enters(types, m.request.value, {}, id, met) {
        EnteredIsDefined(types, m.request.value, {}, id, met);
      } else {
        EnteredIsDefined(types, m.response.value, RequestOf(types, m).visited, id, met);
      }
    }
  }

  lemma RouteComesFrom(types: Types, m: Meta, name: string) returns (id: nat, met: set<nat>)
    requires name in DefinitionsOf(types, m)
    ensures EntersInRoute(types, m, id, met) && Defines(types, id, met, name, DefinitionsOf(types, m)[name])
  {
    var d := DefinitionsOf(types, m)[name];
    if name in ResponseOf(types, m).defs {
      BuiltComesFrom(types, m.response.value, RequestOf(types, m).visited, name);
      id, met :| Enters(types, m.response.value, RequestOf(types, m).visited, id, met) && Defines(types, id, met, name, d);
    } else {
      BuiltComesFrom(types, m.request.value, {}, name);
      id, met :| Enters(types, m.request.value, {}, id, met) && Defines(types, id, met, name, d);
    }
  }

  /** In one route, too, a type is entered once. */
  lemma RouteEntersOnce(types: Types, m: Meta, id: nat, met: set<nat>, met': set<nat>)
    requires EntersInRoute(types, m, id, met) && EntersInRoute(types, m, id, met')
    ensures met == met'
  {
    forall v, v' | m.request.Some? && HasBody(m.verb) && Enters(types, m.request.value, {}, id, v)
      ensures Enters(types, m.request.value, {}, id, v') ==> v == v'
      ensures m.response.Some? ==> !Enters(types, m.response.value, RequestOf(types, m).visited, id, v')
    {
      EnteredIsDefined(types, m.request.value, {}, id, v);
      if Enters(types, m.request.value, {}, id, v') {
        EntersOnce(types, m.request.value, {}, id, v, v');
      }
      if m.response.Some? && Enters(types, m.response.value, RequestOf(types, m).visited, id, v') {
        EnteredIsDefined(types, m.response.value, RequestOf(types, m).visited, id, v');
      }
    }
    if m.response.Some? && Enters(types, m.response.value, RequestOf(types, m).visited, id, met)
       && Enters(types, m.response.value, RequestOf(types, m).visited, id, met') {
      EntersOnce(types, m.response.value, RequestOf(types, m).visited, id, met, met');
    }
  }

  /** The route is the last one that comes to a struct type of this name. */
  ghost predicate IsLastFor(types: Types, metas: seq<Meta>, name: string, r: nat) {
    && r < |metas| && IsNamedIn(types, metas[r], name)
    && forall q :: r < q < |metas| ==> !IsNamedIn(types, metas[q], name)
  }

  /** The last route that comes to a struct type of a name defines the component. */
  lemma {:induction false} LastRouteDefines(types: Types, metas: seq<Meta>, name: string, r: nat)
    requires IsLastFor(types, metas, name, r)
    ensures name in BuildAll(types, metas).schemas && name in DefinitionsOf(types, metas[r])
    ensures BuildAll(types, metas).schemas[name] == DefinitionsOf(types, metas[r])[name]
  {
    var last, before := |metas| - 1, metas[..|metas| - 1];
    RouteDefines(types, metas[last], name);
    if r < last {
      assert IsLastFor(types, before, name, r);
      LastRouteDefines(types, before, name, r);
    }
  }

  /** A component is there if and only if some route comes to a struct type of its name. */
  lemma {:induction false} ComponentsAreEntered(types: Types, metas: seq<Meta>, name: string)
    ensures name in BuildAll(types, metas).schemas <==> exists r: nat :: IsLastFor(types, metas, name, r)
  {
    if name in BuildAll(types, metas).schemas {
      var last, before := |metas| - 1, metas[..|metas| - 1];
      RouteDefines(types, metas[last], name);
      if IsNamedIn(types, metas[last], name) {
        assert IsLastFor(types, metas, name, last);
      } else {
        ComponentsAreEntered(types, before, name);
        var r: nat :| IsLastFor(types, before, name, r);
        assert IsLastFor(types, metas, name, r);
      }
    }
    if r: nat :| IsLastFor(types, metas, name, r) {
      LastRouteDefines(types, metas, name, r);
    }
  }

  /** The definition has the properties that the fields bring, and no others. */
  ghost predicate ListsFields(types: Types, id: nat, visited: set<nat>, d: Definition)
    requires id < |types|
  {
    forall k :: k in d.properties <==> exists i :: 0 <= i < |types[id].fields| && Brings(types, id, visited, i, k)
  }

  /**
     A component of a document lists what the fields of a struct type of its name bring, and nothing else, with the types
     met before it in the last route that comes to a struct type of this name.
   */
  lemma ComponentsListFields(types: Types, metas: seq<Meta>, name: string, r: nat)
    requires IsLastFor(types, metas, name, r)
    ensures name in BuildAll(types, metas).schemas
    ensures exists id: nat, met ::
              && EntersInRoute(types, metas[r], id, met)
              && Defines(types, id, met, name, BuildAll(types, metas).schemas[name])
              && ListsFields(types, id, met, BuildAll(types, metas).schemas[name])
  {
    LastRouteDefines(types, metas, name, r);
    var id, met := RouteComesFrom(types, metas[r], name);
    DefinitionListsFields(types, id, met);
  }

  lemma DefinitionListsFields(types: Types, id: nat, visited: set<nat>)
    requires IsNamedStruct(types, Struct(id)) && id !in visited
    ensures ListsFields(types, id, visited, DefinitionOf(types, id, visited))
  {
    forall k
      ensures k in DefinitionOf(types, id, visited).properties
         <==> exists i :: 0 <= i < |types[id].fields| && Brings(types, id, visited, i, k)
    {
      EmbeddedIsFlattenedOnce(types, id, visited, k);
    }
  }

  /** A response type that embeds the request type lacks its properties, which it has in a route without that request. */
  lemma ResponseLosesRequest()
    ensures var types := [StructDef("Req", [Field("X", false, true, "", false, Simple(Text))]),
                          StructDef("Resp", [Field("Req", true, true, "", false, Struct(0))])];
            var both, alone := [Meta("POST", Some(Struct(0)), Some(Struct(1)))], [Meta("POST", None, Some(Struct(1)))];
            && "Resp" in BuildAll(types, both).schemas && "X" !in BuildAll(types, both).schemas["Resp"].properties
            && "Resp" in BuildAll(types, alone).schemas && "X" in BuildAll(types, alone).schemas["Resp"].properties
  {
    var types := [StructDef("Req", [Field("X", false, true, "", false, Simple(Text))]),
                  StructDef("Resp", [Field("Req", true, true, "", false, Struct(0))])];
    ResponseAfter(types, Meta("POST", Some(Struct(0)), Some(Struct(1))), {0});
    ResponseAfter(types, Meta("POST", None, Some(Struct(1))), {});
    EmbeddedIsFlattenedOnce(types, 1, {0}, "X");
    assert IsMet(types, 1, {0}, 0, 0);
    BringsOn(types, 0, {1}, {0, 1}, "X");
    BringsOn(types, 1, {}, {1}, "X");
  }

  lemma ResponseAfter(types: Types, m: Meta, visited: set<nat>)
    requires |types| == 2 && types[0].name == "Req" && types[1].name == "Resp"
    requires types[0].fields == [Field("X", false, true, "", false, Simple(Text))]
    requires m.verb == "POST" && m.response == Some(Struct(1)) && 1 !in visited
    requires if m.request.None? then visited == {} else m.request == Some(Struct(0)) && visited == {0}
    ensures "Resp" in BuildAll(types, [m]).schemas
    ensures BuildAll(types, [m]).schemas["Resp"] == DefinitionOf(types, 1, visited)
  {
    assert RequestOf(types, m).visited == visited by {
      if m.request.Some? {
        EnteredIsBuilt(types, 0, {});
        assert Gather(types, types[0].fields[1..], AddField(types, types[0].fields[0], Start(0, {}))).visited == {0};
      }
    }
    EnteredIsBuilt(types, 1, visited);
    assert [m][..0] == [] && BuildAll(types, [m]) == AddRoute(types, m, BuildAll(types, []));
  }
}
