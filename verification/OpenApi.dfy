/** Schemas of Go types, as the OpenAPI generator builds them. */
module SchemaSpec {

  /** A type; struct types are known by their number, so that they may refer to each other. */
  datatype Type =
    | Pointer(elem: Type)
    | Struct(id: nat)
    | Slice(elem: Type)
    | Time
    | Map
    | Simple(kind: Kind)

  /** The kinds of Go types that are told apart, whatever their width. */
  datatype Kind = Text | Signed | Unsigned | Float | Boolean | Other

  datatype Field = Field(name: string, embedded: bool, exported: bool, jsonTag: string, required: bool, typ: Type)

  /** A struct type without a name is described by an empty one. */
  datatype StructDef = StructDef(name: string, fields: seq<Field>)

  type Types = seq<StructDef>

  datatype Schema = Ref(name: string) | Value(kind: string) | DateTime | ArrayOf(items: Schema) | FreeObject

  datatype Definition = Definition(properties: map<string, Schema>, required: seq<string>)

  type Definitions = map<string, Definition>

  /** The schema of a type, the definitions that were made for it, and the struct types that have been visited by then. */
  datatype Built = Built(schema: Schema, defs: Definitions, visited: set<nat>)

  /** What has been gathered from the fields of a struct. */
  datatype Gathered = Gathered(properties: map<string, Schema>, required: seq<string>, defs: Definitions, visited: set<nat>)

  function Deref(t: Type): (u: Type)
    ensures !u.Pointer? && (u == t || u < t)
  {
    match t case Pointer(elem) => Deref(elem) case _ => t
  }

  function KindName(kind: Kind): string {
    match kind
    case Text => "string"
    case Signed => "integer"
    case Unsigned => "integer"
    case Float => "number"
    case Boolean => "boolean"
    case Other => "string"
  }

  function NameOf(types: Types, t: Type): string {
    if t.Struct? && t.id < |types| then types[t.id].name else ""
  }

  predicate IsNamedStruct(types: Types, t: Type) {
    t.Struct? && t.id < |types| && types[t.id].name != ""
  }

  function BeforeComma(tag: string): string {
    if tag == "" || tag[0] == ',' then "" else [tag[0]] + BeforeComma(tag[1..])
  }

  function PropertyName(f: Field): string {
    if f.jsonTag != "" then BeforeComma(f.jsonTag) else f.name
  }

  function AllIds(n: nat): (ids: set<nat>)
    ensures forall i :: i in ids <==> 0 <= i < n
  {
    if n == 0 then {} else AllIds(n - 1) + {n - 1}
  }

  function Unvisited(types: Types, visited: set<nat>): nat {
    |AllIds(|types|) - visited|
  }

  lemma VisitingShrinks(types: Types, before: set<nat>, after: set<nat>)
    requires before <= after
    ensures Unvisited(types, after) <= Unvisited(types, before)
    ensures (exists id :: id in after && id !in before && id < |types|) ==> Unvisited(types, after) < Unvisited(types, before)
  {
    var a, b := AllIds(|types|) - after, AllIds(|types|) - before;
    assert a <= b;
    Shrinks(a, b);
    if id :| id in after && id !in before && id < |types| {
      assert id in b && id !in a;
      Shrinks(a, b - {id});
    }
  }

  lemma {:induction false} Shrinks(a: set<nat>, b: set<nat>)
    requires a <= b
    ensures |a| <= |b|
  {
    if a != {} {
      var x :| x in a;
      Shrinks(a - {x}, b - {x});
    }
  }

  /** `buildSchemaFromType`. It ends because each struct type is entered once and types are finite in between. */
  function Build(types: Types, t: Type, visited: set<nat>): (b: Built)
    ensures visited <= b.visited
    decreases Unvisited(types, visited), 0, t
  {
    var u := Deref(t);
    if IsNamedStruct(types, u) then
      var def := types[u.id];
      if u.id in visited then Built(Ref(def.name), map[], visited)
      else
        VisitingShrinks(types, visited, visited + {u.id});
        var g := Gather(types, def.fields, Gathered(map[], [], map[], visited + {u.id}));
        Built(Ref(def.name), g.defs[def.name := Definition(g.properties, g.required)], g.visited)
    else
      match u
      case Slice(elem) =>
        var b := Build(types, elem, visited);
        Built(ArrayOf(b.schema), b.defs, b.visited)
      case Time => Built(DateTime, map[], visited)
      case Map => Built(FreeObject, map[], visited)
      case Simple(kind) => Built(Value(KindName(kind)), map[], visited)
      case _ => Built(Value("string"), map[], visited)
  }

  /** The fields of a struct, in order: embedded ones are flattened, hidden ones are passed over. */
  function Gather(types: Types, fields: seq<Field>, g: Gathered): (r: Gathered)
    ensures g.visited <= r.visited
    decreases Unvisited(types, g.visited), 1, |fields|
  {
    if fields == [] then g
    else
      var g' := AddField(types, fields[0], g);
      VisitingShrinks(types, g.visited, g'.visited);
      Gather(types, fields[1..], g')
  }

  predicate IsHidden(f: Field) {
    !f.exported || f.jsonTag == "-"
  }

  function AddField(types: Types, f: Field, g: Gathered): (r: Gathered)
    ensures g.visited <= r.visited
    decreases Unvisited(types, g.visited), 1, 0
  {
    if f.embedded then
      var b := Build(types, f.typ, g.visited);
      var name := NameOf(types, Deref(f.typ));
      if name in b.defs then
        Gathered(g.properties + b.defs[name].properties, g.required + b.defs[name].required, g.defs + b.defs, b.visited)
      else Gathered(g.properties, g.required, g.defs + b.defs, b.visited)
    else if IsHidden(f) then g
    else
      var b := Build(types, f.typ, g.visited);
      Gathered(g.properties[PropertyName(f) := b.schema],
               if f.required then g.required + [PropertyName(f)] else g.required,
               g.defs + b.defs, b.visited)
  }
}

/** Every reference can be followed. */
module SchemaTheorems {
  import opened Wrappers
  import opened SchemaSpec

  function Refs(s: Schema): set<string> {
    match s case Ref(name) => {name} case ArrayOf(items) => Refs(items) case _ => {}
  }

  /** The names of the visited struct types. */
  function Visited(types: Types, visited: set<nat>): set<string> {
    set id | id in visited && id < |types| :: types[id].name
  }

  ghost predicate PropertiesIn(properties: map<string, Schema>, names: set<string>) {
    forall k :: k in properties ==> Refs(properties[k]) <= names
  }

  ghost predicate RefsIn(defs: Definitions, names: set<string>) {
    forall k :: k in defs ==> PropertiesIn(defs[k].properties, names)
  }

  /** All references lead to visited types, and every type visited since has its definition. */
  ghost predicate IsClosed(types: Types, before: set<nat>, visited: set<nat>, defs: Definitions) {
    && before <= visited
    && RefsIn(defs, Visited(types, visited))
    && Visited(types, visited - before) <= defs.Keys
  }

  lemma VisitedGrows(types: Types, a: set<nat>, b: set<nat>)
    requires a <= b
    ensures Visited(types, a) <= Visited(types, b)
    ensures Visited(types, b) == Visited(types, a) + Visited(types, b - a)
  {
  }

  lemma {:induction false} BuildIsClosed(types: Types, t: Type, visited: set<nat>)
    ensures var b := Build(types, t, visited);
            IsClosed(types, visited, b.visited, b.defs) && Refs(b.schema) <= Visited(types, b.visited)
    decreases Unvisited(types, visited), 0, t
  {
    var u := Deref(t);
    if IsNamedStruct(types, u) {
      var def, start := types[u.id], visited + {u.id};
      if u.id !in visited {
        VisitingShrinks(types, visited, start);
        var empty := Gathered(map[], [], map[], start);
        GatherIsClosed(types, def.fields, empty, start);
        StructIsClosed(types, u.id, visited, Gather(types, def.fields, empty));
      } else {
        assert def.name in Visited(types, visited);
      }
    } else if u.Slice? {
      BuildIsClosed(types, u.elem, visited);
    }
  }

  lemma StructIsClosed(types: Types, id: nat, visited: set<nat>, g: Gathered)
    requires id < |types| && GatheredOk(types, visited + {id}, g)
    ensures var name := types[id].name;
            var defs := g.defs[name := Definition(g.properties, g.required)];
            IsClosed(types, visited, g.visited, defs) && name in Visited(types, g.visited)
  {
    var name := types[id].name;
    var defs := g.defs[name := Definition(g.properties, g.required)];
    forall n | n in Visited(types, g.visited - visited) ensures n in defs {
      var i :| i in g.visited - visited && i < |types| && types[i].name == n;
      assert i != id ==> n in Visited(types, g.visited - (visited + {id}));
    }
    assert id in g.visited;
  }

  ghost predicate GatheredOk(types: Types, start: set<nat>, g: Gathered) {
    IsClosed(types, start, g.visited, g.defs) && PropertiesIn(g.properties, Visited(types, g.visited))
  }

  lemma {:induction false} GatherIsClosed(types: Types, fields: seq<Field>, g: Gathered, start: set<nat>)
    requires GatheredOk(types, start, g)
    ensures GatheredOk(types, start, Gather(types, fields, g))
    decreases Unvisited(types, g.visited), 1, |fields|
  {
    if fields != [] {
      AddFieldIsClosed(types, fields[0], g, start);
      var g' := AddField(types, fields[0], g);
      VisitingShrinks(types, g.visited, g'.visited);
      GatherIsClosed(types, fields[1..], g', start);
    }
  }

  lemma {:induction false} AddFieldIsClosed(types: Types, f: Field, g: Gathered, start: set<nat>)
    requires GatheredOk(types, start, g)
    ensures GatheredOk(types, start, AddField(types, f, g))
    decreases Unvisited(types, g.visited), 1, 0
  {
    if f.embedded || !IsHidden(f) {
      var b := Build(types, f.typ, g.visited);
      BuildIsClosed(types, f.typ, g.visited);
      MergeIsClosed(types, start, g.visited, b.visited, g.defs, b.defs);
      VisitedGrows(types, g.visited, b.visited);
    }
  }

  lemma MergeIsClosed(types: Types, start: set<nat>, middle: set<nat>, end: set<nat>, a: Definitions, b: Definitions)
    requires IsClosed(types, start, middle, a) && IsClosed(types, middle, end, b)
    ensures IsClosed(types, start, end, a + b)
  {
    VisitedGrows(types, middle, end);
    forall n | n in Visited(types, end - start) ensures n in a + b {
      var i :| i in end - start && i < |types| && types[i].name == n;
      assert i in middle ==> n in Visited(types, middle - start);
      assert i !in middle ==> n in Visited(types, end - middle);
    }
  }

  // ---------------------------------------------------------------------------
  // Whole documents.

  /** What is registered for one route. */
  datatype Meta = Meta(verb: string, request: Option<Type>, response: Option<Type>)

  datatype Operation = Operation(requestBody: Option<Schema>, response: Option<Schema>)

  /** The operations so far, and the components. */
  datatype Document = Document(operations: seq<Operation>, schemas: Definitions)

  predicate HasBody(verb: string) {
    verb == "POST" || verb == "PUT" || verb == "PATCH"
  }

  function RequestOf(types: Types, m: Meta): Built {
    if m.request.Some? && HasBody(m.verb) then Build(types, m.request.value, {}) else Built(FreeObject, map[], {})
  }

  function ResponseOf(types: Types, m: Meta): Built {
    var visited := RequestOf(types, m).visited;
    if m.response.Some? then Build(types, m.response.value, visited) else Built(FreeObject, map[], visited)
  }

  /** One route: its two types share the record of visited types, so that a type is defined once. */
  function AddRoute(types: Types, m: Meta, doc: Document): Document {
    var request, response := RequestOf(types, m), ResponseOf(types, m);
    Document(doc.operations + [Operation(if m.request.Some? && HasBody(m.verb) then Some(request.schema) else None,
                                         if m.response.Some? then Some(response.schema) else None)],
             doc.schemas + request.defs + response.defs)
  }

  ghost predicate SchemaIn(s: Option<Schema>, names: set<string>) {
    s.Some? ==> Refs(s.value) <= names
  }

  /** Every reference in the document names one of its components. */
  ghost predicate Resolves(doc: Document) {
    && RefsIn(doc.schemas, doc.schemas.Keys)
    && forall i :: 0 <= i < |doc.operations| ==>
         SchemaIn(doc.operations[i].requestBody, doc.schemas.Keys) && SchemaIn(doc.operations[i].response, doc.schemas.Keys)
  }

  lemma NothingVisited(types: Types)
    ensures Visited(types, {}) == {}
  {
  }

  lemma RouteIsClosed(types: Types, m: Meta)
    ensures var request, response := RequestOf(types, m), ResponseOf(types, m);
            var names := Visited(types, response.visited);
            && RefsIn(request.defs + response.defs, names) && names <= (request.defs + response.defs).Keys
            && Refs(request.schema) <= names && Refs(response.schema) <= names
  {
    var request, response := RequestOf(types, m), ResponseOf(types, m);
    NothingVisited(types);
    if m.request.Some? && HasBody(m.verb) {
      BuildIsClosed(types, m.request.value, {});
    }
    if m.response.Some? {
      BuildIsClosed(types, m.response.value, request.visited);
    }
    MergeIsClosed(types, {}, request.visited, response.visited, request.defs, response.defs);
    VisitedGrows(types, request.visited, response.visited);
    assert response.visited - {} == response.visited;
  }

  lemma AddRouteResolves(types: Types, m: Meta, doc: Document)
    requires Resolves(doc)
    ensures Resolves(AddRoute(types, m, doc))
  {
    var request, response := RequestOf(types, m), ResponseOf(types, m);
    RouteIsClosed(types, m);
    JoinResolves(doc.schemas, request.defs + response.defs, Visited(types, response.visited));
    assert doc.schemas + request.defs + response.defs == doc.schemas + (request.defs + response.defs);
  }

  lemma JoinResolves(a: Definitions, b: Definitions, names: set<string>)
    requires RefsIn(a, a.Keys) && RefsIn(b, names) && names <= b.Keys
    ensures RefsIn(a + b, (a + b).Keys) && a.Keys <= (a + b).Keys && names <= (a + b).Keys
  {
    forall k | k in a + b ensures PropertiesIn((a + b)[k].properties, (a + b).Keys) {
      if k in b {
        assert PropertiesIn(b[k].properties, names);
      } else {
        assert PropertiesIn(a[k].properties, a.Keys);
      }
    }
  }

  function BuildAll(types: Types, metas: seq<Meta>): Document {
    if metas == [] then Document([], map[])
    else AddRoute(types, metas[|metas| - 1], BuildAll(types, metas[..|metas| - 1]))
  }

  /** In the document of any routes, over any types, every reference can be followed. */
  lemma {:induction false} DocumentResolves(types: Types, metas: seq<Meta>)
    ensures Resolves(BuildAll(types, metas))
  {
    if metas != [] {
      DocumentResolves(types, metas[..|metas| - 1]);
      AddRouteResolves(types, metas[|metas| - 1], BuildAll(types, metas[..|metas| - 1]));
    }
  }

  // ---------------------------------------------------------------------------
  // Schemas describe their types.

  /** The schema of a type, told by the type alone. */
  predicate Describes(types: Types, t: Type, s: Schema)
    decreases t
  {
    match t
    case Pointer(elem) => Describes(types, elem, s)
    case Struct(id) => s == if id < |types| && types[id].name != "" then Ref(types[id].name) else Value("string")
    case Slice(elem) => s.ArrayOf? && Describes(types, elem, s.items)
    case Time => s == DateTime
    case Map => s == FreeObject
    case Simple(kind) =>
      s == Value(if kind == Signed || kind == Unsigned then "integer"
                 else if kind == Float then "number"
                 else if kind == Boolean then "boolean"
                 else "string")
  }

  lemma {:induction false} LikeItsTarget(types: Types, t: Type, s: Schema)
    ensures Describes(types, t, s) <==> Describes(types, Deref(t), s)
    decreases t
  {
    if t.Pointer? {
      LikeItsTarget(types, t.elem, s);
    }
  }

  /** Whatever has been visited, what is built for a type describes it. */
  lemma {:induction false} BuildDescribes(types: Types, t: Type, visited: set<nat>)
    ensures Describes(types, t, Build(types, t, visited).schema)
    decreases t
  {
    LikeItsTarget(types, t, Build(types, t, visited).schema);
    if Deref(t).Slice? {
      BuildDescribes(types, Deref(t).elem, visited);
    }
  }

  /** An operation has a body for the three methods that send one, and a response, as far as they are registered. */
  ghost predicate OperationDescribes(types: Types, m: Meta, op: Operation) {
    && (op.requestBody.Some? <==> m.request.Some? && m.verb in {"POST", "PUT", "PATCH"})
    && (op.requestBody.Some? ==> Describes(types, m.request.value, op.requestBody.value))
    && (op.response.Some? <==> m.response.Some?)
    && (op.response.Some? ==> Describes(types, m.response.value, op.response.value))
  }

  /** Each route has its operation, whose schemas describe the types that were registered. */
  lemma {:induction false} OperationsDescribe(types: Types, metas: seq<Meta>)
    ensures |BuildAll(types, metas).operations| == |metas|
    ensures forall i :: 0 <= i < |metas| ==> OperationDescribes(types, metas[i], BuildAll(types, metas).operations[i])
  {
    if metas != [] {
      var before, m := metas[..|metas| - 1], metas[|metas| - 1];
      OperationsDescribe(types, before);
      NewOperationDescribes(types, m, BuildAll(types, before));
    }
  }

  lemma NewOperationDescribes(types: Types, m: Meta, doc: Document)
    ensures var ops := AddRoute(types, m, doc).operations;
            && |ops| == |doc.operations| + 1 && ops[..|doc.operations|] == doc.operations
            && OperationDescribes(types, m, ops[|doc.operations|])
  {
    if m.request.Some? {
      BuildDescribes(types, m.request.value, {});
    }
    if m.response.Some? {
      BuildDescribes(types, m.response.value, RequestOf(types, m).visited);
    }
  }

  /** A property is named by its tag up to the first comma, and like its field without a tag. */
  lemma TagNamesProperty(f: Field, name: string, options: string)
    requires ',' !in name
    ensures f.jsonTag == "" ==> PropertyName(f) == f.name
    ensures f.jsonTag != "" && (f.jsonTag == name || f.jsonTag == name + "," + options) ==> PropertyName(f) == name
  {
    UpToComma(name, "");
    UpToComma(name, "," + options);
    assert name + "" == name && name + "," + options == name + ("," + options);
  }

  lemma {:induction false} UpToComma(name: string, rest: string)
    requires ',' !in name && (rest == "" || rest[0] == ',')
    ensures BeforeComma(name + rest) == name
  {
    if name == "" {
      assert name + rest == rest;
    } else {
      UpToComma(name[1..], rest);
      assert (name + rest)[1..] == name[1..] + rest;
    }
  }

  // ---------------------------------------------------------------------------
  // What a definition lists.

  /** Every visible field of a struct is a property of its definition, and required if it says so. */
  lemma {:induction false} FieldsAreListed(types: Types, fields: seq<Field>, g: Gathered, f: Field)
    requires f in fields && !f.embedded && !IsHidden(f)
    ensures PropertyName(f) in Gather(types, fields, g).properties
    ensures f.required ==> PropertyName(f) in Gather(types, fields, g).required
    decreases |fields|
  {
    var g' := AddField(types, fields[0], g);
    if fields[0] == f {
      NothingIsDropped(types, fields[1..], g', PropertyName(f));
      assert f.required ==> g'.required[|g.required|] == PropertyName(f);
    } else {
      FieldsAreListed(types, fields[1..], g', f);
    }
  }

  lemma {:induction false} NothingIsDropped(types: Types, fields: seq<Field>, g: Gathered, k: string)
    ensures k in g.properties ==> k in Gather(types, fields, g).properties
    ensures k in g.required ==> k in Gather(types, fields, g).required
    decreases |fields|
  {
    if fields != [] {
      NothingIsDropped(types, fields[1..], AddField(types, fields[0], g), k);
    }
  }
}

/** The generator, which keeps the record of visited types while it recurs. */
module OpenApi {
  import opened Wrappers
  import opened SchemaSpec
  import opened SchemaTheorems

  class Generator {
    const types: Types
    var visited: set<nat>

    constructor (types: Types)
      ensures this.types == types && visited == {}
    {
      this.types, visited := types, {};
    }

    method BuildSchemaFromType(typ: Type) returns (schema: Schema, definitions: Definitions)
      modifies this
      ensures Built(schema, definitions, visited) == Build(types, typ, old(visited))
      decreases Unvisited(types, visited), 0, typ
    {
      definitions := map[];
      var t := typ;
      while t.Pointer?
        invariant Deref(t) == Deref(typ) && (t == typ || t < typ)
        decreases t
      {
        t := t.elem;
      }
      if IsNamedStruct(types, t) {
        if t.id in visited {
          return Ref(types[t.id].name), definitions;
        }
        VisitingShrinks(types, visited, visited + {t.id});
        visited := visited + {t.id};
        var props, req, defs := BuildFields(types[t.id].fields);
        definitions := defs[types[t.id].name := Definition(props, req)];
        return Ref(types[t.id].name), definitions;
      }
      match t {
        case Slice(elem) =>
          var items, itemDefs := BuildSchemaFromType(elem);
          return ArrayOf(items), itemDefs;
        case Time => schema := DateTime;
        case Map => schema := FreeObject;
        case Simple(kind) => schema := Value(KindName(kind));
        case _ => schema := Value("string");
      }
    }

    /** The loop over the fields of a struct. */
    method BuildFields(fields: seq<Field>) returns (props: map<string, Schema>, req: seq<string>, definitions: Definitions)
      modifies this
      ensures Gathered(props, req, definitions, visited) == Gather(types, fields, Gathered(map[], [], map[], old(visited)))
      decreases Unvisited(types, visited), 1, |fields|
    {
      props, req, definitions := map[], [], map[];
      for i := 0 to |fields|
        invariant old(visited) <= visited
        invariant Gather(types, fields, Gathered(map[], [], map[], old(visited)))
               == Gather(types, fields[i..], Gathered(props, req, definitions, visited))
      {
        var field := fields[i];
        ghost var g := Gathered(props, req, definitions, visited);
        assert fields[i..][0] == field && fields[i..][1..] == fields[i + 1..];
        VisitingShrinks(types, old(visited), visited);
        if field.embedded {
          var _, fieldDefs := BuildSchemaFromType(field.typ);
          definitions := definitions + fieldDefs;
          var embedName := NameOf(types, Deref(field.typ));
          if embedName in fieldDefs {
            props := props + fieldDefs[embedName].properties;
            req := req + fieldDefs[embedName].required;
          }
        } else if !IsHidden(field) {
          var name := PropertyName(field);
          var fieldRef, fieldDefs := BuildSchemaFromType(field.typ);
          definitions := definitions + fieldDefs;
          if field.required {
            req := req + [name];
          }
          props := props[name := fieldRef];
        }
        assert Gathered(props, req, definitions, visited) == AddField(types, field, g);
      }
    }
  }

  /** The components of all routes, each with a record of visited types of its own. */
  method BuildOpenAPI(types: Types, metas: seq<Meta>) returns (doc: Document)
    ensures doc == BuildAll(types, metas) && Resolves(doc)
  {
    DocumentResolves(types, metas);
    doc := Document([], map[]);
    for i := 0 to |metas|
      invariant doc == BuildAll(types, metas[..i])
    {
      var meta := metas[i];
      assert metas[..i + 1][..i] == metas[..i];
      var generator := new Generator(types);
      var op := Operation(None, None);
      var schemas := doc.schemas;
      if meta.request.Some? && HasBody(meta.verb) {
        var schemaRef, defs := generator.BuildSchemaFromType(meta.request.value);
        schemas := schemas + defs;
        op := op.(requestBody := Some(schemaRef));
      } else {
        assert schemas + map[] == schemas;
      }
      ghost var after := schemas;
      if meta.response.Some? {
        var schemaRef, defs := generator.BuildSchemaFromType(meta.response.value);
        schemas := schemas + defs;
        op := op.(response := Some(schemaRef));
      } else {
        assert schemas + map[] == schemas;
      }
      doc := Document(doc.operations + [op], schemas);
    }
    assert metas[..|metas|] == metas;
  }
}
