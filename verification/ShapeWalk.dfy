/** The check for ordered to-many nests on MySQL: a walk over shapes that may refer to themselves. */
module ShapeWalk {
  import opened Wrappers
  import opened Sequences
  import opened Schemas
  import opened Dialects

  datatype Field =
    | Nest(field: Name, body: seq<Field>)
    | NestRef(field: Name, shape: string)
    | Flatten(out: Name, first: string, hops: seq<string>, body: seq<Field>)
    | Other

  datatype Shape = Shape(name: string, from: string, body: seq<Field>)

  // ---------- edges -----------------------------------------------------------------

  datatype Edge = ToMany(child: Model, ordered: bool) | ToOne(child: Model) | NoEdge
  {
    predicate Ordered() { ToMany? && ordered }
  }

  function EdgeOf(schema: Schema, model: Model, field: string): Edge {
    match model.Find(field)
    case None => NoEdge
    case Some(member) =>
      match member.kind
      case Inverse(target, via) =>
        (match FindModel(schema, target)
         case None => NoEdge
         case Some(child) =>
           if child.IsUnique(via) then ToOne(child) else ToMany(child, member.sorted || child.sorted))
      case Forward(target, _) =>
        (match FindModel(schema, target) case None => NoEdge case Some(child) => ToOne(child))
      case Scalar => NoEdge
  }

  /** The model reached by forward hops. */
  function Hops(schema: Schema, model: Model, hops: seq<string>): Option<Model>
    decreases |hops|
  {
    if hops == [] then Some(model)
    else match model.Find(hops[0])
      case None => None
      case Some(member) =>
        if !member.kind.Forward? then None
        else match FindModel(schema, member.kind.target)
          case None => None
          case Some(next) => Hops(schema, next, hops[1..])
  }

  /** Where a flatten ends: through the junction model it starts with, and on by forward relations. */
  function FarModel(schema: Schema, root: Model, first: string, hops: seq<string>): Option<Model> {
    match root.Find(first)
    case None => None
    case Some(member) =>
      if !member.kind.Inverse? then None
      else match FindModel(schema, member.kind.target)
        case None => None
        case Some(junction) => if junction.IsUnique(member.kind.via) then None else Hops(schema, junction, hops)
  }

  method FollowHops(schema: Schema, root: Model, first: string, hops: seq<string>) returns (far: Option<Model>)
    ensures far == FarModel(schema, root, first, hops)
  {
    var member := root.Find(first);
    if member.None? || !member.value.kind.Inverse? {
      return None;
    }
    var junction := FindModel(schema, member.value.kind.target);
    if junction.None? || junction.value.IsUnique(member.value.kind.via) {
      return None;
    }
    var cur := junction.value;
    var i := 0;
    assert hops[0..] == hops;
    while i < |hops|
      invariant i <= |hops| && Hops(schema, cur, hops[i..]) == Hops(schema, junction.value, hops)
    {
      var step := cur.Find(hops[i]);
      if step.None? || !step.value.kind.Forward? {
        return None;
      }
      var next := FindModel(schema, step.value.kind.target);
      if next.None? {
        return None;
      }
      cur := next.value;
      i := i + 1;
    }
    far := Some(cur);
  }

  // ---------- the walk --------------------------------------------------------------

  type Shapes = map<string, Shape>

  /** The last shape of each name. */
  function ShapesOf(decls: seq<Shape>): (shapes: Shapes)
    ensures forall name | name in shapes :: shapes[name].name == name && shapes[name] in decls
    ensures forall s | s in decls :: s.name in shapes
  {
    if decls == [] then map[]
    else var last := decls[|decls| - 1]; ShapesOf(decls[..|decls| - 1])[last.name := last]
  }

  /** Of several shapes of one name the last counts. */
  lemma {:induction false} LastOfAName(decls: seq<Shape>, i: nat)
    requires i < |decls| && forall j | i < j < |decls| :: decls[j].name != decls[i].name
    ensures ShapesOf(decls)[decls[i].name] == decls[i]
  {
    if i < |decls| - 1 {
      LastOfAName(decls[..|decls| - 1], i);
    }
  }

  predicate Keyed(shapes: Shapes) { forall name | name in shapes :: shapes[name].name == name }

  function Complaint(ordered: bool, name: Name): seq<Diag> { if ordered then [Report(name)] else [] }

  predicate FarSorted(far: Option<Model>) { far.Some? && far.value.sorted }

  /** What the walk reports of a body: each named shape is entered at most once on a path. */
  function WalkBody(schema: Schema, shapes: Shapes, body: seq<Field>, model: Model, stack: seq<string>): seq<Diag>
    requires Keyed(shapes)
    decreases |shapes.Keys - Elements(stack)|, body
  {
    if body == [] then []
    else WalkField(schema, shapes, body[0], model, stack) + WalkBody(schema, shapes, body[1..], model, stack)
  }

  function WalkField(schema: Schema, shapes: Shapes, f: Field, model: Model, stack: seq<string>): seq<Diag>
    requires Keyed(shapes)
    decreases |shapes.Keys - Elements(stack)|, f
  {
    match f
    case Nest(field, body) =>
      var edge := EdgeOf(schema, model, field.text);
      if edge.NoEdge? then []
      else Complaint(edge.Ordered(), field) + WalkBody(schema, shapes, body, edge.child, stack)
    case NestRef(field, shape) =>
      var edge := EdgeOf(schema, model, field.text);
      Complaint(edge.Ordered(), field)
      + if edge.NoEdge? || shape !in shapes || shape in stack then []
        else
          assert shapes.Keys - Elements(stack + [shape]) < shapes.Keys - Elements(stack) by {
            assert shape in Elements(stack + [shape]);
            assert forall s | s in stack :: s in stack + [shape];
          }
          StrictSubsetSize(shapes.Keys - Elements(stack + [shape]), shapes.Keys - Elements(stack));
          WalkBody(schema, shapes, shapes[shape].body, edge.child, stack + [shape])
    case Flatten(out, first, hops, body) =>
      var far := FarModel(schema, model, first, hops);
      if far.None? then []
      else Complaint(far.value.sorted, out) + WalkBody(schema, shapes, body, far.value, stack)
    case Other => []
  }

  function WalkDecl(schema: Schema, shapes: Shapes, s: Shape): seq<Diag>
    requires Keyed(shapes)
  {
    match FindModel(schema, s.from)
    case None => []
    case Some(model) => WalkBody(schema, shapes, s.body, model, [s.name])
  }

  /** The check of a project: every shape of a known model is walked from itself. */
  function WalkDecls(schema: Schema, shapes: Shapes, decls: seq<Shape>): seq<Diag>
    requires Keyed(shapes)
  {
    if decls == [] then []
    else WalkDecl(schema, shapes, decls[0]) + WalkDecls(schema, shapes, decls[1..])
  }

  function OrderedNestDiagnostics(schema: Schema, decls: seq<Shape>, dialect: Dialect): seq<Diag> {
    if dialect != MySql then [] else WalkDecls(schema, ShapesOf(decls), decls)
  }

  // ---------- the walker ------------------------------------------------------------

  class Walker {
    const schema: Schema
    const shapes: Shapes
    var diags: seq<Diag>
    var stack: seq<string>

    constructor (schema: Schema, shapes: Shapes)
      ensures this.schema == schema && this.shapes == shapes && diags == [] && stack == []
    {
      this.schema, this.shapes, diags, stack := schema, shapes, [], [];
    }

    method Push(ordered: bool, name: Name)
      modifies this`diags
      ensures diags == old(diags) + Complaint(ordered, name)
    {
      if ordered {
        diags := diags + [Report(name)];
      }
    }

    method Body(body: seq<Field>, model: Model)
      requires Keyed(shapes)
      modifies this
      ensures stack == old(stack) && diags == old(diags) + WalkBody(schema, shapes, body, model, stack)
      decreases |shapes.Keys - Elements(stack)|, body, 2
    {
      hide WalkField, Elements;
      var i := 0;
      assert body[0..] == body;
      while i < |body|
        invariant i <= |body| && stack == old(stack)
        invariant diags + WalkBody(schema, shapes, body[i..], model, stack) == old(diags) + WalkBody(schema, shapes, body, model, stack)
      {
        ghost var before := diags;
        FirstOf(body, i, model);
        One(body[i], model);
        assert diags + WalkBody(schema, shapes, body[i + 1..], model, stack) == before + WalkBody(schema, shapes, body[i..], model, stack);
        i := i + 1;
      }
    }

    lemma FirstOf(body: seq<Field>, i: nat, model: Model)
      requires Keyed(shapes) && i < |body|
      ensures WalkBody(schema, shapes, body[i..], model, stack)
           == WalkField(schema, shapes, body[i], model, stack) + WalkBody(schema, shapes, body[i + 1..], model, stack)
    {
      assert body[i..][1..] == body[i + 1..] && body[i..][0] == body[i];
      hide WalkField;
    }

    method One(f: Field, model: Model)
      requires Keyed(shapes)
      modifies this
      ensures stack == old(stack) && diags == old(diags) + WalkField(schema, shapes, f, model, stack)
      decreases |shapes.Keys - Elements(stack)|, f, 1
    {
      hide EdgeOf, FarModel, Elements, WalkBody, Complaint;
      match f {
        case Nest(field, body) =>
          var edge := EdgeOf(schema, model, field.text);
          if !edge.NoEdge? {
            Under(edge.Ordered(), field, body, edge.child);
          }
        case NestRef(_, _) => Reference(f, model);
        case Flatten(out, first, hops, body) =>
          var far := FollowHops(schema, model, first, hops);
          if far.Some? {
            Under(far.value.sorted, out, body, far.value);
          }
        case Other =>
      }
    }

    /** An inline body under an edge. */
    method Under(ordered: bool, name: Name, body: seq<Field>, child: Model)
      requires Keyed(shapes)
      modifies this
      ensures stack == old(stack)
      ensures diags == old(diags) + (Complaint(ordered, name) + WalkBody(schema, shapes, body, child, stack))
      decreases |shapes.Keys - Elements(stack)|, body, 3
    {
      hide WalkBody, Complaint, Elements;
      Push(ordered, name);
      Body(body, child);
    }

    lemma ReferenceDiags(f: Field, model: Model)
      requires Keyed(shapes) && f.NestRef?
      ensures var edge := EdgeOf(schema, model, f.field.text);
              WalkField(schema, shapes, f, model, stack) ==
              Complaint(edge.Ordered(), f.field)
              + if edge.NoEdge? || f.shape !in shapes || f.shape in stack then []
                else WalkBody(schema, shapes, shapes[f.shape].body, edge.child, stack + [f.shape])
    {
      hide EdgeOf, WalkBody, Complaint;
    }

    method Reference(f: Field, model: Model)
      requires Keyed(shapes) && f.NestRef?
      modifies this
      ensures stack == old(stack) && diags == old(diags) + WalkField(schema, shapes, f, model, stack)
      decreases |shapes.Keys - Elements(stack)|, f, 0, 1
    {
      ReferenceDiags(f, model);
      hide EdgeOf, Elements, WalkBody, WalkField, Complaint;
      var edge := EdgeOf(schema, model, f.field.text);
      Push(edge.Ordered(), f.field);
      if !edge.NoEdge? && f.shape in shapes && f.shape !in stack {
        // A shape that refers to itself recurs: it is entered at most once on a path.
        Enter(shapes[f.shape], edge.child, f);
      }
    }

    method Decl(s: Shape)
      requires Keyed(shapes)
      modifies this
      ensures diags == old(diags) + WalkDecl(schema, shapes, s)
    {
      hide WalkBody;
      var model := FindModel(schema, s.from);
      if model.Some? {
        stack := [s.name];
        Body(s.body, model.value);
      }
    }

    method All(decls: seq<Shape>)
      requires Keyed(shapes)
      modifies this
      ensures diags == old(diags) + WalkDecls(schema, shapes, decls)
    {
      hide WalkDecl;
      var i := 0;
      assert decls[0..] == decls;
      while i < |decls|
        invariant i <= |decls|
        invariant diags + WalkDecls(schema, shapes, decls[i..]) == old(diags) + WalkDecls(schema, shapes, decls)
      {
        assert decls[i..][1..] == decls[i + 1..];
        Decl(decls[i]);
        i := i + 1;
      }
    }

    method Enter(shape: Shape, model: Model, ghost from: Field)
      requires Keyed(shapes) && shape.name in shapes && shape.name !in stack
      modifies this
      ensures stack == old(stack) && diags == old(diags) + WalkBody(schema, shapes, shape.body, model, stack + [shape.name])
      decreases |shapes.Keys - Elements(stack)|, from, 0, 0
    {
      ghost var outer := stack;
      assert shape.name in Elements(stack + [shape.name]);
      assert forall s | s in stack :: s in stack + [shape.name];
      StrictSubsetSize(shapes.Keys - Elements(stack + [shape.name]), shapes.Keys - Elements(stack));
      stack := stack + [shape.name];
      Body(shape.body, model);
      stack := stack[..|stack| - 1];
      assert stack == outer;
    }
  }

  method Check(schema: Schema, decls: seq<Shape>, dialect: Dialect) returns (diags: seq<Diag>)
    ensures diags == OrderedNestDiagnostics(schema, decls, dialect)
  {
    if dialect != MySql {
      return [];
    }
    var walker := new Walker(schema, ShapesOf(decls));
    walker.All(decls);
    diags := walker.diags;
  }
}
