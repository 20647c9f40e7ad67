/** What the shape walk stands for: every unrolling of every shape, without any cycle guard. */
module UnrolledShapes {
  import opened Wrappers
  import opened Sequences
  import opened Schemas
  import opened Dialects
  import opened ShapeWalk

  // ---------- unrollings ------------------------------------------------------------

  /** The complaint a field itself deserves. */
  function EdgeDiag(schema: Schema, f: Field, model: Model): Option<Diag> {
    match f
    case Nest(field, _) => if EdgeOf(schema, model, field.text).Ordered() then Some(Report(field)) else None
    case NestRef(field, _) => if EdgeOf(schema, model, field.text).Ordered() then Some(Report(field)) else None
    case Flatten(out, first, hops, _) => if FarSorted(FarModel(schema, model, first, hops)) then Some(Report(out)) else None
    case Other => None
  }

  /** What a field nests: a body and the model it is read from. A reference nests the named shape's body. */
  function Nested(schema: Schema, shapes: Shapes, f: Field, model: Model): Option<(seq<Field>, Model)> {
    match f
    case Nest(field, body) =>
      var edge := EdgeOf(schema, model, field.text);
      if edge.NoEdge? then None else Some((body, edge.child))
    case NestRef(field, shape) =>
      var edge := EdgeOf(schema, model, field.text);
      if edge.NoEdge? || shape !in shapes then None else Some((shapes[shape].body, edge.child))
    case Flatten(_, first, hops, body) =>
      (match FarModel(schema, model, first, hops) case None => None case Some(far) => Some((body, far)))
    case Other => None
  }

  // ---------- edges, from the schema alone ------------------------------------------

  /** A to-many relation whose rows come sorted, by the relation or by their own model. */
  ghost predicate OrderedMany(schema: Schema, model: Model, field: string) {
    exists child :: LeadsTo(schema, model, field, child) && HasMany(model, field, child)
                    && (model.members[field].sorted || child.sorted)
  }

  /** Through a to-many relation to a junction, then by forward relations from model to model. */
  ghost predicate FlattensTo(schema: Schema, root: Model, first: string, hops: seq<string>, far: Model) {
    exists chain: seq<Model> ::
      && |chain| == |hops| + 1 && LeadsTo(schema, root, first, chain[0]) && HasMany(root, first, chain[0])
      && ForwardAlong(schema, chain, hops) && chain[|hops|] == far
  }

  predicate ForwardAlong(schema: Schema, chain: seq<Model>, hops: seq<string>)
    requires |chain| == |hops| + 1
  {
    forall i | 0 <= i < |hops| ::
      hops[i] in chain[i].members && chain[i].members[hops[i]].kind.Forward? && LeadsTo(schema, chain[i], hops[i], chain[i + 1])
  }

  lemma EdgeExactly(schema: Schema, model: Model, field: string)
    ensures EdgeOf(schema, model, field).Ordered() <==> OrderedMany(schema, model, field)
    ensures !EdgeOf(schema, model, field).NoEdge? ==> LeadsTo(schema, model, field, EdgeOf(schema, model, field).child)
    ensures EdgeOf(schema, model, field).NoEdge? ==> forall child :: !LeadsTo(schema, model, field, child)
  {
    var edge := EdgeOf(schema, model, field);
    if edge.Ordered() {
      assert LeadsTo(schema, model, field, edge.child) && HasMany(model, field, edge.child);
    }
  }

  lemma {:induction false} HopsExactly(schema: Schema, start: Model, hops: seq<string>, far: Model)
    ensures Hops(schema, start, hops) == Some(far) <==>
            exists chain: seq<Model> :: |chain| == |hops| + 1 && chain[0] == start && ForwardAlong(schema, chain, hops) && chain[|hops|] == far
    decreases |hops|
  {
    if hops == [] {
      assert Hops(schema, start, hops) == Some(far) ==> [start][0] == far && ForwardAlong(schema, [start], hops);
    } else {
      if Hops(schema, start, hops) == Some(far) {
        var next := schema[start.members[hops[0]].kind.target];
        HopsExactly(schema, next, hops[1..], far);
        var rest: seq<Model> :| |rest| == |hops[1..]| + 1 && rest[0] == next && ForwardAlong(schema, rest, hops[1..]) && rest[|hops[1..]|] == far;
        var chain := [start] + rest;
        forall i | 0 <= i < |hops|
          ensures hops[i] in chain[i].members && chain[i].members[hops[i]].kind.Forward? && LeadsTo(schema, chain[i], hops[i], chain[i + 1])
        {
          assert i > 0 ==> hops[1..][i - 1] == hops[i];
        }
        assert ForwardAlong(schema, chain, hops) && chain[|hops|] == far;
      }
      forall chain: seq<Model> | |chain| == |hops| + 1 && chain[0] == start && ForwardAlong(schema, chain, hops) && chain[|hops|] == far
        ensures Hops(schema, start, hops) == Some(far)
      {
        assert LeadsTo(schema, chain[0], hops[0], chain[1]);
        forall i | 0 <= i < |hops[1..]|
          ensures hops[1..][i] in chain[1..][i].members && chain[1..][i].members[hops[1..][i]].kind.Forward?
                  && LeadsTo(schema, chain[1..][i], hops[1..][i], chain[1..][i + 1])
        {
          assert hops[1..][i] == hops[i + 1];
        }
        assert ForwardAlong(schema, chain[1..], hops[1..]);
        HopsExactly(schema, chain[1], hops[1..], far);
      }
    }
  }

  lemma FarExactly(schema: Schema, root: Model, first: string, hops: seq<string>, far: Model)
    ensures FarModel(schema, root, first, hops) == Some(far) <==> FlattensTo(schema, root, first, hops, far)
  {
    hide Hops, ForwardAlong;
    forall start {
      HopsExactly(schema, start, hops, far);
    }
    if FarModel(schema, root, first, hops) == Some(far) {
      var junction := schema[root.members[first].kind.target];
      var chain: seq<Model> :| |chain| == |hops| + 1 && chain[0] == junction && ForwardAlong(schema, chain, hops) && chain[|hops|] == far;
      assert LeadsTo(schema, root, first, chain[0]) && HasMany(root, first, chain[0]);
    }
  }

  /** What a field deserves and where it leads, from the schema alone: a nest or a reference is
      complained of exactly when its relation is to-many and ordered, a flatten exactly when its far
      model is sorted. */
  lemma EdgesFromTheSchema(schema: Schema, shapes: Shapes, f: Field, model: Model)
    ensures f.Nest? || f.NestRef? ==> (EdgeDiag(schema, f, model) == Some(Report(f.field)) <==> OrderedMany(schema, model, f.field.text))
    ensures f.Flatten? ==>
              (EdgeDiag(schema, f, model) == Some(Report(f.out)) <==>
                 exists far :: FlattensTo(schema, model, f.first, f.hops, far) && far.sorted)
    ensures forall d :: EdgeDiag(schema, f, model) == Some(d) ==>
              (f.Nest? && d == Report(f.field)) || (f.NestRef? && d == Report(f.field)) || (f.Flatten? && d == Report(f.out))
    ensures forall body, child :: Nested(schema, shapes, f, model) == Some((body, child)) <==>
              || (f.Nest? && body == f.body && LeadsTo(schema, model, f.field.text, child))
              || (f.NestRef? && f.shape in shapes && body == shapes[f.shape].body && LeadsTo(schema, model, f.field.text, child))
              || (f.Flatten? && body == f.body && FlattensTo(schema, model, f.first, f.hops, child))
  {
    hide EdgeOf, FarModel, OrderedMany, FlattensTo;
    match f
    case Nest(field, _) => EdgeExactly(schema, model, field.text);
    case NestRef(field, _) => EdgeExactly(schema, model, field.text);
    case Flatten(_, first, hops, _) =>
      forall far {
        FarExactly(schema, model, first, hops, far);
      }
    case Other =>
  }

  /** The complaint at the end of a path of field positions, each nested in the one before. */
  function Reached(schema: Schema, shapes: Shapes, body: seq<Field>, model: Model, path: seq<nat>): Option<Diag>
    decreases |path|
  {
    if path == [] || path[0] >= |body| then None
    else if |path| == 1 then EdgeDiag(schema, body[path[0]], model)
    else match Nested(schema, shapes, body[path[0]], model)
      case None => None
      case Some(inner) => Reached(schema, shapes, inner.0, inner.1, path[1..])
  }

  ghost predicate IsReached(schema: Schema, shapes: Shapes, body: seq<Field>, model: Model, d: Diag) {
    exists path :: Reached(schema, shapes, body, model, path) == Some(d)
  }

  // ---------- everything reported is reached ----------------------------------------

  lemma ReachedAt(schema: Schema, shapes: Shapes, body: seq<Field>, model: Model, i: nat, d: Diag)
    requires i < |body|
    requires EdgeDiag(schema, body[i], model) == Some(d)
          || (var inner := Nested(schema, shapes, body[i], model);
              inner.Some? && IsReached(schema, shapes, inner.value.0, inner.value.1, d))
    ensures IsReached(schema, shapes, body, model, d)
  {
    hide EdgeDiag, Nested;
    if EdgeDiag(schema, body[i], model) == Some(d) {
      assert Reached(schema, shapes, body, model, [i]) == Some(d);
    } else {
      var inner := Nested(schema, shapes, body[i], model).value;
      var path :| Reached(schema, shapes, inner.0, inner.1, path) == Some(d);
      assert ([i] + path)[1..] == path;
      assert Reached(schema, shapes, body, model, [i] + path) == Some(d);
    }
  }

  lemma ReachedLater(schema: Schema, shapes: Shapes, body: seq<Field>, model: Model, d: Diag)
    requires body != [] && IsReached(schema, shapes, body[1..], model, d)
    ensures IsReached(schema, shapes, body, model, d)
  {
    hide EdgeDiag, Nested;
    var path :| Reached(schema, shapes, body[1..], model, path) == Some(d);
    var path' := [path[0] + 1] + path[1..];
    assert path'[1..] == path[1..];
    assert Reached(schema, shapes, body, model, path') == Some(d);
  }

  lemma {:induction false} ReportedIsReached(schema: Schema, shapes: Shapes, body: seq<Field>, model: Model, stack: seq<string>, d: Diag)
    requires Keyed(shapes) && d in WalkBody(schema, shapes, body, model, stack)
    ensures IsReached(schema, shapes, body, model, d)
    decreases |shapes.Keys - Elements(stack)|, body
  {
    if d in WalkField(schema, shapes, body[0], model, stack) {
      FieldIsReached(schema, shapes, body[0], model, stack, d);
      ReachedAt(schema, shapes, body, model, 0, d);
    } else {
      ReportedIsReached(schema, shapes, body[1..], model, stack, d);
      ReachedLater(schema, shapes, body, model, d);
    }
  }

  lemma {:induction false} FieldIsReached(schema: Schema, shapes: Shapes, f: Field, model: Model, stack: seq<string>, d: Diag)
    requires Keyed(shapes) && d in WalkField(schema, shapes, f, model, stack)
    ensures EdgeDiag(schema, f, model) == Some(d)
         || (var inner := Nested(schema, shapes, f, model);
             inner.Some? && IsReached(schema, shapes, inner.value.0, inner.value.1, d))
    decreases |shapes.Keys - Elements(stack)|, f
  {
    hide EdgeOf, FarModel, Elements, WalkBody, IsReached;
    if EdgeDiag(schema, f, model) != Some(d) {
      match f
      case Nest(field, body) =>
        ReportedIsReached(schema, shapes, body, EdgeOf(schema, model, field.text).child, stack, d);
      case NestRef(field, shape) =>
        Entering(shapes, shape, stack);
        ReportedIsReached(schema, shapes, shapes[shape].body, EdgeOf(schema, model, field.text).child, stack + [shape], d);
      case Flatten(out, first, hops, body) =>
        ReportedIsReached(schema, shapes, body, FarModel(schema, model, first, hops).value, stack, d);
    }
  }

  lemma Entering(shapes: Shapes, shape: string, stack: seq<string>)
    requires shape in shapes && shape !in stack
    ensures |shapes.Keys - Elements(stack + [shape])| < |shapes.Keys - Elements(stack)|
  {
    assert shape in Elements(stack + [shape]);
    assert forall s | s in stack :: s in stack + [shape];
    StrictSubsetSize(shapes.Keys - Elements(stack + [shape]), shapes.Keys - Elements(stack));
  }

  // ---------- everything reached is reported ----------------------------------------

  /** What the walk reports of a body without entering any named shape. */
  function Inline(schema: Schema, body: seq<Field>, model: Model): seq<Diag> { WalkBody(schema, map[], body, model, []) }

  lemma {:induction false} InlineIsReported(schema: Schema, shapes: Shapes, body: seq<Field>, model: Model, stack: seq<string>, d: Diag)
    requires Keyed(shapes) && d in Inline(schema, body, model)
    ensures d in WalkBody(schema, shapes, body, model, stack)
    decreases body
  {
    if d in WalkField(schema, map[], body[0], model, []) {
      InlineField(schema, shapes, body[0], model, stack, d);
    } else {
      InlineIsReported(schema, shapes, body[1..], model, stack, d);
    }
  }

  lemma {:induction false} InlineField(schema: Schema, shapes: Shapes, f: Field, model: Model, stack: seq<string>, d: Diag)
    requires Keyed(shapes) && d in WalkField(schema, map[], f, model, [])
    ensures d in WalkField(schema, shapes, f, model, stack)
    decreases f
  {
    hide EdgeOf, FarModel, Elements, WalkBody;
    match f
    case Nest(field, body) =>
      var edge := EdgeOf(schema, model, field.text);
      if d !in Complaint(edge.Ordered(), field) {
        InlineIsReported(schema, shapes, body, edge.child, stack, d);
      }
    case NestRef(field, shape) =>
    case Flatten(out, first, hops, body) =>
      var far := FarModel(schema, model, first, hops).value;
      if d !in Complaint(far.sorted, out) {
        InlineIsReported(schema, shapes, body, far, stack, d);
      }
  }

  /** Every reference names a shape of the model its edge leads to. */
  ghost predicate Typed(schema: Schema, shapes: Shapes, body: seq<Field>, model: Model)
    decreases body, 1
  {
    forall i | 0 <= i < |body| :: TypedField(schema, shapes, body[i], model)
  }

  ghost predicate TypedField(schema: Schema, shapes: Shapes, f: Field, model: Model)
    decreases f, 0
  {
    match f
    case Nest(field, body) =>
      var edge := EdgeOf(schema, model, field.text);
      edge.NoEdge? || Typed(schema, shapes, body, edge.child)
    case NestRef(field, shape) =>
      var edge := EdgeOf(schema, model, field.text);
      edge.NoEdge? || shape !in shapes || FindModel(schema, shapes[shape].from) == Some(edge.child)
    case Flatten(_, first, hops, body) =>
      var far := FarModel(schema, model, first, hops);
      far.None? || Typed(schema, shapes, body, far.value)
    case Other => true
  }

  ghost predicate TypedDecls(schema: Schema, shapes: Shapes, decls: seq<Shape>) {
    forall s, model | s in decls && FindModel(schema, s.from) == Some(model) :: Typed(schema, shapes, s.body, model)
  }

  /** The inline complaints of every shape, at the model it is written for. */
  ghost predicate Covers(schema: Schema, decls: seq<Shape>, all: set<Diag>) {
    forall s, model, d | s in decls && FindModel(schema, s.from) == Some(model) && d in Inline(schema, s.body, model) :: d in all
  }

  lemma {:induction false} FieldIsInline(schema: Schema, body: seq<Field>, model: Model, i: nat, d: Diag)
    requires i < |body| && d in WalkField(schema, map[], body[i], model, [])
    ensures d in Inline(schema, body, model)
  {
    hide WalkField;
    if i > 0 {
      assert body[1..][i - 1] == body[i];
      FieldIsInline(schema, body[1..], model, i - 1, d);
    }
  }

  lemma EdgeIsInline(schema: Schema, body: seq<Field>, model: Model, i: nat, d: Diag)
    requires i < |body| && EdgeDiag(schema, body[i], model) == Some(d)
    ensures d in Inline(schema, body, model)
  {
    EdgeIsFieldInline(schema, body[i], model, d);
    FieldIsInline(schema, body, model, i, d);
  }

  lemma EdgeIsFieldInline(schema: Schema, f: Field, model: Model, d: Diag)
    requires EdgeDiag(schema, f, model) == Some(d)
    ensures d in WalkField(schema, map[], f, model, [])
  {
    hide EdgeOf, FarModel, WalkBody, Elements;
  }

  /** A complaint inline in a nested body is inline in the body around it, unless a reference leads there. */
  lemma NestedIsInline(schema: Schema, shapes: Shapes, body: seq<Field>, model: Model, i: nat, d: Diag)
    requires i < |body| && !body[i].NestRef? && Nested(schema, shapes, body[i], model).Some?
    requires var inner := Nested(schema, shapes, body[i], model).value; d in Inline(schema, inner.0, inner.1)
    ensures d in Inline(schema, body, model)
  {
    FieldHoldsNested(schema, shapes, body[i], model, d);
    FieldIsInline(schema, body, model, i, d);
  }

  lemma FieldHoldsNested(schema: Schema, shapes: Shapes, f: Field, model: Model, d: Diag)
    requires !f.NestRef? && Nested(schema, shapes, f, model).Some?
    requires var inner := Nested(schema, shapes, f, model).value; d in Inline(schema, inner.0, inner.1)
    ensures d in WalkField(schema, map[], f, model, [])
  {
    hide EdgeOf, FarModel, WalkBody, Elements;
  }

  lemma {:induction false} ReachedIsCovered(schema: Schema, decls: seq<Shape>, body: seq<Field>, model: Model, path: seq<nat>, all: set<Diag>, d: Diag)
    requires TypedDecls(schema, ShapesOf(decls), decls) && Covers(schema, decls, all)
    requires Typed(schema, ShapesOf(decls), body, model) && forall e | e in Inline(schema, body, model) :: e in all
    requires Reached(schema, ShapesOf(decls), body, model, path) == Some(d)
    ensures d in all
    decreases |path|
  {
    hide ShapesOf, EdgeOf, FarModel, EdgeDiag, Inline;
    var shapes := ShapesOf(decls);
    var f := body[path[0]];
    if |path| == 1 {
      EdgeIsInline(schema, body, model, path[0], d);
    } else {
      var inner := Nested(schema, shapes, f, model).value;
      assert TypedField(schema, shapes, f, model);
      if f.NestRef? {
        var shape := shapes[f.shape];
        assert shape in decls && FindModel(schema, shape.from) == Some(inner.1);
      } else {
        forall e | e in Inline(schema, inner.0, inner.1)
          ensures e in all
        {
          NestedIsInline(schema, shapes, body, model, path[0], e);
        }
      }
      ReachedIsCovered(schema, decls, inner.0, inner.1, path[1..], all, d);
    }
  }

  lemma {:induction false} DeclReported(schema: Schema, shapes: Shapes, decls: seq<Shape>, d: Diag)
    requires Keyed(shapes)
    ensures d in WalkDecls(schema, shapes, decls) <==> exists s :: s in decls && d in WalkDecl(schema, shapes, s)
  {
    hide WalkDecl;
    if decls != [] {
      DeclReported(schema, shapes, decls[1..], d);
      assert forall s :: s in decls <==> s == decls[0] || s in decls[1..];
    }
  }

  lemma WalkCoversInline(schema: Schema, decls: seq<Shape>)
    ensures Covers(schema, decls, Elements(WalkDecls(schema, ShapesOf(decls), decls)))
  {
    hide WalkBody;
    var shapes := ShapesOf(decls);
    forall s, model, d | s in decls && FindModel(schema, s.from) == Some(model) && d in Inline(schema, s.body, model)
      ensures d in WalkDecls(schema, shapes, decls)
    {
      InlineIsReported(schema, shapes, s.body, model, [s.name], d);
      DeclReported(schema, shapes, decls, d);
      assert d in WalkDecl(schema, shapes, s);
    }
  }

  /** A shape whose unrolling has the complaint. */
  ghost predicate Unrolls(schema: Schema, shapes: Shapes, s: Shape, d: Diag) {
    var model := FindModel(schema, s.from);
    model.Some? && IsReached(schema, shapes, s.body, model.value, d)
  }

  /** Entering each shape once on a path loses nothing: a complaint is made exactly when some unrolling deserves it. */
  lemma CycleCutLosesNothing(schema: Schema, decls: seq<Shape>, d: Diag)
    requires TypedDecls(schema, ShapesOf(decls), decls)
    ensures d in OrderedNestDiagnostics(schema, decls, MySql) <==> exists s :: s in decls && Unrolls(schema, ShapesOf(decls), s, d)
  {
    hide ShapesOf, WalkBody;
    var shapes := ShapesOf(decls);
    ReportedUnrolls(schema, decls, d);
    forall s | s in decls && Unrolls(schema, shapes, s, d)
      ensures d in WalkDecls(schema, shapes, decls)
    {
      var model := FindModel(schema, s.from).value;
      WalkCoversInline(schema, decls);
      var path :| Reached(schema, shapes, s.body, model, path) == Some(d);
      ReachedIsCovered(schema, decls, s.body, model, path, Elements(WalkDecls(schema, shapes, decls)), d);
    }
  }

  /** Every complaint is deserved, whether or not references are typed. */
  lemma ReportedUnrolls(schema: Schema, decls: seq<Shape>, d: Diag)
    ensures d in OrderedNestDiagnostics(schema, decls, MySql) ==> exists s :: s in decls && Unrolls(schema, ShapesOf(decls), s, d)
  {
    hide ShapesOf, WalkBody, IsReached;
    var shapes := ShapesOf(decls);
    if d in WalkDecls(schema, shapes, decls) {
      DeclReported(schema, shapes, decls, d);
      var s :| s in decls && d in WalkDecl(schema, shapes, s);
      ReportedIsReached(schema, shapes, s.body, FindModel(schema, s.from).value, [s.name], d);
      assert Unrolls(schema, shapes, s, d);
    }
  }

  /** A project is accepted on MySQL exactly when no unrolling of any shape reaches an ordered to-many
      edge, and always on the other dialects. */
  lemma AcceptedExactly(schema: Schema, decls: seq<Shape>)
    requires TypedDecls(schema, ShapesOf(decls), decls)
    ensures forall dialect | dialect in {Postgres, MariaDb, Sqlite} :: OrderedNestDiagnostics(schema, decls, dialect) == []
    ensures OrderedNestDiagnostics(schema, decls, MySql) == []
       <==> forall s, d | s in decls :: !Unrolls(schema, ShapesOf(decls), s, d)
  {
    assert forall dialect | dialect in {Postgres, MariaDb, Sqlite} :: OrderedNestDiagnostics(schema, decls, dialect) == [];
    hide ShapesOf, Unrolls, OrderedNestDiagnostics;
    forall s, d | s in decls && Unrolls(schema, ShapesOf(decls), s, d)
      ensures OrderedNestDiagnostics(schema, decls, MySql) != []
    {
      CycleCutLosesNothing(schema, decls, d);
    }
    if OrderedNestDiagnostics(schema, decls, MySql) != [] {
      var d := OrderedNestDiagnostics(schema, decls, MySql)[0];
      CycleCutLosesNothing(schema, decls, d);
    }
  }

  /** Without typed references the cut does lose a complaint: here a shape refers to itself across
      models. The semantic check refuses such a reference on its own account, but this walk still runs. */
  lemma UntypedReferenceIsMissed()
    ensures exists schema, s, d :: OrderedNestDiagnostics(schema, [s], MySql) == [] && Unrolls(schema, ShapesOf([s]), s, d)
  {
    var field := Name("c", 0);
    var m := Model("m", map["c" := Member(Forward("N", false), false)], false, {});
    var n := Model("n", map["c" := Member(Inverse("M", "up"), true)], false, {});
    var schema: Schema := map["M" := m, "N" := n];
    var s := Shape("A", "M", [NestRef(field, "A")]);
    var shapes := ShapesOf([s]);
    assert [s][..0] == [];
    assert shapes == map["A" := s];
    assert s.body[1..] == [];
    assert EdgeOf(schema, m, "c") == ToOne(n);
    assert EdgeOf(schema, n, "c") == ToMany(m, true);
    assert WalkField(schema, shapes, s.body[0], m, ["A"]) == [];
    assert WalkBody(schema, shapes, s.body[1..], m, ["A"]) == [];
    assert WalkBody(schema, shapes, s.body, m, ["A"]) == [];
    assert WalkDecl(schema, shapes, s) == [];
    assert [s][0] == s && [s][1..] == [];
    assert WalkDecls(schema, shapes, []) == [];
    assert WalkDecls(schema, shapes, [s]) == WalkDecl(schema, shapes, s) + WalkDecls(schema, shapes, [s][1..]);
    assert OrderedNestDiagnostics(schema, [s], MySql) == [];
    assert [0, 0][1..] == [0];
    assert Reached(schema, shapes, s.body, n, [0]) == Some(Report(field));
    assert Reached(schema, shapes, s.body, m, [0, 0]) == Some(Report(field));
    assert Unrolls(schema, shapes, s, Report(field));
  }
}
