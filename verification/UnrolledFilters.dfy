/** What the check of `.any` in writes stands for: every place in the predicate with its filters
    unrolled, no filter inside itself, as the generated SQL has them; hop by hop, from the schema alone. */
module UnrolledFilters {
  import opened Wrappers
  import opened Sequences
  import opened Schemas
  import opened Dialects
  import opened FilterWalk

  // ---------- hops, from the schema alone -------------------------------------------

  predicate IsInverse(a: Model, seg: Name) { seg.text in a.members && a.members[seg.text].kind.Inverse? }

  /** The relation back is joined by a custom condition. */
  predicate CustomBack(a: Model, seg: Name, b: Model)
    requires IsInverse(a, seg)
  {
    var via := a.members[seg.text].kind.via;
    via in b.members && b.members[via].kind.Forward? && b.members[via].kind.customOn
  }

  /** A hop that deserves a complaint: an inverse relation, joined by a custom condition, into the
      table being written. */
  ghost predicate SelfJoin(schema: Schema, a: Model, seg: Name, written: string) {
    exists b :: LeadsTo(schema, a, seg.text, b) && IsInverse(a, seg) && CustomBack(a, seg, b) && b.table == written
  }

  /** One row has many there. */
  ghost predicate ManyThere(schema: Schema, a: Model, seg: Name) {
    exists b :: LeadsTo(schema, a, seg.text, b) && HasMany(a, seg.text, b)
  }

  /** A path leads from model to model. */
  ghost predicate Along(schema: Schema, a: Model, hops: Path, b: Model) {
    exists chain: seq<Model> :: |chain| == |hops| + 1 && chain[0] == a && chain[|hops|] == b && Linked(schema, chain, hops)
  }

  predicate Linked(schema: Schema, chain: seq<Model>, hops: Path)
    requires |chain| == |hops| + 1
  {
    forall i | 0 <= i < |hops| :: LeadsTo(schema, chain[i], hops[i].text, chain[i + 1])
  }

  /** The model the segment `i` of a path is read from. */
  ghost predicate ReadFrom(schema: Schema, a: Model, path: Path, i: int, owner: Model) {
    0 <= i < |path| && Along(schema, a, path[..i], owner)
  }

  /** What an `.any` over the path ranges over. */
  ghost predicate RangesOver(schema: Schema, a: Model, path: Path, owner: Model, child: Model) {
    && ReadFrom(schema, a, path, |path| - 1, owner)
    && LeadsTo(schema, owner, path[|path| - 1].text, child) && IsInverse(owner, path[|path| - 1])
  }

  // ---------- where in an unrolled predicate ----------------------------------------

  /** A place in a predicate: down the connectives, into an `.any`, through a named filter, ending at
      the `.any` itself or at a hop of a path. */
  datatype Place = AnyHere | HopAt(i: nat) | First(rest: Place) | Second(rest: Place) | Inner(rest: Place) | Through(rest: Place)

  /** A filter the predicate stands for. */
  ghost predicate Names(filters: seq<NamedFilter>, p: Pred, f: NamedFilter) {
    && (p == FilterCall(f.name) || (p.Bare? && |p.path| == 1 && p.path[0].text == f.name))
    && exists i :: IsFirst(filters, f.name, f, i)
  }

  predicate IsLeaf(p: Pred) { p.Cmp? || p.InList? || (p.Bare? && |p.path| != 1) }

  /** At that place of the predicate, read from `model`, a hop deserves the complaint. */
  ghost predicate Marks(schema: Schema, filters: seq<NamedFilter>, p: Pred, model: Model, written: string, stack: seq<string>, place: Place, d: Diag)
    decreases place
  {
    match place
    case AnyHere =>
      && p.AnyOf? && p.path != [] && d == Report(p.path[|p.path| - 1])
      && var last := |p.path| - 1;
         exists owner :: ReadFrom(schema, model, p.path, last, owner) && SelfJoin(schema, owner, p.path[last], written)
    case HopAt(i) =>
      && IsLeaf(p) && i + 1 < |p.path| && d == Report(p.path[i])
      && exists owner :: ReadFrom(schema, model, p.path, i, owner) && ManyThere(schema, owner, p.path[i]) && SelfJoin(schema, owner, p.path[i], written)
    case First(rest) =>
      || ((p.And? || p.Or?) && Marks(schema, filters, p.a, model, written, stack, rest, d))
      || (p.Not? && Marks(schema, filters, p.p, model, written, stack, rest, d))
    case Second(rest) => (p.And? || p.Or?) && Marks(schema, filters, p.b, model, written, stack, rest, d)
    case Inner(rest) =>
      && p.AnyOf? && p.pred.Some?
      && exists owner, child ::
           RangesOver(schema, model, p.path, owner, child) && Marks(schema, filters, p.pred.value, child, written, stack, rest, d)
    case Through(rest) =>
      exists f :: Names(filters, p, f) && f.name !in stack && Marks(schema, filters, f.pred, model, written, stack + [f.name], rest, d)
  }

  ghost predicate Marked(schema: Schema, filters: seq<NamedFilter>, p: Pred, model: Model, written: string, d: Diag) {
    exists place :: Marks(schema, filters, p, model, written, [], place, d)
  }

  // ---------- the walk's hops are these ---------------------------------------------

  lemma StepExactly(schema: Schema, a: Model, seg: Name)
    ensures forall b :: Step(schema, a, seg) == Some(b) <==> LeadsTo(schema, a, seg.text, b)
    ensures forall b :: Child(schema, a, seg) == Some(b) <==> LeadsTo(schema, a, seg.text, b) && IsInverse(a, seg)
  {
  }

  lemma EdgeExactly(schema: Schema, a: Model, seg: Name, written: string)
    ensures EdgeDiags(schema, a, seg, written) == (if SelfJoin(schema, a, seg, written) then [Report(seg)] else [])
    ensures IsToMany(schema, a, seg) <==> ManyThere(schema, a, seg)
  {
    StepExactly(schema, a, seg);
    var child := Child(schema, a, seg);
    if child.Some? && CustomOn(schema, a, seg) && child.value.table == written {
      assert LeadsTo(schema, a, seg.text, child.value) && CustomBack(a, seg, child.value);
    }
    if IsToMany(schema, a, seg) {
      assert LeadsTo(schema, a, seg.text, Step(schema, a, seg).value);
    }
  }

  lemma {:induction false} StepsExactly(schema: Schema, a: Model, hops: Path, b: Model)
    ensures Steps(schema, a, hops) == Some(b) <==> Along(schema, a, hops, b)
    decreases |hops|
  {
    hide LeadsTo;
    if hops == [] {
      assert Linked(schema, [a], hops);
      assert Along(schema, a, hops, a) by {
        assert [a][0] == a;
      }
    } else {
      StepExactly(schema, a, hops[0]);
      var next := Step(schema, a, hops[0]);
      if next.Some? {
        StepsExactly(schema, next.value, hops[1..], b);
        if Along(schema, next.value, hops[1..], b) {
          var rest: seq<Model> :| |rest| == |hops[1..]| + 1 && rest[0] == next.value && rest[|hops[1..]|] == b && Linked(schema, rest, hops[1..]);
          LinkedCons(schema, a, rest, hops);
          assert ([a] + rest)[0] == a && ([a] + rest)[|hops|] == b;
        }
      }
      forall chain: seq<Model> | |chain| == |hops| + 1 && chain[0] == a && chain[|hops|] == b && Linked(schema, chain, hops)
        ensures next == Some(chain[1]) && Along(schema, chain[1], hops[1..], b)
      {
        assert LeadsTo(schema, chain[0], hops[0].text, chain[1]);
        LinkedRest(schema, chain, hops);
        assert chain[1..][0] == chain[1] && chain[1..][|hops[1..]|] == b;
      }
    }
  }

  lemma LinkedCons(schema: Schema, a: Model, rest: seq<Model>, hops: Path)
    requires hops != [] && |rest| == |hops| && Linked(schema, rest, hops[1..]) && LeadsTo(schema, a, hops[0].text, rest[0])
    ensures Linked(schema, [a] + rest, hops)
  {
    hide LeadsTo;
    forall i | 0 <= i < |hops|
      ensures LeadsTo(schema, ([a] + rest)[i], hops[i].text, ([a] + rest)[i + 1])
    {
      assert i > 0 ==> hops[1..][i - 1] == hops[i];
    }
  }

  lemma LinkedRest(schema: Schema, chain: seq<Model>, hops: Path)
    requires hops != [] && |chain| == |hops| + 1 && Linked(schema, chain, hops)
    ensures Linked(schema, chain[1..], hops[1..])
  {
    hide LeadsTo;
    forall i | 0 <= i < |hops[1..]|
      ensures LeadsTo(schema, chain[1..][i], hops[1..][i].text, chain[1..][i + 1])
    {
      assert LeadsTo(schema, chain[i + 1], hops[i + 1].text, chain[i + 2]);
    }
  }

  /** The hop `i` of a leaf's path is one the walk reports. */
  predicate HopReported(schema: Schema, hops: Path, model: Model, written: string, i: nat, d: Diag) {
    && i < |hops| && d == Report(hops[i]) && Steps(schema, model, hops[..i]).Some?
    && var owner := Steps(schema, model, hops[..i]).value;
       IsToMany(schema, owner, hops[i]) && EdgeDiags(schema, owner, hops[i], written) == [d]
  }

  lemma {:induction false} HopsExactly(schema: Schema, hops: Path, model: Model, written: string, d: Diag)
    ensures d in HopDiags(schema, hops, model, written) <==> exists i :: HopReported(schema, hops, model, written, i, d)
    decreases |hops|
  {
    hide EdgeDiags, IsToMany, Step, HopReported;
    if hops != [] {
      FirstHop(schema, hops, model, written, d);
      var next := Step(schema, model, hops[0]);
      forall i: nat
        ensures HopReported(schema, hops, model, written, i + 1, d) <==>
                next.Some? && HopReported(schema, hops[1..], next.value, written, i, d)
      {
        HopLater(schema, hops, model, written, i, d);
      }
      if next.Some? {
        HopsExactly(schema, hops[1..], next.value, written, d);
      }
      if exists i :: HopReported(schema, hops, model, written, i, d) {
        var i: nat :| HopReported(schema, hops, model, written, i, d);
        if i > 0 {
          assert HopReported(schema, hops, model, written, i - 1 + 1, d);
          assert HopReported(schema, hops[1..], next.value, written, i - 1, d);
        }
      }
      if next.Some? && exists i :: HopReported(schema, hops[1..], next.value, written, i, d) {
        var i: nat :| HopReported(schema, hops[1..], next.value, written, i, d);
        assert HopReported(schema, hops, model, written, i + 1, d);
      }
    } else {
      NoHop(schema, model, written, d);
    }
  }

  lemma NoHop(schema: Schema, model: Model, written: string, d: Diag)
    ensures forall i :: !HopReported(schema, [], model, written, i, d)
  {
  }

  lemma FirstHop(schema: Schema, hops: Path, model: Model, written: string, d: Diag)
    requires hops != []
    ensures HopReported(schema, hops, model, written, 0, d) <==>
            IsToMany(schema, model, hops[0]) && d in EdgeDiags(schema, model, hops[0], written)
    ensures IsToMany(schema, model, hops[0]) ==> Step(schema, model, hops[0]).Some?
  {
    assert hops[..0] == [];
  }

  lemma HopLater(schema: Schema, hops: Path, model: Model, written: string, i: nat, d: Diag)
    requires hops != []
    ensures var next := Step(schema, model, hops[0]);
            HopReported(schema, hops, model, written, i + 1, d) <==>
            next.Some? && HopReported(schema, hops[1..], next.value, written, i, d)
  {
    hide EdgeDiags, IsToMany, Step;
    if i + 1 < |hops| {
      assert hops[..i + 1][0] == hops[0] && hops[..i + 1][1..] == hops[1..][..i];
    }
  }

  // ---------- the walk reports what is marked ---------------------------------------

  lemma AnyIsMarked(schema: Schema, filters: seq<NamedFilter>, p: Pred, model: Model, written: string, stack: seq<string>, d: Diag)
    requires p.AnyOf?
    ensures d in AnyDiags(schema, p.path, model, written) <==> Marks(schema, filters, p, model, written, stack, AnyHere, d)
  {
    hide EdgeDiags, SelfJoin, Along, Steps;
    if p.path != [] {
      var init, last := p.path[..|p.path| - 1], p.path[|p.path| - 1];
      forall owner
        ensures Steps(schema, model, init) == Some(owner) <==> ReadFrom(schema, model, p.path, |p.path| - 1, owner)
        ensures EdgeDiags(schema, owner, last, written) == if SelfJoin(schema, owner, last, written) then [Report(last)] else []
      {
        StepsExactly(schema, model, init, owner);
        EdgeExactly(schema, owner, last, written);
      }
    }
  }

  lemma LeafIsMarked(schema: Schema, filters: seq<NamedFilter>, p: Pred, model: Model, written: string, stack: seq<string>, d: Diag)
    requires IsLeaf(p)
    ensures d in LeafDiags(schema, p.path, model, written) <==> exists i :: Marks(schema, filters, p, model, written, stack, HopAt(i), d)
  {
    hide HopDiags, HopReported;
    if p.path != [] {
      var hops := p.path[..|p.path| - 1];
      HopsExactly(schema, hops, model, written, d);
      forall i
        ensures HopReported(schema, hops, model, written, i, d) <==> Marks(schema, filters, p, model, written, stack, HopAt(i), d)
      {
        HopIsMarked(schema, filters, p, model, written, stack, i, d);
      }
    }
  }

  lemma HopIsMarked(schema: Schema, filters: seq<NamedFilter>, p: Pred, model: Model, written: string, stack: seq<string>, i: nat, d: Diag)
    requires IsLeaf(p) && p.path != []
    ensures HopReported(schema, p.path[..|p.path| - 1], model, written, i, d) <==> Marks(schema, filters, p, model, written, stack, HopAt(i), d)
  {
    hide EdgeDiags, SelfJoin, ManyThere, IsToMany, Along, Steps;
    var hops := p.path[..|p.path| - 1];
    if i < |hops| {
      assert hops[..i] == p.path[..i] && hops[i] == p.path[i];
      forall owner
        ensures Steps(schema, model, hops[..i]) == Some(owner) <==> ReadFrom(schema, model, p.path, i, owner)
        ensures EdgeDiags(schema, owner, hops[i], written) == if SelfJoin(schema, owner, hops[i], written) then [Report(hops[i])] else []
        ensures IsToMany(schema, owner, hops[i]) <==> ManyThere(schema, owner, hops[i])
      {
        StepsExactly(schema, model, hops[..i], owner);
        EdgeExactly(schema, owner, hops[i], written);
      }
    }
  }

  /** The model an `.any` ranges over. */
  lemma ChildExactly(schema: Schema, model: Model, path: Path, child: Model)
    ensures AnyChild(schema, path, model) == Some(child) <==>
            exists owner :: RangesOver(schema, model, path, owner, child)
  {
    hide Along, Steps, LeadsTo, Child;
    if path != [] {
      forall owner
        ensures Steps(schema, model, path[..|path| - 1]) == Some(owner) <==> ReadFrom(schema, model, path, |path| - 1, owner)
        ensures Child(schema, owner, path[|path| - 1]) == Some(child) <==> LeadsTo(schema, owner, path[|path| - 1].text, child) && IsInverse(owner, path[|path| - 1])
      {
        StepsExactly(schema, model, path[..|path| - 1], owner);
        StepExactly(schema, owner, path[|path| - 1]);
      }
      var steps := Steps(schema, model, path[..|path| - 1]);
      assert AnyChild(schema, path, model) == Some(child) ==> RangesOver(schema, model, path, steps.value, child);
      if owner :| RangesOver(schema, model, path, owner, child) {
        assert steps == Some(owner);
      }
    }
  }

  /** The first filter of a name. */
  ghost predicate IsFirst(filters: seq<NamedFilter>, name: string, f: NamedFilter, i: nat) {
    i < |filters| && filters[i] == f && f.name == name && forall j | 0 <= j < i :: filters[j].name != name
  }

  lemma FirstLater(filters: seq<NamedFilter>, name: string, f: NamedFilter, i: nat)
    requires filters != [] && filters[0].name != name
    ensures IsFirst(filters, name, f, i + 1) <==> IsFirst(filters[1..], name, f, i)
  {
    if IsFirst(filters[1..], name, f, i) {
      assert forall j | 1 <= j < i + 1 :: filters[j] == filters[1..][j - 1];
    }
    if IsFirst(filters, name, f, i + 1) {
      assert forall j | 0 <= j < i :: filters[1..][j] == filters[j + 1];
    }
  }

  lemma {:induction false} FoundExactly(filters: seq<NamedFilter>, name: string, f: NamedFilter)
    ensures FindFilter(filters, name) == Some(f) <==> exists i :: IsFirst(filters, name, f, i)
  {
    if filters != [] && filters[0].name != name {
      FoundExactly(filters[1..], name, f);
      if FindFilter(filters, name) == Some(f) {
        var i: nat :| IsFirst(filters[1..], name, f, i);
        FirstLater(filters, name, f, i);
      }
      if i: nat :| IsFirst(filters, name, f, i) {
        FirstLater(filters, name, f, i - 1);
      }
    } else if filters != [] && filters[0] == f && f.name == name {
      assert IsFirst(filters, name, f, 0);
    }
  }

  /** Everything reported is marked, filters recurring or not. */
  lemma {:induction false} ReportedIsMarked(schema: Schema, filters: seq<NamedFilter>, p: Pred, model: Model, written: string, stack: seq<string>, d: Diag)
    returns (place: Place)
    requires d in PredDiags(schema, filters, p, model, written, stack)
    ensures Marks(schema, filters, p, model, written, stack, place, d)
    decreases |FilterNames(filters) - Elements(stack)|, 1, p
  {
    hide AnyDiags, AnyChild, LeafDiags, FilterNames, Elements, ReadFrom, RangesOver, LeadsTo, SelfJoin, ManyThere;
    match p
    case And(a, b) =>
      if d in PredDiags(schema, filters, a, model, written, stack) {
        place := ReportedIsMarked(schema, filters, a, model, written, stack, d);
        place := First(place);
      } else {
        place := ReportedIsMarked(schema, filters, b, model, written, stack, d);
        place := Second(place);
      }
    case Or(a, b) =>
      if d in PredDiags(schema, filters, a, model, written, stack) {
        place := ReportedIsMarked(schema, filters, a, model, written, stack, d);
        place := First(place);
      } else {
        place := ReportedIsMarked(schema, filters, b, model, written, stack, d);
        place := Second(place);
      }
    case Not(inner) =>
      place := ReportedIsMarked(schema, filters, inner, model, written, stack, d);
      place := First(place);
    case AnyOf(path, inner) =>
      if d in AnyDiags(schema, path, model, written) {
        AnyIsMarked(schema, filters, p, model, written, stack, d);
        place := AnyHere;
      } else {
        var child := AnyChild(schema, path, model).value;
        place := ReportedIsMarked(schema, filters, inner.value, child, written, stack, d);
        ChildExactly(schema, model, path, child);
        place := Inner(place);
      }
    case FilterCall(name) => place := FilterIsMarked(schema, filters, p, name, model, written, stack, d);
    case Bare(path) =>
      if |path| == 1 {
        place := FilterIsMarked(schema, filters, p, path[0].text, model, written, stack, d);
      } else {
        LeafIsMarked(schema, filters, p, model, written, stack, d);
        var i :| Marks(schema, filters, p, model, written, stack, HopAt(i), d);
        place := HopAt(i);
      }
    case Cmp(_) =>
      LeafIsMarked(schema, filters, p, model, written, stack, d);
      var i :| Marks(schema, filters, p, model, written, stack, HopAt(i), d);
      place := HopAt(i);
    case InList(_) =>
      LeafIsMarked(schema, filters, p, model, written, stack, d);
      var i :| Marks(schema, filters, p, model, written, stack, HopAt(i), d);
      place := HopAt(i);
    case RawPred =>
  }

  lemma {:induction false} FilterIsMarked(schema: Schema, filters: seq<NamedFilter>, p: Pred, name: string, model: Model, written: string, stack: seq<string>, d: Diag)
    returns (place: Place)
    requires p == FilterCall(name) || (p.Bare? && |p.path| == 1 && p.path[0].text == name)
    requires d in FilterDiags(schema, filters, name, model, written, stack)
    ensures Marks(schema, filters, p, model, written, stack, place, d)
    decreases |FilterNames(filters) - Elements(stack)|, 0
  {
    hide PredDiags, Elements;
    var f := FindFilter(filters, name).value;
    FoundExactly(filters, name, f);
    assert name in FilterNames(filters);
    Pushing(filters, name, stack);
    hide FilterNames;
    place := ReportedIsMarked(schema, filters, f.pred, model, written, stack + [name], d);
    place := Through(place);
  }

  /** Everything marked is reported. */
  lemma {:induction false} MarkedIsReported(schema: Schema, filters: seq<NamedFilter>, p: Pred, model: Model, written: string,
                                            stack: seq<string>, place: Place, d: Diag)
    requires Marks(schema, filters, p, model, written, stack, place, d)
    ensures d in PredDiags(schema, filters, p, model, written, stack)
    decreases place
  {
    hide AnyDiags, AnyChild, LeafDiags, FilterNames, Elements, ReadFrom, RangesOver, LeadsTo, SelfJoin, ManyThere;
    match place
    case AnyHere => AnyIsMarked(schema, filters, p, model, written, stack, d);
    case HopAt(i) => LeafIsMarked(schema, filters, p, model, written, stack, d);
    case First(rest) =>
      if p.Not? {
        MarkedIsReported(schema, filters, p.p, model, written, stack, rest, d);
      } else {
        MarkedIsReported(schema, filters, p.a, model, written, stack, rest, d);
      }
    case Second(rest) => MarkedIsReported(schema, filters, p.b, model, written, stack, rest, d);
    case Inner(rest) =>
      var owner, child :| RangesOver(schema, model, p.path, owner, child) && Marks(schema, filters, p.pred.value, child, written, stack, rest, d);
      ChildExactly(schema, model, p.path, child);
      MarkedIsReported(schema, filters, p.pred.value, child, written, stack, rest, d);
    case Through(rest) =>
      var f :| Names(filters, p, f) && f.name !in stack && Marks(schema, filters, f.pred, model, written, stack + [f.name], rest, d);
      FoundExactly(filters, f.name, f);
      MarkedIsReported(schema, filters, f.pred, model, written, stack + [f.name], rest, d);
  }

  // ---------- the whole check -------------------------------------------------------

  /** The statement, or one inside it, writes the model where the predicate holds. */
  ghost predicate StmtWrites(w: WriteStmt, model: string, p: Pred)
    decreases w, 0
  {
    match w
    case Update(m, where) => m == model && where == p
    case Restore(m, where) => m == model && where == p
    case Delete(m, filter) => m == model && filter == Some(p)
    case HardDelete(m, filter) => m == model && filter == Some(p)
    case Tx(body) => BodyWrites(body, model, p)
    case _ => false
  }

  ghost predicate BodyWrites(body: seq<WriteStmt>, model: string, p: Pred)
    decreases body, 1
  {
    exists i :: 0 <= i < |body| && StmtWrites(body[i], model, p)
  }

  /** A write of the model where the predicate holds deserves the complaint. */
  ghost predicate Deserved(schema: Schema, filters: seq<NamedFilter>, model: string, p: Pred, d: Diag) {
    model in schema && Marked(schema, filters, p, schema[model], schema[model].table, d)
  }

  lemma WhereExactly(schema: Schema, filters: seq<NamedFilter>, model: string, p: Pred, d: Diag)
    ensures d in WhereDiags(schema, filters, model, Some(p)) <==> Deserved(schema, filters, model, p, d)
  {
    hide PredDiags, Marks;
    if model in schema {
      var m := schema[model];
      if d in PredDiags(schema, filters, p, m, m.table, []) {
        var place := ReportedIsMarked(schema, filters, p, m, m.table, [], d);
      }
      if Marked(schema, filters, p, m, m.table, d) {
        var place :| Marks(schema, filters, p, m, m.table, [], place, d);
        MarkedIsReported(schema, filters, p, m, m.table, [], place, d);
      }
    }
  }

  lemma {:induction false} StmtExactly(schema: Schema, filters: seq<NamedFilter>, w: WriteStmt, d: Diag)
    ensures d in StmtDiags(schema, filters, w) <==> exists model, p :: StmtWrites(w, model, p) && Deserved(schema, filters, model, p, d)
    decreases w, 0
  {
    hide WhereDiags, Deserved;
    match w
    case Update(m, where) => WhereExactly(schema, filters, m, where, d); assert StmtWrites(w, m, where);
    case Restore(m, where) => WhereExactly(schema, filters, m, where, d); assert StmtWrites(w, m, where);
    case Delete(m, filter) => OptionalExactly(schema, filters, w, m, filter, d);
    case HardDelete(m, filter) => OptionalExactly(schema, filters, w, m, filter, d);
    case Tx(body) =>
      BodyExactly(schema, filters, body, d);
      assert forall model, p :: StmtWrites(w, model, p) <==> BodyWrites(body, model, p);
    case _ =>
  }

  lemma OptionalExactly(schema: Schema, filters: seq<NamedFilter>, w: WriteStmt, m: string, filter: Option<Pred>, d: Diag)
    requires w == Delete(m, filter) || w == HardDelete(m, filter)
    ensures d in WhereDiags(schema, filters, m, filter) <==> exists model, p :: StmtWrites(w, model, p) && Deserved(schema, filters, model, p, d)
  {
    hide Deserved;
    if filter.Some? {
      WhereExactly(schema, filters, m, filter.value, d);
      assert StmtWrites(w, m, filter.value);
    }
  }

  lemma {:induction false} BodyExactly(schema: Schema, filters: seq<NamedFilter>, body: seq<WriteStmt>, d: Diag)
    ensures d in WriteDiags(schema, filters, body) <==> exists model, p :: BodyWrites(body, model, p) && Deserved(schema, filters, model, p, d)
    decreases body, 1
  {
    hide StmtDiags, Deserved, StmtWrites;
    if body != [] {
      StmtExactly(schema, filters, body[0], d);
      BodyExactly(schema, filters, body[1..], d);
      forall model, p
        ensures BodyWrites(body, model, p) <==> StmtWrites(body[0], model, p) || BodyWrites(body[1..], model, p)
      {
        BodyCons(body, model, p);
      }
    }
  }

  lemma BodyCons(body: seq<WriteStmt>, model: string, p: Pred)
    requires body != []
    ensures BodyWrites(body, model, p) <==> StmtWrites(body[0], model, p) || BodyWrites(body[1..], model, p)
  {
    hide StmtWrites;
    if i :| 0 <= i < |body[1..]| && StmtWrites(body[1..][i], model, p) {
      assert body[i + 1] == body[1..][i];
    }
    if i :| 0 < i < |body| && StmtWrites(body[i], model, p) {
      assert body[1..][i - 1] == body[i];
    }
  }

  lemma {:induction false} MutationsExactly(schema: Schema, filters: seq<NamedFilter>, mutations: seq<seq<WriteStmt>>, d: Diag)
    ensures d in MutationDiags(schema, filters, mutations) <==>
            exists body, model, p :: body in mutations && BodyWrites(body, model, p) && Deserved(schema, filters, model, p, d)
  {
    hide WriteDiags, Deserved, BodyWrites;
    if mutations != [] {
      BodyExactly(schema, filters, mutations[0], d);
      MutationsExactly(schema, filters, mutations[1..], d);
      assert forall body :: body in mutations <==> body == mutations[0] || body in mutations[1..];
    }
  }

  /** A project is complained of exactly for the writes, in transactions or not, whose unrolled
      predicate has a hop that deserves it; and never outside the MySQL family. */
  lemma CheckExactly(schema: Schema, filters: seq<NamedFilter>, mutations: seq<seq<WriteStmt>>, dialect: Dialect, d: Diag)
    ensures d in AnyWriteDiagnostics(schema, filters, mutations, dialect) <==>
            && dialect in {MySql, MariaDb}
            && exists body, model, p :: body in mutations && BodyWrites(body, model, p) && Deserved(schema, filters, model, p, d)
  {
    MutationsExactly(schema, filters, mutations, d);
  }
}
