/** The check of `.any` in writes: named filters are expanded while the predicate is walked. */
module FilterWalk {
  import opened Wrappers
  import opened Sequences
  import opened Schemas
  import opened Dialects

  type Path = seq<Name>

  datatype Pred =
    | And(a: Pred, b: Pred)
    | Or(a: Pred, b: Pred)
    | Not(p: Pred)
    | AnyOf(path: Path, pred: Option<Pred>)
    | FilterCall(name: string)
    | Bare(path: Path)
    | Cmp(path: Path)
    | InList(path: Path)
    | RawPred

  datatype NamedFilter = NamedFilter(name: string, pred: Pred)

  datatype WriteStmt =
    | Create
    | Update(model: string, where: Pred)
    | Restore(model: string, where: Pred)
    | Delete(model: string, filter: Option<Pred>)
    | HardDelete(model: string, filter: Option<Pred>)
    | Tx(body: seq<WriteStmt>)
    | RawWrite

  /** The first filter of a name. */
  function FindFilter(filters: seq<NamedFilter>, name: string): (f: Option<NamedFilter>)
    ensures f.Some? ==> f.value in filters && f.value.name == name
  {
    if filters == [] then None
    else if filters[0].name == name then Some(filters[0])
    else FindFilter(filters[1..], name)
  }

  // ---------- paths -----------------------------------------------------------------

  function Step(schema: Schema, model: Model, seg: Name): Option<Model> {
    match model.Find(seg.text)
    case None => None
    case Some(member) =>
      match member.kind.Target() case None => None case Some(target) => FindModel(schema, target)
  }

  function Steps(schema: Schema, model: Model, hops: Path): Option<Model>
    decreases |hops|
  {
    if hops == [] then Some(model)
    else match Step(schema, model, hops[0])
      case None => None
      case Some(next) => Steps(schema, next, hops[1..])
  }

  /** The model the inverse edge `last` of `model` ranges over. */
  function Child(schema: Schema, model: Model, last: Name): Option<Model> {
    match model.Find(last.text)
    case None => None
    case Some(member) => if member.kind.Inverse? then FindModel(schema, member.kind.target) else None
  }

  predicate CustomOn(schema: Schema, model: Model, last: Name)
    requires Child(schema, model, last).Some?
  {
    var back := Child(schema, model, last).value.Find(model.Find(last.text).value.kind.via);
    back.Some? && back.value.kind.Forward? && back.value.kind.customOn
  }

  /** An edge is reported when its join is custom and leads to the table being written. */
  function EdgeDiags(schema: Schema, model: Model, last: Name, written: string): seq<Diag> {
    var child := Child(schema, model, last);
    if child.Some? && CustomOn(schema, model, last) && child.value.table == written then [Report(last)] else []
  }

  function Owner(schema: Schema, model: Model, path: Path): Option<Model> {
    if path == [] then None else Steps(schema, model, path[..|path| - 1])
  }

  function AnyDiags(schema: Schema, path: Path, model: Model, written: string): seq<Diag> {
    match Owner(schema, model, path) case None => [] case Some(owner) => EdgeDiags(schema, owner, path[|path| - 1], written)
  }

  function AnyChild(schema: Schema, path: Path, model: Model): Option<Model> {
    match Owner(schema, model, path) case None => None case Some(owner) => Child(schema, owner, path[|path| - 1])
  }

  predicate IsToMany(schema: Schema, model: Model, seg: Name) {
    var member := model.Find(seg.text);
    && member.Some? && member.value.kind.Inverse? && Step(schema, model, seg).Some?
    && !Step(schema, model, seg).value.IsUnique(member.value.kind.via)
  }

  /** Every to-many hop of a path is an implicit `.any`. */
  function HopDiags(schema: Schema, hops: Path, model: Model, written: string): seq<Diag>
    decreases |hops|
  {
    if hops == [] then []
    else match Step(schema, model, hops[0])
      case None => []
      case Some(next) =>
        (if IsToMany(schema, model, hops[0]) then EdgeDiags(schema, model, hops[0], written) else [])
        + HopDiags(schema, hops[1..], next, written)
  }

  function LeafDiags(schema: Schema, path: Path, model: Model, written: string): seq<Diag> {
    if path == [] then [] else HopDiags(schema, path[..|path| - 1], model, written)
  }

  // ---------- predicates ------------------------------------------------------------

  function FilterNames(filters: seq<NamedFilter>): set<string> { set f | f in filters :: f.name }

  /** What the walk reports of a predicate; a filter being expanded is not expanded again. */
  function PredDiags(schema: Schema, filters: seq<NamedFilter>, p: Pred, model: Model, written: string, stack: seq<string>): seq<Diag>
    decreases |FilterNames(filters) - Elements(stack)|, 1, p
  {
    match p
    case And(a, b) => PredDiags(schema, filters, a, model, written, stack) + PredDiags(schema, filters, b, model, written, stack)
    case Or(a, b) => PredDiags(schema, filters, a, model, written, stack) + PredDiags(schema, filters, b, model, written, stack)
    case Not(inner) => PredDiags(schema, filters, inner, model, written, stack)
    case AnyOf(path, inner) =>
      AnyDiags(schema, path, model, written)
      + (match (AnyChild(schema, path, model), inner)
         case (Some(child), Some(q)) => PredDiags(schema, filters, q, child, written, stack)
         case _ => [])
    case FilterCall(name) => FilterDiags(schema, filters, name, model, written, stack)
    case Bare(path) => if |path| == 1 then FilterDiags(schema, filters, path[0].text, model, written, stack) else LeafDiags(schema, path, model, written)
    case Cmp(path) => LeafDiags(schema, path, model, written)
    case InList(path) => LeafDiags(schema, path, model, written)
    case RawPred => []
  }

  function FilterDiags(schema: Schema, filters: seq<NamedFilter>, name: string, model: Model, written: string, stack: seq<string>): seq<Diag>
    decreases |FilterNames(filters) - Elements(stack)|, 0
  {
    match FindFilter(filters, name)
    case None => []
    case Some(f) =>
      if name in stack then []
      else
        Pushing(filters, name, stack);
        PredDiags(schema, filters, f.pred, model, written, stack + [name])
  }

  lemma Pushing(filters: seq<NamedFilter>, name: string, stack: seq<string>)
    requires name in FilterNames(filters) && name !in stack
    ensures |FilterNames(filters) - Elements(stack + [name])| < |FilterNames(filters) - Elements(stack)|
  {
    var left := FilterNames(filters) - Elements(stack);
    assert forall s :: s in stack + [name] <==> s in stack || s == name;
    assert FilterNames(filters) - Elements(stack + [name]) == left - {name};
  }

  // ---------- writes ----------------------------------------------------------------

  function WhereDiags(schema: Schema, filters: seq<NamedFilter>, model: string, where: Option<Pred>): seq<Diag> {
    match (FindModel(schema, model), where)
    case (Some(m), Some(p)) => PredDiags(schema, filters, p, m, m.table, [])
    case _ => []
  }

  function WriteDiags(schema: Schema, filters: seq<NamedFilter>, body: seq<WriteStmt>): seq<Diag>
    decreases body
  {
    if body == [] then [] else StmtDiags(schema, filters, body[0]) + WriteDiags(schema, filters, body[1..])
  }

  function StmtDiags(schema: Schema, filters: seq<NamedFilter>, w: WriteStmt): seq<Diag>
    decreases w
  {
    match w
    case Update(model, where) => WhereDiags(schema, filters, model, Some(where))
    case Restore(model, where) => WhereDiags(schema, filters, model, Some(where))
    case Delete(model, filter) => WhereDiags(schema, filters, model, filter)
    case HardDelete(model, filter) => WhereDiags(schema, filters, model, filter)
    case Tx(inner) => WriteDiags(schema, filters, inner)
    case Create => []
    case RawWrite => []
  }

  function MutationDiags(schema: Schema, filters: seq<NamedFilter>, mutations: seq<seq<WriteStmt>>): seq<Diag> {
    if mutations == [] then []
    else WriteDiags(schema, filters, mutations[0]) + MutationDiags(schema, filters, mutations[1..])
  }

  function AnyWriteDiagnostics(schema: Schema, filters: seq<NamedFilter>, mutations: seq<seq<WriteStmt>>, dialect: Dialect): seq<Diag> {
    if !dialect.IsMySqlFamily() then [] else MutationDiags(schema, filters, mutations)
  }

  // ---------- the walker ------------------------------------------------------------

  class Walker {
    const schema: Schema
    const filters: seq<NamedFilter>
    var diags: seq<Diag>
    var inFilters: seq<string>

    constructor (schema: Schema, filters: seq<NamedFilter>)
      ensures this.schema == schema && this.filters == filters && diags == [] && inFilters == []
    {
      this.schema, this.filters, diags, inFilters := schema, filters, [], [];
    }

    method AnyEdge(path: Path, model: Model, written: string) returns (child: Option<Model>)
      modifies this`diags
      ensures child == AnyChild(schema, path, model)
      ensures diags == old(diags) + AnyDiags(schema, path, model, written)
    {
      if path == [] {
        return None;
      }
      var last := path[|path| - 1];
      var hops := path[..|path| - 1];
      var cur := model;
      var i := 0;
      assert hops[0..] == hops;
      while i < |hops|
        invariant i <= |hops| && diags == old(diags) && Steps(schema, cur, hops[i..]) == Steps(schema, model, hops)
      {
        var next := Step(schema, cur, hops[i]);
        if next.None? {
          return None;
        }
        assert hops[i..][1..] == hops[i + 1..];
        cur := next.value;
        i := i + 1;
      }
      child := Child(schema, cur, last);
      if child.Some? && CustomOn(schema, cur, last) && child.value.table == written {
        diags := diags + [Report(last)];
      }
    }

    method Leaf(path: Path, model: Model, written: string)
      modifies this`diags
      ensures diags == old(diags) + LeafDiags(schema, path, model, written)
    {
      if path == [] {
        return;
      }
      var hops := path[..|path| - 1];
      var cur := model;
      var i := 0;
      assert hops[0..] == hops;
      while i < |hops|
        invariant i <= |hops|
        invariant diags + HopDiags(schema, hops[i..], cur, written) == old(diags) + LeafDiags(schema, path, model, written)
      {
        assert hops[i..][1..] == hops[i + 1..];
        var next := Step(schema, cur, hops[i]);
        if next.None? {
          return;
        }
        if IsToMany(schema, cur, hops[i]) {
          OneHop(hops[i], cur, written);
          var _ := AnyEdge([hops[i]], cur, written);
        }
        cur := next.value;
        i := i + 1;
      }
    }

    lemma OneHop(seg: Name, model: Model, written: string)
      ensures AnyDiags(schema, [seg], model, written) == EdgeDiags(schema, model, seg, written)
    {
      assert [seg][..0] == [];
    }

    method Walk(p: Pred, model: Model, written: string)
      modifies this
      ensures inFilters == old(inFilters)
      ensures diags == old(diags) + PredDiags(schema, filters, p, model, written, inFilters)
      decreases |FilterNames(filters) - Elements(inFilters)|, 1, p
    {
      hide AnyDiags, AnyChild, LeafDiags, FilterDiags, FilterNames, Elements;
      match p {
        case And(a, b) => Walk(a, model, written); Walk(b, model, written);
        case Or(a, b) => Walk(a, model, written); Walk(b, model, written);
        case Not(inner) => Walk(inner, model, written);
        case AnyOf(path, inner) =>
          var child := AnyEdge(path, model, written);
          if child.Some? && inner.Some? {
            Walk(inner.value, child.value, written);
          }
        case FilterCall(name) => Filter(name, model, written);
        case Bare(path) =>
          if |path| == 1 {
            Filter(path[0].text, model, written);
          } else {
            Leaf(path, model, written);
          }
        case Cmp(path) => Leaf(path, model, written);
        case InList(path) => Leaf(path, model, written);
        case RawPred =>
      }
    }

    method Filter(name: string, model: Model, written: string)
      modifies this
      ensures inFilters == old(inFilters)
      ensures diags == old(diags) + FilterDiags(schema, filters, name, model, written, inFilters)
      decreases |FilterNames(filters) - Elements(inFilters)|, 0
    {
      hide PredDiags;
      var f := FindFilter(filters, name);
      if f.None? || name in inFilters {
        return;
      }
      ghost var outer := inFilters;
      Pushing(filters, name, inFilters);
      inFilters := inFilters + [name];
      Walk(f.value.pred, model, written);
      inFilters := inFilters[..|inFilters| - 1];
      assert inFilters == outer;
    }

    method Where(model: string, where: Option<Pred>)
      requires inFilters == []
      modifies this
      ensures inFilters == [] && diags == old(diags) + WhereDiags(schema, filters, model, where)
    {
      hide PredDiags;
      var m := FindModel(schema, model);
      if m.Some? && where.Some? {
        Walk(where.value, m.value, m.value.table);
      }
    }

    method Writes(body: seq<WriteStmt>)
      requires inFilters == []
      modifies this
      ensures inFilters == [] && diags == old(diags) + WriteDiags(schema, filters, body)
      decreases body
    {
      hide StmtDiags;
      var i := 0;
      assert body[0..] == body;
      while i < |body|
        invariant i <= |body| && inFilters == []
        invariant diags + WriteDiags(schema, filters, body[i..]) == old(diags) + WriteDiags(schema, filters, body)
      {
        assert body[i..][1..] == body[i + 1..] && body[i..][0] == body[i];
        Write(body[i]);
        i := i + 1;
      }
    }

    method Write(w: WriteStmt)
      requires inFilters == []
      modifies this
      ensures inFilters == [] && diags == old(diags) + StmtDiags(schema, filters, w)
      decreases w
    {
      hide WhereDiags, WriteDiags;
      match w {
        case Update(model, where) => Where(model, Some(where));
        case Restore(model, where) => Where(model, Some(where));
        case Delete(model, filter) => Where(model, filter);
        case HardDelete(model, filter) => Where(model, filter);
        case Tx(inner) => Writes(inner);
        case Create =>
        case RawWrite =>
      }
    }
  }

  method Check(schema: Schema, filters: seq<NamedFilter>, mutations: seq<seq<WriteStmt>>, dialect: Dialect) returns (diags: seq<Diag>)
    ensures diags == AnyWriteDiagnostics(schema, filters, mutations, dialect)
  {
    if !dialect.IsMySqlFamily() {
      return [];
    }
    hide WriteDiags;
    var walker := new Walker(schema, filters);
    var i := 0;
    assert mutations[0..] == mutations;
    while i < |mutations|
      invariant i <= |mutations| && walker.inFilters == [] && walker.schema == schema && walker.filters == filters
      invariant walker.diags + MutationDiags(schema, filters, mutations[i..]) == MutationDiags(schema, filters, mutations)
    {
      assert mutations[i..][1..] == mutations[i + 1..];
      walker.Writes(mutations[i]);
      i := i + 1;
    }
    diags := walker.diags;
  }

  // ---------- expanding first -------------------------------------------------------

  /** The filters a predicate names. */
  function Mentions(p: Pred): set<string> {
    match p
    case And(a, b) => Mentions(a) + Mentions(b)
    case Or(a, b) => Mentions(a) + Mentions(b)
    case Not(inner) => Mentions(inner)
    case AnyOf(_, inner) => (match inner case None => {} case Some(q) => Mentions(q))
    case FilterCall(name) => {name}
    case Bare(path) => if |path| == 1 then {path[0].text} else {}
    case _ => {}
  }

  type Ranks = map<string, nat>

  /** Every filter a predicate names that exists has a rank below `r`. */
  predicate Below(filters: seq<NamedFilter>, ranks: Ranks, p: Pred, r: nat) {
    forall n | n in Mentions(p) && FindFilter(filters, n).Some? :: n in ranks && ranks[n] < r
  }

  /** No filter leads back to itself: each names only lower ones. */
  predicate Ranked(filters: seq<NamedFilter>, ranks: Ranks) {
    forall f | f in filters && FindFilter(filters, f.name) == Some(f) :: f.name in ranks && Below(filters, ranks, f.pred, ranks[f.name])
  }

  /** The predicate with every filter replaced by what it stands for. */
  function Expand(filters: seq<NamedFilter>, ranks: Ranks, p: Pred, r: nat): Pred
    requires Ranked(filters, ranks) && Below(filters, ranks, p, r)
    decreases r, p
  {
    match p
    case And(a, b) => And(Expand(filters, ranks, a, r), Expand(filters, ranks, b, r))
    case Or(a, b) => Or(Expand(filters, ranks, a, r), Expand(filters, ranks, b, r))
    case Not(inner) => Not(Expand(filters, ranks, inner, r))
    case AnyOf(path, inner) => AnyOf(path, match inner case None => None case Some(q) => Some(Expand(filters, ranks, q, r)))
    case FilterCall(name) =>
      (match FindFilter(filters, name) case None => p case Some(f) => Expand(filters, ranks, f.pred, ranks[name]))
    case Bare(path) =>
      if |path| != 1 then p
      else (match FindFilter(filters, path[0].text) case None => p case Some(f) => Expand(filters, ranks, f.pred, ranks[path[0].text]))
    case _ => p
  }

  /** Every name still under expansion ranks at or above `r`. */
  predicate Above(ranks: Ranks, stack: seq<string>, r: nat) {
    forall s | s in stack :: s in ranks && ranks[s] >= r
  }

  /** Expanding on the fly reports what the fully expanded predicate reports on its own. */
  lemma {:induction false} OnTheFly(schema: Schema, filters: seq<NamedFilter>, ranks: Ranks, p: Pred, r: nat, model: Model, written: string, stack: seq<string>)
    requires Ranked(filters, ranks) && Below(filters, ranks, p, r) && Above(ranks, stack, r)
    ensures PredDiags(schema, filters, p, model, written, stack)
         == PredDiags(schema, [], Expand(filters, ranks, p, r), model, written, [])
    decreases r, 1, p
  {
    hide AnyDiags, AnyChild, LeafDiags, FilterNames, Elements;
    match p
    case And(a, b) =>
      OnTheFly(schema, filters, ranks, a, r, model, written, stack);
      OnTheFly(schema, filters, ranks, b, r, model, written, stack);
    case Or(a, b) =>
      OnTheFly(schema, filters, ranks, a, r, model, written, stack);
      OnTheFly(schema, filters, ranks, b, r, model, written, stack);
    case Not(inner) => OnTheFly(schema, filters, ranks, inner, r, model, written, stack);
    case AnyOf(path, inner) =>
      var child := AnyChild(schema, path, model);
      if inner.Some? && child.Some? {
        OnTheFly(schema, filters, ranks, inner.value, r, child.value, written, stack);
      }
    case FilterCall(name) => FilterOnTheFly(schema, filters, ranks, p, name, r, model, written, stack);
    case Bare(path) =>
      if |path| == 1 {
        FilterOnTheFly(schema, filters, ranks, p, path[0].text, r, model, written, stack);
      }
    case _ =>
  }

  lemma {:induction false} FilterOnTheFly(schema: Schema, filters: seq<NamedFilter>, ranks: Ranks, p: Pred, name: string, r: nat, model: Model, written: string, stack: seq<string>)
    requires Ranked(filters, ranks) && Below(filters, ranks, p, r) && Above(ranks, stack, r)
    requires p == FilterCall(name) || (p.Bare? && |p.path| == 1 && p.path[0].text == name)
    ensures FilterDiags(schema, filters, name, model, written, stack)
         == PredDiags(schema, [], Expand(filters, ranks, p, r), model, written, [])
    decreases r, 0
  {
    hide AnyDiags, AnyChild, LeafDiags, FilterNames, Elements;
    var f := FindFilter(filters, name);
    if f.Some? {
      OnTheFly(schema, filters, ranks, f.value.pred, ranks[name], model, written, stack + [name]);
    } else {
      assert FindFilter([], name) == None;
    }
  }

  predicate AllBelow(ranks: Ranks, r: nat) { forall n | n in ranks :: ranks[n] < r }

  lemma EverythingBelow(filters: seq<NamedFilter>, ranks: Ranks, p: Pred, r: nat)
    requires Ranked(filters, ranks) && AllBelow(ranks, r)
    ensures Below(filters, ranks, p, r)
  {
    forall n | n in Mentions(p) && FindFilter(filters, n).Some?
      ensures n in ranks && ranks[n] < r
    {
      FoundIsFirst(filters, n);
    }
  }

  lemma FoundIsFirst(filters: seq<NamedFilter>, name: string)
    requires FindFilter(filters, name).Some?
    ensures FindFilter(filters, FindFilter(filters, name).value.name) == FindFilter(filters, name)
  {
  }

  function ExpandWhere(filters: seq<NamedFilter>, ranks: Ranks, p: Pred, r: nat): Pred
    requires Ranked(filters, ranks) && AllBelow(ranks, r)
  {
    EverythingBelow(filters, ranks, p, r);
    Expand(filters, ranks, p, r)
  }

  function ExpandOptional(filters: seq<NamedFilter>, ranks: Ranks, p: Option<Pred>, r: nat): Option<Pred>
    requires Ranked(filters, ranks) && AllBelow(ranks, r)
  {
    if p.None? then None else Some(ExpandWhere(filters, ranks, p.value, r))
  }

  /** The writes with every filter expanded beforehand. */
  function ExpandWrites(filters: seq<NamedFilter>, ranks: Ranks, body: seq<WriteStmt>, r: nat): seq<WriteStmt>
    requires Ranked(filters, ranks) && AllBelow(ranks, r)
    decreases body
  {
    if body == [] then []
    else
      [match body[0]
       case Update(model, where) => Update(model, ExpandWhere(filters, ranks, where, r))
       case Restore(model, where) => Restore(model, ExpandWhere(filters, ranks, where, r))
       case Delete(model, filter) => Delete(model, ExpandOptional(filters, ranks, filter, r))
       case HardDelete(model, filter) => HardDelete(model, ExpandOptional(filters, ranks, filter, r))
       case Tx(inner) => Tx(ExpandWrites(filters, ranks, inner, r))
       case _ => body[0]]
      + ExpandWrites(filters, ranks, body[1..], r)
  }

  lemma WhereExpanded(schema: Schema, filters: seq<NamedFilter>, ranks: Ranks, model: string, where: Option<Pred>, r: nat)
    requires Ranked(filters, ranks) && AllBelow(ranks, r)
    ensures WhereDiags(schema, filters, model, where) == WhereDiags(schema, [], model, ExpandOptional(filters, ranks, where, r))
  {
    var m := FindModel(schema, model);
    if where.Some? && m.Some? {
      EverythingBelow(filters, ranks, where.value, r);
      OnTheFly(schema, filters, ranks, where.value, r, m.value, m.value.table, []);
    }
  }

  lemma {:induction false} WritesExpanded(schema: Schema, filters: seq<NamedFilter>, ranks: Ranks, body: seq<WriteStmt>, r: nat)
    requires Ranked(filters, ranks) && AllBelow(ranks, r)
    ensures WriteDiags(schema, filters, body) == WriteDiags(schema, [], ExpandWrites(filters, ranks, body, r))
    decreases body
  {
    hide Ranked, AllBelow, WhereDiags;
    if body != [] {
      WritesExpanded(schema, filters, ranks, body[1..], r);
      match body[0]
      case Update(model, where) => WhereExpanded(schema, filters, ranks, model, Some(where), r);
      case Restore(model, where) => WhereExpanded(schema, filters, ranks, model, Some(where), r);
      case Delete(model, filter) => WhereExpanded(schema, filters, ranks, model, filter, r);
      case HardDelete(model, filter) => WhereExpanded(schema, filters, ranks, model, filter, r);
      case Tx(inner) => WritesExpanded(schema, filters, ranks, inner, r);
      case _ =>
    }
  }

  function ExpandMutations(filters: seq<NamedFilter>, ranks: Ranks, mutations: seq<seq<WriteStmt>>, r: nat): seq<seq<WriteStmt>>
    requires Ranked(filters, ranks) && AllBelow(ranks, r)
  {
    if mutations == [] then []
    else [ExpandWrites(filters, ranks, mutations[0], r)] + ExpandMutations(filters, ranks, mutations[1..], r)
  }

  /** For filters that do not recur, the check equals the check of the project without filters. */
  lemma {:induction false} FiltersAreMacros(schema: Schema, filters: seq<NamedFilter>, ranks: Ranks, mutations: seq<seq<WriteStmt>>, r: nat, dialect: Dialect)
    requires Ranked(filters, ranks) && AllBelow(ranks, r)
    ensures AnyWriteDiagnostics(schema, filters, mutations, dialect)
         == AnyWriteDiagnostics(schema, [], ExpandMutations(filters, ranks, mutations, r), dialect)
  {
    hide Ranked, AllBelow, WriteDiags, ExpandWrites;
    if mutations != [] {
      FiltersAreMacros(schema, filters, ranks, mutations[1..], r, dialect);
      WritesExpanded(schema, filters, ranks, mutations[0], r);
    }
  }
}
