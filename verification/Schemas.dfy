/** The checked schema the code generator's walks read. */
module Schemas {
  import opened Wrappers

  datatype Kind = Inverse(target: string, via: string) | Forward(target: string, customOn: bool) | Scalar
  {
    function Target(): Option<string> { if Scalar? then None else Some(target) }
  }

  datatype Member = Member(kind: Kind, sorted: bool)

  datatype Model = Model(table: string, members: map<string, Member>, sorted: bool, uniques: set<string>)
  {
    function Find(name: string): Option<Member> { if name in members then Some(members[name]) else None }

    predicate IsUnique(field: string) { field in uniques }
  }

  type Schema = map<string, Model>

  function FindModel(schema: Schema, name: string): Option<Model> {
    if name in schema then Some(schema[name]) else None
  }

  // ---------- relations --------------------------------------------------------------

  /** The field is a relation into `child`. */
  predicate LeadsTo(schema: Schema, model: Model, field: string, child: Model) {
    && field in model.members && !model.members[field].kind.Scalar?
    && model.members[field].kind.target in schema && schema[model.members[field].kind.target] == child
  }

  /** One row of the model has many there: an inverse relation through a column that is not unique. */
  predicate HasMany(model: Model, field: string, child: Model) {
    field in model.members && model.members[field].kind.Inverse? && model.members[field].kind.via !in child.uniques
  }

  /** A path segment or field with its place in the source. */
  datatype Name = Name(text: string, span: nat)

  /** One complaint: where, and about which name. */
  datatype Diag = Diag(span: nat, name: string)

  function Report(name: Name): Diag { Diag(name.span, name.text) }
}
