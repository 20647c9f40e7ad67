/** The registry of BSL names: no two models and no two fields collide. */
module Names {
  import opened Wrappers
  import opened Digits
  import opened Ascii
  import opened Identifiers

  // ---------- allocating one name ---------------------------------------------------

  /** The names tried, in order: the base, then the base numbered from 2. */
  function Candidate(base: string, separator: string, k: nat): string {
    if k == 0 then base else base + separator + Spell(k + 1)
  }

  function KeyOf(name: string, folded: bool): string { if folded then Lower(name) else name }

  function KeyAt(base: string, separator: string, folded: bool, k: nat): string {
    KeyOf(Candidate(base, separator, k), folded)
  }

  /** A name is allocated: the first candidate whose key is not used. */
  ghost predicate Allocated(base: string, separator: string, folded: bool, used: set<string>, name: string) {
    exists k: nat ::
      && name == Candidate(base, separator, k) && KeyAt(base, separator, folded, k) !in used
      && forall j: nat | j < k :: KeyAt(base, separator, folded, j) in used
  }

  /** Two numbers never make the same key. */
  lemma KeysDiffer(base: string, separator: string, folded: bool, j: nat, k: nat)
    requires j < k
    ensures KeyAt(base, separator, folded, j) != KeyAt(base, separator, folded, k)
  {
    assert Spell(k + 1) != "" && Spell(j + 1) != Spell(k + 1);
    hide Spell;
    if j > 0 {
      var stem := base + separator;
      NumberedKey(stem, folded, Spell(j + 1));
      NumberedKey(stem, folded, Spell(k + 1));
      hide KeyOf;
    } else {
      KeyLength(base, folded);
      KeyLength(Candidate(base, separator, k), folded);
      hide KeyOf;
    }
  }

  lemma KeyLength(name: string, folded: bool)
    ensures |KeyOf(name, folded)| == |name|
  {
  }

  lemma NumberedKey(stem: string, folded: bool, digits: string)
    requires AllDigits(digits)
    ensures KeyOf(stem + digits, folded)[|stem|..] == digits
  {
    LowerJoins(stem, digits);
    assert Lower(digits) == digits;
    assert (stem + digits)[|stem|..] == digits;
  }

  /** Distinct keys all in use are at most as many as the used ones. */
  lemma {:induction false} Pigeonhole(base: string, separator: string, folded: bool, used: set<string>, k: nat)
    requires forall j: nat | j < k :: KeyAt(base, separator, folded, j) in used
    ensures k <= |used|
  {
    hide KeyAt;
    if k > 0 {
      var last := KeyAt(base, separator, folded, k - 1);
      forall j: nat | j < k - 1
        ensures KeyAt(base, separator, folded, j) in used - {last}
      {
        KeysDiffer(base, separator, folded, j, k - 1);
      }
      Pigeonhole(base, separator, folded, used - {last}, k - 1);
    }
  }

  lemma FirstUnused(base: string, separator: string, folded: bool, used: set<string>, k: nat)
    requires forall j: nat | j < k :: KeyAt(base, separator, folded, j) in used
    requires KeyAt(base, separator, folded, k) !in used
    ensures Allocated(base, separator, folded, used, Candidate(base, separator, k))
  {
    hide Spell, Lower, Candidate, KeyAt;
  }

  method Allocate(base: string, separator: string, used: set<string>, folded: bool)
    returns (name: string, used': set<string>)
    ensures Allocated(base, separator, folded, used, name)
    ensures KeyOf(name, folded) !in used && used' == used + {KeyOf(name, folded)}
  {
    hide Spell, Lower, Allocated;
    var candidate := base;
    var suffix := 2;
    ghost var k: nat := 0;
    while true
      invariant suffix == k + 2 && candidate == Candidate(base, separator, k)
      invariant forall j: nat | j < k :: KeyAt(base, separator, folded, j) in used
      decreases |used| - k
    {
      Pigeonhole(base, separator, folded, used, k);
      var key := if folded then Lower(candidate) else candidate;
      if key !in used {
        FirstUnused(base, separator, folded, used, k);
        return candidate, used + {key};
      }
      candidate := base + separator + Spell(suffix);
      suffix := suffix + 1;
      k := k + 1;
      Pigeonhole(base, separator, folded, used, k);
    }
  }

  /** The first candidate is the name itself, and the next ones count on from 2. */
  lemma CandidatesCount(base: string, separator: string, k: nat)
    ensures Candidate(base, separator, 0) == base
    ensures Candidate(base, separator, 1) == base + separator + "2"
    ensures k > 0 ==> exists digits :: AllDigits(digits) && Candidate(base, separator, k) == base + separator + digits
                                       && Digits.Value(digits) == k + 1 && digits[0] != '0'
  {
    SpellTwo();
    if k > 0 {
      assert Candidate(base, separator, k) == base + separator + Spell(k + 1);
      assert Digits.Value(Spell(k + 1)) == k + 1;
    }
  }

  lemma SpellTwo()
    ensures Spell(2) == "2"
  {
    assert Spell(0) == "";
  }

  lemma AllocatedModel(base: string, used: set<string>, name: string)
    requires IsUpperIdent(base) && !Reserved(base) && Allocated(base, "", true, used, name)
    ensures IsUpperIdent(name) && !Reserved(name)
  {
    var k: nat :| name == Candidate(base, "", k);
    NumberedIsNotReserved(base, "", k);
  }

  lemma AllocatedField(base: string, used: set<string>, name: string)
    requires IsLowerIdent(base) && !Reserved(base) && Allocated(base, "_", false, used, name)
    ensures IsLowerIdent(name) && !Reserved(name)
  {
    var k: nat :| name == Candidate(base, "_", k);
    NumberedIsNotReserved(base, "_", k);
  }

  lemma NumberedIsNotReserved(base: string, separator: string, k: nat)
    requires !Reserved(base)
    ensures !Reserved(Candidate(base, separator, k))
  {
    if k > 0 && Reserved(Candidate(base, separator, k)) {
      var name := Candidate(base, separator, k);
      assert Spell(k + 1) != "";
      assert name[|name| - 1] == Spell(k + 1)[|Spell(k + 1)| - 1];
      ReservedShapes(name);
    }
  }

  // ---------- tables ----------------------------------------------------------------

  datatype TableId = TableId(namespace: string, name: string)
  datatype Column = Column(name: string, generated: bool)
  datatype ForeignKey = ForeignKey(columns: seq<string>, target: TableId)
  datatype Table = Table(id: TableId, columns: seq<Column>, primaryKey: Option<seq<string>>, foreignKeys: seq<ForeignKey>)

  /** The database-generated single-column primary key, which becomes `id`. */
  function GeneratedKey(table: Table): Option<string> {
    if table.primaryKey.Some? && |table.primaryKey.value| == 1 then
      FirstGenerated(table.columns, table.primaryKey.value[0])
    else None
  }

  /** The first column of that name, if it is generated. */
  function FirstGenerated(columns: seq<Column>, name: string): Option<string> {
    if columns == [] then None
    else if columns[0].name == name then (if columns[0].generated then Some(name) else None)
    else FirstGenerated(columns[1..], name)
  }

  /** The column alone is the primary key, and the database generates it. */
  ghost predicate IsGeneratedKey(table: Table, c: string) {
    && table.primaryKey == Some([c])
    && exists i :: 0 <= i < |table.columns| && table.columns[i] == Column(c, true) && forall j | 0 <= j < i :: table.columns[j].name != c
  }

  lemma {:induction false} FirstGeneratedExactly(columns: seq<Column>, name: string)
    ensures FirstGenerated(columns, name) == Some(name) <==>
            exists i :: 0 <= i < |columns| && columns[i] == Column(name, true) && forall j | 0 <= j < i :: columns[j].name != name
    ensures FirstGenerated(columns, name) in {None, Some(name)}
  {
    if columns != [] && columns[0].name != name {
      FirstGeneratedExactly(columns[1..], name);
      if FirstGenerated(columns[1..], name) == Some(name) {
        var i :| 0 <= i < |columns[1..]| && columns[1..][i] == Column(name, true) && forall j | 0 <= j < i :: columns[1..][j].name != name;
        assert columns[i + 1] == Column(name, true);
        assert forall j | 1 <= j < i + 1 :: columns[j] == columns[1..][j - 1];
      }
      forall i | 0 <= i < |columns| && columns[i] == Column(name, true) && forall j | 0 <= j < i :: columns[j].name != name
        ensures FirstGenerated(columns, name) == Some(name)
      {
        assert columns[1..][i - 1] == columns[i];
        assert forall j | 0 <= j < i - 1 :: columns[1..][j] == columns[j + 1];
      }
    }
  }

  /** The one column that becomes `id`. */
  lemma GeneratedKeyExactly(table: Table, c: string)
    ensures GeneratedKey(table) == Some(c) <==> IsGeneratedKey(table, c)
  {
    if table.primaryKey.Some? && |table.primaryKey.value| == 1 {
      assert table.primaryKey.value == [table.primaryKey.value[0]];
      FirstGeneratedExactly(table.columns, table.primaryKey.value[0]);
    }
  }

  function Composite(keys: seq<ForeignKey>): (composite: seq<ForeignKey>)
    ensures forall f :: f in composite <==> f in keys && |f.columns| > 1
  {
    if keys == [] then []
    else (if |keys[0].columns| > 1 then [keys[0]] else []) + Composite(keys[1..])
  }

  /** How many of the keys hold a column. */
  function Holders(keys: seq<ForeignKey>, column: string): nat {
    if keys == [] then 0 else (if column in keys[0].columns then 1 else 0) + Holders(keys[1..], column)
  }

  predicate Shared(keys: seq<ForeignKey>, f: ForeignKey) {
    exists i :: 0 <= i < |f.columns| && Holders(keys, f.columns[i]) > 1
  }

  lemma {:induction false} TwoHolders(keys: seq<ForeignKey>, column: string, i: nat)
    requires i < |keys| && column in keys[i].columns
    ensures Holders(keys, column) >= 1
    ensures forall j | 0 <= j < |keys| && j != i && column in keys[j].columns :: Holders(keys, column) >= 2
  {
    if i == 0 {
      forall j | 0 < j < |keys| && column in keys[j].columns
        ensures Holders(keys, column) >= 2
      {
        TwoHolders(keys[1..], column, j - 1);
      }
    } else {
      TwoHolders(keys[1..], column, i - 1);
    }
  }

  /** A key that shares no column stands alone: no other key holds any of its columns. */
  lemma UnsharedStandsAlone(keys: seq<ForeignKey>, i: nat, j: nat, column: string)
    requires i < |keys| && j < |keys| && i != j && !Shared(keys, keys[i])
    ensures !(column in keys[i].columns && column in keys[j].columns)
  {
    if column in keys[i].columns && column in keys[j].columns {
      TwoHolders(keys, column, i);
    }
  }

  type Fields = map<string, string>

  /** Two columns of one composite key among the first `n` that shares no column. */
  ghost predicate Together(keys: seq<ForeignKey>, n: nat, a: string, b: string) {
    exists i :: 0 <= i < n && i < |keys| && !Shared(keys, keys[i]) && a in keys[i].columns && b in keys[i].columns
  }

  /** Two columns share a field exactly when they belong together. */
  ghost predicate CollideOnlyTogether(fields: Fields, keys: seq<ForeignKey>, n: nat) {
    forall a, b | a in fields && b in fields && a != b :: fields[a] == fields[b] <==> Together(keys, n, a, b)
  }

  predicate IsFieldName(name: string) { name == "id" || (IsLowerIdent(name) && !Reserved(name)) }

  predicate GoodFields(fields: Fields, used: set<string>) {
    forall c | c in fields :: fields[c] in used && IsFieldName(fields[c])
  }

  function ColumnNames(columns: seq<Column>): (names: set<string>)
  {
    set i | 0 <= i < |columns| :: columns[i].name
  }

  ghost predicate NumberedFrom(base: string, name: string) {
    exists k: nat :: name == Candidate(base, "_", k)
  }

  /** Every column but the generated key, which is the only `id`, is named for itself. */
  ghost predicate OwnNamed(fields: Fields, table: Table) {
    forall c | c in fields ::
      && (fields[c] == "id" <==> IsGeneratedKey(table, c))
      && (fields[c] != "id" ==> NumberedFrom(Field(c), fields[c]))
  }

  lemma AllocatedIsField(physical: string, used: set<string>, name: string)
    requires Allocated(Field(physical), "_", false, used, name)
    ensures IsFieldName(name) && NumberedFrom(Field(physical), name)
  {
    FieldIsLowerIdent(physical);
    AllocatedField(Field(physical), used, name);
    hide Field, IsLowerIdent, Reserved;
  }

  method OwnFields(table: Table) returns (fields: Fields, used: set<string>)
    ensures fields.Keys == ColumnNames(table.columns) && GoodFields(fields, used)
    ensures CollideOnlyTogether(fields, [], 0)
    ensures OwnNamed(fields, table)
  {
    hide Field, Allocated, IsLowerIdent, Reserved, GeneratedKey, NumberedFrom;
    var generated := GeneratedKey(table);
    used := {"id"};
    fields := map[];
    var i := 0;
    while i < |table.columns|
      invariant i <= |table.columns| && fields.Keys == ColumnNames(table.columns[..i])
      invariant "id" in used && GoodFields(fields, used)
      invariant forall a, b | a in fields && b in fields && a != b :: fields[a] != fields[b]
      invariant OwnNamed(fields, table)
    {
      var column := table.columns[i];
      var name := "id";
      GeneratedKeyExactly(table, column.name);
      if generated != Some(column.name) {
        FieldIsLowerIdent(column.name);
        ghost var before := used;
        name, used := Allocate(Field(column.name), "_", used, false);
        AllocatedIsField(column.name, before, name);
      }
      fields := fields[column.name := name];
      i := i + 1;
    }
    assert table.columns[..i] == table.columns;
  }

  // ---------- relations over several columns ----------------------------------------

  function Renamed(fields: Fields, columns: seq<string>, name: string): Fields {
    map c | c in fields :: if c in columns then name else fields[c]
  }

  method Rename(fields: Fields, columns: seq<string>, name: string) returns (renamed: Fields)
    ensures renamed == Renamed(fields, columns, name)
  {
    renamed := fields;
    var i := 0;
    while i < |columns|
      invariant i <= |columns| && renamed == Renamed(fields, columns[..i], name)
    {
      RenameOne(fields, columns, i, name);
      if columns[i] in renamed {
        renamed := renamed[columns[i] := name];
      }
      i := i + 1;
    }
    assert columns[..i] == columns;
  }

  lemma RenameOne(fields: Fields, columns: seq<string>, i: nat, name: string)
    requires i < |columns|
    ensures var before := Renamed(fields, columns[..i], name);
            Renamed(fields, columns[..i + 1], name) == if columns[i] in before then before[columns[i] := name] else before
  {
    assert columns[..i + 1] == columns[..i] + [columns[i]];
  }

  predicate InUnshared(keys: seq<ForeignKey>, n: nat, c: string) {
    exists i :: 0 <= i < n && i < |keys| && !Shared(keys, keys[i]) && c in keys[i].columns
  }

  /** Columns of a key that shares none are named after its target; the others keep their own name. */
  ghost predicate NamedAfterTargets(own: Fields, fields: Fields, keys: seq<ForeignKey>, n: nat) {
    && (forall c | c in fields && c in own && !InUnshared(keys, n, c) :: fields[c] == own[c])
    && forall i, c | 0 <= i < n && i < |keys| && !Shared(keys, keys[i]) && c in keys[i].columns && c in fields ::
         NumberedFrom(Field(keys[i].target.name), fields[c])
  }

  lemma SharedChangesNothing(own: Fields, fields: Fields, keys: seq<ForeignKey>, n: nat)
    requires n < |keys| && Shared(keys, keys[n])
    requires CollideOnlyTogether(fields, keys, n) && NamedAfterTargets(own, fields, keys, n)
    ensures CollideOnlyTogether(fields, keys, n + 1) && NamedAfterTargets(own, fields, keys, n + 1)
  {
    hide Shared, Field;
    forall a, b | a in fields && b in fields && a != b
      ensures Together(keys, n + 1, a, b) <==> Together(keys, n, a, b)
    {
    }
  }

  lemma RenamingCollides(fields: Fields, keys: seq<ForeignKey>, n: nat, used: set<string>, name: string)
    requires n < |keys| && !Shared(keys, keys[n]) && GoodFields(fields, used) && name !in used
    requires CollideOnlyTogether(fields, keys, n)
    ensures CollideOnlyTogether(Renamed(fields, keys[n].columns, name), keys, n + 1)
  {
    hide Shared, IsFieldName;
    var renamed := Renamed(fields, keys[n].columns, name);
    forall a, b | a in renamed && b in renamed && a != b
      ensures renamed[a] == renamed[b] <==> Together(keys, n + 1, a, b)
    {
      forall i | 0 <= i < n && !Shared(keys, keys[i])
        ensures !(a in keys[n].columns && a in keys[i].columns) && !(b in keys[n].columns && b in keys[i].columns)
      {
        UnsharedStandsAlone(keys, n, i, a);
        UnsharedStandsAlone(keys, n, i, b);
      }
      if a in keys[n].columns && b in keys[n].columns {
        assert Together(keys, n + 1, a, b);
      } else if a !in keys[n].columns && b !in keys[n].columns {
        assert Together(keys, n + 1, a, b) <==> Together(keys, n, a, b);
      } else {
        assert renamed[a] != renamed[b];
      }
    }
  }

  lemma RenamingNames(own: Fields, fields: Fields, keys: seq<ForeignKey>, n: nat, name: string)
    requires n < |keys| && !Shared(keys, keys[n]) && NumberedFrom(Field(keys[n].target.name), name)
    requires NamedAfterTargets(own, fields, keys, n)
    ensures NamedAfterTargets(own, Renamed(fields, keys[n].columns, name), keys, n + 1)
  {
    hide Shared, Field, NumberedFrom;
    var renamed := Renamed(fields, keys[n].columns, name);
    forall c | c in renamed && c in own && !InUnshared(keys, n + 1, c)
      ensures renamed[c] == own[c]
    {
      assert c !in keys[n].columns;
      assert !InUnshared(keys, n, c);
    }
    forall i, c | 0 <= i < n + 1 && !Shared(keys, keys[i]) && c in keys[i].columns && c in renamed
      ensures NumberedFrom(Field(keys[i].target.name), renamed[c])
    {
      if i < n {
        UnsharedStandsAlone(keys, n, i, c);
      }
    }
  }

  method CompositeRelations(table: Table, own: Fields, used: set<string>) returns (fields: Fields)
    requires GoodFields(own, used) && CollideOnlyTogether(own, [], 0)
    ensures var keys := Composite(table.foreignKeys);
            && fields.Keys == own.Keys && (forall c | c in fields :: IsFieldName(fields[c]))
            && CollideOnlyTogether(fields, keys, |keys|) && NamedAfterTargets(own, fields, keys, |keys|)
  {
    hide Field, Allocated, IsFieldName, Shared, CollideOnlyTogether, NamedAfterTargets;
    var keys := Composite(table.foreignKeys);
    fields := own;
    var taken := used;
    NothingShared(own, keys);
    var n := 0;
    while n < |keys|
      invariant n <= |keys| && fields.Keys == own.Keys && GoodFields(fields, taken)
      invariant CollideOnlyTogether(fields, keys, n) && NamedAfterTargets(own, fields, keys, n)
    {
      if Shared(keys, keys[n]) {
        SharedChangesNothing(own, fields, keys, n);
      } else {
        var base := Field(keys[n].target.name);
        ghost var before := taken;
        var name;
        name, taken := Allocate(base, "_", taken, false);
        AllocatedIsField(keys[n].target.name, before, name);
        RenamingCollides(fields, keys, n, before, name);
        RenamingNames(own, fields, keys, n, name);
        fields := Rename(fields, keys[n].columns, name);
      }
      n := n + 1;
    }
  }

  lemma NothingShared(own: Fields, keys: seq<ForeignKey>)
    requires CollideOnlyTogether(own, [], 0)
    ensures CollideOnlyTogether(own, keys, 0) && NamedAfterTargets(own, own, keys, 0)
  {
    forall a, b
      ensures !Together(keys, 0, a, b) && !Together([], 0, a, b)
    {
    }
  }

  // ---------- the registry ----------------------------------------------------------

  datatype ModelNames = ModelNames(physical: TableId, model: string, file: string, fields: Fields)

  /** What the registry promises of one table. */
  ghost predicate NamesTable(names: ModelNames, table: Table) {
    var keys := Composite(table.foreignKeys);
    && names.physical == table.id && names.file == Lower(names.model) + ".bsl"
    && IsUpperIdent(names.model) && !Reserved(names.model)
    && names.fields.Keys == ColumnNames(table.columns)
    && (forall c | c in names.fields :: IsFieldName(names.fields[c]))
    && CollideOnlyTogether(names.fields, keys, |keys|)
    && exists own: Fields :: own.Keys == names.fields.Keys && OwnNamed(own, table) && NamedAfterTargets(own, names.fields, keys, |keys|)
  }

  ghost predicate NamesSomeTable(names: ModelNames, tables: seq<Table>) {
    exists i :: 0 <= i < |tables| && NamesTable(names, tables[i])
  }

  method Registry(tables: seq<Table>) returns (registry: map<TableId, ModelNames>)
    ensures registry.Keys == set i | 0 <= i < |tables| :: tables[i].id
    ensures forall id | id in registry :: registry[id].physical == id && NamesSomeTable(registry[id], tables)
    ensures forall a, b | a in registry && b in registry && a != b ::
              && Lower(registry[a].model) != Lower(registry[b].model)
              && registry[a].file != registry[b].file
  {
    hide NamesTable, Model, Lower, Allocated;
    registry := map[];
    var used := {};
    var i := 0;
    while i < |tables|
      invariant i <= |tables| && registry.Keys == set j | 0 <= j < i :: tables[j].id
      invariant forall id | id in registry :: registry[id].physical == id && NamesSomeTable(registry[id], tables)
      invariant forall id | id in registry :: Lower(registry[id].model) in used && registry[id].file == Lower(registry[id].model) + ".bsl"
      invariant forall a, b | a in registry && b in registry && a != b :: Lower(registry[a].model) != Lower(registry[b].model)
    {
      ghost var before := used;
      var names;
      names, used := NameTable(tables[i], used);
      assert NamesSomeTable(names, tables);
      registry := registry[tables[i].id := names];
      i := i + 1;
    }
    forall a, b | a in registry && b in registry && a != b
      ensures registry[a].file != registry[b].file
    {
      FilesDiffer(Lower(registry[a].model), Lower(registry[b].model));
    }
  }

  lemma FilesDiffer(a: string, b: string)
    requires a != b
    ensures a + ".bsl" != b + ".bsl"
  {
    assert a == (a + ".bsl")[..|a + ".bsl"| - 4];
    assert b == (b + ".bsl")[..|b + ".bsl"| - 4];
  }

  method NameTable(table: Table, used: set<string>) returns (names: ModelNames, used': set<string>)
    ensures NamesTable(names, table) && names.physical == table.id && names.file == Lower(names.model) + ".bsl"
    ensures Lower(names.model) !in used && used' == used + {Lower(names.model)}
    ensures Allocated(Model(table.id.name), "", true, used, names.model)
  {
    hide Model, IsUpperIdent, Reserved, IsFieldName, CollideOnlyTogether, Lower, Allocated, NamedAfterTargets, OwnNamed;
    var model;
    model, used' := Allocate(Model(table.id.name), "", used, true);
    ModelIsUpperIdent(table.id.name);
    AllocatedModel(Model(table.id.name), used, model);
    var own, taken := OwnFields(table);
    var fields := CompositeRelations(table, own, taken);
    names := ModelNames(table.id, model, Lower(model) + ".bsl", fields);
  }
}
