/**
 * The MySQL table designer's compiler of alterations: it simulates the columns of the table while
 * it emits statements, and a catalog replays the statements.
 */
module TableDesigner {
  import opened Text

  datatype Default = Literal(text: string) | Expression(text: string)

  datatype Generation = Generation(expression: string, stored: bool)

  /** What a column is: as entered by the user, as a statement prints it, and as the server has it. */
  datatype Definition = Definition(name: string, dataType: string, length: Option<nat>, precision: Option<nat>, scale: Option<nat>,
                                   nullable: bool, default_: Option<Default>, identity: bool, generated: Option<Generation>,
                                   comment: Option<string>)

  /** A column as the server describes it; its type is one text. */
  datatype Column = Column(name: string, dataType: string, nullable: bool, defaultExpression: Option<string>, isIdentity: bool,
                           isGenerated: bool, generatedExpression: Option<string>, comment: Option<string>)

  datatype Patch<+T> = Keep | Clear | Set(value: T)

  datatype Changes = Changes(dataType: Option<string>, length: Patch<nat>, precision: Patch<nat>, scale: Patch<nat>,
                             nullable: Option<bool>, default_: Patch<Default>, identity: Option<bool>,
                             generated: Patch<Generation>, comment: Patch<string>, primaryKey: bool)

  /** `Other` stands for an index or constraint alteration with the number of its statements. */
  datatype Alteration =
    | Add(column: Definition)
    | Drop(name: string)
    | Rename(name: string, newName: string)
    | Modify(name: string, changes: Changes)
    | Other(accepted: bool, count: nat)

  datatype Statement =
    | AddColumn(definition: Definition)
    | DropColumn(name: string)
    | RenameColumn(name: string, newName: string)
    | ModifyColumn(definition: Definition)
    | OtherStatement

  datatype Error = Rejected | NotFound | Conflict | Unsupported | Required
  datatype Result<+T> = Ok(value: T) | Err(error: Error)

  /** A described type taken apart. */
  datatype TypeParts = TypeParts(name: string, length: Option<nat>, precision: Option<nat>, scale: Option<nat>)

  /** How names are folded, types taken apart, and which names and columns pass validation. */
  datatype Rules = Rules(lower: string -> string, parts: string -> TypeParts, validName: string -> bool,
                         validColumn: Definition -> bool)

  /** `columnInput`: what is known of a simulated column. A generated column is taken to be stored. */
  function ColumnInput(rules: Rules, c: Column): Definition {
    var parts := rules.parts(c.dataType);
    Definition(c.name, parts.name, parts.length, parts.precision, parts.scale, c.nullable,
               if c.defaultExpression.Some? then Some(Expression(c.defaultExpression.value)) else None,
               c.isIdentity,
               if c.isGenerated && c.generatedExpression.Some? && c.generatedExpression.value != ""
               then Some(Generation(c.generatedExpression.value, true)) else None,
               c.comment)
  }

  function Patched<T>(patch: Patch<T>, old_: Option<T>): Option<T> {
    match patch
    case Keep => old_
    case Clear => None
    case Set(value) => Some(value)
  }

  function Replaced<T>(change: Option<T>, old_: T): T { if change.Some? then change.value else old_ }

  function MergedColumn(rules: Rules, changes: Changes, current: Column): Definition {
    var base := ColumnInput(rules, current);
    Definition(base.name, Replaced(changes.dataType, base.dataType), Patched(changes.length, base.length),
               Patched(changes.precision, base.precision), Patched(changes.scale, base.scale),
               Replaced(changes.nullable, base.nullable), Patched(changes.default_, base.default_),
               Replaced(changes.identity, base.identity), Patched(changes.generated, base.generated),
               Patched(changes.comment, base.comment))
  }

  /** An added column in the simulation, where only what `columnInput` reads matters. */
  function Added(c: Definition): Column {
    Column(c.name, c.dataType, c.nullable, None, false, false, None, c.comment)
  }

  /** A modified one: default, identity and generation are still the described ones. */
  function Modified(current: Column, next: Definition): Column {
    current.(dataType := next.dataType, nullable := next.nullable, comment := next.comment)
  }

  function ExpressionOf(d: Definition): Option<string> {
    match d.generated
    case Some(g) => Some(g.expression)
    case None => None
  }

  type Working = map<string, Column>

  function Others(count: nat): seq<Statement> { seq(count, _ => OtherStatement) }

  /** One alteration: the new simulated columns and the statements it adds. */
  function Step(rules: Rules, working: Working, a: Alteration): Result<(Working, seq<Statement>)> {
    match a
    case Other(accepted, count) => if accepted then Ok((working, Others(count))) else Err(Rejected)
    case Add(c) =>
      if !rules.validColumn(c) then Err(Rejected)
      else if rules.lower(c.name) in working then Err(Conflict)
      else Ok((working[rules.lower(c.name) := Added(c)], [AddColumn(c)]))
    case Drop(name) =>
      if rules.lower(name) !in working then Err(NotFound)
      else Ok((working - {rules.lower(name)}, [DropColumn(name)]))
    case Rename(name, newName) =>
      if rules.lower(name) !in working then Err(NotFound)
      else if !rules.validName(newName) then Err(Rejected)
      else if rules.lower(newName) in working then Err(Conflict)
      else
        Ok(((working - {rules.lower(name)})[rules.lower(newName) := working[rules.lower(name)].(name := newName)],
            [RenameColumn(name, newName)]))
    case Modify(name, changes) =>
      if rules.lower(name) !in working then Err(NotFound)
      else
        var current := working[rules.lower(name)];
        var next := MergedColumn(rules, changes, current);
        if !rules.validColumn(next) then Err(Rejected)
        else if changes.primaryKey then Err(Unsupported)
        else
          Ok((working[rules.lower(current.name) := Modified(current, next)],
              if ExpressionOf(next) != ExpressionOf(ColumnInput(rules, current))
              then [DropColumn(current.name), AddColumn(next)]
              else [ModifyColumn(next)]))
  }

  function Steps(rules: Rules, working: Working, alterations: seq<Alteration>): Result<(Working, seq<Statement>)>
    decreases |alterations|
  {
    if alterations == [] then Ok((working, []))
    else match Step(rules, working, alterations[0])
      case Err(e) => Err(e)
      case Ok((next, first)) =>
        match Steps(rules, next, alterations[1..])
        case Err(e) => Err(e)
        case Ok((end, rest)) => Ok((end, first + rest))
  }

  /** The columns of the described table by folded name. */
  function Described(rules: Rules, columns: seq<Column>): Working {
    if columns == [] then map[]
    else Described(rules, columns[..|columns| - 1])[rules.lower(columns[|columns| - 1].name) := columns[|columns| - 1]]
  }

  class Compilation {
    const rules: Rules
    var working: Working
    var statements: seq<Statement>

    constructor (rules: Rules, columns: seq<Column>)
      ensures this.rules == rules && working == Described(rules, columns) && statements == []
    {
      this.rules, working, statements := rules, Described(rules, columns), [];
    }

    /** Compiles one alteration in place; an error leaves the columns as they were. */
    method CompileAlteration(a: Alteration) returns (error: Option<Error>)
      modifies this
      ensures match Step(rules, old(working), a)
        case Ok((next, emitted)) => error == None && working == next && statements == old(statements) + emitted
        case Err(e) => error == Some(e) && working == old(working) && statements == old(statements)
    {
      match a {
        case Other(accepted, count) =>
          if !accepted {
            return Some(Rejected);
          }
          statements := statements + Others(count);
        case Add(column) =>
          if !rules.validColumn(column) {
            return Some(Rejected);
          }
          if rules.lower(column.name) in working {
            return Some(Conflict);
          }
          working := working[rules.lower(column.name) := Added(column)];
          statements := statements + [AddColumn(column)];
        case Drop(name) =>
          if rules.lower(name) !in working {
            return Some(NotFound);
          }
          working := working - {rules.lower(name)};
          statements := statements + [DropColumn(name)];
        case Rename(name, newName) =>
          if rules.lower(name) !in working {
            return Some(NotFound);
          }
          var current := working[rules.lower(name)];
          if !rules.validName(newName) {
            return Some(Rejected);
          }
          if rules.lower(newName) in working {
            return Some(Conflict);
          }
          working := working - {rules.lower(name)};
          working := working[rules.lower(newName) := current.(name := newName)];
          statements := statements + [RenameColumn(name, newName)];
        case Modify(name, changes) =>
          if rules.lower(name) !in working {
            return Some(NotFound);
          }
          var current := working[rules.lower(name)];
          var next := MergedColumn(rules, changes, current);
          if !rules.validColumn(next) {
            return Some(Rejected);
          }
          if changes.primaryKey {
            return Some(Unsupported);
          }
          if ExpressionOf(next) != ExpressionOf(ColumnInput(rules, current)) {
            ghost var before := statements;
            statements := statements + [DropColumn(current.name)];
            statements := statements + [AddColumn(next)];
            Assoc(before, [DropColumn(current.name)], [AddColumn(next)]);
          } else {
            statements := statements + [ModifyColumn(next)];
          }
          working := working[rules.lower(current.name) := Modified(current, next)];
      }
      return None;
    }

    /** All alterations in order; the first error stops the compilation. */
    method Compile(alterations: seq<Alteration>) returns (result: Result<seq<Statement>>)
      requires statements == []
      modifies this
      ensures match Steps(rules, old(working), alterations)
        case Err(e) => result == Err(e)
        case Ok((end, emitted)) =>
          working == end && result == if alterations == [] then Err(Required) else Ok(emitted)
    {
      assert alterations[0..] == alterations;
      if Steps(rules, working, alterations).Ok? {
        assert [] + Steps(rules, working, alterations).value.1 == Steps(rules, working, alterations).value.1;
      }
      for i := 0 to |alterations|
        invariant match Steps(rules, working, alterations[i..])
          case Err(e) => Steps(rules, old(working), alterations) == Err(e)
          case Ok((end, rest)) => Steps(rules, old(working), alterations) == Ok((end, statements + rest))
      {
        assert alterations[i..][1..] == alterations[i + 1..];
        ghost var before := statements;
        ghost var first := Step(rules, working, alterations[i]);
        ghost var later := if first.Ok? then Steps(rules, first.value.0, alterations[i + 1..]) else Err(Required);
        var error := CompileAlteration(alterations[i]);
        if error.Some? {
          return Err(error.value);
        }
        if later.Ok? {
          Assoc(before, first.value.1, later.value.1);
        }
      }
      if alterations == [] {
        return Err(Required);
      }
      assert statements + [] == statements;
      return Ok(statements);
    }
  }

  // ---- Replaying the statements ----

  /** A column on the server; `filled` while it has the data it had before. */
  datatype Stored = Stored(definition: Definition, filled: bool)

  /** The columns of a table by folded name. */
  type Catalog = map<string, Stored>

  /** One statement on the server; nothing when it names a missing column or adds an existing one. */
  function Execute(rules: Rules, catalog: Catalog, s: Statement): Option<Catalog> {
    match s
    case OtherStatement => Some(catalog)
    case AddColumn(d) =>
      if rules.lower(d.name) in catalog then None else Some(catalog[rules.lower(d.name) := Stored(d, false)])
    case DropColumn(name) =>
      if rules.lower(name) in catalog then Some(catalog - {rules.lower(name)}) else None
    case RenameColumn(name, newName) =>
      if rules.lower(name) !in catalog || rules.lower(newName) in catalog - {rules.lower(name)} then None
      else
        var c := catalog[rules.lower(name)];
        Some((catalog - {rules.lower(name)})[rules.lower(newName) := c.(definition := c.definition.(name := newName))])
    case ModifyColumn(d) =>
      if rules.lower(d.name) in catalog then Some(catalog[rules.lower(d.name) := Stored(d, catalog[rules.lower(d.name)].filled)])
      else None
  }

  function Replay(rules: Rules, catalog: Catalog, statements: seq<Statement>): Option<Catalog>
    decreases |statements|
  {
    if statements == [] then Some(catalog)
    else match Execute(rules, catalog, statements[0])
      case None => None
      case Some(next) => Replay(rules, next, statements[1..])
  }

  /** The simulation has the columns of the table, each under its own folded name. */
  ghost predicate InStep(rules: Rules, working: Working, catalog: Catalog) {
    && working.Keys == catalog.Keys
    && forall k | k in working :: rules.lower(working[k].name) == k && catalog[k].definition.name == working[k].name
  }

  // ---- What the alterations ask for ----

  ghost predicate PatchAsked<T>(patch: Patch<T>, old_: Option<T>, new_: Option<T>) {
    && (patch == Keep ==> new_ == old_)
    && (patch == Clear ==> new_ == None)
    && (patch.Set? ==> new_ == Some(patch.value))
  }

  ghost predicate ChangeAsked<T>(change: Option<T>, old_: T, new_: T) {
    (change == None ==> new_ == old_) && (change.Some? ==> new_ == change.value)
  }

  /** Every changed part is as asked, and every other part as it was. */
  ghost predicate ChangesAsked(changes: Changes, before: Definition, after: Definition) {
    && after.name == before.name
    && ChangeAsked(changes.dataType, before.dataType, after.dataType)
    && PatchAsked(changes.length, before.length, after.length)
    && PatchAsked(changes.precision, before.precision, after.precision)
    && PatchAsked(changes.scale, before.scale, after.scale)
    && ChangeAsked(changes.nullable, before.nullable, after.nullable)
    && PatchAsked(changes.default_, before.default_, after.default_)
    && ChangeAsked(changes.identity, before.identity, after.identity)
    && PatchAsked(changes.generated, before.generated, after.generated)
    && PatchAsked(changes.comment, before.comment, after.comment)
  }

  /** What `a` asks of the table: one column is added, dropped, renamed or changed, and nothing else. */
  ghost predicate Asked(rules: Rules, before: Catalog, a: Alteration, after: Catalog) {
    match a
    case Other(_, _) => after == before
    case Add(c) =>
      && rules.lower(c.name) !in before && after.Keys == before.Keys + {rules.lower(c.name)}
      && after[rules.lower(c.name)].definition == c && SameBut(before, after, {rules.lower(c.name)})
    case Drop(name) =>
      rules.lower(name) in before && after.Keys == before.Keys - {rules.lower(name)} && SameBut(before, after, {rules.lower(name)})
    case Rename(name, newName) =>
      var k, l := rules.lower(name), rules.lower(newName);
      && k in before && l !in before && after.Keys == before.Keys - {k} + {l} && SameBut(before, after, {k, l})
      && after[l] == before[k].(definition := before[k].definition.(name := newName))
    case Modify(name, changes) =>
      var k := rules.lower(name);
      && k in before && after.Keys == before.Keys && SameBut(before, after, {k})
      && ChangesAsked(changes, before[k].definition, after[k].definition)
  }

  ghost predicate SameBut(before: Catalog, after: Catalog, names: set<string>) {
    forall k | k in before && k in after && k !in names :: after[k] == before[k]
  }

  /** Each part is set by the change, or the designer knows what the server has. */
  ghost predicate Remembered(changes: Changes, known: Definition, actual: Definition) {
    && (changes.dataType == None ==> known.dataType == actual.dataType)
    && (changes.length == Keep ==> known.length == actual.length)
    && (changes.precision == Keep ==> known.precision == actual.precision)
    && (changes.scale == Keep ==> known.scale == actual.scale)
    && (changes.nullable == None ==> known.nullable == actual.nullable)
    && (changes.default_ == Keep ==> known.default_ == actual.default_)
    && (changes.identity == None ==> known.identity == actual.identity)
    && (changes.generated == Keep ==> known.generated == actual.generated)
    && (changes.comment == Keep ==> known.comment == actual.comment)
  }

  /** The column a change is about is known as far as the change keeps it. */
  ghost predicate Knows(rules: Rules, working: Working, catalog: Catalog, a: Alteration) {
    a.Modify? ==>
      var k := rules.lower(a.name);
      k in working && k in catalog && Remembered(a.changes, ColumnInput(rules, working[k]), catalog[k].definition)
  }

  lemma {:induction false} ReplayAppend(rules: Rules, catalog: Catalog, xs: seq<Statement>, ys: seq<Statement>)
    ensures Replay(rules, catalog, xs + ys)
         == match Replay(rules, catalog, xs) case None => None case Some(next) => Replay(rules, next, ys)
    decreases |xs|
  {
    hide Execute;
    if xs == [] {
      assert xs + ys == ys;
    } else {
      assert (xs + ys)[0] == xs[0] && (xs + ys)[1..] == xs[1..] + ys;
      if Execute(rules, catalog, xs[0]).Some? {
        ReplayAppend(rules, Execute(rules, catalog, xs[0]).value, xs[1..], ys);
      }
    }
  }

  lemma {:induction false} OthersReplay(rules: Rules, catalog: Catalog, count: nat)
    ensures Replay(rules, catalog, Others(count)) == Some(catalog)
    decreases count
  {
    if count > 0 {
      assert Others(count)[1..] == Others(count - 1);
      OthersReplay(rules, catalog, count - 1);
    }
  }

  lemma {:induction false} OneReplay(rules: Rules, catalog: Catalog, s: Statement)
    ensures Replay(rules, catalog, [s]) == Execute(rules, catalog, s)
  {
    hide Execute;
    assert [s][1..] == [];
  }

  lemma {:induction false} MergedAsked(rules: Rules, changes: Changes, current: Column)
    ensures ChangesAsked(changes, ColumnInput(rules, current), MergedColumn(rules, changes, current))
  {}

  lemma {:induction false} RecreateReplays(rules: Rules, catalog: Catalog, d: Definition)
    requires rules.lower(d.name) in catalog
    ensures Replay(rules, catalog, [DropColumn(d.name), AddColumn(d)]) == Some(catalog[rules.lower(d.name) := Stored(d, false)])
  {
    hide Replay;
    var k := rules.lower(d.name);
    assert [DropColumn(d.name), AddColumn(d)] == [DropColumn(d.name)] + [AddColumn(d)];
    ReplayAppend(rules, catalog, [DropColumn(d.name)], [AddColumn(d)]);
    OneReplay(rules, catalog, DropColumn(d.name));
    OneReplay(rules, catalog - {k}, AddColumn(d));
    assert (catalog - {k})[k := Stored(d, false)] == catalog[k := Stored(d, false)];
  }

  lemma {:induction false} ModifyStored(rules: Rules, working: Working, catalog: Catalog, a: Alteration)
    requires a.Modify? && InStep(rules, working, catalog) && Step(rules, working, a).Ok?
    ensures var (next, emitted) := Step(rules, working, a).value;
      var k := rules.lower(a.name);
      && k in working && k in catalog
      && var merged := MergedColumn(rules, a.changes, working[k]);
      && next == working[k := Modified(working[k], merged)] && merged.name == working[k].name
      && Replay(rules, catalog, emitted)
         == Some(catalog[k := Stored(merged, catalog[k].filled && ExpressionOf(merged) == ExpressionOf(ColumnInput(rules, working[k])))])
  {
    var current := working[rules.lower(a.name)];
    var merged := MergedColumn(rules, a.changes, current);
    assert merged.name == current.name;
    hide Replay, MergedColumn, ColumnInput, ExpressionOf;
    RecreateReplays(rules, catalog, merged);
    OneReplay(rules, catalog, ModifyColumn(merged));
  }

  /** A change replayed: the data of the column stays unless its generation expression is another one. */
  lemma {:induction false} ModifyReplays(rules: Rules, working: Working, catalog: Catalog, a: Alteration)
    requires a.Modify? && InStep(rules, working, catalog) && Step(rules, working, a).Ok?
    ensures var (next, emitted) := Step(rules, working, a).value;
      var k := rules.lower(a.name);
      && k in working && Replay(rules, catalog, emitted).Some?
      && var after := Replay(rules, catalog, emitted).value;
      && InStep(rules, next, after) && after.Keys == catalog.Keys && SameBut(catalog, after, {k})
      && ChangesAsked(a.changes, ColumnInput(rules, working[k]), after[k].definition)
      && after[k].filled == (catalog[k].filled && ExpressionOf(after[k].definition) == ExpressionOf(ColumnInput(rules, working[k])))
  {
    ModifyStored(rules, working, catalog, a);
    MergedAsked(rules, a.changes, working[rules.lower(a.name)]);
    hide Replay, Step, MergedColumn, ColumnInput, ChangesAsked, ExpressionOf;
  }

  lemma {:induction false} RememberedExactly(changes: Changes, known: Definition, actual: Definition, after: Definition)
    requires ChangesAsked(changes, known, after) && known.name == actual.name
    ensures ChangesAsked(changes, actual, after) <==> Remembered(changes, known, actual)
  {}

  /** A change does what it asks of the table if and only if the designer knew what the change keeps. */
  lemma {:induction false} ModifyAsked(rules: Rules, working: Working, catalog: Catalog, a: Alteration)
    requires a.Modify? && InStep(rules, working, catalog) && Step(rules, working, a).Ok?
    ensures Replay(rules, catalog, Step(rules, working, a).value.1).Some?
    ensures Asked(rules, catalog, a, Replay(rules, catalog, Step(rules, working, a).value.1).value) <==> Knows(rules, working, catalog, a)
  {
    ModifyReplays(rules, working, catalog, a);
    var k := rules.lower(a.name);
    RememberedExactly(a.changes, ColumnInput(rules, working[k]), catalog[k].definition,
                      Replay(rules, catalog, Step(rules, working, a).value.1).value[k].definition) by {
      hide Replay, Step, ChangesAsked;
    }
    hide Replay, Step, ColumnInput, ChangesAsked, Remembered;
  }

  lemma {:induction false} OthersAsked(rules: Rules, working: Working, catalog: Catalog, a: Alteration)
    requires !a.Modify? && InStep(rules, working, catalog) && Step(rules, working, a).Ok?
    ensures var (next, emitted) := Step(rules, working, a).value;
      && Replay(rules, catalog, emitted).Some?
      && InStep(rules, next, Replay(rules, catalog, emitted).value)
      && Asked(rules, catalog, a, Replay(rules, catalog, emitted).value)
  {
    hide Replay;
    var emitted := Step(rules, working, a).value.1;
    if a.Other? {
      OthersReplay(rules, catalog, a.count);
    } else {
      OneReplay(rules, catalog, emitted[0]);
    }
  }

  /**
   * The statements of one accepted alteration never fail on a table the simulation is in step with,
   * and leave it in step. They do what the alteration asks, and nothing else, if and only if it is no
   * change, or one of a column known as far as the change keeps it.
   */
  lemma {:induction false} StepFaithful(rules: Rules, working: Working, catalog: Catalog, a: Alteration)
    requires InStep(rules, working, catalog) && Step(rules, working, a).Ok?
    ensures var (next, emitted) := Step(rules, working, a).value;
      && Replay(rules, catalog, emitted).Some?
      && var after := Replay(rules, catalog, emitted).value;
      && InStep(rules, next, after)
      && (Asked(rules, catalog, a, after) <==> Knows(rules, working, catalog, a))
  {
    hide Step, Replay, InStep, Asked;
    if a.Modify? {
      ModifyReplays(rules, working, catalog, a);
      ModifyAsked(rules, working, catalog, a);
    } else {
      OthersAsked(rules, working, catalog, a);
    }
  }

  /** The table after the statements of one alteration. */
  function After(rules: Rules, working: Working, catalog: Catalog, a: Alteration): Catalog
    requires InStep(rules, working, catalog) && Step(rules, working, a).Ok?
  {
    StepFaithful(rules, working, catalog, a);
    Replay(rules, catalog, Step(rules, working, a).value.1).value
  }

  /** Each alteration, replayed, does what it asks of the table as it is by then. */
  ghost predicate AllAsked(rules: Rules, working: Working, catalog: Catalog, alterations: seq<Alteration>)
    requires InStep(rules, working, catalog) && Steps(rules, working, alterations).Ok?
    decreases |alterations|
  {
    alterations == [] ||
    var a := alterations[0];
    StepFaithful(rules, working, catalog, a);
    && Asked(rules, catalog, a, After(rules, working, catalog, a))
    && AllAsked(rules, Step(rules, working, a).value.0, After(rules, working, catalog, a), alterations[1..])
  }

  /** Each changed column is known by then, as far as the change keeps it. */
  ghost predicate AllKnown(rules: Rules, working: Working, catalog: Catalog, alterations: seq<Alteration>)
    requires InStep(rules, working, catalog) && Steps(rules, working, alterations).Ok?
    decreases |alterations|
  {
    alterations == [] ||
    var a := alterations[0];
    StepFaithful(rules, working, catalog, a);
    && Knows(rules, working, catalog, a)
    && AllKnown(rules, Step(rules, working, a).value.0, After(rules, working, catalog, a), alterations[1..])
  }

  /**
   * For every accepted list the statements replay without an error on the table, and the simulation is
   * in step with the result; each alteration does what it asks, and nothing else, if and only if each
   * changed column is known by then as far as its change keeps it.
   */
  lemma {:induction false} CompilerFaithful(rules: Rules, working: Working, catalog: Catalog, alterations: seq<Alteration>)
    requires InStep(rules, working, catalog) && Steps(rules, working, alterations).Ok?
    ensures var (end, emitted) := Steps(rules, working, alterations).value;
      && Replay(rules, catalog, emitted).Some? && InStep(rules, end, Replay(rules, catalog, emitted).value)
      && (AllAsked(rules, working, catalog, alterations) <==> AllKnown(rules, working, catalog, alterations))
    decreases |alterations|
  {
    hide Step, Replay, InStep, Asked, Knows;
    if alterations == [] {
      NothingReplayed(rules, catalog);
    } else {
      var a := alterations[0];
      var (next, first) := Step(rules, working, a).value;
      StepFaithful(rules, working, catalog, a);
      CompilerFaithful(rules, next, After(rules, working, catalog, a), alterations[1..]);
      ReplayAppend(rules, catalog, first, Steps(rules, next, alterations[1..]).value.1);
    }
  }

  lemma {:induction false} NothingReplayed(rules: Rules, catalog: Catalog)
    ensures Replay(rules, catalog, []) == Some(catalog)
  {}

  // ---- Columns changed once ----

  /** The columns the designer has only partly in mind: those added or changed, under their present names. */
  function Touched(rules: Rules, touched: set<string>, a: Alteration): set<string> {
    match a
    case Other(_, _) => touched
    case Add(c) => touched + {rules.lower(c.name)}
    case Drop(name) => touched - {rules.lower(name)}
    case Rename(name, newName) =>
      if rules.lower(name) in touched then touched - {rules.lower(name)} + {rules.lower(newName)} else touched
    case Modify(name, _) => touched + {rules.lower(name)}
  }

  /** No column is changed after it was added or changed. */
  predicate ChangedOnce(rules: Rules, touched: set<string>, alterations: seq<Alteration>)
    decreases |alterations|
  {
    alterations == [] || (
      && (alterations[0].Modify? ==> rules.lower(alterations[0].name) !in touched)
      && ChangedOnce(rules, Touched(rules, touched, alterations[0]), alterations[1..]))
  }

  /** Outside `touched` the designer knows the columns as they are. */
  ghost predicate Known(rules: Rules, working: Working, catalog: Catalog, touched: set<string>) {
    forall k | k in working && k in catalog && k !in touched :: ColumnInput(rules, working[k]) == catalog[k].definition
  }

  lemma {:induction false} KnownChanged(rules: Rules, working: Working, catalog: Catalog, touched: set<string>, a: Alteration)
    requires InStep(rules, working, catalog) && Step(rules, working, a).Ok? && Known(rules, working, catalog, touched) && a.Modify?
    ensures After(rules, working, catalog, a).Keys == catalog.Keys
    ensures Known(rules, Step(rules, working, a).value.0, After(rules, working, catalog, a), Touched(rules, touched, a))
  {
    ModifyReplays(rules, working, catalog, a);
    hide Replay, ColumnInput, MergedColumn, ExpressionOf;
  }

  lemma {:induction false} KnownStep(rules: Rules, working: Working, catalog: Catalog, touched: set<string>, a: Alteration)
    requires InStep(rules, working, catalog) && Step(rules, working, a).Ok? && Known(rules, working, catalog, touched)
    ensures Known(rules, Step(rules, working, a).value.0, After(rules, working, catalog, a), Touched(rules, touched, a))
  {
    if a.Modify? {
      KnownChanged(rules, working, catalog, touched, a);
    } else {
      OthersAsked(rules, working, catalog, a);
      hide Replay, After, MergedColumn;
      var after := After(rules, working, catalog, a);
      assert after == Replay(rules, catalog, Step(rules, working, a).value.1).value by { AfterIs(rules, working, catalog, a); }
    }
  }

  lemma {:induction false} AfterIs(rules: Rules, working: Working, catalog: Catalog, a: Alteration)
    requires InStep(rules, working, catalog) && Step(rules, working, a).Ok?
    ensures Replay(rules, catalog, Step(rules, working, a).value.1) == Some(After(rules, working, catalog, a))
  {
    StepFaithful(rules, working, catalog, a);
    hide Replay, Step;
  }

  /** A list that changes known columns, each once and none it added, does what it asks. */
  lemma {:induction false} ChangedOnceIsAsked(rules: Rules, working: Working, catalog: Catalog, touched: set<string>,
                                              alterations: seq<Alteration>)
    requires InStep(rules, working, catalog) && Steps(rules, working, alterations).Ok?
    requires Known(rules, working, catalog, touched) && ChangedOnce(rules, touched, alterations)
    ensures AllAsked(rules, working, catalog, alterations)
    decreases |alterations|
  {
    hide Step, After, InStep, Asked, Touched;
    if alterations != [] {
      var a := alterations[0];
      StepFaithful(rules, working, catalog, a);
      AfterIs(rules, working, catalog, a);
      assert Knows(rules, working, catalog, a) by { KnownIsRemembered(rules, working, catalog, touched, a); }
      KnownStep(rules, working, catalog, touched, a);
      ChangedOnceIsAsked(rules, Step(rules, working, a).value.0, After(rules, working, catalog, a), Touched(rules, touched, a),
                         alterations[1..]);
    }
  }

  lemma {:induction false} KnownIsRemembered(rules: Rules, working: Working, catalog: Catalog, touched: set<string>, a: Alteration)
    requires InStep(rules, working, catalog) && Step(rules, working, a).Ok? && Known(rules, working, catalog, touched)
    requires a.Modify? ==> rules.lower(a.name) !in touched
    ensures Knows(rules, working, catalog, a)
  {
    hide ColumnInput;
  }

  // ---- What the designer knows ----

  /** How the server describes a column whose type it prints as `text`; whether it is stored is not said. */
  function Describe(d: Definition, text: string): Column {
    Column(d.name, text, d.nullable,
           match d.default_ { case Some(Literal(s)) => Some(s) case Some(Expression(s)) => Some(s) case None => None },
           d.identity, d.generated.Some?, ExpressionOf(d), d.comment)
  }

  /**
   * A described column is known as it is if and only if its printed type is taken apart into its parts,
   * its default is an expression, and its generated values are stored.
   */
  lemma {:induction false} DescribedIsKnown(rules: Rules, d: Definition, text: string)
    ensures ColumnInput(rules, Describe(d, text)) == d
            <==> rules.parts(text) == TypeParts(d.dataType, d.length, d.precision, d.scale)
                 && (d.default_.Some? ==> d.default_.value.Expression?)
                 && (d.generated.Some? ==> d.generated.value.stored && d.generated.value.expression != "")
  {
    var known := ColumnInput(rules, Describe(d, text));
    assert known.dataType == rules.parts(text).name && known.length == rules.parts(text).length;
    assert known.precision == rules.parts(text).precision && known.scale == rules.parts(text).scale;
  }

  /** `i` is the last of the columns under the folded name `k`. */
  ghost predicate LastUnder(rules: Rules, columns: seq<Column>, k: string, i: nat) {
    i < |columns| && rules.lower(columns[i].name) == k && forall j | i < j < |columns| :: rules.lower(columns[j].name) != k
  }

  /** The columns a compilation begins with: under every folded name the last column described. */
  lemma {:induction false} DescribedLast(rules: Rules, columns: seq<Column>, k: string)
    ensures if k in Described(rules, columns)
            then exists i: nat :: LastUnder(rules, columns, k, i) && Described(rules, columns)[k] == columns[i]
            else forall i | 0 <= i < |columns| :: rules.lower(columns[i].name) != k
  {
    if columns != [] {
      var n := |columns| - 1;
      var front := columns[..n];
      DescribedLast(rules, front, k);
      assert forall i | 0 <= i < n :: front[i] == columns[i];
      if rules.lower(columns[n].name) == k {
        assert LastUnder(rules, columns, k, n);
      } else if k in Described(rules, front) {
        var i: nat :| LastUnder(rules, front, k, i) && Described(rules, front)[k] == front[i];
        assert LastUnder(rules, columns, k, i);
      }
    }
  }

  /** A description that names the columns of the table, folded apart, puts the simulation in step. */
  lemma {:induction false} DescriptionInStep(rules: Rules, columns: seq<Column>, catalog: Catalog)
    requires forall i, j | 0 <= i < j < |columns| :: rules.lower(columns[i].name) != rules.lower(columns[j].name)
    requires forall k :: k in catalog <==> exists i :: 0 <= i < |columns| && rules.lower(columns[i].name) == k
    requires forall i | 0 <= i < |columns| && rules.lower(columns[i].name) in catalog ::
      catalog[rules.lower(columns[i].name)].definition.name == columns[i].name
    ensures InStep(rules, Described(rules, columns), catalog)
  {
    var working := Described(rules, columns);
    forall k
      ensures k in working <==> k in catalog
      ensures k in working ==> rules.lower(working[k].name) == k && catalog[k].definition.name == working[k].name
    {
      DescribedLast(rules, columns, k);
      if k in catalog {
        var i :| 0 <= i < |columns| && rules.lower(columns[i].name) == k;
      }
    }
  }

  /** What is known of a column once it was added or changed: default, identity and generation are the earlier ones. */
  lemma {:induction false} KnownAfter(rules: Rules, working: Working, catalog: Catalog, a: Alteration)
    requires InStep(rules, working, catalog) && Step(rules, working, a).Ok? && (a.Add? || a.Modify?)
    ensures var k := rules.lower(if a.Add? then a.column.name else a.name);
      var next := Step(rules, working, a).value.0;
      && k in next && k in After(rules, working, catalog, a)
      && var known, actual := ColumnInput(rules, next[k]), After(rules, working, catalog, a)[k].definition;
      && known.name == actual.name && known.nullable == actual.nullable && known.comment == actual.comment
      && TypeParts(known.dataType, known.length, known.precision, known.scale) == rules.parts(actual.dataType)
      && (a.Add? ==> known.default_ == None && !known.identity && known.generated == None)
      && (a.Modify? ==> k in working && var before := ColumnInput(rules, working[k]);
            known.default_ == before.default_ && known.identity == before.identity && known.generated == before.generated)
  {
    AfterIs(rules, working, catalog, a);
    var emitted := Step(rules, working, a).value.1;
    if a.Modify? {
      KnownAfterChange(rules, working, catalog, a);
    } else {
      OneReplay(rules, catalog, emitted[0]);
    }
  }

  lemma {:induction false} KnownAfterChange(rules: Rules, working: Working, catalog: Catalog, a: Alteration)
    requires InStep(rules, working, catalog) && Step(rules, working, a).Ok? && a.Modify?
    ensures var k, next := rules.lower(a.name), Step(rules, working, a).value.0;
      && k in working && k in next && k in After(rules, working, catalog, a)
      && After(rules, working, catalog, a)[k].definition == MergedColumn(rules, a.changes, working[k])
      && next[k] == Modified(working[k], MergedColumn(rules, a.changes, working[k]))
  {
    AfterIs(rules, working, catalog, a);
    ModifyStored(rules, working, catalog, a);
    hide Replay, Step, MergedColumn, ColumnInput, After, ExpressionOf;
  }

  // ---- Which lists are accepted ----

  type Naming = map<string, string>

  function Names(working: Working): Naming { map k | k in working :: working[k].name }

  /** Simulated columns stand under their own folded name. */
  ghost predicate WellNamed(rules: Rules, working: Working) {
    forall k | k in working :: rules.lower(working[k].name) == k
  }

  lemma {:induction false} DescribedWellNamed(rules: Rules, columns: seq<Column>)
    ensures WellNamed(rules, Described(rules, columns))
  {
    if columns != [] {
      DescribedWellNamed(rules, columns[..|columns| - 1]);
    }
  }

  lemma {:induction false} StepWellNamed(rules: Rules, working: Working, a: Alteration)
    requires WellNamed(rules, working) && Step(rules, working, a).Ok?
    ensures WellNamed(rules, Step(rules, working, a).value.0)
  {
    hide ColumnInput;
  }

  /** What the alteration asks of the column names of the table. */
  function Intended(rules: Rules, names: Naming, a: Alteration): Option<Naming> {
    match a
    case Other(_, _) => Some(names)
    case Add(c) => if rules.lower(c.name) in names then None else Some(names[rules.lower(c.name) := c.name])
    case Drop(name) => if rules.lower(name) in names then Some(names - {rules.lower(name)}) else None
    case Rename(name, newName) =>
      if rules.lower(name) !in names || rules.lower(newName) in names then None
      else Some((names - {rules.lower(name)})[rules.lower(newName) := newName])
    case Modify(name, _) => if rules.lower(name) in names then Some(names) else None
  }

  ghost predicate IntendedAll(rules: Rules, names: Naming, alterations: seq<Alteration>)
    decreases |alterations|
  {
    alterations == []
    || (Intended(rules, names, alterations[0]).Some?
        && IntendedAll(rules, Intended(rules, names, alterations[0]).value, alterations[1..]))
  }

  /** The errors about names that are missing or taken. */
  predicate IsNameError(e: Error) { e == NotFound || e == Conflict }

  lemma {:induction false} RenameIntended(rules: Rules, working: Working, a: Alteration)
    requires WellNamed(rules, working) && a.Rename?
    ensures match Step(rules, working, a)
      case Ok((next, _)) => Intended(rules, Names(working), a) == Some(Names(next))
      case Err(e) => IsNameError(e) ==> Intended(rules, Names(working), a) == None
  {
    if Step(rules, working, a).Ok? {
      assert Intended(rules, Names(working), a).value == Names(Step(rules, working, a).value.0);
    }
  }

  lemma {:induction false} StepIntended(rules: Rules, working: Working, a: Alteration)
    requires WellNamed(rules, working)
    ensures match Step(rules, working, a)
      case Ok((next, _)) => Intended(rules, Names(working), a) == Some(Names(next))
      case Err(e) => IsNameError(e) ==> Intended(rules, Names(working), a) == None
  {
    if a.Rename? {
      RenameIntended(rules, working, a);
    } else if Step(rules, working, a).Ok? {
      assert Intended(rules, Names(working), a).value == Names(Step(rules, working, a).value.0);
    }
  }

  /** Validation: of what is added, of a new name, and of a column as its change makes it. */
  ghost predicate Valid(rules: Rules, working: Working, a: Alteration) {
    match a
    case Other(accepted, _) => accepted
    case Add(c) => rules.validColumn(c)
    case Drop(_) => true
    case Rename(_, newName) => rules.validName(newName)
    case Modify(name, changes) =>
      && !changes.primaryKey && rules.lower(name) in working
      && exists d :: ChangesAsked(changes, ColumnInput(rules, working[rules.lower(name)]), d) && rules.validColumn(d)
  }

  /** An alteration is accepted if and only if it makes sense on the names and passes validation. */
  lemma {:induction false} StepAccepts(rules: Rules, working: Working, a: Alteration)
    requires WellNamed(rules, working)
    ensures Step(rules, working, a).Ok? <==> Intended(rules, Names(working), a).Some? && Valid(rules, working, a)
  {
    if a.Modify? && rules.lower(a.name) in working {
      var current := working[rules.lower(a.name)];
      ChangedUnique(rules, a.changes, current);
      hide ChangesAsked, MergedColumn, ColumnInput;
    }
  }

  /** What each error says. */
  lemma {:induction false} StepErrors(rules: Rules, working: Working, a: Alteration)
    ensures match Step(rules, working, a)
      case Ok(_) => true
      case Err(NotFound) => (a.Drop? || a.Rename? || a.Modify?) && rules.lower(a.name) !in working
      case Err(Conflict) => (a.Add? && rules.lower(a.column.name) in working) || (a.Rename? && rules.lower(a.newName) in working)
      case Err(Unsupported) => a.Modify? && a.changes.primaryKey
      case Err(Rejected) =>
        || (a.Other? && !a.accepted) || (a.Add? && !rules.validColumn(a.column)) || (a.Rename? && !rules.validName(a.newName))
        || (a.Modify? && rules.lower(a.name) in working && exists d ::
              ChangesAsked(a.changes, ColumnInput(rules, working[rules.lower(a.name)]), d) && !rules.validColumn(d))
      case Err(Required) => false
  {
    if a.Modify? && rules.lower(a.name) in working {
      var current := working[rules.lower(a.name)];
      MergedAsked(rules, a.changes, current);
      hide ChangesAsked, MergedColumn, ColumnInput;
    }
  }

  lemma {:induction false} ChangedUnique(rules: Rules, changes: Changes, current: Column)
    ensures forall d :: ChangesAsked(changes, ColumnInput(rules, current), d) <==> d == MergedColumn(rules, changes, current)
  {}

  /**
   * An accepted list makes sense, one alteration after the other, on the names of the table; a list
   * refused for a missing or taken name does not.
   */
  lemma {:induction false} AcceptanceIsByName(rules: Rules, working: Working, alterations: seq<Alteration>)
    requires WellNamed(rules, working)
    ensures match Steps(rules, working, alterations)
      case Ok(_) => IntendedAll(rules, Names(working), alterations)
      case Err(e) => IsNameError(e) ==> !IntendedAll(rules, Names(working), alterations)
    decreases |alterations|
  {
    hide Step, Intended, Names, WellNamed;
    if alterations != [] {
      var a := alterations[0];
      StepIntended(rules, working, a);
      if Step(rules, working, a).Ok? {
        StepWellNamed(rules, working, a);
        AcceptanceIsByName(rules, Step(rules, working, a).value.0, alterations[1..]);
      }
    }
  }

  const PLAIN_RULES := Rules(s => s, s => TypeParts(s, None, None, None), _ => true, _ => true)

  const NO_CHANGES := Changes(None, Keep, Keep, Keep, None, Keep, None, Keep, Keep, false)

  /** A default is set, then a comment: the second statement takes the default away again. */
  lemma {:induction false} SecondChangeForgetsDefault(name: string, text: string, comment: string)
    ensures var d := Definition(name, "int", None, None, None, true, None, false, None, None);
      var alterations := [Modify(name, NO_CHANGES.(default_ := Set(Literal(text)))), Modify(name, NO_CHANGES.(comment := Set(comment)))];
      var compiled := Steps(PLAIN_RULES, map[name := Describe(d, "int")], alterations);
      && ColumnInput(PLAIN_RULES, Describe(d, "int")) == d
      && compiled.Ok?
      && compiled.value.1 == [ModifyColumn(d.(default_ := Some(Literal(text)))), ModifyColumn(d.(comment := Some(comment)))]
  {
    var d := Definition(name, "int", None, None, None, true, None, false, None, None);
    var one, two := Modify(name, NO_CHANGES.(default_ := Set(Literal(text)))), Modify(name, NO_CHANGES.(comment := Set(comment)));
    var c := Describe(d, "int");
    var working: Working := map[name := c];
    assert [one, two][1..] == [two] && [two][1..] == [];
    var first := Step(PLAIN_RULES, working, one);
    assert first == Ok((working[name := c], [ModifyColumn(d.(default_ := Some(Literal(text))))]));
    assert working[name := c] == working;
    var second := Step(PLAIN_RULES, working, two);
    assert second.Ok? && second.value.1 == [ModifyColumn(d.(comment := Some(comment)))];
    assert Steps(PLAIN_RULES, second.value.0, []) == Ok((second.value.0, []));
    assert Steps(PLAIN_RULES, working, [two]) == Ok((second.value.0, second.value.1 + []));
  }

  /** A length is set, then a comment: the second statement has no length. */
  lemma {:induction false} SecondChangeForgetsLength(name: string, length: nat, comment: string)
    ensures var d := Definition(name, "varchar", None, None, None, true, None, false, None, None);
      var alterations := [Modify(name, NO_CHANGES.(length := Set(length))), Modify(name, NO_CHANGES.(comment := Set(comment)))];
      var compiled := Steps(PLAIN_RULES, map[name := Describe(d, "varchar")], alterations);
      && ColumnInput(PLAIN_RULES, Describe(d, "varchar")) == d
      && compiled.Ok?
      && compiled.value.1 == [ModifyColumn(d.(length := Some(length))), ModifyColumn(d.(comment := Some(comment)))]
  {
    var d := Definition(name, "varchar", None, None, None, true, None, false, None, None);
    var one, two := Modify(name, NO_CHANGES.(length := Set(length))), Modify(name, NO_CHANGES.(comment := Set(comment)));
    var c := Describe(d, "varchar");
    var working: Working := map[name := c];
    assert [one, two][1..] == [two] && [two][1..] == [];
    var first := Step(PLAIN_RULES, working, one);
    assert first == Ok((working[name := c], [ModifyColumn(d.(length := Some(length)))]));
    assert working[name := c] == working;
    var second := Step(PLAIN_RULES, working, two);
    assert second.Ok? && second.value.1 == [ModifyColumn(d.(comment := Some(comment)))];
    assert Steps(PLAIN_RULES, second.value.0, []) == Ok((second.value.0, []));
    assert Steps(PLAIN_RULES, working, [two]) == Ok((second.value.0, second.value.1 + []));
  }
}
