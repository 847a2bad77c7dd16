/** The retry-safe concurrent index migration, as statements against a catalog. A statement may
    fail or be cut short at any point, and the migration is run again until it succeeds. */
module IndexMigration {
  import opened Results
  import opened Text
  import opened Quoting

  const TABLE := "learning_context_snapshots"
  const COLUMN := "source_draft_id"
  const INDEX := "uq_lcs_source_draft_id"

  // ---------------------------------------------------------------- the catalog

  /** The row that the migration reads about an index. */
  datatype IndexState = IndexState(
    valid: bool, ready: bool, unique: bool, accessMethod: string, keyAttributes: int, totalAttributes: int,
    predicateText: Option<string>, expressions: Option<string>, attribute: Option<string>, options: int,
    defaultOperatorClass: bool, columnCollation: bool, nullsDistinct: bool, defaultStorage: bool,
    defaultTablespace: bool, tableSchema: string, tableName: string)

  /** A table knows whether it has the column and whether two of its non-null ids are equal.
      An index has an identity, and may belong to a constraint or to a partitioned table. */
  datatype Relation =
    | Table(partitioned: bool, column: bool, duplicates: bool)
    | Index(id: nat, state: IndexState, owned: bool, partitioned: bool)
    | Other

  datatype Name = Name(schema: string, relation: string)

  datatype Catalog = Catalog(relations: map<Name, Relation>, next: nat)

  function At(c: Catalog, n: Name): Option<Relation> {
    if n in c.relations then Some(c.relations[n]) else None
  }

  /** isExactReadyUniqueIndex */
  predicate IsExactState(s: IndexState, schema: string) {
    && s.valid && s.ready && s.unique
    && s.accessMethod == "btree"
    && s.keyAttributes == 1 && s.totalAttributes == 1
    && s.predicateText == None && s.expressions == None
    && s.attribute == Some(COLUMN)
    && s.options == 0
    && s.defaultOperatorClass && s.columnCollation && s.nullsDistinct && s.defaultStorage && s.defaultTablespace
    && s.tableSchema == schema && s.tableName == TABLE
  }

  // ---------------------------------------------------------------- statements

  datatype Statement =
    | DropIndex(schema: string, index: string)
    | CreateIndex(index: string, schema: string, table: string, column: string)

  /** How far a statement gets: all the way, nowhere, part of the way, or all the way with the answer
      lost. A crash before a statement is the same as not getting anywhere. */
  datatype Course = Complete | Nowhere | Partly(ready: bool) | AnswerLost

  datatype Effect = Effect(catalog: Catalog, ok: bool)

  function Invalid(s: IndexState, ready: bool): IndexState {
    s.(valid := false, ready := ready)
  }

  /** What CREATE UNIQUE INDEX makes; the session decides the tablespace. */
  function Built(st: Statement, tablespace: bool): IndexState
    requires st.CreateIndex?
  {
    IndexState(true, true, true, "btree", 1, 1, None, None, Some(st.column), 0, true, true, true, true,
               tablespace, st.schema, st.table)
  }

  /** DROP INDEX CONCURRENTLY refuses what is no index, an index of a constraint and a partitioned
      index; cut short it can leave the index behind, invalid. */
  function Drop(c: Catalog, n: Name, course: Course): Effect {
    match At(c, n)
    case Some(Index(id, state, owned, partitioned)) =>
      if owned || partitioned then Effect(c, false)
      else
        (match course
         case Complete => Effect(c.(relations := c.relations - {n}), true)
         case Nowhere => Effect(c, false)
         case Partly(ready) =>
           Effect(c.(relations := c.relations[n := Index(id, Invalid(state, ready), owned, partitioned)]), false)
         case AnswerLost => Effect(c.(relations := c.relations - {n}), false))
    case _ => Effect(c, false)
  }

  predicate CanIndex(t: Option<Relation>, column: string) {
    t.Some? && t.value.Table? && !t.value.partitioned && t.value.column && column == COLUMN
  }

  function Put(c: Catalog, n: Name, state: IndexState): Catalog {
    Catalog(c.relations[n := Index(c.next, state, false, false)], c.next + 1)
  }

  /** CREATE UNIQUE INDEX CONCURRENTLY refuses a taken name and a partitioned table; duplicates, or
      being cut short, leave an invalid index. */
  function Create(c: Catalog, st: Statement, course: Course, tablespace: bool): Effect
    requires st.CreateIndex?
  {
    var n, t := Name(st.schema, st.index), At(c, Name(st.schema, st.table));
    if At(c, n).Some? || !CanIndex(t, st.column) then Effect(c, false)
    else
      match course
      case Nowhere => Effect(c, false)
      case Partly(ready) => Effect(Put(c, n, Invalid(Built(st, tablespace), ready)), false)
      case Complete =>
        if t.value.duplicates then Effect(Put(c, n, Invalid(Built(st, tablespace), false)), false)
        else Effect(Put(c, n, Built(st, tablespace)), true)
      case AnswerLost =>
        if t.value.duplicates then Effect(Put(c, n, Invalid(Built(st, tablespace), false)), false)
        else Effect(Put(c, n, Built(st, tablespace)), false)
  }

  /** What DROP does: it succeeds exactly when it completes on an index that may be dropped, and touches
      nothing but the name. */
  lemma DropTells(c: Catalog, n: Name, course: Course)
    ensures var (r, before) := (Drop(c, n, course), At(c, n));
      var droppable := before.Some? && before.value.Index? && !before.value.owned && !before.value.partitioned;
      && (r.ok <==> droppable && course == Complete)
      && r.catalog.next == c.next && (forall m | m != n :: At(r.catalog, m) == At(c, m))
      && At(r.catalog, n)
           == if !droppable || course == Nowhere then before
              else if course.Partly? then Some(before.value.(state := Invalid(before.value.state, course.ready)))
              else None
  {
  }

  /** What CREATE does: it succeeds exactly when it completes on an ordinary table with the column and
      without duplicates, under a free name; in every other case that gets somewhere the index is left
      invalid, except when the answer of a complete one is lost. */
  lemma CreateTells(c: Catalog, st: Statement, course: Course, tablespace: bool)
    requires st.CreateIndex?
    ensures var (r, n) := (Create(c, st, course, tablespace), Name(st.schema, st.index));
      var t := At(c, Name(st.schema, st.table));
      var allowed := At(c, n) == None && st.column == COLUMN
                     && (t == Some(Table(false, true, false)) || t == Some(Table(false, true, true)));
      var clean := t == Some(Table(false, true, false)) && !course.Partly?;
      && (r.ok <==> allowed && clean && course == Complete)
      && (forall m | m != n :: At(r.catalog, m) == At(c, m))
      && (!allowed || course == Nowhere ==> r.catalog == c)
      && (allowed && course != Nowhere ==>
            && At(r.catalog, n).Some? && At(r.catalog, n).value.Index?
            && At(r.catalog, n).value.id == c.next < r.catalog.next
            && !At(r.catalog, n).value.owned && !At(r.catalog, n).value.partitioned
            && (At(r.catalog, n).value.state.valid <==> clean)
            && (clean ==> At(r.catalog, n).value.state == Built(st, tablespace)))
  {
  }

  function Apply(c: Catalog, st: Statement, course: Course, tablespace: bool): Effect {
    match st
    case DropIndex(schema, index) => Drop(c, Name(schema, index), course)
    case CreateIndex(_, _, _, _) => Create(c, st, course, tablespace)
  }

  // ---------------------------------------------------------------- the text of a statement

  const DROP_WORDS := "DROP INDEX CONCURRENTLY "
  const CREATE_WORDS := "CREATE UNIQUE INDEX CONCURRENTLY "

  function Qualified(q: string, schema: string, name: string, rest: string): string
    requires q != ""
  {
    Quoted(q, schema) + ("." + (Quoted(q, name) + rest))
  }

  function TargetText(q: string, schema: string, table: string, column: string): string
    requires q != ""
  {
    Qualified(q, schema, table, " (" + (Quoted(q, column) + ")"))
  }

  function StatementText(q: string, st: Statement): string
    requires q != ""
  {
    match st
    case DropIndex(schema, index) => DROP_WORDS + Qualified(q, schema, index, "")
    case CreateIndex(index, schema, table, column) =>
      CREATE_WORDS + (Quoted(q, index) + (" ON " + TargetText(q, schema, table, column)))
  }

  /** What follows a fixed part of the text. */
  function After(text: string, part: string): Option<string> {
    if StartsWith(text, part) then Some(text[|part|..]) else None
  }

  function ReadName(q: string, text: string): Option<(string, string)>
    requires q != ""
  {
    ReadQuoted(q, text)
  }

  function ReadDrop(q: string, text: string): Option<Statement>
    requires q != ""
  {
    match ReadName(q, text)
    case None => None
    case Some((schema, t1)) =>
      match After(t1, ".")
      case None => None
      case Some(t2) =>
        match ReadName(q, t2)
        case Some((index, "")) => Some(DropIndex(schema, index))
        case _ => None
  }

  function ReadTarget(q: string, index: string, text: string): Option<Statement>
    requires q != ""
  {
    match ReadName(q, text)
    case None => None
    case Some((schema, t1)) =>
      match After(t1, ".")
      case None => None
      case Some(t2) =>
        match ReadName(q, t2)
        case None => None
        case Some((table, t3)) =>
          match After(t3, " (")
          case None => None
          case Some(t4) =>
            match ReadName(q, t4)
            case Some((column, ")")) => Some(CreateIndex(index, schema, table, column))
            case _ => None
  }

  function ReadCreate(q: string, text: string): Option<Statement>
    requires q != ""
  {
    match ReadName(q, text)
    case None => None
    case Some((index, t1)) =>
      match After(t1, " ON ")
      case None => None
      case Some(t2) => ReadTarget(q, index, t2)
  }

  /** The database's reading of the two forms of statement. */
  function ReadStatement(q: string, text: string): Option<Statement>
    requires q != ""
  {
    match After(text, DROP_WORDS)
    case Some(rest) => ReadDrop(q, rest)
    case None =>
      match After(text, CREATE_WORDS)
      case Some(rest) => ReadCreate(q, rest)
      case None => None
  }

  lemma AfterRead(part: string, rest: string)
    ensures After(part + rest, part) == Some(rest)
  {
  }

  /** A quote without border, and no beginning of what stands behind a name. */
  predicate IsQuote(q: string) {
    && q != "" && !Bordered(q)
    && !StartsWith(".", q) && !StartsWith(" ON ", q) && !StartsWith(" (", q) && !StartsWith(")", q)
  }

  /** A name in front of a mark and another quoted name. */
  lemma NameRead(q: string, name: string, mark: string, rest: string)
    requires q != "" && !Bordered(q) && mark != "" && !StartsWith(mark, q) && StartsWith(rest, q)
    ensures ReadName(q, Quoted(q, name) + (mark + rest)) == Some((name, mark + rest))
  {
    PrefixAppended(mark, rest, q);
    if StartsWith(mark + rest, q) {
      Overlap(mark + rest, mark, q);
    }
    QuotedRead(q, name, mark + rest);
  }

  lemma QuotedStarts(q: string, name: string, rest: string)
    requires q != ""
    ensures StartsWith(Quoted(q, name) + rest, q)
  {
    assert (Quoted(q, name) + rest)[..|q|] == q;
  }

  lemma DropRead(q: string, schema: string, index: string)
    requires IsQuote(q)
    ensures ReadDrop(q, Qualified(q, schema, index, "")) == Some(DropIndex(schema, index))
  {
    var t2 := Quoted(q, index) + "";
    QuotedStarts(q, index, "");
    NameRead(q, schema, ".", t2);
    AfterRead(".", t2);
    QuotedRead(q, index, "");
  }

  lemma ColumnRead(q: string, column: string)
    requires IsQuote(q)
    ensures ReadName(q, Quoted(q, column) + ")") == Some((column, ")"))
  {
    QuotedRead(q, column, ")");
  }

  lemma TargetRead(q: string, index: string, schema: string, table: string, column: string)
    requires IsQuote(q)
    ensures ReadTarget(q, index, TargetText(q, schema, table, column))
         == Some(CreateIndex(index, schema, table, column))
  {
    var t4 := Quoted(q, column) + ")";
    var t2 := Quoted(q, table) + (" (" + t4);
    QuotedStarts(q, table, " (" + t4);
    QuotedStarts(q, column, ")");
    NameRead(q, schema, ".", t2);
    AfterRead(".", t2);
    NameRead(q, table, " (", t4);
    AfterRead(" (", t4);
    ColumnRead(q, column);
  }

  lemma CreateRead(q: string, index: string, tail: string)
    requires q != "" && !Bordered(q) && !StartsWith(" ON ", q) && StartsWith(tail, q)
    ensures ReadCreate(q, Quoted(q, index) + (" ON " + tail)) == ReadTarget(q, index, tail)
  {
    NameRead(q, index, " ON ", tail);
    AfterRead(" ON ", tail);
  }

  lemma CreateIsNoDrop(rest: string)
    ensures After(CREATE_WORDS + rest, DROP_WORDS) == None
  {
    var text := CREATE_WORDS + rest;
    assert DROP_WORDS[0] == 'D' && CREATE_WORDS[0] == 'C';
    assert text[0] == 'C';
    assert text[..|DROP_WORDS|][0] == text[0];
  }

  /** Main result: whatever the schema is called, the text of a statement is read as that statement,
      so its names can neither end early nor become words of the statement. */
  lemma StatementRead(q: string, st: Statement)
    requires IsQuote(q)
    ensures ReadStatement(q, StatementText(q, st)) == Some(st)
  {
    match st
    case DropIndex(schema, index) =>
      AfterRead(DROP_WORDS, Qualified(q, schema, index, ""));
      DropRead(q, schema, index);
    case CreateIndex(index, schema, table, column) =>
      var tail := TargetText(q, schema, table, column);
      var rest := Quoted(q, index) + (" ON " + tail);
      AfterRead(CREATE_WORDS, rest);
      CreateIsNoDrop(rest);
      QuotedStarts(q, schema, "." + (Quoted(q, table) + (" (" + (Quoted(q, column) + ")"))));
      CreateRead(q, index, tail);
      TargetRead(q, index, schema, table, column);
  }

  // A text whose first name is misread is not read as its statement.

  lemma DropMisread(q: string, schema: string, index: string)
    requires q != ""
    requires var read := ReadName(q, Qualified(q, schema, index, "")); read.Some? ==> read.value.0 != schema
    ensures ReadStatement(q, StatementText(q, DropIndex(schema, index))) != Some(DropIndex(schema, index))
  {
    AfterRead(DROP_WORDS, Qualified(q, schema, index, ""));
  }

  lemma CreateMisread(q: string, st: Statement)
    requires q != "" && st.CreateIndex?
    requires ReadCreate(q, Quoted(q, st.index) + (" ON " + TargetText(q, st.schema, st.table, st.column))) != Some(st)
    ensures ReadStatement(q, StatementText(q, st)) != Some(st)
  {
    var rest := Quoted(q, st.index) + (" ON " + TargetText(q, st.schema, st.table, st.column));
    AfterRead(CREATE_WORDS, rest);
    CreateIsNoDrop(rest);
  }

  const EMPTY_NAMES := CreateIndex("", "", "", "")

  lemma BorderedMisread(q: string, k: nat)
    requires 0 < k < |q| && q[..k] == q[|q| - k..]
    ensures var st := DropIndex(q[..|q| - k], ""); ReadStatement(q, StatementText(q, st)) != Some(st)
  {
    BorderMisread(q, k, "." + (Quoted(q, "") + ""));
    DropMisread(q, q[..|q| - k], "");
  }

  lemma DotMisread(q: string)
    requires q != "" && !Bordered(q) && StartsWith(".", q)
    ensures ReadStatement(q, StatementText(q, DropIndex("", ""))) != Some(DropIndex("", ""))
  {
    var rest := "." + (Quoted(q, "") + "");
    assert rest[..|q|] == "."[..|q|];
    QuotedRunsOn(q, "", rest);
    DropMisread(q, "", "");
  }

  lemma OnMisread(q: string)
    requires q != "" && !Bordered(q) && StartsWith(" ON ", q)
    ensures ReadStatement(q, StatementText(q, EMPTY_NAMES)) != Some(EMPTY_NAMES)
  {
    var rest := " ON " + TargetText(q, "", "", "");
    assert rest[..|q|] == " ON "[..|q|];
    QuotedRunsOn(q, "", rest);
    CreateMisread(q, EMPTY_NAMES);
  }

  lemma TargetMisread(q: string)
    requires q != "" && !Bordered(q) && !StartsWith(".", q) && !StartsWith(" ON ", q)
    requires StartsWith(" (", q) || StartsWith(")", q)
    ensures ReadStatement(q, StatementText(q, EMPTY_NAMES)) != Some(EMPTY_NAMES)
  {
    var t4 := Quoted(q, "") + ")";
    var t2 := Quoted(q, "") + (" (" + t4);
    QuotedStarts(q, "", " (" + t4);
    QuotedStarts(q, "", ")");
    QuotedStarts(q, "", "." + t2);
    CreateRead(q, "", TargetText(q, "", "", ""));
    NameRead(q, "", ".", t2);
    AfterRead(".", t2);
    if StartsWith(" (", q) {
      assert (" (" + t4)[..|q|] == " ("[..|q|];
      QuotedRunsOn(q, "", " (" + t4);
    } else {
      NameRead(q, "", " (", t4);
      AfterRead(" (", t4);
      QuotedRunsOn(q, "", ")");
    }
    CreateMisread(q, EMPTY_NAMES);
  }

  lemma SomeStatementMisread(q: string) returns (st: Statement)
    requires q != "" && !IsQuote(q)
    ensures ReadStatement(q, StatementText(q, st)) != Some(st)
  {
    if Bordered(q) {
      var k :| 0 < k < |q| && q[..k] == q[|q| - k..];
      BorderedMisread(q, k);
      st := DropIndex(q[..|q| - k], "");
    } else if StartsWith(".", q) {
      DotMisread(q);
      st := DropIndex("", "");
    } else if StartsWith(" ON ", q) {
      OnMisread(q);
      st := EMPTY_NAMES;
    } else {
      TargetMisread(q);
      st := EMPTY_NAMES;
    }
  }

  /** Main result: for exactly these quotes is every statement read back, whatever its names. */
  lemma StatementsReadExactlyWhen(q: string)
    requires q != ""
    ensures IsQuote(q) <==> forall st :: ReadStatement(q, StatementText(q, st)) == Some(st)
  {
    if IsQuote(q) {
      forall st ensures ReadStatement(q, StatementText(q, st)) == Some(st) {
        StatementRead(q, st);
      }
    } else {
      var st := SomeStatementMisread(q);
    }
  }

  /** PostgreSQL's quote is one of them. */
  lemma DoubleQuoteWorks()
    ensures IsQuote("\"") && !IsBlank("\"")
  {
    assert "\""[0] == '"';
  }

  /** The printer's concatenations, from left to right. */
  lemma DropTextIs(q: string, schema: string, index: string)
    requires q != ""
    ensures DROP_WORDS + (Quoted(q, schema) + "." + Quoted(q, index)) == StatementText(q, DropIndex(schema, index))
  {
    Nested(DROP_WORDS, Quoted(q, schema), ".", Quoted(q, index));
  }

  lemma Nested(a: string, b: string, c: string, d: string)
    ensures a + (b + c + d) == a + (b + (c + (d + "")))
  {
  }

  lemma CreateTextIs(q: string, st: Statement)
    requires q != "" && st.CreateIndex?
    ensures CREATE_WORDS + Quoted(q, st.index) + " ON " + (Quoted(q, st.schema) + "." + Quoted(q, st.table))
              + " (" + Quoted(q, st.column) + ")"
         == StatementText(q, st)
  {
    LeftToRight(CREATE_WORDS, Quoted(q, st.index), " ON ", Quoted(q, st.schema), ".", Quoted(q, st.table),
                " (", Quoted(q, st.column), ")");
  }

  lemma LeftToRight(a: string, b: string, c: string, d: string, e: string, f: string, g: string, h: string, i: string)
    ensures a + b + c + (d + e + f) + g + h + i == a + (b + (c + (d + (e + (f + (g + (h + i)))))))
  {
  }

  // ---------------------------------------------------------------- the migration

  datatype MigrationError = NoSchema | LookupFailed | NoQuoting | StatementFailed

  datatype Success = NoTable | AlreadyExact | Created

  /** What goes wrong in one run: the catalog queries, and how far each statement gets. */
  datatype Faults = Faults(lookup: bool, drop: Course, create: Course)

  const NO_FAULTS := Faults(false, Complete, Complete)

  /** configuredSchema: the configured one, else that of the connection. */
  function ConfiguredSchema(configured: Option<string>, current: Option<string>): (r: Option<string>)
    ensures r.Some? ==> (r == configured || r == current) && !IsBlank(r.value) && '\0' !in r.value
    ensures configured.Some? && !IsBlank(configured.value) ==> r == configured || r == None
  {
    var schema := if configured == None || IsBlank(configured.value) then current else configured;
    if schema == None || IsBlank(schema.value) || '\0' in schema.value then None else schema
  }

  function IndexName(schema: string): Name {
    Name(schema, INDEX)
  }

  function TableName(schema: string): Name {
    Name(schema, TABLE)
  }

  predicate HasTable(c: Catalog, schema: string) {
    At(c, TableName(schema)).Some? && At(c, TableName(schema)).value.Table?
  }

  /** indexState: what the name stands for, when it stands for an index. */
  function ExistingIndex(c: Catalog, schema: string): Option<IndexState> {
    match At(c, IndexName(schema))
    case Some(Index(_, state, _, _)) => Some(state)
    case _ => None
  }

  predicate Exact(c: Catalog, schema: string) {
    ExistingIndex(c, schema).Some? && IsExactState(ExistingIndex(c, schema).value, schema)
  }

  function TheDrop(schema: string): Statement {
    DropIndex(schema, INDEX)
  }

  function TheCreate(schema: string): Statement {
    CreateIndex(INDEX, schema, TABLE, COLUMN)
  }

  datatype Ran = Ran(catalog: Catalog, outcome: Result<Success, MigrationError>)

  function Rebuild(c: Catalog, schema: string, tablespace: bool, faults: Faults): Ran {
    var dropped :=
      if ExistingIndex(c, schema).Some? then Apply(c, TheDrop(schema), faults.drop, tablespace) else Effect(c, true);
    if !dropped.ok then Ran(dropped.catalog, Err(StatementFailed))
    else
      var created := Apply(dropped.catalog, TheCreate(schema), faults.create, tablespace);
      Ran(created.catalog, if created.ok then Ok(Created) else Err(StatementFailed))
  }

  /** One run of the migration in a schema. */
  function Run(c: Catalog, schema: string, tablespace: bool, faults: Faults): Ran {
    if faults.lookup then Ran(c, Err(LookupFailed))
    else if !HasTable(c, schema) then Ran(c, Ok(NoTable))
    else if Exact(c, schema) then Ran(c, Ok(AlreadyExact))
    else Rebuild(c, schema, tablespace, faults)
  }

  /** What the database does with a text: nothing unless it reads a statement in it. */
  function ApplyText(c: Catalog, q: string, text: string, course: Course, tablespace: bool): Effect
    requires q != ""
  {
    match ReadStatement(q, text)
    case None => Effect(c, false)
    case Some(st) => Apply(c, st, course, tablespace)
  }

  function RebuildPrinted(c: Catalog, q: string, schema: string, tablespace: bool, faults: Faults): Ran
    requires q != ""
  {
    var dropped :=
      if ExistingIndex(c, schema).Some?
      then ApplyText(c, q, StatementText(q, TheDrop(schema)), faults.drop, tablespace) else Effect(c, true);
    if !dropped.ok then Ran(dropped.catalog, Err(StatementFailed))
    else
      var created := ApplyText(dropped.catalog, q, StatementText(q, TheCreate(schema)), faults.create, tablespace);
      Ran(created.catalog, if created.ok then Ok(Created) else Err(StatementFailed))
  }

  /** One run through the printed texts, for whatever quote the database reports. */
  function RunPrinted(c: Catalog, quote: Option<string>, schema: string, tablespace: bool, faults: Faults): Ran {
    if faults.lookup then Ran(c, Err(LookupFailed))
    else if !HasTable(c, schema) then Ran(c, Ok(NoTable))
    else if Exact(c, schema) then Ran(c, Ok(AlreadyExact))
    else if quote == None || IsBlank(quote.value) then Ran(c, Err(NoQuoting))
    else RebuildPrinted(c, quote.value, schema, tablespace, faults)
  }

  lemma TextApplied(c: Catalog, q: string, st: Statement, course: Course, tablespace: bool)
    requires IsQuote(q)
    ensures ApplyText(c, q, StatementText(q, st), course, tablespace) == Apply(c, st, course, tablespace)
  {
    StatementRead(q, st);
  }

  lemma PrintedIsRebuild(c: Catalog, q: string, schema: string, tablespace: bool, faults: Faults, dropped: Catalog)
    requires IsQuote(q)
    requires dropped
          == if ExistingIndex(c, schema).Some? then Apply(c, TheDrop(schema), faults.drop, tablespace).catalog else c
    ensures RebuildPrinted(c, q, schema, tablespace, faults) == Rebuild(c, schema, tablespace, faults)
  {
    TextApplied(c, q, TheDrop(schema), faults.drop, tablespace);
    TextApplied(dropped, q, TheCreate(schema), faults.create, tablespace);
  }

  /** Main result: with a proper quote, printing and reading back drop out, and a run does what its
      statements say, whatever the schema is called. */
  lemma PrintedIsRun(c: Catalog, q: string, schema: string, tablespace: bool, faults: Faults)
    requires IsQuote(q) && !IsBlank(q)
    ensures RunPrinted(c, Some(q), schema, tablespace, faults) == Run(c, schema, tablespace, faults)
  {
    var dropped :=
      if ExistingIndex(c, schema).Some? then Apply(c, TheDrop(schema), faults.drop, tablespace).catalog else c;
    PrintedIsRebuild(c, q, schema, tablespace, faults, dropped);
  }

  /** A connection; the catalog behind it changes with every statement. */
  class Connection {
    const quote: Option<string>
    const tablespace: bool
    var catalog: Catalog

    constructor (quote: Option<string>, tablespace: bool, catalog: Catalog)
      ensures this.quote == quote && this.tablespace == tablespace && this.catalog == catalog
    {
      this.quote := quote;
      this.tablespace := tablespace;
      this.catalog := catalog;
    }

    /** statement.execute: the database acts on what it reads in the text. */
    method Execute(q: string, sql: string, course: Course) returns (ok: bool)
      requires q != ""
      modifies this`catalog
      ensures Effect(catalog, ok) == ApplyText(old(catalog), q, sql, course, tablespace)
    {
      match ReadStatement(q, sql)
      case None => ok := false;
      case Some(st) =>
        var effect := Apply(catalog, st, course, tablespace);
        catalog, ok := effect.catalog, effect.ok;
    }

    method ExecuteDrop(q: string, schema: string, course: Course) returns (ok: bool)
      requires q != ""
      modifies this`catalog
      ensures Effect(catalog, ok)
           == ApplyText(old(catalog), q, StatementText(q, TheDrop(schema)), course, tablespace)
    {
      DropTextIs(q, schema, INDEX);
      var qualifiedIndex := Quoted(q, schema) + "." + Quoted(q, INDEX);
      ok := Execute(q, DROP_WORDS + qualifiedIndex, course);
    }

    method ExecuteCreate(q: string, schema: string, course: Course) returns (ok: bool)
      requires q != ""
      modifies this`catalog
      ensures Effect(catalog, ok)
           == ApplyText(old(catalog), q, StatementText(q, TheCreate(schema)), course, tablespace)
    {
      CreateTextIs(q, TheCreate(schema));
      var qualifiedTable := Quoted(q, schema) + "." + Quoted(q, TABLE);
      ok := Execute(q, CREATE_WORDS + Quoted(q, INDEX) + " ON " + qualifiedTable
                       + " (" + Quoted(q, COLUMN) + ")", course);
    }

    /** migrate: the two statements are printed, with every name quoted, and executed one by one. */
    method Migrate(configured: Option<string>, current: Option<string>, faults: Faults)
      returns (outcome: Result<Success, MigrationError>)
      modifies this`catalog
      ensures match ConfiguredSchema(configured, current)
              case None => outcome == Err(NoSchema) && catalog == old(catalog)
              case Some(schema) => Ran(catalog, outcome) == RunPrinted(old(catalog), quote, schema, tablespace, faults)
    {
      var found := ConfiguredSchema(configured, current);
      if found == None {
        return Err(NoSchema);
      }
      var schema := found.value;
      if faults.lookup {
        return Err(LookupFailed);
      }
      if !HasTable(catalog, schema) {
        return Ok(NoTable);
      }
      var existing := ExistingIndex(catalog, schema);
      if existing.Some? && IsExactState(existing.value, schema) {
        return Ok(AlreadyExact);
      }
      if QuoteIdentifier(quote, schema) == None {
        return Err(NoQuoting);
      }
      if existing.Some? {
        var dropped := ExecuteDrop(quote.value, schema, faults.drop);
        if !dropped {
          return Err(StatementFailed);
        }
      }
      var created := ExecuteCreate(quote.value, schema, faults.create);
      outcome := if created then Ok(Created) else Err(StatementFailed);
    }
  }

  // ---------------------------------------------------------------- what a run looks for

  /** Something stands under the table's name that is a table, ordinary or partitioned. */
  predicate TableThere(c: Catalog, schema: string) {
    match At(c, Name(schema, "learning_context_snapshots"))
    case Some(Table(_, _, _)) => true
    case _ => false
  }

  /** The index has its name and every property that it should have. */
  predicate ExactThere(c: Catalog, schema: string) {
    match At(c, Name(schema, "uq_lcs_source_draft_id"))
    case Some(Index(_, state, _, _)) => state == ExactState(schema, true)
    case _ => false
  }

  function ExactState(schema: string, tablespace: bool): IndexState {
    IndexState(true, true, true, "btree", 1, 1, None, None, Some("source_draft_id"), 0, true, true, true, true,
               tablespace, schema, "learning_context_snapshots")
  }

  /** What the migration cannot change: an ordinary table with the column and without duplicates,
      and a name that is free or held by an index that may be dropped. */
  predicate CanBuild(c: Catalog, schema: string) {
    && At(c, Name(schema, "learning_context_snapshots")) == Some(Table(false, true, false))
    && match At(c, Name(schema, "uq_lcs_source_draft_id"))
       case None => true
       case Some(Index(_, _, owned, partitioned)) => !owned && !partitioned
       case _ => false
  }

  /** The same, by the functions of the migration. */
  predicate Buildable(c: Catalog, schema: string) {
    && CanIndex(At(c, TableName(schema)), COLUMN)
    && !At(c, TableName(schema)).value.duplicates
    && match At(c, IndexName(schema))
       case None => true
       case Some(Index(_, _, owned, partitioned)) => !owned && !partitioned
       case _ => false
  }

  lemma NamesAre()
    ensures TABLE == "learning_context_snapshots" && COLUMN == "source_draft_id" && INDEX == "uq_lcs_source_draft_id"
  {
  }

  /** The migration finds the table, and takes an index for the exact one, exactly when they are there. */
  lemma LooksRight(c: Catalog, schema: string)
    ensures HasTable(c, schema) <==> TableThere(c, schema)
    ensures Exact(c, schema) <==> ExactThere(c, schema)
    ensures Buildable(c, schema) <==> CanBuild(c, schema)
  {
    NamesAre();
  }

  /** Which schema is used: the configured one, unless it is missing or blank; and when none is. */
  lemma SchemaChosen(configured: Option<string>, current: Option<string>, schema: string)
    ensures ConfiguredSchema(configured, current) == Some(schema)
       <==> && !IsBlank(schema) && '\0' !in schema
            && (configured == Some(schema)
                || ((configured == None || IsBlank(configured.value)) && current == Some(schema)))
  {
  }

  /** When a run fails for want of a quote: it has something to do, and the database exposes none. */
  lemma NoQuotingExactlyWhen(c: Catalog, quote: Option<string>, schema: string, tablespace: bool, faults: Faults)
    ensures RunPrinted(c, quote, schema, tablespace, faults).outcome == Err(NoQuoting)
       <==> && !faults.lookup && TableThere(c, schema) && !ExactThere(c, schema)
            && (quote == None || IsBlank(quote.value))
    ensures RunPrinted(c, quote, schema, tablespace, faults).outcome == Err(NoQuoting) ==>
      RunPrinted(c, quote, schema, tablespace, faults).catalog == c
  {
    LooksRight(c, schema);
  }

  lemma {:induction false} NothingReplaced(s: string, quote: string)
    requires |quote| == 1 && quote[0] !in s
    ensures Replace(s, quote, quote + quote) == s
    decreases |s|
  {
    if s != "" {
      assert s[0] in s && s[..1][0] == s[0];
      NothingReplaced(s[1..], quote);
    }
  }

  lemma NameQuoted(name: string)
    requires '"' !in name
    ensures Quoted("\"", name) == Between(name)
  {
    NothingReplaced(name, "\"");
  }

  /** A name between double quotes. */
  function Between(name: string): string {
    "\"" + name + "\""
  }

  /** The two statements for a schema without quotes in its name, spelled out. */
  lemma StatementsSpelled(schema: string)
    requires '"' !in schema
    ensures StatementText("\"", TheDrop(schema))
         == "DROP INDEX CONCURRENTLY " + (Between(schema) + "." + Between("uq_lcs_source_draft_id"))
    ensures StatementText("\"", TheCreate(schema))
         == "CREATE UNIQUE INDEX CONCURRENTLY " + Between("uq_lcs_source_draft_id") + " ON "
              + (Between(schema) + "." + Between("learning_context_snapshots"))
              + " (" + Between("source_draft_id") + ")"
  {
    NamesAre();
    NameQuoted(schema);
    ConstantsPlain();
    NameQuoted(INDEX);
    NameQuoted(TABLE);
    NameQuoted(COLUMN);
    DropTextIs("\"", schema, INDEX);
    CreateTextIs("\"", TheCreate(schema));
  }

  lemma ConstantsPlain()
    ensures '"' !in INDEX && '"' !in TABLE && '"' !in COLUMN
  {
  }

  // ---------------------------------------------------------------- any number of runs

  /** Main result: the test and the statement agree in every field. What the migration takes for the
      exact index is just what its CREATE makes in a session with the default tablespace. */
  lemma ExactIsBuilt(s: IndexState, schema: string)
    ensures IsExactState(s, schema) <==> s == Built(TheCreate(schema), true)
  {
  }

  /** One run after another, each with its own faults. */
  function Runs(c: Catalog, schema: string, tablespace: bool, history: seq<Faults>): Catalog
    decreases |history|
  {
    if history == [] then c
    else Runs(Run(c, schema, tablespace, history[0]).catalog, schema, tablespace, history[1..])
  }

  lemma NamesDiffer(schema: string)
    ensures IndexName(schema) != TableName(schema)
  {
  }

  /** Main result: a run touches one name only. */
  lemma RunFrame(c: Catalog, schema: string, tablespace: bool, faults: Faults, other: Name)
    requires other != IndexName(schema)
    ensures At(Run(c, schema, tablespace, faults).catalog, other) == At(c, other)
  {
  }

  /** Whatever goes wrong, a run leaves it as possible or impossible to build the index as it was,
      unless the exact index is there. */
  lemma RunKeepsBuildable(c: Catalog, schema: string, tablespace: bool, faults: Faults)
    requires !Exact(c, schema)
    ensures Buildable(Run(c, schema, tablespace, faults).catalog, schema) <==> Buildable(c, schema)
    ensures Exact(Run(c, schema, tablespace, faults).catalog, schema) ==> Buildable(c, schema) && tablespace
  {
    NamesDiffer(schema);
    RunFrame(c, schema, tablespace, faults, TableName(schema));
  }

  /** Main result: an exact index is never rebuilt. Over any number of runs with any faults the
      catalog stays as it is, the identity of the index included. */
  lemma {:induction false} ExactIsKept(c: Catalog, schema: string, tablespace: bool, history: seq<Faults>)
    requires Exact(c, schema)
    ensures Runs(c, schema, tablespace, history) == c
    decreases |history|
  {
    if history != [] {
      assert Run(c, schema, tablespace, history[0]).catalog == c;
      ExactIsKept(c, schema, tablespace, history[1..]);
    }
  }

  lemma {:induction false} RunsKeepBuildable(c: Catalog, schema: string, tablespace: bool, history: seq<Faults>)
    ensures var d := Runs(c, schema, tablespace, history);
      && (Exact(d, schema) ==> Exact(c, schema) || (Buildable(c, schema) && tablespace))
      && (!Exact(d, schema) ==> !Exact(c, schema) && (Buildable(d, schema) <==> Buildable(c, schema)))
    decreases |history|
  {
    if history != [] {
      var d := Run(c, schema, tablespace, history[0]).catalog;
      if Exact(c, schema) {
        ExactIsKept(c, schema, tablespace, history);
      } else {
        RunKeepsBuildable(c, schema, tablespace, history[0]);
        RunsKeepBuildable(d, schema, tablespace, history[1..]);
      }
    }
  }

  /** A run without faults ends with the exact index when there is one or it can be built, and in no
      other case; it fails exactly when there is a table, no exact index, and none can be built. */
  lemma CleanRun(c: Catalog, schema: string, tablespace: bool)
    ensures ExactThere(Run(c, schema, tablespace, NO_FAULTS).catalog, schema)
       <==> ExactThere(c, schema) || (CanBuild(c, schema) && tablespace)
    ensures Run(c, schema, tablespace, NO_FAULTS).outcome.Ok?
       <==> !TableThere(c, schema) || ExactThere(c, schema) || CanBuild(c, schema)
  {
    LooksRight(c, schema);
    LooksRight(Run(c, schema, tablespace, NO_FAULTS).catalog, schema);
  }

  /** Main result, convergence: after any number of runs that failed in any way, one run without
      faults ends with the exact, ready, unique index exactly when the index was exact to begin
      with, or it could be built and the session puts indexes into the default tablespace. */
  lemma ConvergesExactlyWhen(c: Catalog, schema: string, tablespace: bool, history: seq<Faults>)
    ensures ExactThere(Run(Runs(c, schema, tablespace, history), schema, tablespace, NO_FAULTS).catalog, schema)
       <==> ExactThere(c, schema) || (CanBuild(c, schema) && tablespace)
  {
    RunsKeepBuildable(c, schema, tablespace, history);
    CleanRun(Runs(c, schema, tablespace, history), schema, tablespace);
    LooksRight(c, schema);
    LooksRight(Runs(c, schema, tablespace, history), schema);
  }

  /** Main result: a run says that there is nothing to do for want of a table exactly when the catalog
      holds no table, of either kind, under that name. */
  lemma NoTableExactlyWhen(c: Catalog, schema: string, tablespace: bool, faults: Faults)
    ensures Run(c, schema, tablespace, faults).outcome == Ok(NoTable) <==> !faults.lookup && !TableThere(c, schema)
  {
    LooksRight(c, schema);
  }

  /** Main result: exactly when a run succeeds, whatever goes wrong: its lookup answers, and there is no
      table, or the exact index, or one can be built and every statement that is needed completes. */
  lemma SucceedsExactlyWhen(c: Catalog, schema: string, tablespace: bool, faults: Faults)
    ensures Run(c, schema, tablespace, faults).outcome.Ok?
       <==> && !faults.lookup
            && (|| !TableThere(c, schema) || ExactThere(c, schema)
                || (&& CanBuild(c, schema) && faults.create == Complete
                    && (At(c, Name(schema, "uq_lcs_source_draft_id")) != None ==> faults.drop == Complete)))
  {
    LooksRight(c, schema);
    NamesAre();
  }

  /** Main result: what success means. Without a table nothing has happened. With one, of any kind,
      the exact index was there and nothing has happened, or the table is ordinary, has the column and
      no duplicates, and the index has been built, exact but for the tablespace of the session. */
  lemma SuccessMeans(c: Catalog, schema: string, tablespace: bool, faults: Faults)
    requires Run(c, schema, tablespace, faults).outcome.Ok?
    ensures var d := Run(c, schema, tablespace, faults).catalog;
      if !TableThere(c, schema) || ExactThere(c, schema) then d == c
      else
        && CanBuild(c, schema)
        && match At(d, Name(schema, "uq_lcs_source_draft_id"))
           case Some(Index(id, state, owned, partitioned)) =>
             state == ExactState(schema, tablespace) && id == c.next && !owned && !partitioned
           case _ => false
  {
    LooksRight(c, schema);
    NamesAre();
  }

  /** In a session with another default tablespace the migration reports success for an index that
      it would drop and build again on its next run. */
  lemma OtherTablespaceRebuilds(c: Catalog, schema: string)
    requires CanBuild(c, schema) && !ExactThere(c, schema)
    ensures var d := Run(c, schema, false, NO_FAULTS);
      && d.outcome == Ok(Created) && !ExactThere(d.catalog, schema)
      && Run(d.catalog, schema, false, NO_FAULTS).outcome == Ok(Created)
      && At(Run(d.catalog, schema, false, NO_FAULTS).catalog, IndexName(schema)) != At(d.catalog, IndexName(schema))
  {
    LooksRight(c, schema);
    LooksRight(Run(c, schema, false, NO_FAULTS).catalog, schema);
  }
}
