/**
 * The schema-change commands a migration blueprint delivers to a table, the
 * column and index definitions they carry, and the translation of a command's
 * dispatch name into the handler that processes it.
 */
module Commands {

  /** The five kinds of index a blueprint can declare. */
  datatype IndexKind = Primary | Unique | Plain | Spatial | Foreign

  /** A declared column: its name and the bag of declared properties (type, length, default, ...). */
  datatype ColumnDefinition = ColumnDefinition(name: string, attributes: map<string, string>)

  /** What an index command declares: kind, index name and the ordered list of column names. */
  datatype IndexDefinition = IndexDefinition(kind: IndexKind, name: string, columns: seq<string>)

  /**
   * One schema-change command, already resolved to the handler that processes it.
   * `Unknown` stands for every command name that has no handler.
   */
  datatype Command =
    | Create
    | Drop
    | DropIfExists
    | DropColumn(columns: seq<string>)
    | RenameColumn(from: string, to: string)
    | AddIndex(kind: IndexKind, index: string, columns: seq<string>)
    | DropIndex(kind: IndexKind, index: string)
    | RenameIndex(from: string, to: string)
    | Rename(from: string, to: string)
    | Add
    | Change
    | Unknown(name: string)

  /**
   * The batch handed to a table: its commands in order and the three column
   * lists the handlers read (all declared columns, the added ones, the changed ones).
   */
  datatype Blueprint = Blueprint(
    commands: seq<Command>,
    columns: seq<ColumnDefinition>,
    added: seq<ColumnDefinition>,
    changed: seq<ColumnDefinition>)

  /** The named parameters a raw command may carry; absent ones are left at any value. */
  datatype Params = Params(columns: seq<string>, from: string, to: string, index: string)

  /** The names of all columns in a list of definitions. */
  function Names(defs: seq<ColumnDefinition>): set<string>
  {
    set d | d in defs :: d.name
  }

  /**
   * The name-to-definition map that inserting the definitions one after another
   * into a keyed map produces: every listed name is a key, and a name listed
   * twice ends up with its last definition.
   */
  function Declared(defs: seq<ColumnDefinition>): (m: map<string, ColumnDefinition>)
    ensures m.Keys == Names(defs)
    ensures forall n :: n in m ==> m[n].name == n && m[n] in defs
  {
    if defs == [] then map[]
    else
      var init, last := defs[..|defs| - 1], defs[|defs| - 1];
      assert defs == init + [last];
      assert Names(defs) == Names(init) + {last.name};
      Declared(init)[last.name := last]
  }

  /** A definition that no later one of the same name follows is the one recorded. */
  lemma {:induction false} DeclaredLast(defs: seq<ColumnDefinition>, k: nat)
    requires k < |defs|
    requires forall j :: k < j < |defs| ==> defs[j].name != defs[k].name
    ensures defs[k].name in Declared(defs) && Declared(defs)[defs[k].name] == defs[k]
  {
    var init, last := defs[..|defs| - 1], defs[|defs| - 1];
    if k < |defs| - 1 {
      DeclaredLast(init, k);
    }
  }

  /** ASCII lower-casing, as PHP applies to method names. */
  function LowerChar(c: char): char
  {
    if 'A' <= c <= 'Z' then (c as int + 32) as char else c
  }

  function Lower(s: string): (r: string)
    ensures |r| == |s|
    ensures forall k :: 0 <= k < |s| ==> r[k] == LowerChar(s[k])
  {
    seq(|s|, k requires 0 <= k < |s| => LowerChar(s[k]))
  }

  /** The lower-cased names of the commands that have a handler. */
  const Handled: set<string> := {
    "create", "drop", "dropifexists", "dropcolumn", "renamecolumn",
    "dropprimary", "dropunique", "dropindex", "dropspatialindex", "dropforeign",
    "renameindex", "rename",
    "primary", "unique", "index", "spatialindex", "foreign",
    "add", "change"
  }

  /**
   * Resolve a raw command (its name and parameters) to its handler. Handler
   * lookup ignores ASCII case, as PHP method names do; a name with no handler
   * becomes `Unknown` and is skipped by the table.
   */
  function Parse(name: string, p: Params): (c: Command)
    ensures c.Unknown? <==> Lower(name) !in Handled
    ensures c.Unknown? ==> c.name == name
    ensures c.DropColumn? ==> c.columns == p.columns
    ensures (c.RenameColumn? || c.RenameIndex? || c.Rename?) ==> c.from == p.from && c.to == p.to
    ensures (c.AddIndex? || c.DropIndex?) ==> c.index == p.index
    ensures c.AddIndex? ==> c.columns == p.columns
  {
    var key := Lower(name);
    if key == "create" then Create
    else if key == "drop" then Drop
    else if key == "dropifexists" then DropIfExists
    else if key == "dropcolumn" then DropColumn(p.columns)
    else if key == "renamecolumn" then RenameColumn(p.from, p.to)
    else if key == "dropprimary" then DropIndex(Primary, p.index)
    else if key == "dropunique" then DropIndex(Unique, p.index)
    else if key == "dropindex" then DropIndex(Plain, p.index)
    else if key == "dropspatialindex" then DropIndex(Spatial, p.index)
    else if key == "dropforeign" then DropIndex(Foreign, p.index)
    else if key == "renameindex" then RenameIndex(p.from, p.to)
    else if key == "rename" then Rename(p.from, p.to)
    else if key == "primary" then AddIndex(Primary, p.index, p.columns)
    else if key == "unique" then AddIndex(Unique, p.index, p.columns)
    else if key == "index" then AddIndex(Plain, p.index, p.columns)
    else if key == "spatialindex" then AddIndex(Spatial, p.index, p.columns)
    else if key == "foreign" then AddIndex(Foreign, p.index, p.columns)
    else if key == "add" then Add
    else if key == "change" then Change
    else Unknown(name)
  }

  /** The name under which the schema builder emits a command. */
  function CommandName(c: Command): string
  {
    match c
    case Create => "create"
    case Drop => "drop"
    case DropIfExists => "dropIfExists"
    case DropColumn(_) => "dropColumn"
    case RenameColumn(_, _) => "renameColumn"
    case AddIndex(k, _, _) =>
      (match k
       case Primary => "primary"
       case Unique => "unique"
       case Plain => "index"
       case Spatial => "spatialIndex"
       case Foreign => "foreign")
    case DropIndex(k, _) =>
      (match k
       case Primary => "dropPrimary"
       case Unique => "dropUnique"
       case Plain => "dropIndex"
       case Spatial => "dropSpatialIndex"
       case Foreign => "dropForeign")
    case RenameIndex(_, _) => "renameIndex"
    case Rename(_, _) => "rename"
    case Add => "add"
    case Change => "change"
    case Unknown(n) => n
  }

  /** The parameters a command is emitted with. */
  function CommandParams(c: Command): Params
  {
    match c
    case DropColumn(cs) => Params(cs, "", "", "")
    case RenameColumn(f, t) => Params([], f, t, "")
    case AddIndex(_, n, cs) => Params(cs, "", "", n)
    case DropIndex(_, n) => Params([], "", "", n)
    case RenameIndex(f, t) => Params([], f, t, "")
    case Rename(f, t) => Params([], f, t, "")
    case _ => Params([], "", "", "")
  }

  /**
   * The lower-cased name of the handler a command is processed by; for an
   * unknown command, its lower-cased name.
   */
  function HandlerName(c: Command): string
  {
    match c
    case Create => "create"
    case Drop => "drop"
    case DropIfExists => "dropifexists"
    case DropColumn(_) => "dropcolumn"
    case RenameColumn(_, _) => "renamecolumn"
    case AddIndex(k, _, _) =>
      (match k
       case Primary => "primary"
       case Unique => "unique"
       case Plain => "index"
       case Spatial => "spatialindex"
       case Foreign => "foreign")
    case DropIndex(k, _) =>
      (match k
       case Primary => "dropprimary"
       case Unique => "dropunique"
       case Plain => "dropindex"
       case Spatial => "dropspatialindex"
       case Foreign => "dropforeign")
    case RenameIndex(_, _) => "renameindex"
    case Rename(_, _) => "rename"
    case Add => "add"
    case Change => "change"
    case Unknown(n) => Lower(n)
  }

  /**
   * A name reaches the handler of that very name, up to ASCII case: "CREATE"
   * and "Create" reach the create handler, "dropSpatialIndex" the handler that
   * drops a spatial index.
   */
  lemma ParseHandlerName(name: string, p: Params)
    ensures HandlerName(Parse(name, p)) == Lower(name)
  {
    var key := Lower(name);
    if key in {"create", "drop", "dropifexists", "dropcolumn", "renamecolumn", "renameindex", "rename", "add", "change"} {
    } else if key in {"dropprimary", "dropunique", "dropindex", "dropspatialindex", "dropforeign"} {
    } else if key in {"primary", "unique", "index", "spatialindex", "foreign"} {
    }
  }

  /** A command is emitted under the name of its handler, up to ASCII case. */
  lemma {:induction false} EmittedHandlerName(c: Command)
    ensures Lower(CommandName(c)) == HandlerName(c)
  {
    var key := Lower(CommandName(c));
    match c
    case Create => assert key == "create";
    case Drop => assert key == "drop";
    case DropIfExists => assert key == "dropifexists";
    case DropColumn(_) => assert key == "dropcolumn";
    case RenameColumn(_, _) => assert key == "renamecolumn";
    case AddIndex(k, n, cs) => EmittedAddIndexName(k, n, cs);
    case DropIndex(k, n) => EmittedDropIndexName(k, n);
    case RenameIndex(_, _) => assert key == "renameindex";
    case Rename(_, _) => assert key == "rename";
    case Add => assert key == "add";
    case Change => assert key == "change";
    case Unknown(_) =>
  }

  /** The five index-declaring commands are emitted under the names of their handlers. */
  lemma EmittedAddIndexName(k: IndexKind, n: string, cs: seq<string>)
    ensures Lower(CommandName(AddIndex(k, n, cs))) == HandlerName(AddIndex(k, n, cs))
  {
    var key := Lower(CommandName(AddIndex(k, n, cs)));
    match k
    case Primary => assert key == "primary";
    case Unique => assert key == "unique";
    case Plain => assert key == "index";
    case Spatial => assert key == "spatialindex";
    case Foreign => assert key == "foreign";
  }

  /** The five index-dropping commands are emitted under the names of their handlers. */
  lemma EmittedDropIndexName(k: IndexKind, n: string)
    ensures Lower(CommandName(DropIndex(k, n))) == HandlerName(DropIndex(k, n))
  {
    var key := Lower(CommandName(DropIndex(k, n)));
    match k
    case Primary => assert key == "dropprimary";
    case Unique => assert key == "dropunique";
    case Plain => assert key == "dropindex";
    case Spatial => assert key == "dropspatialindex";
    case Foreign => assert key == "dropforeign";
  }

  /**
   * The command a name resolves to is emitted under that name up to ASCII
   * case, so dispatch never picks the handler of another name.
   */
  lemma ParseNamesHandler(name: string, p: Params)
    ensures Lower(CommandName(Parse(name, p))) == Lower(name)
  {
    ParseHandlerName(name, p);
    EmittedHandlerName(Parse(name, p));
  }

  /**
   * Dispatch is the inverse of emission: resolving the name and parameters a
   * command is emitted with gives the command back, provided an unknown
   * command's name is not one that a handler answers to.
   */
  lemma ParseCommandName(c: Command)
    requires c.Unknown? ==> Lower(c.name) !in Handled
    ensures Parse(CommandName(c), CommandParams(c)) == c
  {
    var key := Lower(CommandName(c));
    match c
    case Create => ParseTableCommandName(c);
    case Drop => ParseTableCommandName(c);
    case DropIfExists => ParseTableCommandName(c);
    case DropColumn(_) => assert key == "dropcolumn";
    case RenameColumn(_, _) => assert key == "renamecolumn";
    case AddIndex(k, n, cs) => ParseAddIndexName(k, n, cs);
    case DropIndex(k, n) => ParseDropIndexName(k, n);
    case RenameIndex(_, _) => assert key == "renameindex";
    case Rename(_, _) => ParseTableCommandName(c);
    case Add => assert key == "add";
    case Change => assert key == "change";
    case Unknown(n) =>
  }

  /** Dispatch inverts emission for the commands that register, deregister or rename the table. */
  lemma ParseTableCommandName(c: Command)
    requires c.Create? || c.Drop? || c.DropIfExists? || c.Rename?
    ensures Parse(CommandName(c), CommandParams(c)) == c
  {
    var key := Lower(CommandName(c));
    match c
    case Create => assert key == "create";
    case Drop => assert key == "drop";
    case DropIfExists => assert key == "dropifexists";
    case Rename(_, _) => assert key == "rename";
  }

  /** Dispatch inverts emission for the five index-declaring commands. */
  lemma ParseAddIndexName(k: IndexKind, n: string, cs: seq<string>)
    ensures Parse(CommandName(AddIndex(k, n, cs)), CommandParams(AddIndex(k, n, cs))) == AddIndex(k, n, cs)
  {
    var key := Lower(CommandName(AddIndex(k, n, cs)));
    match k
    case Primary => assert key == "primary";
    case Unique => assert key == "unique";
    case Plain => assert key == "index";
    case Spatial => assert key == "spatialindex";
    case Foreign => assert key == "foreign";
  }

  /** Dispatch inverts emission for the five index-dropping commands. */
  lemma ParseDropIndexName(k: IndexKind, n: string)
    ensures Parse(CommandName(DropIndex(k, n)), CommandParams(DropIndex(k, n))) == DropIndex(k, n)
  {
    var key := Lower(CommandName(DropIndex(k, n)));
    match k
    case Primary => assert key == "dropprimary";
    case Unique => assert key == "dropunique";
    case Plain => assert key == "dropindex";
    case Spatial => assert key == "dropspatialindex";
    case Foreign => assert key == "dropforeign";
  }
}
