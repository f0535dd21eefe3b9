/**
 * The meaning of a command batch, stated on values: what each command does to
 * what is observable about a table (its name, its column names, its ordered
 * index definitions) and to the directory of tables it registers itself in.
 * The table class is proved to follow this semantics; the lemmas below state
 * what it promises about whole batches.
 */
module Semantics {
  import opened Commands
  import opened Sequences

  datatype Option<T> = None | Some(value: T)

  /**
   * What is observable about a table and its directory: its name, the
   * definition each column was created with under its current key, the index
   * definitions in list order, and the directory. `T` is the type of the
   * directory's entries; the table itself is the entry `self` passed to `Step`.
   */
  datatype Snapshot<T> = Snapshot(
    name: string,
    columns: map<string, ColumnDefinition>,
    indices: seq<IndexDefinition>,
    tables: map<string, T>)

  function DefinitionName(d: IndexDefinition): string
  {
    d.name
  }

  /**
   * The effect of one command. `None` is a crash of the handler: renaming a
   * column that does not exist, or changing a column that does not exist.
   */
  function Step<T>(s: Snapshot<T>, self: T, cmd: Command, bp: Blueprint): Option<Snapshot<T>>
  {
    match cmd
    case Create => Some(s.(tables := s.tables[s.name := self], columns := s.columns + Declared(bp.columns)))
    case Drop => Some(s.(tables := s.tables - {s.name}))
    case DropIfExists => Some(s.(tables := s.tables - {s.name}))
    case DropColumn(names) => Some(s.(columns := s.columns - set n | n in names))
    case RenameColumn(from, to) =>
      if from in s.columns then Some(s.(columns := (s.columns - {from})[to := s.columns[from]])) else None
    case AddIndex(kind, index, cols) => Some(s.(indices := s.indices + [IndexDefinition(kind, index, cols)]))
    case DropIndex(_, index) => Some(s.(indices := Without(s.indices, DefinitionName, index)))
    case RenameIndex(_, _) => Some(s)
    case Rename(from, to) => Some(s.(name := to, tables := (s.tables - {from})[to := self]))
    case Add => Some(s.(columns := s.columns + Declared(bp.added)))
    case Change => if Names(bp.changed) <= s.columns.Keys then Some(s) else None
    case Unknown(_) => Some(s)
  }

  /** The effect of a command sequence, applied from left to right; `None` if any command crashes. */
  function Run<T>(s: Snapshot<T>, self: T, cmds: seq<Command>, bp: Blueprint): Option<Snapshot<T>>
    decreases |cmds|
  {
    if cmds == [] then Some(s)
    else
      match Step(s, self, cmds[0], bp)
      case None => None
      case Some(s') => Run(s', self, cmds[1..], bp)
  }

  /** Running two batches back to back is running their concatenation. */
  lemma {:induction false} RunAppend<T>(s: Snapshot<T>, self: T, xs: seq<Command>, ys: seq<Command>, bp: Blueprint)
    ensures Run(s, self, xs + ys, bp) ==
      match Run(s, self, xs, bp)
      case None => None
      case Some(s') => Run(s', self, ys, bp)
    decreases |xs|
  {
    if xs == [] {
      assert xs + ys == ys;
    } else {
      assert (xs + ys)[0] == xs[0];
      assert (xs + ys)[1..] == xs[1..] + ys;
      match Step(s, self, xs[0], bp)
      case None =>
      case Some(s') => RunAppend(s', self, xs[1..], ys, bp);
    }
  }

  /** A one-command batch is that command's step. */
  lemma RunSingle<T>(s: Snapshot<T>, self: T, c: Command, bp: Blueprint)
    ensures Run(s, self, [c], bp) == Step(s, self, c, bp)
  {
    assert [c][1..] == [];
  }

  /** A two-command batch runs its first command, then its second. */
  lemma RunPair<T>(s: Snapshot<T>, self: T, c1: Command, c2: Command, bp: Blueprint)
    requires Step(s, self, c1, bp).Some?
    ensures Run(s, self, [c1, c2], bp) == Step(Step(s, self, c1, bp).value, self, c2, bp)
  {
    var s1 := Step(s, self, c1, bp).value;
    assert [c1, c2][1..] == [c2];
    assert [c2][1..] == [];
    match Step(s1, self, c2, bp)
    case None =>
    case Some(s2) => assert Run(s1, self, [c2], bp) == Run(s2, self, [], bp);
  }

  /** The commands of a batch that have a handler. */
  function Known(cmds: seq<Command>): seq<Command>
  {
    if cmds == [] then []
    else if cmds[0].Unknown? then Known(cmds[1..])
    else [cmds[0]] + Known(cmds[1..])
  }

  /** Commands without a handler can be dropped from any batch without changing its effect. */
  lemma {:induction false} UnknownErasure<T>(s: Snapshot<T>, self: T, cmds: seq<Command>, bp: Blueprint)
    ensures Run(s, self, cmds, bp) == Run(s, self, Known(cmds), bp)
    decreases |cmds|
  {
    if cmds != [] {
      match Step(s, self, cmds[0], bp)
      case None =>
      case Some(s') =>
        UnknownErasure(s', self, cmds[1..], bp);
        if !cmds[0].Unknown? {
          var k := [cmds[0]] + Known(cmds[1..]);
          assert k[0] == cmds[0] && k[1..] == Known(cmds[1..]);
        }
    }
  }

  /** In particular a batch of unknown commands changes nothing. */
  lemma UnknownOnly<T>(s: Snapshot<T>, self: T, cmds: seq<Command>, bp: Blueprint)
    requires forall k :: 0 <= k < |cmds| ==> cmds[k].Unknown?
    ensures Run(s, self, cmds, bp) == Some(s)
  {
    UnknownErasure(s, self, cmds, bp);
    KnownOfUnknowns(cmds);
  }

  lemma {:induction false} KnownOfUnknowns(cmds: seq<Command>)
    requires forall k :: 0 <= k < |cmds| ==> cmds[k].Unknown?
    ensures Known(cmds) == []
  {
    if cmds != [] {
      KnownOfUnknowns(cmds[1..]);
    }
  }

  /**
   * A create followed by `n` adds registers the table under its name, and the
   * columns are the earlier ones overridden by the declared columns, and then
   * by the added columns when there is at least one add, each with its last
   * definition.
   */
  lemma {:induction false} CreateThenAdds<T>(s: Snapshot<T>, self: T, n: nat, bp: Blueprint)
    ensures Run(s, self, [Create] + Repeat(Add, n), bp) ==
      Some(s.(tables := s.tables[s.name := self],
              columns := s.columns + Declared(bp.columns) + (if n == 0 then map[] else Declared(bp.added))))
  {
    var created := s.columns + Declared(bp.columns);
    if n == 0 {
      assert [Create] + Repeat(Add, n) == [Create];
      UnionAbsorbs(created, map[]);
      RunSingle(s, self, Create, bp);
    } else {
      var prefix := [Create] + Repeat(Add, n - 1);
      assert [Create] + Repeat(Add, n) == prefix + [Add];
      CreateThenAdds(s, self, n - 1, bp);
      var added := Declared(bp.added);
      var before := created + (if n - 1 == 0 then map[] else added);
      var s' := s.(tables := s.tables[s.name := self], columns := before);
      assert Run(s, self, prefix, bp) == Some(s');
      RunAppend(s, self, prefix, [Add], bp);
      RunSingle(s', self, Add, bp);
      UnionAbsorbs(created, added);
      assert before + added == created + added;
    }
  }

  /** Renaming a column to a free name and back restores the table, definitions included. */
  lemma RenameColumnRoundTrip<T>(s: Snapshot<T>, self: T, a: string, b: string, bp: Blueprint)
    requires a in s.columns && b !in s.columns
    ensures Run(s, self, [RenameColumn(a, b), RenameColumn(b, a)], bp) == Some(s)
  {
    var s1 := s.(columns := (s.columns - {a})[b := s.columns[a]]);
    assert Step(s, self, RenameColumn(a, b), bp) == Some(s1);
    assert (s1.columns - {b})[a := s1.columns[b]] == s.columns;
    RunPair(s, self, RenameColumn(a, b), RenameColumn(b, a), bp);
  }

  /** The outcome of renaming the table from `from` to `to`: its new name is registered to it, the old one is gone. */
  lemma RenameRegisters<T>(s: Snapshot<T>, self: T, from: string, to: string, bp: Blueprint)
    ensures Step(s, self, Rename(from, to), bp).Some?
    ensures var r := Step(s, self, Rename(from, to), bp).value;
      && r.name == to
      && to in r.tables && r.tables[to] == self
      && (from != to ==> from !in r.tables)
      && (forall n :: n in s.tables && n != from && n != to ==> n in r.tables && r.tables[n] == s.tables[n])
  {
  }

  /** Renaming the table to a free name and back restores the directory. */
  lemma RenameTableRoundTrip<T>(s: Snapshot<T>, self: T, a: string, b: string, bp: Blueprint)
    requires a in s.tables && s.tables[a] == self && b !in s.tables
    ensures Run(s, self, [Rename(a, b), Rename(b, a)], bp) == Some(s.(name := a))
  {
    var s1 := s.(name := b, tables := (s.tables - {a})[b := self]);
    assert Step(s, self, Rename(a, b), bp) == Some(s1);
    assert (s1.tables - {b})[a := self] == s.tables;
    RunPair(s, self, Rename(a, b), Rename(b, a), bp);
  }

  /** Adding an index under a fresh name and then dropping that name restores the index list. */
  lemma AddThenDropIndex<T>(s: Snapshot<T>, self: T, kind: IndexKind, dropKind: IndexKind,
                            index: string, cols: seq<string>, bp: Blueprint)
    requires forall k :: 0 <= k < |s.indices| ==> s.indices[k].name != index
    ensures Run(s, self, [AddIndex(kind, index, cols), DropIndex(dropKind, index)], bp) == Some(s)
  {
    var d := IndexDefinition(kind, index, cols);
    var s1 := s.(indices := s.indices + [d]);
    assert Step(s, self, AddIndex(kind, index, cols), bp) == Some(s1);
    DropLastAdded(s.indices, d);
    RunPair(s, self, AddIndex(kind, index, cols), DropIndex(dropKind, index), bp);
  }

  /** Filtering out the name of a definition just appended, and used by no other, leaves the list as before. */
  lemma DropLastAdded(defs: seq<IndexDefinition>, d: IndexDefinition)
    requires forall k :: 0 <= k < |defs| ==> defs[k].name != d.name
    ensures Without(defs + [d], DefinitionName, d.name) == defs
  {
    WithoutAppend(defs, [d], DefinitionName, d.name);
    WithoutMembers(defs, DefinitionName, d.name);
    assert Without([d], DefinitionName, d.name) == [];
  }

  /** After dropping an index name no index of that name is left, and dropping it again changes nothing. */
  lemma DropIndexRemovesName<T>(s: Snapshot<T>, self: T, kind: IndexKind, index: string, bp: Blueprint)
    ensures var r := Step(s, self, DropIndex(kind, index), bp).value;
      && (forall k :: 0 <= k < |r.indices| ==> r.indices[k].name != index)
      && Step(r, self, DropIndex(kind, index), bp) == Some(r)
  {
    WithoutMembers(s.indices, DefinitionName, index);
    WithoutIdempotent(s.indices, DefinitionName, index);
    assert forall k :: 0 <= k < |Without(s.indices, DefinitionName, index)| ==>
      DefinitionName(Without(s.indices, DefinitionName, index)[k]) != index;
  }

  /** The commands that act on the table's registration and name. */
  predicate IsTableCommand(c: Command)
  {
    c.Create? || c.Drop? || c.DropIfExists? || c.Rename?
  }

  /** The commands that act on the table's columns. */
  predicate IsColumnCommand(c: Command)
  {
    c.DropColumn? || c.RenameColumn? || c.Add? || c.Change?
  }

  /** The commands that act on the table's indices. */
  predicate IsIndexCommand(c: Command)
  {
    c.AddIndex? || c.DropIndex? || c.RenameIndex?
  }

  /**
   * Index commands never touch the column set, the table name or the
   * directory, and never crash; only the index list can change.
   */
  lemma {:induction false} IndexCommandsKeepColumns<T>(s: Snapshot<T>, self: T, cmds: seq<Command>, bp: Blueprint)
    requires forall k :: 0 <= k < |cmds| ==> IsIndexCommand(cmds[k])
    ensures Run(s, self, cmds, bp).Some?
    ensures var r := Run(s, self, cmds, bp).value;
      r.name == s.name && r.columns == s.columns && r.tables == s.tables
    decreases |cmds|
  {
    if cmds != [] {
      var s' := Step(s, self, cmds[0], bp).value;
      IndexCommandsKeepColumns(s', self, cmds[1..], bp);
    }
  }

  /**
   * Column commands never touch the index list, so dropping or renaming a
   * column leaves stale column names inside the indices that list it.
   */
  lemma {:induction false} ColumnCommandsKeepIndices<T>(s: Snapshot<T>, self: T, cmds: seq<Command>, bp: Blueprint)
    requires forall k :: 0 <= k < |cmds| ==> cmds[k].DropColumn? || cmds[k].RenameColumn?
    requires Run(s, self, cmds, bp).Some?
    ensures Run(s, self, cmds, bp).value.indices == s.indices
    decreases |cmds|
  {
    if cmds != [] {
      var s' := Step(s, self, cmds[0], bp).value;
      ColumnCommandsKeepIndices(s', self, cmds[1..], bp);
    }
  }

  /** The columns of the worked example. */
  const UsersId := ColumnDefinition("id", map["type" := "increments"])
  const UsersName := ColumnDefinition("name", map["type" := "string"])
  const UsersEmail := ColumnDefinition("email", map["type" := "string"])

  /** The blueprint of the worked example that creates "users" with the columns id and name. */
  function UsersCreate(): Blueprint
  {
    Blueprint([Create], [UsersId, UsersName], [UsersId, UsersName], [])
  }

  /** The blueprint of the worked example that adds email, declares a unique index on it and drops name. */
  function UsersAlter(): Blueprint
  {
    Blueprint([Add, AddIndex(Unique, "users_email_unique", ["email"]), DropColumn(["name"])], [UsersEmail], [UsersEmail], [])
  }

  /** Creating "users" registers the table and gives it the columns id and name with their definitions. */
  lemma UsersCreated<T>(self: T)
    ensures Run(Snapshot("users", map[], [], map[]), self, UsersCreate().commands, UsersCreate()) ==
      Some(Snapshot("users", map["id" := UsersId, "name" := UsersName], [], map["users" := self]))
  {
    var s0: Snapshot<T> := Snapshot("users", map[], [], map[]);
    var s1: Snapshot<T> := Snapshot("users", map["id" := UsersId, "name" := UsersName], [], map["users" := self]);
    assert [UsersId, UsersName][..1] == [UsersId];
    assert [UsersId][..0] == [];
    assert Declared(UsersCreate().columns) == map["id" := UsersId, "name" := UsersName];
    RunSingle(s0, self, Create, UsersCreate());
    assert Step(s0, self, Create, UsersCreate()).value.columns == s1.columns;
    assert Step(s0, self, Create, UsersCreate()).value.tables == s1.tables;
  }

  /** Altering the created table leaves the columns id and email and the one unique index. */
  lemma UsersAltered<T>(self: T)
    ensures Run(Snapshot("users", map["id" := UsersId, "name" := UsersName], [], map["users" := self]),
                self, UsersAlter().commands, UsersAlter()) ==
      Some(Snapshot("users", map["id" := UsersId, "email" := UsersEmail],
                    [IndexDefinition(Unique, "users_email_unique", ["email"])], map["users" := self]))
  {
    var alter := UsersAlter();
    var s1: Snapshot<T> := Snapshot("users", map["id" := UsersId, "name" := UsersName], [], map["users" := self]);
    var unique := AddIndex(Unique, "users_email_unique", ["email"]);
    var drop := DropColumn(["name"]);
    var s2 := s1.(columns := map["id" := UsersId, "name" := UsersName, "email" := UsersEmail]);
    var s3 := s2.(indices := [IndexDefinition(Unique, "users_email_unique", ["email"])]);
    assert alter.commands == [Add] + [unique, drop];
    RunAppend(s1, self, [Add], [unique, drop], alter);
    RunSingle(s1, self, Add, alter);
    UsersEmailAdded(s1, self);
    RunPair(s2, self, unique, drop, alter);
    assert s2.indices + [IndexDefinition(Unique, "users_email_unique", ["email"])] == s3.indices;
    assert Step(s2, self, unique, alter) == Some(s3);
    UsersNameDropped(s3, self);
  }

  /** The add of the worked example gives the table the column email. */
  lemma UsersEmailAdded<T>(s: Snapshot<T>, self: T)
    requires s.columns == map["id" := UsersId, "name" := UsersName]
    ensures Step(s, self, Add, UsersAlter()) ==
      Some(s.(columns := map["id" := UsersId, "name" := UsersName, "email" := UsersEmail]))
  {
    assert [UsersEmail][..0] == [];
    assert Declared(UsersAlter().added) == map["email" := UsersEmail];
    assert s.columns + map["email" := UsersEmail] == map["id" := UsersId, "name" := UsersName, "email" := UsersEmail];
  }

  /** The column drop of the worked example removes the column name. */
  lemma UsersNameDropped<T>(s: Snapshot<T>, self: T)
    requires s.columns == map["id" := UsersId, "name" := UsersName, "email" := UsersEmail]
    ensures Step(s, self, DropColumn(["name"]), UsersAlter()) ==
      Some(s.(columns := map["id" := UsersId, "email" := UsersEmail]))
  {
    assert (set n | n in ["name"]) == {"name"};
    assert s.columns - {"name"} == map["id" := UsersId, "email" := UsersEmail];
  }

  /**
   * The worked example as a batch pair: after both blueprints the table is
   * registered as "users", has the columns id and email with their declared
   * definitions, and keeps the one unique index.
   */
  lemma UsersScenario<T>(self: T)
    ensures var s0: Snapshot<T> := Snapshot("users", map[], [], map[]);
      && Run(s0, self, UsersCreate().commands, UsersCreate()).Some?
      && Run(Run(s0, self, UsersCreate().commands, UsersCreate()).value, self, UsersAlter().commands, UsersAlter()) ==
         Some(Snapshot("users", map["id" := UsersId, "email" := UsersEmail],
                       [IndexDefinition(Unique, "users_email_unique", ["email"])],
                       map["users" := self]))
  {
    UsersCreated(self);
    UsersAltered(self);
  }
}
