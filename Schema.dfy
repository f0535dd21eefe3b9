/**
 * The in-memory mirror of a database schema: tables that own a map from
 * column name to column object and an ordered list of index objects, and a
 * directory of tables by name. A table applies a blueprint's commands in
 * order; each handler changes the column map, the index list, the table's
 * name or its directory entry, and tells the columns an index lists about
 * every index that is added, dropped or renamed.
 *
 * What a column or an index does when it is told something is not part of
 * this model. Every such call the table makes is recorded instead, in order,
 * in a ghost trace on the table, and the lemmas below say what each column
 * and each index is told.
 */
module Schema {
  import opened Commands
  import opened Sequences
  import opened Semantics

  /** A column of a table, created from its declared definition. */
  class Column {
    const table: Table
    const definition: ColumnDefinition

    constructor (table: Table, definition: ColumnDefinition)
      ensures this.table == table && this.definition == definition
    {
      this.table := table;
      this.definition := definition;
    }
  }

  /** An index of a table, created from the command that declares it. */
  class Index {
    const definition: IndexDefinition

    constructor (definition: IndexDefinition)
      ensures this.definition == definition
    {
      this.definition := definition;
    }
  }

  function IndexName(i: Index): string
  {
    DefinitionName(i.definition)
  }

  /** What a column is told: a command that concerns it, or a new definition. */
  datatype Notice = Notified(command: Command) | Redefined(definition: ColumnDefinition)

  /**
   * One call the table makes: a column's command or update hook, or an
   * index's command hook.
   */
  datatype Call = ToColumn(column: Column, notice: Notice) | ToIndex(index: Index, command: Command)

  /** What the indices of a list declare, in list order. */
  function Definitions(xs: seq<Index>): (r: seq<IndexDefinition>)
    ensures |r| == |xs|
    ensures forall k :: 0 <= k < |xs| ==> r[k] == xs[k].definition
  {
    seq(|xs|, k requires 0 <= k < |xs| => xs[k].definition)
  }

  /** Dropping indices by name and then reading their definitions is dropping definitions by name. */
  lemma {:induction false} DefinitionsWithout(xs: seq<Index>, target: string)
    ensures Definitions(Without(xs, IndexName, target)) == Without(Definitions(xs), DefinitionName, target)
  {
    if xs != [] {
      DefinitionsWithout(xs[1..], target);
      assert Definitions(xs)[1..] == Definitions(xs[1..]);
      assert Definitions(xs)[0] == xs[0].definition;
      if IndexName(xs[0]) != target {
        assert Definitions([xs[0]] + Without(xs[1..], IndexName, target)) ==
          [xs[0].definition] + Definitions(Without(xs[1..], IndexName, target));
      }
    }
  }

  /** The definition each column of a column map was created with, under the column's key. */
  function ColumnDefs(columns: map<string, Column>): map<string, ColumnDefinition>
  {
    map n | n in columns :: columns[n].definition
  }

  /** Removing keys from a column map removes them from its definitions. */
  lemma ColumnDefsRemove(columns: map<string, Column>, names: set<string>)
    ensures ColumnDefs(columns - names) == ColumnDefs(columns) - names
  {
  }

  /** Moving a column object to another key moves its definition to that key. */
  lemma ColumnDefsMove(columns: map<string, Column>, from: string, to: string)
    requires from in columns
    ensures ColumnDefs((columns - {from})[to := columns[from]]) == (ColumnDefs(columns) - {from})[to := ColumnDefs(columns)[from]]
  {
  }

  /**
   * A column map that takes a column for every declared name, with the last
   * definition of that name, and keeps its other entries, has as definitions
   * the earlier ones overridden by the declared ones.
   */
  lemma ColumnDefsAdded(before: map<string, Column>, after: map<string, Column>, defs: seq<ColumnDefinition>)
    requires after.Keys == before.Keys + Names(defs)
    requires forall n :: n in before && n !in Names(defs) ==> after[n] == before[n]
    requires forall n :: n in Names(defs) ==> after[n].definition == Declared(defs)[n]
    ensures ColumnDefs(after) == ColumnDefs(before) + Declared(defs)
  {
  }

  /** The column names listed, in order, by those of the first `n` indices of `xs` that are named `target`. */
  function Referenced(xs: seq<Index>, n: nat, target: string): seq<string>
    requires n <= |xs|
  {
    if n == 0 then []
    else Referenced(xs, n - 1, target) + (if IndexName(xs[n - 1]) == target then xs[n - 1].definition.columns else [])
  }

  /**
   * The calls that tell `cmd` to the column of every name in `names`, in
   * order; a name with no column is skipped.
   */
  function ColumnCalls(names: seq<string>, columns: map<string, Column>, cmd: Command): seq<Call>
  {
    if names == [] then []
    else
      var last := names[|names| - 1];
      ColumnCalls(names[..|names| - 1], columns, cmd) +
        (if last in columns then [ToColumn(columns[last], Notified(cmd))] else [])
  }

  /**
   * The calls an index rename makes while it walks the first `n` indices of
   * `xs`: each one named `target`, in list order, is told `cmd`, and then the
   * columns it lists are.
   */
  function RenameCalls(xs: seq<Index>, n: nat, target: string, columns: map<string, Column>, cmd: Command): seq<Call>
    requires n <= |xs|
  {
    if n == 0 then [] else RenameCalls(xs, n - 1, target, columns, cmd) + RenameStep(xs[n - 1], target, columns, cmd)
  }

  /** The calls a rename makes for one index: none unless it is named `target`. */
  function RenameStep(i: Index, target: string, columns: map<string, Column>, cmd: Command): seq<Call>
  {
    if IndexName(i) == target then [ToIndex(i, cmd)] + ColumnCalls(i.definition.columns, columns, cmd) else []
  }

  /**
   * The calls an index drop makes while it walks the first `n` indices of
   * `xs`: the columns listed by each one named `target`, in list order, are
   * told `cmd`.
   */
  function DropCalls(xs: seq<Index>, n: nat, target: string, columns: map<string, Column>, cmd: Command): seq<Call>
    requires n <= |xs|
  {
    if n == 0 then [] else DropCalls(xs, n - 1, target, columns, cmd) + DropStep(xs[n - 1], target, columns, cmd)
  }

  /** The calls a drop makes for one index: none unless it is named `target`. */
  function DropStep(i: Index, target: string, columns: map<string, Column>, cmd: Command): seq<Call>
  {
    if IndexName(i) == target then ColumnCalls(i.definition.columns, columns, cmd) else []
  }

  /** The calls a change makes: each definition, in order, is handed to the column of its name. */
  function UpdateCalls(defs: seq<ColumnDefinition>, columns: map<string, Column>): seq<Call>
    requires forall k :: 0 <= k < |defs| ==> defs[k].name in columns
  {
    if defs == [] then []
    else
      var last := defs[|defs| - 1];
      UpdateCalls(defs[..|defs| - 1], columns) + [ToColumn(columns[last.name], Redefined(last))]
  }

  /**
   * The calls one command makes into the columns and indices of a table with
   * the given column map and index list.
   */
  function CommandCalls(cmd: Command, bp: Blueprint, columns: map<string, Column>, indices: seq<Index>): seq<Call>
  {
    match cmd
    case RenameColumn(from, _) => if from in columns then [ToColumn(columns[from], Notified(cmd))] else []
    case AddIndex(_, _, cols) => ColumnCalls(cols, columns, cmd)
    case DropIndex(_, index) => DropCalls(indices, |indices|, index, columns, cmd)
    case RenameIndex(from, _) => RenameCalls(indices, |indices|, from, columns, cmd)
    case Change =>
      if forall k :: 0 <= k < |bp.changed| ==> bp.changed[k].name in columns then UpdateCalls(bp.changed, columns) else []
    case _ => []
  }

  /** What column `c` is told in a trace, in order. */
  function ColumnLog(calls: seq<Call>, c: Column): seq<Notice>
  {
    if calls == [] then []
    else
      var last := calls[|calls| - 1];
      ColumnLog(calls[..|calls| - 1], c) + (if last.ToColumn? && last.column == c then [last.notice] else [])
  }

  /** What index `i` is told in a trace, in order. */
  function IndexLog(calls: seq<Call>, i: Index): seq<Command>
  {
    if calls == [] then []
    else
      var last := calls[|calls| - 1];
      IndexLog(calls[..|calls| - 1], i) + (if last.ToIndex? && last.index == i then [last.command] else [])
  }

  /** The definitions of `defs` named `n`, in order, as the notices a column gets for them. */
  function Redefinitions(defs: seq<ColumnDefinition>, n: string): seq<Notice>
  {
    if defs == [] then []
    else
      var last := defs[|defs| - 1];
      Redefinitions(defs[..|defs| - 1], n) + (if last.name == n then [Redefined(last)] else [])
  }

  /** A column hears from two traces one after the other what it hears from each. */
  lemma {:induction false} ColumnLogAppend(xs: seq<Call>, ys: seq<Call>, c: Column)
    ensures ColumnLog(xs + ys, c) == ColumnLog(xs, c) + ColumnLog(ys, c)
  {
    if ys == [] {
      assert xs + ys == xs;
    } else {
      var ys' := ys[..|ys| - 1];
      assert (xs + ys)[..|xs + ys| - 1] == xs + ys';
      assert (xs + ys)[|xs + ys| - 1] == ys[|ys| - 1];
      ColumnLogAppend(xs, ys', c);
    }
  }

  /** An index hears from two traces one after the other what it hears from each. */
  lemma {:induction false} IndexLogAppend(xs: seq<Call>, ys: seq<Call>, i: Index)
    ensures IndexLog(xs + ys, i) == IndexLog(xs, i) + IndexLog(ys, i)
  {
    if ys == [] {
      assert xs + ys == xs;
    } else {
      var ys' := ys[..|ys| - 1];
      assert (xs + ys)[..|xs + ys| - 1] == xs + ys';
      assert (xs + ys)[|xs + ys| - 1] == ys[|ys| - 1];
      IndexLogAppend(xs, ys', i);
    }
  }

  /** Telling the columns of two name lists one after the other is telling those of their concatenation. */
  lemma {:induction false} ColumnCallsAppend(xs: seq<string>, ys: seq<string>, columns: map<string, Column>, cmd: Command)
    ensures ColumnCalls(xs + ys, columns, cmd) == ColumnCalls(xs, columns, cmd) + ColumnCalls(ys, columns, cmd)
  {
    if ys == [] {
      assert xs + ys == xs;
    } else {
      var ys' := ys[..|ys| - 1];
      assert (xs + ys)[..|xs + ys| - 1] == xs + ys';
      assert (xs + ys)[|xs + ys| - 1] == ys[|ys| - 1];
      ColumnCallsAppend(xs, ys', columns, cmd);
    }
  }

  /** A column is told the command once for every listed name that resolves to it, and nothing else. */
  lemma {:induction false} ColumnCallsLog(names: seq<string>, columns: map<string, Column>, cmd: Command, c: Column)
    ensures ColumnLog(ColumnCalls(names, columns, cmd), c) == Repeat(Notified(cmd), Hits(names, columns, c))
  {
    if names != [] {
      var init, last := names[..|names| - 1], names[|names| - 1];
      var tail := if last in columns then [ToColumn(columns[last], Notified(cmd))] else [];
      ColumnCallsLog(init, columns, cmd, c);
      ColumnLogAppend(ColumnCalls(init, columns, cmd), tail, c);
      if tail != [] {
        assert tail[..0] == [];
      }
    }
  }

  /**
   * In a column map where no column stands under two names, the column under
   * `n` is told the command once for every listing of `n`.
   */
  lemma ColumnCallsByName(names: seq<string>, columns: map<string, Column>, cmd: Command, n: string)
    requires Injective(columns) && n in columns
    ensures ColumnLog(ColumnCalls(names, columns, cmd), columns[n]) == Repeat(Notified(cmd), Count(names, n))
  {
    ColumnCallsLog(names, columns, cmd, columns[n]);
    HitsInjective(names, columns, n);
  }

  /** Telling columns tells no index anything. */
  lemma {:induction false} ColumnCallsSkipIndices(names: seq<string>, columns: map<string, Column>, cmd: Command, i: Index)
    ensures IndexLog(ColumnCalls(names, columns, cmd), i) == []
  {
    if names != [] {
      var init, last := names[..|names| - 1], names[|names| - 1];
      var tail := if last in columns then [ToColumn(columns[last], Notified(cmd))] else [];
      ColumnCallsSkipIndices(init, columns, cmd, i);
      IndexLogAppend(ColumnCalls(init, columns, cmd), tail, i);
      if tail != [] {
        assert tail[..0] == [];
      }
    }
  }

  /**
   * A rename tells each column exactly what dropping the same index name
   * would: the command once for every name, listed by an index of that name,
   * that resolves to the column.
   */
  lemma {:induction false} RenameCallsColumnLog(xs: seq<Index>, n: nat, target: string, columns: map<string, Column>, cmd: Command, c: Column)
    requires n <= |xs|
    ensures ColumnLog(RenameCalls(xs, n, target, columns, cmd), c) == Repeat(Notified(cmd), Hits(Referenced(xs, n, target), columns, c))
  {
    if n > 0 {
      var last := xs[n - 1];
      var own := if IndexName(last) == target then last.definition.columns else [];
      RenameCallsColumnLog(xs, n - 1, target, columns, cmd, c);
      ColumnLogAppend(RenameCalls(xs, n - 1, target, columns, cmd), RenameStep(last, target, columns, cmd), c);
      RenameStepColumnLog(last, target, columns, cmd, c);
      RepeatHitsAppend(Notified(cmd), Referenced(xs, n - 1, target), own, columns, c);
    }
  }

  /** One step of a rename tells a column the command once per name of the index, if it is named `target`, that resolves to the column. */
  lemma RenameStepColumnLog(last: Index, target: string, columns: map<string, Column>, cmd: Command, c: Column)
    ensures ColumnLog(RenameStep(last, target, columns, cmd), c) ==
      Repeat(Notified(cmd), Hits(if IndexName(last) == target then last.definition.columns else [], columns, c))
  {
    if IndexName(last) == target {
      var own := ColumnCalls(last.definition.columns, columns, cmd);
      ColumnLogAppend([ToIndex(last, cmd)], own, c);
      assert [ToIndex(last, cmd)][..0] == [];
      ColumnCallsLog(last.definition.columns, columns, cmd, c);
    }
  }

  /**
   * In a list without repetitions, a rename tells each index named `target`
   * among the first `n` the command exactly once, and no other index anything.
   */
  lemma {:induction false} RenameCallsIndexLog(xs: seq<Index>, n: nat, target: string, columns: map<string, Column>, cmd: Command, i: Index)
    requires Distinct(xs) && n <= |xs|
    ensures IndexLog(RenameCalls(xs, n, target, columns, cmd), i) == if i in xs[..n] && IndexName(i) == target then [cmd] else []
  {
    if n > 0 {
      var last := xs[n - 1];
      DistinctPrefix(xs, n - 1);
      assert i in xs[..n] <==> i in xs[..n - 1] || i == last by {
        assert xs[..n] == xs[..n - 1] + [last];
      }
      RenameCallsIndexLog(xs, n - 1, target, columns, cmd, i);
      IndexLogAppend(RenameCalls(xs, n - 1, target, columns, cmd), RenameStep(last, target, columns, cmd), i);
      RenameStepIndexLog(last, target, columns, cmd, i);
    }
  }

  /** One step of a rename tells its index the command when the index is named `target`, and tells no other index anything. */
  lemma RenameStepIndexLog(last: Index, target: string, columns: map<string, Column>, cmd: Command, i: Index)
    ensures IndexLog(RenameStep(last, target, columns, cmd), i) == if last == i && IndexName(last) == target then [cmd] else []
  {
    if IndexName(last) == target {
      var own := ColumnCalls(last.definition.columns, columns, cmd);
      IndexLogAppend([ToIndex(last, cmd)], own, i);
      assert [ToIndex(last, cmd)][..0] == [];
      ColumnCallsSkipIndices(last.definition.columns, columns, cmd, i);
    }
  }

  /**
   * A drop tells each column the command once for every name, listed by an
   * index named `target`, that resolves to the column.
   */
  lemma {:induction false} DropCallsColumnLog(xs: seq<Index>, n: nat, target: string, columns: map<string, Column>, cmd: Command, c: Column)
    requires n <= |xs|
    ensures ColumnLog(DropCalls(xs, n, target, columns, cmd), c) == Repeat(Notified(cmd), Hits(Referenced(xs, n, target), columns, c))
  {
    if n > 0 {
      var last := xs[n - 1];
      var own := if IndexName(last) == target then last.definition.columns else [];
      assert DropStep(last, target, columns, cmd) == ColumnCalls(own, columns, cmd);
      DropCallsColumnLog(xs, n - 1, target, columns, cmd, c);
      ColumnLogAppend(DropCalls(xs, n - 1, target, columns, cmd), DropStep(last, target, columns, cmd), c);
      ColumnCallsLog(own, columns, cmd, c);
      RepeatHitsAppend(Notified(cmd), Referenced(xs, n - 1, target), own, columns, c);
    }
  }

  /** A drop tells no index anything. */
  lemma {:induction false} DropCallsSkipIndices(xs: seq<Index>, n: nat, target: string, columns: map<string, Column>, cmd: Command, i: Index)
    requires n <= |xs|
    ensures IndexLog(DropCalls(xs, n, target, columns, cmd), i) == []
  {
    if n > 0 {
      var last := xs[n - 1];
      DropCallsSkipIndices(xs, n - 1, target, columns, cmd, i);
      IndexLogAppend(DropCalls(xs, n - 1, target, columns, cmd), DropStep(last, target, columns, cmd), i);
      ColumnCallsSkipIndices(last.definition.columns, columns, cmd, i);
    }
  }

  /**
   * In a column map where no column stands under two names, a drop and a
   * rename of index name `target` alike tell the column under `name` the
   * command once for every time an index so named lists `name`.
   */
  lemma IndexCallsByName(xs: seq<Index>, n: nat, target: string, columns: map<string, Column>, cmd: Command, name: string)
    requires n <= |xs|
    requires Injective(columns) && name in columns
    ensures ColumnLog(DropCalls(xs, n, target, columns, cmd), columns[name]) == Repeat(Notified(cmd), Count(Referenced(xs, n, target), name))
    ensures ColumnLog(RenameCalls(xs, n, target, columns, cmd), columns[name]) == Repeat(Notified(cmd), Count(Referenced(xs, n, target), name))
  {
    DropCallsColumnLog(xs, n, target, columns, cmd, columns[name]);
    RenameCallsColumnLog(xs, n, target, columns, cmd, columns[name]);
    HitsInjective(Referenced(xs, n, target), columns, name);
  }

  /**
   * In a column map where no column stands under two names, a change hands
   * the column under `n` exactly the definitions named `n`, in order.
   */
  lemma {:induction false} UpdateCallsLog(defs: seq<ColumnDefinition>, columns: map<string, Column>, n: string)
    requires forall k :: 0 <= k < |defs| ==> defs[k].name in columns
    requires Injective(columns) && n in columns
    ensures ColumnLog(UpdateCalls(defs, columns), columns[n]) == Redefinitions(defs, n)
  {
    if defs != [] {
      var init, last := defs[..|defs| - 1], defs[|defs| - 1];
      assert forall k :: 0 <= k < |init| ==> init[k] == defs[k];
      var tail := [ToColumn(columns[last.name], Redefined(last))];
      UpdateCallsLog(init, columns, n);
      ColumnLogAppend(UpdateCalls(init, columns), tail, columns[n]);
      assert tail[..0] == [];
    }
  }

  /** The directory of tables by name. */
  class Database {
    var tables: map<string, Table>

    constructor ()
      ensures tables == map[]
    {
      tables := map[];
    }

    /** Registers `table` under `name`, replacing any earlier entry. */
    method SetTable(name: string, table: Table)
      modifies this
      ensures tables == old(tables)[name := table]
    {
      tables := tables[name := table];
    }

    /** Removes the entry for `name`; nothing happens if there is none. */
    method DropTable(name: string)
      modifies this
      ensures tables == old(tables) - {name}
    {
      tables := tables - {name};
    }
  }

  class Table {
    const database: Database
    var name: string
    var columns: map<string, Column>
    var indices: seq<Index>
    /** Every call the table has made into its columns and indices, oldest first. */
    ghost var calls: seq<Call>

    constructor (database: Database, name: string)
      ensures this.database == database && this.name == name
      ensures columns == map[] && indices == [] && calls == []
    {
      this.database := database;
      this.name := name;
      columns := map[];
      indices := [];
      calls := [];
    }

    /**
     * The table's invariant: every column belongs to this table, no column
     * object stands under two names, and no index object is listed twice.
     */
    ghost predicate Valid()
      reads this
    {
      && (forall n :: n in columns ==> columns[n].table == this)
      && Injective(columns)
      && Distinct(indices)
    }

    /** What is observable about the table and its directory. */
    ghost function View(): Snapshot<Table>
      reads this, database
    {
      Snapshot(name, ColumnDefs(columns), Definitions(indices), database.tables)
    }

    /** The column registered under `n`, if any. */
    function GetColumn(n: string): (r: Option<Column>)
      reads this
      ensures r.Some? <==> n in columns
      ensures r.Some? ==> r.value == columns[n]
    {
      if n in columns then Some(columns[n]) else None
    }

    /**
     * Applies the blueprint's commands in order. The observable state ends up
     * as the semantics of the batch says, provided no command crashes, and
     * the calls made are appended to the trace.
     */
    method ApplyBlueprint(bp: Blueprint)
      requires Valid()
      requires Run(View(), this, bp.commands, bp).Some?
      modifies this, database
      ensures Valid()
      ensures View() == Run(old(View()), this, bp.commands, bp).value
      ensures |old(calls)| <= |calls| && calls[..|old(calls)|] == old(calls)
      ensures forall c :: c in columns.Values ==> c in old(columns.Values) || fresh(c)
      ensures forall i :: i in indices ==> i in old(indices) || fresh(i)
    {
      var k := 0;
      while k < |bp.commands|
        invariant 0 <= k <= |bp.commands|
        invariant Valid()
        invariant Run(old(View()), this, bp.commands, bp) == Run(View(), this, bp.commands[k..], bp)
        invariant |old(calls)| <= |calls| && calls[..|old(calls)|] == old(calls)
        invariant forall c :: c in columns.Values ==> c in old(columns.Values) || fresh(c)
        invariant forall i :: i in indices ==> i in old(indices) || fresh(i)
      {
        assert bp.commands[k..][0] == bp.commands[k];
        assert bp.commands[k..][1..] == bp.commands[k + 1..];
        ghost var before := calls;
        RunCommand(bp.commands[k], bp);
        assert calls[..|before|] == before;
        k := k + 1;
      }
    }

    /**
     * What a create or an add does to the column map: every declared name
     * gets a new column of this table with the name's last definition, and
     * every other entry stays as it was.
     */
    twostate predicate ColumnsAdded(defs: seq<ColumnDefinition>)
      reads this
    {
      && columns.Keys == old(columns).Keys + Names(defs)
      && (forall n :: n in old(columns) && n !in Names(defs) ==> columns[n] == old(columns)[n])
      && (forall n :: n in Names(defs) ==>
            fresh(columns[n]) && columns[n].table == this && columns[n].definition == Declared(defs)[n])
    }

    /**
     * Dispatches one command to its handler. Besides the observable effect
     * `Step` gives, the column objects and index objects end up as the
     * handler leaves them: created, moved, removed or kept. A command without
     * a handler changes nothing at all.
     */
    method RunCommand(cmd: Command, bp: Blueprint)
      requires Valid()
      requires Step(View(), this, cmd, bp).Some?
      modifies this, database
      ensures Valid()
      ensures View() == Step(old(View()), this, cmd, bp).value
      ensures calls == old(calls) + CommandCalls(cmd, bp, old(columns), old(indices))
      ensures forall c :: c in columns.Values ==> c in old(columns.Values) || fresh(c)
      ensures forall i :: i in indices ==> i in old(indices) || fresh(i)
      ensures cmd.Create? ==> ColumnsAdded(bp.columns)
      ensures cmd.Add? ==> ColumnsAdded(bp.added)
      ensures cmd.DropColumn? ==> columns == old(columns) - set n | n in cmd.columns
      ensures cmd.RenameColumn? ==>
        cmd.from in old(columns) && columns == (old(columns) - {cmd.from})[cmd.to := old(columns)[cmd.from]]
      ensures !(cmd.Create? || cmd.Add? || cmd.DropColumn? || cmd.RenameColumn?) ==> columns == old(columns)
      ensures cmd.AddIndex? ==> AppendedIndex(IndexDefinition(cmd.kind, cmd.index, cmd.columns))
      ensures cmd.DropIndex? ==> indices == Without(old(indices), IndexName, cmd.index)
      ensures !(cmd.AddIndex? || cmd.DropIndex?) ==> indices == old(indices)
      ensures cmd.Unknown? ==> unchanged(this, database)
    {
      if IsTableCommand(cmd) {
        RunTableCommand(cmd, bp);
      } else if IsColumnCommand(cmd) {
        RunColumnCommand(cmd, bp);
      } else if IsIndexCommand(cmd) {
        RunIndexCommand(cmd, bp);
      }
    }

    /** The handlers of the commands that register, deregister or rename the table. */
    method RunTableCommand(cmd: Command, bp: Blueprint)
      requires Valid() && IsTableCommand(cmd)
      modifies this`columns, this`name, database
      ensures Valid()
      ensures View() == Step(old(View()), this, cmd, bp).value
      ensures forall c :: c in columns.Values ==> c in old(columns.Values) || fresh(c)
      ensures cmd.Create? ==> ColumnsAdded(bp.columns)
      ensures !cmd.Create? ==> columns == old(columns)
    {
      match cmd
      case Create => Create(bp.columns);
      case Drop => Drop();
      case DropIfExists => Drop();
      case Rename(from, to) => Rename(from, to);
    }

    /** The handlers of the commands that change the column map or tell columns about new definitions. */
    method RunColumnCommand(cmd: Command, bp: Blueprint)
      requires Valid() && IsColumnCommand(cmd)
      requires Step(View(), this, cmd, bp).Some?
      modifies this`columns, this`calls
      ensures Valid()
      ensures View() == Step(old(View()), this, cmd, bp).value
      ensures calls == old(calls) + CommandCalls(cmd, bp, old(columns), old(indices))
      ensures forall c :: c in columns.Values ==> c in old(columns.Values) || fresh(c)
      ensures cmd.Add? ==> ColumnsAdded(bp.added)
      ensures cmd.DropColumn? ==> columns == old(columns) - set n | n in cmd.columns
      ensures cmd.RenameColumn? ==>
        cmd.from in old(columns) && columns == (old(columns) - {cmd.from})[cmd.to := old(columns)[cmd.from]]
      ensures cmd.Change? ==> columns == old(columns)
    {
      match cmd
      case DropColumn(names) =>
        DropColumns(names);
        ColumnDefsRemove(old(columns), set n | n in names);
      case RenameColumn(from, to) =>
        assert from in ColumnDefs(columns);
        RenameColumn(from, to);
        ColumnDefsMove(old(columns), from, to);
      case Add => AddColumns(bp.added);
      case Change =>
        assert forall k :: 0 <= k < |bp.changed| ==> bp.changed[k].name in Names(bp.changed);
        Change(bp.changed);
    }

    /**
     * What an index-declaring command does to the index list: one new index
     * with the declared definition is appended, and the earlier indices keep
     * their order and identity.
     */
    twostate predicate AppendedIndex(d: IndexDefinition)
      reads this
    {
      && |indices| == |old(indices)| + 1
      && indices[..|old(indices)|] == old(indices)
      && fresh(indices[|indices| - 1])
      && indices[|indices| - 1].definition == d
    }

    /** The handlers of the commands that add, drop or rename indices. */
    method RunIndexCommand(cmd: Command, bp: Blueprint)
      requires Valid() && IsIndexCommand(cmd)
      modifies this`indices, this`calls
      ensures Valid()
      ensures View() == Step(old(View()), this, cmd, bp).value
      ensures calls == old(calls) + CommandCalls(cmd, bp, old(columns), old(indices))
      ensures forall i :: i in indices ==> i in old(indices) || fresh(i)
      ensures cmd.AddIndex? ==> AppendedIndex(IndexDefinition(cmd.kind, cmd.index, cmd.columns))
      ensures cmd.DropIndex? ==> indices == Without(old(indices), IndexName, cmd.index)
      ensures cmd.RenameIndex? ==> indices == old(indices)
    {
      match cmd
      case AddIndex(kind, index, cols) => RunAddIndex(kind, index, cols);
      case DropIndex(kind, index) => RunDropIndex(kind, index);
      case RenameIndex(from, to) => RenameIndex(from, to);
    }

    /** An index-declaring command appends the declared index, as the pure step does. */
    method RunAddIndex(kind: IndexKind, index: string, cols: seq<string>)
      requires Valid()
      modifies this`indices, this`calls
      ensures Valid()
      ensures AppendedIndex(IndexDefinition(kind, index, cols))
      ensures Definitions(indices) == Definitions(old(indices)) + [IndexDefinition(kind, index, cols)]
      ensures calls == old(calls) + ColumnCalls(cols, columns, AddIndex(kind, index, cols))
      ensures forall i :: i in indices ==> i in old(indices) || fresh(i)
    {
      ApplyIndex(kind, index, cols);
      assert indices == old(indices) + [indices[|indices| - 1]];
      assert Definitions(indices) == Definitions(old(indices)) + [IndexDefinition(kind, index, cols)];
    }

    /** An index-dropping command filters the definitions by name, as the pure step does. */
    method RunDropIndex(kind: IndexKind, index: string)
      requires Valid()
      modifies this`indices, this`calls
      ensures Valid()
      ensures indices == Without(old(indices), IndexName, index)
      ensures Definitions(indices) == Without(Definitions(old(indices)), DefinitionName, index)
      ensures calls == old(calls) + DropCalls(old(indices), |old(indices)|, index, columns, DropIndex(kind, index))
      ensures forall i :: i in indices ==> i in old(indices)
    {
      ApplyDropIndex(kind, index);
      DefinitionsWithout(old(indices), index);
      WithoutMembers(old(indices), IndexName, index);
    }

    /** Registers the table under its name and creates a column for every declared column. */
    method Create(defs: seq<ColumnDefinition>)
      requires Valid()
      ensures Valid()
      modifies this`columns, database
      ensures database.tables == old(database.tables)[name := this]
      ensures ColumnsAdded(defs)
      ensures ColumnDefs(columns) == ColumnDefs(old(columns)) + Declared(defs)
    {
      database.SetTable(name, this);
      AddColumns(defs);
    }

    /** Deregisters the table's current name (drop and dropIfExists alike). */
    method Drop()
      modifies database
      ensures database.tables == old(database.tables) - {name}
    {
      database.DropTable(name);
    }

    /**
     * Removes each listed name from the column map; names not present are
     * ignored. Indices keep listing the removed names.
     */
    method DropColumns(names: seq<string>)
      requires Valid()
      ensures Valid()
      modifies this`columns
      ensures columns == old(columns) - set n | n in names
    {
      var k := 0;
      while k < |names|
        invariant 0 <= k <= |names|
        invariant Valid()
        invariant columns == old(columns) - set n | n in names[..k]
      {
        assert names[..k + 1] == names[..k] + [names[k]];
        columns := columns - {names[k]};
        k := k + 1;
      }
      assert names[..k] == names;
    }

    /**
     * Moves the column object from key `from` to key `to` (replacing whatever
     * `to` held) and tells the column about the rename.
     */
    method RenameColumn(from: string, to: string)
      requires Valid()
      requires from in columns
      ensures Valid()
      modifies this`columns, this`calls
      ensures columns == (old(columns) - {from})[to := old(columns[from])]
      ensures calls == old(calls) + [ToColumn(old(columns[from]), Notified(Command.RenameColumn(from, to)))]
    {
      var column := columns[from];
      columns := columns - {from};
      calls := calls + [ToColumn(column, Notified(Command.RenameColumn(from, to)))];
      columns := columns[to := column];
    }

    /**
     * Tells every column in the definition list of the index the command,
     * once per listed name that is a key of the column map.
     */
    method UpdateIndexRelatedColumns(index: Index, cmd: Command)
      modifies this`calls
      ensures calls == old(calls) + ColumnCalls(index.definition.columns, columns, cmd)
    {
      var names := index.definition.columns;
      var k := 0;
      while k < |names|
        invariant 0 <= k <= |names|
        invariant calls == old(calls) + ColumnCalls(names[..k], columns, cmd)
      {
        assert names[..k + 1][..k] == names[..k];
        var found := GetColumn(names[k]);
        if found.Some? {
          calls := calls + [ToColumn(found.value, Notified(cmd))];
        }
        k := k + 1;
      }
      assert names[..k] == names;
    }

    /**
     * Appends one new index declared by the command and tells the columns it
     * lists. Earlier indices keep their place; the column map is untouched.
     */
    method ApplyIndex(kind: IndexKind, index: string, cols: seq<string>)
      requires Valid()
      ensures Valid()
      modifies this`indices, this`calls
      ensures |indices| == |old(indices)| + 1 && indices[..|old(indices)|] == old(indices)
      ensures fresh(indices[|indices| - 1])
      ensures indices[|indices| - 1].definition == IndexDefinition(kind, index, cols)
      ensures calls == old(calls) + ColumnCalls(cols, columns, AddIndex(kind, index, cols))
    {
      var added := new Index(IndexDefinition(kind, index, cols));
      DistinctAppend(indices, added);
      indices := indices + [added];
      UpdateIndexRelatedColumns(added, AddIndex(kind, index, cols));
    }

    /**
     * Tells the columns of every index named `index` about the drop, then
     * removes every index of that name, keeping the others in order.
     */
    method ApplyDropIndex(kind: IndexKind, index: string)
      requires Valid()
      ensures Valid()
      modifies this`indices, this`calls
      ensures indices == Without(old(indices), IndexName, index)
      ensures calls == old(calls) + DropCalls(old(indices), |old(indices)|, index, columns, DropIndex(kind, index))
    {
      var cmd := DropIndex(kind, index);
      var xs := indices;
      var k := 0;
      while k < |xs|
        invariant 0 <= k <= |xs|
        invariant calls == old(calls) + DropCalls(xs, k, index, columns, cmd)
      {
        DropOne(xs[k], index, cmd);
        k := k + 1;
      }
      WithoutDistinct(xs, IndexName, index);
      indices := Without(xs, IndexName, index);
    }

    /** The body of the drop loop for one index: nothing unless the index is named `index`. */
    method DropOne(current: Index, index: string, cmd: Command)
      modifies this`calls
      ensures calls == old(calls) + DropStep(current, index, columns, cmd)
    {
      if IndexName(current) == index {
        UpdateIndexRelatedColumns(current, cmd);
      }
    }

    /**
     * Tells every index named `from`, and then the columns it lists, about
     * the rename. The index list and the column map stay as they are.
     */
    method RenameIndex(from: string, to: string)
      modifies this`calls
      ensures calls == old(calls) + RenameCalls(indices, |indices|, from, columns, Command.RenameIndex(from, to))
    {
      var cmd := Command.RenameIndex(from, to);
      var xs := indices;
      var k := 0;
      while k < |xs|
        invariant 0 <= k <= |xs|
        invariant calls == old(calls) + RenameCalls(xs, k, from, columns, cmd)
      {
        RenameOne(xs[k], from, cmd);
        k := k + 1;
      }
    }

    /** The body of the rename loop for one index: nothing unless the index is named `from`. */
    method RenameOne(current: Index, from: string, cmd: Command)
      modifies this`calls
      ensures calls == old(calls) + RenameStep(current, from, columns, cmd)
    {
      if IndexName(current) == from {
        calls := calls + [ToIndex(current, cmd)];
        UpdateIndexRelatedColumns(current, cmd);
      }
    }

    /**
     * Renames the table: deregisters `from`, takes `to` as its name and
     * registers itself under `to`.
     */
    method Rename(from: string, to: string)
      modifies this`name, database
      ensures name == to
      ensures database.tables == (old(database.tables) - {from})[to := this]
    {
      database.DropTable(from);
      name := to;
      database.SetTable(to, this);
    }

    /**
     * Creates a column for every definition in order, each under its own name,
     * so that a name declared twice keeps its last definition.
     */
    method AddColumns(defs: seq<ColumnDefinition>)
      requires Valid()
      ensures Valid()
      modifies this`columns
      ensures ColumnsAdded(defs)
      ensures ColumnDefs(columns) == ColumnDefs(old(columns)) + Declared(defs)
    {
      var k := 0;
      while k < |defs|
        invariant 0 <= k <= |defs|
        invariant Valid()
        invariant columns.Keys == old(columns).Keys + Names(defs[..k])
        invariant forall n :: n in old(columns) && n !in Names(defs[..k]) ==> columns[n] == old(columns)[n]
        invariant forall n :: n in Names(defs[..k]) ==>
          fresh(columns[n]) && columns[n].table == this && columns[n].definition == Declared(defs[..k])[n]
      {
        var d := defs[k];
        assert defs[..k + 1][..k] == defs[..k];
        assert Names(defs[..k + 1]) == Names(defs[..k]) + {d.name} by {
          assert defs[..k + 1] == defs[..k] + [d];
        }
        var column := new Column(this, d);
        columns := columns[d.name := column];
        k := k + 1;
      }
      assert defs[..k] == defs;
      ColumnDefsAdded(old(columns), columns, defs);
    }

    /** Hands every changed definition, in order, to the column of that name. */
    method Change(defs: seq<ColumnDefinition>)
      requires forall k :: 0 <= k < |defs| ==> defs[k].name in columns
      modifies this`calls
      ensures calls == old(calls) + UpdateCalls(defs, columns)
    {
      var k := 0;
      while k < |defs|
        invariant 0 <= k <= |defs|
        invariant calls == old(calls) + UpdateCalls(defs[..k], columns)
      {
        assert defs[..k + 1][..k] == defs[..k];
        calls := calls + [ToColumn(columns[defs[k].name], Redefined(defs[k]))];
        k := k + 1;
      }
      assert defs[..k] == defs;
    }
  }
}
