/** Tenant scoping of database sessions (artpm_agent/database/tenant_session.py): new rows are stamped on
    flush and every ORM statement is filtered, so what one scope can observe does not depend on what
    any other scope does. */
module TenantSession {
  import opened Common

  /** The tenant and workspace a session is bound to. */
  datatype Scope = Scope(tenant: string, workspace: string)

  // ---------- Stamping new rows ----------

  /** The scope columns a new row comes with. */
  datatype NewRow = NewRow(tenant: Option<string>, workspace: Option<string>, content: string)

  predicate Acceptable(given: Option<string>, default: string, bound: string) {
    given == None || given.value == "" || given.value == default || given.value == bound
  }

  predicate Conflicts(row: NewRow, ctx: Scope) {
    !Acceptable(row.tenant, "local", ctx.tenant) || !Acceptable(row.workspace, "local-default", ctx.workspace)
  }

  /** A new row is refused exactly for a tenant or a workspace of its own that is neither empty nor the local
      default nor the session's. */
  lemma ConflictsExactly(row: NewRow, ctx: Scope)
    ensures Conflicts(row, ctx) <==>
      || (row.tenant.Some? && row.tenant.value !in {"", "local", ctx.tenant})
      || (row.workspace.Some? && row.workspace.value !in {"", "local-default", ctx.workspace})
  {
  }

  predicate NoConflict(rows: seq<NewRow>, ctx: Scope) {
    forall i :: 0 <= i < |rows| ==> !Conflicts(rows[i], ctx)
  }

  /** A mapped object waiting in `session.new`. */
  class Instance {
    const scoped: bool
    const content: string
    var tenantId: Option<string>
    var workspaceId: Option<string>

    constructor (scoped: bool, row: NewRow)
      ensures this.scoped == scoped && Columns() == row
    {
      this.scoped := scoped;
      this.content := row.content;
      this.tenantId := row.tenant;
      this.workspaceId := row.workspace;
    }

    function Columns(): NewRow
      reads this
    {
      NewRow(tenantId, workspaceId, content)
    }
  }

  function Stamped(content: string, ctx: Scope): NewRow {
    NewRow(Some(ctx.tenant), Some(ctx.workspace), content)
  }

  /** The hook that runs before a flush. It stamps the scoped instances in order and raises at the
      first one that carries another scope; instances from there on keep their columns. */
  method BindNewRows(pending: seq<Instance>, ctx: Scope) returns (conflict: Option<nat>)
    requires forall i, j :: 0 <= i < j < |pending| ==> pending[i] != pending[j]
    modifies pending
    ensures conflict == None <==> forall i :: 0 <= i < |pending| && pending[i].scoped ==> !Conflicts(old(pending[i].Columns()), ctx)
    ensures conflict.Some? ==> conflict.value < |pending| && pending[conflict.value].scoped && Conflicts(old(pending[conflict.value].Columns()), ctx)
    ensures forall i :: 0 <= i < |pending| ==> (
      pending[i].Columns() ==
        if pending[i].scoped && (conflict == None || i < conflict.value) then Stamped(pending[i].content, ctx)
        else old(pending[i].Columns()))
  {
    for n := 0 to |pending|
      invariant forall i :: 0 <= i < n && pending[i].scoped ==> !Conflicts(old(pending[i].Columns()), ctx)
      invariant forall i :: 0 <= i < |pending| ==> (
        pending[i].Columns() ==
          if pending[i].scoped && i < n then Stamped(pending[i].content, ctx) else old(pending[i].Columns()))
    {
      var instance := pending[n];
      if instance.scoped {
        if !Acceptable(instance.tenantId, "local", ctx.tenant) {
          return Some(n);
        }
        if !Acceptable(instance.workspaceId, "local-default", ctx.workspace) {
          return Some(n);
        }
        instance.tenantId := Some(ctx.tenant);
        instance.workspaceId := Some(ctx.workspace);
      }
    }
    return None;
  }

  // ---------- Statements ----------

  /** A stored row of any scoped table. Generated row ids are not part of what a session observes. */
  datatype Row = Row(scope: Scope, content: string)

  type Table = seq<Row>

  datatype Action = Select | Update(change: string -> string) | Delete

  /** An ORM statement: which rows the caller asks for and whether it opts out of scoping. */
  datatype Statement = Statement(action: Action, matches: string -> bool, skipScope: bool)

  predicate Hits(row: Row, st: Statement, ctx: Scope) {
    (st.skipScope || row.scope == ctx) && st.matches(row.content)
  }

  function Selected(table: Table, st: Statement, ctx: Scope): seq<string> {
    if table == [] then []
    else (if Hits(table[0], st, ctx) then [table[0].content] else []) + Selected(table[1..], st, ctx)
  }

  function After(table: Table, st: Statement, ctx: Scope): Table {
    if table == [] then []
    else
      var rest := After(table[1..], st, ctx);
      if !Hits(table[0], st, ctx) then [table[0]] + rest
      else match st.action
        case Select => [table[0]] + rest
        case Update(change) => [table[0].(content := change(table[0].content))] + rest
        case Delete => rest
  }

  function Inserted(rows: seq<NewRow>, ctx: Scope): Table {
    seq(|rows|, i requires 0 <= i < |rows| => Row(ctx, rows[i].content))
  }

  // ---------- Views ----------

  /** The rows of one scope, in table order. */
  function View(table: Table, scope: Scope): seq<string> {
    if table == [] then []
    else (if table[0].scope == scope then [table[0].content] else []) + View(table[1..], scope)
  }

  lemma {:induction false} ViewAppend(a: Table, b: Table, scope: Scope)
    ensures View(a + b, scope) == View(a, scope) + View(b, scope)
  {
    if a == [] {
      assert a + b == b;
    } else {
      assert (a + b)[1..] == a[1..] + b;
      ViewAppend(a[1..], b, scope);
    }
  }

  function Contents(rows: seq<NewRow>): seq<string> {
    seq(|rows|, i requires 0 <= i < |rows| => rows[i].content)
  }

  lemma {:induction false} ViewInserted(rows: seq<NewRow>, ctx: Scope, scope: Scope)
    ensures View(Inserted(rows, ctx), scope) == if ctx == scope then Contents(rows) else []
  {
    if rows != [] {
      ViewInserted(rows[1..], ctx, scope);
      assert Inserted(rows, ctx)[1..] == Inserted(rows[1..], ctx);
      assert Contents(rows) == [rows[0].content] + Contents(rows[1..]);
    }
  }

  // ---------- Sessions ----------

  datatype Op = Add(row: NewRow) | Flush | Execute(st: Statement)

  /** What the caller of an operation gets to see. */
  datatype Observation = Added | Flushed | Refused | Rows(contents: seq<string>) | Touched(count: nat)

  /** A session bound to one scope, driven by a program that may react to everything it has seen. */
  datatype Client = Client(scope: Scope, program: seq<Observation> -> Op)

  datatype Session = Session(seen: seq<Observation>, pending: seq<NewRow>)

  datatype World = World(table: Table, sessions: seq<Session>)

  /** Writes the pending rows, or refuses all of them. */
  function Flushing(table: Table, pending: seq<NewRow>, ctx: Scope): Option<Table> {
    if NoConflict(pending, ctx) then Some(table + Inserted(pending, ctx)) else None
  }

  /** An instance as it was added: whether its table has both scope columns, and its columns. */
  datatype Given = Given(scoped: bool, row: NewRow)

  function ScopedRows(given: seq<Given>): seq<NewRow> {
    if given == [] then []
    else
      var last := given[|given| - 1];
      ScopedRows(given[..|given| - 1]) + if last.scoped then [last.row] else []
  }

  function OtherContents(given: seq<Given>): seq<string> {
    if given == [] then []
    else
      var last := given[|given| - 1];
      OtherContents(given[..|given| - 1]) + if last.scoped then [] else [last.row.content]
  }

  /** What the scoped instances hold, in order. */
  function ScopedContents(given: seq<Given>): seq<string> {
    if given == [] then []
    else (if given[0].scoped then [given[0].row.content] else []) + ScopedContents(given[1..])
  }

  lemma {:induction false} OneMoreScoped(given: seq<Given>, last: Given)
    ensures ScopedContents(given + [last]) == ScopedContents(given) + if last.scoped then [last.row.content] else []
  {
    if given == [] {
      assert [last][1..] == [] && given + [last] == [last];
    } else {
      assert (given + [last])[1..] == given[1..] + [last];
      OneMoreScoped(given[1..], last);
    }
  }

  lemma {:induction false} ScopedRowsHoldContents(given: seq<Given>)
    ensures Contents(ScopedRows(given)) == ScopedContents(given)
  {
    if given != [] {
      var rest, last := given[..|given| - 1], given[|given| - 1];
      ScopedRowsHoldContents(rest);
      assert given == rest + [last];
      OneMoreScoped(rest, last);
    }
  }

  /** What rows inserted for one scope do to every view. */
  lemma InsertedViews(table: Table, pending: seq<NewRow>, ctx: Scope)
    ensures View(table + Inserted(pending, ctx), ctx) == View(table, ctx) + Contents(pending)
    ensures forall scope :: scope != ctx ==> View(table + Inserted(pending, ctx), scope) == View(table, scope)
  {
    forall scope
      ensures View(table + Inserted(pending, ctx), scope) == View(table, scope) + if scope == ctx then Contents(pending) else []
    {
      ViewAppend(table, Inserted(pending, ctx), scope);
      ViewInserted(pending, ctx, scope);
    }
  }

  /** Only the scoped instances can be refused. */
  lemma {:induction false} ConflictAmongScoped(given: seq<Given>, ctx: Scope)
    ensures NoConflict(ScopedRows(given), ctx) <==> forall i :: 0 <= i < |given| && given[i].scoped ==> !Conflicts(given[i].row, ctx)
  {
    if given != [] {
      var rest, last := given[..|given| - 1], given[|given| - 1];
      ConflictAmongScoped(rest, ctx);
      assert forall i :: 0 <= i < |rest| ==> given[i] == rest[i];
      var rows := ScopedRows(rest);
      assert ScopedRows(given)[..|rows|] == rows;
      if NoConflict(ScopedRows(given), ctx) {
        assert forall i :: 0 <= i < |rows| ==> rows[i] == ScopedRows(given)[i];
        if last.scoped {
          assert ScopedRows(given)[|rows|] == last.row;
        }
      }
    }
  }

  lemma OneMoreGiven(given: seq<Given>, i: nat, ctx: Scope)
    requires i < |given|
    ensures var row := given[i].row;
      && Inserted(ScopedRows(given[..i + 1]), ctx) == Inserted(ScopedRows(given[..i]), ctx) + (if given[i].scoped then [Row(ctx, row.content)] else [])
      && OtherContents(given[..i + 1]) == OtherContents(given[..i]) + if given[i].scoped then [] else [row.content]
  {
    assert given[..i + 1][..i] == given[..i];
  }

  /** The tables behind a session factory: the rows of those with scope columns, and of all others. */
  class Database {
    var rows: Table
    var others: seq<string>

    /** A flush: the hook stamps the scoped ones of the pending instances and then the columns of all are
        written, or the hook raises and nothing is written. What the scoped ones hold is then in the view of
        the session's scope, in order and after what was there, and no other scope sees any of it. */
    method Flush(pending: seq<Instance>, ctx: Scope) returns (ok: bool)
      requires forall i, j :: 0 <= i < j < |pending| ==> pending[i] != pending[j]
      modifies this, pending
      ensures var given := seq(|pending|, i requires 0 <= i < |pending| => Given(pending[i].scoped, old(pending[i].Columns())));
        var flushed := Flushing(old(rows), ScopedRows(given), ctx);
        && (ok <==> flushed.Some?)
        && rows == (if ok then flushed.value else old(rows))
        && others == if ok then old(others) + OtherContents(given) else old(others)
      ensures var given := seq(|pending|, i requires 0 <= i < |pending| => Given(pending[i].scoped, old(pending[i].Columns())));
        View(rows, ctx) == View(old(rows), ctx) + if ok then ScopedContents(given) else []
      ensures forall scope :: scope != ctx ==> View(rows, scope) == View(old(rows), scope)
    {
      ghost var given := seq(|pending|, i requires 0 <= i < |pending| => Given(pending[i].scoped, old(pending[i].Columns())));
      ConflictAmongScoped(given, ctx);
      var conflict := BindNewRows(pending, ctx);
      if conflict.Some? {
        assert Conflicts(given[conflict.value].row, ctx);
        return false;
      }
      Write(pending, given, ctx);
      InsertedViews(old(rows), ScopedRows(given), ctx);
      ScopedRowsHoldContents(given);
      return true;
    }

    /** The inserts of a flush, once the hook has stamped what it was given. */
    method Write(pending: seq<Instance>, ghost given: seq<Given>, ctx: Scope)
      requires |given| == |pending|
      requires forall i :: 0 <= i < |pending| ==>
        && pending[i].scoped == given[i].scoped
        && pending[i].Columns() == if given[i].scoped then Stamped(given[i].row.content, ctx) else given[i].row
      modifies this
      ensures rows == old(rows) + Inserted(ScopedRows(given), ctx)
      ensures others == old(others) + OtherContents(given)
    {
      for i := 0 to |pending|
        invariant rows == old(rows) + Inserted(ScopedRows(given[..i]), ctx)
        invariant others == old(others) + OtherContents(given[..i])
      {
        OneMoreGiven(given, i, ctx);
        var columns := pending[i].Columns();
        if pending[i].scoped {
          rows := rows + [Row(Scope(columns.tenant.value, columns.workspace.value), columns.content)];
        } else {
          others := others + [columns.content];
        }
      }
      assert given[..|pending|] == given;
    }
  }

  /** What one operation sees and leaves; statements flush first. */
  function Performed(table: Table, session: Session, ctx: Scope, op: Op): (Table, Session) {
    match op
    case Add(row) => (table, Session(session.seen + [Added], session.pending + [row]))
    case Flush =>
      (match Flushing(table, session.pending, ctx)
       case None => (table, Session(session.seen + [Refused], []))
       case Some(flushed) => (flushed, Session(session.seen + [Flushed], [])))
    case Execute(st) =>
      (match Flushing(table, session.pending, ctx)
       case None => (table, Session(session.seen + [Refused], []))
       case Some(flushed) =>
         var rows := Selected(flushed, st, ctx);
         (After(flushed, st, ctx), Session(session.seen + [if st.action.Select? then Rows(rows) else Touched(|rows|)], [])))
  }

  /** One operation of client `i`. */
  function Step(clients: seq<Client>, w: World, i: nat): (r: World)
    requires |w.sessions| == |clients| && i < |clients|
    ensures |r.sessions| == |clients|
  {
    var session := w.sessions[i];
    var (table, next) := Performed(w.table, session, clients[i].scope, clients[i].program(session.seen));
    World(table, w.sessions[i := next])
  }

  predicate Schedule(clients: seq<Client>, schedule: seq<nat>) {
    forall n :: 0 <= n < |schedule| ==> schedule[n] < |clients|
  }

  /** Any interleaving. */
  function Run(clients: seq<Client>, w: World, schedule: seq<nat>): (r: World)
    requires |w.sessions| == |clients| && Schedule(clients, schedule)
    ensures |r.sessions| == |clients|
    decreases |schedule|
  {
    if schedule == [] then w
    else Run(clients, Step(clients, w, schedule[0]), schedule[1..])
  }

  // ---------- Non-interference ----------

  /** A scoped statement of another scope does not touch this scope's rows. */
  lemma {:induction false} OthersKeepView(table: Table, st: Statement, ctx: Scope, scope: Scope)
    requires !st.skipScope && ctx != scope
    ensures View(After(table, st, ctx), scope) == View(table, scope)
  {
    if table != [] {
      OthersKeepView(table[1..], st, ctx, scope);
      var rest := After(table[1..], st, ctx);
      var kept := if st.action.Update? && Hits(table[0], st, ctx) then table[0].(content := st.action.change(table[0].content)) else table[0];
      assert ([kept] + rest)[1..] == rest;
    }
  }

  /** What a scoped statement does to a view, said of the view alone. */
  function OnView(view: seq<string>, st: Statement): seq<string> {
    if view == [] then []
    else
      var rest := OnView(view[1..], st);
      if !st.matches(view[0]) || st.action.Select? then [view[0]] + rest
      else if st.action.Update? then [st.action.change(view[0])] + rest
      else rest
  }

  function Matching(view: seq<string>, st: Statement): seq<string> {
    if view == [] then []
    else (if st.matches(view[0]) then [view[0]] else []) + Matching(view[1..], st)
  }

  /** A scoped statement reads and changes nothing but the view of its own scope. */
  lemma {:induction false} OwnViewOnly(table: Table, st: Statement, ctx: Scope)
    requires !st.skipScope
    ensures Selected(table, st, ctx) == Matching(View(table, ctx), st)
    ensures View(After(table, st, ctx), ctx) == OnView(View(table, ctx), st)
  {
    if table != [] {
      OwnViewOnly(table[1..], st, ctx);
      var rest := After(table[1..], st, ctx);
      var kept := if st.action.Update? && Hits(table[0], st, ctx) then table[0].(content := st.action.change(table[0].content)) else table[0];
      assert ([kept] + rest)[1..] == rest;
      var view := View(table[1..], ctx);
      assert ([table[0].content] + view)[1..] == view;
      assert [] + view == view;
    }
  }

  /** No client ever sends a statement that opts out of scoping. */
  ghost predicate NeverSkips(clients: seq<Client>) {
    forall i: nat, seen: seq<Observation> :: i < |clients| ==> ProgramScopes(clients[i], seen)
  }

  predicate ProgramScopes(client: Client, seen: seq<Observation>) {
    client.program(seen).Execute? ==> !client.program(seen).st.skipScope
  }

  /** Two worlds look the same to one scope. */
  ghost predicate Alike(clients: seq<Client>, scope: Scope, v: World, w: World) {
    && |v.sessions| == |w.sessions| == |clients|
    && View(v.table, scope) == View(w.table, scope)
    && forall i :: 0 <= i < |clients| && clients[i].scope == scope ==> v.sessions[i] == w.sessions[i]
  }

  lemma FlushKeepsOthers(table: Table, pending: seq<NewRow>, ctx: Scope, scope: Scope)
    requires ctx != scope
    ensures Flushing(table, pending, ctx).Some? ==> View(Flushing(table, pending, ctx).value, scope) == View(table, scope)
  {
    ViewAppend(table, Inserted(pending, ctx), scope);
    ViewInserted(pending, ctx, scope);
  }

  lemma OthersStepUnseen(clients: seq<Client>, w: World, i: nat, scope: Scope)
    requires |w.sessions| == |clients| && i < |clients| && NeverSkips(clients) && clients[i].scope != scope
    ensures Alike(clients, scope, w, Step(clients, w, i))
  {
    hide View, Selected, NoConflict;
    var ctx, session := clients[i].scope, w.sessions[i];
    var op := clients[i].program(session.seen);
    assert ProgramScopes(clients[i], session.seen);
    FlushKeepsOthers(w.table, session.pending, ctx, scope);
    if op.Execute? && Flushing(w.table, session.pending, ctx).Some? {
      OthersKeepView(Flushing(w.table, session.pending, ctx).value, op.st, ctx, scope);
    }
  }

  lemma OwnStepsAlike(clients: seq<Client>, v: World, w: World, i: nat)
    requires i < |clients| && NeverSkips(clients) && Alike(clients, clients[i].scope, v, w)
    ensures Alike(clients, clients[i].scope, Step(clients, v, i), Step(clients, w, i))
  {
    hide View, Selected, After, NoConflict;
    var ctx, session := clients[i].scope, v.sessions[i];
    var op := clients[i].program(session.seen);
    assert ProgramScopes(clients[i], session.seen);
    ViewAppend(v.table, Inserted(session.pending, ctx), ctx);
    ViewAppend(w.table, Inserted(session.pending, ctx), ctx);
    if op.Execute? && Flushing(v.table, session.pending, ctx).Some? {
      OwnViewOnly(Flushing(v.table, session.pending, ctx).value, op.st, ctx);
      OwnViewOnly(Flushing(w.table, session.pending, ctx).value, op.st, ctx);
    }
  }

  /** The interleaving with every other scope's operations deleted. */
  function Purged(clients: seq<Client>, schedule: seq<nat>, scope: Scope): (r: seq<nat>)
    requires Schedule(clients, schedule)
    ensures Schedule(clients, r)
  {
    if schedule == [] then []
    else (if clients[schedule[0]].scope == scope then [schedule[0]] else []) + Purged(clients, schedule[1..], scope)
  }

  /** Non-interference. In every interleaving of sessions with fixed scopes, starting from any tables
      that hold the same rows of one scope, the sessions of that scope see exactly what they see when
      every operation of every other scope is deleted from the run; and its rows end up the same. */
  lemma {:induction false} NonInterference(clients: seq<Client>, v: World, w: World, schedule: seq<nat>, scope: Scope)
    requires NeverSkips(clients) && Schedule(clients, schedule) && Alike(clients, scope, v, w)
    ensures Alike(clients, scope, Run(clients, v, schedule), Run(clients, w, Purged(clients, schedule, scope)))
    decreases |schedule|
  {
    if schedule != [] {
      var i := schedule[0];
      var rest := Purged(clients, schedule[1..], scope);
      if clients[i].scope == scope {
        OwnStepsAlike(clients, v, w, i);
        NonInterference(clients, Step(clients, v, i), Step(clients, w, i), schedule[1..], scope);
        assert ([i] + rest)[1..] == rest;
        assert Purged(clients, schedule, scope) == [i] + rest;
      } else {
        OthersStepUnseen(clients, v, i, scope);
        NonInterference(clients, Step(clients, v, i), w, schedule[1..], scope);
        assert Purged(clients, schedule, scope) == rest;
      }
    }
  }

  /** A flush, explicit or ahead of a statement, is refused exactly when some pending row carries
      another scope; then nothing is stored and the statement does not run. */
  lemma RefusedStoresNothing(clients: seq<Client>, w: World, i: nat)
    requires |w.sessions| == |clients| && i < |clients|
    ensures var op := clients[i].program(w.sessions[i].seen); var after := Step(clients, w, i);
      && (after.sessions[i].seen == w.sessions[i].seen + [Refused] <==> !op.Add? && !NoConflict(w.sessions[i].pending, clients[i].scope))
      && (after.sessions[i].seen == w.sessions[i].seen + [Refused] ==> after.table == w.table)
  {
    var op := clients[i].program(w.sessions[i].seen);
    var seen, after := w.sessions[i].seen, Step(clients, w, i).sessions[i].seen;
    assert after[..|seen|] == seen && |after| == |seen| + 1;
    assert after == seen + [Refused] <==> after[|seen|] == Refused;
  }

  /** `stored` is the table with what one session had pending. */
  ghost predicate Stores(table: Table, stored: Table, pending: seq<NewRow>, ctx: Scope) {
    && View(stored, ctx) == View(table, ctx) + Contents(pending)
    && forall scope :: scope != ctx ==> View(stored, scope) == View(table, scope)
  }

  /** An accepted flush, explicit or ahead of a statement, stores every pending row once, in order and for the
      session's own scope; the statement then acts on the table with them. Adding only queues a row. */
  lemma AcceptedStoresAll(clients: seq<Client>, w: World, i: nat)
    requires |w.sessions| == |clients| && i < |clients| && NoConflict(w.sessions[i].pending, clients[i].scope)
    ensures var before, ctx := w.sessions[i], clients[i].scope; var op := clients[i].program(before.seen);
      var r := Step(clients, w, i); var after := r.sessions[i];
      && (op.Add? ==> r.table == w.table && after == Session(before.seen + [Added], before.pending + [op.row]))
      && (op.Flush? ==> Stores(w.table, r.table, before.pending, ctx) && after == Session(before.seen + [Flushed], []))
      && (op.Execute? ==> exists stored: Table ::
        && Stores(w.table, stored, before.pending, ctx) && r.table == After(stored, op.st, ctx)
        && after == Session(before.seen + [Answer(Selected(stored, op.st, ctx), op.st)], []))
  {
    InsertedViews(w.table, w.sessions[i].pending, clients[i].scope);
    hide View, After, Selected, NoConflict, Contents;
    var stored := w.table + Inserted(w.sessions[i].pending, clients[i].scope);
    assert Stores(w.table, stored, w.sessions[i].pending, clients[i].scope);
  }

  /** What a statement returns: the rows it selects, or how many it touched. */
  function Answer(rows: seq<string>, st: Statement): Observation {
    match st.action
    case Select => Rows(rows)
    case Update(_) | Delete => Touched(|rows|)
  }

  /** The opt-out has to stay unused: one unscoped statement of another scope is already seen. */
  lemma UnscopedStatementInterferes()
    ensures exists clients: seq<Client>, w: World, schedule: seq<nat>, scope: Scope ::
      && |w.sessions| == |clients| && Schedule(clients, schedule)
      && !Alike(clients, scope, Run(clients, w, schedule), Run(clients, w, Purged(clients, schedule, scope)))
  {
    var mine, other := Scope("a", "w"), Scope("b", "w");
    var wipe := Execute(Statement(Delete, (content: string) => true, true));
    var clients := [Client(mine, (seen: seq<Observation>) => Flush), Client(other, (seen: seq<Observation>) => wipe)];
    var w := World([Row(mine, "x")], [Session([], []), Session([], [])]);
    var schedule: seq<nat> := [1];
    assert Schedule(clients, schedule);
    var after := Step(clients, w, 1);
    assert w.table[1..] == [] && After([], wipe.st, other) == [];
    assert w.table + Inserted([], other) == w.table;
    assert after.table == [];
    assert schedule[1..] == [];
    assert Run(clients, w, schedule) == after;
    assert Purged(clients, schedule, mine) == [];
    assert View(w.table, mine) == ["x"] + View([], mine);
    assert !Alike(clients, mine, Run(clients, w, schedule), Run(clients, w, Purged(clients, schedule, mine)));
  }
}
