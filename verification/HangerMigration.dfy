/** The whole of migration 067: `upgrade` and `downgrade` over every product and the report table. */
module HangerMigration {
  import opened Text
  import opened HangerKeys
  import opened Values

  /** `linear`: measured by length, with norms stored as a per-length object. */
  datatype Product = Product(id: int, linear: bool, norms: Norms)

  /** The report table, unique on (product, old key): one dictionary of rows per product. */
  type ReportTable = map<int, map<Key, Entry>>

  datatype Db = Db(products: seq<Product>, report: Option<ReportTable>)

  /** What the migration reads: how keys are written, the registry of each product, and the order in
      which a given set of keys is iterated. */
  datatype Env = Env(codec: Codec, registry: int -> Registry, keyOrder: set<Key> -> seq<Key>)

  ghost predicate ValidEnv(env: Env) {
    && (forall id :: Lawful(env.codec, env.registry(id)))
    && (forall keys :: Lists(env.keyOrder(keys), keys))
  }

  ghost predicate DistinctIds(products: seq<Product>) {
    forall i, j :: 0 <= i < j < |products| ==> products[i].id != products[j].id
  }

  ghost function PlanOf(env: Env, p: Product): Plan
    requires ValidEnv(env)
  {
    Planned(env.codec, env.registry(p.id), p.norms, env.keyOrder(p.norms.Keys))
  }

  ghost function UpgradedProduct(env: Env, p: Product): Product
    requires ValidEnv(env)
  {
    if p.linear then p.(norms := PlanOf(env, p).norms) else p
  }

  function RowsFor(table: ReportTable, id: int): map<Key, Entry> {
    if id in table then table[id] else map[]
  }

  /** Inserting report rows; a row that is already there stays as it is. */
  function Insert(table: ReportTable, id: int, rows: map<Key, Entry>): ReportTable {
    table[id := rows + RowsFor(table, id)]
  }

  ghost function ReportUpTo(env: Env, products: seq<Product>, table: ReportTable, n: nat): ReportTable
    requires ValidEnv(env) && n <= |products|
  {
    if n == 0 then table
    else
      var p, before := products[n - 1], ReportUpTo(env, products, table, n - 1);
      if p.linear then Insert(before, p.id, PlanOf(env, p).report) else before
  }

  function TableOf(db: Db): ReportTable {
    if db.report.Some? then db.report.value else map[]
  }

  ghost function Upgraded(env: Env, db: Db): Db
    requires ValidEnv(env)
  {
    Db(seq(|db.products|, i requires 0 <= i < |db.products| => UpgradedProduct(env, db.products[i])),
       Some(ReportUpTo(env, db.products, TableOf(db), |db.products|)))
  }

  ghost function UndoneNorms(env: Env, rows: map<Key, Entry>, norms: Norms): Norms
    requires ValidEnv(env)
  {
    UndoAll(norms, Moves(rows), env.keyOrder(Moves(rows).Keys), |env.keyOrder(Moves(rows).Keys)|)
  }

  ghost function DowngradedProduct(env: Env, table: ReportTable, p: Product): Product
    requires ValidEnv(env)
  {
    if p.id in table then p.(norms := UndoneNorms(env, table[p.id], p.norms)) else p
  }

  ghost function Downgraded(env: Env, db: Db): Db
    requires ValidEnv(env)
  {
    if db.report.None? then db
    else Db(seq(|db.products|, i requires 0 <= i < |db.products| =>
        DowngradedProduct(env, db.report.value, db.products[i])), None)
  }

  class Migration {
    var products: seq<Product>
    var report: Option<ReportTable>

    constructor (products: seq<Product>, report: Option<ReportTable>)
      ensures Contents() == Db(products, report)
    {
      this.products, this.report := products, report;
    }

    function Contents(): Db
      reads this
    {
      Db(products, report)
    }

    method Upgrade(env: Env)
      requires ValidEnv(env)
      modifies this
      ensures Contents() == Upgraded(env, old(Contents()))
    {
      ghost var before := Contents();
      var table: ReportTable := TableOf(Contents());
      for i := 0 to |products|
        invariant |products| == |before.products|
        invariant forall k :: 0 <= k < i ==> products[k] == UpgradedProduct(env, before.products[k])
        invariant forall k :: i <= k < |products| ==> products[k] == before.products[k]
        invariant table == ReportUpTo(env, before.products, TableOf(before), i)
      {
        var p := products[i];
        if p.linear {
          var plan := PlanNorms(env.codec, env.registry(p.id), p.norms, env.keyOrder(p.norms.Keys));
          products := products[i := p.(norms := plan.norms)];
          table := Insert(table, p.id, plan.report);
        }
      }
      report := Some(table);
    }

    method Downgrade(env: Env)
      requires ValidEnv(env)
      modifies this
      ensures Contents() == Downgraded(env, old(Contents()))
    {
      if report.None? { return; }
      ghost var before := Contents();
      var table := report.value;
      for i := 0 to |products|
        invariant report == Some(table)
        invariant |products| == |before.products|
        invariant forall k :: 0 <= k < i ==> products[k] == DowngradedProduct(env, table, before.products[k])
        invariant forall k :: i <= k < |products| ==> products[k] == before.products[k]
      {
        var p := products[i];
        if p.id in table {
          var moves := Moves(table[p.id]);
          var norms := UndoMoves(p.norms, moves, env.keyOrder(moves.Keys));
          products := products[i := p.(norms := norms)];
        }
      }
      report := None;
    }
  }

  // ----- the report after an upgrade

  lemma {:induction false} ReportAt(env: Env, products: seq<Product>, table: ReportTable, n: nat, i: nat)
    requires ValidEnv(env) && DistinctIds(products) && n <= |products| && i < |products|
    ensures var p, after := products[i], ReportUpTo(env, products, table, n);
            if i < n && p.linear then p.id in after && after[p.id] == PlanOf(env, p).report + RowsFor(table, p.id)
            else RowsFor(after, p.id) == RowsFor(table, p.id) && (p.id in after <==> p.id in table)
  {
    if n > 0 { ReportAt(env, products, table, n - 1, i); }
  }

  /** What the upgrade does to one product: only a linear one is planned, its report rows are added, and rows
      that were there already stay as they are. */
  lemma ProductIsPlanned(env: Env, db: Db, i: nat, k: Key)
    requires ValidEnv(env) && DistinctIds(db.products) && i < |db.products|
    ensures var p, q := db.products[i], Upgraded(env, db).products[i];
            var before, after := RowsFor(TableOf(db), p.id), RowsFor(Upgraded(env, db).report.value, p.id);
            var plan := Planned(env.codec, env.registry(p.id), p.norms, env.keyOrder(p.norms.Keys));
            && q.id == p.id && q.linear == p.linear
            && (!p.linear ==> q.norms == p.norms && after == before)
            && (p.linear ==> q.norms == plan.norms)
            && (k in before ==> k in after && after[k] == before[k])
            && (p.linear && k !in before ==>
                  (k in after <==> k in plan.report) && (k in after ==> after[k] == plan.report[k]))
  {
    ReportAt(env, db.products, TableOf(db), |db.products|, i);
  }

  /** What the downgrade does to one product: reported changes are taken back, whatever the product is now. */
  lemma ProductIsUndone(env: Env, db: Db, i: nat)
    requires ValidEnv(env) && i < |db.products|
    ensures db.report == None ==> Downgraded(env, db) == db
    ensures db.report.Some? ==>
              var p, q, down := db.products[i], Downgraded(env, db).products[i], Downgraded(env, db);
              && down.report == None && |down.products| == |db.products|
              && q.id == p.id && q.linear == p.linear
              && (p.id !in db.report.value ==> q.norms == p.norms)
              && (p.id in db.report.value ==>
                    var moves := Moves(db.report.value[p.id]);
                    var order := env.keyOrder(moves.Keys);
                    q.norms == UndoAll(p.norms, moves, order, |order|))
  {
  }

  /** With a fresh report, downgrade gives back exactly the dictionaries that upgrade started from. */
  lemma DowngradeUndoesUpgrade(env: Env, db: Db)
    requires ValidEnv(env) && DistinctIds(db.products) && db.report.None?
    ensures Downgraded(env, Upgraded(env, db)) == db
  {
    var up := Upgraded(env, db);
    forall i | 0 <= i < |db.products|
      ensures DowngradedProduct(env, up.report.value, up.products[i]) == db.products[i]
    {
      var p := db.products[i];
      ReportAt(env, db.products, map[], |db.products|, i);
      if p.linear {
        var plan, order := PlanOf(env, p), env.keyOrder(p.norms.Keys);
        assert plan.report + map[] == plan.report;
        PlanRenames(env.codec, env.registry(p.id), p.norms, order);
        UndoRestores(env.codec, env.registry(p.id), p.norms,
                     Origins(env.codec, env.registry(p.id), p.norms, order, |order|), plan,
                     env.keyOrder(Moves(plan.report).Keys));
      }
    }
  }

  /** Upgrading twice is upgrading once, whatever the report held before. */
  lemma UpgradeIsIdempotent(env: Env, db: Db)
    requires ValidEnv(env) && DistinctIds(db.products)
    ensures Upgraded(env, Upgraded(env, db)) == Upgraded(env, db)
  {
    var up := Upgraded(env, db);
    assert DistinctIds(up.products);
    forall i | 0 <= i < |db.products| ensures UpgradedProduct(env, up.products[i]) == up.products[i] {
      if db.products[i].linear { SecondPlanOf(env, db.products[i]); }
    }
    SecondReport(env, db, |db.products|);
  }

  lemma SecondPlanOf(env: Env, p: Product)
    requires ValidEnv(env) && p.linear
    ensures var first, second := PlanOf(env, p), PlanOf(env, UpgradedProduct(env, p));
            second.norms == first.norms && second.report.Keys <= first.report.Keys
  {
    var again := env.keyOrder(PlanOf(env, p).norms.Keys);
    SecondPlanUpTo(env.codec, env.registry(p.id), p.norms, env.keyOrder(p.norms.Keys), again, |again|);
  }

  lemma {:induction false} SecondReport(env: Env, db: Db, n: nat)
    requires ValidEnv(env) && DistinctIds(db.products) && n <= |db.products|
    ensures var up := Upgraded(env, db);
            ReportUpTo(env, up.products, up.report.value, n) == up.report.value
  {
    if n > 0 {
      SecondReport(env, db, n - 1);
      var up, p := Upgraded(env, db), db.products[n - 1];
      if p.linear {
        SecondPlanOf(env, p);
        ReportAt(env, db.products, TableOf(db), |db.products|, n - 1);
        var rows := up.report.value[p.id];
        assert PlanOf(env, up.products[n - 1]).report + rows == rows;
      }
    }
  }
}
