/** Query-clause builders (package `entx/query`, files order.go and select.go). The
    ORM's `sql.Selector` is reduced to the two pieces of state these builders change:
    its ORDER BY clauses and its selected columns. A builder returns a closure over a
    selector; here the closure is a `SelectorFn` value and `Apply` runs it. */
module Query {
  import opened Wrappers

  /** One ORDER BY term: a column and its direction. */
  datatype OrderClause = OrderBy(column: string, desc: bool)

  /** The selector state the builders touch. */
  class Selector {
    var orders: seq<OrderClause>
    var columns: seq<string>

    constructor ()
      ensures orders == [] && columns == []
    {
      orders, columns := [], [];
    }

    /** `s.OrderBy(term)`: appends one ORDER BY term. */
    method OrderBy(c: OrderClause)
      modifies this
      ensures orders == old(orders) + [c] && columns == old(columns)
    {
      orders := orders + [c];
    }

    /** `s.Select(columns...)`: the selection becomes exactly these columns. */
    method Select(cs: seq<string>)
      modifies this
      ensures columns == cs && orders == old(orders)
    {
      columns := cs;
    }
  }

  /** The closures the builders return. `FieldSelection` carries the caller's slice
      (shared, and rewritten in place when run) and the snake-case conversion it uses. */
  datatype SelectorFn =
    | OrderConditions(orderBys: seq<string>)
    | DefaultOrder(field: string)
    | FieldSelection(fields: array<string>, toSnakeCase: string -> string)
  {
    /** The objects running the closure may change besides the selector. */
    function Footprint(): set<object> {
      if FieldSelection? then {fields} else {}
    }
  }

  /** A builder's two results: the closure (None for nil) and the error (always nil). */
  datatype Built = Built(fn: Option<SelectorFn>, err: Option<string>)

  /** The order-by mini-grammar: "-f" is descending on f, a non-empty "f" not starting
      with '-' is ascending on f, and "" and "-" name nothing. */
  function ParseOrderBy(v: string): (c: Option<OrderClause>)
    ensures c.Some? <==> v != "" && v != "-"
    ensures c.Some? ==> c.value.column != "" && (c.value.desc <==> v[0] == '-')
    ensures c.Some? && c.value.desc ==> c.value.column == v[1..]
    ensures c.Some? && !c.value.desc ==> c.value.column == v
  {
    if |v| > 0 && v[0] == '-' then
      var key := v[1..];
      if |key| == 0 then None else Some(OrderBy(key, true))
    else
      if |v| == 0 then None else Some(OrderBy(v, false))
  }

  /** How a clause is written in the order-by grammar. */
  function RenderOrderBy(c: OrderClause): string {
    if c.desc then "-" + c.column else c.column
  }

  /** A clause the grammar can express (a non-empty column; an ascending column must
      not itself start with '-'). */
  predicate Expressible(c: OrderClause) {
    c.column != "" && (!c.desc ==> c.column[0] != '-')
  }

  /** Parsing and rendering are inverse on the entries that are not skipped and on the
      clauses the grammar can express. */
  lemma ParseRenderRoundTrip(v: string, c: OrderClause)
    ensures ParseOrderBy(v).Some? ==> RenderOrderBy(ParseOrderBy(v).value) == v
    ensures ParseOrderBy(v).Some? ==> Expressible(ParseOrderBy(v).value)
    ensures Expressible(c) ==> ParseOrderBy(RenderOrderBy(c)) == Some(c)
  {
    if ParseOrderBy(v).Some? && ParseOrderBy(v).value.desc {
      assert v == [v[0]] + v[1..];
    }
    if Expressible(c) && c.desc {
      assert RenderOrderBy(c)[1..] == c.column;
    }
  }

  /** The clauses an entry contributes: one, or none when it is skipped. */
  function EntryClauses(v: string): seq<OrderClause> {
    match ParseOrderBy(v)
    case Some(c) => [c]
    case None => []
  }

  /** The clauses a list of order-by entries appends, in input order. */
  function OrderClausesOf(orderBys: seq<string>): seq<OrderClause> {
    if orderBys == [] then []
    else OrderClausesOf(orderBys[..|orderBys| - 1]) + EntryClauses(orderBys[|orderBys| - 1])
  }

  /** No more clauses than entries, and each clause is the parse of some entry. */
  lemma {:induction false} OrderClausesBounded(orderBys: seq<string>)
    ensures |OrderClausesOf(orderBys)| <= |orderBys|
    ensures forall c :: c in OrderClausesOf(orderBys) ==>
      exists v :: v in orderBys && ParseOrderBy(v) == Some(c)
  {
    if orderBys != [] {
      var init, last := orderBys[..|orderBys| - 1], orderBys[|orderBys| - 1];
      OrderClausesBounded(init);
      forall c | c in OrderClausesOf(orderBys)
        ensures exists v :: v in orderBys && ParseOrderBy(v) == Some(c)
      {
        if c in OrderClausesOf(init) {
          var v :| v in init && ParseOrderBy(v) == Some(c);
          assert v in orderBys;
        } else {
          assert ParseOrderBy(last) == Some(c);
        }
      }
    }
  }

  /** Entries are handled one after another: the clauses of a concatenation are the
      concatenation of the clauses. */
  lemma {:induction false} OrderClausesAppend(a: seq<string>, b: seq<string>)
    ensures OrderClausesOf(a + b) == OrderClausesOf(a) + OrderClausesOf(b)
    decreases |b|
  {
    if b == [] {
      assert a + b == a;
    } else {
      var init := b[..|b| - 1];
      assert (a + b)[..|a + b| - 1] == a + init;
      OrderClausesAppend(a, init);
    }
  }

  /** The order-by entries that write a list of clauses. */
  function RenderAll(cs: seq<OrderClause>): (vs: seq<string>)
    ensures |vs| == |cs|
  {
    if cs == [] then [] else RenderAll(cs[..|cs| - 1]) + [RenderOrderBy(cs[|cs| - 1])]
  }

  /** Rendering expressible clauses and building from the rendering gives them back. */
  lemma {:induction false} OrderClausesOfRendered(cs: seq<OrderClause>)
    requires forall i :: 0 <= i < |cs| ==> Expressible(cs[i])
    ensures OrderClausesOf(RenderAll(cs)) == cs
    decreases |cs|
  {
    if cs != [] {
      var init, last := cs[..|cs| - 1], cs[|cs| - 1];
      var vs := RenderAll(cs);
      assert vs == RenderAll(init) + [RenderOrderBy(last)];
      assert vs[..|vs| - 1] == RenderAll(init) && vs[|vs| - 1] == RenderOrderBy(last);
      assert OrderClausesOf(vs) == OrderClausesOf(RenderAll(init)) + EntryClauses(RenderOrderBy(last));
      OrderClausesOfRendered(init);
      EntryClausesOfRendered(last);
      assert cs == init + [last];
    }
  }

  lemma EntryClausesOfRendered(c: OrderClause)
    requires Expressible(c)
    ensures EntryClauses(RenderOrderBy(c)) == [c]
  {
    ParseRenderRoundTrip("", c);
  }

  /** `BuildOrderSelect`: one ascending or descending term on the field. */
  method BuildOrderSelect(s: Selector, field: string, desc: bool)
    modifies s
    ensures s.orders == old(s.orders) + [OrderBy(field, desc)]
    ensures s.columns == old(s.columns)
  {
    if desc {
      s.OrderBy(OrderBy(field, true));
    } else {
      s.OrderBy(OrderBy(field, false));
    }
  }

  /** The closure `QueryCommandToOrderConditions` returns: one term per entry that is
      not skipped, appended in input order after the existing ones. */
  method ApplyOrderConditions(orderBys: seq<string>, s: Selector)
    modifies s
    ensures s.orders == old(s.orders) + OrderClausesOf(orderBys)
    ensures s.columns == old(s.columns)
  {
    for i := 0 to |orderBys|
      invariant s.orders == old(s.orders) + OrderClausesOf(orderBys[..i])
      invariant s.columns == old(s.columns)
    {
      var v := orderBys[i];
      assert orderBys[..i + 1][..i] == orderBys[..i];
      if |v| > 0 && v[0] == '-' {
        var key := v[1..];
        if |key| == 0 {
          continue;
        }
        BuildOrderSelect(s, key, true);
      } else {
        if |v| == 0 {
          continue;
        }
        BuildOrderSelect(s, v, false);
      }
    }
    assert orderBys[..|orderBys|] == orderBys;
  }

  /** The ORDER BY terms a closure appends when run. */
  function OrderEffect(fn: SelectorFn): seq<OrderClause> {
    match fn
    case OrderConditions(orderBys) => OrderClausesOf(orderBys)
    case DefaultOrder(field) => [OrderBy(field, true)]
    case FieldSelection(_, _) => []
  }

  /** `QueryCommandToOrderConditions`: nil for an empty list; otherwise the closure
      appending the terms of the entries. The error is always nil. */
  function QueryCommandToOrderConditions(orderBys: seq<string>): (b: Built)
    ensures b.err.None?
    ensures b.fn.None? <==> |orderBys| == 0
    ensures b.fn.Some? ==> !b.fn.value.FieldSelection? &&
                           OrderEffect(b.fn.value) == OrderClausesOf(orderBys)
  {
    if |orderBys| == 0 then Built(None, None) else Built(Some(OrderConditions(orderBys)), None)
  }

  /** `BuildOrderSelector`: with no entries, a closure that orders by the default field
      descending; otherwise exactly `QueryCommandToOrderConditions`. */
  function BuildOrderSelector(orderBys: seq<string>, defaultOrderField: string): (b: Built)
    ensures b.err.None?
    ensures |orderBys| == 0 ==> b.fn.Some? && !b.fn.value.FieldSelection? &&
                                OrderEffect(b.fn.value) == [OrderBy(defaultOrderField, true)]
    ensures |orderBys| > 0 ==> b == QueryCommandToOrderConditions(orderBys)
  {
    if |orderBys| == 0 then Built(Some(DefaultOrder(defaultOrderField)), None)
    else QueryCommandToOrderConditions(orderBys)
  }

  /** The field-name normalisation: "id_" and "_id" become "id"; anything else stays. */
  function NormalizeField(field: string): string {
    if field == "id_" || field == "_id" then "id" else field
  }

  /** `BuildFieldSelect`: for a non-empty slice, rewrites every entry in place to the
      snake case of its normalised name and selects exactly the rewritten slice; an
      empty slice changes nothing. */
  method BuildFieldSelect(s: Selector, fields: array<string>, toSnakeCase: string -> string)
    modifies s, fields
    ensures forall i :: 0 <= i < fields.Length ==>
      fields[i] == toSnakeCase(NormalizeField(old(fields[i])))
    ensures fields.Length > 0 ==> s.columns == fields[..]
    ensures fields.Length == 0 ==> s.columns == old(s.columns)
    ensures s.orders == old(s.orders)
  {
    if fields.Length > 0 {
      for i := 0 to fields.Length
        invariant forall k :: 0 <= k < i ==>
          fields[k] == toSnakeCase(NormalizeField(old(fields[k])))
        invariant forall k :: i <= k < fields.Length ==> fields[k] == old(fields[k])
        invariant s.orders == old(s.orders) && s.columns == old(s.columns)
      {
        var field := fields[i];
        if field == "id_" || field == "_id" {
          field := "id";
        }
        fields[i] := toSnakeCase(field);
      }
      s.Select(fields[..]);
    }
  }

  /** `BuildFieldSelector`: nil for an empty slice, otherwise the closure running
      `BuildFieldSelect` on the caller's slice. The error is always nil. */
  function BuildFieldSelector(fields: array<string>, toSnakeCase: string -> string): (b: Built)
    ensures b.err.None?
    ensures b.fn.None? <==> fields.Length == 0
    ensures b.fn.Some? ==> b.fn.value.FieldSelection? && b.fn.value.fields == fields &&
                           OrderEffect(b.fn.value) == []
  {
    if fields.Length > 0 then Built(Some(FieldSelection(fields, toSnakeCase)), None)
    else Built(None, None)
  }

  /** Runs a closure on a selector. */
  method Apply(fn: SelectorFn, s: Selector)
    modifies s, fn.Footprint()
    ensures s.orders == old(s.orders) + OrderEffect(fn)
    ensures !fn.FieldSelection? ==> s.columns == old(s.columns)
    ensures fn.FieldSelection? ==>
      (forall i :: 0 <= i < fn.fields.Length ==>
         fn.fields[i] == fn.toSnakeCase(NormalizeField(old(fn.fields[i])))) &&
      (fn.fields.Length > 0 ==> s.columns == fn.fields[..]) &&
      (fn.fields.Length == 0 ==> s.columns == old(s.columns))
  {
    match fn
    case OrderConditions(orderBys) =>
      ApplyOrderConditions(orderBys, s);
    case DefaultOrder(field) =>
      BuildOrderSelect(s, field, true);
    case FieldSelection(fields, toSnakeCase) =>
      BuildFieldSelect(s, fields, toSnakeCase);
  }
}
