/**
 * The deterministic parts of `chat` in backend/app.py: the check on the
 * request body (lines 271-273) and the query built from the model's query
 * plan (lines 311-346). The plan itself comes from a language model and is a
 * parameter, and so are the query's results and the summary.
 */
module BackendChat {
  import opened Wrappers
  import opened Json

  /** A falsy body or a falsy `message` is refused with 400; a truthy body that is not an object raises. */
  function ChatRequest(body: Json): (r: Handled<Json>)
    ensures !Truthy(body) ==> r == Rejected(400, "message is required")
    ensures Truthy(body) && !body.JObj? ==> r == Raised
    ensures body.JObj? ==> (r.Rejected? <==> !Truthy(Get(body.fields, "message", JNull)))
    ensures r.Rejected? ==> r == Rejected(400, "message is required")
    ensures r.Accepted? ==> body.JObj? && Truthy(r.value) && r.value == body.fields["message"]
  {
    if !Truthy(body) then Rejected(400, "message is required")
    else match body
      case JObj(data) =>
        if !Truthy(Get(data, "message", JNull)) then Rejected(400, "message is required")
        else Accepted(data["message"])
      case _ => Raised
  }

  // ---------------------------------------------------------------------------
  // Query operations

  /** The seven comparisons a filter may ask for. */
  datatype FilterKind = Eq | Neq | Ilike | Lt | Gt | Lte | Gte

  /** A step of the query the handler builds on the database client. */
  datatype QueryOp =
    | Table(name: Json)
    | Select(columns: Json)
    | Filter(kind: FilterKind, column: Json, value: Json)
    | Order(column: Json, desc: Json)
    | Limit(count: Json)

  /** The name of the client method for each comparison (lines 324-337). */
  function OpName(k: FilterKind): string {
    match k
    case Eq => "eq"
    case Neq => "neq"
    case Ilike => "ilike"
    case Lt => "lt"
    case Gt => "gt"
    case Lte => "lte"
    case Gte => "gte"
  }

  /** The `if`/`elif` chain of lines 324-337: which comparison an `op` value selects, if any. */
  function OpKind(op: Json): Option<FilterKind> {
    if op == JStr("eq") then Some(Eq)
    else if op == JStr("neq") then Some(Neq)
    else if op == JStr("ilike") then Some(Ilike)
    else if op == JStr("lt") then Some(Lt)
    else if op == JStr("gt") then Some(Gt)
    else if op == JStr("lte") then Some(Lte)
    else if op == JStr("gte") then Some(Gte)
    else None
  }

  /** The seven ops select the seven comparisons one to one, and nothing else selects any. */
  lemma OpKindOneToOne(op: Json, k: FilterKind)
    ensures OpKind(op) == Some(k) <==> op == JStr(OpName(k))
  {
  }

  /** What one filter adds to the query; `None` when it is not an object and `f.get` raises (lines 320-337). */
  function FilterStep(f: Json): Option<seq<QueryOp>> {
    match f
    case JObj(m) =>
      var col := Get(m, "column", JStr(""));
      var op := Get(m, "op", JStr("eq"));
      var val := Get(m, "value", JStr(""));
      if OpKind(op).Some? then Some([Filter(OpKind(op).value, col, val)]) else Some([])
    case _ => None
  }

  /** The operations the filters add, in order; `None` when one of them raises. */
  function FilterOps(filters: seq<Json>): Option<seq<QueryOp>>
    decreases |filters|
  {
    if filters == [] then Some([])
    else
      match FilterOps(filters[..|filters| - 1])
      case None => None
      case Some(ops) =>
        match FilterStep(filters[|filters| - 1])
        case None => None
        case Some(more) => Some(ops + more)
  }

  /**
   * What `for f in filters` goes through, or `None` when it raises before
   * building anything: a list gives its items; a dict or a string gives
   * strings (its keys, its characters), on which `f.get` raises, so only an
   * empty one gets through; any other value cannot be iterated.
   */
  function Iterated(filters: Json): (r: Option<seq<Json>>)
    ensures filters.JArr? ==> r == Some(filters.items)
    ensures !filters.JArr? ==> (r.Some? <==> (filters.JObj? || filters.JStr?) && !Truthy(filters))
    ensures r.Some? && !filters.JArr? ==> r.value == []
  {
    match filters
    case JArr(items) => Some(items)
    case JObj(m) => if m == map[] then Some([]) else None
    case JStr(s) => if s == "" then Some([]) else None
    case _ => None
  }

  /**
   * The query of lines 311-346, or `None` when building it raises: a plan
   * that is not an object, filters that cannot be iterated or that hold a
   * non-object, or a truthy `order` that is not an object.
   */
  function ChatQuery(plan: Json): Option<seq<QueryOp>> {
    match plan
    case JObj(p) =>
      var table := Get(p, "table", JStr("contacts"));
      var select := Get(p, "select", JStr("*"));
      var order := Get(p, "order", JNull);
      var limit := Get(p, "limit", JNull);
      var filters := Iterated(Get(p, "filters", JArr([])));
      if filters.None? || FilterOps(filters.value).None? || OrderOps(order).None? then None
      else Some([Table(table), Select(select)] + FilterOps(filters.value).value + OrderOps(order).value + LimitOps(limit))
    case _ => None
  }

  /** Lines 339-343: an order step only for a truthy `order`, on `created_at` and descending by default. */
  function OrderOps(order: Json): Option<seq<QueryOp>> {
    if !Truthy(order) then Some([])
    else match order
      case JObj(o) => Some([Order(Get(o, "column", JStr("created_at")), Get(o, "desc", JBool(true)))])
      case _ => None
  }

  /** Lines 345-346: a limit step only for a truthy `limit`. */
  function LimitOps(limit: Json): seq<QueryOp> {
    if Truthy(limit) then [Limit(limit)] else []
  }

  /** Whether a filter holds an op that selects a comparison; `eq` when it has none. */
  predicate SelectsOp(f: Json) {
    f.JObj? && OpKind(Get(f.fields, "op", JStr("eq"))).Some?
  }

  /** One more filter that does not raise adds its comparison, if any. */
  lemma FilterOpsSnoc(filters: seq<Json>, i: nat)
    requires i < |filters| && FilterOps(filters[..i]).Some? && FilterStep(filters[i]).Some?
    ensures FilterOps(filters[..i + 1]) == Some(FilterOps(filters[..i]).value + FilterStep(filters[i]).value)
  {
    assert filters[..i + 1][..i] == filters[..i];
  }

  /** Once a prefix of the filters raises, the whole loop raises. */
  lemma {:induction false} FilterOpsRaises(filters: seq<Json>, i: nat)
    requires i <= |filters| && FilterOps(filters[..i]).None?
    ensures FilterOps(filters).None?
    decreases |filters| - i
  {
    if i == |filters| {
      assert filters[..i] == filters;
    } else {
      assert filters[..i + 1][..i] == filters[..i];
      FilterOpsRaises(filters, i + 1);
    }
  }

  /**
   * The loop of lines 319-337 adds exactly one comparison for each filter
   * whose op is known and none for the others, each carrying that filter's
   * column and value; a filter with no op compares for equality.
   */
  lemma {:induction false} FilterOpsSpec(filters: seq<Json>)
    requires FilterOps(filters).Some?
    ensures var ops := FilterOps(filters).value;
      && |ops| == |Filtered(filters)|
      && forall i :: 0 <= i < |ops| ==>
           var f := Filtered(filters)[i].fields;
           ops[i] == Filter(OpKind(Get(f, "op", JStr("eq"))).value, Get(f, "column", JStr("")), Get(f, "value", JStr("")))
    decreases |filters|
  {
    if filters != [] {
      var init := filters[..|filters| - 1];
      var last := filters[|filters| - 1];
      assert filters == init + [last];
      FilteredSnoc(init, last);
      FilterOpsSpec(init);
      var ops := FilterOps(filters).value;
      var head := FilterOps(init).value;
      assert ops == head + FilterStep(last).value;
      if SelectsOp(last) {
        var f := last.fields;
        assert FilterStep(last).value
          == [Filter(OpKind(Get(f, "op", JStr("eq"))).value, Get(f, "column", JStr("")), Get(f, "value", JStr("")))];
        assert Filtered(filters)[|head|] == last;
      } else {
        assert FilterStep(last).value == [];
        assert ops == head;
      }
    }
  }

  /** The filters that select a comparison, in order. */
  function Filtered(filters: seq<Json>): (r: seq<Json>)
    ensures forall i :: 0 <= i < |r| ==> SelectsOp(r[i])
    decreases |filters|
  {
    if filters == [] then []
    else Filtered(filters[..|filters| - 1]) + (if SelectsOp(filters[|filters| - 1]) then [filters[|filters| - 1]] else [])
  }

  lemma FilteredSnoc(init: seq<Json>, last: Json)
    ensures Filtered(init + [last]) == Filtered(init) + (if SelectsOp(last) then [last] else [])
  {
    assert (init + [last])[..|init|] == init;
  }

  /**
   * Lines 311-346: the query starts with the table and the selection
   * (`contacts` and `*` by default), then holds the filters' comparisons;
   * it is ordered only for a truthy `order`, by `created_at` descending
   * unless the plan says otherwise; and it is limited, last, only for a
   * truthy `limit`.
   */
  lemma ChatQueryShape(plan: Json)
    requires ChatQuery(plan).Some?
    ensures plan.JObj?
    ensures var p := plan.fields;
      var ops := ChatQuery(plan).value;
      var order := Get(p, "order", JNull);
      var limit := Get(p, "limit", JNull);
      && |ops| >= 2
      && ops[0] == Table(Get(p, "table", JStr("contacts")))
      && ops[1] == Select(Get(p, "select", JStr("*")))
      && ((exists i :: 0 <= i < |ops| && ops[i].Limit?) <==> Truthy(limit))
      && (Truthy(limit) ==> ops[|ops| - 1] == Limit(limit))
      && ((exists i :: 0 <= i < |ops| && ops[i].Order?) <==> Truthy(order))
      && (Truthy(order) ==>
            && order.JObj?
            && Order(Get(order.fields, "column", JStr("created_at")), Get(order.fields, "desc", JBool(true))) in ops)
  {
    var p := plan.fields;
    var filters := Iterated(Get(p, "filters", JArr([]))).value;
    var fops := FilterOps(filters).value;
    var order := Get(p, "order", JNull);
    var limit := Get(p, "limit", JNull);
    var oops := OrderOps(order).value;
    var lops := LimitOps(limit);
    var head := [Table(Get(p, "table", JStr("contacts"))), Select(Get(p, "select", JStr("*")))];
    var ops := ChatQuery(plan).value;
    assert ops == head + fops + oops + lops;
    FilterOpsSpec(filters);
    assert forall i :: 0 <= i < |fops| ==> fops[i].Filter?;
    forall i | 0 <= i < |ops| && ops[i].Limit?
      ensures Truthy(limit)
    {
      assert i >= |head| + |fops| + |oops|;
    }
    if Truthy(limit) {
      assert ops[|ops| - 1] == Limit(limit);
    }
    forall i | 0 <= i < |ops| && ops[i].Order?
      ensures Truthy(order)
    {
      if i < |head| + |fops| {
        assert false;
      }
      assert i < |head| + |fops| + |oops|;
    }
    if Truthy(order) {
      assert ops[|head| + |fops|] == oops[0];
    }
  }

  /** One turn of the loop of lines 319-337 on a filter that is an object. */
  method AddFilter(query: seq<QueryOp>, f: Json) returns (r: seq<QueryOp>)
    requires f.JObj?
    ensures FilterStep(f).Some? && r == query + FilterStep(f).value
  {
    var col := Get(f.fields, "column", JStr(""));
    var op := Get(f.fields, "op", JStr("eq"));
    var val := Get(f.fields, "value", JStr(""));
    r := query;
    if op == JStr("eq") {
      r := query + [Filter(Eq, col, val)];
    } else if op == JStr("neq") {
      r := query + [Filter(Neq, col, val)];
    } else if op == JStr("ilike") {
      r := query + [Filter(Ilike, col, val)];
    } else if op == JStr("lt") {
      r := query + [Filter(Lt, col, val)];
    } else if op == JStr("gt") {
      r := query + [Filter(Gt, col, val)];
    } else if op == JStr("lte") {
      r := query + [Filter(Lte, col, val)];
    } else if op == JStr("gte") {
      r := query + [Filter(Gte, col, val)];
    } else {
      assert r == query + [];
    }
  }

  /**
   * The loop itself: it starts from the table and the selection, adds each
   * filter's comparison in turn, and then the order and the limit.
   */
  method BuildChatQuery(plan: Json) returns (r: Option<seq<QueryOp>>)
    ensures r == ChatQuery(plan)
  {
    if !plan.JObj? {
      return None;
    }
    var p := plan.fields;
    var table := Get(p, "table", JStr("contacts"));
    var select := Get(p, "select", JStr("*"));
    var filtersValue := Get(p, "filters", JArr([]));
    var order := Get(p, "order", JNull);
    var limit := Get(p, "limit", JNull);
    var query := [Table(table), Select(select)];
    var iterated := Iterated(filtersValue);
    if iterated.None? {
      return None;
    }
    var filters := iterated.value;
    for i := 0 to |filters|
      invariant FilterOps(filters[..i]).Some?
      invariant query == [Table(table), Select(select)] + FilterOps(filters[..i]).value
    {
      var f := filters[i];
      if !f.JObj? {
        assert filters[..i + 1][..i] == filters[..i];
        assert filters[..i + 1][i] == f && FilterStep(f).None?;
        FilterOpsRaises(filters, i + 1);
        return None;
      }
      query := AddFilter(query, f);
      FilterOpsSnoc(filters, i);
    }
    assert filters[..|filters|] == filters;
    if Truthy(order) {
      if !order.JObj? {
        return None;
      }
      query := query + [Order(Get(order.fields, "column", JStr("created_at")), Get(order.fields, "desc", JBool(true)))];
    }
    assert query == [Table(table), Select(select)] + FilterOps(filters).value + OrderOps(order).value;
    if Truthy(limit) {
      query := query + [Limit(limit)];
    }
    assert query == [Table(table), Select(select)] + FilterOps(filters).value + OrderOps(order).value + LimitOps(limit);
    return Some(query);
  }
}
