/**
 * `create_interaction` in backend/app.py (lines 150-165): the checks on the
 * body and the record it stores.
 */
module BackendInteractions {
  import opened Wrappers
  import opened Json

  /** The fields the handler checks, in the order it checks them (line 154). */
  const Required: seq<string> := ["contact_id", "type", "summary"]

  /** `fields[i]` is the first of `fields` whose value in `data` is falsy. */
  ghost predicate FirstFalsyAt(data: map<string, Json>, fields: seq<string>, i: int) {
    && 0 <= i < |fields|
    && !Truthy(Get(data, fields[i], JNull))
    && forall j :: 0 <= j < i ==> Truthy(Get(data, fields[j], JNull))
  }

  /** The first field of `fields` that `data` leaves falsy, if any. */
  function FirstMissing(data: map<string, Json>, fields: seq<string>): (r: Option<string>)
    ensures r.None? <==> forall i :: 0 <= i < |fields| ==> Truthy(Get(data, fields[i], JNull))
    ensures r.Some? ==> r.value in fields && !Truthy(Get(data, r.value, JNull))
  {
    if fields == [] then None
    else if !Truthy(Get(data, fields[0], JNull)) then Some(fields[0])
    else FirstMissing(data, fields[1..])
  }

  /** The field reported is the first falsy one: every field before it is truthy. */
  lemma {:induction false} FirstMissingIsFirst(data: map<string, Json>, fields: seq<string>)
    requires FirstMissing(data, fields).Some?
    ensures exists i :: FirstFalsyAt(data, fields, i) && fields[i] == FirstMissing(data, fields).value
  {
    if !Truthy(Get(data, fields[0], JNull)) {
      assert FirstFalsyAt(data, fields, 0);
    } else {
      FirstMissingIsFirst(data, fields[1..]);
      var i :| FirstFalsyAt(data, fields[1..], i) && fields[1..][i] == FirstMissing(data, fields[1..]).value;
      assert FirstFalsyAt(data, fields, i + 1);
    }
  }

  /**
   * The stored interaction (lines 159-165): the three checked fields as
   * given, `next_action` defaulting to the empty string, and a falsy
   * `next_action_date` stored as `None`.
   */
  function NewInteraction(data: map<string, Json>): (r: map<string, Json>)
    requires forall f :: f in Required ==> f in data
    ensures r.Keys == {"contact_id", "type", "summary", "next_action", "next_action_date"}
    ensures forall f :: f in Required ==> r[f] == data[f]
    ensures r["next_action"] == Get(data, "next_action", JStr(""))
    ensures Truthy(r["next_action_date"]) <==> Truthy(Get(data, "next_action_date", JNull))
    ensures Truthy(r["next_action_date"]) ==> r["next_action_date"] == data["next_action_date"]
    ensures !Truthy(r["next_action_date"]) ==> r["next_action_date"] == JNull
  {
    var date := Get(data, "next_action_date", JNull);
    map[
      "contact_id" := data["contact_id"],
      "type" := data["type"],
      "summary" := data["summary"],
      "next_action" := Get(data, "next_action", JStr("")),
      "next_action_date" := if Truthy(date) then date else JNull]
  }

  /**
   * `create_interaction`: a falsy body is refused; a truthy body that is not
   * an object makes `data.get` raise; otherwise the first required field
   * that is falsy is reported, and when there is none the record is stored.
   */
  method CreateInteraction(body: Json) returns (r: Handled<map<string, Json>>)
    ensures !Truthy(body) ==> r == Rejected(400, "No data provided")
    ensures Truthy(body) && !body.JObj? ==> r == Raised
    ensures Truthy(body) && body.JObj? ==>
      match FirstMissing(body.fields, Required)
      case Some(field) => r == Rejected(400, field + " is required")
      case None => r.Accepted? && (forall f :: f in Required ==> f in body.fields)
                   && r.value == NewInteraction(body.fields)
  {
    if !Truthy(body) {
      return Rejected(400, "No data provided");
    }
    if !body.JObj? {
      return Raised;
    }
    var data := body.fields;
    for i := 0 to |Required|
      invariant forall j :: 0 <= j < i ==> Truthy(Get(data, Required[j], JNull))
      invariant FirstMissing(data, Required) == FirstMissing(data, Required[i..])
    {
      var field := Required[i];
      if !Truthy(Get(data, field, JNull)) {
        return Rejected(400, field + " is required");
      }
      assert Required[i..][1..] == Required[i + 1..];
    }
    forall f | f in Required
      ensures f in data
    {
      var j :| 0 <= j < |Required| && Required[j] == f;
      assert Truthy(Get(data, Required[j], JNull));
    }
    return Accepted(NewInteraction(data));
  }

  /** Order matters: a body missing both `type` and `summary` is told about `type`. */
  lemma TypeReportedBeforeSummary(data: map<string, Json>)
    requires Truthy(Get(data, "contact_id", JNull))
    requires !Truthy(Get(data, "type", JNull)) && !Truthy(Get(data, "summary", JNull))
    ensures FirstMissing(data, Required) == Some("type")
  {
    assert Required[1..] == ["type", "summary"];
  }

  /** A stored record, sent back as a body, is stored unchanged. */
  lemma NewInteractionRoundTrip(data: map<string, Json>)
    requires forall f :: f in Required ==> f in data
    ensures var r := NewInteraction(data);
      (forall f :: f in Required ==> f in r) && NewInteraction(r) == r
  {
  }
}
