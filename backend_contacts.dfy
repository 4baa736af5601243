/**
 * The contact handlers of backend/app.py: what `create_contact` stores, what
 * `update_contact` passes to the database, and the fields `get_contacts`
 * adds to every contact. The database calls themselves are not modelled:
 * what they return is a parameter.
 */
module BackendContacts {
  import opened Wrappers
  import opened Json

  /** The fields a client may set on a contact (lines 100-106 and 121). */
  const ContactFields: set<string> := {"name", "email", "phone", "company", "status"}

  /** The value `create_contact` stores for a field the body leaves out (lines 102-105). */
  function FieldDefault(field: string): Json {
    if field == "status" then JStr("ליד") else JStr("")
  }

  // ---------------------------------------------------------------------------
  // create_contact (lines 96-106)

  /**
   * A body that is falsy or whose `name` is falsy is refused with 400; a
   * truthy body that is not an object makes `data.get` raise. Otherwise the
   * record holds exactly the contact fields, each taken from the body or,
   * when the body leaves it out, from its default.
   */
  function CreateContact(body: Json): (r: Handled<map<string, Json>>)
    ensures !Truthy(body) ==> r == Rejected(400, "name is required")
    ensures Truthy(body) && !body.JObj? ==> r == Raised
    ensures body.JObj? ==> (r.Rejected? <==> !Truthy(Get(body.fields, "name", JNull)))
    ensures r.Rejected? ==> r == Rejected(400, "name is required")
    ensures r.Accepted? ==> body.JObj? && r.value.Keys == ContactFields
    ensures r.Accepted? ==> forall k :: k in ContactFields ==> r.value[k] == Get(body.fields, k, FieldDefault(k))
  {
    if !Truthy(body) then Rejected(400, "name is required")
    else match body
      case JObj(data) =>
        if !Truthy(Get(data, "name", JNull)) then Rejected(400, "name is required")
        else Accepted(map[
          "name" := data["name"],
          "email" := Get(data, "email", JStr("")),
          "phone" := Get(data, "phone", JStr("")),
          "company" := Get(data, "company", JStr("")),
          "status" := Get(data, "status", JStr("ליד"))])
      case _ => Raised
  }

  /** A stored record, sent back as a body, is accepted and stored unchanged. */
  lemma CreateContactRoundTrip(body: Json)
    requires CreateContact(body).Accepted?
    ensures CreateContact(JObj(CreateContact(body).value)) == CreateContact(body)
  {
    var rec := CreateContact(body).value;
    assert rec["name"] == body.fields["name"];
    var again := CreateContact(JObj(rec)).value;
    assert again.Keys == rec.Keys;
    forall k | k in rec
      ensures again[k] == rec[k]
    {
      assert Get(rec, k, FieldDefault(k)) == rec[k];
    }
  }

  /** Keys other than the contact fields never reach the database. */
  lemma CreateContactIgnoresOtherKeys(data: map<string, Json>, extra: map<string, Json>)
    requires extra.Keys !! ContactFields
    ensures CreateContact(JObj(data + extra)) == CreateContact(JObj(data))
  {
    var d := data + extra;
    forall k | k in ContactFields
      ensures Get(d, k, FieldDefault(k)) == Get(data, k, FieldDefault(k))
    {
      assert k !in extra;
    }
    assert Get(d, "name", JNull) == Get(data, "name", JNull) by {
      assert "name" in ContactFields;
      assert "name" !in extra;
    }
  }

  // ---------------------------------------------------------------------------
  // update_contact (lines 117-131)

  /** The dict comprehension of line 122: the body restricted to the contact fields. */
  function Whitelisted(data: map<string, Json>): (u: map<string, Json>)
    ensures u.Keys == data.Keys * ContactFields
    ensures forall k :: k in u ==> u[k] == data[k]
  {
    map k | k in data && k in ContactFields :: data[k]
  }

  /**
   * The update `update_contact` sends: 400 for a falsy body, an exception
   * for a truthy body that is not an object (`data.items` raises), and
   * otherwise the whitelisted body (lines 117-122).
   */
  function UpdateRequest(body: Json): (r: Handled<map<string, Json>>)
    ensures !Truthy(body) ==> r == Rejected(400, "No data provided")
    ensures Truthy(body) && !body.JObj? ==> r == Raised
    ensures body.JObj? && Truthy(body) ==> r == Accepted(Whitelisted(body.fields))
  {
    if !Truthy(body) then Rejected(400, "No data provided")
    else match body
      case JObj(data) => Accepted(Whitelisted(data))
      case _ => Raised
  }

  /** The answer to an update, given the rows the database reports updated: 404 when there is none (lines 128-131). */
  function UpdateResponse(rows: seq<Json>): (r: Handled<Json>)
    ensures r.Rejected? <==> rows == []
    ensures r.Rejected? ==> r == Rejected(404, "Contact not found")
    ensures r.Accepted? ==> r.value == rows[0]
  {
    if rows == [] then Rejected(404, "Contact not found") else Accepted(rows[0])
  }

  /** Whitelisting twice is whitelisting once. */
  lemma WhitelistedIdempotent(data: map<string, Json>)
    ensures Whitelisted(Whitelisted(data)) == Whitelisted(data)
  {
  }

  /**
   * Applying an update to a stored contact changes the contact fields the
   * body names, to the body's values, and nothing else.
   */
  lemma UpdateChangesOnlyContactFields(stored: map<string, Json>, data: map<string, Json>)
    ensures var after := stored + Whitelisted(data);
      && after.Keys == stored.Keys + (data.Keys * ContactFields)
      && (forall k :: k in stored && (k !in ContactFields || k !in data) ==> after[k] == stored[k])
      && (forall k :: k in data && k in ContactFields ==> after[k] == data[k])
  {
  }

  // ---------------------------------------------------------------------------
  // get_contacts enrichment (lines 40-61)

  /** The latest interaction of a contact, with the columns the query selects (line 43). */
  datatype Interaction = Interaction(
    nextAction: Json,
    nextActionDate: Json,
    summary: Json,
    kind: Json,
    createdAt: Json)

  const EnrichmentFields: set<string> := {
    "latest_interaction_summary", "latest_interaction_type", "latest_interaction_date",
    "next_action", "next_action_date"}

  /**
   * A contact after enrichment: it carries all five enrichment fields, copied
   * from its latest interaction or all `None` when it has none, and keeps
   * every other field.
   */
  function Enriched(contact: map<string, Json>, latest: Option<Interaction>): (r: map<string, Json>)
    ensures r.Keys == contact.Keys + EnrichmentFields
    ensures forall k :: k in contact && k !in EnrichmentFields ==> r[k] == contact[k]
    ensures latest.None? ==> forall k :: k in EnrichmentFields ==> r[k] == JNull
    ensures latest.Some? ==>
      && r["latest_interaction_summary"] == latest.value.summary
      && r["latest_interaction_type"] == latest.value.kind
      && r["latest_interaction_date"] == latest.value.createdAt
      && r["next_action"] == latest.value.nextAction
      && r["next_action_date"] == latest.value.nextActionDate
  {
    match latest
    case Some(i) =>
      contact + map[
        "latest_interaction_summary" := i.summary,
        "latest_interaction_type" := i.kind,
        "latest_interaction_date" := i.createdAt,
        "next_action" := i.nextAction,
        "next_action_date" := i.nextActionDate]
    case None =>
      contact + map[
        "latest_interaction_summary" := JNull,
        "latest_interaction_type" := JNull,
        "latest_interaction_date" := JNull,
        "next_action" := JNull,
        "next_action_date" := JNull]
  }

  /** Enrichment is idempotent: the fields it sets are overwritten with the same values. */
  lemma EnrichedIdempotent(contact: map<string, Json>, latest: Option<Interaction>)
    ensures Enriched(Enriched(contact, latest), latest) == Enriched(contact, latest)
  {
  }

  /**
   * The loop of lines 40-61, which updates every contact of the result in
   * place; `latest[i]` is what the per-contact query of lines 41-48 returned
   * for `contacts[i]`.
   */
  method Enrich(contacts: array<map<string, Json>>, latest: seq<Option<Interaction>>)
    requires |latest| == contacts.Length
    modifies contacts
    ensures forall i :: 0 <= i < contacts.Length ==> contacts[i] == Enriched(old(contacts[i]), latest[i])
  {
    for i := 0 to contacts.Length
      invariant forall j :: 0 <= j < i ==> contacts[j] == Enriched(old(contacts[j]), latest[j])
      invariant forall j :: i <= j < contacts.Length ==> contacts[j] == old(contacts[j])
    {
      contacts[i] := Enriched(contacts[i], latest[i]);
    }
  }
}
