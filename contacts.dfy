/**
 * The contact record as the client sees it, and the two lookup tables of
 * frontend/app.js that map a contact's status to a badge class and an
 * interaction type to an icon.
 */
module Contacts {
  import opened Wrappers

  /** The three statuses of a contact. */
  const ActiveClient := "לקוח פעיל"
  const Lead := "ליד"
  const Inactive := "לא פעיל"
  const KnownStatuses: set<string> := {ActiveClient, Lead, Inactive}

  /** The four interaction types. */
  const Call := "שיחה"
  const Mail := "מייל"
  const Meeting := "פגישה"
  const Note := "הערה"
  const KnownTypes: set<string> := {Call, Mail, Meeting, Note}

  /**
   * A contact as delivered by the server. An absent name or company is the
   * empty string (the client reads each of them as `x || ''`), and a
   * next-action date is a day number, absent when the server sent `null`
   * or an empty string (both falsy).
   */
  datatype Contact = Contact(
    id: string,
    name: string,
    company: string,
    status: string,
    nextActionDate: Option<int>)

  /**
   * `getStatusBadgeClass`: one class per known status, the empty class for
   * anything else.
   */
  function StatusBadgeClass(status: string): (r: string)
    ensures r != "" <==> status in KnownStatuses
    ensures status == ActiveClient ==> r == "status-active"
    ensures status == Lead ==> r == "status-lead"
    ensures status == Inactive ==> r == "status-inactive"
  {
    if status == ActiveClient then "status-active"
    else if status == Lead then "status-lead"
    else if status == Inactive then "status-inactive"
    else ""
  }

  /** Distinct known statuses get distinct badge classes. */
  lemma BadgeClassInjective(a: string, b: string)
    requires a in KnownStatuses && b in KnownStatuses && a != b
    ensures StatusBadgeClass(a) != StatusBadgeClass(b)
  {
  }

  const DefaultIcon := "\U{1F4CB}"

  /**
   * `getTypeIcon`: one icon per known interaction type and a clipboard for
   * anything else, so every type has an icon.
   */
  function TypeIcon(interactionType: string): (r: string)
    ensures |r| == 1
    ensures r == DefaultIcon <==> interactionType !in KnownTypes
    ensures interactionType == Call ==> r == "\U{1F4DE}"
    ensures interactionType == Mail ==> r == "\U{1F4E7}"
    ensures interactionType == Meeting ==> r == "\U{1F91D}"
    ensures interactionType == Note ==> r == "\U{1F4DD}"
  {
    if interactionType == Call then "\U{1F4DE}"
    else if interactionType == Mail then "\U{1F4E7}"
    else if interactionType == Meeting then "\U{1F91D}"
    else if interactionType == Note then "\U{1F4DD}"
    else DefaultIcon
  }

  /** Distinct known types get distinct icons. */
  lemma TypeIconInjective(a: string, b: string)
    requires a in KnownTypes && b in KnownTypes && a != b
    ensures TypeIcon(a) != TypeIcon(b)
  {
  }
}
