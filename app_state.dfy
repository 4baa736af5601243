/**
 * The client state of frontend/app.js and the handlers that change it.
 *
 * The module-level variables of lines 5-9 become the fields of one `App`
 * object, and every function or event handler that assigns them becomes a
 * method. The parts of the page that the model keeps are fields too: the
 * table rows, the empty and loading indicators, the add button (the FAB),
 * the open modal, the contact whose details fill the detail panel and the
 * dashboard counters. Requests to the server are appended to `requests`
 * and notifications to `toasts`.
 *
 * Loads are split into the request (issued by `ShowDashboard`,
 * `ShowContactDetail`, ...) and its arrival (`ContactsArrived`,
 * `DetailArrived`, ...), since several may be outstanding at once.
 * Mutations (status update, deletions, form submissions) run as one step
 * whose server outcome is a parameter.
 */
module AppState {
  import opened Wrappers
  import opened Strings
  import opened Contacts
  import opened ListPipeline

  datatype View = Dashboard | ContactView

  datatype Modal = AddContactModal | AddInteractionModal

  datatype Request =
    | FetchDashboard
    | FetchContacts
    | FetchContactDetail(contactId: string)
    | PutStatus(contactId: string, status: string)
    | DeleteContactRequest(contactId: string)
    | DeleteInteractionRequest(interactionId: string)
    | PostContact
    | PostInteraction

  datatype Toast = Toast(message: string, kind: string)

  /** JavaScript's template rendering of a contact id held in a variable that may be `null`. */
  function IdText(id: Option<string>): string {
    match id
    case Some(s) => s
    case None => "null"
  }

  /**
   * The value an input element holds once `id` is assigned to it: `null`
   * becomes the empty string, unlike in a template literal.
   */
  function FormValue(id: Option<string>): string {
    match id
    case Some(s) => s
    case None => ""
  }

  /** `x || 0` for a counter the server may leave out. */
  function CountOrZero(m: map<string, int>, key: string): int {
    if key in m then m[key] else 0
  }

  class App {
    // Lines 5-9.
    var currentView: View
    var currentContactId: Option<string>
    var allContacts: seq<Contact>
    var currentFilter: string
    var currentSearch: string

    // What the page shows.
    var rows: seq<Contact>
    var tableEmptyShown: bool
    var tableLoadingShown: bool
    var fabShown: bool
    var openModals: set<Modal>
    var detailShownFor: Option<string>
    var statusSelectValue: string
    var interactionFormContactId: string
    var statActive: int
    var statLeads: int
    var statFollowUp: int

    // What the page has asked of the server and told the user.
    var requests: seq<Request>
    var toasts: seq<Toast>

    /**
     * The view and the active contact agree: the dashboard has no contact,
     * the detail view has one. In the detail view the add button is hidden:
     * only the back button shows it again, and it leaves for the dashboard.
     */
    ghost predicate Valid()
      reads this`currentView, this`currentContactId, this`fabShown
    {
      && (currentView == Dashboard) == currentContactId.None?
      && (currentView == ContactView ==> !fabShown)
    }

    /** The state right after the script is loaded (lines 5-9), before `DOMContentLoaded`. */
    constructor ()
      ensures Valid()
      ensures currentView == Dashboard && currentContactId == None
      ensures allContacts == [] && currentFilter == "" && currentSearch == ""
      ensures rows == [] && !tableEmptyShown && !tableLoadingShown && fabShown
      ensures openModals == {} && detailShownFor == None
      ensures requests == [] && toasts == []
    {
      currentView := Dashboard;
      currentContactId := None;
      allContacts := [];
      currentFilter := "";
      currentSearch := "";
      rows := [];
      tableEmptyShown := false;
      tableLoadingShown := false;
      fabShown := true;
      openModals := {};
      detailShownFor := None;
      statusSelectValue := "";
      interactionFormContactId := "";
      statActive, statLeads, statFollowUp := 0, 0, 0;
      requests := [];
      toasts := [];
    }

    // -------------------------------------------------------------------------
    // Navigation (lines 116-133)

    /** `showDashboard`: the dashboard with no contact, reloading the counters and the table. */
    method ShowDashboard()
      modifies this`currentView, this`currentContactId, this`requests,
        this`tableLoadingShown, this`tableEmptyShown, this`rows
      ensures Valid()
      ensures currentView == Dashboard && currentContactId == None
      ensures requests == old(requests) + [FetchDashboard, FetchContacts]
      ensures tableLoadingShown && !tableEmptyShown && rows == []
    {
      currentView := Dashboard;
      currentContactId := None;
      LoadDashboard();
      LoadContacts();
    }

    /** `showContactDetail(id)`: the detail view of `id`, the add button hidden, its details requested. */
    method ShowContactDetail(id: string)
      modifies this`currentView, this`currentContactId, this`fabShown, this`requests
      ensures Valid()
      ensures currentView == ContactView && currentContactId == Some(id)
      ensures !fabShown
      ensures requests == old(requests) + [FetchContactDetail(id)]
    {
      currentView := ContactView;
      currentContactId := Some(id);
      fabShown := false;
      LoadContactDetail(id);
    }

    // -------------------------------------------------------------------------
    // Loads

    /** `loadDashboard`, the request half. */
    method LoadDashboard()
      modifies this`requests
      ensures requests == old(requests) + [FetchDashboard]
    {
      requests := requests + [FetchDashboard];
    }

    /** `loadDashboard`, the arrival of the counters (lines 140-142). */
    method DashboardArrived(byStatus: map<string, int>, followUpCount: Option<int>)
      modifies this`statActive, this`statLeads, this`statFollowUp
      ensures statActive == CountOrZero(byStatus, ActiveClient)
      ensures statLeads == CountOrZero(byStatus, Lead)
      ensures statFollowUp == followUpCount.GetOr(0)
    {
      statActive := CountOrZero(byStatus, ActiveClient);
      statLeads := CountOrZero(byStatus, Lead);
      statFollowUp := followUpCount.GetOr(0);
    }

    /** `loadDashboard`, a failed request (line 144). */
    method DashboardFailed()
      modifies this`toasts
      ensures toasts == old(toasts) + [Toast("שגיאה בטעינת לוח הבקרה", "error")]
    {
      toasts := toasts + [Toast("שגיאה בטעינת לוח הבקרה", "error")];
    }

    /** `loadContacts`, the request half: loading shown, empty state hidden, table cleared (lines 152-156). */
    method LoadContacts()
      modifies this`tableLoadingShown, this`tableEmptyShown, this`rows, this`requests
      ensures tableLoadingShown && !tableEmptyShown && rows == []
      ensures requests == old(requests) + [FetchContacts]
    {
      tableLoadingShown := true;
      tableEmptyShown := false;
      rows := [];
      requests := requests + [FetchContacts];
    }

    /** `loadContacts`, the arrival of the roster: it replaces `allContacts` and is rendered (lines 157-158, 162). */
    method ContactsArrived(contacts: seq<Contact>)
      modifies this`allContacts, this`rows, this`tableEmptyShown, this`tableLoadingShown
      ensures rows == Render(contacts, currentFilter, currentSearch)
      ensures tableEmptyShown == (rows == []) && !tableLoadingShown
      ensures allContacts == if currentFilter == "" && currentSearch == "" then rows else contacts
    {
      allContacts := contacts;
      RenderContacts();
      tableLoadingShown := false;
    }

    /** `loadContacts`, a failed request: the old roster stays and loading ends (lines 160, 162). */
    method ContactsFailed()
      modifies this`toasts, this`tableLoadingShown
      ensures toasts == old(toasts) + [Toast("שגיאה בטעינת אנשי קשר", "error")]
      ensures !tableLoadingShown
    {
      toasts := toasts + [Toast("שגיאה בטעינת אנשי קשר", "error")];
      tableLoadingShown := false;
    }

    /** `loadContactDetail(id)`, the request half. */
    method LoadContactDetail(id: string)
      modifies this`requests
      ensures requests == old(requests) + [FetchContactDetail(id)]
    {
      requests := requests + [FetchContactDetail(id)];
    }

    /**
     * `loadContactDetail(id)`, the arrival of the details of `id`. They fill the
     * panel, and `id` becomes the contact of the add-interaction form,
     * whatever the active contact is now: there is no check that the
     * response is still wanted (lines 231-264).
     */
    method DetailArrived(id: string, status: string)
      modifies this`detailShownFor, this`statusSelectValue, this`interactionFormContactId
      ensures detailShownFor == Some(id) && statusSelectValue == status
      ensures interactionFormContactId == id
    {
      detailShownFor := Some(id);
      statusSelectValue := status;
      interactionFormContactId := id;
    }

    /** `loadContactDetail`, a failed request (line 266). */
    method DetailFailed()
      modifies this`toasts
      ensures toasts == old(toasts) + [Toast("שגיאה בטעינת פרטי איש קשר", "error")]
    {
      toasts := toasts + [Toast("שגיאה בטעינת פרטי איש קשר", "error")];
    }

    // -------------------------------------------------------------------------
    // renderContacts (lines 166-213)

    /**
     * The table shows the rendered roster, and the empty state exactly when
     * it has no row. With neither filter nor search, `filtered` is
     * `allContacts` itself, so the sort reorders the roster in place.
     */
    method RenderContacts()
      modifies this`rows, this`tableEmptyShown, this`allContacts
      ensures rows == Render(old(allContacts), currentFilter, currentSearch)
      ensures tableEmptyShown == (rows == [])
      ensures allContacts == if currentFilter == "" && currentSearch == "" then rows else old(allContacts)
    {
      var filtered := allContacts;
      var aliased := true;
      var status, q := currentFilter, currentSearch;
      if status != "" {
        filtered := Filter(filtered, (c: Contact) => c.status == status);
        aliased := false;
      }
      assert filtered == ByStatus(allContacts, status);
      ghost var byStatus := filtered;
      if q != "" {
        filtered := Filter(filtered, (c: Contact) => MatchesSearch(c, q));
        aliased := false;
      }
      assert filtered == BySearch(byStatus, q);
      filtered := SortByDate(filtered);
      if aliased {
        allContacts := filtered;
      }
      if |filtered| == 0 {
        rows := [];
        tableEmptyShown := true;
        return;
      }
      tableEmptyShown := false;
      rows := filtered;
    }

    // -------------------------------------------------------------------------
    // Actions (lines 307-336)

    /** `updateContactStatus`: one PUT of the new status, then a success or error notice. */
    method UpdateContactStatus(contactId: string, newStatus: string, succeeded: bool)
      modifies this`requests, this`toasts
      ensures requests == old(requests) + [PutStatus(contactId, newStatus)]
      ensures toasts == old(toasts) + [if succeeded then Toast("הסטטוס עודכן בהצלחה", "success")
                                        else Toast("שגיאה בעדכון סטטוס", "error")]
    {
      requests := requests + [PutStatus(contactId, newStatus)];
      if succeeded {
        toasts := toasts + [Toast("הסטטוס עודכן בהצלחה", "success")];
      } else {
        toasts := toasts + [Toast("שגיאה בעדכון סטטוס", "error")];
      }
    }

    /**
     * `deleteContact`: a declined confirmation changes nothing and sends
     * nothing; a confirmed one sends one DELETE, and then on success shows
     * the dashboard (reloading it once), on failure only notifies.
     */
    method DeleteContact(contactId: string, confirmed: bool, succeeded: bool)
      requires Valid()
      modifies this`currentView, this`currentContactId, this`requests, this`toasts,
        this`tableLoadingShown, this`tableEmptyShown, this`rows
      ensures Valid()
      ensures !confirmed ==>
        && requests == old(requests) && toasts == old(toasts)
        && currentView == old(currentView) && currentContactId == old(currentContactId)
        && rows == old(rows) && tableLoadingShown == old(tableLoadingShown) && tableEmptyShown == old(tableEmptyShown)
      ensures confirmed && succeeded ==>
        && requests == old(requests) + [DeleteContactRequest(contactId), FetchDashboard, FetchContacts]
        && toasts == old(toasts) + [Toast("איש הקשר נמחק", "success")]
        && currentView == Dashboard && currentContactId == None
        && tableLoadingShown && !tableEmptyShown && rows == []
      ensures confirmed && !succeeded ==>
        && requests == old(requests) + [DeleteContactRequest(contactId)]
        && toasts == old(toasts) + [Toast("שגיאה במחיקת איש קשר", "error")]
        && currentView == old(currentView) && currentContactId == old(currentContactId)
        && rows == old(rows) && tableLoadingShown == old(tableLoadingShown) && tableEmptyShown == old(tableEmptyShown)
    {
      if !confirmed {
        return;
      }
      requests := requests + [DeleteContactRequest(contactId)];
      if succeeded {
        toasts := toasts + [Toast("איש הקשר נמחק", "success")];
        ShowDashboard();
      } else {
        toasts := toasts + [Toast("שגיאה במחיקת איש קשר", "error")];
      }
    }

    /**
     * `deleteInteraction`: confirmation-gated like `deleteContact`; on
     * success the details of the active contact are reloaded (of "null"
     * when there is none, as the template renders it).
     */
    method DeleteInteraction(interactionId: string, confirmed: bool, succeeded: bool)
      modifies this`requests, this`toasts
      ensures !confirmed ==> requests == old(requests) && toasts == old(toasts)
      ensures confirmed && succeeded ==>
        && requests == old(requests) + [DeleteInteractionRequest(interactionId), FetchContactDetail(IdText(currentContactId))]
        && toasts == old(toasts) + [Toast("האינטראקציה נמחקה", "success")]
      ensures confirmed && !succeeded ==>
        && requests == old(requests) + [DeleteInteractionRequest(interactionId)]
        && toasts == old(toasts) + [Toast("שגיאה במחיקת אינטראקציה", "error")]
    {
      if !confirmed {
        return;
      }
      requests := requests + [DeleteInteractionRequest(interactionId)];
      if succeeded {
        toasts := toasts + [Toast("האינטראקציה נמחקה", "success")];
        LoadContactDetail(IdText(currentContactId));
      } else {
        toasts := toasts + [Toast("שגיאה במחיקת אינטראקציה", "error")];
      }
    }

    // -------------------------------------------------------------------------
    // Event handlers (lines 350-460)

    /** The `DOMContentLoaded` handler's first step: show the dashboard (line 352). */
    method Start()
      modifies this`currentView, this`currentContactId, this`requests,
        this`tableLoadingShown, this`tableEmptyShown, this`rows
      ensures Valid()
      ensures currentView == Dashboard && currentContactId == None
      ensures requests == old(requests) + [FetchDashboard, FetchContacts]
      ensures tableLoadingShown && !tableEmptyShown && rows == []
    {
      ShowDashboard();
    }

    /**
     * The add button opens the add-contact form on the dashboard and the
     * add-interaction form elsewhere (lines 355-361). It can only be clicked
     * while shown, and it is hidden in the detail view, so in a valid state
     * it always opens the add-contact form.
     */
    method ClickFab()
      requires fabShown
      modifies this`openModals
      ensures openModals == old(openModals) + {if currentView == Dashboard then AddContactModal else AddInteractionModal}
      ensures Valid() ==> openModals == old(openModals) + {AddContactModal}
    {
      if currentView == Dashboard {
        openModals := openModals + {AddContactModal};
      } else {
        openModals := openModals + {AddInteractionModal};
      }
    }

    /** The back button shows the add button again and then the dashboard (lines 364-367). */
    method ClickBack()
      modifies this`fabShown, this`currentView, this`currentContactId, this`requests,
        this`tableLoadingShown, this`tableEmptyShown, this`rows
      ensures Valid()
      ensures fabShown && currentView == Dashboard && currentContactId == None
      ensures requests == old(requests) + [FetchDashboard, FetchContacts]
      ensures tableLoadingShown && !tableEmptyShown && rows == []
    {
      fabShown := true;
      ShowDashboard();
    }

    /** Whether `currentContactId` is truthy: present and not the empty string. */
    predicate HasContact()
      reads this
    {
      currentContactId.Some? && currentContactId.value != ""
    }

    /** The status select sends an update only while a contact is active (lines 370-374). */
    method ChangeStatus(value: string, succeeded: bool)
      modifies this`requests, this`toasts
      ensures !old(HasContact()) ==> requests == old(requests) && toasts == old(toasts)
      ensures old(HasContact()) ==>
        && requests == old(requests) + [PutStatus(currentContactId.value, value)]
        && toasts == old(toasts) + [if succeeded then Toast("הסטטוס עודכן בהצלחה", "success")
                                    else Toast("שגיאה בעדכון סטטוס", "error")]
    {
      if HasContact() {
        UpdateContactStatus(currentContactId.value, value, succeeded);
      }
    }

    /** The delete button deletes the active contact, if there is one (lines 377-379). */
    method ClickDeleteContact(confirmed: bool, succeeded: bool)
      requires Valid()
      modifies this`currentView, this`currentContactId, this`requests, this`toasts,
        this`tableLoadingShown, this`tableEmptyShown, this`rows
      ensures Valid()
      ensures !old(HasContact()) || !confirmed ==>
        && requests == old(requests) && toasts == old(toasts)
        && currentView == old(currentView) && currentContactId == old(currentContactId)
        && rows == old(rows) && tableLoadingShown == old(tableLoadingShown) && tableEmptyShown == old(tableEmptyShown)
      ensures old(HasContact()) && confirmed && succeeded ==>
        && requests == old(requests) + [DeleteContactRequest(old(currentContactId).value), FetchDashboard, FetchContacts]
        && toasts == old(toasts) + [Toast("איש הקשר נמחק", "success")]
        && currentView == Dashboard && currentContactId == None
        && tableLoadingShown && !tableEmptyShown && rows == []
      ensures old(HasContact()) && confirmed && !succeeded ==>
        && requests == old(requests) + [DeleteContactRequest(old(currentContactId).value)]
        && toasts == old(toasts) + [Toast("שגיאה במחיקת איש קשר", "error")]
        && currentView == old(currentView) && currentContactId == old(currentContactId)
        && rows == old(rows) && tableLoadingShown == old(tableLoadingShown) && tableEmptyShown == old(tableEmptyShown)
    {
      if HasContact() {
        DeleteContact(currentContactId.value, confirmed, succeeded);
      }
    }

    /** The add-interaction button, on the detail view only (lines 127-130), opens its form (lines 382-384). */
    method ClickAddInteraction()
      requires currentView == ContactView
      modifies this`openModals
      ensures openModals == old(openModals) + {AddInteractionModal}
    {
      openModals := openModals + {AddInteractionModal};
    }

    /** A close button, or a click on a modal's backdrop, closes that modal only (lines 407-418). */
    method CloseModal(m: Modal)
      modifies this`openModals
      ensures openModals == old(openModals) - {m}
    {
      openModals := openModals - {m};
    }

    /** The debounced search handler: the trimmed input becomes the search and the table is rendered (lines 391-392). */
    method SearchSettled(value: string)
      modifies this`currentSearch, this`rows, this`tableEmptyShown, this`allContacts
      ensures currentSearch == Trim(value)
      ensures rows == Render(old(allContacts), currentFilter, Trim(value))
      ensures tableEmptyShown == (rows == [])
      ensures allContacts == if currentFilter == "" && currentSearch == "" then rows else old(allContacts)
    {
      currentSearch := Trim(value);
      RenderContacts();
    }

    /** A filter pill: its status (empty for "all") becomes the filter and the table is rendered (lines 398-403). */
    method ClickFilterPill(status: string)
      modifies this`currentFilter, this`rows, this`tableEmptyShown, this`allContacts
      ensures currentFilter == status
      ensures rows == Render(old(allContacts), status, currentSearch)
      ensures tableEmptyShown == (rows == [])
      ensures allContacts == if currentFilter == "" && currentSearch == "" then rows else old(allContacts)
    {
      currentFilter := status;
      RenderContacts();
    }

    /** The add-contact form: one POST; on success the form closes and the dashboard and table reload (lines 421-436). */
    method SubmitContactForm(succeeded: bool, errorMessage: string)
      modifies this`requests, this`toasts, this`openModals, this`tableLoadingShown, this`tableEmptyShown, this`rows
      ensures succeeded ==>
        && requests == old(requests) + [PostContact, FetchDashboard, FetchContacts]
        && toasts == old(toasts) + [Toast("איש קשר נוצר בהצלחה", "success")]
        && openModals == old(openModals) - {AddContactModal}
        && tableLoadingShown && !tableEmptyShown && rows == []
      ensures !succeeded ==>
        && requests == old(requests) + [PostContact]
        && toasts == old(toasts) + [Toast("שגיאה ביצירת איש קשר: " + errorMessage, "error")]
        && openModals == old(openModals)
        && tableLoadingShown == old(tableLoadingShown) && tableEmptyShown == old(tableEmptyShown) && rows == old(rows)
    {
      requests := requests + [PostContact];
      if succeeded {
        toasts := toasts + [Toast("איש קשר נוצר בהצלחה", "success")];
        openModals := openModals - {AddContactModal};
        LoadDashboard();
        LoadContacts();
      } else {
        toasts := toasts + [Toast("שגיאה ביצירת איש קשר: " + errorMessage, "error")];
      }
    }

    /**
     * The add-interaction form: one POST for the contact held by the form; on
     * success the form's contact is reset to the active one (the empty string
     * when there is none), the form closes and the active contact's details
     * reload, of "null" when there is none (lines 439-455).
     */
    method SubmitInteractionForm(succeeded: bool, errorMessage: string) returns (postedFor: string)
      modifies this`requests, this`toasts, this`openModals, this`interactionFormContactId
      ensures postedFor == old(interactionFormContactId)
      ensures succeeded ==>
        && requests == old(requests) + [PostInteraction, FetchContactDetail(IdText(currentContactId))]
        && toasts == old(toasts) + [Toast("אינטראקציה נוספה בהצלחה", "success")]
        && openModals == old(openModals) - {AddInteractionModal}
        && interactionFormContactId == FormValue(currentContactId)
      ensures !succeeded ==>
        && requests == old(requests) + [PostInteraction]
        && toasts == old(toasts) + [Toast("שגיאה בהוספת אינטראקציה: " + errorMessage, "error")]
        && openModals == old(openModals)
        && interactionFormContactId == old(interactionFormContactId)
    {
      postedFor := interactionFormContactId;
      requests := requests + [PostInteraction];
      if succeeded {
        toasts := toasts + [Toast("אינטראקציה נוספה בהצלחה", "success")];
        interactionFormContactId := FormValue(currentContactId);
        openModals := openModals - {AddInteractionModal};
        LoadContactDetail(IdText(currentContactId));
      } else {
        toasts := toasts + [Toast("שגיאה בהוספת אינטראקציה: " + errorMessage, "error")];
      }
    }
  }

  // ---------------------------------------------------------------------------
  // Runs of the page, proved from the method contracts alone

  /** After the page has loaded, the dashboard is shown with no active contact and one load of each kind. */
  method InitialRun() returns (view: View, id: Option<string>, sent: seq<Request>)
    ensures view == Dashboard && id == None
    ensures sent == [FetchDashboard, FetchContacts]
  {
    var app := new App();
    app.Start();
    view, id, sent := app.currentView, app.currentContactId, app.requests;
  }

  /** Opening a contact and going back returns to the dashboard with the add button shown again. */
  method DetailAndBackRun(contactId: string) returns (view: View, id: Option<string>, fab: bool)
    ensures view == Dashboard && id == None && fab
  {
    var app := new App();
    app.Start();
    app.ShowContactDetail(contactId);
    assert app.currentView == ContactView && app.currentContactId == Some(contactId);
    app.ClickBack();
    view, id, fab := app.currentView, app.currentContactId, app.fabShown;
  }

  /**
   * Deleting the open contact returns to the dashboard, but the add button,
   * hidden when the contact was opened, stays hidden: only the back button
   * shows it again.
   */
  method DeleteLeavesFabHiddenRun(contactId: string) returns (view: View, id: Option<string>, fab: bool)
    requires contactId != ""
    ensures view == Dashboard && id == None && !fab
  {
    var app := new App();
    app.Start();
    app.ShowContactDetail(contactId);
    app.ClickDeleteContact(true, true);
    view, id, fab := app.currentView, app.currentContactId, app.fabShown;
  }

  /**
   * Opening one contact and then another (a contact link in the chat works
   * from the detail view too), the first contact's late response still
   * fills the panel while the second is the active one, and an interaction
   * added from the detail view is then posted for the first contact.
   */
  method StaleDetailRun(first: string, second: string, status: string)
    returns (shown: Option<string>, active: Option<string>, postedFor: string)
    requires first != second
    ensures shown == Some(first) && active == Some(second)
    ensures postedFor == first
  {
    var app := new App();
    app.Start();
    app.ShowContactDetail(first);
    app.ShowContactDetail(second);
    app.DetailArrived(second, status);
    app.DetailArrived(first, status);
    shown, active := app.detailShownFor, app.currentContactId;
    app.ClickAddInteraction();
    assert AddInteractionModal in app.openModals;
    postedFor := app.SubmitInteractionForm(true, "");
  }

  /** With neither filter nor search, a render leaves the roster sorted, and rendering it again shows the same rows. */
  method RerenderRun(contacts: seq<Contact>) returns (first: seq<Contact>, second: seq<Contact>, roster: seq<Contact>)
    ensures first == second == Render(contacts, "", "")
    ensures roster == SortByDate(contacts)
  {
    var app := new App();
    app.ContactsArrived(contacts);
    first := app.rows;
    roster := app.allContacts;
    app.RenderContacts();
    second := app.rows;
    RenderAfterInPlaceSort(contacts, "", "");
  }
}
