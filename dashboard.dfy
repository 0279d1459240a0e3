/** The state of the Dashboard component of app/dashboard/page.tsx and its
    event handlers. Each `useState` slot (and the `toastTimer` ref) is a
    field; each handler is a method that runs to completion, with the reply
    of the hosted backend passed in as a parameter and the request it sends
    returned. */
module DashboardPage {
  import opened Outcomes
  import opened Text
  import opened ContactBook

  /** The signed-in identity returned by the auth provider. */
  datatype User = User(id: string, email: string)

  datatype ToastKind = Success | Error

  datatype Toast = Toast(msg: string, kind: ToastKind)

  /** The row saveContact asks the backend to insert. */
  datatype NewRow = NewRow(userId: string, name: string, phone: string, address: string)

  /** The update saveEdit asks the backend to apply to the row with that id. */
  datatype RowUpdate = RowUpdate(id: string, name: string, phone: string, address: string)

  /** The insert saveContact sends: the form's fields trimmed, tagged with
      the owner's id. */
  function InsertOf(u: User, d: Draft): NewRow {
    NewRow(u.id, Trim(d.name), Trim(d.phone), Trim(d.address))
  }

  /** The update saveEdit sends: the edit form's fields trimmed. */
  function UpdateOf(id: string, d: Draft): RowUpdate {
    RowUpdate(id, Trim(d.name), Trim(d.phone), Trim(d.address))
  }

  /** The insert carries the owner's id, no field of it has whitespace at
      either end, and its name is empty exactly when the form's is blank. */
  lemma InsertTrimmed(u: User, d: Draft)
    ensures InsertOf(u, d).userId == u.id
    ensures IsTrimmed(InsertOf(u, d).name) && IsTrimmed(InsertOf(u, d).phone) && IsTrimmed(InsertOf(u, d).address)
    ensures InsertOf(u, d).name == [] <==> IsBlank(d.name)
  {
  }

  /** The update targets the given id, no field of it has whitespace at
      either end, and its name is empty exactly when the form's is blank. */
  lemma UpdateTrimmed(id: string, d: Draft)
    ensures UpdateOf(id, d).id == id
    ensures IsTrimmed(UpdateOf(id, d).name) && IsTrimmed(UpdateOf(id, d).phone) && IsTrimmed(UpdateOf(id, d).address)
    ensures UpdateOf(id, d).name == [] <==> IsBlank(d.name)
  {
  }

  class Dashboard {
    var user: Option<User>
    var contacts: seq<Contact>
    var isAdding: bool
    var form: Draft
    var saving: bool
    var editingId: Option<string>
    var editForm: Draft
    var deletingId: Option<string>
    var signingOut: bool
    /** `location.href = '/'` has been assigned: the page navigates away. */
    var leftPage: bool
    var toast: Option<Toast>
    /** The expiry timer that is still pending: the one `toastTimer.current`
        names, unless it has already fired. Timers are the tokens
        0, 1, 2, ... in the order setTimeout hands them out. */
    var pendingTimer: Option<nat>
    var nextTimer: nat

    /** A toast is showing exactly while its expiry timer is pending, and the
        pending timer is the one set last. */
    ghost predicate Valid()
      reads this
    {
      (toast.Some? <==> pendingTimer.Some?)
      && (pendingTimer.Some? ==> pendingTimer.value + 1 == nextTimer)
    }

    /** The initial values of the component's state. */
    constructor ()
      ensures Valid()
      ensures user == None && contacts == [] && !isAdding && form == EmptyDraft && !saving
      ensures editingId == None && editForm == EmptyDraft && deletingId == None
      ensures !signingOut && !leftPage && toast == None && pendingTimer == None
    {
      user := None;
      contacts := [];
      isAdding := false;
      form := EmptyDraft;
      saving := false;
      editingId := None;
      editForm := EmptyDraft;
      deletingId := None;
      signingOut := false;
      leftPage := false;
      toast := None;
      pendingTimer := None;
      nextTimer := 0;
    }

    /** The boot effect: without an identity the page navigates away and
        fetches nothing; with one it records the user and asks for that
        user's rows, which replace the list on success (a null `data`
        counting as no rows) and are ignored on error. */
    method Load(identity: Option<User>, rows: Reply<Option<seq<Contact>>>) returns (owner: Option<string>)
      requires Valid()
      modifies this`user, this`contacts, this`leftPage
      ensures Valid()
      ensures identity.None? ==>
        owner == None && leftPage && user == old(user) && contacts == old(contacts)
      ensures identity.Some? ==>
        owner == Some(identity.value.id) && user == identity && leftPage == old(leftPage)
      ensures identity.Some? && rows.Ok? ==>
        contacts == (if rows.value.Some? then rows.value.value else [])
      ensures identity.Some? && rows.Err? ==> contacts == old(contacts)
    {
      if identity.None? {
        leftPage := true;
        owner := None;
        return;
      }
      user := identity;
      owner := Some(identity.value.id);
      if rows.Ok? {
        contacts := if rows.value.Some? then rows.value.value else [];
      }
    }

    /** showToast: the new message replaces whatever is showing, the pending
        timer is cancelled and a fresh one is set. */
    method ShowToast(msg: string, kind: ToastKind) returns (timer: nat)
      requires Valid()
      modifies this`toast, this`pendingTimer, this`nextTimer
      ensures Valid()
      ensures toast == Some(Toast(msg, kind)) && pendingTimer == Some(timer)
      ensures timer == old(nextTimer) && nextTimer == timer + 1
      ensures old(pendingTimer).Some? ==> old(pendingTimer).value < timer
    {
      timer := nextTimer;
      toast := Some(Toast(msg, kind));
      pendingTimer := Some(timer);
      nextTimer := nextTimer + 1;
    }

    /** The expiry of a timer: only the pending one clears the toast; a timer
        that showToast cancelled has no effect. */
    method TimerFired(timer: nat)
      requires Valid()
      modifies this`toast, this`pendingTimer
      ensures Valid()
      ensures old(pendingTimer) == Some(timer) ==> toast == None && pendingTimer == None
      ensures old(pendingTimer) != Some(timer) ==>
        toast == old(toast) && pendingTimer == old(pendingTimer)
    {
      if pendingTimer == Some(timer) {
        toast := None;
        pendingTimer := None;
      }
    }

    /** The guard of saveContact: the name is not blank. */
    predicate CanSaveNew()
      reads this
    {
      !IsBlank(form.name)
    }

    /** saveContact. A blank name changes nothing. Otherwise `saving` is set
        and the trimmed fields are sent with the user's id; if the user has
        not been loaded yet, reading `user.id` throws and the handler stops
        there with `saving` still set. On an error reply the list is kept and
        an error toast shown; on a returned row that row is appended and the
        untrimmed name announced. Either way the form is emptied, adding mode
        ends and `saving` is cleared. */
    method SaveContact(reply: Reply<Option<Contact>>) returns (sent: Option<NewRow>)
      requires Valid()
      modifies this`saving, this`contacts, this`form, this`isAdding
      modifies this`toast, this`pendingTimer, this`nextTimer
      ensures Valid()
      ensures !old(CanSaveNew()) ==> sent == None && unchanged(this)
      ensures old(CanSaveNew()) && user.None? ==>
        sent == None && saving && contacts == old(contacts) && form == old(form)
        && isAdding == old(isAdding) && toast == old(toast)
        && pendingTimer == old(pendingTimer) && nextTimer == old(nextTimer)
      ensures old(CanSaveNew()) && user.Some? ==>
        sent == Some(InsertOf(user.value, old(form)))
        && form == EmptyDraft && !isAdding && !saving
        && contacts == (if reply.Ok? && reply.value.Some? then old(contacts) + [reply.value.value] else old(contacts))
        && (reply.Err? ==>
              toast == Some(Toast("Failed to save contact", Error)) && pendingTimer == Some(old(nextTimer)))
        && (reply.Ok? && reply.value.Some? ==>
              toast == Some(Toast(old(form.name) + " added!", Success)) && pendingTimer == Some(old(nextTimer)))
        && (reply.Ok? && reply.value.None? ==>
              toast == old(toast) && pendingTimer == old(pendingTimer) && nextTimer == old(nextTimer))
      ensures (old(UniqueIds(contacts)) && reply.Ok? && reply.value.Some?
        && forall i :: 0 <= i < |old(contacts)| ==> old(contacts)[i].id != reply.value.value.id) ==>
        UniqueIds(contacts)
    {
      if IsBlank(form.name) {
        sent := None;
        return;
      }
      saving := true;
      if user.None? {
        sent := None;
        return;
      }
      sent := Some(InsertOf(user.value, form));
      ApplyInsertReply(reply);
      form := EmptyDraft;
      isAdding := false;
      saving := false;
    }

    /** The part of saveContact after the insert returns: on an error the
        failure is shown; on a returned row that row is appended and the
        form's name announced; on no row nothing happens. */
    method ApplyInsertReply(reply: Reply<Option<Contact>>)
      requires Valid()
      modifies this`contacts, this`toast, this`pendingTimer, this`nextTimer
      ensures Valid()
      ensures contacts == (if reply.Ok? && reply.value.Some? then old(contacts) + [reply.value.value] else old(contacts))
      ensures reply.Err? ==>
        toast == Some(Toast("Failed to save contact", Error)) && pendingTimer == Some(old(nextTimer))
      ensures reply.Ok? && reply.value.Some? ==>
        toast == Some(Toast(form.name + " added!", Success)) && pendingTimer == Some(old(nextTimer))
      ensures reply.Ok? && reply.value.None? ==>
        toast == old(toast) && pendingTimer == old(pendingTimer) && nextTimer == old(nextTimer)
      ensures (old(UniqueIds(contacts)) && reply.Ok? && reply.value.Some?
        && forall i :: 0 <= i < |old(contacts)| ==> old(contacts)[i].id != reply.value.value.id) ==>
        UniqueIds(contacts)
    {
      if reply.Err? {
        var _ := ShowToast("Failed to save contact", Error);
      } else if reply.value.Some? {
        if UniqueIds(contacts) && forall i :: 0 <= i < |contacts| ==> contacts[i].id != reply.value.value.id {
          AppendKeepsUnique(contacts, reply.value.value);
        }
        contacts := contacts + [reply.value.value];
        var _ := ShowToast(form.name + " added!", Success);
      }
    }

    /** startEdit: the edit form opens on the contact's current values. */
    method StartEdit(c: Contact)
      requires Valid()
      modifies this`editingId, this`editForm
      ensures Valid()
      ensures editingId == Some(c.id)
      ensures editForm.name == c.name && editForm.phone == c.phone && editForm.address == c.address
    {
      editingId := Some(c.id);
      editForm := Draft(c.name, c.phone, c.address);
    }

    /** handleEditChange: only the named field of the edit form changes. */
    method HandleEditChange(f: Field, v: string)
      requires Valid()
      modifies this`editForm
      ensures Valid()
      ensures editForm == WithField(old(editForm), f, v)
    {
      editForm := WithField(editForm, f, v);
    }

    /** The guard of saveEdit: the name is not blank and `editingId` is
        truthy (neither null nor the empty string). */
    predicate CanSaveEdit()
      reads this
    {
      !IsBlank(editForm.name) && editingId.Some? && editingId.value != ""
    }

    /** saveEdit. Without a non-blank name and a truthy `editingId` nothing
        changes. Otherwise the trimmed fields are sent as an update of that
        id; on success every contact with that id takes the edit form's
        values as typed, untrimmed, and keeps its id and owner; on error the
        list is kept. Either way editing ends and `saving` is cleared. */
    method SaveEdit(reply: Ack) returns (sent: Option<RowUpdate>)
      requires Valid()
      modifies this`saving, this`contacts, this`editingId
      modifies this`toast, this`pendingTimer, this`nextTimer
      ensures Valid()
      ensures !old(CanSaveEdit()) ==> sent == None && unchanged(this)
      ensures old(CanSaveEdit()) ==>
        var id := old(editingId).value;
        sent == Some(UpdateOf(id, editForm))
        && editingId == None && !saving && pendingTimer == Some(old(nextTimer))
        && contacts == (if reply == Acked then ReplaceById(old(contacts), id, editForm) else old(contacts))
        && toast == Some(if reply == Acked then Toast("Contact updated!", Success) else Toast("Failed to update", Error))
      ensures old(UniqueIds(contacts)) ==> UniqueIds(contacts)
    {
      if !CanSaveEdit() {
        sent := None;
        return;
      }
      var row := SubmitEdit(reply);
      sent := Some(row);
    }

    /** The part of saveEdit past its guard: `saving` is set, the trimmed
        fields are sent as an update of the edited id, the reply is applied
        to the list and announced, and then editing ends and `saving` is
        cleared. */
    method SubmitEdit(reply: Ack) returns (sent: RowUpdate)
      requires Valid() && editingId.Some?
      modifies this`saving, this`contacts, this`editingId
      modifies this`toast, this`pendingTimer, this`nextTimer
      ensures Valid()
      ensures sent == UpdateOf(old(editingId).value, editForm)
      ensures editingId == None && !saving && pendingTimer == Some(old(nextTimer))
      ensures contacts == if reply == Acked then ReplaceById(old(contacts), old(editingId).value, editForm) else old(contacts)
      ensures toast == Some(if reply == Acked then Toast("Contact updated!", Success) else Toast("Failed to update", Error))
      ensures old(UniqueIds(contacts)) ==> UniqueIds(contacts)
    {
      var id := editingId.value;
      saving := true;
      sent := UpdateOf(id, editForm);
      ApplyUpdateReply(id, reply);
      editingId := None;
      saving := false;
    }

    /** The part of saveEdit after the update returns: on success every
        contact with that id takes the edit form's values and "Contact
        updated!" is shown; on error the list is kept and the failure is
        shown. */
    method ApplyUpdateReply(id: string, reply: Ack)
      requires Valid()
      modifies this`contacts, this`toast, this`pendingTimer, this`nextTimer
      ensures Valid()
      ensures pendingTimer == Some(old(nextTimer))
      ensures contacts == if reply == Acked then ReplaceById(old(contacts), id, editForm) else old(contacts)
      ensures toast == Some(if reply == Acked then Toast("Contact updated!", Success) else Toast("Failed to update", Error))
      ensures old(UniqueIds(contacts)) ==> UniqueIds(contacts)
    {
      var shown := Toast("Failed to update", Error);
      if reply == Acked {
        if UniqueIds(contacts) {
          ReplaceKeepsUnique(contacts, id, editForm);
        }
        contacts := ReplaceById(contacts, id, editForm);
        shown := Toast("Contact updated!", Success);
      }
      var _ := ShowToast(shown.msg, shown.kind);
    }

    /** cancelEdit: editing ends; the edit form keeps its values. */
    method CancelEdit()
      requires Valid()
      modifies this`editingId
      ensures Valid()
      ensures editingId == None
    {
      editingId := None;
    }

    /** deleteContact: the row is marked as deleting while the request for
        its id is out; on success every contact with that id leaves the list
        and the removal is announced by name, on error the list is kept. The
        mark is cleared afterwards. */
    method DeleteContact(id: string, name: string, reply: Ack) returns (sent: string)
      requires Valid()
      modifies this`deletingId, this`contacts, this`toast, this`pendingTimer, this`nextTimer
      ensures Valid()
      ensures sent == id && deletingId == None && pendingTimer == Some(old(nextTimer))
      ensures contacts == if reply == Acked then RemoveById(old(contacts), id) else old(contacts)
      ensures toast == Some(if reply == Acked then Toast(name + " removed", Success) else Toast("Failed to delete", Error))
      ensures old(UniqueIds(contacts)) ==> UniqueIds(contacts)
    {
      deletingId := Some(id);
      sent := id;
      if reply == Failed {
        var _ := ShowToast("Failed to delete", Error);
      } else {
        if UniqueIds(contacts) {
          RemoveKeepsUnique(contacts, id);
        }
        contacts := RemoveById(contacts, id);
        var _ := ShowToast(name + " removed", Success);
      }
      deletingId := None;
    }

    /** copyToClipboard: once the clipboard write has resolved, "Copied!" is
        shown; a rejected write throws before the toast. */
    method CopyToClipboard(text: string, written: Ack) returns (copied: string)
      requires Valid()
      modifies this`toast, this`pendingTimer, this`nextTimer
      ensures Valid() && copied == text
      ensures written == Acked ==>
        toast == Some(Toast("Copied!", Success)) && pendingTimer == Some(old(nextTimer))
      ensures written == Failed ==>
        toast == old(toast) && pendingTimer == old(pendingTimer) && nextTimer == old(nextTimer)
    {
      copied := text;
      if written == Acked {
        var _ := ShowToast("Copied!", Success);
      }
    }

    /** signOut: marks the sign-out as running and, whatever the auth
        provider answers, navigates away. */
    method SignOut()
      requires Valid()
      modifies this`signingOut, this`leftPage
      ensures Valid()
      ensures signingOut && leftPage
    {
      signingOut := true;
      leftPage := true;
    }

    /** handleAddClick: adding mode flips and any edit in progress ends. */
    method HandleAddClick()
      requires Valid()
      modifies this`isAdding, this`editingId
      ensures Valid()
      ensures isAdding == !old(isAdding) && editingId == None
    {
      isAdding := !isAdding;
      editingId := None;
    }

    /** cancelAdd: adding mode ends and the form is emptied. */
    method CancelAdd()
      requires Valid()
      modifies this`isAdding, this`form
      ensures Valid()
      ensures !isAdding && form == EmptyDraft
    {
      isAdding := false;
      form := EmptyDraft;
    }

    /** handleFormChange: only the named field of the new-contact form
        changes. */
    method HandleFormChange(f: Field, v: string)
      requires Valid()
      modifies this`form
      ensures Valid()
      ensures form == WithField(old(form), f, v)
    {
      form := WithField(form, f, v);
    }
  }
}
