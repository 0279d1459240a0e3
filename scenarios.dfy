/** Runs of the dashboard from its initial state, and concrete instances of
    the search and count views, each stated as what the page ends up
    showing. */
module Scenarios {
  import opened Outcomes
  import opened Text
  import opened Sequences
  import opened ContactBook
  import opened DashboardPage

  /** Two toasts within the display time: the first timer's expiry leaves
      the second message up, and only the second timer clears it. */
  method LaterToastWins() returns (afterFirstExpiry: Option<Toast>, afterSecondExpiry: Option<Toast>)
    ensures afterFirstExpiry == Some(Toast("Contact updated!", Success))
    ensures afterSecondExpiry == None
  {
    var page := new Dashboard();
    var first := page.ShowToast("Copied!", Success);
    var second := page.ShowToast("Contact updated!", Success);
    page.TimerFired(first);
    afterFirstExpiry := page.toast;
    page.TimerFired(second);
    afterSecondExpiry := page.toast;
  }

  /** Starting from an empty list, saving "Jane Smith" with an empty phone
      and address appends the stored row, and deleting that row's id empties
      the list again. */
  method CreateThenDelete() returns (sent: Option<NewRow>, afterCreate: seq<Contact>, afterDelete: seq<Contact>)
    ensures sent == Some(NewRow("u1", "Jane Smith", "", ""))
    ensures afterCreate == [Contact("c1", "u1", "Jane Smith", "", "")]
    ensures afterDelete == []
  {
    var jane := User("u1", "jane@example.com");
    var row := Contact("c1", "u1", "Jane Smith", "", "");
    JaneSmithRequest(jane, row);
    var page := new Dashboard();
    var owner := page.Load(Some(jane), Ok(Some([])));
    page.HandleAddClick();
    page.HandleFormChange(Name, "Jane Smith");
    assert page.form == Draft("Jane Smith", "", "");
    assert page.CanSaveNew() && page.user == Some(jane) && page.contacts == [];
    sent := page.SaveContact(Ok(Some(row)));
    assert sent == Some(InsertOf(jane, Draft("Jane Smith", "", "")));
    afterCreate := page.contacts;
    assert afterCreate == [row];
    var _ := page.DeleteContact("c1", "Jane Smith", Acked);
    afterDelete := page.contacts;
  }

  /** The concrete facts CreateThenDelete rests on: the name is not blank,
      the insert is the form trimmed, and deleting the row's id from the
      one-row list empties it. */
  lemma JaneSmithRequest(u: User, row: Contact)
    requires u == User("u1", "jane@example.com") && row == Contact("c1", "u1", "Jane Smith", "", "")
    ensures !IsBlank("Jane Smith")
    ensures InsertOf(u, Draft("Jane Smith", "", "")) == NewRow("u1", "Jane Smith", "", "")
    ensures RemoveById([row], "c1") == []
  {
  }

  /** A failing fetch at boot leaves the list empty and shows no toast. */
  method BootFetchFails() returns (contacts: seq<Contact>, toast: Option<Toast>, left: bool)
    ensures contacts == [] && toast == None && !left
  {
    var page := new Dashboard();
    var owner := page.Load(Some(User("u1", "jane@example.com")), Err);
    contacts, toast, left := page.contacts, page.toast, page.leftPage;
  }

  /** Without an identity the page navigates away and loads nothing. */
  method BootWithoutIdentity() returns (owner: Option<string>, contacts: seq<Contact>, left: bool)
    ensures owner == None && contacts == [] && left
  {
    var page := new Dashboard();
    owner := page.Load(None, Ok(Some([Contact("c1", "u1", "Ann", "", "")])));
    contacts, left := page.contacts, page.leftPage;
  }

  /** A failed edit still closes the edit form and keeps the list. */
  method FailedEditClosesForm() returns (sent: Option<RowUpdate>, editing: Option<string>, contacts: seq<Contact>)
    ensures sent == Some(RowUpdate("c1", "Ann", "", ""))
    ensures editing == None && contacts == [Contact("c1", "u1", "Ann", "", "")]
  {
    var page := new Dashboard();
    var ann := Contact("c1", "u1", "Ann", "", "");
    var owner := page.Load(Some(User("u1", "ann@example.com")), Ok(Some([ann])));
    AnnRequests();
    page.StartEdit(ann);
    sent := page.SaveEdit(Failed);
    editing, contacts := page.editingId, page.contacts;
  }

  /** A successful edit keeps the untrimmed form values in the list while
      the trimmed ones are sent: the local row and the stored row differ. */
  method EditKeepsUntrimmedValues() returns (sent: Option<RowUpdate>, contacts: seq<Contact>)
    ensures sent == Some(RowUpdate("c1", "Ann", "", ""))
    ensures contacts == [Contact("c1", "u1", "Ann ", "", "")]
  {
    var page := new Dashboard();
    var ann := Contact("c1", "u1", "Ann", "", "");
    var owner := page.Load(Some(User("u1", "ann@example.com")), Ok(Some([ann])));
    page.StartEdit(ann);
    AnnRequests();
    page.HandleEditChange(Name, "Ann ");
    assert page.editForm == Draft("Ann ", "", "");
    sent := page.SaveEdit(Acked);
    contacts := page.contacts;
  }

  /** The concrete facts the edit scenarios rest on: "Ann" and "Ann " are
      not blank, and both are sent as "Ann". */
  lemma AnnRequests()
    ensures !IsBlank("Ann") && !IsBlank("Ann ")
    ensures UpdateOf("c1", Draft("Ann", "", "")) == RowUpdate("c1", "Ann", "", "")
    ensures UpdateOf("c1", Draft("Ann ", "", "")) == RowUpdate("c1", "Ann", "", "")
  {
    assert !IsWhitespace("Ann"[0]) && !IsWhitespace("Ann "[0]);
    assert Trim("") == "";
    assert Trim("Ann") == "Ann" by {
      assert SkipLeading("Ann", 0) == 0;
      assert SkipTrailing("Ann", 0, 3) == 3;
    }
    assert Trim("Ann ") == "Ann" by {
      assert SkipLeading("Ann ", 0) == 0;
      assert SkipTrailing("Ann ", 0, 4) == 3;
    }
  }

  const Jane := Contact("c1", "u1", "Jane Doe", "555-0100", "")

  /** The search rule on one contact: the name matches in any letter case. */
  lemma JaneByName()
    ensures Filtered([Jane], "jane") == [Jane]
    ensures Filtered([Jane], "JANE") == [Jane]
  {
    JaneMatchesName();
    assert Filtered([Jane], "jane") == [Jane] by {
      SearchOne(Jane, "jane");
    }
    SearchOne(Jane, "JANE");
  }

  /** The phone number matches as typed. */
  lemma JanePhoneFound()
    ensures Filtered([Jane], "555-0100") == [Jane]
  {
    JaneMatchesPhone();
    SearchOne(Jane, "555-0100");
  }

  /** Another number finds nothing. */
  lemma JaneOtherNumberMissing()
    ensures Filtered([Jane], "555-0200") == []
  {
    JaneOtherNumber();
    SearchOne(Jane, "555-0200");
  }

  lemma SearchOne(c: Contact, q: string)
    requires q != [] && !IsWhitespace(q[0])
    ensures Filtered([c], q) == if Matches(c, q) then [c] else []
  {
  }

  lemma JaneMatchesName()
    ensures Matches(Jane, "jane") && Matches(Jane, "JANE")
  {
    var lowered := Lower(Jane.name);
    assert lowered[..4] == "jane";
    assert Lower("jane") == "jane";
    assert Lower("JANE") == "jane";
    assert OccursAt(lowered, "jane", 0);
  }

  lemma JaneMatchesPhone()
    ensures Matches(Jane, "555-0100")
  {
    assert OccursAt(Jane.phone, "555-0100", 0);
  }

  lemma JaneOtherNumber()
    ensures !Matches(Jane, "555-0200")
  {
    var q := "555-0200";
    var lowered := Lower(Jane.name);
    assert lowered[0] == 'j';
    assert Lower(q)[0] == '5';
    assert !OccursAt(lowered, Lower(q), 0);
    assert !OccursAt(Jane.phone, q, 0) by {
      assert Jane.phone[5] != q[5];
    }
  }

  /** Concrete counts: one contact with a phone and one with an address. */
  lemma StatsOfTwo()
    ensures var cs := [Contact("a", "u1", "Ann", "111", ""), Contact("b", "u1", "Ben", "", "Main St")];
      |WithPhone(cs)| == 1 && |WithAddress(cs)| == 1
  {
  }

  lemma TwoPeopleLabel()
    ensures CountLabel(2) == "2 people saved"
  {
  }
}
