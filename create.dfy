/**
 * The bet creation screen (app/tabs/create.tsx): the form's checks, run in a
 * fixed order with the first failure reported, and the row it inserts.
 *
 * The row's id and `created_at` are assigned by the backend and are parameters.
 */
module Create {
  import opened Common
  import opened Text
  import opened Numeric
  import opened Tables
  import Home
  import Pending

  const TitleMissing: string := "Please enter a bet title"
  const AmountInvalid: string := "Please enter a valid amount"
  const OptionAMissing: string := "Please enter option A"
  const OptionBMissing: string := "Please enter option B"
  const ChoiceMissing: string := "Please select which option you are betting on"
  const InsertFailed: string := "Failed to create bet"

  /** The form's fields as typed. */
  datatype Form = Form(title: string, amount: string, optionA: string, optionB: string, selected: Option<Choice>)

  /** What the checks pass on to the insert. */
  datatype Draft = Draft(title: string, amount: real, optionA: string, optionB: string, choice: Choice)

  const EmptyForm: Form := Form("", "", "", "", None)

  /** `!amount.trim() || isNaN(Number(amount)) || Number(amount) <= 0`. */
  predicate AmountRejected(amount: string)
  {
    Trim(amount) == [] || JsNumber(amount).None? || JsNumber(amount).value <= 0.0
  }

  /** The checks of `handleCreateBet`, in order: title, amount, option A, option B, choice. */
  function CheckForm(f: Form): (r: Result<Draft, string>)
    ensures r.Ok? ==> r.value.title != [] && r.value.optionA != [] && r.value.optionB != [] && r.value.amount > 0.0
  {
    if Trim(f.title) == [] then Err(TitleMissing)
    else if AmountRejected(f.amount) then Err(AmountInvalid)
    else if Trim(f.optionA) == [] then Err(OptionAMissing)
    else if Trim(f.optionB) == [] then Err(OptionBMissing)
    else if f.selected.None? then Err(ChoiceMissing)
    else Ok(Draft(Trim(f.title), JsNumber(f.amount).value, Trim(f.optionA), Trim(f.optionB), f.selected.value))
  }

  /** Each message is reported exactly when its check is the first to fail; a blank title is reported
    * whatever else the form holds. */
  lemma CheckOrder(f: Form)
    ensures Trim(f.title) == [] ==> CheckForm(f) == Err(TitleMissing)
    ensures CheckForm(f) == Err(AmountInvalid) <==> Trim(f.title) != [] && AmountRejected(f.amount)
    ensures CheckForm(f) == Err(OptionAMissing) <==>
              Trim(f.title) != [] && !AmountRejected(f.amount) && Trim(f.optionA) == []
    ensures CheckForm(f) == Err(OptionBMissing) <==>
              Trim(f.title) != [] && !AmountRejected(f.amount) && Trim(f.optionA) != [] && Trim(f.optionB) == []
    ensures CheckForm(f) == Err(ChoiceMissing) <==>
              Trim(f.title) != [] && !AmountRejected(f.amount) && Trim(f.optionA) != [] && Trim(f.optionB) != []
              && f.selected.None?
  {
  }

  /** The form passes exactly when every check does, and then the draft holds the trimmed texts, the
    * positive number the amount reads as, and the selected option. */
  lemma CheckPasses(f: Form)
    ensures CheckForm(f).Ok? <==> Trim(f.title) != [] && !AmountRejected(f.amount) && Trim(f.optionA) != []
                                  && Trim(f.optionB) != [] && f.selected.Some?
    ensures CheckForm(f).Ok? ==>
              var d := CheckForm(f).value;
              d.title == Trim(f.title) && d.optionA == Trim(f.optionA) && d.optionB == Trim(f.optionB)
              && d.choice == f.selected.value && Some(d.amount) == JsNumber(f.amount) && d.amount > 0.0
              && d.title != [] && d.optionA != [] && d.optionB != []
  {
  }

  /** The inserted row: a pending bet by "You", with no outcome and no couple. */
  function NewBetRow(d: Draft, id: string, createdAt: int): (b: Bet)
    ensures b.status == Pending && b.creatorId == Home.YouId && b.creatorChoice == d.choice
    ensures b.title == d.title && b.amount == d.amount && b.optionA == d.optionA && b.optionB == d.optionB
    ensures b.winnerOption.None? && b.concludedAt.None? && b.concludedById.None? && b.coupleId.None?
    ensures b.id == id && b.createdAt == createdAt
  {
    Bet(id, d.title, d.amount, d.optionA, d.optionB, Home.YouId, d.choice, Pending, None, createdAt, None, None, None)
  }

  /** A created bet is waiting in the approvals list. */
  lemma CreatedBetIsPending(bets: seq<Bet>, d: Draft, id: string, createdAt: int)
    ensures NewBetRow(d, id, createdAt) in Pending.PendingList(bets + [NewBetRow(d, id, createdAt)])
  {
    var row := NewBetRow(d, id, createdAt);
    assert (bets + [row])[|bets|] == row;
    Pending.PendingListing(bets + [row]);
  }

  /** The insert carries no `couple_id`. A row stored as inserted, with no couple id, is in no
    * couple's active list on the home screen, even once approved. */
  lemma CreatedBetNotOnHome(bets: seq<Bet>, d: Draft, id: string, createdAt: int, coupleId: string)
    ensures NewBetRow(d, id, createdAt).(status := Active) !in
            Home.ActiveBetsOf(Pending.ActivateRows(bets + [NewBetRow(d, id, createdAt)], id), coupleId)
  {
    Home.ActiveListing(Pending.ActivateRows(bets + [NewBetRow(d, id, createdAt)], id), coupleId);
  }

  /** The creation screen's state. */
  class CreateScreen {
    var form: Form
    var isSubmitting: bool

    constructor()
      ensures form == EmptyForm && !isSubmitting
    {
      form, isSubmitting := EmptyForm, false;
    }

    /** `handleCreateBet()`: the first failed check is reported and nothing is written; otherwise the
      * row is inserted. The form is kept until the success alert is confirmed. */
    method HandleCreateBet(db: Backend, id: string, createdAt: int, up: bool) returns (outcome: Result<Bet, string>)
      modifies this, db
      ensures db.users == old(db.users) && db.couples == old(db.couples)
      ensures form == old(form)
      ensures CheckForm(form).Err? ==>
                outcome == Err(CheckForm(form).error) && db.bets == old(db.bets) && isSubmitting == old(isSubmitting)
      ensures CheckForm(form).Ok? ==> !isSubmitting
      ensures CheckForm(form).Ok? && !up ==> outcome == Err(InsertFailed) && db.bets == old(db.bets)
      ensures CheckForm(form).Ok? && up ==>
                outcome == Ok(NewBetRow(CheckForm(form).value, id, createdAt))
                && db.bets == old(db.bets) + [outcome.value]
    {
      var f := form;
      var checked := CheckForm(f);
      if checked.Err? {
        outcome := Err(checked.error);
        return;
      }
      isSubmitting := true;
      if up {
        var row := NewBetRow(checked.value, id, createdAt);
        db.bets := db.bets + [row];
        outcome := Ok(row);
      } else {
        outcome := Err(InsertFailed);
      }
      isSubmitting := false;
      assert form == f;
    }

    /** The success alert's OK button: every field is cleared. */
    method ConfirmCreated()
      modifies this
      ensures form == EmptyForm && isSubmitting == old(isSubmitting)
    {
      form := EmptyForm;
    }
  }
}
