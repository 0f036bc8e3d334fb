/** The donor wizard itself: its state, changed in place by the handlers of its controls. */
module DonarWizard {
  import opened Text
  import opened DonationForm
  import opened DonarPage

  /** The one request a promise of `CreateStripeSessionAttempt` answers for. */
  datatype Request = Request(ownedAttempt: Attempt, sequence: nat)

  class Wizard {
    const rules: Rules
    var form: Form
    var fieldErrors: Errors
    var door: Option<Door>
    var step: nat
    var monthly: bool
    var offering: bool
    var stripeAttempt: Option<Attempt>
    var stripeSession: Option<Session>
    var stripeSessionSequence: nat
    var stripeRejectedSequence: Option<nat>
    var minted: nat
    ghost var posts: seq<Post>

    ghost function View(): Page
      reads this
    {
      Page(form, fieldErrors, door, step, monthly, offering,
           Stripe(stripeAttempt, stripeSession, stripeSessionSequence, stripeRejectedSequence, minted, posts))
    }

    /** What every handler keeps: each message shown is true, and each request id stands for one gift. */
    ghost predicate Valid()
      reads this
    {
      Truthful(rules, form, fieldErrors) && Sound(View().stripe)
    }

    constructor (rules: Rules, emptyForm: Form, fromAddress: Option<Door>)
      ensures Valid() && this.rules == rules && View() == Start(emptyForm, fromAddress)
    {
      this.rules := rules;
      form, fieldErrors, door, step, monthly, offering := emptyForm, map[], fromAddress, 1, false, false;
      stripeAttempt, stripeSession, stripeSessionSequence, stripeRejectedSequence := None, None, 0, None;
      minted, posts := 0, [];
    }

    method Update(edit: Edit)
      requires Valid()
      modifies this
      ensures Valid()
      ensures View() == Updated(old(View()), edit)
    {
      EditKeepsErrorsTrue(rules, form, fieldErrors, edit);
      PatchForm(edit);
    }

    method PatchForm(edit: Edit)
      modifies this`form, this`fieldErrors
      ensures View() == Updated(old(View()), edit)
    {
      form := Patched(form, edit);
      fieldErrors := ClearDonationFieldErrors(fieldErrors, EditedKeys(edit));
    }

    method ToggleForeignResident(foreignResident: bool)
      requires Valid()
      modifies this
      ensures Valid()
      ensures View() == ForeignToggled(old(View()), foreignResident)
    {
      monthly := false;
      Update(ToggleForeign(foreignResident));
    }

    method ChoosePais(pais: string)
      requires Valid()
      modifies this
      ensures Valid()
      ensures View() == PaisPicked(old(View()), pais)
    {
      monthly := false;
      if pais == US_COUNTRY {
        offering := form.giftType == Some(Ofrenda);
        stripeAttempt := None;
        stripeSession := None;
        form := form.(foreignResident := false, pais := "");
        step := 1;
        fieldErrors := map[];
        door := Some(Eeuu);
        return;
      }
      Update(PickPais(pais));
    }

    method ChooseDoor(next: Option<Door>)
      requires Valid()
      modifies this
      ensures Valid()
      ensures View() == DoorChosen(old(View()), next)
    {
      form := form.(foreignResident := false, pais := "");
      monthly := false;
      offering := false;
      stripeAttempt := None;
      stripeSession := None;
      step := 1;
      fieldErrors := map[];
      door := next;
    }

    /** Sends a request under the attempt for the current gift, minting one when there is none. */
    method CreateStripeSessionAttempt() returns (session: Session, request: Request)
      requires Valid()
      modifies this
      ensures Valid()
      ensures var was := old(View());
              var requested := Requested(was.stripe, CurrentGift(rules, was), CurrentBody(rules, was));
              View() == old(View()).(stripe := requested.(session := old(stripeSession)))
              && Some(session) == requested.session
              && request == Request(requested.attempt.value, requested.sequence)
    {
      var gift := Gift(monthly, offering, Cents(rules, form.amount));
      var attempt := stripeAttempt;
      if attempt.None? || attempt.value.gift != gift {
        attempt := Some(Attempt(gift, minted));
        minted := minted + 1;
        stripeAttempt := attempt;
      }
      stripeSessionSequence := stripeSessionSequence + 1;
      var body := Body(rules.trim(form.amount), monthly, offering);
      posts := posts + [Post(stripeSessionSequence, body, gift, attempt.value.id)];
      session := Session(gift, stripeSessionSequence);
      request := Request(attempt.value, stripeSessionSequence);
    }

    /** The first step's errors: the gift type is only asked for outside the U.S. door. */
    method MontoErrors() returns (errors: Errors)
      ensures errors == Judged(rules, form, Step1Fields(View()))
    {
      errors := map[];
      if IsUsDonation(door, form) {
        var amountMessage := AmountMessage(rules, form.amount);
        if amountMessage.Some? {
          errors := errors[AmountField := amountMessage.value];
        }
      } else {
        errors := DonationStep1FieldErrors(rules, form);
      }
      JudgesIsJudged(rules, form, Step1Fields(View()), errors);
    }

    method ContinueFromMonto()
      requires Valid()
      modifies this
      ensures Valid()
      ensures View() == FromMonto(rules, old(View()))
    {
      var errors := MontoErrors();
      if errors != map[] {
        JudgedIsTruthful(rules, form, Step1Fields(View()));
        fieldErrors := errors;
        return;
      }
      fieldErrors := map[];
      if IsUsDonation(door, form) {
        var gift := Gift(monthly, offering, Cents(rules, form.amount));
        if stripeSession.None? || stripeSession.value.gift != gift {
          var session, _ := CreateStripeSessionAttempt();
          stripeSession := Some(session);
        }
      }
      step := 2;
    }

    /** Validates the donor's data; only a form without errors goes on to be posted. */
    method ContinueToPago() returns (submits: bool)
      requires Valid()
      modifies this
      ensures Valid()
      ensures View() == ToPago(rules, old(View()))
      ensures submits <==> forall i :: 0 <= i < |STEP2_ORDER| ==> Rule(rules, form, STEP2_ORDER[i]).None?
    {
      var errors := DonationStep2FieldErrors(rules, form);
      JudgesIsJudged(rules, form, STEP2_ORDER, errors);
      fieldErrors := errors;
      submits := errors == map[];
      assert !submits ==> exists f :: f in errors;
    }

    method RetryStripeSession()
      requires Valid()
      modifies this
      ensures Valid()
      ensures View() == Retried(rules, old(View()))
    {
      var session, _ := CreateStripeSessionAttempt();
      stripeSession := Some(session);
    }

    /** The failure of a request, whenever it arrives. */
    method RequestFailed(request: Request, unavailable: bool)
      requires Valid()
      modifies this
      ensures Valid()
      ensures var was := old(View());
              View() == was.(stripe := Rejected(was.stripe, request.sequence, request.ownedAttempt, unavailable))
    {
      stripeRejectedSequence := Some(request.sequence);
      if && unavailable && stripeAttempt.Some?
         && stripeAttempt.value.id == request.ownedAttempt.id && stripeAttempt.value.gift == request.ownedAttempt.gift
      {
        stripeAttempt := None;
      }
    }

    method GoBack()
      requires Valid()
      modifies this
      ensures Valid()
      ensures View() == WentBack(old(View()))
    {
      fieldErrors := map[];
      if step == 3 {
        step := 2;
        return;
      }
      if door == Some(Sv) && IsUsDonation(door, form) {
        monthly := false;
        Update(PickPais(""));
        return;
      }
      step := 1;
    }

    method EditAmount()
      requires Valid()
      modifies this
      ensures Valid()
      ensures View() == AmountEdited(old(View()))
    {
      fieldErrors := map[];
      if !IsUsDonation(door, form) {
        stripeAttempt := None;
        stripeSession := None;
      } else if stripeSession.Some? && Some(stripeSession.value.sequence) == stripeRejectedSequence {
        stripeRejectedSequence := None;
        stripeSession := None;
      }
      step := 1;
    }
  }
}
