/**
 * The donor wizard as a state machine: doors, steps, the form with its inline errors, and the Stripe requests of the
 * U.S. door. Handlers are functions of the page; a run applies them in any order their controls allow, with rejected
 * requests arriving at any time.
 */
module DonarPage {
  import opened Text
  import opened DonationForm

  datatype Door = Sv | Eeuu

  /** What a Stripe request is for. */
  datatype Gift = Gift(monthly: bool, offering: bool, cents: Option<int>)

  datatype Attempt = Attempt(gift: Gift, id: nat)
  datatype Session = Session(gift: Gift, sequence: nat)

  /** What is posted: the amount as text, the frequency and the gift type. */
  datatype Body = Body(amount: string, monthly: bool, offering: bool)
  datatype Post = Post(sequence: nat, body: Body, gift: Gift, id: nat)

  /** `minted` counts the request ids drawn so far, and `posts` records the requests sent. */
  datatype Stripe = Stripe(
    attempt: Option<Attempt>,
    session: Option<Session>,
    sequence: nat,
    rejected: Option<nat>,
    minted: nat,
    posts: seq<Post>)

  datatype Page = Page(
    form: Form,
    errors: Errors,
    door: Option<Door>,
    step: nat,
    monthly: bool,
    offering: bool,
    stripe: Stripe)

  const US_COUNTRY := "US"

  function Start(form: Form, door: Option<Door>): Page {
    Page(form, map[], door, 1, false, false, Stripe(None, None, 0, None, 0, []))
  }

  /** The amount in cents, rounded half up, when the text is a finite number. */
  function Cents(rules: Rules, amount: string): Option<int> {
    match rules.parse(rules.trim(amount))
    case None => None
    case Some(dollars) => Some((dollars * 100.0 + 0.5).Floor)
  }

  function CurrentGift(rules: Rules, page: Page): Gift {
    Gift(page.monthly, page.offering, Cents(rules, page.form.amount))
  }

  function CurrentBody(rules: Rules, page: Page): Body {
    Body(rules.trim(page.form.amount), page.monthly, page.offering)
  }

  predicate IsUsDonation(door: Option<Door>, form: Form) {
    door == Some(Eeuu) || (form.foreignResident && form.pais == US_COUNTRY)
  }

  predicate UsDonation(page: Page) {
    IsUsDonation(page.door, page.form)
  }

  // ----- Stripe requests -----

  predicate Reuses(stripe: Stripe, gift: Gift) {
    stripe.attempt.Some? && stripe.attempt.value.gift == gift
  }

  function OwnAttempt(stripe: Stripe, gift: Gift): Attempt {
    if Reuses(stripe, gift) then stripe.attempt.value else Attempt(gift, stripe.minted)
  }

  /** Sends a request for the gift, under the attempt's id when it is for the same gift, and shows its session. */
  function Requested(stripe: Stripe, gift: Gift, body: Body): Stripe {
    var attempt := OwnAttempt(stripe, gift);
    var sequence := stripe.sequence + 1;
    Stripe(Some(attempt), Some(Session(gift, sequence)), sequence, stripe.rejected,
           if Reuses(stripe, gift) then stripe.minted else stripe.minted + 1,
           stripe.posts + [Post(sequence, body, gift, attempt.id)])
  }

  /** A rejected request; only proof that its session can no longer be paid clears the attempt, and only its own. */
  function Rejected(stripe: Stripe, sequence: nat, own: Attempt, unavailable: bool): Stripe {
    var over := unavailable && stripe.attempt == Some(own);
    stripe.(rejected := Some(sequence), attempt := if over then None else stripe.attempt)
  }

  function Dropped(stripe: Stripe): Stripe {
    stripe.(attempt := None, session := None)
  }

  // ----- Handlers -----

  function Updated(page: Page, edit: Edit): Page {
    page.(form := Patched(page.form, edit), errors := Without(page.errors, EditedKeys(edit)))
  }

  function ForeignToggled(page: Page, foreignResident: bool): Page {
    Updated(page.(monthly := false), ToggleForeign(foreignResident))
  }

  /** Picking the United States moves the donor to the first step of the U.S. door. */
  function PaisPicked(page: Page, pais: string): Page {
    if pais == US_COUNTRY then
      page.(form := page.form.(foreignResident := false, pais := ""), errors := map[], door := Some(Eeuu), step := 1,
            monthly := false, offering := page.form.giftType == Some(Ofrenda), stripe := Dropped(page.stripe))
    else Updated(page.(monthly := false), PickPais(pais))
  }

  function DoorChosen(page: Page, next: Option<Door>): Page {
    page.(form := page.form.(foreignResident := false, pais := ""), errors := map[], door := next, step := 1,
          monthly := false, offering := false, stripe := Dropped(page.stripe))
  }

  function Step1Fields(page: Page): seq<Field> {
    if UsDonation(page) then [AmountField] else STEP1_ORDER
  }

  function FromMonto(rules: Rules, page: Page): Page {
    var errors := Judged(rules, page.form, Step1Fields(page));
    if errors != map[] then page.(errors := errors)
    else
      var gift := CurrentGift(rules, page);
      var kept := page.stripe.session.Some? && page.stripe.session.value.gift == gift;
      page.(errors := map[], step := 2,
            stripe := if UsDonation(page) && !kept then Requested(page.stripe, gift, CurrentBody(rules, page))
                      else page.stripe)
  }

  function ToPago(rules: Rules, page: Page): Page {
    page.(errors := Judged(rules, page.form, STEP2_ORDER))
  }

  function Retried(rules: Rules, page: Page): Page {
    page.(stripe := Requested(page.stripe, CurrentGift(rules, page), CurrentBody(rules, page)))
  }

  function WentBack(page: Page): Page {
    if page.step == 3 then page.(errors := map[], step := 2)
    else if page.door == Some(Sv) && UsDonation(page) then
      page.(errors := map[], monthly := false, form := page.form.(pais := ""))
    else page.(errors := map[], step := 1)
  }

  function AmountEdited(page: Page): Page {
    var own := page.stripe.session.Some? && page.stripe.rejected == Some(page.stripe.session.value.sequence);
    page.(errors := map[], step := 1,
          stripe := if !UsDonation(page) then Dropped(page.stripe)
                    else if own then page.stripe.(rejected := None, session := None)
                    else page.stripe)
  }

  // ----- Runs -----

  datatype Event =
    | Updates(edit: Edit)
    | TogglesForeign(foreignResident: bool)
    | PicksPais(pais: string)
    | PicksFrequency(monthly: bool)
    | PicksStripeGift(offering: bool)
    | ChoosesDoor(next: Option<Door>)
    | ContinuesFromMonto
    | ContinuesToPago
    | IntentCreated
    | Retries
    | GoesBack
    | EditsAmount
    | RequestRejected(sequence: nat, unavailable: bool)

  /** On which screens the control behind an event is there; a request sent may be rejected at any time. */
  predicate Offered(page: Page, event: Event) {
    match event
    case RequestRejected(sequence, _) => 1 <= sequence <= |page.stripe.posts|
    case ChoosesDoor(next) => page.step == 1 && (page.door.None? <==> next.Some?)
    case _ => page.door.Some? && OfferedInWizard(page, UsDonation(page), event)
  }

  predicate OfferedInWizard(page: Page, us: bool, event: Event) {
    match event
    case Updates(PickGiftType(_)) => page.step == 1 && !us
    case Updates(TypeAmount(_)) => page.step == 1
    case Updates(ToggleForeign(_)) => false
    case Updates(PickPais(_)) => false
    case Updates(_) => page.step == 2 && !us
    case TogglesForeign(_) => page.step == 2 && !us
    case PicksPais(_) => page.step == 2 && !us && page.form.foreignResident
    case PicksFrequency(_) => page.step == 1 && us
    case PicksStripeGift(_) => page.step == 1 && us
    case ContinuesFromMonto => page.step == 1
    case ContinuesToPago => page.step == 2 && !us
    case IntentCreated => page.step == 2 && !us
    case Retries => page.step == 2 && us && page.stripe.session.Some?
    case GoesBack => page.step > 1
    case EditsAmount => if us then page.step == 2 else page.step == 3
    case _ => false
  }

  function Apply(rules: Rules, page: Page, event: Event): Page {
    if !Offered(page, event) then page
    else
      match event
      case Updates(edit) => Updated(page, edit)
      case TogglesForeign(foreignResident) => ForeignToggled(page, foreignResident)
      case PicksPais(pais) => PaisPicked(page, pais)
      case PicksFrequency(monthly) => page.(monthly := monthly)
      case PicksStripeGift(offering) => page.(offering := offering)
      case ChoosesDoor(next) => DoorChosen(page, next)
      case ContinuesFromMonto => FromMonto(rules, page)
      case ContinuesToPago => ToPago(rules, page)
      case IntentCreated => page.(step := 3)
      case Retries => Retried(rules, page)
      case GoesBack => WentBack(page)
      case EditsAmount => AmountEdited(page)
      case RequestRejected(sequence, unavailable) =>
        var post := page.stripe.posts[sequence - 1];
        page.(stripe := Rejected(page.stripe, post.sequence, Attempt(post.gift, post.id), unavailable))
  }

  function Run(rules: Rules, page: Page, events: seq<Event>): Page
    decreases |events|
  {
    if events == [] then page else Run(rules, Apply(rules, page, events[0]), events[1..])
  }

  // ----- Inline errors -----

  lemma JudgedIsTruthful(rules: Rules, form: Form, fields: seq<Field>)
    ensures Truthful(rules, form, Judged(rules, form, fields))
  {
  }

  lemma StepKeepsErrorsTrue(rules: Rules, page: Page, event: Event)
    requires Truthful(rules, page.form, page.errors)
    ensures var next := Apply(rules, page, event);
            Truthful(rules, next.form, next.errors)
  {
    JudgedIsTruthful(rules, page.form, Step1Fields(page));
    JudgedIsTruthful(rules, page.form, STEP2_ORDER);
    if event.Updates? {
      EditKeepsErrorsTrue(rules, page.form, page.errors, event.edit);
    } else if event.TogglesForeign? {
      EditKeepsErrorsTrue(rules, page.form, page.errors, ToggleForeign(event.foreignResident));
    } else if event.PicksPais? {
      EditKeepsErrorsTrue(rules, page.form, page.errors, PickPais(event.pais));
    }
  }

  /** In every run, each message shown is the one the form deserves at that moment. */
  lemma {:induction false} ShownErrorsAreTrue(rules: Rules, page: Page, events: seq<Event>)
    requires Truthful(rules, page.form, page.errors)
    ensures var next := Run(rules, page, events);
            Truthful(rules, next.form, next.errors)
    decreases |events|
  {
    if events != [] {
      StepKeepsErrorsTrue(rules, page, events[0]);
      ShownErrorsAreTrue(rules, Apply(rules, page, events[0]), events[1..]);
    }
  }

  // ----- The screens -----

  /** What the wizard starts from: the first step, a single tithe, nothing asked and nothing wrong. */
  lemma FirstScreen(form: Form, door: Option<Door>)
    ensures var page := Start(form, door);
            && page.form == form && page.door == door && page.step == 1 && page.errors == map[]
            && !page.monthly && !page.offering
            && page.stripe.posts == [] && page.stripe.attempt.None? && page.stripe.session.None?
            && page.stripe.rejected.None?
  {
  }

  /** A rejected request can be any one sent, on any screen; before a door is chosen there is only the choice of one. */
  lemma ControlsEverywhere(page: Page, event: Event)
    ensures event.RequestRejected? ==> (Offered(page, event) <==> 1 <= event.sequence <= |page.stripe.posts|)
    ensures page.door.None? && !event.RequestRejected? ==>
              (Offered(page, event) <==> page.step == 1 && event.ChoosesDoor? && event.next.Some?)
  {
  }

  /** The first step: back to the doors, the amount, and what the lane asks beside it. */
  lemma ControlsOfTheFirstStep(page: Page, event: Event)
    requires page.door.Some? && page.step == 1 && !event.RequestRejected?
    ensures Offered(page, event) <==>
            || (event.ChoosesDoor? && event.next.None?)
            || (event.Updates? && event.edit.TypeAmount?)
            || event.ContinuesFromMonto?
            || (!UsDonation(page) && event.Updates? && event.edit.PickGiftType?)
            || (UsDonation(page) && (event.PicksFrequency? || event.PicksStripeGift?))
  {
  }

  /** The second step: the donor's data, or for the U.S. the session with its retry and the gift's own edit. */
  lemma ControlsOfTheSecondStep(page: Page, event: Event)
    requires page.door.Some? && page.step == 2 && !event.RequestRejected?
    ensures var typed := event.Updates? && !(event.edit.PickGiftType? || event.edit.TypeAmount?
                                             || event.edit.ToggleForeign? || event.edit.PickPais?);
            Offered(page, event) <==>
            || event.GoesBack?
            || (UsDonation(page) && (event.EditsAmount? || (event.Retries? && page.stripe.session.Some?)))
            || (!UsDonation(page)
                && (|| typed || event.TogglesForeign? || (event.PicksPais? && page.form.foreignResident)
                    || event.ContinuesToPago? || event.IntentCreated?))
  {
  }

  lemma ControlsOfTheThirdStep(page: Page, event: Event)
    requires page.door.Some? && page.step == 3 && !event.RequestRejected?
    ensures Offered(page, event) <==> event.GoesBack? || (event.EditsAmount? && !UsDonation(page))
  {
  }

  /** In every run the U.S. form is shown exactly behind the U.S. door, since picking that country leads there. */
  lemma {:induction false} LaneIsItsDoor(rules: Rules, page: Page, events: seq<Event>)
    requires !(page.form.foreignResident && page.form.pais == "US")
    ensures var next := Run(rules, page, events);
            (UsDonation(next) <==> next.door == Some(Eeuu)) && !(next.form.foreignResident && next.form.pais == "US")
    decreases |events|
  {
    if events != [] {
      CountryLeadsToItsDoor(rules, page, events[0]);
      LaneIsItsDoor(rules, Apply(rules, page, events[0]), events[1..]);
    }
  }

  lemma CountryLeadsToItsDoor(rules: Rules, page: Page, event: Event)
    requires !(page.form.foreignResident && page.form.pais == "US")
    ensures var form := Apply(rules, page, event).form;
            !(form.foreignResident && form.pais == "US")
  {
    if Offered(page, event) {
      DataFollowTheirControls(rules, page, event);
      AddressFollowsItsControls(rules, page, event);
    }
  }

  /** An edit takes exactly the errors off the page that it can affect. */
  lemma EditsClearTheirErrors(rules: Rules, page: Page, event: Event, f: Field)
    requires Offered(page, event) && event.Updates?
    ensures var errors := Apply(rules, page, event).errors;
            && (f in errors <==> f in page.errors && f !in Cleared(EditedKeys(event.edit)))
            && (f in errors ==> errors[f] == page.errors[f])
  {
  }

  /** Which session counts as rejected: the last whose rejection came, until its own edit drops it. */
  lemma RejectionFollows(rules: Rules, page: Page, event: Event)
    requires Sound(page.stripe) && Offered(page, event)
    ensures var s := page.stripe;
            Apply(rules, page, event).stripe.rejected ==
              if event.RequestRejected? then Some(event.sequence)
              else if event.EditsAmount? && UsDonation(page) && s.session.Some?
                      && s.rejected == Some(s.session.value.sequence) then None
              else s.rejected
  {
  }

  // ----- What each field of the page follows -----

  /** Going back from the U.S. form that a country brought up under the Salvadoran door. */
  predicate BacksOutOfTheUs(page: Page) {
    page.step != 3 && page.door == Some(Sv) && UsDonation(page)
  }

  /** The controls' own values: the amount is what was typed last, and only a change of lane moves what it implies. */
  lemma TypedValuesFollowTheirControls(rules: Rules, page: Page, event: Event)
    ensures var next := Apply(rules, page, event);
            var on := Offered(page, event);
            var edit := if on && event.Updates? then Some(event.edit) else None;
            && next.form.amount ==
               (if edit.Some? && edit.value.TypeAmount? then edit.value.amount else page.form.amount)
            && next.form.giftType ==
               (if edit.Some? && edit.value.PickGiftType? then Some(edit.value.giftType) else page.form.giftType)
            && next.monthly ==
               (if !on then page.monthly
                else if event.PicksFrequency? then event.monthly
                else if event.ChoosesDoor? || event.TogglesForeign? || event.PicksPais? then false
                else if event.GoesBack? && BacksOutOfTheUs(page) then false
                else page.monthly)
            && next.offering ==
               (if !on then page.offering
                else if event.PicksStripeGift? then event.offering
                else if event.ChoosesDoor? then false
                else if event.PicksPais? && event.pais == "US" then page.form.giftType == Some(Ofrenda)
                else page.offering)
  {
    if event.Updates? {
      match event.edit { case _ => }
    }
  }

  /** Each control writes its own field, and a document type or a residence empties what it re-scopes. */
  lemma DataFollowTheirControls(rules: Rules, page: Page, event: Event)
    requires Offered(page, event)
    ensures var f, next := page.form, Apply(rules, page, event).form;
            var leaves := event.ChoosesDoor? || (event.PicksPais? && event.pais == "US");
            var edit := if event.Updates? then Some(event.edit) else None;
            var retyped := edit.Some? && edit.value.PickDocumentType?;
            && next.donorDocumentType == (if retyped then edit.value.documentType else f.donorDocumentType)
            && next.donorDocument == (if retyped then "" else if edit.Some? && edit.value.TypeDocument?
                                      then edit.value.document else f.donorDocument)
            && next.donorName == (if retyped then "" else if edit.Some? && edit.value.TypeName?
                                  then edit.value.name else f.donorName)
            && next.foreignResident == (if leaves then false else if event.TogglesForeign? then event.foreignResident
                                        else f.foreignResident)
  {
    if event.Updates? {
      match event.edit { case _ => }
    }
  }

  lemma AddressFollowsItsControls(rules: Rules, page: Page, event: Event)
    requires Offered(page, event)
    ensures var f, next := page.form, Apply(rules, page, event).form;
            var leaves := event.ChoosesDoor? || (event.PicksPais? && event.pais == "US");
            var edit := if event.Updates? then Some(event.edit) else None;
            var moved := edit.Some? && edit.value.PickDepartamento?;
            && next.pais == (if leaves || event.TogglesForeign? || (event.GoesBack? && BacksOutOfTheUs(page)) then ""
                             else if event.PicksPais? then event.pais else f.pais)
            && next.departamento == (if event.TogglesForeign? then "" else if moved then edit.value.departamento
                                     else f.departamento)
            && next.municipio == (if event.TogglesForeign? || moved then ""
                                  else if edit.Some? && edit.value.PickMunicipio? then edit.value.municipio
                                  else f.municipio)
            && next.distrito == (if event.TogglesForeign? || moved then ""
                                 else if edit.Some? && edit.value.PickDistrito? then edit.value.distrito
                                 else f.distrito)
  {
    if event.Updates? {
      match event.edit { case _ => }
    }
  }

  /** The amount the first step accepts, in its own words: a number of at least one dollar. */
  predicate Acceptable(rules: Rules, amount: string) {
    var text := rules.trim(amount);
    text != "" && rules.parse(text).Some? && rules.parse(text).value >= 1.0
  }

  /**
   * Where the wizard stands: the first step is passed exactly with an acceptable amount and, outside the U.S. door, a
   * gift type; the third is reached by an intent only, and everything else goes back or stays.
   */
  lemma StepsFollow(rules: Rules, page: Page, event: Event)
    requires Offered(page, event)
    ensures var next := Apply(rules, page, event);
            var accepted := Acceptable(rules, page.form.amount) && (UsDonation(page) || page.form.giftType.Some?);
            && next.step ==
               (if event.ContinuesFromMonto? then (if accepted then 2 else page.step)
                else if event.IntentCreated? then 3
                else if event.ChoosesDoor? || event.EditsAmount? || (event.PicksPais? && event.pais == "US") then 1
                else if event.GoesBack? then
                  (if page.step == 3 then 2 else if BacksOutOfTheUs(page) then page.step else 1)
                else page.step)
            && next.door ==
               (if event.ChoosesDoor? then event.next
                else if event.PicksPais? && event.pais == "US" then Some(Eeuu) else page.door)
            && (event.ContinuesFromMonto? ==> (next.errors == map[] <==> accepted))
            && (event.GoesBack? || event.EditsAmount? || event.ChoosesDoor? ==> next.errors == map[])
            && (event.PicksPais? && event.pais == "US" ==> next.errors == map[])
  {
    if event.ContinuesFromMonto? {
      MontoAccepts(rules, page);
    }
  }

  /** A submit of either step judges exactly that step's own fields, and shows each message deserved. */
  lemma SubmitJudgesItsStep(rules: Rules, page: Page, event: Event, f: Field)
    requires Offered(page, event) && (event.ContinuesFromMonto? || event.ContinuesToPago?)
    ensures var errors := Apply(rules, page, event).errors;
            var ofMonto := f == AmountField || (f == GiftTypeField && !UsDonation(page));
            && (f in errors <==>
                Rule(rules, page.form, f).Some?
                && (if event.ContinuesFromMonto? then ofMonto else f != AmountField && f != GiftTypeField))
            && (f in errors ==> Some(errors[f]) == Rule(rules, page.form, f))
  {
    if event.ContinuesFromMonto? {
      JudgedFields(rules, page.form, Step1Fields(page), f);
    } else {
      JudgedFields(rules, page.form, STEP2_ORDER, f);
    }
  }

  lemma JudgedFields(rules: Rules, form: Form, fields: seq<Field>, f: Field)
    ensures f in Judged(rules, form, fields) <==> f in fields && Rule(rules, form, f).Some?
    ensures f in Judged(rules, form, fields) ==> Some(Judged(rules, form, fields)[f]) == Rule(rules, form, f)
  {
  }

  lemma MontoAccepts(rules: Rules, page: Page)
    ensures Judged(rules, page.form, Step1Fields(page)) == map[] <==>
            Acceptable(rules, page.form.amount) && (UsDonation(page) || page.form.giftType.Some?)
  {
    var judged := Judged(rules, page.form, Step1Fields(page));
    assert AmountField in judged <==> !Acceptable(rules, page.form.amount);
    assert GiftTypeField in judged <==> !UsDonation(page) && page.form.giftType.None?;
    if judged != map[] {
      var f :| f in judged;
      assert f == AmountField || f == GiftTypeField;
    }
  }

  /** When a session is asked for: passing the first step of the U.S. door without one for this gift, and a retry. */
  lemma RequestsFollow(rules: Rules, page: Page, event: Event)
    requires Offered(page, event)
    ensures var s, next := page.stripe, Apply(rules, page, event).stripe;
            var asks :=
              || event.Retries?
              || (event.ContinuesFromMonto? && UsDonation(page) && Acceptable(rules, page.form.amount)
                  && (s.session.None? || s.session.value.gift != CurrentGift(rules, page)));
            && (|next.posts| > |s.posts| <==> asks)
            && (asks ==> next.session == Some(Session(CurrentGift(rules, page), s.sequence + 1)))
            && var drops :=
                 || event.ChoosesDoor? || (event.PicksPais? && event.pais == "US")
                 || (event.EditsAmount? && (!UsDonation(page)
                                            || (s.session.Some? && s.rejected == Some(s.session.value.sequence))));
               (!asks ==> next.session == if drops then None else s.session)
  {
    if event.ContinuesFromMonto? {
      MontoAccepts(rules, page);
    }
  }

  // ----- Request ids -----

  /** Requests are numbered in order, each id stands for one gift, and attempt and session match what was sent. */
  ghost predicate Sound(s: Stripe) {
    && s.sequence == |s.posts|
    && (forall i :: 0 <= i < |s.posts| ==> s.posts[i].sequence == i + 1 && s.posts[i].id < s.minted)
    && OneGiftPerId(s.posts)
    && (s.attempt.Some? ==>
          s.attempt.value.id < s.minted && IdIsFor(s.posts, s.attempt.value.id, s.attempt.value.gift))
    && (s.session.Some? ==>
          && 1 <= s.session.value.sequence <= |s.posts|
          && s.posts[s.session.value.sequence - 1].gift == s.session.value.gift)
  }

  predicate OneGiftPerId(posts: seq<Post>) {
    forall i, j :: 0 <= i < |posts| && 0 <= j < |posts| && posts[i].id == posts[j].id ==> posts[i].gift == posts[j].gift
  }

  predicate IdIsFor(posts: seq<Post>, id: nat, gift: Gift) {
    forall i :: 0 <= i < |posts| && posts[i].id == id ==> posts[i].gift == gift
  }

  lemma RequestedIsSound(s: Stripe, gift: Gift, body: Body)
    requires Sound(s)
    ensures Sound(Requested(s, gift, body))
  {
    var attempt := OwnAttempt(s, gift);
    assert IdIsFor(s.posts, attempt.id, gift);
  }

  lemma StepKeepsSound(rules: Rules, page: Page, event: Event)
    requires Sound(page.stripe)
    ensures Sound(Apply(rules, page, event).stripe)
  {
    if event.RequestRejected? && Offered(page, event) {
      var post := page.stripe.posts[event.sequence - 1];
      RejectedIsSound(page.stripe, post.sequence, Attempt(post.gift, post.id), event.unavailable);
    } else if event.ContinuesFromMonto? || event.Retries? {
      RequestedIsSound(page.stripe, CurrentGift(rules, page), CurrentBody(rules, page));
    }
  }

  lemma RejectedIsSound(s: Stripe, sequence: nat, own: Attempt, unavailable: bool)
    requires Sound(s)
    ensures Sound(Rejected(s, sequence, own, unavailable))
  {
  }

  lemma {:induction false} RunKeepsSound(rules: Rules, page: Page, events: seq<Event>)
    requires Sound(page.stripe)
    ensures Sound(Run(rules, page, events).stripe)
    decreases |events|
  {
    if events != [] {
      StepKeepsSound(rules, page, events[0]);
      RunKeepsSound(rules, Apply(rules, page, events[0]), events[1..]);
    }
  }

  // ----- What a gift stands for -----

  /** The whole number of cents nearest to an amount of dollars, a half going up. */
  predicate Rounds(dollars: real, cents: int) {
    cents as real - 0.5 <= 100.0 * dollars < cents as real + 0.5
  }

  lemma CentsRound(rules: Rules, amount: string)
    ensures match rules.parse(rules.trim(amount))
            case None => Cents(rules, amount).None?
            case Some(dollars) => Cents(rules, amount).Some? && Rounds(dollars, Cents(rules, amount).value)
  {
  }

  lemma RoundsToOne(dollars: real, c: int, d: int)
    requires Rounds(dollars, c) && Rounds(dollars, d)
    ensures c == d
  {
  }

  /** Two posted amounts are one gift's: both are no number, or both round to the same cents. */
  ghost predicate SameAmount(rules: Rules, a: string, b: string) {
    match (rules.parse(a), rules.parse(b))
    case (None, None) => true
    case (Some(x), Some(y)) => exists c: int :: Rounds(x, c) && Rounds(y, c)
    case _ => false
  }

  ghost predicate SameBody(rules: Rules, a: Body, b: Body) {
    a.monthly == b.monthly && a.offering == b.offering && SameAmount(rules, a.amount, b.amount)
  }

  /** Two pages ask for one gift exactly when frequency and gift type agree and the amounts round to the same cents. */
  lemma SameGiftIff(rules: Rules, p: Page, q: Page)
    ensures CurrentGift(rules, p) == CurrentGift(rules, q) <==>
            SameBody(rules, CurrentBody(rules, p), CurrentBody(rules, q))
  {
    CentsRound(rules, p.form.amount);
    CentsRound(rules, q.form.amount);
    var a, b := Cents(rules, p.form.amount), Cents(rules, q.form.amount);
    var x, y := rules.parse(rules.trim(p.form.amount)), rules.parse(rules.trim(q.form.amount));
    if x.Some? && y.Some? {
      assert a == b ==> Rounds(x.value, a.value) && Rounds(y.value, a.value);
      if c: int :| Rounds(x.value, c) && Rounds(y.value, c) {
        RoundsToOne(x.value, a.value, c);
        RoundsToOne(y.value, b.value, c);
      }
    }
  }

  /** The gift a request is filed under is the one its body asks for. */
  ghost predicate FiledRight(rules: Rules, post: Post) {
    && post.gift.monthly == post.body.monthly && post.gift.offering == post.body.offering
    && match rules.parse(post.body.amount)
       case None => post.gift.cents.None?
       case Some(dollars) => post.gift.cents.Some? && Rounds(dollars, post.gift.cents.value)
  }

  ghost predicate AllFiledRight(rules: Rules, posts: seq<Post>) {
    forall i :: 0 <= i < |posts| ==> FiledRight(rules, posts[i])
  }

  /** A request is added only by the first step or a retry, and its body is what the page shows. */
  lemma StepFilesRight(rules: Rules, page: Page, event: Event)
    requires AllFiledRight(rules, page.stripe.posts)
    ensures var posts, next := page.stripe.posts, Apply(rules, page, event).stripe.posts;
            && AllFiledRight(rules, next) && posts <= next
            && (next == posts || (|next| == |posts| + 1 && next[|posts|].body == CurrentBody(rules, page)
                                  && (event.ContinuesFromMonto? || event.Retries?)))
  {
    CentsRound(rules, page.form.amount);
  }

  lemma {:induction false} RunFilesRight(rules: Rules, page: Page, events: seq<Event>)
    requires AllFiledRight(rules, page.stripe.posts)
    ensures AllFiledRight(rules, Run(rules, page, events).stripe.posts)
    decreases |events|
  {
    if events != [] {
      StepFilesRight(rules, page, events[0]);
      RunFilesRight(rules, Apply(rules, page, events[0]), events[1..]);
    }
  }

  /**
   * In every run, requests under one id ask for one frequency, one gift type and amounts that round to the same cents,
   * and sequence numbers strictly increase.
   */
  lemma RequestIdBindsOneGift(rules: Rules, form: Form, door: Option<Door>, events: seq<Event>)
    ensures var posts := Run(rules, Start(form, door), events).stripe.posts;
            && (forall i, j :: 0 <= i < |posts| && 0 <= j < |posts| && posts[i].id == posts[j].id ==>
                  SameBody(rules, posts[i].body, posts[j].body))
            && forall i, j :: 0 <= i < j < |posts| ==> posts[i].sequence < posts[j].sequence
  {
    RunKeepsSound(rules, Start(form, door), events);
    RunFilesRight(rules, Start(form, door), events);
    var posts := Run(rules, Start(form, door), events).stripe.posts;
    forall i, j | 0 <= i < |posts| && 0 <= j < |posts| && posts[i].id == posts[j].id
      ensures SameBody(rules, posts[i].body, posts[j].body)
    {
      assert FiledRight(rules, posts[i]) && FiledRight(rules, posts[j]) && posts[i].gift == posts[j].gift;
    }
  }

  // ----- The session shown -----

  /** The U.S. payment step has a session, for the gift on the page; the third step is not for the U.S. */
  predicate ShowsItsGift(rules: Rules, page: Page) {
    UsDonation(page) ==>
      && page.step != 3
      && (page.step == 2 ==> page.stripe.session.Some? && page.stripe.session.value.gift == CurrentGift(rules, page))
  }

  lemma StepShowsItsGift(rules: Rules, page: Page, event: Event)
    requires ShowsItsGift(rules, page)
    ensures ShowsItsGift(rules, Apply(rules, page, event))
  {
    if event.Updates? && Offered(page, event) {
      UpdatesKeepTheScreen(page, event.edit);
    }
  }

  lemma UpdatesKeepTheScreen(page: Page, edit: Edit)
    requires page.door.Some? && OfferedInWizard(page, UsDonation(page), Updates(edit))
    ensures page.step == 1 || !UsDonation(Updated(page, edit))
  {
  }

  lemma {:induction false} RunShowsItsGift(rules: Rules, page: Page, events: seq<Event>)
    requires ShowsItsGift(rules, page)
    ensures ShowsItsGift(rules, Run(rules, page, events))
    decreases |events|
  {
    if events != [] {
      StepShowsItsGift(rules, page, events[0]);
      RunShowsItsGift(rules, Apply(rules, page, events[0]), events[1..]);
    }
  }

  /**
   * In every run, the session shown on the U.S. payment step was requested with a body for the very gift on the page:
   * its frequency, its gift type, and an amount that rounds to the same cents.
   */
  lemma ShownSessionIsForTheGift(rules: Rules, form: Form, door: Option<Door>, events: seq<Event>)
    ensures var page := Run(rules, Start(form, door), events);
            var s := page.stripe;
            page.step == 2 && UsDonation(page) ==>
              && s.session.Some? && 1 <= s.session.value.sequence <= |s.posts|
              && SameBody(rules, s.posts[s.session.value.sequence - 1].body, CurrentBody(rules, page))
  {
    RunKeepsSound(rules, Start(form, door), events);
    RunFilesRight(rules, Start(form, door), events);
    RunShowsItsGift(rules, Start(form, door), events);
    var page := Run(rules, Start(form, door), events);
    var s := page.stripe;
    if page.step == 2 && UsDonation(page) {
      CentsRound(rules, page.form.amount);
      assert FiledRight(rules, s.posts[s.session.value.sequence - 1]);
    }
  }

  /** Only gifts of at least one dollar are ever sent. */
  predicate Payable(gift: Gift) {
    gift.cents.Some? && gift.cents.value >= 100
  }

  ghost predicate SendsPayable(s: Stripe) {
    forall i :: 0 <= i < |s.posts| ==> Payable(s.posts[i].gift)
  }

  lemma AcceptedAmountIsPayable(rules: Rules, page: Page)
    requires AmountMessage(rules, page.form.amount).None?
    ensures Payable(CurrentGift(rules, page))
  {
    var dollars := rules.parse(rules.trim(page.form.amount)).value;
    assert dollars * 100.0 + 0.5 >= 100.0;
  }

  lemma NoErrorsAcceptTheAmount(rules: Rules, page: Page)
    requires Judged(rules, page.form, Step1Fields(page)) == map[]
    ensures AmountMessage(rules, page.form.amount).None?
  {
    assert AmountField !in Judged(rules, page.form, Step1Fields(page));
  }

  lemma StepSendsPayable(rules: Rules, page: Page, event: Event)
    requires ShowsItsGift(rules, page) && Sound(page.stripe) && SendsPayable(page.stripe)
    ensures SendsPayable(Apply(rules, page, event).stripe)
  {
    if event.ContinuesFromMonto? && Judged(rules, page.form, Step1Fields(page)) == map[] {
      NoErrorsAcceptTheAmount(rules, page);
      AcceptedAmountIsPayable(rules, page);
    }
  }

  /** In every run, every request sent, retries included, is for an amount the first step accepts. */
  lemma {:induction false} EveryRequestIsPayable(rules: Rules, page: Page, events: seq<Event>)
    requires ShowsItsGift(rules, page) && Sound(page.stripe) && SendsPayable(page.stripe)
    ensures SendsPayable(Run(rules, page, events).stripe)
    decreases |events|
  {
    if events != [] {
      StepShowsItsGift(rules, page, events[0]);
      StepKeepsSound(rules, page, events[0]);
      StepSendsPayable(rules, page, events[0]);
      EveryRequestIsPayable(rules, Apply(rules, page, events[0]), events[1..]);
    }
  }

  // ----- Reusing and retiring ids -----

  /**
   * A new request carries the id of the attempt when that is for the same gift, and an id never sent before when it
   * is not.
   */
  lemma RequestReusesTheAttempt(s: Stripe, gift: Gift, body: Body)
    requires Sound(s)
    ensures var posts := Requested(s, gift, body).posts;
            && |posts| == |s.posts| + 1 && posts[..|s.posts|] == s.posts
            && var sent := posts[|s.posts|];
            && sent.sequence == |posts| && sent.gift == gift && sent.body == body
            && (if s.attempt.Some? && s.attempt.value.gift == gift then sent.id == s.attempt.value.id
                else forall i :: 0 <= i < |s.posts| ==> s.posts[i].id != sent.id)
  {
  }

  /** What can clear the attempt: leaving for the chooser, a door or the U.S., and proof that it is over. */
  predicate ClearsAttempt(page: Page, event: Event) {
    match event
    case ChoosesDoor(_) => true
    case PicksPais(pais) => pais == US_COUNTRY
    case EditsAmount => !UsDonation(page)
    case RequestRejected(sequence, unavailable) =>
      unavailable && Offered(page, event)
      && page.stripe.attempt == Some(Attempt(page.stripe.posts[sequence - 1].gift, page.stripe.posts[sequence - 1].id))
    case _ => false
  }

  lemma AttemptIsClearedIff(rules: Rules, page: Page, event: Event)
    requires page.stripe.attempt.Some?
    ensures Apply(rules, page, event).stripe.attempt.None? <==> Offered(page, event) && ClearsAttempt(page, event)
  {
  }

  /** A rejection that comes late clears nothing but the attempt its own request was sent under. */
  lemma LateRejectionClearsOnlyItsOwn(s: Stripe, sequence: nat, unavailable: bool)
    requires Sound(s) && 1 <= sequence <= |s.posts|
    ensures var post := s.posts[sequence - 1];
            var next := Rejected(s, post.sequence, Attempt(post.gift, post.id), unavailable);
            && next.posts == s.posts && next.session == s.session && next.rejected == Some(sequence)
            && next.attempt == if s.attempt.Some? && s.attempt.value.id == s.posts[sequence - 1].id && unavailable
                               then None else s.attempt
  {
  }

  ghost predicate Retired(s: Stripe, id: nat) {
    id < s.minted && (s.attempt.Some? ==> s.attempt.value.id != id)
  }

  lemma StepKeepsRetired(rules: Rules, page: Page, event: Event, id: nat)
    requires Retired(page.stripe, id)
    ensures var next := Apply(rules, page, event).stripe;
            && Retired(next, id) && page.stripe.posts <= next.posts
            && forall i :: |page.stripe.posts| <= i < |next.posts| ==> next.posts[i].id != id
  {
  }

  /** Once the attempt with an id is cleared or replaced, no run sends that id again. */
  lemma {:induction false} RetiredIdIsNeverSentAgain(rules: Rules, page: Page, events: seq<Event>, id: nat)
    requires Retired(page.stripe, id)
    ensures var next := Run(rules, page, events).stripe;
            && Retired(next, id) && page.stripe.posts <= next.posts
            && forall i :: |page.stripe.posts| <= i < |next.posts| ==> next.posts[i].id != id
    decreases |events|
  {
    if events != [] {
      StepKeepsRetired(rules, page, events[0], id);
      RetiredIdIsNeverSentAgain(rules, Apply(rules, page, events[0]), events[1..], id);
    }
  }

  ghost predicate NeverClears(rules: Rules, page: Page, events: seq<Event>)
    decreases |events|
  {
    events == [] ||
    (!(Offered(page, events[0]) && ClearsAttempt(page, events[0]))
     && NeverClears(rules, Apply(rules, page, events[0]), events[1..]))
  }

  lemma StepKeepsAttempt(rules: Rules, page: Page, event: Event)
    requires page.stripe.attempt.Some? && !(Offered(page, event) && ClearsAttempt(page, event))
    ensures var s, next := page.stripe, Apply(rules, page, event).stripe;
            && s.posts <= next.posts && |next.posts| <= |s.posts| + 1
            && (|next.posts| == |s.posts| ==> next.attempt == s.attempt)
            && (|next.posts| > |s.posts| ==>
                  && next == Requested(s, CurrentGift(rules, page), CurrentBody(rules, page))
                  && next.posts[|s.posts|].gift == CurrentGift(rules, page))
  {
  }

  /** From position `n` on, every request is for the gift. */
  ghost predicate AllFor(posts: seq<Post>, n: nat, gift: Gift) {
    forall i :: n <= i < |posts| ==> posts[i].gift == gift
  }

  lemma StepKeepsItsId(rules: Rules, page: Page, event: Event, attempt: Attempt)
    requires page.stripe.attempt == Some(attempt) && !(Offered(page, event) && ClearsAttempt(page, event))
    requires var sent := Apply(rules, page, event).stripe.posts;
             |sent| > |page.stripe.posts| ==> sent[|page.stripe.posts|].gift == attempt.gift
    ensures var next := Apply(rules, page, event).stripe;
            && next.attempt == Some(attempt)
            && forall i :: |page.stripe.posts| <= i < |next.posts| ==> next.posts[i].id == attempt.id
  {
    StepKeepsAttempt(rules, page, event);
  }

  /**
   * Unless the attempt is cleared, however often the same gift is sent again, in any run, no new request id is drawn
   * for it.
   */
  lemma {:induction false} SameGiftKeepsItsId(rules: Rules, page: Page, events: seq<Event>, attempt: Attempt)
    requires page.stripe.attempt == Some(attempt) && NeverClears(rules, page, events)
    requires AllFor(Run(rules, page, events).stripe.posts, |page.stripe.posts|, attempt.gift)
    ensures var next := Run(rules, page, events).stripe;
            && page.stripe.posts <= next.posts && next.attempt == Some(attempt)
            && forall i :: |page.stripe.posts| <= i < |next.posts| ==> next.posts[i].id == attempt.id
    decreases |events|
  {
    if events != [] {
      var later := Apply(rules, page, events[0]);
      StepOnlyAddsPosts(rules, page, events[0]);
      PostsOnlyGrow(rules, later, events[1..]);
      var n, sent, posts := |page.stripe.posts|, later.stripe.posts, Run(rules, page, events).stripe.posts;
      assert posts == Run(rules, later, events[1..]).stripe.posts && AllFor(posts, |sent|, attempt.gift);
      assert sent <= posts;
      assert |sent| > n ==> posts[n] == sent[n] && posts[n].gift == attempt.gift;
      StepKeepsItsId(rules, page, events[0], attempt);
      SameGiftKeepsItsId(rules, later, events[1..], attempt);
    }
  }

  lemma StepOnlyAddsPosts(rules: Rules, page: Page, event: Event)
    ensures page.stripe.posts <= Apply(rules, page, event).stripe.posts
  {
  }

  lemma {:induction false} PostsOnlyGrow(rules: Rules, page: Page, events: seq<Event>)
    ensures page.stripe.posts <= Run(rules, page, events).stripe.posts
    decreases |events|
  {
    if events != [] {
      StepOnlyAddsPosts(rules, page, events[0]);
      PostsOnlyGrow(rules, Apply(rules, page, events[0]), events[1..]);
    }
  }
}
